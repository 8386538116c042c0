/** One Redis stream as seen by one consumer group, and the parsing of its entries. */
module StreamGroup {
  import opened Wrappers

  /** An entry is malformed when its payload does not parse as an event. */
  type Entry = Option<string>

  /** The position of an entry in its stream stands for its id. */
  datatype Message = Message(id: nat, event: string)

  /** The entries from `start` up to `delivered` have been handed out; `pending` holds those of them
      that are not acknowledged. */
  datatype Group = Group(entries: seq<Entry>, start: nat, delivered: nat, pending: set<nat>)

  ghost predicate ValidGroup(g: Group) {
    g.start <= g.delivered <= |g.entries| && forall i :: i in g.pending ==> g.start <= i < g.delivered
  }

  function Ids(lo: nat, hi: nat): (ids: seq<nat>)
    requires lo <= hi
    ensures |ids| == hi - lo && forall k :: 0 <= k < |ids| ==> ids[k] == lo + k
  {
    seq(hi - lo, k requires 0 <= k < hi - lo => lo + k)
  }

  predicate InRange(entries: seq<Entry>, ids: seq<nat>) {
    forall k :: 0 <= k < |ids| ==> ids[k] < |entries|
  }

  /** The well-formed entries among `ids`, in order: malformed ones are skipped. */
  function Parse(entries: seq<Entry>, ids: seq<nat>): (msgs: seq<Message>)
    requires InRange(entries, ids)
    ensures |msgs| <= |ids|
    ensures forall m :: m in msgs ==> m.id in ids && m.id < |entries| && entries[m.id] == Some(m.event)
    decreases |ids|
  {
    if ids == [] then []
    else
      var rest := Parse(entries, ids[..|ids| - 1]);
      var i := ids[|ids| - 1];
      if entries[i].Some? then rest + [Message(i, entries[i].value)] else rest
  }

  lemma {:induction false} ParseFindsAll(entries: seq<Entry>, ids: seq<nat>, i: nat)
    requires InRange(entries, ids)
    requires i in ids && entries[i].Some?
    ensures exists m :: m in Parse(entries, ids) && m.id == i
    decreases |ids|
  {
    var rest, last := ids[..|ids| - 1], ids[|ids| - 1];
    if i == last {
      assert Message(i, entries[i].value) in Parse(entries, ids);
    } else {
      assert i in rest;
      ParseFindsAll(entries, rest, i);
      var m :| m in Parse(entries, rest) && m.id == i;
      assert m in Parse(entries, ids);
    }
  }

  ghost predicate Rising(msgs: seq<Message>) {
    forall j, k :: 0 <= j < k < |msgs| ==> msgs[j].id < msgs[k].id
  }

  lemma RisesOn(msgs: seq<Message>, last: Message)
    requires Rising(msgs) && forall m :: m in msgs ==> m.id < last.id
    ensures Rising(msgs + [last])
  {
    forall j, k | 0 <= j < k < |msgs + [last]|
      ensures (msgs + [last])[j].id < (msgs + [last])[k].id
    {
      assert msgs[j] in msgs;
    }
  }

  /** Entries read in the order of the stream are parsed in that order. */
  lemma {:induction false} ParseKeepsOrder(entries: seq<Entry>, ids: seq<nat>)
    requires InRange(entries, ids) && forall j, k :: 0 <= j < k < |ids| ==> ids[j] < ids[k]
    ensures Rising(Parse(entries, ids))
    decreases |ids|
  {
    if ids != [] {
      var rest, last := ids[..|ids| - 1], ids[|ids| - 1];
      ParseKeepsOrder(entries, rest);
      assert forall m :: m in Parse(entries, rest) ==> m.id in rest && m.id < last;
      if entries[last].Some? {
        RisesOn(Parse(entries, rest), Message(last, entries[last].value));
      }
      hide Rising;
    }
  }

  /** What a read hands over: the well-formed ones among the next n entries, all of them, in order. */
  lemma ReadsInOrder(g: Group, n: nat)
    requires g.delivered + n <= |g.entries|
    ensures var msgs := Parse(g.entries, Ids(g.delivered, g.delivered + n));
      && Rising(msgs)
      && (forall m :: m in msgs <==>
           g.delivered <= m.id < g.delivered + n && g.entries[m.id] == Some(m.event))
  {
    var ids := Ids(g.delivered, g.delivered + n);
    ParseKeepsOrder(g.entries, ids);
    forall m: Message | g.delivered <= m.id < g.delivered + n && g.entries[m.id] == Some(m.event)
      ensures m in Parse(g.entries, ids)
    {
      assert ids[m.id - g.delivered] == m.id;
      ParseFindsAll(g.entries, ids, m.id);
    }
  }

  /** The loop over the entries of a reply. */
  method ParseReply(entries: seq<Entry>, ids: seq<nat>) returns (msgs: seq<Message>)
    requires InRange(entries, ids)
    ensures msgs == Parse(entries, ids)
  {
    msgs := [];
    for k := 0 to |ids|
      invariant msgs == Parse(entries, ids[..k])
    {
      assert ids[..k + 1][..k] == ids[..k];
      if entries[ids[k]].None? {
        continue;
      }
      msgs := msgs + [Message(ids[k], entries[ids[k]].value)];
    }
    assert ids[..|ids|] == ids;
  }

  // The server's side -------------------------------------------------------------

  function Append(g: Group, e: Entry): Group {
    g.(entries := g.entries + [e])
  }

  function Elements(ids: seq<nat>): set<nat> {
    set i | i in ids
  }

  /** XREADGROUP with ">": the next n entries become pending. */
  function Deliver(g: Group, n: nat): Group {
    g.(delivered := g.delivered + n, pending := g.pending + Elements(Ids(g.delivered, g.delivered + n)))
  }

  function IdSet(msgs: seq<Message>): set<nat> {
    set m | m in msgs :: m.id
  }

  /** XACK. */
  function Acknowledge(g: Group, msgs: seq<Message>): Group {
    g.(pending := g.pending - IdSet(msgs))
  }
}
