/** What the writer's steps come to, told of the world and of the buffers before and after them rather than of the
    protocol's actions: a batch that is dealt with, a poll that reads, and what any number of rounds has read of a
    stream. */
module WriterOutcome {
  import opened StreamGroup
  import opened WriterProtocol
  import opened WriterScripts

  // Writing a batch ------------------------------------------------------------------------------------

  /** One of the attempts from k on succeeds. */
  ghost predicate Succeeds(fate: FullFate, k: nat) {
    exists i :: k <= i < 3 && fate.attempts[i].Success?
  }

  /** A batch has been dealt with: its rows are in ClickHouse if one of up to three attempts succeeds, and
      perhaps if one fails late; else the batch is in a new dead-letter file, unless that could not be
      written; in either case it is acknowledged, if the acknowledgement arrives. Nothing else changes. */
  ghost predicate DealtWith(w: World, w': World, batch: Batch, fate: FullFate, k: nat) {
    && w.inserted <= w'.inserted
    && (forall b :: b in w'.inserted[|w.inserted|..] ==> b == batch)
    && (Succeeds(fate, k) ==> |w'.inserted| > |w.inserted|)
    && (!Succeeds(fate, k) && (forall i :: k <= i < 3 ==> !fate.attempts[i].landed) ==>
          w'.inserted == w.inserted)
    && w'.dead == (if Succeeds(fate, k) || !fate.deadLetterWritten then w.dead
                   else w.dead[FileName(batch.stream, w'.clock / 1000) := batch.msgs])
    && w'.dropped == w.dropped + (if Succeeds(fate, k) || fate.deadLetterWritten then [] else [batch])
    && w'.clock >= w.clock
    && Acknowledged(w, w', batch, fate.ackApplied)
  }

  ghost predicate Acknowledged(w: World, w': World, batch: Batch, applied: bool) {
    && w'.groups.Keys == w.groups.Keys
    && (forall st :: st in w.groups && (st != batch.stream || !applied) ==> w'.groups[st] == w.groups[st])
    && (batch.stream in w.groups && applied ==>
          var g, g' := w.groups[batch.stream], w'.groups[batch.stream];
          && g'.entries == g.entries && g'.start == g.start && g'.delivered == g.delivered
          && forall i :: i in g'.pending <==> i in g.pending && forall m :: m in batch.msgs ==> m.id != i)
  }

  lemma AckSettles(s: System, applied: bool)
    requires Enabled(s, Ack(applied))
    ensures var t := AfterRun(s, [Ack(applied)]);
      && t.process == s.process.(task := Ready)
      && Acknowledged(s.world, t.world, s.process.task.batch, applied)
      && t.world.(groups := s.world.groups) == s.world
  {
    var t := Apply(s, Ack(applied));
    assert [Ack(applied)][1..] == [];
    assert AfterRun(t, []) == t;
  }

  lemma FailureDealsOn(w: World, next: World, w': World, batch: Batch, fate: FullFate, k: nat)
    requires k < MAX_RETRIES && fate.attempts[k].Failure? && next.clock >= w.clock
    requires next == w.(inserted := w.inserted + (if fate.attempts[k].landed then [batch] else []), clock := next.clock)
    requires DealtWith(next, w', batch, fate, k + 1)
    ensures DealtWith(w, w', batch, fate, k)
  {
    hide Acknowledged;
    assert Succeeds(fate, k) <==> Succeeds(fate, k + 1);
    forall b | b in w'.inserted[|w.inserted|..]
      ensures b == batch
    {
      var i :| |w.inserted| <= i < |w'.inserted| && w'.inserted[i] == b;
      if i < |next.inserted| {
        assert w'.inserted[i] == next.inserted[i];
      } else {
        assert b in w'.inserted[|next.inserted|..];
      }
    }
    assert Acknowledged(next, w', batch, fate.ackApplied) ==> Acknowledged(w, w', batch, fate.ackApplied) by {
      SameGroupsAcknowledged(w, next, w', batch, fate.ackApplied);
    }
  }

  lemma SameGroupsAcknowledged(w: World, next: World, w': World, batch: Batch, applied: bool)
    requires next.groups == w.groups
    ensures Acknowledged(next, w', batch, applied) <==> Acknowledged(w, w', batch, applied)
  {}

  lemma {:induction false} InsertScriptSettles(s: System, fate: FullFate, k: nat)
    requires k <= MAX_RETRIES && IsRun(s, InsertScript(fate, k))
    requires IsTrying(s) && s.process.task.attempts == k
    ensures var t := AfterRun(s, InsertScript(fate, k));
      t.process == s.process.(task := Ready) && DealtWith(s.world, t.world, s.process.task.batch, fate, k)
    decreases MAX_RETRIES - k
  {
    hide Parse, Succeeds, NextMessages, DealtWith;
    var script, batch := InsertScript(fate, k), s.process.task.batch;
    var next, t := Apply(s, script[0]), AfterRun(s, script);
    if k < MAX_RETRIES && fate.attempts[k].Failure? {
      assert script[1..] == InsertScript(fate, k + 1);
      InsertScriptSettles(next, fate, k + 1);
      hide InsertScript, IsRun, AfterRun, DealtWith;
      FailureDealsOn(s.world, next.world, t.world, batch, fate, k);
    } else {
      assert script[1..] == [Ack(fate.ackApplied)];
      AckSettles(next, fate.ackApplied);
      hide InsertScript, IsRun, AfterRun, DealtWith, Acknowledged;
      RecordedDeals(s.world, next.world, t.world, batch, fate, k);
    }
  }

  lemma RecordedDeals(w: World, next: World, w': World, batch: Batch, fate: FullFate, k: nat)
    requires k <= MAX_RETRIES && w'.(groups := next.groups) == next
    requires k < MAX_RETRIES ==> fate.attempts[k].Success? && next == w.(inserted := w.inserted + [batch])
    requires k == MAX_RETRIES ==>
      next == if fate.deadLetterWritten then w.(dead := w.dead[FileName(batch.stream, w.clock / 1000) := batch.msgs])
              else w.(dropped := w.dropped + [batch])
    requires Acknowledged(next, w', batch, fate.ackApplied)
    ensures DealtWith(w, w', batch, fate, k)
  {
    SameGroupsAcknowledged(w, next, w', batch, fate.ackApplied);
    hide Acknowledged;
  }

  lemma ScriptDeals(s: System, t: System, actions: seq<Action>, fate: FullFate)
    requires IsTrying(s) && s.process.task.attempts == 0
    requires Works(s, actions, t) && actions == InsertScript(fate, 0)
    ensures DealtWith(s.world, t.world, s.process.task.batch, fate, 0)
  {
    InsertScriptSettles(s, fate, 0);
  }

  // One round of reading ------------------------------------------------------------------------------

  /** A poll: the next entries are handed out if there are that many; the well-formed ones join the buffer if
      the reply arrives; and a buffer of a hundred or more is written and emptied. */
  ghost predicate Polled(
    w: World, buffer: seq<Message>, w': World, buffer': seq<Message>, stream: Stream, reply: Reply, fate: FullFate)
  {
    if CanRead(w, stream, reply.n) then
      var read := buffer + if reply.arrives then NextMessages(w.groups[stream], reply.n) else [];
      var delivered := w.(groups := w.groups[stream := Deliver(w.groups[stream], reply.n)]);
      if |read| >= 100 then buffer' == [] && DealtWith(delivered, w', Batch(stream, read), fate, 0)
      else buffer' == read && w' == delivered
    else
      buffer' == buffer && w' == w
  }

  // Whole runs: what was read ---------------------------------------------------------------------------

  /** A stream as its group sees it, and what the writer has read of it. */
  datatype Cursor = Cursor(entries: seq<Entry>, delivered: nat, read: seq<Message>)

  /** A read hands out up to a hundred entries, if there are that many; the well-formed ones have been read if
      the reply arrives. */
  function ReadOnce(c: Cursor, reply: Reply): Cursor {
    if reply.n > 100 || c.delivered + reply.n > |c.entries| then c
    else if !reply.arrives then c.(delivered := c.delivered + reply.n)
    else Cursor(c.entries, c.delivered + reply.n,
                c.read + Parse(c.entries, Ids(c.delivered, c.delivered + reply.n)))
  }

  /** One round, for the i-th stream: producers append, a poll reads, the ticker does neither. */
  function Followed(c: Cursor, r: Round, i: nat): Cursor
    requires FitsRound(r) && i < |WATCHED_STREAMS|
  {
    match r
    case TickRound(_) => c
    case Outside(stream, entry, _) =>
      if stream == WATCHED_STREAMS[i] then c.(entries := c.entries + [entry]) else c
    case PollRound(replies, _) => ReadOnce(c, replies[i])
  }

  function FollowedAll(c: Cursor, rounds: seq<Round>, i: nat): Cursor
    requires i < |WATCHED_STREAMS| && forall r :: r in rounds ==> FitsRound(r)
  {
    if rounds == [] then c
    else Followed(FollowedAll(c, rounds[..|rounds| - 1], i), rounds[|rounds| - 1], i)
  }

  lemma KeysStay(s: System, a: Action)
    requires Enabled(s, a)
    ensures Apply(s, a).world.groups.Keys == s.world.groups.Keys
  {}

  lemma {:induction false} RunKeepsKeys(s: System, actions: seq<Action>)
    requires IsRun(s, actions)
    ensures AfterRun(s, actions).world.groups.Keys == s.world.groups.Keys
    decreases |actions|
  {
    if actions != [] {
      KeysStay(s, actions[0]);
      hide Apply, Enabled;
      RunKeepsKeys(Apply(s, actions[0]), actions[1..]);
    }
  }

  function CursorAt(s: System, stream: Stream, read: seq<Message>): Cursor
    requires stream in s.world.groups
  {
    Cursor(s.world.groups[stream].entries, s.world.groups[stream].delivered, read)
  }

  /** The run takes the cursor of the stream from what it is at s, with `before` read, to c. */
  ghost predicate Moves(s: System, actions: seq<Action>, stream: Stream, before: seq<Message>, c: Cursor) {
    && IsRun(s, actions) && stream in AfterRun(s, actions).world.groups
    && c == CursorAt(AfterRun(s, actions), stream, before + MessagesRead(s, actions, stream))
  }

  lemma {:induction false} RunSplits(s: System, x: seq<Action>, y: seq<Action>)
    requires IsRun(s, x + y)
    ensures IsRun(s, x) && IsRun(AfterRun(s, x), y) && AfterRun(s, x + y) == AfterRun(AfterRun(s, x), y)
    decreases |x|
  {
    hide Apply, Enabled;
    if x == [] {
      assert x + y == y;
    } else {
      assert (x + y)[0] == x[0] && (x + y)[1..] == x[1..] + y;
      RunSplits(Apply(s, x[0]), x[1..], y);
    }
  }

  function ReadBy(s: System, a: Action, stream: Stream): seq<Message>
    requires Enabled(s, a)
  {
    if a.Read? && a.stream == stream then NextMessages(s.world.groups[stream], a.n) else []
  }

  lemma FirstRead(s: System, actions: seq<Action>, stream: Stream)
    requires actions != [] && IsRun(s, actions)
    ensures Enabled(s, actions[0]) && IsRun(Apply(s, actions[0]), actions[1..])
    ensures MessagesRead(s, actions, stream) ==
      ReadBy(s, actions[0], stream) + MessagesRead(Apply(s, actions[0]), actions[1..], stream)
    ensures AfterRun(s, actions) == AfterRun(Apply(s, actions[0]), actions[1..])
  {
    hide Apply, NextMessages;
  }

  lemma {:induction false} RunComesApart(s: System, x: seq<Action>, y: seq<Action>, stream: Stream)
    requires IsRun(s, x + y)
    ensures IsRun(s, x) && IsRun(AfterRun(s, x), y) && AfterRun(s, x + y) == AfterRun(AfterRun(s, x), y)
    ensures MessagesRead(s, x + y, stream) == MessagesRead(s, x, stream) + MessagesRead(AfterRun(s, x), y, stream)
    decreases |x|
  {
    hide *;
    RunSplits(s, x, y);
    if x == [] {
      assert x + y == y;
      NothingRead(s, stream);
      assert MessagesRead(s, y, stream) == [] + MessagesRead(s, y, stream);
    } else {
      var a, rest := x[0], x[1..];
      assert (x + y)[0] == a && (x + y)[1..] == rest + y;
      FirstRead(s, x + y, stream);
      FirstRead(s, x, stream);
      var next := Apply(s, a);
      RunComesApart(next, rest, y, stream);
      Regroup(ReadBy(s, a, stream), MessagesRead(next, rest, stream), MessagesRead(AfterRun(s, x), y, stream));
    }
  }

  lemma NothingRead(s: System, stream: Stream)
    ensures IsRun(s, []) && AfterRun(s, []) == s && MessagesRead(s, [], stream) == []
  {}

  lemma Regroup(a: seq<Message>, b: seq<Message>, c: seq<Message>)
    ensures a + (b + c) == (a + b) + c
  {}

  lemma MovesOn(s: System, x: seq<Action>, y: seq<Action>, stream: Stream, before: seq<Message>, c: Cursor, d: Cursor)
    requires IsRun(s, x + y) && Moves(s, x, stream, before, c) && Moves(AfterRun(s, x), y, stream, c.read, d)
    ensures Moves(s, x + y, stream, before, d)
  {
    hide IsRun, AfterRun, MessagesRead;
    RunComesApart(s, x, y, stream);
    var first, then_ := MessagesRead(s, x, stream), MessagesRead(AfterRun(s, x), y, stream);
    assert before + (first + then_) == (before + first) + then_;
  }

  lemma MovesNowhere(s: System, stream: Stream, before: seq<Message>)
    requires stream in s.world.groups
    ensures Moves(s, [], stream, before, CursorAt(s, stream, before))
  {}

  /** Flushing, claiming and ticking read nothing. */
  predicate IsQuiet(a: Action) { !a.Read? && !a.ReadLost? && !a.Produce? }

  lemma QuietStays(s: System, a: Action, stream: Stream)
    requires Enabled(s, a) && IsQuiet(a) && stream in s.world.groups
    ensures stream in Apply(s, a).world.groups
    ensures forall read :: CursorAt(Apply(s, a), stream, read) == CursorAt(s, stream, read)
  {}

  lemma {:induction false} QuietRunStays(s: System, actions: seq<Action>, stream: Stream, before: seq<Message>)
    requires IsRun(s, actions) && stream in s.world.groups && forall a :: a in actions ==> IsQuiet(a)
    ensures Moves(s, actions, stream, before, CursorAt(s, stream, before))
    decreases |actions|
  {
    if actions == [] {
      MovesNowhere(s, stream, before);
    } else {
      var next := Apply(s, actions[0]);
      assert actions[0] in actions && forall a :: a in actions[1..] ==> a in actions;
      QuietStays(s, actions[0], stream);
      hide Apply, Enabled, NextMessages;
      QuietRunStays(next, actions[1..], stream, before);
      assert MessagesRead(s, actions, stream) == [] + MessagesRead(next, actions[1..], stream);
    }
  }

  lemma {:induction false} InsertScriptIsQuiet(fate: FullFate, k: nat)
    requires k <= MAX_RETRIES
    ensures forall a :: a in InsertScript(fate, k) ==> IsQuiet(a)
    decreases MAX_RETRIES - k
  {
    if k < MAX_RETRIES {
      InsertScriptIsQuiet(fate, k + 1);
    }
  }

  lemma ReadScriptMoves(s: System, stream: Stream, reply: Reply, other: Stream, before: seq<Message>)
    requires stream in s.world.groups && other in s.world.groups
    requires IsRun(s, ReadScript(s, stream, reply))
    ensures Moves(s, ReadScript(s, stream, reply), other, before,
                  if other == stream then ReadOnce(CursorAt(s, other, before), reply) else CursorAt(s, other, before))
  {
    var script := ReadScript(s, stream, reply);
    hide Moves, IsRun, ReadOnce, ReadBy, CursorAt, Enabled, Apply, BATCH_SIZE;
    if script == [] {
      MovesNowhere(s, other, before);
      NothingToRead(s, stream, reply, before);
    } else {
      OneActionMoves(s, script, other, before);
      ReadMovesCursor(s, script[0], other, before, reply);
    }
  }

  lemma NothingToRead(s: System, stream: Stream, reply: Reply, before: seq<Message>)
    requires stream in s.world.groups && !CanRead(s.world, stream, reply.n)
    ensures ReadOnce(CursorAt(s, stream, before), reply) == CursorAt(s, stream, before)
  {
    hide Parse;
  }

  lemma ReadMovesCursor(s: System, a: Action, other: Stream, before: seq<Message>, reply: Reply)
    requires (if reply.arrives then a.Read? else a.ReadLost?) && a.n == reply.n
    requires Enabled(s, a) && a.stream in s.world.groups && other in s.world.groups
    ensures other in Apply(s, a).world.groups
    ensures CursorAt(Apply(s, a), other, before + ReadBy(s, a, other)) ==
            if other == a.stream then ReadOnce(CursorAt(s, other, before), reply) else CursorAt(s, other, before)
  {
    hide Parse;
    assert before + [] == before;
  }

  lemma OneActionMoves(s: System, actions: seq<Action>, stream: Stream, before: seq<Message>)
    requires |actions| == 1 && IsRun(s, actions) && stream in s.world.groups
    ensures Enabled(s, actions[0])
    ensures stream in Apply(s, actions[0]).world.groups
    ensures Moves(s, actions, stream, before,
                  CursorAt(Apply(s, actions[0]), stream, before + ReadBy(s, actions[0], stream)))
  {
    assert actions[1..] == [];
    FirstRead(s, actions, stream);
    NothingRead(Apply(s, actions[0]), stream);
    KeysStay(s, actions[0]);
    hide Apply, Enabled, ReadBy, IsRun, AfterRun, MessagesRead;
    assert ReadBy(s, actions[0], stream) + [] == ReadBy(s, actions[0], stream);
  }

  lemma FlushScriptIsQuiet(stream: Stream, fate: FullFate)
    ensures forall a :: a in FlushScript(stream, fate) ==> IsQuiet(a)
  {
    InsertScriptIsQuiet(fate, 0);
  }

  lemma PollScriptMoves(s: System, stream: Stream, reply: Reply, fate: FullFate, other: Stream, before: seq<Message>)
    requires stream in s.world.groups && other in s.world.groups
    requires IsRun(s, PollScript(s, stream, reply, fate))
    ensures Moves(s, PollScript(s, stream, reply, fate), other, before,
                  if other == stream then ReadOnce(CursorAt(s, other, before), reply) else CursorAt(s, other, before))
  {
    var read, script := ReadScript(s, stream, reply), PollScript(s, stream, reply, fate);
    var flush := if |BufferOf(After(s, read), stream)| >= BATCH_SIZE then FlushScript(stream, fate) else [];
    assert script == read + flush;
    FlushScriptIsQuiet(stream, fate);
    hide *;
    RunSplits(s, read, flush);
    ReadScriptMoves(s, stream, reply, other, before);
    RunKeepsKeys(s, read);
    var middle := AfterRun(s, read);
    var c := if other == stream then ReadOnce(CursorAt(s, other, before), reply) else CursorAt(s, other, before);
    MovedTo(s, read, other, before, c);
    QuietRunStays(middle, flush, other, c.read);
    MovesOn(s, read, flush, other, before, c, c);
  }

  lemma MovedTo(s: System, actions: seq<Action>, stream: Stream, before: seq<Message>, c: Cursor)
    requires Moves(s, actions, stream, before, c)
    ensures stream in AfterRun(s, actions).world.groups && c == CursorAt(AfterRun(s, actions), stream, c.read)
  {}

  lemma TickScriptMoves(s: System, stream: Stream, fate: FullFate, other: Stream, before: seq<Message>)
    requires other in s.world.groups && IsRun(s, TickScript(s, stream, fate))
    ensures Moves(s, TickScript(s, stream, fate), other, before, CursorAt(s, other, before))
  {
    FlushScriptIsQuiet(stream, fate);
    hide FlushScript, Moves, IsQuiet;
    QuietRunStays(s, TickScript(s, stream, fate), other, before);
  }

  predicate HasWatched(s: System) {
    forall st :: st in WATCHED_STREAMS ==> st in s.world.groups
  }

  lemma WatchedAreDistinct(i: nat, j: nat)
    requires i < |WATCHED_STREAMS| && j < |WATCHED_STREAMS| && WATCHED_STREAMS[i] == WATCHED_STREAMS[j]
    ensures i == j
  {
    assert "events:gateway"[8] == 'a' && "events:gitea"[8] == 'i' && "events:gateway"[7] == 'g' == "events:gitea"[7];
    assert "events:k8s"[7] == 'k';
  }

  lemma OutsideMoves(s: System, stream: Stream, entry: Entry, ms: nat, other: Stream, before: seq<Message>)
    requires stream in s.world.groups && other in s.world.groups
    ensures var c := CursorAt(s, other, before);
      Moves(s, [Produce(stream, entry), Pass(ms)], other, before,
            if other == stream then c.(entries := c.entries + [entry]) else c)
  {
    var script := [Produce(stream, entry), Pass(ms)];
    assert script[1..] == [Pass(ms)] && script[1..][1..] == [];
    NothingRead(Apply(Apply(s, script[0]), Pass(ms)), other);
    FirstRead(s, script, other);
    FirstRead(Apply(s, script[0]), [Pass(ms)], other);
    hide IsRun, AfterRun, MessagesRead;
    assert before + ([] + ([] + [])) == before;
  }

  lemma {:induction false} RoundMoves(s: System, r: Round, n: nat, i: nat, before: seq<Message>)
    requires FitsRound(r) && n <= |WATCHED_STREAMS| && i < |WATCHED_STREAMS| && HasWatched(s)
    requires IsRun(s, RoundScript(s, r, n))
    ensures var c := CursorAt(s, WATCHED_STREAMS[i], before);
      Moves(s, RoundScript(s, r, n), WATCHED_STREAMS[i], before, if r.Outside? || i < n then Followed(c, r, i) else c)
    decreases n
  {
    var st := WATCHED_STREAMS[i];
    var c := CursorAt(s, st, before);
    if r.Outside? {
      hide Moves;
      if r.stream in s.world.groups {
        OutsideMoves(s, r.stream, r.entry, r.ms, st, before);
      } else {
        MovesNowhere(s, st, before);
      }
    } else if n == 0 {
      MovesNowhere(s, st, before);
    } else {
      var start, stream := RoundScript(s, r, n - 1), WATCHED_STREAMS[n - 1];
      var more := if r.TickRound? then TickScript(After(s, start), stream, r.fates[n - 1])
                  else PollScript(After(s, start), stream, r.replies[n - 1], r.fates[n - 1]);
      assert RoundScript(s, r, n) == start + more && stream in s.world.groups;
      hide RoundScript, Moves, IsRun, AfterRun, After, TickScript, PollScript, Followed;
      RunSplits(s, start, more);
      AfterIs(s, start);
      RunKeepsKeys(s, start);
      RoundMoves(s, r, n - 1, i, before);
      var d := if i < n - 1 then Followed(c, r, i) else c;
      MovedTo(s, start, st, before, d);
      StreamMoves(After(s, start), r, n - 1, i, d.read, more);
      MovesOn(s, start, more, st, before, d, if i == n - 1 then Followed(d, r, i) else d);
    }
  }

  lemma FollowedIs(c: Cursor, r: Round, i: nat)
    requires FitsRound(r) && i < |WATCHED_STREAMS| && !r.Outside?
    ensures Followed(c, r, i) == if r.TickRound? then c else ReadOnce(c, r.replies[i])
  {
    hide Parse;
  }

  lemma AfterIs(s: System, actions: seq<Action>)
    requires IsRun(s, actions)
    ensures After(s, actions) == AfterRun(s, actions)
  {}

  lemma StreamMoves(s: System, r: Round, j: nat, i: nat, before: seq<Message>, more: seq<Action>)
    requires FitsRound(r) && !r.Outside? && j < |WATCHED_STREAMS| && i < |WATCHED_STREAMS|
    requires WATCHED_STREAMS[i] in s.world.groups && WATCHED_STREAMS[j] in s.world.groups && IsRun(s, more)
    requires more == if r.TickRound? then TickScript(s, WATCHED_STREAMS[j], r.fates[j])
                     else PollScript(s, WATCHED_STREAMS[j], r.replies[j], r.fates[j])
    ensures var c := CursorAt(s, WATCHED_STREAMS[i], before);
      Moves(s, more, WATCHED_STREAMS[i], before, if i == j then Followed(c, r, i) else c)
  {
    var st, stream := WATCHED_STREAMS[i], WATCHED_STREAMS[j];
    FollowedIs(CursorAt(s, st, before), r, i);
    if stream == st {
      WatchedAreDistinct(i, j);
    }
    assert (r.TickRound? ==> |r.fates| == |WATCHED_STREAMS|) && (r.PollRound? ==> |r.fates| == |WATCHED_STREAMS|);
    hide *;
    if r.TickRound? {
      TickScriptMoves(s, stream, r.fates[j], st, before);
    } else {
      PollScriptMoves(s, stream, r.replies[j], r.fates[j], st, before);
    }
  }

  /** What a writer has read of a stream after any number of rounds, and where its group stands, is what the
      replies that arrived held. */
  lemma {:induction false} RunMoves(s: System, rounds: seq<Round>, i: nat)
    requires (forall r :: r in rounds ==> FitsRound(r)) && i < |WATCHED_STREAMS| && HasWatched(s)
    requires IsRun(s, RunScript(s, rounds))
    ensures Moves(s, RunScript(s, rounds), WATCHED_STREAMS[i], [],
                  FollowedAll(CursorAt(s, WATCHED_STREAMS[i], []), rounds, i))
    decreases |rounds|
  {
    var st := WATCHED_STREAMS[i];
    if rounds == [] {
      MovesNowhere(s, st, []);
    } else {
      var last := rounds[|rounds| - 1];
      var start := RunScript(s, rounds[..|rounds| - 1]);
      var more := RoundScript(After(s, start), last, |WATCHED_STREAMS|);
      assert RunScript(s, rounds) == start + more;
      var c := CursorAt(s, st, []);
      var d := FollowedAll(c, rounds[..|rounds| - 1], i);
      assert FollowedAll(c, rounds, i) == Followed(d, last, i);
      hide Moves, RunScript, RoundScript, IsRun, AfterRun, After, Followed, FollowedAll, FitsRound;
      RunSplits(s, start, more);
      RunMoves(s, rounds[..|rounds| - 1], i);
      AfterIs(s, start);
      RunKeepsKeys(s, start);
      MovedTo(s, start, st, [], d);
      RoundMoves(AfterRun(s, start), last, |WATCHED_STREAMS|, i, d.read);
      MovesOn(s, start, more, st, [], d, Followed(d, last, i));
    }
  }

  lemma WatchedAreFollowed(s: System, rounds: seq<Round>, actions: seq<Action>, t: System)
    requires (forall r :: r in rounds ==> FitsRound(r)) && HasWatched(s)
    requires Leads(s, actions, t) && actions == RunScript(s, rounds)
    ensures forall i :: 0 <= i < |WATCHED_STREAMS| ==>
      var st := WATCHED_STREAMS[i];
      st in t.world.groups &&
      Cursor(t.world.groups[st].entries, t.world.groups[st].delivered, MessagesRead(s, actions, st)) ==
      FollowedAll(Cursor(s.world.groups[st].entries, s.world.groups[st].delivered, []), rounds, i)
  {
    forall i | 0 <= i < |WATCHED_STREAMS|
      ensures var st := WATCHED_STREAMS[i];
        st in t.world.groups &&
        Cursor(t.world.groups[st].entries, t.world.groups[st].delivered, MessagesRead(s, actions, st)) ==
        FollowedAll(Cursor(s.world.groups[st].entries, s.world.groups[st].delivered, []), rounds, i)
    {
      RunMoves(s, rounds, i);
      assert [] + MessagesRead(s, actions, WATCHED_STREAMS[i]) == MessagesRead(s, actions, WATCHED_STREAMS[i]);
    }
  }
}
