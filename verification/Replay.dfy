/** Rebuilding a file from the log of its writes, edits and snapshots: the fast way from the latest
    baseline, and a full replay from the first operation. */
module Replay {
  import opened Wrappers
  import opened Text

  /** A snapshot carries what reading its backup file gives, if that can be read. */
  datatype Op =
    | Write(timestamp: string, content: Option<string>)
    | Edit(timestamp: string, target: Option<string>, replacement: Option<string>)
    | Snapshot(timestamp: string, backup: Option<string>)

  /** apply_edit: the first occurrence is replaced; without one the content stays. */
  function ApplyEdit(content: string, target: string, replacement: string): string {
    match Find(content, target, 0)
    case Some(i) => content[..i] + replacement + content[i + |target|..]
    case None => content
  }

  /** Exactly the first occurrence gives way to the replacement; before and behind it nothing changes. */
  lemma EditReplacesFirst(left: string, target: string, right: string, replacement: string)
    requires forall i :: 0 <= i < |left| ==> !(target <= (left + target + right)[i..])
    ensures ApplyEdit(left + target + right, target, replacement) == left + replacement + right
  {
    var text := left + target + right;
    assert OccursAt(text, target, |left|);
    forall i | 0 <= i < |left|
      ensures !OccursAt(text, target, i)
    {
      OccursAtIff(text, target, i);
    }
    assert text[..|left|] == left && text[|left| + |target|..] == right;
  }

  lemma EditWithoutTarget(content: string, target: string, replacement: string)
    requires forall i :: 0 <= i <= |content| ==> !(target <= content[i..])
    ensures ApplyEdit(content, target, replacement) == content
  {
    forall i: nat | i <= |content|
      ensures !OccursAt(content, target, i)
    {
      OccursAtIff(content, target, i);
    }
    assert forall i: nat :: OccursAt(content, target, i) ==> i <= |content|;
  }

  function OrEmpty(s: Option<string>): string { if s.Some? then s.value else "" }

  /** An empty or missing written content is not a content: Python takes both for false. */
  predicate IsWrite(op: Op) { op.Write? && op.content.Some? && op.content.value != "" }

  predicate IsReadableSnapshot(op: Op) { op.Snapshot? && op.backup.Some? }

  predicate IsBaseline(op: Op) { IsWrite(op) || IsReadableSnapshot(op) }

  function BaselineContent(op: Op): string
    requires IsBaseline(op)
  {
    if op.Write? then op.content.value else op.backup.value
  }

  // Full replay ------------------------------------------------------------------------------

  /** One operation on a content that may not be known yet. */
  function Step(content: Option<string>, op: Op): Option<string> {
    if IsBaseline(op) then Some(BaselineContent(op))
    else if content.Some? && op.Edit? && op.target.Some? then
      Some(ApplyEdit(content.value, op.target.value, OrEmpty(op.replacement)))
    else content
  }

  function FullReplay(ops: seq<Op>): Option<string> {
    if ops == [] then None else Step(FullReplay(ops[..|ops| - 1]), ops[|ops| - 1])
  }

  // The fast way -----------------------------------------------------------------------------

  /** The first readable snapshot of the whole log. */
  function FirstSnapshot(ops: seq<Op>): Option<string> {
    if ops == [] then None
    else if IsReadableSnapshot(ops[0]) then Some(ops[0].backup.value)
    else FirstSnapshot(ops[1..])
  }

  /** Edits and writes over a content, snapshots passed over. */
  function Patch(content: string, ops: seq<Op>): string {
    if ops == [] then content else PatchStep(Patch(content, ops[..|ops| - 1]), ops[|ops| - 1])
  }

  function PatchStep(content: string, op: Op): string {
    if op.Edit? && op.target.Some? then ApplyEdit(content, op.target.value, OrEmpty(op.replacement))
    else if IsWrite(op) then op.content.value
    else content
  }

  ghost predicate HasBaseline(ops: seq<Op>) {
    exists op :: op in ops && IsBaseline(op)
  }

  /** reconstruct_at_index: None, or what the log gives the fast way. */
  method ReconstructAtIndex(ops: seq<Op>, target: int) returns (content: Option<string>)
    ensures content == if 0 <= target < |ops| then Fast(ops, target) else None
  {
    if target < 0 || target >= |ops| {
      return None;
    }
    var baseline, b := LatestBaseline(ops, target);
    if baseline.None? {
      baseline := EarliestSnapshot(ops);
    }
    if baseline.None? {
      return None;
    }
    var patched := PatchRange(baseline.value, ops, b + 1, target + 1);
    content := Some(patched);
    hide Patch, FullReplay, FirstSnapshot;
    if b >= 0 {
      FastFromBaseline(ops, target, b);
    } else {
      assert ops[0..target + 1] == ops[..target + 1];
    }
  }

  lemma FastFromBaseline(ops: seq<Op>, target: nat, b: nat)
    requires b <= target < |ops| && IsBaseline(ops[b]) && forall k :: b < k <= target ==> !IsBaseline(ops[k])
    ensures FullReplay(ops[..target + 1]) == Some(Patch(BaselineContent(ops[b]), ops[b + 1..target + 1]))
  {
    hide Patch, FullReplay;
    var upTo := ops[..target + 1];
    FastIsFull(upTo, b);
    assert upTo[b + 1..] == ops[b + 1..target + 1];
  }

  /** The first loop: the latest write or readable snapshot at or before the target. */
  method LatestBaseline(ops: seq<Op>, target: nat) returns (baseline: Option<string>, b: int)
    requires target < |ops|
    ensures -1 <= b <= target && (baseline.Some? <==> b >= 0)
    ensures b >= 0 ==> IsBaseline(ops[b]) && baseline.value == BaselineContent(ops[b])
    ensures forall k :: b < k <= target ==> !IsBaseline(ops[k])
    ensures HasBaseline(ops[..target + 1]) <==> b >= 0
  {
    baseline, b := None, -1;
    for i := 0 to target + 1
      invariant -1 <= b < i
      invariant baseline.Some? <==> b >= 0
      invariant baseline.Some? ==> IsBaseline(ops[b]) && baseline.value == BaselineContent(ops[b])
      invariant forall k :: b < k < i ==> !IsBaseline(ops[k])
    {
      var op := ops[i];
      if op.Write? && op.content.Some? && op.content.value != "" {
        baseline, b := op.content, i;
      } else if op.Snapshot? && op.backup.Some? {
        baseline, b := op.backup, i;
      }
    }
  }

  /** The last loop: edits and writes are applied, snapshots passed over. */
  method PatchRange(baseline: string, ops: seq<Op>, from_: nat, until: nat) returns (content: string)
    requires from_ <= until <= |ops|
    ensures content == Patch(baseline, ops[from_..until])
  {
    content := baseline;
    for i := from_ to until
      invariant content == Patch(baseline, ops[from_..i])
    {
      var op := ops[i];
      PatchOneMore(baseline, ops, from_, i);
      if op.Edit? && op.target.Some? {
        content := ApplyEdit(content, op.target.value, OrEmpty(op.replacement));
      } else if op.Write? && op.content.Some? && op.content.value != "" {
        content := op.content.value;
      }
    }
  }

  lemma PatchOneMore(baseline: string, ops: seq<Op>, from_: nat, i: nat)
    requires from_ <= i < |ops|
    ensures Patch(baseline, ops[from_..i + 1]) == PatchStep(Patch(baseline, ops[from_..i]), ops[i])
  {
    assert ops[from_..i + 1][..i - from_] == ops[from_..i];
  }

  method EarliestSnapshot(ops: seq<Op>) returns (content: Option<string>)
    ensures content == FirstSnapshot(ops)
  {
    for i := 0 to |ops|
      invariant FirstSnapshot(ops) == FirstSnapshot(ops[i..])
    {
      if ops[i].Snapshot? && ops[i].backup.Some? {
        return ops[i].backup;
      }
      assert ops[i..][1..] == ops[i + 1..];
    }
    assert ops[|ops|..] == [];
    content := None;
  }

  /** From the latest baseline on, patching is replaying. */
  lemma {:induction false} FastIsFull(ops: seq<Op>, b: nat)
    requires b < |ops| && IsBaseline(ops[b]) && forall k :: b < k < |ops| ==> !IsBaseline(ops[k])
    ensures FullReplay(ops) == Some(Patch(BaselineContent(ops[b]), ops[b + 1..]))
    decreases |ops|
  {
    var before := ops[..|ops| - 1];
    if b == |ops| - 1 {
      assert ops[b + 1..] == [];
    } else {
      FastIsFull(before, b);
      assert before[b + 1..] == ops[b + 1..][..|ops| - b - 2];
    }
  }

  lemma {:induction false} NoBaselineNoContent(ops: seq<Op>)
    requires !HasBaseline(ops)
    ensures FullReplay(ops) == None
    decreases |ops|
  {
    if ops != [] {
      var before := ops[..|ops| - 1];
      assert forall op :: op in before ==> op in ops;
      assert ops[|ops| - 1] in ops;
      NoBaselineNoContent(before);
    }
  }

  /** The first readable snapshot, if there is one. */
  lemma {:induction false} FirstSnapshotIs(ops: seq<Op>, k: nat)
    requires k < |ops| && ops[k].Snapshot? && ops[k].backup.Some?
    requires forall i :: 0 <= i < k ==> !(ops[i].Snapshot? && ops[i].backup.Some?)
    ensures FirstSnapshot(ops) == ops[k].backup
  {
    if k > 0 {
      FirstSnapshotIs(ops[1..], k - 1);
    }
  }

  lemma {:induction false} FirstSnapshotIff(ops: seq<Op>)
    ensures FirstSnapshot(ops).Some? <==> exists op :: op in ops && IsReadableSnapshot(op)
  {
    if ops != [] {
      FirstSnapshotIff(ops[1..]);
      assert forall op :: op in ops <==> op == ops[0] || op in ops[1..];
    }
  }

  /** What the method returns, as a function of the log. */
  ghost function Fast(ops: seq<Op>, target: nat): Option<string>
    requires target < |ops|
  {
    if HasBaseline(ops[..target + 1]) then FullReplay(ops[..target + 1])
    else match FirstSnapshot(ops) case None => None case Some(s) => Some(Patch(s, ops[..target + 1]))
  }

  /** Exactly when the fast way is the full replay: a baseline lies at or before the target, or
      there is no readable snapshot to fall back on. */
  lemma FastIsFullIff(ops: seq<Op>, target: nat)
    requires target < |ops|
    ensures Fast(ops, target) == FullReplay(ops[..target + 1]) <==>
      HasBaseline(ops[..target + 1]) || !exists op :: op in ops && IsReadableSnapshot(op)
  {
    FirstSnapshotIff(ops);
    if !HasBaseline(ops[..target + 1]) {
      NoBaselineNoContent(ops[..target + 1]);
    }
  }

  /** What each kind of operation does at the end of a log with a content: a text written and a snapshot that
      can be read stand for themselves, an edit changes the first occurrence of its target, and all else
      leaves the content. */
  lemma LastOperationShows(ops: seq<Op>, n: nat, content: string)
    requires 0 < n < |ops| && FullReplay(ops[..n]) == Some(content)
    ensures HasBaseline(ops[..n + 1])
    ensures match ops[n]
      case Write(_, Some(text)) => Fast(ops, n) == Some(if text != "" then text else content)
      case Write(_, None) => Fast(ops, n) == Some(content)
      case Snapshot(_, Some(text)) => Fast(ops, n) == Some(text)
      case Snapshot(_, None) => Fast(ops, n) == Some(content)
      case Edit(_, None, _) => Fast(ops, n) == Some(content)
      case Edit(_, Some(_), _) => true
  {
    var before, now := ops[..n], ops[..n + 1];
    assert now[..n] == before && now[n] == ops[n];
    if !HasBaseline(before) {
      NoBaselineNoContent(before);
    }
    var op :| op in before && IsBaseline(op);
    assert op in now;
  }

  lemma LastEditShows(ops: seq<Op>, n: nat, left: string, target: string, right: string)
    requires 0 < n < |ops| && FullReplay(ops[..n]) == Some(left + target + right)
    requires ops[n].Edit? && ops[n].target == Some(target)
    requires forall i :: 0 <= i < |left| ==> !(target <= (left + target + right)[i..])
    ensures ops[n].replacement.Some? ==> Fast(ops, n) == Some(left + ops[n].replacement.value + right)
    ensures ops[n].replacement.None? ==> Fast(ops, n) == Some(left + right)
  {
    LastOperationShows(ops, n, left + target + right);
    var now := ops[..n + 1];
    assert now[..n] == ops[..n] && now[n] == ops[n];
    var replacement := if ops[n].replacement.Some? then ops[n].replacement.value else "";
    EditReplacesFirst(left, target, right, replacement);
    hide ApplyEdit;
    assert FullReplay(now) == Some(ApplyEdit(left + target + right, target, replacement));
    assert left + "" + right == left + right;
  }

  /** Before every baseline nothing is known; a log's first operation gives its own text. */
  lemma FirstOperationShows(ops: seq<Op>)
    requires ops != []
    ensures FullReplay(ops[..1]) ==
      match ops[0]
      case Write(_, Some(text)) => (if text != "" then Some(text) else None)
      case Snapshot(_, backup) => backup
      case _ => None
  {
    assert ops[..1][..0] == [] && ops[..1][0] == ops[0];
  }

  // The timeline and its order ------------------------------------------------------------------

  ghost predicate SortedByTime(ops: seq<Op>) {
    forall i, j :: 0 <= i < j < |ops| ==> !Less(ops[j].timestamp, ops[i].timestamp)
  }

  /** The operations with a given timestamp, in order. */
  function At(ops: seq<Op>, ts: string): seq<Op> {
    if ops == [] then []
    else (if ops[0].timestamp == ts then [ops[0]] else []) + At(ops[1..], ts)
  }

  /** The result of any stable sort: sorted, and equal timestamps keep their order. */
  ghost predicate IsStableSort(sorted: seq<Op>, ops: seq<Op>) {
    SortedByTime(sorted) && forall ts :: At(sorted, ts) == At(ops, ts)
  }

  lemma {:induction false} AtSplits(x: seq<Op>, y: seq<Op>, ts: string)
    ensures At(x + y, ts) == At(x, ts) + At(y, ts)
    decreases |x|
  {
    if x == [] {
      assert x + y == y;
    } else {
      assert (x + y)[0] == x[0] && (x + y)[1..] == x[1..] + y;
      AtSplits(x[1..], y, ts);
      Assoc(if x[0].timestamp == ts then [x[0]] else [], At(x[1..], ts), At(y, ts));
    }
  }

  lemma {:induction false} AtIsEmpty(ops: seq<Op>, ts: string)
    requires forall op :: op in ops ==> op.timestamp != ts
    ensures At(ops, ts) == []
  {
    if ops != [] {
      assert ops[0] in ops;
      AtIsEmpty(ops[1..], ts);
    }
  }

  lemma {:induction false} AtFinds(ops: seq<Op>, op: Op)
    requires op in ops
    ensures op in At(ops, op.timestamp)
  {
    if ops[0] != op {
      AtFinds(ops[1..], op);
    }
  }

  lemma {:induction false} AtIsFrom(ops: seq<Op>, ts: string, op: Op)
    requires op in At(ops, ts)
    ensures op in ops && op.timestamp == ts
  {
    if !(ops[0].timestamp == ts && ops[0] == op) {
      AtIsFrom(ops[1..], ts, op);
    }
  }

  /** There is only one stable sort, so sorting after every addition or once at the end is the same. */
  lemma {:induction false} StableSortIsUnique(x: seq<Op>, y: seq<Op>)
    requires SortedByTime(x) && SortedByTime(y) && forall ts :: At(x, ts) == At(y, ts)
    ensures x == y
    decreases |x|
  {
    assert y != [] ==> At(y, y[0].timestamp) != [];
    assert x != [] ==> At(x, x[0].timestamp) != [];
    if x != [] {
      var t := x[0].timestamp;
      HeadsAgree(x, y);
      HeadsAgree(y, x);
      LessIsTotal(t, y[0].timestamp);
      assert At(x, t)[0] == x[0] && At(y, t)[0] == y[0];
      forall ts
        ensures At(x[1..], ts) == At(y[1..], ts)
      {
        assert At(x, ts) == At(y, ts);
        AtTail(x, ts);
        AtTail(y, ts);
      }
      StableSortIsUnique(x[1..], y[1..]);
    }
  }

  lemma AtTail(ops: seq<Op>, ts: string)
    requires ops != []
    ensures At(ops[1..], ts) == if ops[0].timestamp == ts then At(ops, ts)[1..] else At(ops, ts)
  {}

  lemma HeadsAgree(x: seq<Op>, y: seq<Op>)
    requires x != [] && y != [] && SortedByTime(y) && forall ts :: At(x, ts) == At(y, ts)
    ensures !Less(x[0].timestamp, y[0].timestamp)
  {
    AtFinds(x, x[0]);
    AtIsFrom(y, x[0].timestamp, x[0]);
    var i :| 0 <= i < |y| && y[i] == x[0];
    LessIsIrreflexive(x[0].timestamp);
  }

  class FileTimeline {
    var ops: seq<Op>
    ghost var arrivals: seq<Op>

    ghost predicate Valid()
      reads this
    {
      IsStableSort(ops, arrivals)
    }

    constructor ()
      ensures Valid() && ops == [] && arrivals == []
    {
      ops, arrivals := [], [];
    }

    /** Append, then sort by timestamp; the timeline is always one stable sort of what arrived. */
    method Add(op: Op)
      requires Valid()
      modifies this
      ensures Valid() && arrivals == old(arrivals) + [op]
    {
      ghost var before := ops;
      var i := |ops|;
      while i > 0 && Less(op.timestamp, ops[i - 1].timestamp)
        invariant 0 <= i <= |ops|
        invariant forall j :: i <= j < |ops| ==> Less(op.timestamp, ops[j].timestamp)
      {
        i := i - 1;
      }
      // Python sorts the list with the new operation at its end; being stable, that sort puts the
      // operation behind those that are not later and leaves the others alone.
      InsertIsSorted(ops, i, op);
      forall ts
        ensures At(ops[..i] + [op] + ops[i..], ts) == At(arrivals + [op], ts)
      {
        AtInserted(ops, i, op, ts);
        AtSplits(arrivals, [op], ts);
        assert At(ops, ts) == At(arrivals, ts);
      }
      ops := ops[..i] + [op] + ops[i..];
      arrivals := arrivals + [op];
    }
  }

  lemma {:induction false} AtInserted(ops: seq<Op>, i: nat, op: Op, ts: string)
    requires i <= |ops| && forall j :: i <= j < |ops| ==> Less(op.timestamp, ops[j].timestamp)
    ensures At(ops[..i] + [op] + ops[i..], ts) == At(ops, ts) + At([op], ts)
  {
    hide *;
    var left, right := ops[..i], ops[i..];
    assert ops == left + right;
    AtSplits(left + [op], right, ts);
    AtSplits(left, [op], ts);
    AtSplits(left, right, ts);
    LessIsIrreflexive(op.timestamp);
    if ts == op.timestamp {
      AtIsEmpty(right, ts);
      assert At(left, ts) + At([op], ts) + [] == At(left, ts) + [] + At([op], ts);
    } else {
      AtIsEmpty([op], ts);
      assert At(left, ts) + [] + At(right, ts) == At(left, ts) + At(right, ts) + [];
    }
  }

  lemma InsertIsSorted(ops: seq<Op>, i: nat, op: Op)
    requires SortedByTime(ops) && i <= |ops|
    requires forall j :: i <= j < |ops| ==> Less(op.timestamp, ops[j].timestamp)
    requires i > 0 ==> !Less(op.timestamp, ops[i - 1].timestamp)
    ensures SortedByTime(ops[..i] + [op] + ops[i..])
  {
    forall j | 0 <= j < i
      ensures !Less(op.timestamp, ops[j].timestamp)
    {
      if Less(op.timestamp, ops[j].timestamp) && j < i - 1 {
        LessIsTotal(ops[j].timestamp, ops[i - 1].timestamp);
        if Less(ops[j].timestamp, ops[i - 1].timestamp) {
          LessIsTransitive(op.timestamp, ops[j].timestamp, ops[i - 1].timestamp);
        }
      }
    }
    forall j | i <= j < |ops|
      ensures !Less(ops[j].timestamp, op.timestamp)
    {
      LessIsAsymmetric(op.timestamp, ops[j].timestamp);
    }
  }

  // Reconstructing at a time -----------------------------------------------------------------------

  /** The timestamps that can be read, and the moments they stand for. */
  type Clock = string -> Option<int>

  predicate IsDue(op: Op, dt: Clock, target: int) {
    dt(op.timestamp).Some? && dt(op.timestamp).value <= target
  }

  /** The operations at or before a moment, in order. */
  function Due(ops: seq<Op>, dt: Clock, target: int): seq<Op> {
    if ops == [] then []
    else (if IsDue(ops[0], dt, target) then [ops[0]] else []) + Due(ops[1..], dt, target)
  }

  /** The timestamp branch of parse_timestamp_or_index: the last operation at or before the moment;
      one timestamp that cannot be read, and there is no answer. */
  method IndexAtTime(ops: seq<Op>, dt: Clock, target: int) returns (best: Option<nat>)
    ensures (exists op :: op in ops && dt(op.timestamp).None?) ==> best.None?
    ensures (forall op :: op in ops ==> dt(op.timestamp).Some?) ==>
      (if best.Some? then best.value + 1 else 0) == Replayed(ops, dt, target)
    ensures best.Some? ==>
      best.value < |ops| && dt(ops[best.value].timestamp).Some? && dt(ops[best.value].timestamp).value <= target
    ensures (forall op :: op in ops ==> dt(op.timestamp).Some?) ==>
      forall k :: (if best.Some? then best.value + 1 else 0) <= k < |ops| ==> dt(ops[k].timestamp).value > target
  {
    best := None;
    for i := 0 to |ops|
      invariant forall k :: 0 <= k < i ==> dt(ops[k].timestamp).Some?
      invariant best.Some? ==> best.value < i && IsDue(ops[best.value], dt, target)
      invariant forall k :: (if best.Some? then best.value + 1 else 0) <= k < i ==> !IsDue(ops[k], dt, target)
    {
      var t := dt(ops[i].timestamp);
      if t.None? {
        assert ops[i] in ops;
        return None;
      }
      if t.value <= target {
        best := Some(i);
      }
    }
    forall op | op in ops
      ensures dt(op.timestamp).Some?
    {
      var k :| 0 <= k < |ops| && ops[k] == op;
    }
  }

  ghost predicate Chronological(ops: seq<Op>, dt: Clock) {
    forall i, j :: 0 <= i < j < |ops| && dt(ops[i].timestamp).Some? && dt(ops[j].timestamp).Some? ==>
      dt(ops[i].timestamp).value <= dt(ops[j].timestamp).value
  }

  /** Timestamps of one format: their order as strings is their order in time. */
  ghost predicate Uniform(ops: seq<Op>, dt: Clock) {
    && (forall op :: op in ops ==> dt(op.timestamp).Some?)
    && (forall x, y :: x in ops && y in ops && !Less(y.timestamp, x.timestamp) ==>
         dt(x.timestamp).value <= dt(y.timestamp).value)
  }

  /** The length of the prefix that a reconstruction at the moment replays. */
  ghost function Replayed(ops: seq<Op>, dt: Clock, target: int): (n: nat)
    ensures n <= |ops|
    ensures n > 0 ==> IsDue(ops[n - 1], dt, target)
    ensures forall k :: n <= k < |ops| ==> !IsDue(ops[k], dt, target)
  {
    if ops == [] then 0
    else if IsDue(ops[|ops| - 1], dt, target) then |ops|
    else Replayed(ops[..|ops| - 1], dt, target)
  }

  lemma {:induction false} DueSplits(x: seq<Op>, y: seq<Op>, dt: Clock, target: int)
    ensures Due(x + y, dt, target) == Due(x, dt, target) + Due(y, dt, target)
    decreases |x|
  {
    if x == [] {
      assert x + y == y;
    } else {
      assert (x + y)[0] == x[0] && (x + y)[1..] == x[1..] + y;
      DueSplits(x[1..], y, dt, target);
      Assoc(if IsDue(x[0], dt, target) then [x[0]] else [], Due(x[1..], dt, target), Due(y, dt, target));
    }
  }

  lemma {:induction false} NoneDue(ops: seq<Op>, dt: Clock, target: int)
    requires forall op :: op in ops ==> !IsDue(op, dt, target)
    ensures Due(ops, dt, target) == []
  {
    if ops != [] {
      NoneDue(ops[1..], dt, target);
    }
  }

  lemma {:induction false} AllDue(ops: seq<Op>, dt: Clock, target: int)
    ensures Due(ops, dt, target) == ops <==> forall op :: op in ops ==> IsDue(op, dt, target)
    ensures |Due(ops, dt, target)| <= |ops|
  {
    if ops != [] {
      var tail := ops[1..];
      AllDue(tail, dt, target);
      assert ops == [ops[0]] + tail;
      assert IsDue(ops[0], dt, target) ==> Due(ops, dt, target)[1..] == Due(tail, dt, target);
    }
  }

  /** What a reconstruction at the moment replays is what lies at or before it. */
  ghost predicate IsExactAt(ops: seq<Op>, dt: Clock, target: int) {
    ops[..Replayed(ops, dt, target)] == Due(ops, dt, target)
  }

  lemma PrefixIsDueIff(ops: seq<Op>, dt: Clock, target: int)
    ensures IsExactAt(ops, dt, target) <==>
      forall k :: 0 <= k < Replayed(ops, dt, target) ==> IsDue(ops[k], dt, target)
  {
    var n := Replayed(ops, dt, target);
    var prefix, rest := ops[..n], ops[n..];
    assert ops == prefix + rest;
    DueSplits(prefix, rest, dt, target);
    NoneDue(rest, dt, target);
    AllDue(prefix, dt, target);
    assert forall k :: 0 <= k < n ==> prefix[k] == ops[k] && prefix[k] in prefix;
  }

  /** Reconstructing at every moment replays exactly the operations at or before it, if and only if
      the timeline is in the order of time. */
  lemma ExactForeverIff(ops: seq<Op>, dt: Clock)
    requires forall op :: op in ops ==> dt(op.timestamp).Some?
    ensures (forall target :: IsExactAt(ops, dt, target)) <==> Chronological(ops, dt)
  {
    if forall target :: IsExactAt(ops, dt, target) {
      forall i, j | 0 <= i < j < |ops|
        ensures dt(ops[i].timestamp).value <= dt(ops[j].timestamp).value
      {
        hide Due, Replayed, IsExactAt;
        var target := dt(ops[j].timestamp).value;
        assert IsExactAt(ops, dt, target);
        PrefixIsDueIff(ops, dt, target);
        assert IsDue(ops[j], dt, target);
        assert IsDue(ops[i], dt, target);
      }
    }
    if Chronological(ops, dt) {
      forall target
        ensures IsExactAt(ops, dt, target)
      {
        ChronologicalIsExact(ops, dt, target);
      }
    }
  }

  lemma ChronologicalIsExact(ops: seq<Op>, dt: Clock, target: int)
    requires forall op :: op in ops ==> dt(op.timestamp).Some?
    requires Chronological(ops, dt)
    ensures IsExactAt(ops, dt, target)
  {
    hide Due, Replayed, IsExactAt;
    PrefixIsDueIff(ops, dt, target);
    var n := Replayed(ops, dt, target);
    forall k | 0 <= k < n
      ensures IsDue(ops[k], dt, target)
    {
      assert IsDue(ops[n - 1], dt, target);
      assert ops[k] in ops && ops[n - 1] in ops;
    }
  }

  /** A timeline of uniform timestamps, asked for a moment, gives the full replay of the stable sort
      of exactly those operations, of all that arrived, that lie at or before it. */
  lemma {:induction false} ReplayAtTime(ops: seq<Op>, arrivals: seq<Op>, dt: Clock, target: int, due: seq<Op>)
    requires IsStableSort(ops, arrivals) && Uniform(ops, dt)
    requires IsStableSort(due, Due(arrivals, dt, target))
    ensures ops[..Replayed(ops, dt, target)] == due
  {
    var mine := Due(ops, dt, target);
    DueIsSorted(ops, dt, target);
    forall ts
      ensures At(mine, ts) == At(due, ts)
    {
      hide At, Due, SortedByTime;
      AtDue(ops, dt, target, ts);
      AtDue(arrivals, dt, target, ts);
      assert At(ops, ts) == At(arrivals, ts);
      assert At(due, ts) == At(Due(arrivals, dt, target), ts);
    }
    StableSortIsUnique(mine, due);
  }

  lemma {:induction false} LessAfterPrefix(prefix: string, a: string, b: string)
    ensures Less(prefix + a, prefix + b) <==> Less(a, b)
    decreases |prefix|
  {
    if prefix == "" {
      assert prefix + a == a && prefix + b == b;
    } else {
      assert (prefix + a)[1..] == prefix[1..] + a && (prefix + b)[1..] == prefix[1..] + b;
      LessAfterPrefix(prefix[1..], a, b);
    }
  }

  /** Mixed formats mislead: a timestamp with a fraction sorts before the whole second it follows, so
      reconstructing at that second also replays the later operation. */
  lemma FractionsSortEarly(second: string, dt: Clock, x: Op, y: Op)
    requires x.timestamp == second + ".5Z" && y.timestamp == second + "Z"
    requires dt(x.timestamp).Some? && dt(y.timestamp).Some?
    requires dt(y.timestamp).value < dt(x.timestamp).value
    ensures SortedByTime([x, y]) && !IsExactAt([x, y], dt, dt(y.timestamp).value)
  {
    LessAfterPrefix(second, "Z", ".5Z");
    PrefixIsDueIff([x, y], dt, dt(y.timestamp).value);
    assert IsDue([x, y][1], dt, dt(y.timestamp).value) && !IsDue([x, y][0], dt, dt(y.timestamp).value);
  }

  /** What the user gets: reconstructing at the index that the method finds for a moment is fully
      replaying the operations at or before it, once one of them is a baseline. */
  method ReconstructAtTime(ops: seq<Op>, dt: Clock, target: int) returns (content: Option<string>)
    requires SortedByTime(ops) && Uniform(ops, dt)
    ensures HasBaseline(Due(ops, dt, target)) ==> content == FullReplay(Due(ops, dt, target))
    ensures Due(ops, dt, target) == [] ==> content == None
  {
    DueIsSorted(ops, dt, target);
    var best := IndexAtTime(ops, dt, target);
    if best.None? {
      return None;
    }
    content := ReconstructAtIndex(ops, best.value);
  }

  lemma {:induction false} DueIsSorted(ops: seq<Op>, dt: Clock, target: int)
    requires SortedByTime(ops) && Uniform(ops, dt)
    ensures IsExactAt(ops, dt, target) && SortedByTime(Due(ops, dt, target))
  {
    ChronologicalIsExact(ops, dt, target);
  }

  lemma {:induction false} AtDue(ops: seq<Op>, dt: Clock, target: int, ts: string)
    ensures At(Due(ops, dt, target), ts) == if dt(ts).Some? && dt(ts).value <= target then At(ops, ts) else []
  {
    if ops != [] {
      AtDue(ops[1..], dt, target, ts);
      var head := if IsDue(ops[0], dt, target) then [ops[0]] else [];
      AtSplits(head, Due(ops[1..], dt, target), ts);
    }
  }
}
