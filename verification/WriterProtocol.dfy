/** The writer that moves events from the streams to ClickHouse, as a machine whose steps are its
    single effects on the outside world, so that a crash or a fault can fall between any two. */
module WriterProtocol {
  import opened Wrappers
  import opened StreamGroup

  const BATCH_SIZE := 100
  const MAX_RETRIES := 3
  const CLAIM_COUNT := 100

  type Stream = string

  datatype Batch = Batch(stream: Stream, msgs: seq<Message>)

  /** A dead-letter file is named after the stream and the second of its writing. */
  datatype FileName = FileName(stream: Stream, second: nat)

  /** `dropped` records the batches whose dead-letter write failed. The clock counts milliseconds. */
  datatype World = World(
    groups: map<Stream, Group>,
    inserted: seq<Batch>,
    dead: map<FileName, seq<Message>>,
    dropped: seq<Batch>,
    clock: nat)

  datatype Task =
    | Ready
    | Trying(batch: Batch, attempts: nat, since: nat)
    | Recorded(batch: Batch)

  datatype Process = Down | Up(buffers: map<Stream, seq<Message>>, task: Task)

  datatype System = System(world: World, process: Process)

  datatype Action =
    | Produce(stream: Stream, entry: Entry)
    | Pass(ms: nat)
    | Start
    | Crash
    | Read(stream: Stream, n: nat)              // the reply reaches the writer
    | ReadLost(stream: Stream, n: nat)          // delivered, but the reply does not arrive
    | Claim(stream: Stream, ids: seq<nat>)      // pending entries handed out again
    | Flush(stream: Stream)
    | InsertSucceeds
    | InsertFails(landed: bool, slept: nat)     // reported as failed; the rows may still be there
    | DeadLetter(written: bool)
    | Ack(applied: bool)

  predicate IsReady(s: System) { s.process.Up? && s.process.task.Ready? }

  predicate IsTrying(s: System) { s.process.Up? && s.process.task.Trying? }

  predicate IsRecorded(s: System) { s.process.Up? && s.process.task.Recorded? }

  /** The pause after a failed attempt: one second more each time. */
  function Backoff(attempts: nat): nat { (attempts + 1) * 1000 }

  predicate Enabled(s: System, a: Action) {
    match a
    case Produce(stream, _) => stream in s.world.groups
    case Pass(_) => true
    case Start => s.process.Down?
    case Crash => s.process.Up?
    case Read(stream, n) => IsReady(s) && CanRead(s.world, stream, n)
    case ReadLost(stream, n) => IsReady(s) && CanRead(s.world, stream, n)
    case Claim(stream, ids) => IsReady(s) && CanClaim(s.world, stream, ids)
    case Flush(stream) => IsReady(s) && stream in s.world.groups && Buffered(s.process.buffers, stream) != []
    case InsertSucceeds => IsTrying(s) && s.process.task.attempts < MAX_RETRIES
    case InsertFails(_, slept) =>
      IsTrying(s) && s.process.task.attempts < MAX_RETRIES && slept >= Backoff(s.process.task.attempts)
    case DeadLetter(_) => IsTrying(s) && s.process.task.attempts == MAX_RETRIES
    case Ack(_) => IsRecorded(s) && s.process.task.batch.stream in s.world.groups
  }

  predicate CanRead(w: World, stream: Stream, n: nat) {
    stream in w.groups && n <= BATCH_SIZE && w.groups[stream].delivered + n <= |w.groups[stream].entries|
  }

  predicate CanClaim(w: World, stream: Stream, ids: seq<nat>) {
    && stream in w.groups && |ids| <= CLAIM_COUNT
    && InRange(w.groups[stream].entries, ids)
    && (forall i :: i in ids ==> i in w.groups[stream].pending)
  }

  function Buffered(buffers: map<Stream, seq<Message>>, stream: Stream): seq<Message> {
    if stream in buffers then buffers[stream] else []
  }

  function NextMessages(g: Group, n: nat): seq<Message>
    requires g.delivered + n <= |g.entries|
  {
    Parse(g.entries, Ids(g.delivered, g.delivered + n))
  }

  function OnGroup(w: World, stream: Stream, g: Group): World {
    w.(groups := w.groups[stream := g])
  }

  function ApplyWorld(s: System, a: Action): World
    requires Enabled(s, a)
  {
    var w := s.world;
    match a
    case Produce(stream, e) => OnGroup(w, stream, Append(w.groups[stream], e))
    case Pass(ms) => w.(clock := w.clock + ms)
    case Read(stream, n) => OnGroup(w, stream, Deliver(w.groups[stream], n))
    case ReadLost(stream, n) => OnGroup(w, stream, Deliver(w.groups[stream], n))
    case InsertSucceeds => w.(inserted := w.inserted + [s.process.task.batch])
    case InsertFails(landed, slept) =>
      w.(inserted := w.inserted + (if landed then [s.process.task.batch] else []), clock := w.clock + slept)
    case DeadLetter(written) =>
      var b := s.process.task.batch;
      if written then w.(dead := w.dead[FileName(b.stream, w.clock / 1000) := b.msgs])
      else w.(dropped := w.dropped + [b])
    case Ack(applied) =>
      var b := s.process.task.batch;
      if applied then OnGroup(w, b.stream, Acknowledge(w.groups[b.stream], b.msgs)) else w
    case Start => w
    case Crash => w
    case Claim(_, _) => w
    case Flush(_) => w
  }

  function ApplyProcess(s: System, a: Action): Process
    requires Enabled(s, a)
  {
    var p := s.process;
    match a
    case Start => Up(map st | st in s.world.groups :: [], Ready)
    case Crash => Down
    case Read(stream, n) =>
      p.(buffers := p.buffers[stream := Buffered(p.buffers, stream) + NextMessages(s.world.groups[stream], n)])
    case Claim(stream, ids) =>
      var msgs := Parse(s.world.groups[stream].entries, ids);
      if msgs == [] then p else p.(task := Trying(Batch(stream, msgs), 0, s.world.clock))
    case Flush(stream) =>
      p.(buffers := p.buffers[stream := []], task := Trying(Batch(stream, p.buffers[stream]), 0, s.world.clock))
    case InsertSucceeds => p.(task := Recorded(p.task.batch))
    case InsertFails(_, _) => p.(task := p.task.(attempts := p.task.attempts + 1))
    case DeadLetter(_) => p.(task := Recorded(p.task.batch))
    case Ack(_) => p.(task := Ready)
    case Produce(_, _) => p
    case Pass(_) => p
    case ReadLost(_, _) => p
  }

  function Apply(s: System, a: Action): System
    requires Enabled(s, a)
  {
    System(ApplyWorld(s, a), ApplyProcess(s, a))
  }

  /** Every action of the list is enabled when its turn comes. */
  predicate IsRun(s: System, actions: seq<Action>)
    decreases |actions|
  {
    actions == [] || (Enabled(s, actions[0]) && IsRun(Apply(s, actions[0]), actions[1..]))
  }

  function AfterRun(s: System, actions: seq<Action>): System
    requires IsRun(s, actions)
    decreases |actions|
  {
    if actions == [] then s else AfterRun(Apply(s, actions[0]), actions[1..])
  }

  /** Groups just created over what their streams held; nothing handed out yet. */
  ghost predicate Initial(s: System) {
    && s.process.Down?
    && s.world.inserted == [] && s.world.dropped == [] && s.world.dead == map[]
    && (forall g :: g in s.world.groups.Values ==> ValidGroup(g) && g.delivered == g.start && g.pending == {})
  }

  // What becomes of a message ----------------------------------------------------------

  ghost predicate Inserted(w: World, stream: Stream, m: Message) {
    exists b :: b in w.inserted && b.stream == stream && m in b.msgs
  }

  ghost predicate DeadLettered(w: World, stream: Stream, m: Message) {
    exists f :: f in w.dead && f.stream == stream && m in w.dead[f]
  }

  ghost predicate Dropped(w: World, stream: Stream, m: Message) {
    exists b :: b in w.dropped && b.stream == stream && m in b.msgs
  }

  ghost predicate OnRecord(w: World, stream: Stream, m: Message) {
    Inserted(w, stream, m) || DeadLettered(w, stream, m) || Dropped(w, stream, m)
  }

  // The invariant of every reachable state ----------------------------------------------

  /** The message is an entry of its stream that has been handed out. */
  ghost predicate Genuine(w: World, stream: Stream, m: Message) {
    stream in w.groups && w.groups[stream].start <= m.id < w.groups[stream].delivered <= |w.groups[stream].entries| &&
    w.groups[stream].entries[m.id] == Some(m.event)
  }

  ghost predicate AllGenuine(w: World, stream: Stream, msgs: seq<Message>) {
    stream in w.groups && forall m :: m in msgs ==> Genuine(w, stream, m)
  }

  /** Handed-out entry i is still pending, or it is well-formed and on record. */
  ghost predicate Kept(w: World, stream: Stream, i: nat)
    requires stream in w.groups && i < |w.groups[stream].entries|
  {
    var g := w.groups[stream];
    i in g.pending || (g.entries[i].Some? && OnRecord(w, stream, Message(i, g.entries[i].value)))
  }

  ghost predicate WorldInv(w: World) {
    && (forall st :: st in w.groups ==> ValidGroup(w.groups[st]))
    && (forall st, i: nat :: st in w.groups && w.groups[st].start <= i < w.groups[st].delivered ==> Kept(w, st, i))
    && (forall b :: b in w.inserted ==> AllGenuine(w, b.stream, b.msgs))
    && (forall f :: f in w.dead ==> AllGenuine(w, f.stream, w.dead[f]))
    && (forall f :: f in w.dead ==> f.second * 1000 <= w.clock)
  }

  /** Milliseconds slept after the first attempts. */
  function Slept(attempts: nat): nat {
    if attempts == 0 then 0 else Slept(attempts - 1) + Backoff(attempts - 1)
  }

  ghost predicate TaskInv(w: World, t: Task) {
    match t
    case Ready => true
    case Trying(b, attempts, since) =>
      && AllGenuine(w, b.stream, b.msgs)
      && since + Slept(attempts) <= w.clock
      && (forall f :: f in w.dead ==> f.second * 1000 <= since)
    case Recorded(b) =>
      && AllGenuine(w, b.stream, b.msgs)
      && (forall m :: m in b.msgs ==> OnRecord(w, b.stream, m))
  }

  ghost predicate Inv(s: System) {
    && WorldInv(s.world)
    && (s.process.Up? ==>
          && TaskInv(s.world, s.process.task)
          && (forall st :: st in s.process.buffers ==> AllGenuine(s.world, st, s.process.buffers[st])))
  }

  /** What a step never takes away. */
  ghost predicate Extends(w: World, w': World) {
    && w.groups.Keys == w'.groups.Keys
    && (forall st :: st in w.groups ==> GroupExtends(w.groups[st], w'.groups[st]))
    && w.inserted <= w'.inserted && w.dropped <= w'.dropped && w.clock <= w'.clock
    && (forall f :: f in w.dead ==> f in w'.dead && w'.dead[f] == w.dead[f])
  }

  ghost predicate GroupExtends(g: Group, g': Group) {
    g.entries <= g'.entries && g.start == g'.start && g.delivered <= g'.delivered <= |g'.entries|
  }

  lemma RecordsStay(w: World, w': World, stream: Stream, m: Message)
    requires Extends(w, w')
    ensures OnRecord(w, stream, m) ==> OnRecord(w', stream, m)
    ensures Genuine(w, stream, m) ==> Genuine(w', stream, m)
  {
    if Inserted(w, stream, m) {
      var b :| b in w.inserted && b.stream == stream && m in b.msgs;
      assert b in w'.inserted;
    }
    if Dropped(w, stream, m) {
      var b :| b in w.dropped && b.stream == stream && m in b.msgs;
      assert b in w'.dropped;
    }
  }

  lemma GenuineStays(w: World, w': World, stream: Stream, msgs: seq<Message>)
    requires Extends(w, w')
    ensures AllGenuine(w, stream, msgs) ==> AllGenuine(w', stream, msgs)
  {
    forall m | Genuine(w, stream, m)
      ensures Genuine(w', stream, m)
    {
      RecordsStay(w, w', stream, m);
    }
  }

  /** What remains to be shown of a step once it takes nothing away. */
  ghost predicate GroupsStepWell(w: World, w': World) {
    forall st :: st in w.groups && st in w'.groups ==>
      && ValidGroup(w'.groups[st])
      && (forall i: nat :: w.groups[st].delivered <= i < w'.groups[st].delivered ==> i in w'.groups[st].pending)
      && (forall i :: i in w.groups[st].pending && i !in w'.groups[st].pending ==> SettledIn(w, w', st, i))
  }

  ghost predicate SettledIn(w: World, w': World, stream: Stream, i: nat) {
    stream in w.groups && i < |w.groups[stream].entries| && w.groups[stream].entries[i].Some? &&
    OnRecord(w', stream, Message(i, w.groups[stream].entries[i].value))
  }

  lemma KeptStays(w: World, w': World, stream: Stream, i: nat)
    requires WorldInv(w) && Extends(w, w') && GroupsStepWell(w, w')
    requires stream in w.groups && w.groups[stream].start <= i < w'.groups[stream].delivered
    ensures i < |w'.groups[stream].entries| && Kept(w', stream, i)
  {
    var g, g' := w.groups[stream], w'.groups[stream];
    assert GroupExtends(g, g') && ValidGroup(g);
    if i < g.delivered {
      assert Kept(w, stream, i);
      assert g'.entries[i] == g.entries[i];
      if g.entries[i].Some? {
        RecordsStay(w, w', stream, Message(i, g.entries[i].value));
      }
      assert i in g.pending && i !in g'.pending ==> SettledIn(w, w', stream, i);
    }
  }

  lemma WorldStays(w: World, w': World)
    requires WorldInv(w) && Extends(w, w') && GroupsStepWell(w, w')
    requires forall b :: b in w'.inserted && b !in w.inserted ==> AllGenuine(w', b.stream, b.msgs)
    requires forall f :: f in w'.dead && f !in w.dead ==>
      AllGenuine(w', f.stream, w'.dead[f]) && f.second * 1000 <= w'.clock
    ensures WorldInv(w')
  {
    forall st, i: nat | st in w'.groups && w'.groups[st].start <= i < w'.groups[st].delivered
      ensures i < |w'.groups[st].entries| && Kept(w', st, i)
    {
      KeptStays(w, w', st, i);
    }
    forall b | b in w'.inserted
      ensures AllGenuine(w', b.stream, b.msgs)
    {
      if b in w.inserted {
        GenuineStays(w, w', b.stream, b.msgs);
      }
    }
    forall f | f in w'.dead
      ensures AllGenuine(w', f.stream, w'.dead[f])
    {
      if f in w.dead {
        GenuineStays(w, w', f.stream, w.dead[f]);
      }
    }
  }

  lemma BuffersStay(w: World, w': World, buffers: map<Stream, seq<Message>>)
    requires Extends(w, w') && forall st :: st in buffers ==> AllGenuine(w, st, buffers[st])
    ensures forall st :: st in buffers ==> AllGenuine(w', st, buffers[st])
  {
    forall st | st in buffers
      ensures AllGenuine(w', st, buffers[st])
    {
      GenuineStays(w, w', st, buffers[st]);
    }
  }

  // Step by step ----------------------------------------------------------------------

  lemma ProduceStep(s: System, a: Action)
    requires Inv(s) && a.Produce? && Enabled(s, a)
    ensures Inv(Apply(s, a)) && Extends(s.world, Apply(s, a).world)
  {
    var w, w' := s.world, Apply(s, a).world;
    assert Extends(w, w');
    WorldStays(w, w');
    if s.process.Up? {
      BuffersStay(w, w', s.process.buffers);
    }
  }

  lemma QuietStep(s: System, a: Action)
    requires Inv(s) && (a.Pass? || a.Start? || a.Crash? || a.Flush?) && Enabled(s, a)
    ensures Inv(Apply(s, a)) && Extends(s.world, Apply(s, a).world)
  {
    var w, w' := s.world, Apply(s, a).world;
    assert Extends(w, w');
    WorldStays(w, w');
    if s.process.Up? {
      BuffersStay(w, w', s.process.buffers);
    }
  }

  lemma ReadWorld(w: World, stream: Stream, n: nat)
    requires WorldInv(w) && CanRead(w, stream, n)
    ensures var w' := OnGroup(w, stream, Deliver(w.groups[stream], n));
      Extends(w, w') && GroupsStepWell(w, w') && ValidGroup(w'.groups[stream])
  {
    var g, ids := w.groups[stream], Ids(w.groups[stream].delivered, w.groups[stream].delivered + n);
    assert ValidGroup(g);
    forall i: nat | g.delivered <= i < g.delivered + n
      ensures i in Elements(ids)
    {
      assert ids[i - g.delivered] == i;
    }
  }

  lemma ReadStep(s: System, a: Action)
    requires Inv(s) && (a.Read? || a.ReadLost?) && Enabled(s, a)
    ensures Inv(Apply(s, a)) && Extends(s.world, Apply(s, a).world)
  {
    var w, w' := s.world, Apply(s, a).world;
    ReadWorld(w, a.stream, a.n);
    assert w' == OnGroup(w, a.stream, Deliver(w.groups[a.stream], a.n));
    hide Extends, GroupsStepWell, Parse, ValidGroup;
    WorldStays(w, w');
    BuffersStay(w, w', s.process.buffers);
  }

  lemma ClaimStep(s: System, a: Action)
    requires Inv(s) && a.Claim? && Enabled(s, a)
    ensures Inv(Apply(s, a)) && Extends(s.world, Apply(s, a).world)
  {
    var w := s.world;
    assert ValidGroup(w.groups[a.stream]);
    assert Slept(0) == 0;
  }

  lemma InsertStep(s: System, a: Action)
    requires Inv(s) && (a.InsertSucceeds? || a.InsertFails?) && Enabled(s, a)
    ensures Inv(Apply(s, a)) && Extends(s.world, Apply(s, a).world)
  {
    var w, w', b := s.world, Apply(s, a).world, s.process.task.batch;
    assert Extends(w, w');
    GenuineStays(w, w', b.stream, b.msgs);
    WorldStays(w, w');
    BuffersStay(w, w', s.process.buffers);
    if a.InsertSucceeds? {
      assert b in w'.inserted;
      assert forall m :: m in b.msgs ==> Inserted(w', b.stream, m);
    }
  }

  /** Three attempts sleep six seconds, so the second in the file's name is a new one:
      no earlier dead-letter file is overwritten. */
  lemma DeadLetterNameIsNew(s: System)
    requires Inv(s) && IsTrying(s) && s.process.task.attempts == MAX_RETRIES
    ensures FileName(s.process.task.batch.stream, s.world.clock / 1000) !in s.world.dead
  {
    assert Slept(1) == 1000;
    assert Slept(2) == 3000;
    assert Slept(3) == 6000;
  }

  lemma DeadLetterStep(s: System, a: Action)
    requires Inv(s) && a.DeadLetter? && Enabled(s, a)
    ensures Inv(Apply(s, a)) && Extends(s.world, Apply(s, a).world)
  {
    var w, w', b := s.world, Apply(s, a).world, s.process.task.batch;
    DeadLetterNameIsNew(s);
    assert Extends(w, w');
    GenuineStays(w, w', b.stream, b.msgs);
    WorldStays(w, w');
    BuffersStay(w, w', s.process.buffers);
    if a.written {
      var f := FileName(b.stream, w.clock / 1000);
      assert f in w'.dead && w'.dead[f] == b.msgs;
      assert forall m :: m in b.msgs ==> DeadLettered(w', b.stream, m);
    } else {
      assert b in w'.dropped;
      assert forall m :: m in b.msgs ==> Dropped(w', b.stream, m);
    }
  }

  lemma AckStep(s: System, a: Action)
    requires Inv(s) && a.Ack? && Enabled(s, a)
    ensures Inv(Apply(s, a)) && Extends(s.world, Apply(s, a).world)
  {
    var w, w', b := s.world, Apply(s, a).world, s.process.task.batch;
    assert Extends(w, w') by {
      assert ValidGroup(w.groups[b.stream]);
    }
    if a.applied {
      var g := w.groups[b.stream];
      forall i | i in g.pending && i in IdSet(b.msgs)
        ensures SettledIn(w, w', b.stream, i)
      {
        var m :| m in b.msgs && m.id == i;
        assert Genuine(w, b.stream, m) && m == Message(i, g.entries[i].value);
        RecordsStay(w, w', b.stream, m);
      }
      assert w'.groups[b.stream] == Acknowledge(g, b.msgs);
      assert GroupsStepWell(w, w');
    }
    WorldStays(w, w');
    BuffersStay(w, w', s.process.buffers);
  }

  lemma StepKeepsInv(s: System, a: Action)
    requires Inv(s) && Enabled(s, a)
    ensures Inv(Apply(s, a)) && Extends(s.world, Apply(s, a).world)
  {
    hide Inv, Apply, Extends, Enabled;
    match a
    case Produce(_, _) => ProduceStep(s, a);
    case Pass(_) => QuietStep(s, a);
    case Start => QuietStep(s, a);
    case Crash => QuietStep(s, a);
    case Flush(_) => QuietStep(s, a);
    case Read(_, _) => ReadStep(s, a);
    case ReadLost(_, _) => ReadStep(s, a);
    case Claim(_, _) => ClaimStep(s, a);
    case InsertSucceeds => InsertStep(s, a);
    case InsertFails(_, _) => InsertStep(s, a);
    case DeadLetter(_) => DeadLetterStep(s, a);
    case Ack(_) => AckStep(s, a);
  }

  // Whole runs --------------------------------------------------------------------------

  lemma {:induction false} RunKeepsInv(s: System, actions: seq<Action>)
    requires Inv(s) && IsRun(s, actions)
    ensures Inv(AfterRun(s, actions)) && Extends(s.world, AfterRun(s, actions).world)
    decreases |actions|
  {
    if actions != [] {
      StepKeepsInv(s, actions[0]);
      hide Inv, Apply, Extends, Enabled;
      RunKeepsInv(Apply(s, actions[0]), actions[1..]);
      ExtendsTransitive(s.world, Apply(s, actions[0]).world, AfterRun(s, actions).world);
    } else {
      ExtendsReflexive(s);
    }
  }

  lemma ExtendsTransitive(w: World, w': World, w'': World)
    requires Extends(w, w') && Extends(w', w'')
    ensures Extends(w, w'')
  {
    forall st | st in w.groups
      ensures GroupExtends(w.groups[st], w''.groups[st])
    {
      assert GroupExtends(w.groups[st], w'.groups[st]) && GroupExtends(w'.groups[st], w''.groups[st]);
    }
  }

  lemma ExtendsReflexive(s: System)
    requires Inv(s)
    ensures Extends(s.world, s.world)
  {
    forall st | st in s.world.groups
      ensures GroupExtends(s.world.groups[st], s.world.groups[st])
    {
      assert ValidGroup(s.world.groups[st]);
    }
  }

  lemma InitialHasInv(s: System)
    requires Initial(s)
    ensures Inv(s)
  {
    forall st | st in s.world.groups
      ensures ValidGroup(s.world.groups[st]) && s.world.groups[st].delivered == s.world.groups[st].start
    {
      assert s.world.groups[st] in s.world.groups.Values;
    }
  }

  /** Whatever fails and whenever the process dies: a malformed entry that was handed out is pending
      for ever, and a well-formed one is pending, in ClickHouse, in a dead-letter file, or in a batch
      whose dead-letter write failed. */
  lemma NoLoss(s: System, actions: seq<Action>, stream: Stream, i: nat)
    requires Initial(s) && IsRun(s, actions) && stream in s.world.groups
    requires var w := AfterRun(s, actions).world;
      stream in w.groups && w.groups[stream].start <= i < w.groups[stream].delivered
    ensures var w := AfterRun(s, actions).world; var g := w.groups[stream];
      && i < |g.entries|
      && (g.entries[i].None? ==> i in g.pending)
      && (g.entries[i].Some? ==>
            var m := Message(i, g.entries[i].value);
            i in g.pending || Inserted(w, stream, m) || DeadLettered(w, stream, m) || Dropped(w, stream, m))
  {
    InitialHasInv(s);
    RunKeepsInv(s, actions);
    var w := AfterRun(s, actions).world;
    assert ValidGroup(w.groups[stream]);
    assert Kept(w, stream, i);
  }

  lemma DropsNothing(s: System, a: Action)
    requires Enabled(s, a) && a != DeadLetter(false)
    ensures Apply(s, a).world.dropped == s.world.dropped
  {}

  /** Nothing is dropped as long as every dead-letter write succeeds. */
  lemma {:induction false} OnlyFailedDeadLettersDrop(s: System, actions: seq<Action>)
    requires IsRun(s, actions) && forall a :: a in actions ==> a != DeadLetter(false)
    ensures AfterRun(s, actions).world.dropped == s.world.dropped
    decreases |actions|
  {
    if actions != [] {
      assert actions[0] in actions && forall a :: a in actions[1..] ==> a in actions;
      hide Apply;
      assert Apply(s, actions[0]).world.dropped == s.world.dropped by { DropsNothing(s, actions[0]); }
      OnlyFailedDeadLettersDrop(Apply(s, actions[0]), actions[1..]);
    }
  }

  /** What ClickHouse and the dead-letter files hold is genuine and never goes away. */
  lemma RecordsArePermanent(s: System, actions: seq<Action>, more: seq<Action>, stream: Stream, m: Message)
    requires Initial(s) && IsRun(s, actions) && IsRun(AfterRun(s, actions), more)
    requires OnRecord(AfterRun(s, actions).world, stream, m)
    ensures OnRecord(AfterRun(AfterRun(s, actions), more).world, stream, m)
    ensures DeadLettered(AfterRun(s, actions).world, stream, m) ==>
      DeadLettered(AfterRun(AfterRun(s, actions), more).world, stream, m)
    ensures Inserted(AfterRun(s, actions).world, stream, m) || DeadLettered(AfterRun(s, actions).world, stream, m) ==>
      Genuine(AfterRun(s, actions).world, stream, m)
  {
    InitialHasInv(s);
    RunKeepsInv(s, actions);
    var middle := AfterRun(s, actions);
    RunKeepsInv(middle, more);
    var last := AfterRun(middle, more);
    RecordsStay(middle.world, last.world, stream, m);
    if DeadLettered(middle.world, stream, m) {
      var f :| f in middle.world.dead && f.stream == stream && m in middle.world.dead[f];
      assert f in last.world.dead;
    }
  }

  function LossyRun(): seq<Action> {
    [Start, Read("s", 1), Flush("s"), InsertFails(false, 1000), InsertFails(false, 2000), InsertFails(false, 3000),
     DeadLetter(false), Ack(true)]
  }

  const LOST := Message(0, "event")

  /** The stream holds one event; `delivered` and `pending` as given. */
  function LossyWorld(delivered: nat, pending: set<nat>, dropped: seq<Batch>, clock: nat): World {
    World(map["s" := Group([Some("event")], 0, delivered, pending)], [], map[], dropped, clock)
  }

  lemma FirstEntry()
    ensures Ids(0, 1) == [0] && Elements([0]) == {0} && Parse([Some("event")], [0]) == [LOST]
    ensures NextMessages(LossyWorld(0, {}, [], 0).groups["s"], 1) == [LOST]
  {
    assert Ids(0, 1) == [0] && [0][..0] == [];
  }

  lemma LossyStart(s: System)
    requires s == System(LossyWorld(0, {}, [], 0), Down)
    ensures Enabled(s, Start) && Enabled(Apply(s, Start), Read("s", 1))
    ensures Apply(Apply(s, Start), Read("s", 1)) == System(LossyWorld(1, {0}, [], 0), Up(map["s" := [LOST]], Ready))
  {
    hide Parse, Ids, NextMessages;
    FirstEntry();
    var s1 := Apply(s, Start);
    assert s1.process.buffers == map["s" := []];
    assert NextMessages(s.world.groups["s"], 1) == [LOST];
    assert [] + [LOST] == [LOST];
    var s2 := Apply(s1, Read("s", 1));
    assert Deliver(s.world.groups["s"], 1).pending == {0};
    assert s2.world.groups == LossyWorld(1, {0}, [], 0).groups;
    assert s2.process.buffers == map["s" := [LOST]];
  }

  lemma LossyEnd(s: System)
    requires s == System(LossyWorld(1, {0}, [], 6000), Up(map["s" := []], Trying(Batch("s", [LOST]), 3, 0)))
    ensures Enabled(s, DeadLetter(false)) && Enabled(Apply(s, DeadLetter(false)), Ack(true))
    ensures Apply(Apply(s, DeadLetter(false)), Ack(true)) ==
      System(LossyWorld(1, {}, [Batch("s", [LOST])], 6000), Up(map["s" := []], Ready))
  {
    assert LOST in [LOST] && IdSet([LOST]) == {0};
    var s7 := Apply(s, DeadLetter(false));
    var s8 := Apply(s7, Ack(true));
    assert s7.world.dropped == [Batch("s", [LOST])];
    assert Acknowledge(s.world.groups["s"], [LOST]).pending == {};
    assert s8.world.groups == LossyWorld(1, {}, [], 0).groups;
  }

  lemma LossyMiddle(s: System)
    requires s == System(LossyWorld(1, {0}, [], 0), Up(map["s" := [LOST]], Ready))
    ensures IsRun(s, LossyRun()[2..6])
    ensures AfterRun(s, LossyRun()[2..6]) ==
      System(LossyWorld(1, {0}, [], 6000), Up(map["s" := []], Trying(Batch("s", [LOST]), 3, 0)))
  {
    var b := Batch("s", [LOST]);
    var s3 := Apply(s, Flush("s"));
    assert s3.process.buffers == map["s" := []];
    assert s3 == System(LossyWorld(1, {0}, [], 0), Up(map["s" := []], Trying(b, 0, 0)));
    var s4 := Apply(s3, InsertFails(false, 1000));
    assert s4 == System(LossyWorld(1, {0}, [], 1000), Up(map["s" := []], Trying(b, 1, 0)));
    var s5 := Apply(s4, InsertFails(false, 2000));
    assert s5 == System(LossyWorld(1, {0}, [], 3000), Up(map["s" := []], Trying(b, 2, 0)));
    assert Enabled(s5, InsertFails(false, 3000));
    var r5 := [InsertFails(false, 3000)] + [];
    hide Apply, Enabled;
    RunOfOne(s5, InsertFails(false, 3000), []);
    RunOfOne(s4, InsertFails(false, 2000), r5);
    RunOfOne(s3, InsertFails(false, 1000), [InsertFails(false, 2000)] + r5);
    RunOfOne(s, Flush("s"), [InsertFails(false, 1000)] + ([InsertFails(false, 2000)] + r5));
    assert LossyRun()[2..6] == [Flush("s")] + ([InsertFails(false, 1000)] + ([InsertFails(false, 2000)] + r5));
  }

  lemma RunOfOne(s: System, a: Action, rest: seq<Action>)
    requires Enabled(s, a) && IsRun(Apply(s, a), rest)
    ensures IsRun(s, [a] + rest) && AfterRun(s, [a] + rest) == AfterRun(Apply(s, a), rest)
  {
    assert ([a] + rest)[1..] == rest;
  }

  lemma {:induction false} RunOfTwo(s: System, x: seq<Action>, y: seq<Action>)
    requires IsRun(s, x) && IsRun(AfterRun(s, x), y)
    ensures IsRun(s, x + y) && AfterRun(s, x + y) == AfterRun(AfterRun(s, x), y)
    decreases |x|
  {
    if x == [] {
      assert x + y == y;
    } else {
      assert (x + y)[1..] == x[1..] + y;
      RunOfTwo(Apply(s, x[0]), x[1..], y);
    }
  }

  lemma NoStepsNoChange(s: System)
    ensures IsRun(s, []) && AfterRun(s, []) == s
  {}

  lemma LossyChain(s: System)
    requires s == System(LossyWorld(0, {}, [], 0), Down)
    ensures IsRun(s, LossyRun())
    ensures AfterRun(s, LossyRun()) == System(LossyWorld(1, {}, [Batch("s", [LOST])], 6000), Up(map["s" := []], Ready))
  {
    hide Apply, Enabled, AfterRun, IsRun;
    var all := LossyRun();
    var first, middle, last := [Start] + ([Read("s", 1)] + []), all[2..6], [DeadLetter(false)] + ([Ack(true)] + []);
    assert all == first + (middle + last);
    LossyStart(s);
    var s2 := Apply(Apply(s, Start), Read("s", 1));
    LossyMiddle(s2);
    var s6 := AfterRun(s2, middle);
    LossyEnd(s6);
    NoStepsNoChange(Apply(Apply(s, Start), Read("s", 1)));
    NoStepsNoChange(Apply(Apply(s6, DeadLetter(false)), Ack(true)));
    hide *;
    RunOfOne(Apply(s6, DeadLetter(false)), Ack(true), []);
    RunOfOne(s6, DeadLetter(false), [Ack(true)] + []);
    RunOfTwo(s2, middle, last);
    RunOfOne(Apply(s, Start), Read("s", 1), []);
    RunOfOne(s, Start, [Read("s", 1)] + []);
    RunOfTwo(s, first, middle + last);
  }

  /** Without that condition a message can be lost: three failed inserts, a failed dead-letter write,
      and the acknowledgement all the same. */
  lemma FailedDeadLetterLoses()
    ensures exists s: System ::
      && Initial(s) && IsRun(s, LossyRun())
      && AfterRun(s, LossyRun()).world == LossyWorld(1, {}, [Batch("s", [LOST])], 6000)
      && !Inserted(AfterRun(s, LossyRun()).world, "s", LOST)
      && !DeadLettered(AfterRun(s, LossyRun()).world, "s", LOST)
  {
    var s := System(LossyWorld(0, {}, [], 0), Down);
    assert Initial(s);
    LossyChain(s);
    hide IsRun, AfterRun;
  }

  ghost predicate OutcomesIn(actions: seq<Action>, outcomes: set<bool>) {
    forall a :: a in actions && a.DeadLetter? ==> a.written in outcomes
  }

  /** Every well-formed entry that was handed out is pending, in ClickHouse or in a dead-letter file. */
  ghost predicate NothingIsLost(w: World) {
    forall stream, i: nat ::
      stream in w.groups && w.groups[stream].start <= i < w.groups[stream].delivered && i < |w.groups[stream].entries|
      && w.groups[stream].entries[i].Some? ==>
        || i in w.groups[stream].pending
        || Inserted(w, stream, Message(i, w.groups[stream].entries[i].value))
        || DeadLettered(w, stream, Message(i, w.groups[stream].entries[i].value))
  }

  ghost predicate NoRunLoses(outcomes: set<bool>) {
    forall s, actions :: Initial(s) && IsRun(s, actions) && OutcomesIn(actions, outcomes) ==>
      NothingIsLost(AfterRun(s, actions).world)
  }

  /** The exact condition: for the outcomes that dead-letter writes may have, no run ever loses a message
      if and only if none of them is a failure. */
  lemma NoRunLosesIff(outcomes: set<bool>)
    ensures NoRunLoses(outcomes) <==> false !in outcomes
  {
    if false in outcomes {
      FailureLoses(outcomes);
    } else {
      forall s, actions | Initial(s) && IsRun(s, actions) && OutcomesIn(actions, outcomes)
        ensures NothingIsLost(AfterRun(s, actions).world)
      {
        SafeRun(s, actions, outcomes);
      }
    }
  }

  lemma FailureLoses(outcomes: set<bool>)
    requires false in outcomes
    ensures !NoRunLoses(outcomes)
  {
    assert OutcomesIn(LossyRun(), outcomes);
    hide *;
    FailedDeadLetterLoses();
    var s: System :| Initial(s) && IsRun(s, LossyRun())
      && AfterRun(s, LossyRun()).world == LossyWorld(1, {}, [Batch("s", [LOST])], 6000)
      && !Inserted(AfterRun(s, LossyRun()).world, "s", LOST)
      && !DeadLettered(AfterRun(s, LossyRun()).world, "s", LOST);
    LossyWorldLoses(AfterRun(s, LossyRun()).world);
    OneLossIsEnough(s, LossyRun(), outcomes);
  }

  lemma OneLossIsEnough(s: System, actions: seq<Action>, outcomes: set<bool>)
    requires Initial(s) && IsRun(s, actions) && OutcomesIn(actions, outcomes)
    requires !NothingIsLost(AfterRun(s, actions).world)
    ensures !NoRunLoses(outcomes)
  {
    hide Initial, IsRun, OutcomesIn, NothingIsLost, AfterRun;
  }

  lemma LossyWorldLoses(w: World)
    requires w == LossyWorld(1, {}, [Batch("s", [LOST])], 6000)
    requires !Inserted(w, "s", LOST) && !DeadLettered(w, "s", LOST)
    ensures !NothingIsLost(w)
  {
    hide Inserted, DeadLettered;
    assert w.groups["s"].entries[0] == Some("event");
  }

  lemma SafeRun(s: System, actions: seq<Action>, outcomes: set<bool>)
    requires Initial(s) && IsRun(s, actions) && OutcomesIn(actions, outcomes) && false !in outcomes
    ensures NothingIsLost(AfterRun(s, actions).world)
  {
    var w := AfterRun(s, actions).world;
    InitialHasInv(s);
    RunKeepsInv(s, actions);
    assert w.dropped == [] by {
      OnlyFailedDeadLettersDrop(s, actions);
    }
    hide IsRun, AfterRun, Inserted, DeadLettered;
    forall stream, i: nat | stream in w.groups && w.groups[stream].start <= i < w.groups[stream].delivered
      && i < |w.groups[stream].entries| && w.groups[stream].entries[i].Some?
      ensures
        || i in w.groups[stream].pending
        || Inserted(w, stream, Message(i, w.groups[stream].entries[i].value))
        || DeadLettered(w, stream, Message(i, w.groups[stream].entries[i].value))
    {
      assert stream in s.world.groups;
      NoLoss(s, actions, stream, i);
    }
  }

  // Within one process life: batches partition what was read --------------------------------

  /** The messages that reads of `stream` returned during the run. */
  function MessagesRead(s: System, actions: seq<Action>, stream: Stream): seq<Message>
    requires IsRun(s, actions)
    decreases |actions|
  {
    if actions == [] then []
    else
      (if actions[0].Read? && actions[0].stream == stream
       then NextMessages(s.world.groups[stream], actions[0].n) else []) +
      MessagesRead(Apply(s, actions[0]), actions[1..], stream)
  }

  /** The batches of `stream` that the run took from the buffer to write, one after the other. */
  function MessagesFlushed(s: System, actions: seq<Action>, stream: Stream): seq<Message>
    requires IsRun(s, actions)
    decreases |actions|
  {
    if actions == [] then []
    else
      (if actions[0].Flush? && actions[0].stream == stream then s.process.buffers[stream] else []) +
      MessagesFlushed(Apply(s, actions[0]), actions[1..], stream)
  }

  function BufferOf(s: System, stream: Stream): seq<Message> {
    if s.process.Up? then Buffered(s.process.buffers, stream) else []
  }

  /** As long as the process lives, what was flushed and what is still buffered are together exactly
      what was read, in order and once each. */
  lemma {:induction false} BatchesPartition(s: System, actions: seq<Action>, stream: Stream)
    requires IsRun(s, actions) && forall a :: a in actions ==> !a.Start? && !a.Crash?
    ensures BufferOf(s, stream) + MessagesRead(s, actions, stream) ==
      MessagesFlushed(s, actions, stream) + BufferOf(AfterRun(s, actions), stream)
    decreases |actions|
  {
    if actions != [] {
      var a, next := actions[0], Apply(s, actions[0]);
      assert a in actions && forall x :: x in actions[1..] ==> x in actions;
      BatchesPartition(next, actions[1..], stream);
      var read := if a.Read? && a.stream == stream then NextMessages(s.world.groups[stream], a.n) else [];
      var flushed := if a.Flush? && a.stream == stream then s.process.buffers[stream] else [];
      BufferStep(s, a, stream);
      Shuffle(BufferOf(s, stream), read, flushed, BufferOf(next, stream),
              MessagesRead(next, actions[1..], stream), MessagesFlushed(next, actions[1..], stream),
              BufferOf(AfterRun(s, actions), stream));
    } else {
      assert BufferOf(s, stream) + [] == [] + BufferOf(s, stream);
    }
  }

  lemma BufferStep(s: System, a: Action, stream: Stream)
    requires Enabled(s, a) && !a.Start? && !a.Crash?
    ensures BufferOf(s, stream) +
      (if a.Read? && a.stream == stream then NextMessages(s.world.groups[stream], a.n) else [])
      == (if a.Flush? && a.stream == stream then s.process.buffers[stream] else []) + BufferOf(Apply(s, a), stream)
  {
    var buffer := BufferOf(s, stream);
    assert buffer + [] == buffer == [] + buffer;
    hide NextMessages;
    if a.Flush? && a.stream == stream {
      assert BufferOf(Apply(s, a), stream) == [] && s.process.buffers[stream] == buffer;
    } else if a.Read? && a.stream == stream {
      assert BufferOf(Apply(s, a), stream) == buffer + NextMessages(s.world.groups[stream], a.n);
    } else {
      assert BufferOf(Apply(s, a), stream) == buffer;
    }
  }

  lemma Shuffle(buffer: seq<Message>, read: seq<Message>, flushed: seq<Message>, buffer': seq<Message>,
                later: seq<Message>, flushes: seq<Message>, last: seq<Message>)
    requires buffer + read == flushed + buffer' && buffer' + later == flushes + last
    ensures buffer + (read + later) == (flushed + flushes) + last
  {
    assert buffer + (read + later) == (buffer + read) + later == flushed + (buffer' + later);
  }

  function Count(actions: seq<Action>, p: Action -> bool): nat {
    if actions == [] then 0 else (if p(actions[0]) then 1 else 0) + Count(actions[1..], p)
  }

  function BatchesStarted(s: System, actions: seq<Action>): nat
    requires IsRun(s, actions)
    decreases |actions|
  {
    if actions == [] then 0
    else
      (if IsReady(s) && IsTrying(Apply(s, actions[0])) then 1 else 0) +
        BatchesStarted(Apply(s, actions[0]), actions[1..])
  }

  /** Each batch is recorded once: by one successful insert or by one dead-letter attempt. */
  lemma {:induction false} RecordedOnce(s: System, actions: seq<Action>)
    requires IsRun(s, actions) && forall a :: a in actions ==> !a.Start? && !a.Crash?
    ensures (if IsTrying(s) then 1 else 0) + BatchesStarted(s, actions) ==
      Count(actions, a => a == InsertSucceeds || a.DeadLetter?) + (if IsTrying(AfterRun(s, actions)) then 1 else 0)
    decreases |actions|
  {
    if actions != [] {
      assert actions[0] in actions && forall x :: x in actions[1..] ==> x in actions;
      RecordedOnce(Apply(s, actions[0]), actions[1..]);
    }
  }
}
