/** What the writer's code does for given answers of the outside, as lists of the protocol's actions: attempts and
    their outcomes, replies that arrive or do not, and whole rounds of the loop, which the methods of the writer run. */
module WriterScripts {
  import opened StreamGroup
  import opened WriterProtocol

  const WATCHED_STREAMS: seq<Stream> := ["events:gateway", "events:gitea", "events:k8s"]

  /** How one insert attempt ends; a failure may come after the rows have landed, and a sleep may overrun. */
  datatype Attempt = Success | Failure(landed: bool, overrun: nat)

  datatype Fate = Fate(attempts: seq<Attempt>, deadLetterWritten: bool, ackApplied: bool)

  type FullFate = f: Fate | |f.attempts| == MAX_RETRIES
    witness Fate([Success, Success, Success], true, true)

  /** What a read gets: the number of entries handed out, and whether the reply arrives. */
  datatype Reply = Reply(n: nat, arrives: bool)

  datatype Round =
    | TickRound(fates: seq<FullFate>)
    | PollRound(replies: seq<Reply>, fates: seq<FullFate>)
    | Outside(stream: Stream, entry: Entry, ms: nat)

  predicate FitsRound(r: Round) {
    match r
    case TickRound(fates) => |fates| == |WATCHED_STREAMS|
    case PollRound(replies, fates) => |replies| == |fates| == |WATCHED_STREAMS|
    case Outside(_, _, _) => true
  }

  /** Leads from s to t by the given actions. */
  ghost predicate Leads(s: System, actions: seq<Action>, t: System) {
    IsRun(s, actions) && AfterRun(s, actions) == t
  }

  /** The process keeps living: no action of the list is a start or a crash. */
  ghost predicate Lives(actions: seq<Action>) {
    forall a :: a in actions ==> !a.Start? && !a.Crash?
  }

  /** Every batch taken from a buffer holds 1 to 199 messages. */
  ghost predicate SmallBatches(s: System, actions: seq<Action>)
    requires IsRun(s, actions)
    decreases |actions|
  {
    actions == [] ||
    ((actions[0].Flush? ==> 1 <= |s.process.buffers[actions[0].stream]| < 2 * BATCH_SIZE) &&
     SmallBatches(Apply(s, actions[0]), actions[1..]))
  }

  /** Leads from s to t while living and with small batches. */
  ghost predicate Works(s: System, actions: seq<Action>, t: System) {
    Leads(s, actions, t) && Lives(actions) && SmallBatches(s, actions)
  }

  lemma {:induction false} SmallOn(s: System, x: seq<Action>, y: seq<Action>)
    requires IsRun(s, x) && IsRun(AfterRun(s, x), y) && IsRun(s, x + y)
    requires SmallBatches(s, x) && SmallBatches(AfterRun(s, x), y)
    ensures SmallBatches(s, x + y)
    decreases |x|
  {
    if x == [] {
      assert x + y == y;
    } else {
      assert (x + y)[1..] == x[1..] + y;
      SmallOn(Apply(s, x[0]), x[1..], y);
    }
  }

  lemma WorksOn(s: System, x: seq<Action>, t: System, y: seq<Action>, u: System)
    requires Works(s, x, t) && Works(t, y, u)
    ensures Works(s, x + y, u)
  {
    RunOfTwo(s, x, y);
    SmallOn(s, x, y);
  }

  lemma WorksNowhere(s: System)
    ensures Works(s, [], s)
  {}

  lemma WorksOne(s: System, a: Action)
    requires Enabled(s, a) && !a.Start? && !a.Crash?
    requires a.Flush? ==> |s.process.buffers[a.stream]| < 2 * BATCH_SIZE
    ensures Works(s, [a], Apply(s, a))
  {}

  lemma WorksStep(s: System, x: seq<Action>, t: System, a: Action)
    requires Works(s, x, t) && Enabled(t, a) && !a.Start? && !a.Crash? && !a.Flush?
    ensures Works(s, x + [a], Apply(t, a))
  {
    WorksOne(t, a);
    WorksOn(s, x, t, [a], Apply(t, a));
  }

  // What the code does, action by action, for given answers of the outside -------------------

  ghost function After(s: System, actions: seq<Action>): System {
    if IsRun(s, actions) then AfterRun(s, actions) else s
  }

  lemma AfterWorks(s: System, actions: seq<Action>, t: System)
    requires Works(s, actions, t)
    ensures After(s, actions) == t
  {}

  /** flush from attempt k on. */
  function InsertScript(fate: FullFate, k: nat): seq<Action>
    requires k <= MAX_RETRIES
    decreases MAX_RETRIES - k
  {
    if k == MAX_RETRIES then [DeadLetter(fate.deadLetterWritten), Ack(fate.ackApplied)]
    else match fate.attempts[k]
      case Success => [InsertSucceeds, Ack(fate.ackApplied)]
      case Failure(landed, overrun) => [InsertFails(landed, Backoff(k) + overrun)] + InsertScript(fate, k + 1)
  }

  lemma ScriptGoesOn(before: seq<Action>, fate: FullFate, k: nat)
    requires k <= MAX_RETRIES
    ensures k == MAX_RETRIES ==>
      before + InsertScript(fate, k) == before + [DeadLetter(fate.deadLetterWritten)] + [Ack(fate.ackApplied)]
    ensures k < MAX_RETRIES && fate.attempts[k].Success? ==>
      before + InsertScript(fate, k) == before + [InsertSucceeds] + [Ack(fate.ackApplied)]
    ensures k < MAX_RETRIES && fate.attempts[k].Failure? ==>
      before + InsertScript(fate, k) ==
      before + [InsertFails(fate.attempts[k].landed, Backoff(k) + fate.attempts[k].overrun)] + InsertScript(fate, k + 1)
  {}

  function FlushScript(stream: Stream, fate: FullFate): seq<Action> { [Flush(stream)] + InsertScript(fate, 0) }

  /** What the server cannot hand out stands for a read that fails without effect. */
  function ReadScript(s: System, stream: Stream, reply: Reply): seq<Action> {
    if !CanRead(s.world, stream, reply.n) then []
    else [if reply.arrives then Action.Read(stream, reply.n) else ReadLost(stream, reply.n)]
  }

  ghost function PollScript(s: System, stream: Stream, reply: Reply, fate: FullFate): seq<Action> {
    var read := ReadScript(s, stream, reply);
    read + if |BufferOf(After(s, read), stream)| >= BATCH_SIZE then FlushScript(stream, fate) else []
  }

  function TickScript(s: System, stream: Stream, fate: FullFate): seq<Action> {
    if |BufferOf(s, stream)| > 0 then FlushScript(stream, fate) else []
  }

  function ClaimScript(s: System, stream: Stream, pick: seq<nat>, fate: FullFate): seq<Action> {
    if !CanClaim(s.world, stream, pick) then []
    else
      var msgs := Parse(s.world.groups[stream].entries, pick);
      [Action.Claim(stream, pick)] + if msgs == [] then [] else InsertScript(fate, 0)
  }

  /** The start-up pass over the first n streams. */
  ghost function ReclaimScript(s: System, picks: seq<seq<nat>>, fates: seq<FullFate>, n: nat): seq<Action>
    requires n <= |picks| == |fates| == |WATCHED_STREAMS|
  {
    if n == 0 then []
    else
      var before := ReclaimScript(s, picks, fates, n - 1);
      before + ClaimScript(After(s, before), WATCHED_STREAMS[n - 1], picks[n - 1], fates[n - 1])
  }

  /** One turn of the loop, as far as the first n streams. */
  ghost function RoundScript(s: System, r: Round, n: nat): seq<Action>
    requires FitsRound(r) && n <= |WATCHED_STREAMS|
  {
    if r.Outside? then (if r.stream in s.world.groups then [Produce(r.stream, r.entry), Pass(r.ms)] else [])
    else if n == 0 then []
    else
      var before, stream := RoundScript(s, r, n - 1), WATCHED_STREAMS[n - 1];
      before + if r.TickRound? then TickScript(After(s, before), stream, r.fates[n - 1])
               else PollScript(After(s, before), stream, r.replies[n - 1], r.fates[n - 1])
  }

  ghost function RunScript(s: System, rounds: seq<Round>): seq<Action>
    requires forall r :: r in rounds ==> FitsRound(r)
  {
    if rounds == [] then []
    else
      var before := RunScript(s, rounds[..|rounds| - 1]);
      before + RoundScript(After(s, before), rounds[|rounds| - 1], |WATCHED_STREAMS|)
  }
}
