/** The writer itself: its loops, buffers and retries, each shown to be a run of the protocol.
    What the network and the disk answer is given beforehand, as the fate of each call. */
module ChWriter {
  import opened StreamGroup
  import opened WriterProtocol
  import opened WriterScripts
  import opened WriterOutcome

  class Writer {
    var world: World
    var buffers: map<Stream, seq<Message>>

    ghost function Sys(): System
      reads this
    {
      System(world, Up(buffers, Ready))
    }

    ghost predicate Valid()
      reads this
    {
      && buffers.Keys == world.groups.Keys
      && (forall st :: st in WATCHED_STREAMS ==> st in buffers)
    }

    /** Between two steps of the loop no buffer has reached the batch size. */
    ghost predicate Small()
      reads this
    {
      forall st :: st in buffers ==> |buffers[st]| < BATCH_SIZE
    }

    constructor (world: World)
      requires forall st :: st in WATCHED_STREAMS ==> st in world.groups
      ensures Valid() && Small()
      ensures Leads(System(world, Down), [Start], Sys())
    {
      this.world := world;
      buffers := map st | st in world.groups :: [];
      new;
    }

    /** flush, from the first attempt on: up to three inserts, else a dead-letter file; then acknowledge. */
    method InsertOrBury(batch: Batch, fate: FullFate, ghost start: System) returns (ghost actions: seq<Action>)
      requires Valid() && batch.stream in world.groups
      requires start == System(world, Up(buffers, Trying(batch, 0, world.clock)))
      modifies this`world
      ensures Valid() && Works(start, actions, Sys())
      ensures actions == InsertScript(fate, 0)
      ensures DealtWith(old(world), world, batch, fate, 0)
    {
      var recorded;
      ghost var since := world.clock;
      recorded, actions := TryInserts(batch, fate, start);
      hide InsertScript, Works;
      if !recorded {
        ScriptGoesOn(actions, fate, MAX_RETRIES);
        actions := WriteDeadLetter(batch, fate.deadLetterWritten, start, actions, since);
      }
      actions := Acknowledge(batch, fate.ackApplied, start, actions);
      hide DealtWith;
      ScriptDeals(start, Sys(), actions, fate);
    }

    /** The counted loop: up to three attempts, the first success ends it. */
    method TryInserts(batch: Batch, fate: FullFate, ghost start: System)
      returns (recorded: bool, ghost actions: seq<Action>)
      requires Valid() && batch.stream in world.groups
      requires start == System(world, Up(buffers, Trying(batch, 0, world.clock)))
      modifies this`world
      ensures Valid() && batch.stream in world.groups
      ensures recorded ==>
        && Works(start, actions, System(world, Up(buffers, Recorded(batch))))
        && actions + [Ack(fate.ackApplied)] == InsertScript(fate, 0)
      ensures !recorded ==>
        && Works(start, actions, System(world, Up(buffers, Trying(batch, MAX_RETRIES, old(world.clock)))))
        && actions + InsertScript(fate, MAX_RETRIES) == InsertScript(fate, 0)
    {
      ghost var since := world.clock;
      WorksNowhere(start);
      actions := [];
      hide InsertScript, Works;
      for attempt := 0 to MAX_RETRIES
        invariant Valid() && batch.stream in world.groups
        invariant Works(start, actions, System(world, Up(buffers, Trying(batch, attempt, since))))
        invariant actions + InsertScript(fate, attempt) == InsertScript(fate, 0)
      {
        ScriptGoesOn(actions, fate, attempt);
        match fate.attempts[attempt] {
          case Failure(landed, overrun) =>
            actions := FailedAttempt(batch, attempt, landed, overrun, start, actions, since);
          case Success =>
            actions := Insert(batch, attempt, start, actions, since);
            return true, actions;
        }
      }
      recorded := false;
    }

    method Insert(batch: Batch, attempt: nat, ghost start: System, ghost before: seq<Action>, ghost since: nat)
      returns (ghost actions: seq<Action>)
      requires Valid() && batch.stream in world.groups && attempt < MAX_RETRIES
      requires Works(start, before, System(world, Up(buffers, Trying(batch, attempt, since))))
      modifies this`world
      ensures Valid() && batch.stream in world.groups
      ensures Works(start, actions, System(world, Up(buffers, Recorded(batch)))) && actions == before + [InsertSucceeds]
    {
      WorksStep(start, before, System(world, Up(buffers, Trying(batch, attempt, since))), InsertSucceeds);
      world := world.(inserted := world.inserted + [batch]);
      return before + [InsertSucceeds];
    }

    method FailedAttempt(batch: Batch, attempt: nat, landed: bool, overrun: nat,
                         ghost start: System, ghost before: seq<Action>, ghost since: nat)
      returns (ghost actions: seq<Action>)
      requires Valid() && batch.stream in world.groups && attempt < MAX_RETRIES
      requires Works(start, before, System(world, Up(buffers, Trying(batch, attempt, since))))
      modifies this`world
      ensures Valid() && batch.stream in world.groups
      ensures Works(start, actions, System(world, Up(buffers, Trying(batch, attempt + 1, since))))
      ensures actions == before + [InsertFails(landed, Backoff(attempt) + overrun)]
    {
      ghost var now, a := System(world, Up(buffers, Trying(batch, attempt, since))),
        InsertFails(landed, Backoff(attempt) + overrun);
      WorksStep(start, before, now, a);
      if landed {
        world := world.(inserted := world.inserted + [batch]);
      }
      world := world.(clock := world.clock + (attempt + 1) * 1000 + overrun);
      assert System(world, Up(buffers, Trying(batch, attempt + 1, since))) == Apply(now, a);
      return before + [a];
    }

    method WriteDeadLetter(
      batch: Batch, written: bool, ghost start: System, ghost before: seq<Action>, ghost since: nat)
      returns (ghost actions: seq<Action>)
      requires Valid() && batch.stream in world.groups
      requires Works(start, before, System(world, Up(buffers, Trying(batch, MAX_RETRIES, since))))
      modifies this`world
      ensures Valid() && batch.stream in world.groups
      ensures Works(start, actions, System(world, Up(buffers, Recorded(batch))))
      ensures actions == before + [DeadLetter(written)]
    {
      WorksStep(start, before, System(world, Up(buffers, Trying(batch, MAX_RETRIES, since))), DeadLetter(written));
      if written {
        world := world.(dead := world.dead[FileName(batch.stream, world.clock / 1000) := batch.msgs]);
      } else {
        world := world.(dropped := world.dropped + [batch]);
      }
      return before + [DeadLetter(written)];
    }

    method Acknowledge(batch: Batch, applied: bool, ghost start: System, ghost before: seq<Action>)
      returns (ghost actions: seq<Action>)
      requires Valid() && batch.stream in world.groups
      requires Works(start, before, System(world, Up(buffers, Recorded(batch))))
      modifies this`world
      ensures Valid() && Works(start, actions, Sys()) && actions == before + [Ack(applied)]
    {
      WorksStep(start, before, System(world, Up(buffers, Recorded(batch))), Ack(applied));
      if applied {
        var g := world.groups[batch.stream];
        world := world.(groups := world.groups[batch.stream := g.(pending := g.pending - IdSet(batch.msgs))]);
      }
      return before + [Ack(applied)];
    }

    /** One read; an error leaves the buffer as it is, even if the server has handed entries out. */
    method ReadStream(stream: Stream, reply: Reply) returns (ghost actions: seq<Action>)
      requires Valid() && stream in buffers
      modifies this
      ensures Valid() && Works(old(Sys()), actions, Sys())
      ensures buffers.Keys == old(buffers).Keys
      ensures forall st :: st in buffers && st != stream ==> buffers[st] == old(buffers)[st]
      ensures |buffers[stream]| <= |old(buffers)[stream]| + BATCH_SIZE
      ensures CanRead(old(world), stream, reply.n) ==>
        && buffers[stream] == old(buffers)[stream] +
             (if reply.arrives then NextMessages(old(world).groups[stream], reply.n) else [])
        && world == old(world).(groups :=
             old(world).groups[stream := Deliver(old(world).groups[stream], reply.n)])
      ensures !CanRead(old(world), stream, reply.n) ==> buffers == old(buffers) && world == old(world)
      ensures actions == ReadScript(old(Sys()), stream, reply)
    {
      if !CanRead(world, stream, reply.n) {
        WorksNowhere(Sys());
        return [];
      }
      var g := world.groups[stream];
      var ids := Ids(g.delivered, g.delivered + reply.n);
      ghost var a := if reply.arrives then Action.Read(stream, reply.n) else ReadLost(stream, reply.n);
      WorksOne(Sys(), a);
      world := world.(groups := world.groups[stream := Deliver(g, reply.n)]);
      if reply.arrives {
        var msgs := ParseReply(g.entries, ids);
        buffers := buffers[stream := buffers[stream] + msgs];
      }
      return [a];
    }

    method FlushStream(stream: Stream, fate: FullFate) returns (ghost actions: seq<Action>)
      requires Valid() && stream in buffers && 1 <= |buffers[stream]| < 2 * BATCH_SIZE
      modifies this
      ensures Valid() && Works(old(Sys()), actions, Sys())
      ensures buffers == old(buffers)[stream := []]
      ensures DealtWith(old(world), world, Batch(stream, old(buffers)[stream]), fate, 0)
      ensures actions == FlushScript(stream, fate)
    {
      ghost var before, flush := Sys(), Action.Flush(stream);
      var batch := Batch(stream, buffers[stream]);
      WorksOne(before, flush);
      buffers := buffers[stream := []];
      ghost var started := System(world, Up(buffers, Trying(batch, 0, world.clock)));
      ghost var tail := InsertOrBury(batch, fate, started);
      WorksOn(before, [flush], started, tail, Sys());
      return [flush] + tail;
    }

    /** The default branch of the loop, for one stream. */
    method PollStream(stream: Stream, reply: Reply, fate: FullFate) returns (ghost actions: seq<Action>)
      requires Valid() && Small() && stream in buffers
      modifies this
      ensures Valid() && Small() && Works(old(Sys()), actions, Sys())
      ensures buffers.Keys == old(buffers).Keys
      ensures forall st :: st in buffers && st != stream ==> buffers[st] == old(buffers)[st]
      ensures Polled(old(world), old(buffers)[stream], world, buffers[stream], stream, reply, fate)
      ensures actions == PollScript(old(Sys()), stream, reply, fate)
    {
      hide DealtWith, Works, FlushScript, Deliver, NextMessages;
      ghost var start := Sys();
      actions := ReadStream(stream, reply);
      AfterWorks(start, actions, Sys());
      hide ReadScript;
      if |buffers[stream]| >= BATCH_SIZE {
        ghost var middle := Sys();
        ghost var more := FlushStream(stream, fate);
        WorksOn(start, actions, middle, more, Sys());
        actions := actions + more;
      }
    }

    /** The ticker branch of the loop, for one stream. */
    method TickStream(stream: Stream, fate: FullFate) returns (ghost actions: seq<Action>)
      requires Valid() && Small() && stream in buffers
      modifies this
      ensures Valid() && Small() && Works(old(Sys()), actions, Sys())
      ensures buffers == old(buffers)[stream := []]
      ensures if old(buffers)[stream] == [] then world == old(world)
              else DealtWith(old(world), world, Batch(stream, old(buffers)[stream]), fate, 0)
      ensures actions == TickScript(old(Sys()), stream, fate)
    {
      if |buffers[stream]| > 0 {
        actions := FlushStream(stream, fate);
      } else {
        WorksNowhere(Sys());
        actions := [];
      }
    }

    /** The start-up pass over what an earlier process left pending. */
    method ReclaimPending(picks: seq<seq<nat>>, fates: seq<FullFate>) returns (ghost actions: seq<Action>)
      requires Valid() && |picks| == |fates| == |WATCHED_STREAMS|
      modifies this`world
      ensures Valid() && Works(old(Sys()), actions, Sys())
      ensures actions == ReclaimScript(old(Sys()), picks, fates, |WATCHED_STREAMS|)
    {
      ghost var start := Sys();
      WorksNowhere(start);
      actions := [];
      for i := 0 to |WATCHED_STREAMS|
        invariant Valid() && Works(start, actions, Sys())
        invariant actions == ReclaimScript(start, picks, fates, i)
      {
        ghost var before := Sys();
        ghost var more := ReclaimStream(WATCHED_STREAMS[i], picks[i], fates[i]);
        WorksOn(start, actions, before, more, Sys());
        actions := actions + more;
      }
    }

    method ReclaimStream(stream: Stream, pick: seq<nat>, fate: FullFate) returns (ghost actions: seq<Action>)
      requires Valid() && stream in buffers
      modifies this`world
      ensures Valid() && Works(old(Sys()), actions, Sys())
      ensures CanClaim(old(world), stream, pick) && Parse(old(world).groups[stream].entries, pick) != [] ==>
        DealtWith(old(world), world, Batch(stream, Parse(old(world).groups[stream].entries, pick)), fate, 0)
      ensures !CanClaim(old(world), stream, pick) || Parse(old(world).groups[stream].entries, pick) == [] ==>
        world == old(world)
      ensures actions == ClaimScript(old(Sys()), stream, pick, fate)
    {
      ghost var before := Sys();
      if !CanClaim(world, stream, pick) {
        WorksNowhere(before);
        return [];
      }
      var msgs := ParseReply(world.groups[stream].entries, pick);
      ghost var claim := Action.Claim(stream, pick);
      WorksOne(before, claim);
      if |msgs| == 0 {
        return [claim];
      }
      var batch := Batch(stream, msgs);
      ghost var started := System(world, Up(buffers, Trying(batch, 0, world.clock)));
      ghost var tail := InsertOrBury(batch, fate, started);
      WorksOn(before, [claim], started, tail, Sys());
      return [claim] + tail;
    }

    /** One turn of the endless loop, or something the producers and the clock do meanwhile. */
    method DoRound(r: Round) returns (ghost actions: seq<Action>)
      requires Valid() && Small() && FitsRound(r)
      modifies this
      ensures Valid() && Small() && Works(old(Sys()), actions, Sys())
      ensures actions == RoundScript(old(Sys()), r, |WATCHED_STREAMS|)
    {
      hide DealtWith, Polled, Works, PollScript, TickScript;
      ghost var start := Sys();
      WorksNowhere(start);
      actions := [];
      match r {
        case TickRound(fates) =>
          for i := 0 to |WATCHED_STREAMS|
            invariant Valid() && Small() && Works(start, actions, Sys())
            invariant actions == RoundScript(start, r, i)
          {
            ghost var before := Sys();
            AfterWorks(start, actions, before);
            ghost var more := TickStream(WATCHED_STREAMS[i], fates[i]);
            WorksOn(start, actions, before, more, Sys());
            actions := actions + more;
          }
        case PollRound(replies, fates) =>
          for i := 0 to |WATCHED_STREAMS|
            invariant Valid() && Small() && Works(start, actions, Sys())
            invariant actions == RoundScript(start, r, i)
          {
            ghost var before := Sys();
            AfterWorks(start, actions, before);
            ghost var more := PollStream(WATCHED_STREAMS[i], replies[i], fates[i]);
            WorksOn(start, actions, before, more, Sys());
            actions := actions + more;
          }
        case Outside(stream, entry, ms) =>
          if stream in world.groups {
            actions := Meanwhile(stream, entry, ms);
          }
      }
    }

    method Meanwhile(stream: Stream, entry: Entry, ms: nat) returns (ghost actions: seq<Action>)
      requires Valid() && stream in world.groups
      modifies this`world
      ensures Valid() && Works(old(Sys()), actions, Sys())
      ensures actions == [Produce(stream, entry), Pass(ms)]
    {
      ghost var start, produce := Sys(), Produce(stream, entry);
      WorksOne(start, produce);
      world := world.(groups := world.groups[stream := Append(world.groups[stream], entry)]);
      ghost var middle := Sys();
      WorksOne(middle, Pass(ms));
      world := world.(clock := world.clock + ms);
      WorksOn(start, [produce], middle, [Pass(ms)], Sys());
      return [produce] + [Pass(ms)];
    }

    /** Run: any number of rounds of one process life. It is a run of the protocol in which, stream by
        stream, the flushed batches followed by the buffer are exactly what was read. */
    method Run(rounds: seq<Round>) returns (ghost actions: seq<Action>)
      requires Valid() && Small() && forall r :: r in rounds ==> FitsRound(r)
      modifies this
      ensures Valid() && Small() && Works(old(Sys()), actions, Sys())
      ensures forall st :: st in buffers && st in old(buffers) ==>
        old(buffers)[st] + MessagesRead(old(Sys()), actions, st) ==
        MessagesFlushed(old(Sys()), actions, st) + buffers[st]
      ensures forall i :: 0 <= i < |WATCHED_STREAMS| ==>
        var st := WATCHED_STREAMS[i];
        st in world.groups && st in old(world).groups &&
        Cursor(world.groups[st].entries, world.groups[st].delivered, MessagesRead(old(Sys()), actions, st)) ==
        FollowedAll(Cursor(old(world).groups[st].entries, old(world).groups[st].delivered, []), rounds, i)
      ensures actions == RunScript(old(Sys()), rounds)
    {
      ghost var start := Sys();
      WorksNowhere(start);
      actions := [];
      for i := 0 to |rounds|
        invariant Valid() && Small() && Works(start, actions, Sys())
        invariant actions == RunScript(start, rounds[..i])
      {
        ghost var before := Sys();
        assert rounds[..i + 1][..i] == rounds[..i];
        ghost var more := DoRound(rounds[i]);
        WorksOn(start, actions, before, more, Sys());
        actions := actions + more;
      }
      assert rounds[..|rounds|] == rounds;
      forall st | st in buffers && st in old(buffers)
        ensures old(buffers)[st] + MessagesRead(start, actions, st) == MessagesFlushed(start, actions, st) + buffers[st]
      {
        BatchesPartition(start, actions, st);
      }
      WatchedAreFollowed(start, rounds, actions, Sys());
    }
  }
}
