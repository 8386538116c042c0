/** The hub object itself. What its methods do to a client are the transitions of the protocol. */
module Pusher {
  import Wrappers
  import opened HubProtocol

  /** What wakes a write pump: its channel, or the ping ticker; and whether the socket still works. */
  datatype PumpEvent = Ready(written: bool) | Tick(pinged: bool)

  /** What one event does: an empty open channel lets the pump wait, an empty closed one ends it. */
  function Pumped(client: Client, e: PumpEvent): Client {
    if !client.pump.Pumping? then client
    else match e
      case Ready(written) =>
        if client.channel.queue != [] then client.Took(written)
        else if client.channel.closed then client.(pump := Finished)
        else client
      case Tick(pinged) => if pinged then client else client.(pump := Broken)
  }

  function PumpedAll(client: Client, events: seq<PumpEvent>): Client
    decreases |events|
  {
    if events == [] then client else PumpedAll(Pumped(client, events[0]), events[1..])
  }

  lemma {:induction false} PumpedNoMore(client: Client, events: seq<PumpEvent>)
    requires !client.pump.Pumping?
    ensures PumpedAll(client, events) == client
    decreases |events|
  {
    if events != [] {
      PumpedNoMore(client, events[1..]);
    }
  }

  predicate Works(e: PumpEvent) { if e.Ready? then e.written else e.pinged }

  /** While the socket works the pump writes the queue out in order and loses nothing; it ends only
      when the channel is closed, with nothing left in it. */
  lemma {:induction false} PumpDrains(client: Client, events: seq<PumpEvent>)
    requires client.pump.Pumping? && forall e :: e in events ==> Works(e)
    ensures var c := PumpedAll(client, events);
      && c.received + c.channel.queue == client.received + client.channel.queue
      && c.lost == client.lost
      && (c.pump.Finished? ==> c.channel == Channel([], true))
      && (client.channel.closed && |events| > |client.channel.queue| && (forall e :: e in events ==> e.Ready?) ==>
            c.pump.Finished?)
    decreases |events|
  {
    if events != [] {
      var e, next := events[0], Pumped(client, events[0]);
      assert e in events && forall x :: x in events[1..] ==> x in events;
      if client.channel.queue != [] {
        assert client.channel.queue == [client.channel.queue[0]] + client.channel.queue[1..];
      }
      if next.pump.Pumping? {
        PumpDrains(next, events[1..]);
      } else {
        PumpedNoMore(next, events[1..]);
      }
    }
  }

  lemma {:induction false} PumpedOn(client: Client, x: seq<PumpEvent>, y: seq<PumpEvent>)
    ensures PumpedAll(client, x + y) == PumpedAll(PumpedAll(client, x), y)
    decreases |x|
  {
    if x == [] {
      assert x + y == y;
    } else {
      assert (x + y)[0] == x[0] && (x + y)[1..] == x[1..] + y;
      PumpedOn(Pumped(client, x[0]), x[1..], y);
    }
  }

  /** A pump that has been going stops for good at a failed ping, with nothing more taken from the channel, and
      at a failed write, with one message lost. */
  lemma PumpStops(client: Client, before: seq<PumpEvent>, after: seq<PumpEvent>)
    requires PumpedAll(client, before).pump == Pumping
    ensures PumpedAll(client, before + [Tick(false)] + after) == PumpedAll(client, before).(pump := Broken)
    ensures var c := PumpedAll(client, before); var d := PumpedAll(client, before + [Ready(false)] + after);
      c.channel.queue != [] ==> d == c.(pump := Broken, lost := c.lost + [c.channel.queue[0]],
                                         channel := c.channel.(queue := c.channel.queue[1..]))
  {
    StopsAt(client, before, Tick(false), after);
    if PumpedAll(client, before).channel.queue != [] {
      StopsAt(client, before, Ready(false), after);
    }
  }

  lemma StopsAt(client: Client, before: seq<PumpEvent>, e: PumpEvent, after: seq<PumpEvent>)
    requires !Pumped(PumpedAll(client, before), e).pump.Pumping?
    ensures PumpedAll(client, before + [e] + after) == Pumped(PumpedAll(client, before), e)
  {
    var c := PumpedAll(client, before);
    PumpedOn(client, before + [e], after);
    PumpedOn(client, before, [e]);
    assert [e][1..] == [];
    assert PumpedAll(c, [e]) == PumpedAll(Pumped(c, e), []);
    PumpedNoMore(Pumped(c, e), after);
  }

  /** The step of the protocol that an event makes the pump take, if any. */
  function PumpSteps(client: Client, c: nat, e: PumpEvent): seq<Step> {
    if !client.pump.Pumping? then []
    else match e
      case Ready(written) =>
        if client.channel.queue != [] then [Take(c, written)] else if client.channel.closed then [Finish(c)] else []
      case Tick(pinged) => if pinged then [] else [PingFails(c)]
  }

  /** Whatever happens to a pump is a sequence of steps of the protocol, in any state of the hub. */
  lemma {:induction false} PumpLeads(h: HubProtocol.Hub, c: nat, events: seq<PumpEvent>) returns (steps: seq<Step>)
    requires c in h.clients
    ensures Leads(h, steps, h.(clients := h.clients[c := PumpedAll(h.clients[c], events)]))
    decreases |events|
  {
    if events == [] {
      assert h.clients[c := h.clients[c]] == h.clients;
      return [];
    }
    var next := h.(clients := h.clients[c := Pumped(h.clients[c], events[0])]);
    var first := PumpSteps(h.clients[c], c, events[0]);
    assert if first == [] then next == h else Enabled(h, first[0]) && next == Apply(h, first[0]) by {
      assert h.clients[c := h.clients[c]] == h.clients;
    }
    assert |first| <= 1;
    hide Apply, Enabled, Pumped, PumpSteps;
    var rest := PumpLeads(next, c, events[1..]);
    steps := first + rest;
    var last := PumpedAll(h.clients[c], events);
    assert last == PumpedAll(next.clients[c], events[1..]);
    assert next.clients[c := last] == h.clients[c := last];
    assert next.(clients := next.clients[c := last]) == h.(clients := h.clients[c := last]);
    if first == [] {
      assert steps == rest;
    } else {
      assert steps[0] == first[0] && steps[1..] == rest;
    }
  }

  class WsClient {
    const agentID: string
    var channel: Channel
    var received: seq<Message>
    var pump: Pump
    ghost var lost: seq<Message>
    ghost var offers: seq<Offer>

    ghost function View(): Client
      reads this
    {
      Client(agentID, channel, pump, received, lost, offers)
    }

    constructor (agentID: string)
      ensures View() == Client(agentID, Channel([], false), Pumping, [], [], [])
    {
      this.agentID := agentID;
      channel, received, pump, lost, offers := Channel([], false), [], Pumping, [], [];
    }

    /** A send that does not wait; on a closed channel it would panic. */
    method TrySend(m: Message)
      requires !channel.closed
      modifies this
      ensures View() == old(View()).Sent(m)
    {
      offers := offers + [Offer(m, |channel.queue|)];
      if |channel.queue| < CAPACITY {
        channel := channel.(queue := channel.queue + [m]);
      }
    }

    /** Closing, which panics the second time. */
    method Close()
      requires !channel.closed
      modifies this
      ensures View() == old(View()).Shut()
    {
      channel := channel.(closed := true);
    }

    /** The write pump, given what happens to it. */
    method WritePump(events: seq<PumpEvent>)
      requires pump.Pumping?
      modifies this
      ensures View() == PumpedAll(old(View()), events)
    {
      ghost var start := View();
      for i := 0 to |events|
        invariant pump.Pumping? && PumpedAll(start, events) == PumpedAll(View(), events[i..])
      {
        hide PumpedAll;
        ghost var before := View();
        match events[i]
        case Ready(written) =>
          if channel.queue != [] {
            var m := channel.queue[0];
            channel := channel.(queue := channel.queue[1..]);
            if !written {
              lost, pump := lost + [m], Broken;
              PumpedNoMore(View(), events[i + 1..]);
              return;
            }
            received := received + [m];
          } else if channel.closed {
            pump := Finished;
            PumpedNoMore(View(), events[i + 1..]);
            return;
          }
        case Tick(pinged) =>
          if !pinged {
            pump := Broken;
            PumpedNoMore(View(), events[i + 1..]);
            return;
          }
      }
    }
  }

  lemma RegisterStep(h: HubProtocol.Hub, i: nat, agent: string)
    requires h.sending.None? && i !in h.clients
    ensures var client := Client(agent, Channel([], false), Pumping, [], [], []);
      && Enabled(h, Step.Register(i, agent))
      && Apply(h, Step.Register(i, agent)) ==
           h.(registered := h.registered + {i}, clients := h.clients[i := client])
  {}

  lemma UnregisterStep(h: HubProtocol.Hub, i: nat, k: HubProtocol.Hub)
    requires h.sending.None? && i in h.clients
    requires i !in h.registered ==> k == h
    requires i in h.registered ==> !h.clients[i].channel.closed
    requires i in h.registered ==>
      k == h.(registered := h.registered - {i}, clients := h.clients[i := h.clients[i].Shut()])
    ensures Enabled(h, Step.Unregister(i)) && k == Apply(h, Step.Unregister(i))
  {}

  class Hub {
    var clients: set<WsClient>
    /** Every client that has ever registered; its place is its number in the protocol. */
    ghost var known: seq<WsClient>

    /** Numbers are unique, and the registered channels are the open ones. */
    ghost predicate Valid()
      reads this, known
    {
      && (forall i, j :: 0 <= i < j < |known| ==> known[i] != known[j])
      && (forall c :: c in clients ==> c in known)
      && forall c :: c in known ==> (c in clients <==> !c.channel.closed)
    }

    ghost function Numbers(some: set<WsClient>): set<nat>
      reads this
    {
      set i: nat | i < |known| && known[i] in some
    }

    ghost function Views(): map<nat, Client>
      reads this, known
    {
      map i: nat | i < |known| :: known[i].View()
    }

    /** The hub as the protocol sees it. */
    ghost function View(): HubProtocol.Hub
      reads this, known
    {
      HubProtocol.Hub(Numbers(clients), Views(), Wrappers.None, false)
    }

    constructor ()
      ensures Valid() && clients == {} && known == [] && View() == EMPTY
    {
      clients, known := {}, [];
    }

    method Register(agentID: string) returns (c: WsClient)
      requires Valid()
      modifies this
      ensures Valid() && fresh(c) && clients == old(clients) + {c} && known == old(known) + [c]
      ensures c.View() == Client(agentID, Channel([], false), Pumping, [], [], [])
      ensures Enabled(old(View()), Step.Register(|old(known)|, agentID))
      ensures View() == Apply(old(View()), Step.Register(|old(known)|, agentID))
    {
      c := new WsClient(agentID);
      ghost var n, before := |known|, View();
      hide Apply, Enabled;
      clients, known := clients + {c}, known + [c];
      assert c.View().channel == c.channel;
      assert Valid();
      hide Valid;
      assert Views() == before.clients[n := c.View()] && Numbers(clients) == before.registered + {n};
      RegisterStep(before, n, agentID);
    }

    /** Once or many times: the channel is closed the first time only, what is queued stays. */
    method Unregister(c: WsClient)
      requires Valid() && c in known
      modifies this, c
      ensures Valid() && clients == old(clients) - {c} && known == old(known)
      ensures c.View() == old(if c in clients then c.View().Shut() else c.View())
      ensures old(c in clients) ==> c.channel == Channel(old(c.channel.queue), true)
      ensures forall i :: 0 <= i < |known| && known[i] == c ==>
        Enabled(old(View()), Step.Unregister(i)) && View() == Apply(old(View()), Step.Unregister(i))
    {
      ghost var before, i := View(), NumberOf(c);
      hide Apply, Enabled;
      if c in clients {
        clients := clients - {c};
        c.Close();
        assert c.View().channel == c.channel;
        assert Valid();
        hide Valid;
        assert Views() == before.clients[i := before.clients[i].Shut()];
        assert Numbers(clients) == before.registered - {i};
      }
      UnregisterStep(before, i, View());
    }

    ghost function NumberOf(c: WsClient): (i: nat)
      requires Valid() && c in known
      reads this, known
      ensures i < |known| && known[i] == c && forall j :: 0 <= j < |known| && known[j] == c ==> j == i
    {
      var i :| 0 <= i < |known| && known[i] == c;
      i
    }

    /** Each client that wants the message is offered it once, whatever the order of the map; in the protocol
        this is the broadcast's beginning, one sending for each registered client, and its end. */
    method Broadcast(m: Message) returns (ghost sends: seq<Step>)
      requires Valid()
      modifies clients
      ensures Valid() && clients == old(clients) && known == old(known)
      ensures forall c :: c in clients ==>
        c.View() == if Wants(c.agentID, m) then old(c.View()).Sent(m) else old(c.View())
      ensures (forall s :: s in sends ==> s.Send?) && Leads(old(View()), [Begin(m)] + sends + [End], View())
    {
      OpenInView();
      sends := BroadcastLeads(View(), m);
      SendAll(m);
      hide Leads, Valid;
      assert View().clients == SentTo(old(View()).clients, m, View().registered);
    }

    lemma OpenInView()
      requires Valid()
      ensures View().registered <= View().clients.Keys
      ensures forall i :: i in View().registered ==> !View().clients[i].channel.closed
    {}

    /** The loop over the map of clients. */
    method SendAll(m: Message)
      requires Valid()
      modifies clients
      ensures Valid() && clients == old(clients) && known == old(known)
      ensures forall c :: c in clients ==>
        c.View() == if Wants(c.agentID, m) then old(c.View()).Sent(m) else old(c.View())
    {
      var left := clients;
      while left != {}
        invariant left <= clients
        invariant forall c :: c in clients ==> !old(c.channel.closed)
        invariant forall c :: c in left ==> c.View() == old(c.View())
        invariant forall c :: c in clients - left ==>
          c.View() == if Wants(c.agentID, m) then old(c.View()).Sent(m) else old(c.View())
        decreases left
      {
        var c :| c in left;
        left := left - {c};
        if c.agentID != "" && c.agentID != m.agent {
          continue;
        }
        assert c.View().channel == c.channel;
        c.TrySend(m);
      }
      assert forall c :: c in clients ==> c.channel == c.View().channel;
    }
  }
}
