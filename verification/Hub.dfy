/** The WebSocket hubs: registration, broadcasting and the clients' write pumps, in every interleaving
    that their lock and channels allow. The observer's hub is the one whose clients name no agent. */
module HubProtocol {
  import opened Wrappers

  const CAPACITY := 256

  datatype Message = Message(agent: string, data: string)

  // Channels -----------------------------------------------------------------------------------

  datatype Channel = Channel(queue: seq<Message>, closed: bool) {
    /** A send that does not wait: a full channel lets the message go. */
    function Offer(m: Message): Channel
      requires !closed
    {
      if |queue| < CAPACITY then this.(queue := queue + [m]) else this
    }
  }

  predicate Wants(agent: string, m: Message) { agent == "" || agent == m.agent }

  // The machine --------------------------------------------------------------------------------

  /** A message offered to a client, and how many were queued then. */
  datatype Offer = Offer(message: Message, queued: nat)

  datatype Pump = Pumping | Finished | Broken

  /** `lost` is the message whose write failed; `offers` is the history of what was sent. */
  datatype Client = Client(
    agent: string,
    channel: Channel,
    pump: Pump,
    received: seq<Message>,
    lost: seq<Message>,
    offers: seq<Offer>)
  {
    function Sent(m: Message): Client
      requires !channel.closed
    {
      this.(channel := channel.Offer(m), offers := offers + [Offer(m, |channel.queue|)])
    }

    function Shut(): Client
      requires !channel.closed
    {
      this.(channel := channel.(closed := true))
    }

    /** The pump takes one message and writes it to the socket, in vain if `written` is false. */
    function Took(written: bool): Client
      requires channel.queue != []
    {
      var m, rest := channel.queue[0], channel.(queue := channel.queue[1..]);
      if written then this.(channel := rest, received := received + [m])
      else this.(channel := rest, lost := lost + [m], pump := Broken)
    }
  }

  datatype Broadcast = Broadcast(message: Message, left: set<nat>)

  /** The hub panics on a send to a closed channel and on a second close. */
  datatype Hub = Hub(registered: set<nat>, clients: map<nat, Client>, sending: Option<Broadcast>, panicked: bool)

  const EMPTY := Hub({}, map[], None, false)

  /** A broadcast reads the clients under the lock, so registrations wait for its end; pumps do not. */
  datatype Step =
    | Register(c: nat, agent: string)
    | Unregister(c: nat)
    | Begin(message: Message)
    | Send(c: nat)
    | End
    | Take(c: nat, written: bool)
    | Finish(c: nat)
    | PingFails(c: nat)

  predicate Enabled(h: Hub, s: Step) {
    match s
    case Register(c, _) => h.sending.None? && c !in h.clients
    case Unregister(c) => h.sending.None? && c in h.clients
    case Begin(_) => h.sending.None?
    case Send(c) => h.sending.Some? && c in h.sending.value.left && c in h.clients
    case End => h.sending.Some? && h.sending.value.left == {}
    case Take(c, _) => c in h.clients && h.clients[c].pump.Pumping? && h.clients[c].channel.queue != []
    case Finish(c) =>
      c in h.clients && h.clients[c].pump.Pumping? && h.clients[c].channel == Channel([], true)
    case PingFails(c) => c in h.clients && h.clients[c].pump.Pumping?
  }

  function Apply(h: Hub, s: Step): Hub
    requires Enabled(h, s)
  {
    match s
    case Register(c, agent) =>
      h.(registered := h.registered + {c},
         clients := h.clients[c := Client(agent, Channel([], false), Pumping, [], [], [])])
    case Unregister(c) =>
      if c !in h.registered then h
      else if h.clients[c].channel.closed then h.(panicked := true)
      else h.(registered := h.registered - {c},
              clients := h.clients[c := h.clients[c].Shut()])
    case Begin(m) => h.(sending := Some(Broadcast(m, h.registered)))
    case Send(c) =>
      var m, client := h.sending.value.message, h.clients[c];
      var next := h.(sending := Some(Broadcast(m, h.sending.value.left - {c})));
      if !Wants(client.agent, m) then next
      else if client.channel.closed then next.(panicked := true)
      else next.(clients := h.clients[c := client.Sent(m)])
    case End => h.(sending := None)
    case Take(c, written) => h.(clients := h.clients[c := h.clients[c].Took(written)])
    case Finish(c) => h.(clients := h.clients[c := h.clients[c].(pump := Finished)])
    case PingFails(c) => h.(clients := h.clients[c := h.clients[c].(pump := Broken)])
  }

  ghost predicate IsRun(run: seq<Step>) {
    run == [] || (IsRun(run[..|run| - 1]) && Enabled(After(run[..|run| - 1]), run[|run| - 1]))
  }

  /** The hub after a run. */
  function After(run: seq<Step>): Hub
    decreases |run|, 0
  {
    if run == [] then EMPTY
    else
      var before, s := After(run[..|run| - 1]), run[|run| - 1];
      if Enabled(before, s) then Apply(before, s) else before
  }

  /** The steps can be taken one after the other from h, and lead to k. */
  ghost predicate Leads(h: Hub, steps: seq<Step>, k: Hub)
    decreases |steps|
  {
    if steps == [] then k == h else Enabled(h, steps[0]) && Leads(Apply(h, steps[0]), steps[1..], k)
  }

  /** Steps that follow a run are part of a longer one. */
  lemma {:induction false} RunGoesOn(run: seq<Step>, steps: seq<Step>, h: Hub)
    requires IsRun(run) && Leads(After(run), steps, h)
    ensures IsRun(run + steps) && After(run + steps) == h
    decreases |steps|
  {
    if steps == [] {
      assert run + steps == run;
    } else {
      hide IsRun, After, Apply, Enabled;
      OneMoreStep(run, steps[0]);
      RunGoesOn(run + [steps[0]], steps[1..], h);
      assert run + [steps[0]] + steps[1..] == run + steps;
    }
  }

  lemma OneMoreStep(run: seq<Step>, s: Step)
    requires IsRun(run) && Enabled(After(run), s)
    ensures IsRun(run + [s]) && After(run + [s]) == Apply(After(run), s)
  {
    hide Apply, Enabled;
    assert (run + [s])[..|run|] == run;
  }

  lemma {:induction false} LeadsOneMore(h: Hub, steps: seq<Step>, before: Hub, s: Step)
    requires Leads(h, steps, before) && Enabled(before, s)
    ensures Leads(h, steps + [s], Apply(before, s))
    decreases |steps|
  {
    hide Enabled, Apply;
    if steps == [] {
      assert (steps + [s])[0] == s && (steps + [s])[1..] == [];
    } else {
      LeadsOneMore(Apply(h, steps[0]), steps[1..], before, s);
      assert (steps + [s])[0] == steps[0] && (steps + [s])[1..] == steps[1..] + [s];
    }
  }

  /** The clients after a message has been sent to some of them. */
  function SentTo(clients: map<nat, Client>, m: Message, some: set<nat>): map<nat, Client>
    requires forall c :: c in some && c in clients ==> !clients[c].channel.closed
  {
    map c | c in clients :: if c in some && Wants(clients[c].agent, m) then clients[c].Sent(m) else clients[c]
  }

  lemma {:induction false} SendsLead(h: Hub, m: Message, left: set<nat>) returns (steps: seq<Step>)
    requires h.sending == Some(Broadcast(m, left)) && left <= h.clients.Keys
    requires forall c :: c in left ==> !h.clients[c].channel.closed
    ensures forall s :: s in steps ==> s.Send?
    ensures Leads(h, steps, h.(clients := SentTo(h.clients, m, left), sending := Some(Broadcast(m, {}))))
    decreases left
  {
    if left == {} {
      steps := [];
      assert SentTo(h.clients, m, left) == h.clients;
    } else {
      var c :| c in left;
      var next := Apply(h, Send(c));
      assert SentTo(next.clients, m, left - {c}) == SentTo(h.clients, m, left);
      var rest := SendsLead(next, m, left - {c});
      steps := [Send(c)] + rest;
      assert steps[1..] == rest;
    }
  }

  /** A whole broadcast, from its beginning to its end. */
  lemma BroadcastLeads(h: Hub, m: Message) returns (sends: seq<Step>)
    requires h.sending.None? && h.registered <= h.clients.Keys
    requires forall c :: c in h.registered ==> !h.clients[c].channel.closed
    ensures forall s :: s in sends ==> s.Send?
    ensures Leads(h, [Begin(m)] + sends + [End], h.(clients := SentTo(h.clients, m, h.registered)))
  {
    var begun := Apply(h, Begin(m));
    sends := SendsLead(begun, m, h.registered);
    hide SentTo;
    var sent := begun.(clients := SentTo(h.clients, m, h.registered), sending := Some(Broadcast(m, {})));
    LeadsOneMore(begun, sends, sent, End);
    assert ([Begin(m)] + sends + [End])[1..] == sends + [End];
  }

  // What a run owes a client, read off its steps alone ---------------------------------------------

  function AgentOf(run: seq<Step>, c: nat): Option<string> {
    if run == [] then None
    else if run[|run| - 1].Register? && run[|run| - 1].c == c then Some(run[|run| - 1].agent)
    else AgentOf(run[..|run| - 1], c)
  }

  predicate IsMember(run: seq<Step>, c: nat) {
    run != [] &&
    var s := run[|run| - 1];
    (s.Register? && s.c == c) || (!(s.Unregister? && s.c == c) && IsMember(run[..|run| - 1], c))
  }

  /** The broadcasts that began while the client was registered and that it wants. */
  function Due(run: seq<Step>, c: nat): seq<Message> {
    if run == [] then []
    else
      var before, s := run[..|run| - 1], run[|run| - 1];
      var agent := AgentOf(before, c);
      Due(before, c) +
      if s.Begin? && IsMember(before, c) && agent.Some? && (agent.value == "" || agent.value == s.message.agent)
      then [s.message] else []
  }

  function Accepted(offers: seq<Offer>): seq<Message> {
    if offers == [] then []
    else
      var last := offers[|offers| - 1];
      Accepted(offers[..|offers| - 1]) + if last.queued < 256 then [last.message] else []
  }

  function Offered(offers: seq<Offer>): seq<Message> {
    if offers == [] then [] else Offered(offers[..|offers| - 1]) + [offers[|offers| - 1].message]
  }

  // Safety -----------------------------------------------------------------------------------------

  ghost predicate ClientInv(client: Client) {
    && |client.channel.queue| <= CAPACITY
    && client.received + client.lost + client.channel.queue == Accepted(client.offers)
    && |client.lost| <= 1 && (client.lost != [] ==> client.pump.Broken?)
    && (client.pump.Finished? ==> client.channel == Channel([], true))
    && forall k :: 0 <= k < |client.offers| ==> client.offers[k].queued <= CAPACITY
  }

  ghost predicate HubInv(h: Hub) {
    && !h.panicked
    && h.registered <= h.clients.Keys
    && (forall c :: c in h.clients ==> (c in h.registered <==> !h.clients[c].channel.closed))
    && (h.sending.Some? ==> h.sending.value.left <= h.registered)
    && forall c :: c in h.clients ==> ClientInv(h.clients[c])
  }

  lemma OneMoreOffer(offers: seq<Offer>, o: Offer)
    ensures Accepted(offers + [o]) == Accepted(offers) + if o.queued < CAPACITY then [o.message] else []
    ensures Offered(offers + [o]) == Offered(offers) + [o.message]
  {
    assert (offers + [o])[..|offers|] == offers;
  }

  lemma SendKeepsClient(client: Client, m: Message)
    requires ClientInv(client) && !client.channel.closed
    ensures ClientInv(client.Sent(m))
  {
    OneMoreOffer(client.offers, Offer(m, |client.channel.queue|));
    hide Accepted;
  }

  lemma TakeKeepsClient(client: Client)
    requires ClientInv(client) && client.pump.Pumping? && client.channel.queue != []
    ensures ClientInv(client.Took(true)) && ClientInv(client.Took(false))
  {
    hide Accepted;
    assert client.channel.queue == [client.channel.queue[0]] + client.channel.queue[1..];
  }

  lemma StepKeepsInv(h: Hub, s: Step)
    requires HubInv(h) && Enabled(h, s)
    ensures HubInv(Apply(h, s))
  {
    hide ClientInv;
    match s
    case Register(c, agent) => FreshClient(agent);
    case Send(c) =>
      if !h.clients[c].channel.closed {
        SendKeepsClient(h.clients[c], h.sending.value.message);
      }
    case Take(c, written) => TakeKeepsClient(h.clients[c]);
    case Unregister(c) => CloseKeepsClient(h.clients[c]);
    case Finish(c) => StopKeepsClient(h.clients[c]);
    case PingFails(c) => StopKeepsClient(h.clients[c]);
    case _ =>
  }

  lemma FreshClient(agent: string)
    ensures ClientInv(Client(agent, Channel([], false), Pumping, [], [], []))
  {}

  lemma CloseKeepsClient(client: Client)
    requires ClientInv(client)
    ensures !client.channel.closed ==> ClientInv(client.Shut())
  {}

  lemma StopKeepsClient(client: Client)
    requires ClientInv(client) && client.pump.Pumping?
    ensures ClientInv(client.(pump := Broken))
    ensures client.channel == Channel([], true) ==> ClientInv(client.(pump := Finished))
  {}

  /** In no interleaving does the hub send on a closed channel or close one twice, however often a
      client is unregistered. */
  lemma {:induction false} NeverPanics(run: seq<Step>)
    requires IsRun(run)
    ensures HubInv(After(run)) && !After(run).panicked
    decreases |run|
  {
    if run != [] {
      NeverPanics(run[..|run| - 1]);
      StepKeepsInv(After(run[..|run| - 1]), run[|run| - 1]);
    }
  }

  // Delivery -----------------------------------------------------------------------------------------

  /** The message under way that has still to be offered to the client. */
  function UnderWay(h: Hub, c: nat): seq<Message> {
    if h.sending.Some? && c in h.sending.value.left && c in h.clients &&
      Wants(h.clients[c].agent, h.sending.value.message)
    then [h.sending.value.message] else []
  }

  ghost predicate Accounted(run: seq<Step>, h: Hub, c: nat) {
    && (c in h.registered <==> IsMember(run, c))
    && (c in h.clients <==> AgentOf(run, c).Some?)
    && (c in h.clients ==> AgentOf(run, c) == Some(h.clients[c].agent))
    && Due(run, c) == (if c in h.clients then Offered(h.clients[c].offers) else []) + UnderWay(h, c)
  }

  lemma StepIsAccounted(run: seq<Step>, h: Hub, s: Step, c: nat)
    requires HubInv(h) && Enabled(h, s) && Accounted(run, h, c)
    ensures Accounted(run + [s], Apply(h, s), c)
  {
    hide *;
    if s.Send? {
      SendIsAccounted(run, h, s, c);
    } else if s.Begin? {
      BeginIsAccounted(run, h, s, c);
    } else {
      OthersAreAccounted(run, h, s, c);
    }
  }

  lemma DueAfter(run: seq<Step>, s: Step, c: nat)
    ensures Due(run + [s], c) == Due(run, c) +
      (if s.Begin? && IsMember(run, c) && AgentOf(run, c).Some? && Wants(AgentOf(run, c).value, s.message)
       then [s.message] else [])
  {
    assert (run + [s])[..|run|] == run;
  }

  lemma MembershipIsAccounted(run: seq<Step>, h: Hub, s: Step, c: nat)
    requires HubInv(h) && Enabled(h, s) && Accounted(run, h, c)
    ensures
      var h' := Apply(h, s);
      && (c in h'.registered <==> IsMember(run + [s], c))
      && (c in h'.clients <==> AgentOf(run + [s], c).Some?)
      && (c in h'.clients ==> AgentOf(run + [s], c) == Some(h'.clients[c].agent))
  {
    MemberAfter(run, s, c);
    hide ClientInv, Due, Offered, UnderWay, IsMember, AgentOf;
  }

  lemma MemberAfter(run: seq<Step>, s: Step, c: nat)
    ensures IsMember(run + [s], c) <==> (s.Register? && s.c == c) || (!(s.Unregister? && s.c == c) && IsMember(run, c))
    ensures AgentOf(run + [s], c) == if s.Register? && s.c == c then Some(s.agent) else AgentOf(run, c)
  {
    assert (run + [s])[..|run|] == run;
  }

  lemma BeginIsAccounted(run: seq<Step>, h: Hub, s: Step, c: nat)
    requires HubInv(h) && Enabled(h, s) && Accounted(run, h, c) && s.Begin?
    ensures Accounted(run + [s], Apply(h, s), c)
  {
    MembershipIsAccounted(run, h, s, c);
    DueAfter(run, s, c);
    hide Offered, ClientInv, Due, IsMember, AgentOf;
  }

  lemma OthersAreAccounted(run: seq<Step>, h: Hub, s: Step, c: nat)
    requires HubInv(h) && Enabled(h, s) && Accounted(run, h, c) && !s.Begin? && !s.Send?
    ensures Accounted(run + [s], Apply(h, s), c)
  {
    MembershipIsAccounted(run, h, s, c);
    DueAfter(run, s, c);
    OffersStay(h, s, c);
    hide Due, IsMember, AgentOf, Apply, HubInv;
  }

  lemma OffersStay(h: Hub, s: Step, c: nat)
    requires HubInv(h) && Enabled(h, s) && !s.Begin? && !s.Send?
    ensures UnderWay(Apply(h, s), c) == UnderWay(h, c)
    ensures (if c in Apply(h, s).clients then Offered(Apply(h, s).clients[c].offers) else []) ==
            if c in h.clients then Offered(h.clients[c].offers) else []
  {
    hide ClientInv;
    assert Offered([]) == [];
    hide Offered;
  }

  lemma SendIsAccounted(run: seq<Step>, h: Hub, s: Step, c: nat)
    requires HubInv(h) && Enabled(h, s) && Accounted(run, h, c) && s.Send?
    ensures Accounted(run + [s], Apply(h, s), c)
  {
    var h', m := Apply(h, s), h.sending.value.message;
    MembershipIsAccounted(run, h, s, c);
    DueAfter(run, s, c);
    hide IsMember, AgentOf, Due, ClientInv, Offered, Accepted;
    if s.c == c {
      OneMoreOffer(h.clients[c].offers, Offer(m, |h.clients[c].channel.queue|));
      assert UnderWay(h', c) == [];
    } else {
      assert UnderWay(h', c) == UnderWay(h, c);
    }
  }

  lemma {:induction false} RunIsAccounted(run: seq<Step>, c: nat)
    requires IsRun(run)
    ensures Accounted(run, After(run), c)
    decreases |run|
  {
    if run != [] {
      var before := run[..|run| - 1];
      NeverPanics(before);
      RunIsAccounted(before, c);
      StepIsAccounted(before, After(before), run[|run| - 1], c);
      assert before + [run[|run| - 1]] == run;
    }
  }

  predicate IsSubsequence(x: seq<Message>, y: seq<Message>) {
    || x == []
    || (y != [] && IsSubsequence(x, y[..|y| - 1]))
    || (y != [] && x[|x| - 1] == y[|y| - 1] && IsSubsequence(x[..|x| - 1], y[..|y| - 1]))
  }

  lemma SubsequenceGrows(x: seq<Message>, y: seq<Message>, m: Message)
    requires IsSubsequence(x, y)
    ensures IsSubsequence(x, y + [m]) && IsSubsequence(x + [m], y + [m])
  {
    assert (y + [m])[..|y|] == y && (x + [m])[..|x|] == x;
  }

  lemma {:induction false} AcceptedAreOffered(offers: seq<Offer>)
    ensures IsSubsequence(Accepted(offers), Offered(offers))
    ensures (forall k :: 0 <= k < |offers| ==> offers[k].queued < CAPACITY) ==> Accepted(offers) == Offered(offers)
    decreases |offers|
  {
    if offers != [] {
      var before, last := offers[..|offers| - 1], offers[|offers| - 1];
      AcceptedAreOffered(before);
      SubsequenceGrows(Accepted(before), Offered(before), last.message);
      OneMoreOffer(before, last);
      assert before + [last] == offers;
      hide IsSubsequence, Accepted, Offered;
      assert last.queued >= CAPACITY ==> Accepted(offers) == Accepted(before);
    }
  }

  /** At every point of every run, what a client has received, the one message its pump may have lost
      and what is queued make up, in order, the broadcasts that it was due and that found fewer than
      256 queued; between broadcasts nothing it was due is missing from the account. */
  lemma {:induction false} Delivery(run: seq<Step>, c: nat)
    requires IsRun(run) && c in After(run).clients
    ensures
      var h := After(run);
      var client := h.clients[c];
      && client.received + client.lost + client.channel.queue == Accepted(client.offers)
      && |client.lost| <= 1
      && Offered(client.offers) + UnderWay(h, c) == Due(run, c)
      && IsSubsequence(client.received + client.lost + client.channel.queue, Offered(client.offers))
      && (h.sending.None? ==> Offered(client.offers) == Due(run, c))
  {
    NeverPanics(run);
    RunIsAccounted(run, c);
    AcceptedAreOffered(After(run).clients[c].offers);
    assert ClientInv(After(run).clients[c]);
  }

  /** A client that never lets 256 messages queue up and whose pump ends with the close frame has
      received everything it was due. */
  lemma KeepingUpMissesNothing(run: seq<Step>, c: nat)
    requires IsRun(run) && c in After(run).clients && After(run).sending.None?
    requires After(run).clients[c].pump.Finished?
    requires forall k :: 0 <= k < |After(run).clients[c].offers| ==> After(run).clients[c].offers[k].queued < CAPACITY
    ensures After(run).clients[c].received == Due(run, c)
  {
    NeverPanics(run);
    Delivery(run, c);
    AcceptedAreOffered(After(run).clients[c].offers);
    assert ClientInv(After(run).clients[c]);
  }
}
