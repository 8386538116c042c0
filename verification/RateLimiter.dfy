/** The per-agent token bucket of the gateway and the limiter that owns the buckets.

    Tokens and seconds are `real`; every reading of the clock is an argument. */
module RateLimiter {

  datatype Config = Config(rpm: int, burst: int) {
    function Rate(): real { rpm as real / 60.0 }

    function Burst(): real { burst as real }

    function Refill(seconds: real): real { seconds * Rate() }
  }

  datatype BucketState = BucketState(tokens: real, maxTokens: real, refillPerSec: real, lastRefill: real)

  function Fresh(cfg: Config, now: real): BucketState {
    BucketState(cfg.Burst(), cfg.Burst(), cfg.Rate(), now)
  }

  /** Lazy refill with a cap: the tokens available to a call at `now`. */
  function Available(b: BucketState, now: real): real {
    var grown := b.tokens + (now - b.lastRefill) * b.refillPerSec;
    if grown > b.maxTokens then b.maxTokens else grown
  }

  function AllowState(b: BucketState, now: real): BucketState {
    var available := Available(b, now);
    b.(tokens := if available < 1.0 then available else available - 1.0, lastRefill := now)
  }

  predicate Granted(b: BucketState, now: real) {
    Available(b, now) >= 1.0
  }

  class Bucket {
    var tokens: real
    const maxTokens: real
    const refillPerSec: real
    var lastRefill: real

    function State(): BucketState
      reads this
    {
      BucketState(tokens, maxTokens, refillPerSec, lastRefill)
    }

    constructor (rpm: int, burst: int, now: real)
      ensures State() == Fresh(Config(rpm, burst), now)
    {
      tokens := burst as real;
      maxTokens := burst as real;
      refillPerSec := rpm as real / 60.0;
      lastRefill := now;
    }

    method Allow(now: real) returns (ok: bool)
      modifies this
      ensures ok == Granted(old(State()), now)
      ensures State() == AllowState(old(State()), now)
    {
      var elapsed := now - lastRefill;
      tokens := tokens + elapsed * refillPerSec;
      if tokens > maxTokens {
        tokens := maxTokens;
      }
      lastRefill := now;
      if tokens < 1.0 {
        return false;
      }
      tokens := tokens - 1.0;
      return true;
    }
  }

  // ------------------------------------------------------------------------
  // Exact admission of one bucket
  // ------------------------------------------------------------------------

  /** `at[0]` is the instant the bucket is made and `at[k]`, k >= 1, is its k-th call.
      The state after the calls `at[1..k]`. */
  function After(cfg: Config, at: seq<real>, k: nat): BucketState
    requires 0 < k <= |at|
  {
    if k == 1 then Fresh(cfg, at[0]) else AllowState(After(cfg, at, k - 1), at[k - 1])
  }

  /** The answers of the bucket; position 0, the creation, counts as no grant. */
  function Answers(cfg: Config, at: seq<real>): (answers: seq<bool>)
    requires |at| > 0
    ensures |answers| == |at|
  {
    seq(|at|, k requires 0 <= k < |at| => k > 0 && Granted(After(cfg, at, k), at[k]))
  }

  /** Number of grants among positions i..j-1. */
  function Grants(answers: seq<bool>, i: nat, j: nat): nat
    requires i <= j <= |answers|
    decreases j
  {
    if i == j then 0 else Grants(answers, i, j - 1) + if answers[j - 1] then 1 else 0
  }

  /** What a window that opens at instant i and closes at instant j may hold. */
  function Bound(cfg: Config, at: seq<real>, i: nat, j: nat): real
    requires i <= j < |at|
  {
    cfg.Burst() + cfg.Refill(at[j] - at[i])
  }

  /** What the refill adds between instants j and j+1. */
  function Gain(cfg: Config, at: seq<real>, j: nat): real
    requires j + 1 < |at|
  {
    cfg.Refill(at[j + 1] - at[j])
  }

  lemma {:induction false} AfterIsStamped(cfg: Config, at: seq<real>, j: nat)
    requires 1 <= j <= |at|
    ensures After(cfg, at, j).lastRefill == at[j - 1]
    ensures After(cfg, at, j).maxTokens == cfg.Burst() && After(cfg, at, j).refillPerSec == cfg.Rate()
    decreases j
  {
    if j > 1 {
      AfterIsStamped(cfg, at, j - 1);
    }
  }

  function Min(x: real, y: real): real { if y > x then x else y }

  /** Tokens available to call j, before it takes one. */
  function TokensAt(cfg: Config, at: seq<real>, j: nat): real
    requires j < |at|
  {
    if j == 0 then cfg.Burst() else Available(After(cfg, at, j), at[j])
  }

  lemma AllowStep(cfg: Config, b: BucketState, now: real, next: real)
    requires b.maxTokens == cfg.Burst() && b.refillPerSec == cfg.Rate()
    ensures Available(AllowState(b, now), next) == Min(cfg.Burst(),
      Available(b, now) - (if Available(b, now) < 1.0 then 0.0 else 1.0) + cfg.Refill(next - now))
  {}

  lemma FreshStep(cfg: Config, now: real, next: real)
    ensures Available(Fresh(cfg, now), next) == Min(cfg.Burst(), cfg.Burst() + cfg.Refill(next - now))
  {}

  lemma TokensStep(cfg: Config, at: seq<real>, j: nat)
    requires j + 1 < |at|
    ensures TokensAt(cfg, at, j + 1) == Min(cfg.Burst(),
      TokensAt(cfg, at, j) - (if Answers(cfg, at)[j] then 1.0 else 0.0) + Gain(cfg, at, j))
  {
    hide Available, Config.Refill;
    if j == 0 {
      FreshStep(cfg, at[0], at[1]);
    } else {
      AfterIsStamped(cfg, at, j);
      assert After(cfg, at, j + 1) == AllowState(After(cfg, at, j), at[j]);
      assert Answers(cfg, at)[j] == Granted(After(cfg, at, j), at[j]);
      AllowStep(cfg, After(cfg, at, j), at[j], at[j + 1]);
    }
  }

  /** The slack of the window that opens at instant i when instant j is reached. */
  function Slack(cfg: Config, at: seq<real>, i: nat, j: nat): real
    requires i <= j < |at|
  {
    Bound(cfg, at, i, j) - Grants(Answers(cfg, at), i, j) as real
  }

  lemma RefillAdds(cfg: Config, x: real, y: real)
    ensures cfg.Refill(x + y) == cfg.Refill(x) + cfg.Refill(y)
  {}

  lemma SlackStep(cfg: Config, at: seq<real>, i: nat, j: nat)
    requires i <= j < j + 1 < |at|
    ensures Slack(cfg, at, i, j + 1) ==
      Slack(cfg, at, i, j) - (if Answers(cfg, at)[j] then 1.0 else 0.0) + Gain(cfg, at, j)
  {
    hide Answers, Available, Config.Refill, Config.Burst;
    RefillAdds(cfg, at[j] - at[i], at[j + 1] - at[j]);
    assert at[j + 1] - at[i] == (at[j] - at[i]) + (at[j + 1] - at[j]);
  }

  lemma SlackOfOneInstant(cfg: Config, at: seq<real>, j: nat)
    requires j < |at|
    ensures Slack(cfg, at, j, j) == cfg.Burst()
  {}

  /** The tokens available to call j are the least slack of any window closing there. */
  lemma {:induction false} AvailableIsLeastSlack(cfg: Config, at: seq<real>, j: nat) returns (least: nat)
    requires j < |at|
    ensures forall i: nat :: i <= j ==> TokensAt(cfg, at, j) <= Slack(cfg, at, i, j)
    ensures least <= j && TokensAt(cfg, at, j) == Slack(cfg, at, least, j)
    decreases j
  {
    hide Available, Gain, Bound, Answers, Config.Refill;
    SlackOfOneInstant(cfg, at, j);
    least := j;
    if j > 0 {
      var prev := AvailableIsLeastSlack(cfg, at, j - 1);
      TokensStep(cfg, at, j - 1);
      forall i: nat | i < j
        ensures TokensAt(cfg, at, j) <= Slack(cfg, at, i, j)
      {
        SlackStep(cfg, at, i, j - 1);
      }
      SlackStep(cfg, at, prev, j - 1);
      if TokensAt(cfg, at, j) != cfg.Burst() {
        least := prev;
      }
    }
  }

  /** The bound in numbers: the burst and rpm/60 calls for each second of the window. */
  lemma BoundInNumbers(rpm: int, burst: int, at: seq<real>, i: nat, j: nat)
    requires i <= j < |at|
    ensures Bound(Config(rpm, burst), at, i, j) == burst as real + (at[j] - at[i]) * (rpm as real / 60.0)
  {}

  /** A call is refused exactly when granting it would put more than burst + rpm/60 calls a second into some
      window that closes with it. */
  lemma ExactAdmission(rpm: int, burst: int, at: seq<real>, j: nat)
    requires 1 <= j < |at|
    ensures var answers := Answers(Config(rpm, burst), at);
      !answers[j] <==>
      exists i: nat :: i <= j &&
        Grants(answers, i, j) as real + 1.0 > burst as real + (at[j] - at[i]) * (rpm as real / 60.0)
  {
    hide *;
    var cfg := Config(rpm, burst);
    RefusedIff(cfg, at, j);
    if !Answers(cfg, at)[j] {
      var i: nat :| i <= j && Grants(Answers(cfg, at), i, j) as real + 1.0 > Bound(cfg, at, i, j);
      BoundInNumbers(rpm, burst, at, i, j);
    } else {
      forall i: nat | i <= j
        ensures Grants(Answers(cfg, at), i, j) as real + 1.0 <= burst as real + (at[j] - at[i]) * (rpm as real / 60.0)
      {
        BoundInNumbers(rpm, burst, at, i, j);
      }
    }
  }

  lemma RefusedIff(cfg: Config, at: seq<real>, j: nat)
    requires 1 <= j < |at|
    ensures !Answers(cfg, at)[j] <==>
      exists i: nat :: i <= j && Grants(Answers(cfg, at), i, j) as real + 1.0 > Bound(cfg, at, i, j)
  {
    hide Available, Bound;
    var least := AvailableIsLeastSlack(cfg, at, j);
    assert Answers(cfg, at)[j] <==> TokensAt(cfg, at, j) >= 1.0;
    assert forall i: nat :: i <= j ==>
      Slack(cfg, at, i, j) == Bound(cfg, at, i, j) - Grants(Answers(cfg, at), i, j) as real;
  }

  /** With a rate that is not negative and a clock that does not run backwards, only windows
      that open at a call matter. */
  lemma ExactAdmissionOverCalls(rpm: int, burst: int, at: seq<real>, j: nat)
    requires rpm >= 0
    requires 1 <= j < |at|
    requires forall i, k :: 0 <= i <= k < |at| ==> at[i] <= at[k]
    ensures var answers := Answers(Config(rpm, burst), at);
      !answers[j] <==>
      exists i: nat :: 1 <= i <= j &&
        Grants(answers, i, j) as real + 1.0 > burst as real + (at[j] - at[i]) * (rpm as real / 60.0)
  {
    hide *;
    var cfg := Config(rpm, burst);
    RefusedOverCallsIff(cfg, at, j);
    if !Answers(cfg, at)[j] {
      var i: nat :| 1 <= i <= j && Grants(Answers(cfg, at), i, j) as real + 1.0 > Bound(cfg, at, i, j);
      BoundInNumbers(rpm, burst, at, i, j);
    } else {
      forall i: nat | 1 <= i <= j
        ensures Grants(Answers(cfg, at), i, j) as real + 1.0 <= burst as real + (at[j] - at[i]) * (rpm as real / 60.0)
      {
        BoundInNumbers(rpm, burst, at, i, j);
      }
    }
  }

  lemma RefusedOverCallsIff(cfg: Config, at: seq<real>, j: nat)
    requires cfg.rpm >= 0
    requires 1 <= j < |at|
    requires forall i, k :: 0 <= i <= k < |at| ==> at[i] <= at[k]
    ensures !Answers(cfg, at)[j] <==>
      exists i: nat :: 1 <= i <= j && Grants(Answers(cfg, at), i, j) as real + 1.0 > Bound(cfg, at, i, j)
  {
    hide Available, Bound, Answers;
    RefusedIff(cfg, at, j);
    assert at[0] <= at[1];
    CreationWindowIsWider(cfg, at, j);
    var answers := Answers(cfg, at);
    if !answers[j] {
      var i: nat :| i <= j && Grants(answers, i, j) as real + 1.0 > Bound(cfg, at, i, j);
      if i == 0 {
        CreationIsNoGrant(cfg, at, j);
        assert Grants(answers, 1, j) as real + 1.0 > Bound(cfg, at, 1, j);
      }
    }
  }

  lemma CreationIsNoGrant(cfg: Config, at: seq<real>, j: nat)
    requires 1 <= j < |at|
    ensures Grants(Answers(cfg, at), 0, j) == Grants(Answers(cfg, at), 1, j)
  {
    GrantsSplit(Answers(cfg, at), 0, 1, j);
    assert Grants(Answers(cfg, at), 0, 0) == 0;
  }

  lemma CreationWindowIsWider(cfg: Config, at: seq<real>, j: nat)
    requires cfg.rpm >= 0 && 1 <= j < |at| && at[0] <= at[1]
    ensures Bound(cfg, at, 0, j) >= Bound(cfg, at, 1, j)
  {
    LaterIsFuller(cfg.Rate(), at[j] - at[1], at[j] - at[0]);
  }

  lemma {:induction false} GrantsSplit(answers: seq<bool>, i: nat, k: nat, j: nat)
    requires i <= k <= j <= |answers|
    ensures Grants(answers, i, j) == Grants(answers, i, k) + Grants(answers, k, j)
    decreases j
  {
    if k < j {
      GrantsSplit(answers, i, k, j - 1);
    }
  }

  /** A decision sequence that never lets a granted call put more than burst + rpm/60 calls a second into a
      window closing with it. */
  ghost predicate Obeys(rpm: int, burst: int, at: seq<real>, decisions: seq<bool>)
    requires |at| == |decisions|
  {
    forall i: nat, j: nat :: i <= j && 1 <= j < |at| && decisions[j] ==>
      Grants(decisions, i, j) as real + 1.0 <= burst as real + (at[j] - at[i]) * (rpm as real / 60.0)
  }

  lemma ObeysWindow(rpm: int, burst: int, at: seq<real>, decisions: seq<bool>, i: nat, j: nat)
    requires |at| == |decisions| && Obeys(rpm, burst, at, decisions)
    requires i <= j && 1 <= j < |at| && decisions[j]
    ensures Grants(decisions, i, j) as real + 1.0 <= Bound(Config(rpm, burst), at, i, j)
  {
    hide Grants, Bound;
    BoundInNumbers(rpm, burst, at, i, j);
  }

  lemma BucketObeys(rpm: int, burst: int, at: seq<real>)
    requires |at| > 0
    ensures Obeys(rpm, burst, at, Answers(Config(rpm, burst), at))
  {
    hide Answers, Grants, Bound;
    var cfg := Config(rpm, burst);
    var answers := Answers(cfg, at);
    forall i: nat, j: nat | i <= j && 1 <= j < |at| && answers[j]
      ensures Grants(answers, i, j) as real + 1.0 <= burst as real + (at[j] - at[i]) * (rpm as real / 60.0)
    {
      RefusedIff(cfg, at, j);
      BoundInNumbers(rpm, burst, at, i, j);
    }
  }

  /** No limiter that obeys the window bounds has granted more calls at any moment:
      the bucket is the most permissive one. */
  lemma {:induction false} MostPermissive(rpm: int, burst: int, at: seq<real>, decisions: seq<bool>, k: nat)
    requires 1 <= k <= |at| == |decisions|
    requires Obeys(rpm, burst, at, decisions) && !decisions[0]
    ensures Grants(decisions, 0, k) <= Grants(Answers(Config(rpm, burst), at), 0, k)
    decreases k
  {
    hide Answers, Bound, Obeys;
    var cfg := Config(rpm, burst);
    var answers := Answers(cfg, at);
    if k == 1 {
      assert Grants(decisions, 0, 1) == Grants(decisions, 0, 0) == 0;
    } else {
      var j := k - 1;
      MostPermissive(rpm, burst, at, decisions, j);
      if decisions[j] && !answers[j] {
        RefusedIff(cfg, at, j);
        var i: nat :| i <= j && Grants(answers, i, j) as real + 1.0 > Bound(cfg, at, i, j);
        ObeysWindow(rpm, burst, at, decisions, i, j);
        assert Grants(answers, i, j) > Grants(decisions, i, j);
        GrantsSplit(answers, 0, i, j);
        GrantsSplit(decisions, 0, i, j);
        if i >= 1 {
          MostPermissive(rpm, burst, at, decisions, i);
        }
      }
    }
  }

  // ------------------------------------------------------------------------
  // The limiter and its idle sweep
  // ------------------------------------------------------------------------

  const IDLE_SECONDS := 300.0

  type Buckets = map<string, BucketState>

  /** One whole Allow call, or the deletion of one bucket by the background sweep, whose
      cutoff was taken at least five minutes before the present. */
  datatype Event =
    | Call(agent: string, created: real, now: real)
    | Evict(agent: string, cutoff: real, now: real)

  datatype Answer = Answer(agent: string, ok: bool)

  /** LoadOrStore: the bucket a call finds, made at `created` if there is none. */
  function Found(cfg: Config, m: Buckets, e: Event): BucketState
    requires e.Call?
  {
    if e.agent in m then m[e.agent] else Fresh(cfg, e.created)
  }

  function Apply(cfg: Config, m: Buckets, e: Event): Buckets {
    match e
    case Call(agent, created, now) => m[agent := AllowState(Found(cfg, m, e), now)]
    case Evict(agent, cutoff, now) => if agent in m && m[agent].lastRefill < cutoff then m - {agent} else m
  }

  function Respond(cfg: Config, m: Buckets, e: Event): seq<Answer> {
    if e.Call? then [Answer(e.agent, Granted(Found(cfg, m, e), e.now))] else []
  }

  function Run(cfg: Config, m: Buckets, events: seq<Event>): seq<Answer>
    decreases |events|
  {
    if events == [] then []
    else Respond(cfg, m, events[0]) + Run(cfg, Apply(cfg, m, events[0]), events[1..])
  }

  class Limiter {
    const rpm: int
    const burst: int
    var buckets: map<string, Bucket>

    ghost predicate Valid()
      reads this
    {
      forall a, b :: a in buckets && b in buckets && a != b ==> buckets[a] != buckets[b]
    }

    ghost function View(): Buckets
      reads this, buckets.Values
    {
      map a | a in buckets :: buckets[a].State()
    }

    constructor (rpm: int, burst: int)
      ensures Valid() && View() == map[]
      ensures this.rpm == rpm && this.burst == burst
    {
      this.rpm := rpm;
      this.burst := burst;
      buckets := map[];
    }

    method Allow(agent: string, created: real, now: real) returns (ok: bool)
      requires Valid()
      modifies this, buckets.Values
      ensures Valid() && fresh(buckets.Values - old(buckets.Values))
      ensures View() == Apply(Config(rpm, burst), old(View()), Call(agent, created, now))
      ensures [Answer(agent, ok)] == Respond(Config(rpm, burst), old(View()), Call(agent, created, now))
    {
      if agent !in buckets {
        var b := new Bucket(rpm, burst, created);
        buckets := buckets[agent := b];
      }
      var bucket := buckets[agent];
      ok := bucket.Allow(now);
    }

    /** One tick of the clean-up loop: every bucket whose last use lies before the cutoff goes,
        as a run of deletions. */
    method Sweep(now: real) returns (ghost evictions: seq<Event>)
      requires Valid()
      modifies this
      ensures Valid() && buckets.Values <= old(buckets.Values)
      ensures forall a :: a in View() <==> a in old(View()) && old(View())[a].lastRefill >= now - 300.0
      ensures forall a :: a in View() ==> View()[a] == old(View())[a]
      ensures forall e :: e in evictions ==> e == Evict(e.agent, now - 300.0, now)
      ensures View() == Final(Config(rpm, burst), old(View()), evictions)
    {
      var cutoff := now - IDLE_SECONDS;
      var keys := buckets.Keys;
      evictions := [];
      ghost var cfg, start, view := Config(rpm, burst), View(), View();
      assert Swept(cfg, start, view, keys, evictions, cutoff, now);
      while keys != {}
        invariant Valid() && View() == view && buckets.Values <= old(buckets.Values)
        invariant keys <= view.Keys && Swept(cfg, start, view, keys, evictions, cutoff, now)
        decreases keys
      {
        hide View, Valid, Swept;
        var k :| k in keys;
        SweptStep(cfg, start, view, keys, evictions, cutoff, now, k);
        DeleteIfIdle(k, cutoff, now);
        view := Apply(cfg, view, Evict(k, cutoff, now));
        evictions := evictions + [Evict(k, cutoff, now)];
        keys := keys - {k};
      }
    }

    method DeleteIfIdle(k: string, cutoff: real, ghost now: real)
      requires Valid() && k in View()
      modifies this
      ensures Valid() && buckets.Values <= old(buckets.Values)
      ensures View() == Apply(Config(rpm, burst), old(View()), Evict(k, cutoff, now))
    {
      if buckets[k].lastRefill < cutoff {
        buckets := buckets - {k};
      }
    }
  }

  /** The keys outside `left` have been visited, each by one deletion. */
  ghost predicate Swept(cfg: Config, start: Buckets, view: Buckets, left: set<string>, evictions: seq<Event>,
                        cutoff: real, now: real) {
    && view == Final(cfg, start, evictions)
    && (forall e :: e in evictions ==> e == Evict(e.agent, cutoff, now))
    && view.Keys <= start.Keys
    && (forall a :: a in view ==> view[a] == start[a])
    && (forall a :: a in start && a !in left ==> (a in view <==> start[a].lastRefill >= cutoff))
  }

  lemma SweptStep(cfg: Config, start: Buckets, view: Buckets, left: set<string>, evictions: seq<Event>,
                  cutoff: real, now: real, k: string)
    requires k in left && left <= view.Keys && Swept(cfg, start, view, left, evictions, cutoff, now)
    ensures var e := Evict(k, cutoff, now);
      left - {k} <= Apply(cfg, view, e).Keys &&
      Swept(cfg, start, Apply(cfg, view, e), left - {k}, evictions + [e], cutoff, now)
  {
    FinalSnoc(cfg, start, evictions, Evict(k, cutoff, now));
    hide Final;
  }

  function Final(cfg: Config, m: Buckets, events: seq<Event>): Buckets
    decreases |events|
  {
    if events == [] then m else Final(cfg, Apply(cfg, m, events[0]), events[1..])
  }

  lemma {:induction false} FinalSnoc(cfg: Config, m: Buckets, events: seq<Event>, e: Event)
    ensures Final(cfg, m, events + [e]) == Apply(cfg, Final(cfg, m, events), e)
    decreases |events|
  {
    if events == [] {
      assert Final(cfg, Apply(cfg, m, e), []) == Apply(cfg, m, e);
    } else {
      assert (events + [e])[1..] == events[1..] + [e];
      FinalSnoc(cfg, Apply(cfg, m, events[0]), events[1..], e);
    }
  }

  /** The clock never runs backwards, a new bucket is stamped inside the call that makes it, and
      a cutoff lies at least five minutes in the past. */
  predicate WellTimed(events: seq<Event>, clock: real) {
    events == [] ||
    (clock <= events[0].now &&
     (events[0].Call? ==> clock <= events[0].created <= events[0].now) &&
     (events[0].Evict? ==> events[0].cutoff + IDLE_SECONDS <= events[0].now) &&
     WellTimed(events[1..], events[0].now))
  }

  function CallsOnly(events: seq<Event>): seq<Event> {
    if events == [] then []
    else (if events[0].Call? then [events[0]] else []) + CallsOnly(events[1..])
  }

  /** Every bucket kept is the reference one; a bucket deleted would be full again by now. */
  ghost predicate Related(cfg: Config, kept: Buckets, reference: Buckets, clock: real) {
    && kept.Keys <= reference.Keys
    && (forall a :: a in kept ==> kept[a] == reference[a])
    && (forall a :: a in reference ==> Sound(cfg, reference[a], clock))
    && (forall a :: a in reference && a !in kept ==> Refilled(cfg, reference[a], clock))
  }

  ghost predicate Sound(cfg: Config, b: BucketState, clock: real) {
    b.maxTokens == cfg.Burst() && b.refillPerSec == cfg.Rate() && 0.0 <= b.tokens && b.lastRefill <= clock
  }

  ghost predicate Refilled(cfg: Config, b: BucketState, clock: real) {
    b.tokens + (clock - b.lastRefill) * cfg.Rate() >= cfg.Burst()
  }

  lemma LaterIsFuller(rate: real, a: real, b: real)
    requires rate >= 0.0 && a <= b
    ensures a * rate <= b * rate
  {}

  /** Five minutes of refill reach the burst exactly when burst <= 5 * rpm. */
  lemma IdleBucketIsFull(cfg: Config, b: BucketState, clock: real)
    requires 1 <= cfg.burst <= 5 * cfg.rpm
    requires Sound(cfg, b, clock) && b.lastRefill + IDLE_SECONDS <= clock
    ensures Refilled(cfg, b, clock)
  {
    LaterIsFuller(cfg.Rate(), IDLE_SECONDS, clock - b.lastRefill);
  }

  lemma StillRefilled(cfg: Config, b: BucketState, clock: real, now: real)
    requires cfg.rpm >= 0 && clock <= now && Refilled(cfg, b, clock)
    ensures Refilled(cfg, b, now)
  {
    LaterIsFuller(cfg.Rate(), clock - b.lastRefill, now - b.lastRefill);
  }

  lemma RelatedLater(cfg: Config, kept: Buckets, reference: Buckets, clock: real, now: real)
    requires cfg.rpm >= 0 && clock <= now && Related(cfg, kept, reference, clock)
    ensures Related(cfg, kept, reference, now)
  {
    forall a | a in reference && a !in kept
      ensures Refilled(cfg, reference[a], now)
    {
      StillRefilled(cfg, reference[a], clock, now);
    }
  }

  /** A bucket made for this call and a full one in its place give the same answer and state. */
  lemma FullIsFresh(cfg: Config, b: BucketState, created: real, now: real)
    requires cfg.rpm >= 0 && created <= now
    requires Sound(cfg, b, now) && Refilled(cfg, b, now)
    ensures Available(Fresh(cfg, created), now) == cfg.Burst() == Available(b, now)
    ensures AllowState(Fresh(cfg, created), now) == AllowState(b, now)
  {
    LaterIsFuller(cfg.Rate(), 0.0, now - created);
  }

  lemma SoundAfterCall(cfg: Config, b: BucketState, now: real)
    requires cfg.rpm >= 0 && cfg.burst >= 1 && Sound(cfg, b, now)
    ensures Sound(cfg, AllowState(b, now), now)
  {
    LaterIsFuller(cfg.Rate(), 0.0, now - b.lastRefill);
  }

  lemma RelatedCall(cfg: Config, kept: Buckets, reference: Buckets, e: Event)
    requires cfg.rpm >= 0 && cfg.burst >= 1 && e.Call? && e.created <= e.now
    requires Related(cfg, kept, reference, e.now)
    ensures Related(cfg, Apply(cfg, kept, e), Apply(cfg, reference, e), e.now)
    ensures Respond(cfg, kept, e) == Respond(cfg, reference, e)
  {
    SoundAfterCall(cfg, Found(cfg, reference, e), e.now);
    if e.agent in reference && e.agent !in kept {
      FullIsFresh(cfg, reference[e.agent], e.created, e.now);
    }
  }

  lemma RelatedEvict(cfg: Config, kept: Buckets, reference: Buckets, e: Event)
    requires 1 <= cfg.burst <= 5 * cfg.rpm && e.Evict? && e.cutoff + IDLE_SECONDS <= e.now
    requires Related(cfg, kept, reference, e.now)
    ensures Related(cfg, Apply(cfg, kept, e), reference, e.now)
  {
    if e.agent in kept && kept[e.agent].lastRefill < e.cutoff {
      IdleBucketIsFull(cfg, reference[e.agent], e.now);
    }
  }

  lemma {:induction false} RunsAgree(cfg: Config, kept: Buckets, reference: Buckets, events: seq<Event>, clock: real)
    requires 1 <= cfg.burst <= 5 * cfg.rpm
    requires WellTimed(events, clock) && Related(cfg, kept, reference, clock)
    ensures Run(cfg, kept, events) == Run(cfg, reference, CallsOnly(events))
    decreases |events|
  {
    if events != [] {
      var e := events[0];
      RelatedLater(cfg, kept, reference, clock, e.now);
      if e.Call? {
        RelatedCall(cfg, kept, reference, e);
        assert CallsOnly(events)[0] == e && CallsOnly(events)[1..] == CallsOnly(events[1..]);
        RunsAgree(cfg, Apply(cfg, kept, e), Apply(cfg, reference, e), events[1..], e.now);
      } else {
        RelatedEvict(cfg, kept, reference, e);
        assert CallsOnly(events) == CallsOnly(events[1..]);
        RunsAgree(cfg, Apply(cfg, kept, e), reference, events[1..], e.now);
      }
    }
  }

  /** With a burst below one nothing is ever granted, whatever is deleted. */
  lemma {:induction false} EmptyBurstRefusesAll(cfg: Config, kept: Buckets, reference: Buckets, events: seq<Event>)
    requires cfg.burst < 1
    requires forall a :: a in kept ==> kept[a].maxTokens < 1.0
    requires forall a :: a in reference ==> reference[a].maxTokens < 1.0
    ensures Run(cfg, kept, events) == Run(cfg, reference, CallsOnly(events))
    decreases |events|
  {
    if events != [] {
      var e := events[0];
      if e.Call? {
        assert CallsOnly(events)[0] == e && CallsOnly(events)[1..] == CallsOnly(events[1..]);
        EmptyBurstRefusesAll(cfg, Apply(cfg, kept, e), Apply(cfg, reference, e), events[1..]);
      } else {
        assert CallsOnly(events) == CallsOnly(events[1..]);
        EmptyBurstRefusesAll(cfg, Apply(cfg, kept, e), reference, events[1..]);
      }
    }
  }

  /** Each answer equals that of a limiter which never deletes. */
  ghost predicate SweepUnobservable(cfg: Config) {
    forall events :: WellTimed(events, 0.0) ==> Run(cfg, map[], events) == Run(cfg, map[], CallsOnly(events))
  }

  /** The exact condition on the configuration, for every interleaving. */
  lemma SweepUnobservableIff(cfg: Config)
    ensures SweepUnobservable(cfg) <==> cfg.burst <= 0 || cfg.burst <= 5 * cfg.rpm
  {
    if cfg.burst <= 0 || cfg.burst <= 5 * cfg.rpm {
      forall events | WellTimed(events, 0.0)
        ensures Run(cfg, map[], events) == Run(cfg, map[], CallsOnly(events))
      {
        if cfg.burst <= 0 {
          EmptyBurstRefusesAll(cfg, map[], map[], events);
        } else {
          RunsAgree(cfg, map[], map[], events, 0.0);
        }
      }
    } else {
      SweepObserved(cfg);
    }
  }

  // The witness for the converse: spend the burst, let the bucket be deleted, spend it again.

  function Calls(n: nat, now: real): seq<Event> {
    if n == 0 then [] else [Call("a", now, now)] + Calls(n - 1, now)
  }

  function AllGranted(n: nat): seq<Answer> {
    if n == 0 then [] else [Answer("a", true)] + AllGranted(n - 1)
  }

  /** Just over five minutes: too short for a drained bucket to fill up again. */
  function Pause(cfg: Config): real {
    if cfg.rpm > 0 then 1.0 / cfg.rpm as real else 1.0
  }

  function DrainIdleDrain(cfg: Config): seq<Event>
    requires cfg.burst >= 1
  {
    var later := IDLE_SECONDS + Pause(cfg);
    Calls(cfg.burst, 0.0) + ([Evict("a", Pause(cfg), later)] + Calls(cfg.burst, later))
  }

  lemma {:induction false} RunSplits(cfg: Config, m: Buckets, x: seq<Event>, y: seq<Event>)
    ensures Run(cfg, m, x + y) == Run(cfg, m, x) + Run(cfg, Final(cfg, m, x), y)
    decreases |x|
  {
    if x == [] {
      assert x + y == y;
    } else {
      assert (x + y)[0] == x[0] && (x + y)[1..] == x[1..] + y;
      RunSplits(cfg, Apply(cfg, m, x[0]), x[1..], y);
    }
  }

  lemma WellTimedEarlier(events: seq<Event>, clock: real, now: real)
    requires clock <= now && WellTimed(events, now)
    ensures WellTimed(events, clock)
  {}

  lemma {:induction false} CallsAreWellTimed(n: nat, now: real, rest: seq<Event>, clock: real)
    requires clock <= now && WellTimed(rest, now)
    ensures WellTimed(Calls(n, now) + rest, clock)
    ensures CallsOnly(Calls(n, now) + rest) == Calls(n, now) + CallsOnly(rest)
    decreases n
  {
    var events := Calls(n, now) + rest;
    if n == 0 {
      assert events == rest;
      WellTimedEarlier(rest, clock, now);
    } else {
      var call := Call("a", now, now);
      assert Calls(n, now) == [call] + Calls(n - 1, now);
      assert events[0] == call && events[1..] == Calls(n - 1, now) + rest;
      hide Calls;
      CallsAreWellTimed(n - 1, now, rest, now);
    }
  }

  lemma ZeroTimes(x: real)
    ensures 0.0 * x == 0.0
  {}

  lemma AvailableAtOnce(b: BucketState)
    requires b.tokens <= b.maxTokens
    ensures Available(b, b.lastRefill) == b.tokens
  {
    ZeroTimes(b.refillPerSec);
    assert b.lastRefill - b.lastRefill == 0.0;
  }

  lemma AvailableIsCapped(b: BucketState, now: real)
    ensures Available(b, now) <= b.maxTokens
  {}

  lemma SpendOne(b: BucketState, now: real)
    requires Granted(b, now)
    ensures Available(AllowState(b, now), now) == Available(b, now) - 1.0
  {
    hide Available;
    AvailableIsCapped(b, now);
    AvailableAtOnce(AllowState(b, now));
  }

  lemma {:induction false} EnoughTokens(cfg: Config, m: Buckets, n: nat, now: real)
    requires n >= 1 && n as real <= Available(Found(cfg, m, Call("a", now, now)), now)
    ensures Run(cfg, m, Calls(n, now)) == AllGranted(n)
    ensures var b := Found(cfg, m, Call("a", now, now));
      Final(cfg, m, Calls(n, now)) ==
      m["a" := b.(tokens := Available(b, now) - n as real, lastRefill := now)]
    decreases n
  {
    var e := Call("a", now, now);
    var next := Apply(cfg, m, e);
    assert Calls(n, now)[1..] == Calls(n - 1, now);
    SpendOne(Found(cfg, m, e), now);
    hide Available;
    if n == 1 {
      assert Calls(0, now) == [];
    } else {
      EnoughTokens(cfg, next, n - 1, now);
    }
  }

  lemma {:induction false} TooFewTokens(cfg: Config, m: Buckets, n: nat, now: real)
    requires n >= 1 && n as real > Available(Found(cfg, m, Call("a", now, now)), now)
    ensures Run(cfg, m, Calls(n, now)) != AllGranted(n)
    decreases n
  {
    hide Available;
    var e := Call("a", now, now);
    var next := Apply(cfg, m, e);
    assert Calls(n, now)[1..] == Calls(n - 1, now);
    var rest := Run(cfg, next, Calls(n - 1, now));
    assert Run(cfg, m, Calls(n, now))[0] == Answer("a", Granted(Found(cfg, m, e), now));
    assert Run(cfg, m, Calls(n, now))[1..] == rest;
    assert AllGranted(n)[0] == Answer("a", true) && AllGranted(n)[1..] == AllGranted(n - 1);
    if Granted(Found(cfg, m, e), now) {
      SpendOne(Found(cfg, m, e), now);
      TooFewTokens(cfg, next, n - 1, now);
    }
  }

  lemma DrainedBucketIsShort(cfg: Config)
    requires cfg.burst >= 1 && cfg.burst > 5 * cfg.rpm
    ensures Pause(cfg) > 0.0
    ensures (IDLE_SECONDS + Pause(cfg)) * cfg.Rate() < cfg.Burst()
  {
    if cfg.rpm > 0 {
      calc {
        (IDLE_SECONDS + Pause(cfg)) * cfg.Rate();
        300.0 * (cfg.rpm as real / 60.0) + (1.0 / cfg.rpm as real) * (cfg.rpm as real / 60.0);
        (5 * cfg.rpm) as real + 1.0 / 60.0;
      }
    } else {
      assert cfg.Rate() <= 0.0;
      LaterIsFuller(-cfg.Rate(), 0.0, 301.0);
    }
  }

  lemma PrefixCancels(x: seq<Answer>, y: seq<Answer>, z: seq<Answer>)
    requires y != z
    ensures x + y != x + z
  {
    assert (x + y)[|x|..] == y && (x + z)[|x|..] == z;
  }

  /** Both runs, up to the moment the pause ends. */
  lemma DrainedRuns(cfg: Config, later: real)
    requires cfg.burst >= 1 && Pause(cfg) > 0.0 && later == IDLE_SECONDS + Pause(cfg)
    ensures DrainIdleDrain(cfg) == Calls(cfg.burst, 0.0) + ([Evict("a", Pause(cfg), later)] + Calls(cfg.burst, later))
    ensures WellTimed(DrainIdleDrain(cfg), 0.0)
    ensures CallsOnly(DrainIdleDrain(cfg)) == Calls(cfg.burst, 0.0) + Calls(cfg.burst, later)
  {
    var again := Calls(cfg.burst, later);
    var evict := [Evict("a", Pause(cfg), later)];
    CallsAreWellTimed(cfg.burst, later, [], later);
    assert again + [] == again;
    assert (evict + again)[1..] == again;
    assert CallsOnly(evict + again) == again;
    CallsAreWellTimed(cfg.burst, 0.0, evict + again, 0.0);
  }

  lemma EvictedAnswers(cfg: Config, drained: Buckets, n: nat, later: real)
    requires 1 <= n == cfg.burst && later == IDLE_SECONDS + Pause(cfg) && Pause(cfg) > 0.0
    requires "a" in drained && drained["a"] == BucketState(0.0, cfg.Burst(), cfg.Rate(), 0.0)
    requires drained.Keys == {"a"}
    ensures Run(cfg, drained, [Evict("a", Pause(cfg), later)] + Calls(n, later)) == AllGranted(n)
  {
    hide Pause, Calls, AllGranted;
    var evict, again := Evict("a", Pause(cfg), later), Calls(n, later);
    assert ([evict] + again)[1..] == again;
    assert Apply(cfg, drained, evict) == map[];
    assert Respond(cfg, drained, evict) + Run(cfg, map[], again) == Run(cfg, map[], again);
    assert (later - later) * cfg.Rate() == 0.0;
    assert Available(Fresh(cfg, later), later) == cfg.Burst();
    EnoughTokens(cfg, map[], n, later);
  }

  lemma SweepObserved(cfg: Config)
    requires cfg.burst >= 1 && cfg.burst > 5 * cfg.rpm
    ensures WellTimed(DrainIdleDrain(cfg), 0.0)
    ensures Run(cfg, map[], DrainIdleDrain(cfg)) != Run(cfg, map[], CallsOnly(DrainIdleDrain(cfg)))
  {
    hide Pause;
    DrainedBucketIsShort(cfg);
    var n, later := cfg.burst, IDLE_SECONDS + Pause(cfg);
    var spend, again := Calls(n, 0.0), Calls(n, later);
    var evict := Evict("a", Pause(cfg), later);
    DrainedRuns(cfg, later);
    EnoughTokens(cfg, map[], n, 0.0);
    var drained := Final(cfg, map[], spend);
    assert drained["a"] == BucketState(0.0, cfg.Burst(), cfg.Rate(), 0.0);
    RunSplits(cfg, map[], spend, [evict] + again);
    RunSplits(cfg, map[], spend, again);
    EvictedAnswers(cfg, drained, n, later);
    hide DrainIdleDrain, CallsOnly, Run, Final, Calls, AllGranted;
    TooFewTokens(cfg, drained, n, later);
    PrefixCancels(Run(cfg, map[], spend), Run(cfg, drained, again), AllGranted(n));
  }

  // ------------------------------------------------------------------------
  // Independence of agents
  // ------------------------------------------------------------------------

  function EventsOf(agent: string, events: seq<Event>): seq<Event> {
    if events == [] then []
    else (if events[0].agent == agent then [events[0]] else []) + EventsOf(agent, events[1..])
  }

  function AnswersOf(agent: string, answers: seq<Answer>): seq<Answer> {
    if answers == [] then []
    else (if answers[0].agent == agent then [answers[0]] else []) + AnswersOf(agent, answers[1..])
  }

  /** What one agent is told depends on its own events alone. */
  lemma {:induction false} AgentsAreIndependent(cfg: Config, m: Buckets, m': Buckets, agent: string, events: seq<Event>)
    requires agent in m <==> agent in m'
    requires agent in m ==> m[agent] == m'[agent]
    ensures AnswersOf(agent, Run(cfg, m, events)) == Run(cfg, m', EventsOf(agent, events))
    decreases |events|
  {
    if events != [] {
      var e := events[0];
      var rest := Run(cfg, Apply(cfg, m, e), events[1..]);
      if e.agent == agent {
        assert EventsOf(agent, events)[0] == e && EventsOf(agent, events)[1..] == EventsOf(agent, events[1..]);
        AgentsAreIndependent(cfg, Apply(cfg, m, e), Apply(cfg, m', e), agent, events[1..]);
      } else {
        assert EventsOf(agent, events) == EventsOf(agent, events[1..]);
        AgentsAreIndependent(cfg, Apply(cfg, m, e), m', agent, events[1..]);
      }
      if e.Call? {
        assert (Respond(cfg, m, e) + rest)[1..] == rest;
      } else {
        assert Respond(cfg, m, e) + rest == rest;
      }
    }
  }

  /** So, whatever is swept and whoever else calls, an agent sees a limiter of its own. */
  lemma AgentSeesItsOwnLimiter(cfg: Config, agent: string, events: seq<Event>)
    requires cfg.burst <= 0 || cfg.burst <= 5 * cfg.rpm
    requires WellTimed(events, 0.0)
    ensures AnswersOf(agent, Run(cfg, map[], events)) == Run(cfg, map[], EventsOf(agent, CallsOnly(events)))
  {
    SweepUnobservableIff(cfg);
    AgentsAreIndependent(cfg, map[], map[], agent, CallsOnly(events));
  }

  /** The creation and the calls of one agent as instants. */
  function Instants(calls: seq<Event>): seq<real>
    requires calls != [] && forall e :: e in calls ==> e.Call?
  {
    [calls[0].created] + seq(|calls|, k requires 0 <= k < |calls| => calls[k].now)
  }

  function TailAnswers(agent: string, answers: seq<bool>, k: nat): seq<Answer>
    requires k <= |answers|
    decreases |answers| - k
  {
    if k == |answers| then [] else [Answer(agent, answers[k])] + TailAnswers(agent, answers, k + 1)
  }

  lemma NextAnswer(cfg: Config, at: seq<real>, k: nat)
    requires 1 <= k < |at|
    ensures Answers(cfg, at)[k] == Granted(After(cfg, at, k), at[k])
    ensures After(cfg, at, k + 1) == AllowState(After(cfg, at, k), at[k])
  {}

  /** And that limiter is the one bucket of the exact admission theorem. */
  lemma {:induction false} OwnLimiterIsOneBucket(cfg: Config, m: Buckets, agent: string, calls: seq<Event>, k: nat)
    requires calls != [] && forall e :: e in calls ==> e.Call? && e.agent == agent
    requires k <= |calls|
    requires agent in m <==> k > 0
    requires k > 0 ==> m[agent] == After(cfg, Instants(calls), k + 1)
    ensures Run(cfg, m, calls[k..]) == TailAnswers(agent, Answers(cfg, Instants(calls)), k + 1)
    decreases |calls| - k
  {
    var at := Instants(calls);
    if k < |calls| {
      var e := calls[k];
      var rest := calls[k + 1..];
      assert calls[k..] == [e] + rest;
      assert at[k + 1] == e.now && Found(cfg, m, e) == After(cfg, at, k + 1);
      NextAnswer(cfg, at, k + 1);
      hide Available, Answers, After, Granted, AllowState, Instants;
      OwnLimiterIsOneBucket(cfg, Apply(cfg, m, e), agent, calls, k + 1);
      assert ([e] + rest)[1..] == rest;
    }
  }
}
