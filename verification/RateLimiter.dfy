/** The in-memory token-bucket limiter of internal/api/ratelimit.go.

    Time is whole nanoseconds and tokens are reals. The specification
    functions below give one call's effect on the bucket map; the class at the
    end mutates the map in place and is proved to follow them. The lemmas
    between are about whole runs of calls.
 */
module RateLimiting {

  const SECOND := 1_000_000_000
  const PRUNE_EVERY := 4096

  /** A bucket's capacity and how it refills: tokens gained over some nanoseconds, how long it must
      sit idle before it is dropped, and the exact nanoseconds until missing tokens have flowed in. */
  datatype Limits = Limits(burst: real, gain: int -> real, idle: int, waitFor: real -> real) {
    ghost predicate Sums(a: int, b: int) {
      gain(a + b) == gain(a) + gain(b)
    }

    ghost predicate Additive() {
      gain(0) == 0.0 && forall a, b :: Sums(a, b)
    }

    ghost predicate Growing() {
      forall nanos :: nanos > 0 ==> gain(nanos) > 0.0
    }

    ghost predicate FullAfterIdle() {
      idle >= 0 && forall nanos :: nanos > idle ==> gain(nanos) >= burst
    }

    ghost predicate WaitsExactly() {
      && (forall missing :: missing > 0.0 ==> waitFor(missing) > 0.0)
      && (forall missing, nanos :: missing > 0.0 ==> (gain(nanos) >= missing <==> nanos as real >= waitFor(missing)))
    }

    /** All that the results about runs need of the refill arithmetic. */
    ghost predicate Steady() {
      burst > 0.0 && Additive() && Growing() && FullAfterIdle() && WaitsExactly()
    }
  }

  /** `rate` tokens a second up to `burst`. */
  function Flow(rate: real, burst: real): Limits
    requires rate > 0.0
  {
    Limits(burst,
           nanos => nanos as real / SECOND as real * rate,
           (burst / rate * SECOND as real).Floor + SECOND,
           missing => missing / rate * SECOND as real)
  }

  datatype Bucket = Bucket(tokens: real, last: int)

  type Buckets = map<string, Bucket>

  datatype Limiter = Limiter(buckets: Buckets, calls: int)

  const FRESH := Limiter(map[], 0)

  function HourlyLimits(perHour: int): Limits
    requires perHour >= 1
  {
    Flow(perHour as real / 3600.0, perHour as real)
  }

  function MinuteLimits(perMinute: int): Limits
    requires perMinute >= 1
  {
    Flow(perMinute as real / 60.0, perMinute as real)
  }

  function Min(a: real, b: real): real {
    if a <= b then a else b
  }

  function Refill(l: Limits, b: Bucket, now: int): Bucket {
    if now > b.last then Bucket(Min(l.burst, b.tokens + l.gain(now - b.last)), now) else b
  }

  function Prune(l: Limits, buckets: Buckets, now: int): Buckets
  {
    map k | k in buckets && now - buckets[k].last <= l.idle :: buckets[k]
  }

  /** One call of AllowN; `sweep` says whether this call prunes first. */
  function Charge(l: Limits, s: Limiter, key: string, n: int, now: int, sweep: bool): (Limiter, bool)
  {
    var buckets := if sweep then Prune(l, s.buckets, now) else s.buckets;
    var b := Refill(l, if key in buckets then buckets[key] else Bucket(l.burst, now), now);
    var ok := b.tokens >= n as real;
    (Limiter(buckets[key := if ok then Bucket(b.tokens - n as real, b.last) else b], s.calls + 1), ok)
  }

  /** Tokens a call for `key` would find at `now`; a key without a bucket has a full one. */
  function Available(l: Limits, s: Limiter, key: string, now: int): real {
    if key in s.buckets then Refill(l, s.buckets[key], now).tokens else l.burst
  }

  /** The wait before `key` holds `n` tokens, in exact nanoseconds. */
  function ExactWait(l: Limits, s: Limiter, key: string, n: int, now: int): real
  {
    var need := Min(n as real, l.burst);
    var tokens := Available(l, s, key, now);
    if key !in s.buckets || tokens >= need then 0.0 else l.waitFor(need - tokens)
  }

  function RetryAfterN(l: Limits, s: Limiter, key: string, n: int, now: int): int
  {
    ExactWait(l, s, key, n, now).Floor
  }

  /** The Retry-After header: whole seconds, rounded up, at least one. */
  function RetryAfterSeconds(wait: int): (secs: int)
    ensures secs >= 1 && secs * SECOND >= wait
    ensures forall fewer :: 1 <= fewer < secs ==> fewer * SECOND < wait
  {
    var ceiling := -(-wait / SECOND);
    if ceiling < 1 then 1 else ceiling
  }

  // -- Runs --------------------------------------------------------------

  datatype Event =
    | AllowCall(key: string, n: int, at: int)
    | RetryCall(key: string, n: int, at: int)

  datatype Answer = Decision(allowed: bool) | Wait(nanos: int)

  /** Which calls sweep, by the value of the call counter. */
  type Policy = int -> bool

  const EveryPruneEvery: Policy := calls => calls % PRUNE_EVERY == 0
  const Never: Policy := calls => false

  function Step(l: Limits, s: Limiter, e: Event, p: Policy): (Limiter, Answer)
  {
    match e
    case AllowCall(key, n, at) =>
      var (s', ok) := Charge(l, s, key, n, at, p(s.calls + 1));
      (s', Decision(ok))
    case RetryCall(key, n, at) =>
      (s, Wait(RetryAfterN(l, s, key, n, at)))
  }

  /** What one call takes from `key`'s bucket. */
  function Spent(e: Event, a: Answer, key: string): real {
    if e.AllowCall? && e.key == key && a == Decision(true) then e.n as real else 0.0
  }

  function Run(l: Limits, s: Limiter, events: seq<Event>, p: Policy): Limiter
    decreases events
  {
    if events == [] then s else Run(l, Step(l, s, events[0], p).0, events[1..], p)
  }

  function Answers(l: Limits, s: Limiter, events: seq<Event>, p: Policy): (answers: seq<Answer>)
    ensures |answers| == |events|
    decreases events
  {
    if events == [] then []
    else
      var (s', a) := Step(l, s, events[0], p);
      [a] + Answers(l, s', events[1..], p)
  }

  /** The clock never runs backwards, starting from `from`. */
  ghost predicate Ordered(events: seq<Event>, from: int) {
    events != [] ==> from <= events[0].at && Ordered(events[1..], events[0].at)
  }

  /** Every bucket was last touched at or before `now` and holds no debt. */
  ghost predicate Settled(s: Limiter, now: int) {
    forall k :: k in s.buckets ==> s.buckets[k].last <= now && s.buckets[k].tokens >= 0.0
  }

  // -- Refill arithmetic -------------------------------------------------

  lemma FlowIsAdditive(rate: real, burst: real)
    requires rate > 0.0
    ensures Flow(rate, burst).Additive()
  {
    forall a, b ensures Flow(rate, burst).Sums(a, b) {
      var x, y := a as real / SECOND as real, b as real / SECOND as real;
      assert (a + b) as real / SECOND as real == x + y;
      assert (x + y) * rate == x * rate + y * rate;
    }
  }

  lemma FlowGrows(rate: real, burst: real)
    requires rate > 0.0
    ensures Flow(rate, burst).Growing()
  {
    forall nanos | nanos > 0 ensures Flow(rate, burst).gain(nanos) > 0.0 {
      assert nanos as real / SECOND as real > 0.0;
    }
  }

  lemma FlowReaches(rate: real, missing: real, nanos: int)
    requires rate > 0.0 && missing > 0.0
    ensures nanos as real / SECOND as real * rate >= missing <==> nanos as real >= missing / rate * SECOND as real
    ensures missing / rate * SECOND as real > 0.0
  {
    var secs, wait := nanos as real / SECOND as real, missing / rate;
    assert wait * rate == missing;
    if secs >= wait {
      assert (secs - wait) * rate >= 0.0;
    } else {
      assert (wait - secs) * rate > 0.0;
    }
  }

  lemma FlowWaitsExactly(rate: real, burst: real)
    requires rate > 0.0
    ensures Flow(rate, burst).WaitsExactly()
  {
    var l := Flow(rate, burst);
    forall missing, nanos | missing > 0.0
      ensures l.waitFor(missing) > 0.0
      ensures l.gain(nanos) >= missing <==> nanos as real >= l.waitFor(missing)
    {
      FlowReaches(rate, missing, nanos);
    }
  }

  lemma FlowIsFullAfterIdle(rate: real, burst: real)
    requires rate > 0.0 && burst > 0.0
    ensures Flow(rate, burst).FullAfterIdle()
  {
    forall nanos | nanos > Flow(rate, burst).idle ensures Flow(rate, burst).gain(nanos) >= burst {
      FlowReaches(rate, burst, nanos);
    }
    FlowReaches(rate, burst, 0);
  }

  lemma FlowIsSteady(rate: real, burst: real)
    requires rate > 0.0 && burst > 0.0
    ensures Flow(rate, burst).Steady()
  {
    FlowIsAdditive(rate, burst);
    FlowGrows(rate, burst);
    FlowWaitsExactly(rate, burst);
    FlowIsFullAfterIdle(rate, burst);
  }

  lemma ConfiguredLimitsAreSteady(n: int)
    requires n >= 1
    ensures HourlyLimits(n).Steady() && MinuteLimits(n).Steady()
  {
    FlowIsSteady(n as real / 3600.0, n as real);
    FlowIsSteady(n as real / 60.0, n as real);
  }

  /** What a key has available at `later` follows from what it had at `now` alone. */
  lemma AvailableLater(l: Limits, s: Limiter, key: string, now: int, later: int)
    requires l.Steady() && Settled(s, now) && now <= later
    ensures later == now ==> Available(l, s, key, later) == Available(l, s, key, now)
    ensures later > now ==>
              Available(l, s, key, later) == Min(l.burst, Available(l, s, key, now) + l.gain(later - now))
  {
    if key in s.buckets {
      var b := s.buckets[key];
      assert l.Sums(now - b.last, later - now);
      assert now - b.last + (later - now) == later - b.last;
    }
  }

  lemma AvailableIsNonNegative(l: Limits, s: Limiter, key: string, now: int)
    requires l.Steady() && Settled(s, now)
    ensures Available(l, s, key, now) >= 0.0
  {
  }

  /** Pruning never changes what any key has available, then or later. */
  lemma PruneKeepsAvailable(l: Limits, s: Limiter, key: string, now: int, calls: int)
    requires l.Steady() && Settled(s, now)
    ensures Available(l, Limiter(Prune(l, s.buckets, now), calls), key, now) == Available(l, s, key, now)
    ensures Settled(Limiter(Prune(l, s.buckets, now), calls), now)
  {
    if key in s.buckets && now - s.buckets[key].last > l.idle {
      var b := s.buckets[key];
      assert now > b.last;
    }
  }

  /** One charge, seen through Available: the decision and every key's balance. */
  lemma ChargeEffect(l: Limits, s: Limiter, key: string, n: int, now: int, sweep: bool, k: string)
    requires l.Steady() && Settled(s, now)
    ensures var (s', ok) := Charge(l, s, key, n, now, sweep);
            && Settled(s', now)
            && (ok <==> Available(l, s, key, now) >= n as real)
            && Available(l, s', k, now) ==
               Available(l, s, k, now) - if k == key && ok then n as real else 0.0
  {
    PruneKeepsAvailable(l, s, key, now, s.calls);
    PruneKeepsAvailable(l, s, k, now, s.calls);
    forall j | j in s.buckets ensures Refill(l, s.buckets[j], now).tokens >= 0.0 {
    }
  }

  // -- Pruning is unobservable -------------------------------------------

  /** Two limiters that no call for `key` at or after `now` can tell apart. */
  ghost predicate Alike(l: Limits, s: Limiter, t: Limiter, key: string, now: int) {
    Available(l, s, key, now) == Available(l, t, key, now)
  }

  lemma AlikeLater(l: Limits, s: Limiter, t: Limiter, key: string, now: int, later: int)
    requires l.Steady() && Settled(s, now) && Settled(t, now) && now <= later && Alike(l, s, t, key, now)
    ensures Alike(l, s, t, key, later)
  {
    AvailableLater(l, s, key, now, later);
    AvailableLater(l, t, key, now, later);
  }

  /** One step, seen through Available: its answer, and every key's balance. */
  lemma StepEffect(l: Limits, s: Limiter, e: Event, p: Policy, from: int, k: string)
    requires l.Steady() && Settled(s, from) && from <= e.at
    ensures var (s', a) := Step(l, s, e, p);
            && Settled(s', e.at)
            && (e.AllowCall? ==> a == Decision(Available(l, s, e.key, e.at) >= e.n as real))
            && Available(l, s', k, e.at) == Available(l, s, k, e.at) - Spent(e, a, k)
  {
    if e.AllowCall? {
      ChargeEffect(l, s, e.key, e.n, e.at, p(s.calls + 1), k);
    }
  }

  lemma StepIsDecidedByAvailable(l: Limits, s: Limiter, t: Limiter, e: Event, p: Policy, q: Policy, from: int)
    requires l.Steady() && Settled(s, from) && Settled(t, from) && from <= e.at
    requires Alike(l, s, t, e.key, from)
    ensures Step(l, s, e, p).1 == Step(l, t, e, q).1
  {
    AlikeLater(l, s, t, e.key, from, e.at);
    StepEffect(l, s, e, p, from, e.key);
    StepEffect(l, t, e, q, from, e.key);
  }

  lemma StepKeepsAlike(l: Limits, s: Limiter, t: Limiter, e: Event, p: Policy, q: Policy, from: int, k: string)
    requires l.Steady() && Settled(s, from) && Settled(t, from) && from <= e.at
    requires Alike(l, s, t, e.key, from) && Alike(l, s, t, k, from)
    ensures Alike(l, Step(l, s, e, p).0, Step(l, t, e, q).0, k, e.at)
  {
    AlikeLater(l, s, t, k, from, e.at);
    StepIsDecidedByAvailable(l, s, t, e, p, q, from);
    StepEffect(l, s, e, p, from, k);
    StepEffect(l, t, e, q, from, k);
  }

  /** Whatever the two sweeping policies, every call of every run gets the same answer. */
  lemma {:induction false} PruningIsUnobservable(
    l: Limits, s: Limiter, t: Limiter, events: seq<Event>, p: Policy, q: Policy, from: int)
    requires l.Steady() && Ordered(events, from) && Settled(s, from) && Settled(t, from)
    requires forall k :: Alike(l, s, t, k, from)
    ensures Answers(l, s, events, p) == Answers(l, t, events, q)
    decreases events
  {
    if events != [] {
      var e := events[0];
      var s', t' := Step(l, s, e, p).0, Step(l, t, e, q).0;
      StepIsDecidedByAvailable(l, s, t, e, p, q, from);
      StepEffect(l, s, e, p, from, e.key);
      StepEffect(l, t, e, q, from, e.key);
      forall k ensures Alike(l, s', t', k, e.at) {
        StepKeepsAlike(l, s, t, e, p, q, from, k);
      }
      PruningIsUnobservable(l, s', t', events[1..], p, q, e.at);
    }
  }

  /** The limiter that sweeps every PRUNE_EVERY calls refines the one that never does. */
  lemma PrunedLimiterRefinesUnpruned(l: Limits, events: seq<Event>, from: int)
    requires l.Steady() && Ordered(events, from)
    ensures Answers(l, FRESH, events, EveryPruneEvery) == Answers(l, FRESH, events, Never)
  {
    PruningIsUnobservable(l, FRESH, FRESH, events, EveryPruneEvery, Never, from);
  }

  // -- Keys are isolated -------------------------------------------------

  function Only(events: seq<Event>, key: string): seq<Event> {
    if events == [] then []
    else (if events[0].key == key then [events[0]] else []) + Only(events[1..], key)
  }

  function AnswersTo(events: seq<Event>, answers: seq<Answer>, key: string): seq<Answer>
    requires |events| == |answers|
  {
    if events == [] then []
    else (if events[0].key == key then [answers[0]] else []) + AnswersTo(events[1..], answers[1..], key)
  }

  /** A key's answers in a mixed run are those of a limiter that never saw another key. */
  lemma {:induction false} KeysAreIsolated(
    l: Limits, s: Limiter, t: Limiter, events: seq<Event>, p: Policy, q: Policy, from: int, key: string)
    requires l.Steady() && Ordered(events, from) && Settled(s, from) && Settled(t, from)
    requires Alike(l, s, t, key, from)
    ensures AnswersTo(events, Answers(l, s, events, p), key) == Answers(l, t, Only(events, key), q)
    decreases events
  {
    if events != [] {
      var e := events[0];
      var s' := Step(l, s, e, p).0;
      StepEffect(l, s, e, p, from, key);
      assert Answers(l, s, events, p)[1..] == Answers(l, s', events[1..], p);
      if e.key == key {
        StepIsDecidedByAvailable(l, s, t, e, p, q, from);
        StepKeepsAlike(l, s, t, e, p, q, from, key);
        StepEffect(l, t, e, q, from, key);
        assert Only(events, key) == [e] + Only(events[1..], key);
        assert Only(events, key)[1..] == Only(events[1..], key);
        KeysAreIsolated(l, s', Step(l, t, e, q).0, events[1..], p, q, e.at, key);
      } else {
        AlikeLater(l, s, t, key, from, e.at);
        assert Only(events, key) == Only(events[1..], key);
        KeysAreIsolated(l, s', t, events[1..], p, q, e.at, key);
      }
    }
  }

  // -- Rate bound --------------------------------------------------------

  /** Tokens admitted for `key` over a run. */
  function Admitted(events: seq<Event>, answers: seq<Answer>, key: string): real
    requires |events| == |answers|
  {
    if events == [] then 0.0
    else
      Spent(events[0], answers[0], key) + Admitted(events[1..], answers[1..], key)
  }

  ghost predicate NoRefunds(events: seq<Event>, key: string) {
    forall e :: e in events && e.AllowCall? && e.key == key ==> e.n >= 0
  }

  /** One step spends no more than the balance it found plus what flowed in since. */
  lemma StepBalance(l: Limits, s: Limiter, e: Event, p: Policy, from: int, key: string)
    requires l.Steady() && Settled(s, from) && from <= e.at && (e.AllowCall? && e.key == key ==> e.n >= 0)
    requires Available(l, s, key, from) <= l.burst
    ensures var (s', a) := Step(l, s, e, p);
            && Settled(s', e.at)
            && Available(l, s', key, e.at) + Spent(e, a, key) <= Available(l, s, key, from) + l.gain(e.at - from)
            && 0.0 <= Available(l, s', key, e.at) <= l.burst
  {
    AvailableLater(l, s, key, from, e.at);
    StepEffect(l, s, e, p, from, key);
    AvailableIsNonNegative(l, Step(l, s, e, p).0, key, e.at);
  }

  /** Admitted tokens plus what is left never exceed what there was plus what flowed in. */
  lemma {:induction false} TokensAreConserved(
    l: Limits, s: Limiter, events: seq<Event>, p: Policy, from: int, key: string)
    requires l.Steady() && events != [] && Ordered(events, from) && Settled(s, from) && NoRefunds(events, key)
    requires Available(l, s, key, from) <= l.burst
    ensures Admitted(events, Answers(l, s, events, p), key)
            <= Available(l, s, key, from) + l.gain(events[|events| - 1].at - from)
    decreases events
  {
    var e, last := events[0], events[|events| - 1];
    var (s', a) := Step(l, s, e, p);
    StepBalance(l, s, e, p, from, key);
    assert Answers(l, s, events, p)[1..] == Answers(l, s', events[1..], p);
    if |events| > 1 {
      TokensAreConserved(l, s', events[1..], p, e.at, key);
      assert events[1..][|events| - 2] == last;
      assert l.Sums(e.at - from, last.at - e.at);
      assert e.at - from + (last.at - e.at) == last.at - from;
    }
  }

  lemma {:induction false} OrderedWindow(events: seq<Event>, from: int, i: nat, j: nat)
    requires Ordered(events, from) && i <= j <= |events|
    ensures Ordered(events[i..j], if i == 0 then from else events[i - 1].at)
    ensures forall k :: i <= k < j ==> (if i == 0 then from else events[i - 1].at) <= events[k].at
  {
    if i > 0 {
      var rest := events[1..];
      OrderedWindow(rest, events[0].at, i - 1, j - 1);
      assert forall k :: i <= k < j ==> events[k] == rest[k - 1];
      assert rest[i - 1..j - 1] == events[i..j];
    } else if j > 0 {
      OrderedWindow(events[1..], events[0].at, 0, j - 1);
      assert events[0..j][1..] == events[1..][0..j - 1];
      assert forall k :: 1 <= k < j ==> events[k] == events[1..][k - 1];
    }
  }

  /** Running a prefix and then the rest answers the rest as in the whole run. */
  lemma {:induction false} RunSplits(l: Limits, s: Limiter, events: seq<Event>, p: Policy, from: int, i: nat,
                                     key: string)
    requires l.Steady() && Ordered(events, from) && Settled(s, from) && NoRefunds(events, key) && i <= |events|
    requires Available(l, s, key, from) <= l.burst
    ensures var s' := Run(l, s, events[..i], p);
            var now := if i == 0 then from else events[i - 1].at;
            && Settled(s', now)
            && Available(l, s', key, now) <= l.burst
            && Answers(l, s, events, p)[i..] == Answers(l, s', events[i..], p)
    decreases events
  {
    if i > 0 {
      var e := events[0];
      AvailableLater(l, s, key, from, e.at);
      StepEffect(l, s, e, p, from, key);
      RunSplits(l, Step(l, s, e, p).0, events[1..], p, e.at, i - 1, key);
      assert events[..i][1..] == events[1..][..i - 1];
      assert events[1..][i - 1..] == events[i..];
    }
  }

  lemma {:induction false} AnswersOfPrefix(l: Limits, s: Limiter, events: seq<Event>, p: Policy, n: nat)
    requires l.Steady() && n <= |events|
    ensures Answers(l, s, events, p)[..n] == Answers(l, s, events[..n], p)
    decreases events
  {
    if n > 0 {
      AnswersOfPrefix(l, Step(l, s, events[0], p).0, events[1..], p, n - 1);
      assert events[..n][1..] == events[1..][..n - 1];
    }
  }

  /** A window of a run is itself a run, from a state holding at most a full bucket. */
  lemma WindowIsARun(l: Limits, events: seq<Event>, p: Policy, from: int, key: string, i: nat, j: nat)
    requires l.Steady() && Ordered(events, from) && NoRefunds(events, key) && i < j <= |events|
    ensures var s, window, start := Run(l, FRESH, events[..i], p), events[i..j], events[i].at;
            && Answers(l, FRESH, events, p)[i..j] == Answers(l, s, window, p)
            && Settled(s, start) && Available(l, s, key, start) <= l.burst && Ordered(window, start)
  {
    var s, now := Run(l, FRESH, events[..i], p), if i == 0 then from else events[i - 1].at;
    RunSplits(l, FRESH, events, p, from, i, key);
    AnswersOfPrefix(l, s, events[i..], p, j - i);
    assert events[i..][..j - i] == events[i..j];
    assert Answers(l, FRESH, events, p)[i..j] == Answers(l, FRESH, events, p)[i..][..j - i];
    OrderedWindow(events, from, i, j);
    AvailableLater(l, s, key, now, events[i].at);
  }

  /** In every window of every run, a key is admitted at most burst plus what refills in the window. */
  lemma RateBound(l: Limits, events: seq<Event>, p: Policy, from: int, key: string, i: nat, j: nat)
    requires l.Steady() && Ordered(events, from) && NoRefunds(events, key) && i < j <= |events|
    ensures Admitted(events[i..j], Answers(l, FRESH, events, p)[i..j], key)
            <= l.burst + l.gain(events[j - 1].at - events[i].at)
  {
    WindowIsARun(l, events, p, from, key, i, j);
    TokensAreConserved(l, Run(l, FRESH, events[..i], p), events[i..j], p, events[i].at, key);
  }

  /** In figures: a limiter of `perHour` admits a key at most `perHour` at once and as many an hour after. */
  lemma HourlyRateBound(perHour: int, events: seq<Event>, p: Policy, from: int, key: string, i: nat, j: nat)
    requires perHour >= 1 && Ordered(events, from) && NoRefunds(events, key) && i < j <= |events|
    ensures Admitted(events[i..j], Answers(HourlyLimits(perHour), FRESH, events, p)[i..j], key)
            <= perHour as real + (events[j - 1].at - events[i].at) as real / SECOND as real * (perHour as real / 3600.0)
  {
    hide *;
    ConfiguredLimitsAreSteady(perHour);
    HourlyFigures(perHour, events[j - 1].at - events[i].at);
    RateBound(HourlyLimits(perHour), events, p, from, key, i, j);
  }

  /** And one of `perMinute` at most `perMinute` at once and as many a minute after. */
  lemma MinuteRateBound(perMinute: int, events: seq<Event>, p: Policy, from: int, key: string, i: nat, j: nat)
    requires perMinute >= 1 && Ordered(events, from) && NoRefunds(events, key) && i < j <= |events|
    ensures Admitted(events[i..j], Answers(MinuteLimits(perMinute), FRESH, events, p)[i..j], key)
            <= perMinute as real
               + (events[j - 1].at - events[i].at) as real / SECOND as real * (perMinute as real / 60.0)
  {
    hide *;
    ConfiguredLimitsAreSteady(perMinute);
    MinuteFigures(perMinute, events[j - 1].at - events[i].at);
    RateBound(MinuteLimits(perMinute), events, p, from, key, i, j);
  }

  /** A bucket is dropped a second after it is full, so an hour and a second after it was last used. */
  lemma HourlyFigures(perHour: int, nanos: int)
    requires perHour >= 1
    ensures HourlyLimits(perHour).burst == perHour as real
    ensures HourlyLimits(perHour).gain(nanos) == nanos as real / SECOND as real * (perHour as real / 3600.0)
    ensures HourlyLimits(perHour).idle == 3601 * SECOND
  {
    TimeToFill(perHour, 3600);
  }

  lemma MinuteFigures(perMinute: int, nanos: int)
    requires perMinute >= 1
    ensures MinuteLimits(perMinute).burst == perMinute as real
    ensures MinuteLimits(perMinute).gain(nanos) == nanos as real / SECOND as real * (perMinute as real / 60.0)
    ensures MinuteLimits(perMinute).idle == 61 * SECOND
  {
    TimeToFill(perMinute, 60);
  }

  lemma TimeToFill(n: int, secs: int)
    requires n >= 1 && secs >= 1
    ensures n as real / (n as real / secs as real) * SECOND as real == (secs * SECOND) as real
  {
    var rate := n as real / secs as real;
    var t := n as real / rate;
    assert rate * secs as real == n as real && rate > 0.0;
    assert t * rate == n as real;
    assert (t - secs as real) * rate == 0.0;
    assert t == secs as real;
  }

  /** A charge above the burst is never admitted, whatever wait RetryAfterN reports for it. */
  lemma OversizedNeverAdmitted(l: Limits, events: seq<Event>, p: Policy, from: int, key: string, i: nat)
    requires l.Steady() && Ordered(events, from) && NoRefunds(events, key) && i < |events|
    requires events[i].AllowCall? && events[i].key == key && events[i].n as real > l.burst
    ensures Answers(l, FRESH, events, p)[i] == Decision(false)
  {
    var s := Run(l, FRESH, events[..i], p);
    var now := if i == 0 then from else events[i - 1].at;
    RunSplits(l, FRESH, events, p, from, i, key);
    OrderedWindow(events, from, i, i + 1);
    AvailableLater(l, s, key, now, events[i].at);
    ChargeEffect(l, s, key, events[i].n, events[i].at, p(s.calls + 1), key);
    assert Answers(l, FRESH, events, p)[i] == Answers(l, FRESH, events, p)[i..][0];
  }

  // -- Retry-After -------------------------------------------------------

  /** Nothing in a run is admitted for `key`. */
  ghost predicate NothingAdmitted(events: seq<Event>, answers: seq<Answer>, key: string)
    requires |events| == |answers|
  {
    forall i :: 0 <= i < |events| && events[i].AllowCall? && events[i].key == key ==> answers[i] == Decision(false)
  }

  lemma {:induction false} UnspentBalanceOnlyRefills(
    l: Limits, s: Limiter, events: seq<Event>, p: Policy, from: int, key: string, now: int)
    requires l.Steady() && Ordered(events, from) && Settled(s, from)
    requires NothingAdmitted(events, Answers(l, s, events, p), key)
    requires from <= now && (events != [] ==> events[|events| - 1].at <= now)
    ensures Settled(Run(l, s, events, p), now)
    ensures Available(l, Run(l, s, events, p), key, now) == Available(l, s, key, now)
    decreases events
  {
    if events != [] {
      var e, rest := events[0], events[1..];
      var s' := Step(l, s, e, p).0;
      var answers := Answers(l, s, events, p);
      assert answers[1..] == Answers(l, s', rest, p);
      assert NothingAdmitted(rest, answers[1..], key) by {
        forall i | 0 <= i < |rest| && rest[i].AllowCall? && rest[i].key == key
          ensures answers[1..][i] == Decision(false)
        {
          assert events[i + 1] == rest[i];
        }
      }
      AvailableLater(l, s, key, from, e.at);
      StepEffect(l, s, e, p, from, key);
      OrderedWindow(rest, e.at, 0, |rest|);
      assert rest != [] ==> rest[|rest| - 1] == events[|events| - 1];
      UnspentBalanceOnlyRefills(l, s', rest, p, e.at, key, now);
      assert Settled(s, e.at);
      AvailableLater(l, s, key, e.at, now);
      AvailableLater(l, s', key, e.at, now);
    }
  }

  lemma MinuteRefill(perMinute: int, nanos: int, n: int)
    requires perMinute >= 1
    ensures MinuteLimits(perMinute).gain(nanos) >= n as real <==> nanos * perMinute >= n * 60 * SECOND
  {
    var secs := nanos as real / SECOND as real;
    assert secs * SECOND as real == nanos as real;
    assert secs * (perMinute as real / 60.0) * 60.0 * SECOND as real == nanos as real * perMinute as real;
    assert nanos as real * perMinute as real == (nanos * perMinute) as real;
  }

  lemma HourlyRefill(perHour: int, nanos: int, n: int)
    requires perHour >= 1
    ensures HourlyLimits(perHour).gain(nanos) >= n as real <==> nanos * perHour >= n * 3600 * SECOND
  {
    var secs := nanos as real / SECOND as real;
    assert secs * SECOND as real == nanos as real;
    assert secs * (perHour as real / 3600.0) * 3600.0 * SECOND as real == nanos as real * perHour as real;
    assert nanos as real * perHour as real == (nanos * perHour) as real;
  }

  /** A key that took its whole burst is empty, whatever is asked for under other keys, until tokens
      flow in. */
  lemma DrainedKeyRefills(
    l: Limits, key: string, burst: int, n: int, now: int, events: seq<Event>, p: Policy, later: int)
    requires l.Steady() && l.burst == burst as real && 1 <= n <= burst
    requires Ordered(events, now) && now <= later && (events != [] ==> events[|events| - 1].at <= later)
    requires NothingAdmitted(events, Answers(l, Charge(l, FRESH, key, burst, now, p(1)).0, events, p), key)
    ensures Charge(l, FRESH, key, burst, now, p(1)).1
    ensures var s := Run(l, Charge(l, FRESH, key, burst, now, p(1)).0, events, p);
            Charge(l, s, key, n, later, p(s.calls + 1)).1 <==> l.gain(later - now) >= n as real
  {
    var drained := Charge(l, FRESH, key, burst, now, p(1)).0;
    ChargeEffect(l, FRESH, key, burst, now, p(1), key);
    UnspentBalanceOnlyRefills(l, drained, events, p, now, key, later);
    AvailableLater(l, drained, key, now, later);
    var s := Run(l, drained, events, p);
    ChargeEffect(l, s, key, n, later, p(s.calls + 1), key);
    assert l.Sums(0, 0);
  }

  /** In figures: after `perMinute` at once, `n` more are admitted from `n` of the `perMinute` parts of a
      minute on, and not before; so all of them after a minute. */
  lemma MinuteRefillIff(
    perMinute: int, key: string, n: int, now: int, events: seq<Event>, p: Policy, later: int)
    requires 1 <= n <= perMinute
    requires Ordered(events, now) && now <= later && (events != [] ==> events[|events| - 1].at <= later)
    requires var l := MinuteLimits(perMinute);
             NothingAdmitted(events, Answers(l, Charge(l, FRESH, key, perMinute, now, p(1)).0, events, p), key)
    ensures var l := MinuteLimits(perMinute);
            var (drained, ok) := Charge(l, FRESH, key, perMinute, now, p(1));
            var s := Run(l, drained, events, p);
            ok && (Charge(l, s, key, n, later, p(s.calls + 1)).1 <==> (later - now) * perMinute >= n * 60 * SECOND)
  {
    hide *;
    ConfiguredLimitsAreSteady(perMinute);
    MinuteFigures(perMinute, 0);
    DrainedKeyRefills(MinuteLimits(perMinute), key, perMinute, n, now, events, p, later);
    MinuteRefill(perMinute, later - now, n);
  }

  lemma HourlyRefillIff(
    perHour: int, key: string, n: int, now: int, events: seq<Event>, p: Policy, later: int)
    requires 1 <= n <= perHour
    requires Ordered(events, now) && now <= later && (events != [] ==> events[|events| - 1].at <= later)
    requires var l := HourlyLimits(perHour);
             NothingAdmitted(events, Answers(l, Charge(l, FRESH, key, perHour, now, p(1)).0, events, p), key)
    ensures var l := HourlyLimits(perHour);
            var (drained, ok) := Charge(l, FRESH, key, perHour, now, p(1));
            var s := Run(l, drained, events, p);
            ok && (Charge(l, s, key, n, later, p(s.calls + 1)).1 <==> (later - now) * perHour >= n * 3600 * SECOND)
  {
    hide *;
    ConfiguredLimitsAreSteady(perHour);
    HourlyFigures(perHour, 0);
    DrainedKeyRefills(HourlyLimits(perHour), key, perHour, n, now, events, p, later);
    HourlyRefill(perHour, later - now, n);
  }

  /** After a denial, the exact wait is when the same call starts being admitted, whatever other
      keys do meanwhile; the reported nanoseconds are at most one short of it. */
  lemma RetryAfterIsTheTrueWait(
    l: Limits, s: Limiter, key: string, n: int, now: int, events: seq<Event>, p: Policy, later: int)
    requires l.Steady() && Settled(s, now) && n as real <= l.burst
    requires !Charge(l, s, key, n, now, p(s.calls + 1)).1
    requires var denied := Charge(l, s, key, n, now, p(s.calls + 1)).0;
             Ordered(events, now) && NothingAdmitted(events, Answers(l, denied, events, p), key)
    requires now <= later && (events != [] ==> events[|events| - 1].at <= later)
    ensures var denied := Charge(l, s, key, n, now, p(s.calls + 1)).0;
            var wait := ExactWait(l, denied, key, n, now);
            var told := RetryAfterN(l, denied, key, n, now);
            var afterwards := Run(l, denied, events, p);
            && (Charge(l, afterwards, key, n, later, p(afterwards.calls + 1)).1 <==> (later - now) as real >= wait)
            && wait > 0.0 && 0 <= told && told as real <= wait < told as real + 1.0
  {
    ChargeEffect(l, s, key, n, now, p(s.calls + 1), key);
    var denied := Charge(l, s, key, n, now, p(s.calls + 1)).0;
    var later' := Run(l, denied, events, p);
    UnspentBalanceOnlyRefills(l, denied, events, p, now, key, later);
    ChargeEffect(l, later', key, n, later, p(later'.calls + 1), key);
    AvailableLater(l, denied, key, now, later);
    var missing := n as real - Available(l, denied, key, now);
  }

  /** Coming back exactly when the header says is admitted, unless the wait was a whole number of
      seconds plus a fraction of a nanosecond that truncation dropped. */
  lemma HeaderWaitIsEnoughIff(l: Limits, s: Limiter, key: string, n: int, now: int, p: Policy)
    requires l.Steady() && Settled(s, now) && n as real <= l.burst
    requires !Charge(l, s, key, n, now, p(s.calls + 1)).1
    ensures var denied := Charge(l, s, key, n, now, p(s.calls + 1)).0;
            var wait, told := ExactWait(l, denied, key, n, now), RetryAfterN(l, denied, key, n, now);
            Charge(l, denied, key, n, now + RetryAfterSeconds(told) * SECOND, p(denied.calls + 1)).1
            <==> told % SECOND != 0 || told == 0 || wait == told as real
  {
    var denied := Charge(l, s, key, n, now, p(s.calls + 1)).0;
    var wait, told := ExactWait(l, denied, key, n, now), RetryAfterN(l, denied, key, n, now);
    var secs := RetryAfterSeconds(told);
    RetryAfterIsTheTrueWait(l, s, key, n, now, [], p, now + secs * SECOND);
    if told % SECOND != 0 || told == 0 {
      assert secs * SECOND >= told + 1;
    } else {
      var whole := told / SECOND;
      assert whole * SECOND == told && whole >= 1;
      assert !(1 <= whole < secs);
    }
  }

  /** The failing case is reachable: seven an hour, drained at once, then asked again a second
      and a fraction of a nanosecond before the next token is due. */
  lemma HeaderWaitCanFallShort()
    ensures var l := HourlyLimits(7);
            var t := 513_285_714_285;
            var s := Charge(l, FRESH, "k", 7, 0, false).0;
            var (denied, ok) := Charge(l, s, "k", 1, t, false);
            && !ok
            && RetryAfterSeconds(RetryAfterN(l, denied, "k", 1, t)) == 1
            && !Charge(l, denied, "k", 1, t + SECOND, false).1
  {
    var l := HourlyLimits(7);
    var t := 513_285_714_285;
    var s := Charge(l, FRESH, "k", 7, 0, false).0;
    assert s.buckets["k"] == Bucket(0.0, 0);
    var tokens := l.gain(t);
    assert tokens == 3_592_999_999_995.0 / 3_600_000_000_000.0;
    var denied := Charge(l, s, "k", 1, t, false).0;
    assert denied.buckets["k"] == Bucket(tokens, t);
    assert l.gain(SECOND) == 7.0 / 3600.0;
    assert l.waitFor(1.0 - tokens) == 7_000_000_005.0 / 7.0;
    assert (7_000_000_005.0 / 7.0).Floor == 1_000_000_000;
  }

  // -- The limiter itself --------------------------------------------------

  class RateLimiter {
    const rate: real
    const burst: real
    var buckets: Buckets
    var calls: int

    ghost predicate Valid() {
      rate > 0.0 && burst > 0.0
    }

    function Limits(): Limits
      requires Valid()
    {
      Flow(rate, burst)
    }

    function State(): Limiter
      reads this
    {
      Limiter(buckets, calls)
    }

    constructor PerHour(perHour: int)
      requires perHour >= 1
      ensures Valid() && Limits() == HourlyLimits(perHour) && State() == FRESH
    {
      rate, burst := perHour as real / 3600.0, perHour as real;
      buckets, calls := map[], 0;
    }

    constructor PerMinute(perMinute: int)
      requires perMinute >= 1
      ensures Valid() && Limits() == MinuteLimits(perMinute) && State() == FRESH
    {
      rate, burst := perMinute as real / 60.0, perMinute as real;
      buckets, calls := map[], 0;
    }

    method AllowN(key: string, n: int, now: int) returns (ok: bool)
      requires Valid()
      modifies this
      ensures (State(), ok) == Charge(Limits(), old(State()), key, n, now, EveryPruneEvery(old(calls) + 1))
    {
      calls := calls + 1;
      if calls % PRUNE_EVERY == 0 {
        PruneIdle(now);
      }
      ghost var swept := buckets;
      if key !in buckets {
        buckets := buckets[key := Bucket(burst, now)];
      }
      var b := buckets[key];
      if now - b.last > 0 {
        assert Limits().gain(now - b.last) == (now - b.last) as real / SECOND as real * rate;
        var tokens := b.tokens + (now - b.last) as real / SECOND as real * rate;
        if tokens > burst {
          tokens := burst;
        }
        b := Bucket(tokens, now);
        buckets := buckets[key := b];
      }
      if b.tokens < n as real {
        assert buckets == swept[key := b];
        return false;
      }
      buckets := buckets[key := b.(tokens := b.tokens - n as real)];
      assert buckets == swept[key := Bucket(b.tokens - n as real, b.last)];
      return true;
    }

    method RetryAfter(key: string, n: int, now: int) returns (wait: int)
      requires Valid()
      ensures wait == RetryAfterN(Limits(), State(), key, n, now)
    {
      if key !in buckets {
        return 0;
      }
      var tokens := buckets[key].tokens;
      if now - buckets[key].last > 0 {
        assert Limits().gain(now - buckets[key].last) == (now - buckets[key].last) as real / SECOND as real * rate;
        tokens := tokens + (now - buckets[key].last) as real / SECOND as real * rate;
        if tokens > burst {
          tokens := burst;
        }
      }
      var need := n as real;
      if need > burst {
        need := burst;
      }
      if tokens >= need {
        return 0;
      }
      assert Limits().waitFor(need - tokens) == (need - tokens) / rate * SECOND as real;
      return ((need - tokens) / rate * SECOND as real).Floor;
    }

    /** Drops every bucket idle long enough to have refilled completely. */
    method PruneIdle(now: int)
      requires Valid()
      modifies this`buckets
      ensures buckets == Prune(Limits(), old(buckets), now)
    {
      var idle := (burst / rate * SECOND as real).Floor + SECOND;
      var pending := buckets.Keys;
      while pending != {}
        invariant pending <= old(buckets).Keys
        invariant buckets == map k | k in old(buckets) &&
                                     (k in pending || now - old(buckets)[k].last <= idle) :: old(buckets)[k]
        decreases pending
      {
        var k :| k in pending;
        if now - buckets[k].last > idle {
          buckets := buckets - {k};
        }
        pending := pending - {k};
      }
    }
  }
}
