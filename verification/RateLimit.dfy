/** Token buckets per subject with background reaping (internal/auth/ratelimit.go).
    Tokens are exact reals and instants are real seconds; the advised wait is cut
    to whole nanoseconds as the source's duration is. */
module RateLimit {

  const IDLE_TTL: real := 1800.0
  const IP_RATE: real := 20.0
  const IP_BURST: real := 40.0
  const BURST_FACTOR: real := 2.0
  const SECOND: int := 1_000_000_000

  datatype Bucket = Bucket(tokens: real, last: real)

  type Buckets = map<string, Bucket>

  datatype Verdict = Verdict(ok: bool, wait: int)

  // ----- one call

  /** Tokens that flow in over a spell of `elapsed` seconds. */
  function Supply(elapsed: real, rate: real): real {
    elapsed * rate
  }

  /** Tokens on hand at `now`, before the call takes one. */
  function Refilled(b: Bucket, rate: real, burst: real, now: real): real {
    var t := b.tokens + Supply(now - b.last, rate);
    if t > burst then burst else t
  }

  /** Tokens the subject has at `now`; a subject without a bucket starts full. */
  function OnHand(m: Buckets, key: string, rate: real, burst: real, now: real): real {
    Refilled(if key in m then m[key] else Bucket(burst, now), rate, burst, now)
  }

  function WaitFor(tokens: real, rate: real): int
    requires rate > 0.0
  {
    ((1.0 - tokens) / rate * SECOND as real).Floor
  }

  /** The time in whole nanoseconds until `tokens` have grown to one. */
  predicate IsWait(wait: int, tokens: real, rate: real)
    requires rate > 0.0
  {
    wait as real <= (1.0 - tokens) / rate * 1000000000.0 < wait as real + 1.0
  }

  function Decide(tokens: real, rate: real): Verdict
    requires rate > 0.0
  {
    if tokens >= 1.0 then Verdict(true, 0) else Verdict(false, WaitFor(tokens, rate))
  }

  function AfterCall(m: Buckets, key: string, rate: real, burst: real, now: real): Buckets {
    var t := OnHand(m, key, rate, burst, now);
    m[key := Bucket(if t >= 1.0 then t - 1.0 else t, now)]
  }

  function AfterReap(m: Buckets, now: real): Buckets {
    map k | k in m && !(now - m[k].last > IDLE_TTL) :: m[k]
  }

  class Limiter {
    var buckets: Buckets

    constructor ()
      ensures buckets == map[]
    {
      buckets := map[];
    }

    method Reap(now: real)
      modifies this
      ensures forall k :: k in buckets <==> k in old(buckets) && now - old(buckets)[k].last <= 1800.0
      ensures forall k :: k in buckets ==> buckets[k] == old(buckets)[k]
      ensures buckets == AfterReap(old(buckets), now)
    {
      var keys := buckets.Keys;
      while keys != {}
        invariant keys <= buckets.Keys <= old(buckets).Keys
        invariant forall k :: k in buckets ==> buckets[k] == old(buckets)[k]
        invariant forall k :: k in old(buckets) && k !in keys ==>
                    (k in buckets <==> !(now - old(buckets)[k].last > IDLE_TTL))
        decreases |keys|
      {
        var k :| k in keys;
        var b := buckets[k];
        if now - b.last > IDLE_TTL {
          buckets := buckets - {k};
        }
        keys := keys - {k};
      }
      assert buckets == AfterReap(old(buckets), now);
    }

    method Allow(key: string, rate: real, burst: real, now: real) returns (ok: bool, wait: int)
      requires rate > 0.0
      modifies this
      ensures ok <==> OnHand(old(buckets), key, rate, burst, now) >= 1.0
      ensures ok ==> wait == 0
      ensures !ok ==> IsWait(wait, OnHand(old(buckets), key, rate, burst, now), rate)
      ensures Verdict(ok, wait) == Decide(OnHand(old(buckets), key, rate, burst, now), rate)
      ensures buckets == AfterCall(old(buckets), key, rate, burst, now)
    {
      if key !in buckets {
        buckets := buckets[key := Bucket(burst, now)];
      }
      var b := buckets[key];
      b := b.(tokens := b.tokens + Supply(now - b.last, rate));
      if b.tokens > burst {
        b := b.(tokens := burst);
      }
      b := b.(last := now);
      if b.tokens >= 1.0 {
        b := b.(tokens := b.tokens - 1.0);
        buckets := buckets[key := b];
        return true, 0;
      }
      buckets := buckets[key := b];
      wait := WaitFor(b.tokens, rate);
      return false, wait;
    }
  }

  /** What a call is answered: ok without wait if and only if at least one token is on
      hand, and otherwise a refusal with the time until there is one. */
  lemma VerdictIs(m: Buckets, key: string, rate: real, burst: real, now: real)
    requires rate > 0.0
    ensures var tokens, v := OnHand(m, key, rate, burst, now), Decide(OnHand(m, key, rate, burst, now), rate);
      && (v.ok <==> tokens >= 1.0)
      && (v.ok ==> v.wait == 0)
      && (!v.ok ==> IsWait(v.wait, tokens, rate))
  {
  }

  /** What is on hand: a new subject has its burst, any other what it had and the refill
      since its last call, but no more than the burst. */
  lemma OnHandIs(m: Buckets, key: string, rate: real, burst: real, now: real)
    ensures key !in m ==> OnHand(m, key, rate, burst, now) == burst
    ensures key in m ==>
      var full := m[key].tokens + (now - m[key].last) * rate;
      OnHand(m, key, rate, burst, now) == if full <= burst then full else burst
  {
    assert Supply(now - now, rate) == 0.0;
  }

  /** What is left: one token less after an answer of ok, and the time of the call. */
  lemma LeftIs(m: Buckets, key: string, rate: real, burst: real, now: real)
    requires rate > 0.0
    ensures var tokens, b := OnHand(m, key, rate, burst, now), AfterCall(m, key, rate, burst, now);
      key in b && b[key] == Bucket(if Decide(tokens, rate).ok then tokens - 1.0 else tokens, now)
  {
  }

  // ----- runs

  datatype Event =
    | Call(key: string, rate: real, burst: real, now: real)
    | Reap(now: real)

  /** Positive rate, and an idle spell long enough to be reaped refills the burst. */
  predicate Admissible(e: Event) {
    e.Call? ==> e.rate > 0.0 && 0.0 <= e.burst <= IDLE_TTL * e.rate
  }

  ghost predicate Run(evs: seq<Event>) {
    forall i :: 0 <= i < |evs| ==> Admissible(evs[i])
  }

  /** The clock after an event; a reap may carry the time of a tick long past. */
  function Clock(from: real, e: Event): real {
    if e.now < from then from else e.now
  }

  /** The clock starts at `from`, and no call reads it going back. */
  ghost predicate Monotone(evs: seq<Event>, from: real) {
    evs != [] ==> (evs[0].Call? ==> from <= evs[0].now) && Monotone(evs[1..], Clock(from, evs[0]))
  }

  function ClockAfter(from: real, evs: seq<Event>): real
    decreases |evs|
  {
    if evs == [] then from else ClockAfter(Clock(from, evs[0]), evs[1..])
  }

  function Step(m: Buckets, e: Event): Buckets {
    match e
    case Call(key, rate, burst, now) => AfterCall(m, key, rate, burst, now)
    case Reap(now) => AfterReap(m, now)
  }

  function Exec(m: Buckets, evs: seq<Event>): Buckets
    decreases |evs|
  {
    if evs == [] then m else Exec(Step(m, evs[0]), evs[1..])
  }

  /** The verdicts the calls of a run receive, in order. */
  ghost function Verdicts(m: Buckets, evs: seq<Event>): seq<Verdict>
    requires Run(evs)
    decreases |evs|
  {
    if evs == [] then []
    else
      var rest := Verdicts(Step(m, evs[0]), evs[1..]);
      match evs[0]
      case Call(key, rate, burst, now) => [Decide(OnHand(m, key, rate, burst, now), rate)] + rest
      case Reap(_) => rest
  }

  /** Each call of a run is answered from the state the events before it left. */
  lemma {:induction false} VerdictsGrow(m: Buckets, evs: seq<Event>, e: Event)
    requires Run(evs) && Run(evs + [e])
    ensures Admissible(e)
    ensures Verdicts(m, evs + [e]) == Verdicts(m, evs) +
      if e.Reap? then [] else [Decide(OnHand(Exec(m, evs), e.key, e.rate, e.burst, e.now), e.rate)]
    ensures Exec(m, evs + [e]) == Step(Exec(m, evs), e)
    decreases |evs|
  {
    hide OnHand, Decide, Step;
    var all := evs + [e];
    assert Admissible(all[|evs|]);
    if evs == [] {
      assert all == [e] && all[1..] == [];
    } else {
      assert Admissible(evs[0]);
      assert all[0] == evs[0] && all[1..] == evs[1..] + [e];
      VerdictsGrow(Step(m, evs[0]), evs[1..], e);
    }
  }

  function WithoutReaps(evs: seq<Event>): seq<Event> {
    if evs == [] then []
    else if evs[0].Reap? then WithoutReaps(evs[1..])
    else [evs[0]] + WithoutReaps(evs[1..])
  }

  lemma SupplyNonnegative(x: real, y: real)
    requires x >= 0.0 && y >= 0.0
    ensures Supply(x, y) >= 0.0
  {
  }

  lemma SupplyGrows(x: real, x': real, y: real)
    requires x <= x' && y >= 0.0
    ensures Supply(x, y) <= Supply(x', y)
  {
    SupplyNonnegative(x' - x, y);
    assert Supply(x', y) == Supply(x' - x, y) + Supply(x, y);
  }

  lemma Split(a: real, b: real, c: real, rate: real)
    ensures Supply(a - b, rate) + Supply(b - c, rate) == Supply(a - c, rate)
  {
  }

  // ----- reaping is invisible

  /** No bucket is in debt or ahead of the clock. */
  ghost predicate Sound(m: Buckets, now: real) {
    forall k :: k in m ==> m[k].tokens >= 0.0 && m[k].last <= now
  }

  /** `m` is `n` with some buckets missing that have been idle for the whole TTL. */
  ghost predicate Reaped(m: Buckets, n: Buckets, now: real) {
    && m.Keys <= n.Keys
    && (forall k :: k in m ==> m[k] == n[k])
    && (forall k :: k in n && k !in m ==> now - n[k].last > IDLE_TTL)
  }

  lemma IdleRefills(b: Bucket, rate: real, burst: real, now: real)
    requires b.tokens >= 0.0 && rate > 0.0 && burst <= IDLE_TTL * rate
    requires now - b.last > IDLE_TTL
    ensures Refilled(b, rate, burst, now) == burst
  {
    SupplyGrows(IDLE_TTL, now - b.last, rate);
    assert Supply(IDLE_TTL, rate) == IDLE_TTL * rate;
  }

  lemma SameOnHand(m: Buckets, n: Buckets, e: Event, now: real)
    requires e.Call? && Admissible(e) && Reaped(m, n, now) && Sound(n, now) && now <= e.now
    ensures OnHand(m, e.key, e.rate, e.burst, e.now) == OnHand(n, e.key, e.rate, e.burst, e.now)
  {
    if e.key in n && e.key !in m {
      IdleRefills(n[e.key], e.rate, e.burst, e.now);
    }
  }

  lemma CallKeepsSound(m: Buckets, e: Event, now: real)
    requires e.Call? && Admissible(e) && Sound(m, now) && now <= e.now
    ensures Sound(Step(m, e), e.now)
  {
    if e.key in m {
      NoDebt(m[e.key], e.rate, e.burst, e.now);
    }
  }

  lemma NoDebt(b: Bucket, rate: real, burst: real, now: real)
    requires b.tokens >= 0.0 && b.last <= now && rate >= 0.0 && burst >= 0.0
    ensures Refilled(b, rate, burst, now) >= 0.0
  {
    SupplyNonnegative(now - b.last, rate);
  }

  /** Reaping at any moments, with tick times however late they are acted on, changes
      no verdict of any run whose calls read a clock that does not go back: the two
      limiters answer every call alike. */
  lemma {:induction false} ReapingIsInvisibleFrom(m: Buckets, n: Buckets, evs: seq<Event>, now: real)
    requires Reaped(m, n, now) && Sound(n, now) && Monotone(evs, now)
    requires Run(evs) && Run(WithoutReaps(evs))
    ensures Verdicts(m, evs) == Verdicts(n, WithoutReaps(evs))
    decreases |evs|
  {
    if evs != [] {
      var e, rest := evs[0], evs[1..];
      assert Admissible(e);
      if e.Reap? {
        ReapingIsInvisibleFrom(AfterReap(m, e.now), n, rest, Clock(now, e));
      } else {
        var clean := WithoutReaps(evs);
        assert clean[0] == e && clean[1..] == WithoutReaps(rest);
        SameOnHand(m, n, e, now);
        CallKeepsSound(n, e, now);
        ReapingIsInvisibleFrom(Step(m, e), Step(n, e), rest, e.now);
      }
    }
  }

  lemma {:induction false} WithoutReapsRun(evs: seq<Event>)
    requires Run(evs)
    ensures Run(WithoutReaps(evs))
  {
    if evs != [] {
      assert Admissible(evs[0]);
      WithoutReapsRun(evs[1..]);
    }
  }

  lemma ReapingIsInvisible(evs: seq<Event>, start: real)
    requires Run(evs) && Monotone(evs, start)
    ensures Run(WithoutReaps(evs))
    ensures Verdicts(map[], evs) == Verdicts(map[], WithoutReaps(evs))
  {
    WithoutReapsRun(evs);
    ReapingIsInvisibleFrom(map[], map[], evs, start);
  }

  // ----- window bound

  /** Calls of `key` use one rate and one burst, and no reap comes in between. */
  ghost predicate FixedFor(evs: seq<Event>, key: string, rate: real, burst: real) {
    forall i :: 0 <= i < |evs| ==>
      evs[i].Call? && (evs[i].key == key ==> evs[i].rate == rate && evs[i].burst == burst)
  }

  function Admits(m: Buckets, e: Event): bool
    requires e.Call?
  {
    OnHand(m, e.key, e.rate, e.burst, e.now) >= 1.0
  }

  /** How many calls of `key` a run admits. */
  ghost function Admissions(m: Buckets, evs: seq<Event>, key: string): nat
    decreases |evs|
  {
    if evs == [] then 0
    else (if evs[0].Call? && evs[0].key == key && Admits(m, evs[0]) then 1 else 0)
         + Admissions(Step(m, evs[0]), evs[1..], key)
  }

  /** The last event of the run is an admitted call of `key`. */
  ghost predicate EndsAdmitted(m: Buckets, evs: seq<Event>, key: string) {
    evs != [] &&
    var e := evs[|evs| - 1];
    e.Call? && e.key == key && Admits(Exec(m, evs[..|evs| - 1]), e)
  }

  lemma EndsAdmittedTail(m: Buckets, evs: seq<Event>, key: string)
    requires |evs| >= 2
    ensures EndsAdmitted(m, evs, key) <==> EndsAdmitted(Step(m, evs[0]), evs[1..], key)
  {
    var front := evs[..|evs| - 1];
    assert front[1..] == evs[1..][..|evs[1..]| - 1];
  }

  /** A call adds what the clock supplies and takes what it admits. */
  lemma CallSpends(m: Buckets, e: Event)
    requires e.Call?
    ensures var b := Step(m, e)[e.key];
            && b.last == e.now
            && b.tokens + Admissions(m, [e], e.key) as real == OnHand(m, e.key, e.rate, e.burst, e.now)
            && (Admits(m, e) ==> b.tokens >= 0.0)
  {
    assert [e][1..] == [];
  }

  lemma AdmissionsSplit(m: Buckets, evs: seq<Event>, key: string)
    requires evs != []
    ensures Admissions(m, evs, key) == Admissions(m, [evs[0]], key) + Admissions(Step(m, evs[0]), evs[1..], key)
  {
    assert [evs[0]][1..] == [];
  }

  /** Tokens a bucket would reach at `t` were there no cap. */
  function Projected(b: Bucket, rate: real, t: real): real {
    b.tokens + Supply(t - b.last, rate)
  }

  /** Seen from any later instant, a call costs its subject what it admits, or more
      when the burst caps the refill. */
  lemma StepProjects(m: Buckets, e: Event, key: string, rate: real, t: real)
    requires e.Call? && key in m && (e.key == key ==> e.rate == rate)
    ensures key in Step(m, e)
    ensures Projected(Step(m, e)[key], rate, t) + Admissions(m, [e], key) as real
            <= Projected(m[key], rate, t)
  {
    CallSpends(m, e);
    if e.key == key {
      Split(t, e.now, m[key].last, rate);
    } else {
      assert [e][1..] == [];
    }
  }

  /** From a subject's last call on, with timestamps in any order and no reap, a run that ends in
      an admission admits no more than the tokens held and the refill. */
  lemma {:induction false} WindowFrom(m: Buckets, evs: seq<Event>, key: string, rate: real, burst: real)
    requires FixedFor(evs, key, rate, burst) && EndsAdmitted(m, evs, key)
    requires key in m
    ensures Admissions(m, evs, key) as real <= Projected(m[key], rate, evs[|evs| - 1].now)
    decreases |evs|
  {
    var e, t := evs[0], evs[|evs| - 1].now;
    StepProjects(m, e, key, rate, t);
    if |evs| == 1 {
      assert evs[..0] == [] && evs == [e];
      CallSpends(m, e);
    } else {
      EndsAdmittedTail(m, evs, key);
      AdmissionsSplit(m, evs, key);
      WindowFrom(Step(m, e), evs[1..], key, rate, burst);
    }
  }

  /** A call behaves as if its bucket had been refilled just before. */
  lemma Prefilled(m: Buckets, e: Event) returns (full: Buckets)
    requires e.Call?
    ensures Step(full, e) == Step(m, e) && Admits(full, e) == Admits(m, e)
    ensures e.key in full && full[e.key].tokens <= e.burst
    ensures full[e.key] == Bucket(full[e.key].tokens, e.now)
  {
    full := m[e.key := Bucket(OnHand(m, e.key, e.rate, e.burst, e.now), e.now)];
    assert Supply(e.now - e.now, e.rate) == 0.0;
    assert OnHand(full, e.key, e.rate, e.burst, e.now) == OnHand(m, e.key, e.rate, e.burst, e.now);
  }

  lemma SameFirstStep(m: Buckets, n: Buckets, evs: seq<Event>, key: string)
    requires evs != [] && evs[0].Call?
    requires Step(m, evs[0]) == Step(n, evs[0]) && Admits(m, evs[0]) == Admits(n, evs[0])
    ensures Admissions(m, evs, key) == Admissions(n, evs, key)
    ensures EndsAdmitted(m, evs, key) == EndsAdmitted(n, evs, key)
  {
    if |evs| == 1 {
      assert evs[..0] == [];
    } else {
      assert evs[..|evs| - 1][0] == evs[0];
    }
  }

  /** With no reap in between, admissions from a call of `key` through a later admitted
      one are at most the burst plus what the rate supplies between their timestamps,
      in whatever order: a full bucket at the first call, projected to the last one
      without a cap. */
  lemma WindowBound(m: Buckets, evs: seq<Event>, key: string, rate: real, burst: real)
    requires FixedFor(evs, key, rate, burst) && EndsAdmitted(m, evs, key)
    requires evs[0].key == key
    ensures Admissions(m, evs, key) as real
            <= Projected(Bucket(burst, evs[0].now), rate, evs[|evs| - 1].now)
  {
    var e := evs[0];
    var full := Prefilled(m, e);
    SameFirstStep(m, full, evs, key);
    WindowFrom(full, evs, key, rate, burst);
    AtMostFull(full[key], e.now, rate, burst, evs[|evs| - 1].now);
  }

  lemma AtMostFull(b: Bucket, now: real, rate: real, burst: real, t: real)
    requires b == Bucket(b.tokens, now) && b.tokens <= burst
    ensures Projected(b, rate, t) <= Projected(Bucket(burst, now), rate, t)
  {
  }

  /** After any call the subject holds at most its burst, and no other bucket moved. */
  lemma CallFrame(m: Buckets, key: string, rate: real, burst: real, now: real)
    ensures AfterCall(m, key, rate, burst, now)[key].tokens <= burst
    ensures forall k :: k != key ==>
      (k in m <==> k in AfterCall(m, key, rate, burst, now)) &&
      (k in m ==> m[k] == AfterCall(m, key, rate, burst, now)[k])
  {
  }

  // ----- retry advice

  /** The Retry-After value of a refusal, in seconds. */
  function RetryAfter(wait: int): (secs: int)
    ensures secs >= 1
    ensures wait >= 1_000_000_000 ==> secs * 1_000_000_000 <= wait < (secs + 1) * 1_000_000_000
    ensures wait < 1_000_000_000 ==> secs == 1
  {
    var secs := wait / SECOND;
    if secs < 1 then 1 else secs
  }

  /** The rate of a key request: the key's own, or the default when it has none. */
  function EffectiveRate(rps: int): (rate: real)
    ensures rate >= 1.0
    ensures rate == if rps >= 1 then rps as real else 20.0
  {
    if rps as real <= 0.0 then IP_RATE else rps as real
  }

  /** A bucket without debt is never refused for more than a second. */
  lemma RefusalWait(tokens: real, rate: real)
    requires rate >= 1.0 && 0.0 <= tokens < 1.0
    ensures var exact := (1.0 - tokens) / rate;
            && 0.0 < exact <= 1.0
            && WaitFor(tokens, rate) as real <= exact * SECOND as real < WaitFor(tokens, rate) as real + 1.0
            && 0 <= WaitFor(tokens, rate) <= SECOND
            && RetryAfter(WaitFor(tokens, rate)) == 1
  {
    var exact := (1.0 - tokens) / rate;
    assert exact * rate == 1.0 - tokens;
    assert exact > 1.0 ==> exact * rate > 1.0;
    assert exact > 0.0;
  }

  /** The calls the two middlewares make. */
  function IpCall(ip: string, now: real): Event {
    Call("ip:" + ip, IP_RATE, IP_BURST, now)
  }

  function KeyCall(id: string, rps: int, now: real): Event {
    Call("key:" + id, EffectiveRate(rps), EffectiveRate(rps) * BURST_FACTOR, now)
  }

  /** They allow at least a request a second, hold at least one token, and fit the reaper. */
  lemma MiddlewareCallsFit(ip: string, id: string, rps: int, now: real)
    ensures Admissible(IpCall(ip, now)) && Admissible(KeyCall(id, rps, now))
    ensures IpCall(ip, now).rate >= 1.0 && IpCall(ip, now).burst >= 1.0
    ensures KeyCall(id, rps, now).rate >= 1.0 && KeyCall(id, rps, now).burst >= 1.0
    ensures IpCall(ip, now) == Call("ip:" + ip, 20.0, 40.0, now)
    ensures var rate := if rps >= 1 then rps as real else 20.0;
      KeyCall(id, rps, now) == Call("key:" + id, rate, 2.0 * rate, now)
  {
  }

  lemma StepKeepsSound(m: Buckets, e: Event, now: real)
    requires Admissible(e) && Sound(m, now) && (e.Call? ==> now <= e.now)
    ensures Sound(Step(m, e), Clock(now, e))
  {
    if e.Call? { CallKeepsSound(m, e, now); }
  }

  /** In every run whose clock does not go back, with rates of at least one, every refusal
      waits at most a second and is answered with a Retry-After of 1. */
  lemma {:induction false} EveryRefusalIsShort(m: Buckets, evs: seq<Event>, now: real)
    requires Run(evs) && Monotone(evs, now) && Sound(m, now)
    requires forall i :: 0 <= i < |evs| && evs[i].Call? ==> evs[i].rate >= 1.0
    ensures forall i :: 0 <= i < |Verdicts(m, evs)| && !Verdicts(m, evs)[i].ok ==>
      0 <= Verdicts(m, evs)[i].wait <= SECOND && RetryAfter(Verdicts(m, evs)[i].wait) == 1
    decreases |evs|
  {
    if evs != [] {
      var e := evs[0];
      assert Admissible(e);
      StepKeepsSound(m, e, now);
      EveryRefusalIsShort(Step(m, e), evs[1..], Clock(now, e));
      if e.Call? {
        var tokens := OnHand(m, e.key, e.rate, e.burst, e.now);
        if tokens < 1.0 {
          if e.key in m { NoDebt(m[e.key], e.rate, e.burst, e.now); }
          RefusalWait(tokens, e.rate);
        }
      }
    }
  }

  /** The state after such a run is one `RetrySucceeds` applies to. */
  lemma {:induction false} RunsStaySound(m: Buckets, evs: seq<Event>, now: real)
    requires Run(evs) && Monotone(evs, now) && Sound(m, now)
    ensures Sound(Exec(m, evs), ClockAfter(now, evs))
    decreases |evs|
  {
    if evs != [] {
      assert Admissible(evs[0]);
      StepKeepsSound(m, evs[0], now);
      RunsStaySound(Step(m, evs[0]), evs[1..], Clock(now, evs[0]));
    }
  }

  /** Every call of `key` in the run is refused. */
  ghost predicate Refuses(m: Buckets, evs: seq<Event>, key: string)
    decreases |evs|
  {
    evs != [] ==>
      && (evs[0].Call? && evs[0].key == key ==> !Admits(m, evs[0]))
      && Refuses(Step(m, evs[0]), evs[1..], key)
  }

  /** Whatever calls of `key` there are use one rate and one burst; reaps are allowed. */
  ghost predicate SameTerms(evs: seq<Event>, key: string, rate: real, burst: real) {
    forall i :: 0 <= i < |evs| && evs[i].Call? && evs[i].key == key ==> evs[i].rate == rate && evs[i].burst == burst
  }

  lemma ReapsKeepOthers(m: Buckets, now: real, key: string)
    ensures key in AfterReap(m, now) ==> key in m && AfterReap(m, now)[key] == m[key]
  {
  }

  lemma NewcomerIsAdmitted(m: Buckets, e: Event)
    requires e.Call? && e.burst >= 1.0 && e.key !in m
    ensures Admits(m, e)
  {
    assert Supply(e.now - e.now, e.rate) == 0.0;
  }

  /** The probes refused in between cost nothing: unless the reaper takes the bucket,
      tokens keep growing at the rate. */
  lemma {:induction false} ProbesCostNothing(m: Buckets, evs: seq<Event>, key: string, rate: real, burst: real,
                                             retry: real)
    requires burst >= 1.0 && SameTerms(evs, key, rate, burst) && Refuses(m, evs, key)
    ensures key in Exec(m, evs) ==>
      key in m && Projected(Exec(m, evs)[key], rate, retry) == Projected(m[key], rate, retry)
    decreases |evs|
  {
    if evs != [] {
      var e := evs[0];
      if e.Call? && e.key == key {
        if key !in m { NewcomerIsAdmitted(m, e); }
        CallSpends(m, e);
        Split(retry, e.now, m[key].last, rate);
      } else if e.Call? {
        CallFrame(m, e.key, e.rate, e.burst, e.now);
      } else {
        ReapsKeepOthers(m, e.now, key);
      }
      assert SameTerms(evs[1..], key, rate, burst);
      ProbesCostNothing(Step(m, e), evs[1..], key, rate, burst, retry);
    }
  }

  /** A refused subject that waits at least as long as Retry-After says is admitted,
      whatever other subjects and the reaper did and however often it probed
      meanwhile. */
  lemma RetrySucceeds(m: Buckets, e: Event, evs: seq<Event>, retry: real)
    requires e.Call? && e.rate >= 1.0 && e.burst >= 1.0 && !Admits(m, e)
    requires Sound(m, e.now)
    requires SameTerms(evs, e.key, e.rate, e.burst) && Refuses(Step(m, e), evs, e.key)
    requires retry >= e.now + RetryAfter(Decide(OnHand(m, e.key, e.rate, e.burst, e.now), e.rate).wait) as real
    ensures OnHand(Exec(Step(m, e), evs), e.key, e.rate, e.burst, retry) >= 1.0
    ensures Decide(OnHand(Exec(Step(m, e), evs), e.key, e.rate, e.burst, retry), e.rate) == Verdict(true, 0)
  {
    var tokens := OnHand(m, e.key, e.rate, e.burst, e.now);
    if e.key in m {
      NoDebt(m[e.key], e.rate, e.burst, e.now);
    }
    RefusalWait(tokens, e.rate);
    ProbesCostNothing(Step(m, e), evs, e.key, e.rate, e.burst, retry);
    SupplyGrows(1.0, retry - e.now, e.rate);
    assert Supply(1.0, e.rate) == e.rate;
    assert Supply(retry - retry, e.rate) == 0.0;
  }

  // ----- reaps and late timestamps

  /** Calls read a clock that may lag by `skew`: time is read before the mutex is taken. */
  ghost predicate Skewed(evs: seq<Event>, from: real, skew: real) {
    evs != [] ==>
      (evs[0].Call? ==> from - skew <= evs[0].now) && Skewed(evs[1..], Clock(from, evs[0]), skew)
  }

  lemma {:induction false} MonotoneIsUnskewed(evs: seq<Event>, from: real)
    requires Monotone(evs, from)
    ensures Skewed(evs, from, 0.0)
    decreases |evs|
  {
    if evs != [] { MonotoneIsUnskewed(evs[1..], Clock(from, evs[0])); }
  }

  /** The burst refills within the idle time left when timestamps lag. */
  predicate Refills(rate: real, burst: real, skew: real) {
    rate > 0.0 && burst >= 0.0 && skew >= 0.0 && burst + Supply(2.0 * skew, rate) <= Supply(IDLE_TTL, rate)
  }

  /** The bucket's last call lies behind the clock, its debt is at most what lag can have
      cost, and at the clock there is none. */
  predicate Solvent(b: Bucket, rate: real, skew: real, now: real) {
    b.last <= now && b.tokens >= -Supply(skew, rate) && Projected(b, rate, now) >= 0.0
  }

  /** How the bucket of one subject may differ between two limiters of which only the
      first reaps. */
  ghost predicate Agrees(m: Buckets, n: Buckets, key: string, rate: real, skew: real, now: real) {
    && (key in n ==> Solvent(n[key], rate, skew, now))
    && (key in m ==> key in n && m[key] == n[key])
    && (key in n && key !in m ==> now - n[key].last > IDLE_TTL)
  }

  lemma IdleRefillsLate(b: Bucket, rate: real, burst: real, skew: real, clock: real, now: real)
    requires Refills(rate, burst, skew) && Solvent(b, rate, skew, clock)
    requires clock - b.last > IDLE_TTL && now >= clock - skew
    ensures Refilled(b, rate, burst, now) == burst
  {
    SupplyGrows(IDLE_TTL - skew, now - b.last, rate);
    assert Supply(2.0 * skew, rate) == Supply(skew, rate) + Supply(skew, rate);
    assert Supply(IDLE_TTL - skew, rate) == Supply(IDLE_TTL, rate) - Supply(skew, rate);
  }

  lemma CallKeepsSolvent(b: Bucket, rate: real, burst: real, skew: real, clock: real, now: real)
    requires Refills(rate, burst, skew) && Solvent(b, rate, skew, clock) && now >= clock - skew
    ensures var t := Refilled(b, rate, burst, now);
      Solvent(Bucket(if t >= 1.0 then t - 1.0 else t, now), rate, skew, if now < clock then clock else now)
  {
    var t := Refilled(b, rate, burst, now);
    var after := if now < clock then clock else now;
    Split(after, clock, b.last, rate);
    SupplyNonnegative(after - clock, rate);
    Split(after, now, b.last, rate);
    SupplyNonnegative(after - now, rate);
    SupplyGrows(after - now, skew, rate);
    assert Supply(skew, rate) >= 0.0 by { SupplyNonnegative(skew, rate); }
  }

  lemma NewBucketIsSolvent(rate: real, burst: real, skew: real, clock: real, now: real)
    requires Refills(rate, burst, skew) && now >= clock - skew
    ensures Refilled(Bucket(burst, now), rate, burst, now) == burst
    ensures Solvent(Bucket(if burst >= 1.0 then burst - 1.0 else burst, now), rate, skew,
                    if now < clock then clock else now)
  {
    assert Supply(now - now, rate) == 0.0;
    SupplyNonnegative((if now < clock then clock else now) - now, rate);
    SupplyNonnegative(skew, rate);
  }

  lemma SolventLater(b: Bucket, rate: real, skew: real, now: real, later: real)
    requires Solvent(b, rate, skew, now) && now <= later && rate > 0.0
    ensures Solvent(b, rate, skew, later)
  {
    Split(later, now, b.last, rate);
    SupplyNonnegative(later - now, rate);
  }

  lemma StepAgrees(m: Buckets, n: Buckets, e: Event, key: string, rate: real, burst: real, skew: real, now: real)
    requires Agrees(m, n, key, rate, skew, now) && Refills(rate, burst, skew)
    requires e.Call? ==> now - skew <= e.now
    requires e.Call? && e.key == key ==> e.rate == rate && e.burst == burst
    ensures Agrees(Step(m, e), if e.Reap? then n else Step(n, e), key, rate, skew, Clock(now, e))
    ensures e.Call? && e.key == key ==> OnHand(m, key, rate, burst, e.now) == OnHand(n, key, rate, burst, e.now)
  {
    if key in n { SolventLater(n[key], rate, skew, now, Clock(now, e)); }
    if e.Call? && e.key == key {
      NewBucketIsSolvent(rate, burst, skew, now, e.now);
      if key in n {
        CallKeepsSolvent(n[key], rate, burst, skew, now, e.now);
        if key !in m { IdleRefillsLate(n[key], rate, burst, skew, now, e.now); }
      }
    }
  }

  /** The verdicts one subject receives. */
  ghost function VerdictsOf(m: Buckets, evs: seq<Event>, key: string): seq<Verdict>
    requires Run(evs)
    decreases |evs|
  {
    if evs == [] then []
    else
      assert Admissible(evs[0]);
      (if evs[0].Call? && evs[0].key == key
       then [Decide(OnHand(m, key, evs[0].rate, evs[0].burst, evs[0].now), evs[0].rate)] else [])
      + VerdictsOf(Step(m, evs[0]), evs[1..], key)
  }

  lemma WithoutReapsCons(evs: seq<Event>)
    requires evs != []
    ensures WithoutReaps(evs) == (if evs[0].Reap? then [] else [evs[0]]) + WithoutReaps(evs[1..])
    ensures evs[0].Call? ==> WithoutReaps(evs)[0] == evs[0] && WithoutReaps(evs)[1..] == WithoutReaps(evs[1..])
  {
    assert [] + WithoutReaps(evs[1..]) == WithoutReaps(evs[1..]);
  }

  /** Timestamps may lag behind the clock by `skew`: as long as the idle time less twice
      the lag refills a subject's burst, reaping changes neither its verdicts nor how
      often it is admitted. */
  lemma {:induction false} LateReapingIsInvisibleFrom(m: Buckets, n: Buckets, evs: seq<Event>, key: string, rate: real,
                                                      burst: real, skew: real, now: real)
    requires Agrees(m, n, key, rate, skew, now) && Refills(rate, burst, skew)
    requires SameTerms(evs, key, rate, burst) && Skewed(evs, now, skew)
    requires Run(evs) && Run(WithoutReaps(evs))
    ensures VerdictsOf(m, evs, key) == VerdictsOf(n, WithoutReaps(evs), key)
    ensures Admissions(m, evs, key) == Admissions(n, WithoutReaps(evs), key)
    ensures EndsAdmitted(m, evs, key) ==> EndsAdmitted(n, WithoutReaps(evs), key)
    decreases |evs|
  {
    if evs != [] {
      var e, rest := evs[0], evs[1..];
      assert Admissible(e);
      assert SameTerms(rest, key, rate, burst);
      WithoutReapsCons(evs);
      StepAgrees(m, n, e, key, rate, burst, skew, now);
      if e.Call? { assert Run(WithoutReaps(rest)) by { RunOfTail(WithoutReaps(evs)); } }
      LateReapingIsInvisibleFrom(Step(m, e), if e.Reap? then n else Step(n, e), rest, key, rate, burst, skew,
                                 Clock(now, e));
      EndsKept(m, n, evs, key, rate, burst);
    }
  }

  lemma RunOfTail(evs: seq<Event>)
    requires Run(evs) && evs != []
    ensures Run(evs[1..])
  {
  }

  lemma EndsKept(m: Buckets, n: Buckets, evs: seq<Event>, key: string, rate: real, burst: real)
    requires evs != [] && SameTerms(evs, key, rate, burst)
    requires var e := evs[0];
      && (e.Call? && e.key == key ==> OnHand(m, key, rate, burst, e.now) == OnHand(n, key, rate, burst, e.now))
      && (EndsAdmitted(Step(m, e), evs[1..], key) ==>
            EndsAdmitted(if e.Reap? then n else Step(n, e), WithoutReaps(evs[1..]), key))
    ensures EndsAdmitted(m, evs, key) ==> EndsAdmitted(n, WithoutReaps(evs), key)
  {
    var e, rest, clean := evs[0], evs[1..], WithoutReaps(evs);
    WithoutReapsCons(evs);
    if EndsAdmitted(m, evs, key) {
      if |evs| == 1 {
        assert evs[..0] == [] && clean == [e] && clean[..0] == [];
      } else {
        EndsAdmittedTail(m, evs, key);
        if e.Reap? {
          assert clean == WithoutReaps(rest);
        } else {
          EndsAdmittedTail(n, clean, key);
        }
      }
    }
  }

  /** Over every run in which timestamps lag by at most `skew`, a subject of fixed rate
      and burst cannot tell a limiter that reaps from one that never does. */
  lemma LateReapingIsInvisible(evs: seq<Event>, start: real, key: string, rate: real, burst: real, skew: real)
    requires Run(evs) && Skewed(evs, start, skew) && SameTerms(evs, key, rate, burst) && Refills(rate, burst, skew)
    ensures Run(WithoutReaps(evs))
    ensures VerdictsOf(map[], evs, key) == VerdictsOf(map[], WithoutReaps(evs), key)
  {
    WithoutReapsRun(evs);
    LateReapingIsInvisibleFrom(map[], map[], evs, key, rate, burst, skew, start);
  }

  lemma {:induction false} CleanRun(evs: seq<Event>, key: string, rate: real, burst: real)
    requires SameTerms(evs, key, rate, burst)
    ensures FixedFor(WithoutReaps(evs), key, rate, burst)
  {
    if evs != [] {
      assert SameTerms(evs[1..], key, rate, burst);
      CleanRun(evs[1..], key, rate, burst);
      WithoutReapsCons(evs);
      assert evs[0].Call? && evs[0].key == key ==> evs[0].rate == rate && evs[0].burst == burst;
    }
  }

  lemma {:induction false} LastIsKept(evs: seq<Event>)
    requires evs != [] && evs[|evs| - 1].Call?
    ensures var clean := WithoutReaps(evs); clean != [] && clean[|clean| - 1] == evs[|evs| - 1]
  {
    WithoutReapsCons(evs);
    if |evs| > 1 { LastIsKept(evs[1..]); }
  }

  /** The admission bound with reaps at any moments, for timestamps that lag by at most
      `skew`, from a state in which the subject is solvent. */
  lemma LateWindowBound(m: Buckets, evs: seq<Event>, key: string, rate: real, burst: real, skew: real, now: real)
    requires Run(evs) && Skewed(evs, now, skew) && SameTerms(evs, key, rate, burst) && Refills(rate, burst, skew)
    requires key in m ==> Solvent(m[key], rate, skew, now)
    requires EndsAdmitted(m, evs, key) && evs[0].Call? && evs[0].key == key
    ensures Admissions(m, evs, key) as real <= Projected(Bucket(burst, evs[0].now), rate, evs[|evs| - 1].now)
  {
    WithoutReapsRun(evs);
    LateReapingIsInvisibleFrom(m, m, evs, key, rate, burst, skew, now);
    CleanRun(evs, key, rate, burst);
    WithoutReapsCons(evs);
    LastIsKept(evs);
    WindowBound(m, WithoutReaps(evs), key, rate, burst);
  }

  /** In particular for calls that read a clock that does not go back, whatever the
      reaper does in between. */
  lemma WindowBoundWithReaps(m: Buckets, evs: seq<Event>, key: string, rate: real, burst: real, now: real)
    requires Run(evs) && Monotone(evs, now) && Sound(m, now) && SameTerms(evs, key, rate, burst)
    requires EndsAdmitted(m, evs, key) && evs[0].Call? && evs[0].key == key
    ensures Admissions(m, evs, key) as real <= Projected(Bucket(burst, evs[0].now), rate, evs[|evs| - 1].now)
  {
    assert Admissible(evs[0]);
    assert Supply(2.0 * 0.0, rate) == 0.0 && Supply(0.0, rate) == 0.0 && Supply(IDLE_TTL, rate) == IDLE_TTL * rate;
    MonotoneIsUnskewed(evs, now);
    if key in m { SupplyNonnegative(now - m[key].last, rate); }
    LateWindowBound(m, evs, key, rate, burst, 0.0, now);
  }

  /** How many of a subject's verdicts are ok. */
  function Oks(vs: seq<Verdict>): nat {
    if vs == [] then 0 else (if vs[0].ok then 1 else 0) + Oks(vs[1..])
  }

  /** The admissions bounded above are the answers of ok the subject receives. */
  lemma {:induction false} AdmissionsAreOks(m: Buckets, evs: seq<Event>, key: string)
    requires Run(evs)
    ensures Admissions(m, evs, key) == Oks(VerdictsOf(m, evs, key))
    decreases |evs|
  {
    if evs != [] {
      var e, rest := evs[0], VerdictsOf(Step(m, evs[0]), evs[1..], key);
      assert Admissible(e);
      RunOfTail(evs);
      AdmissionsAreOks(Step(m, e), evs[1..], key);
      if e.Call? && e.key == key {
        VerdictIs(m, key, e.rate, e.burst, e.now);
        assert ([Decide(OnHand(m, key, e.rate, e.burst, e.now), e.rate)] + rest)[1..] == rest;
      } else {
        assert [] + rest == rest;
      }
    }
  }

  /** The last event is a call of the subject, and the last verdict it receives is ok. */
  ghost predicate EndsOk(m: Buckets, evs: seq<Event>, key: string)
    requires Run(evs)
  {
    && evs != [] && evs[|evs| - 1].Call? && evs[|evs| - 1].key == key
    && var vs := VerdictsOf(m, evs, key); vs != [] && vs[|vs| - 1].ok
  }

  lemma {:induction false} LastVerdict(m: Buckets, evs: seq<Event>, key: string)
    requires Run(evs) && evs != [] && evs[|evs| - 1].Call? && evs[|evs| - 1].key == key
    ensures var vs := VerdictsOf(m, evs, key);
      vs != [] && (vs[|vs| - 1].ok <==> Admits(Exec(m, evs[..|evs| - 1]), evs[|evs| - 1]))
    decreases |evs|
  {
    var e := evs[0];
    assert Admissible(e);
    if |evs| == 1 {
      assert evs[..0] == [] && evs[1..] == [];
      VerdictIs(m, key, e.rate, e.burst, e.now);
    } else {
      RunOfTail(evs);
      LastVerdict(Step(m, e), evs[1..], key);
      assert evs[..|evs| - 1][1..] == evs[1..][..|evs| - 2];
    }
  }

  lemma EndsOkAdmits(m: Buckets, evs: seq<Event>, key: string)
    requires Run(evs) && EndsOk(m, evs, key)
    ensures EndsAdmitted(m, evs, key)
  {
    hide Run, Exec, VerdictsOf, Admits;
    LastVerdict(m, evs, key);
  }

  lemma FullProjected(count: nat, burst: real, start: real, rate: real, t: real)
    requires count as real <= Projected(Bucket(burst, start), rate, t)
    ensures count as real <= burst + (t - start) * rate
  {
  }

  /** With no reap in between and timestamps in any order, a subject is answered ok from a
      call through a later such answer at most burst times plus the refill. */
  lemma OkBound(m: Buckets, evs: seq<Event>, key: string, rate: real, burst: real)
    requires Run(evs) && FixedFor(evs, key, rate, burst) && EndsOk(m, evs, key) && evs[0].key == key
    ensures Oks(VerdictsOf(m, evs, key)) as real <= burst + (evs[|evs| - 1].now - evs[0].now) * rate
  {
    hide Run, VerdictsOf, Admissions, FixedFor, EndsAdmitted, Projected, Oks;
    EndsOkAdmits(m, evs, key);
    WindowBound(m, evs, key, rate, burst);
    AdmissionsAreOks(m, evs, key);
    FullProjected(Admissions(m, evs, key), burst, evs[0].now, rate, evs[|evs| - 1].now);
  }

  /** The same with reaps at any moments, under the condition on the lag. */
  lemma LateOkBound(m: Buckets, evs: seq<Event>, key: string, rate: real, burst: real, skew: real, now: real)
    requires Run(evs) && Skewed(evs, now, skew) && SameTerms(evs, key, rate, burst) && Refills(rate, burst, skew)
    requires key in m ==> Solvent(m[key], rate, skew, now)
    requires EndsOk(m, evs, key) && evs[0].Call? && evs[0].key == key
    ensures Oks(VerdictsOf(m, evs, key)) as real <= burst + (evs[|evs| - 1].now - evs[0].now) * rate
  {
    hide Run, VerdictsOf, Admissions, Skewed, SameTerms, Refills, Solvent, EndsAdmitted, Projected, Oks;
    EndsOkAdmits(m, evs, key);
    LateWindowBound(m, evs, key, rate, burst, skew, now);
    AdmissionsAreOks(m, evs, key);
    FullProjected(Admissions(m, evs, key), burst, evs[0].now, rate, evs[|evs| - 1].now);
  }

  /** In particular for calls that read a clock that does not go back. */
  lemma OkBoundWithReaps(m: Buckets, evs: seq<Event>, key: string, rate: real, burst: real, now: real)
    requires Run(evs) && Monotone(evs, now) && Sound(m, now) && SameTerms(evs, key, rate, burst)
    requires EndsOk(m, evs, key) && evs[0].Call? && evs[0].key == key
    ensures Oks(VerdictsOf(m, evs, key)) as real <= burst + (evs[|evs| - 1].now - evs[0].now) * rate
  {
    hide Run, VerdictsOf, Admissions, Monotone, SameTerms, Sound, EndsAdmitted, Projected, Oks;
    EndsOkAdmits(m, evs, key);
    WindowBoundWithReaps(m, evs, key, rate, burst, now);
    AdmissionsAreOks(m, evs, key);
    FullProjected(Admissions(m, evs, key), burst, evs[0].now, rate, evs[|evs| - 1].now);
  }

  /** Both middlewares stand a lag of 899 seconds. */
  lemma MiddlewareCallsRefill(ip: string, id: string, rps: int, now: real)
    ensures Refills(IpCall(ip, now).rate, IpCall(ip, now).burst, 899.0)
    ensures Refills(KeyCall(id, rps, now).rate, KeyCall(id, rps, now).burst, 899.0)
  {
    var rate := EffectiveRate(rps);
    assert Supply(2.0 * 899.0, rate) == 1798.0 * rate && Supply(IDLE_TTL, rate) == 1800.0 * rate;
    assert Supply(2.0 * 899.0, IP_RATE) == 35960.0 && Supply(IDLE_TTL, IP_RATE) == 36000.0;
  }

  // ----- the condition on the lag is exact

  function Probe(rate: real, burst: real, now: real): Event {
    Call("k", rate, burst, now)
  }

  /** `n` calls at `x` and one at `y`. */
  function Burst(rate: real, burst: real, n: nat, x: real, y: real): seq<Event> {
    if n == 0 then [Probe(rate, burst, y)] else [Probe(rate, burst, x)] + Burst(rate, burst, n - 1, x, y)
  }

  lemma {:induction false} BurstRuns(rate: real, burst: real, n: nat, x: real, y: real, from: real, skew: real)
    requires Admissible(Probe(rate, burst, x)) && skew >= 0.0 && from - skew <= x <= y
    ensures Run(Burst(rate, burst, n, x, y)) && Skewed(Burst(rate, burst, n, x, y), from, skew)
    ensures SameTerms(Burst(rate, burst, n, x, y), "k", rate, burst)
    ensures WithoutReaps(Burst(rate, burst, n, x, y)) == Burst(rate, burst, n, x, y)
    decreases n
  {
    var evs := Burst(rate, burst, n, x, y);
    if n > 0 {
      assert evs[1..] == Burst(rate, burst, n - 1, x, y);
      BurstRuns(rate, burst, n - 1, x, y, Clock(from, evs[0]), skew);
    } else {
      assert evs[1..] == [];
    }
  }

  /** Two buckets of which the second holds less: as many calls as the first has whole
      tokens, and one at the moment it has its next, tell them apart. */
  lemma {:induction false} BurstTells(m: Buckets, n: Buckets, rate: real, burst: real, count: nat, x: real, y: real)
    requires Admissible(Probe(rate, burst, x)) && Run(Burst(rate, burst, count, x, y)) && burst >= 1.0
    requires "k" in m && "k" in n && m["k"].last == x && n["k"].last == x
    requires n["k"].tokens < m["k"].tokens <= burst && count as real <= m["k"].tokens < count as real + 1.0
    requires Supply(y - x, rate) == 1.0 - (m["k"].tokens - count as real)
    ensures VerdictsOf(m, Burst(rate, burst, count, x, y), "k") != VerdictsOf(n, Burst(rate, burst, count, x, y), "k")
    decreases count
  {
    var evs := Burst(rate, burst, count, x, y);
    if count == 0 {
      assert !Decide(OnHand(n, "k", rate, burst, y), rate).ok && Decide(OnHand(m, "k", rate, burst, y), rate).ok;
      assert VerdictsOf(m, evs, "k")[0].ok && !VerdictsOf(n, evs, "k")[0].ok;
    } else {
      assert Supply(x - x, rate) == 0.0;
      assert evs[1..] == Burst(rate, burst, count - 1, x, y);
      if n["k"].tokens < 1.0 {
        assert VerdictsOf(m, evs, "k")[0].ok && !VerdictsOf(n, evs, "k")[0].ok;
      } else {
        BurstTells(Step(m, evs[0]), Step(n, evs[0]), rate, burst, count - 1, x, y);
        TailsDiffer(m, n, evs);
      }
    }
  }

  lemma TailsDiffer(m: Buckets, n: Buckets, evs: seq<Event>)
    requires evs != [] && Run(evs) && evs[0].Call? && evs[0].key == "k" && Run(evs[1..])
    requires VerdictsOf(Step(m, evs[0]), evs[1..], "k") != VerdictsOf(Step(n, evs[0]), evs[1..], "k")
    ensures VerdictsOf(m, evs, "k") != VerdictsOf(n, evs, "k")
  {
    assert VerdictsOf(m, evs, "k")[1..] == VerdictsOf(Step(m, evs[0]), evs[1..], "k");
    assert VerdictsOf(n, evs, "k")[1..] == VerdictsOf(Step(n, evs[0]), evs[1..], "k");
  }

  /** The same when the first limiter has no bucket at all and the second holds less
      than a burst. */
  lemma FreshTells(m: Buckets, n: Buckets, rate: real, burst: real, count: nat, x: real, y: real)
    requires Admissible(Probe(rate, burst, x)) && Run(Burst(rate, burst, count, x, y)) && burst >= 1.0
    requires count as real <= burst < count as real + 1.0 && Supply(y - x, rate) == 1.0 - (burst - count as real)
    requires "k" !in m && "k" in n && OnHand(n, "k", rate, burst, x) < burst
    ensures VerdictsOf(m, Burst(rate, burst, count, x, y), "k") != VerdictsOf(n, Burst(rate, burst, count, x, y), "k")
  {
    var evs := Burst(rate, burst, count, x, y);
    assert Supply(x - x, rate) == 0.0;
    assert evs[1..] == Burst(rate, burst, count - 1, x, y);
    if OnHand(n, "k", rate, burst, x) < 1.0 {
      assert VerdictsOf(m, evs, "k")[0].ok && !VerdictsOf(n, evs, "k")[0].ok;
    } else {
      BurstTells(Step(m, evs[0]), Step(n, evs[0]), rate, burst, count - 1, x, y);
      TailsDiffer(m, n, evs);
    }
  }

  /** A bucket drained to nothing at the time it returns. */
  lemma {:induction false} BurstEmpties(m: Buckets, rate: real, burst: real, count: nat, x: real, y: real)
    requires Admissible(Probe(rate, burst, x)) && burst >= 1.0
    requires "k" in m && m["k"].last == x && m["k"].tokens <= burst
    requires count as real <= m["k"].tokens < count as real + 1.0
    requires Supply(y - x, rate) == 1.0 - (m["k"].tokens - count as real)
    ensures "k" in Exec(m, Burst(rate, burst, count, x, y))
    ensures Exec(m, Burst(rate, burst, count, x, y))["k"] == Bucket(0.0, y)
    decreases count
  {
    var evs := Burst(rate, burst, count, x, y);
    if count == 0 {
      assert evs[1..] == [];
    } else {
      assert Supply(x - x, rate) == 0.0;
      assert evs[1..] == Burst(rate, burst, count - 1, x, y);
      BurstEmpties(Step(m, evs[0]), rate, burst, count - 1, x, y);
    }
  }

  lemma RunConcat(a: seq<Event>, b: seq<Event>)
    requires Run(a) && Run(b)
    ensures Run(a + b)
  {
    forall i | 0 <= i < |a + b| ensures Admissible((a + b)[i]) {
      if i < |a| { assert (a + b)[i] == a[i]; } else { assert (a + b)[i] == b[i - |a|]; }
    }
  }

  lemma {:induction false} VerdictsConcat(m: Buckets, a: seq<Event>, b: seq<Event>)
    requires Run(a) && Run(b) && Run(a + b)
    ensures Exec(m, a + b) == Exec(Exec(m, a), b)
    ensures VerdictsOf(m, a + b, "k") == VerdictsOf(m, a, "k") + VerdictsOf(Exec(m, a), b, "k")
    decreases |a|
  {
    hide Step, OnHand, Decide;
    var all := a + b;
    if a == [] {
      assert all == b;
    } else {
      assert all[0] == a[0] && all[1..] == a[1..] + b;
      assert Admissible(a[0]);
      RunOfTail(a);
      RunOfTail(all);
      VerdictsConcat(Step(m, a[0]), a[1..], b);
    }
  }

  lemma {:induction false} SkewedConcat(a: seq<Event>, b: seq<Event>, from: real, skew: real)
    requires Skewed(a, from, skew) && Skewed(b, ClockAfter(from, a), skew)
    ensures Skewed(a + b, from, skew)
    decreases |a|
  {
    if a == [] {
      assert a + b == b;
    } else {
      assert (a + b)[1..] == a[1..] + b;
      SkewedConcat(a[1..], b, Clock(from, a[0]), skew);
    }
  }

  lemma {:induction false} WithoutReapsConcat(a: seq<Event>, b: seq<Event>)
    ensures WithoutReaps(a + b) == WithoutReaps(a) + WithoutReaps(b)
  {
    if a == [] {
      assert a + b == b;
    } else {
      assert (a + b)[1..] == a[1..] + b;
      WithoutReapsConcat(a[1..], b);
    }
  }

  lemma SameTermsConcat(a: seq<Event>, b: seq<Event>, rate: real, burst: real)
    requires SameTerms(a, "k", rate, burst) && SameTerms(b, "k", rate, burst)
    ensures SameTerms(a + b, "k", rate, burst)
  {
    forall i | 0 <= i < |a + b| && (a + b)[i].Call? && (a + b)[i].key == "k"
      ensures (a + b)[i].rate == rate && (a + b)[i].burst == burst
    {
      if i < |a| { assert (a + b)[i] == a[i]; } else { assert (a + b)[i] == b[i - |a|]; }
    }
  }

  lemma {:induction false} ClockOfBurst(rate: real, burst: real, n: nat, x: real, y: real, from: real)
    requires from <= x <= y
    ensures ClockAfter(from, Burst(rate, burst, n, x, y)) == y
    decreases n
  {
    var evs := Burst(rate, burst, n, x, y);
    if n > 0 {
      assert evs[1..] == Burst(rate, burst, n - 1, x, y);
      ClockOfBurst(rate, burst, n - 1, x, y, x);
    } else {
      assert evs[1..] == [];
    }
  }

  /** Two lagging calls and a reap: the first empties a drained bucket below zero, the
      reap takes it away. */
  function Lag(rate: real, burst: real, t: real, skew: real, r: real): seq<Event> {
    [Probe(rate, burst, t - skew)] + [Reap(r)]
  }

  lemma LagIs(rate: real, burst: real, t: real, skew: real, r: real)
    ensures var p, evs := Probe(rate, burst, t - skew), Lag(rate, burst, t, skew, r);
      |evs| == 2 && evs[0] == p && evs[1..] == [Reap(r)] && evs[1..][1..] == [] && [p][1..] == []
  {
  }

  lemma LagRuns(rate: real, burst: real, t: real, skew: real, r: real)
    requires Admissible(Probe(rate, burst, t)) && skew >= 0.0
    ensures var evs := Lag(rate, burst, t, skew, r);
      && Run(evs) && Skewed(evs, t, skew) && SameTerms(evs, "k", rate, burst)
      && ClockAfter(t, evs) == (if r < t then t else r)
      && WithoutReaps(evs) == [Probe(rate, burst, t - skew)]
  {
    LagIs(rate, burst, t, skew, r);
    var p, evs := Probe(rate, burst, t - skew), Lag(rate, burst, t, skew, r);
    assert WithoutReaps(evs[1..]) == [];
    assert [p] + [] == [p];
    assert Clock(t, p) == t;
    assert Skewed(evs[1..], t, skew);
    assert ClockAfter(t, evs[1..]) == if r < t then t else r;
  }

  /** The lagging call leaves the bucket below zero, and the reap takes it away. */
  lemma AfterLag(m: Buckets, rate: real, burst: real, t: real, skew: real, r: real)
    requires Admissible(Probe(rate, burst, t)) && burst >= 1.0 && skew >= 0.0 && r - (t - skew) > IDLE_TTL
    requires "k" in m && m["k"] == Bucket(0.0, t)
    requires Run(Lag(rate, burst, t, skew, r)) && Run([Probe(rate, burst, t - skew)])
    ensures var p, evs := Probe(rate, burst, t - skew), Lag(rate, burst, t, skew, r);
      && "k" in Exec(m, [p]) && Exec(m, [p])["k"] == Bucket(-Supply(skew, rate), t - skew)
      && "k" !in Exec(m, evs)
      && VerdictsOf(m, evs, "k") == VerdictsOf(m, [p], "k")
  {
    var p := Probe(rate, burst, t - skew);
    SupplyNonnegative(skew, rate);
    assert Supply(t - skew - t, rate) == -Supply(skew, rate);
    var n := Step(m, p);
    assert n["k"] == Bucket(-Supply(skew, rate), t - skew);
    OneEvent(m, p);
    OneEvent(n, Reap(r));
    VerdictsConcat(m, [p], [Reap(r)]);
    assert VerdictsOf(m, [p], "k") + [] == VerdictsOf(m, [p], "k");
  }

  lemma OneEvent(m: Buckets, e: Event)
    requires Admissible(e)
    ensures Run([e]) && Exec(m, [e]) == Step(m, e)
    ensures e.Reap? ==> VerdictsOf(m, [e], "k") == []
  {
    assert [e][1..] == [] && Exec(Step(m, e), []) == Step(m, e);
    assert VerdictsOf(Step(m, e), [], "k") == [];
  }

  /** What the bucket that was not reaped holds when the next call comes. */
  lemma StillShort(n: Bucket, rate: real, burst: real, skew: real, t: real, gap: real, r: real)
    requires rate > 0.0 && burst >= 1.0 && skew >= 0.0 && gap > 0.0
    requires Supply(2.0 * gap, rate) == burst + Supply(2.0 * skew, rate) - Supply(IDLE_TTL, rate)
    requires n == Bucket(-Supply(skew, rate), t - skew) && r == t - skew + IDLE_TTL + gap
    ensures Refilled(n, rate, burst, (if r < t then t else r) - skew) < burst
  {
    var clock := if r < t then t else r;
    assert Supply(clock - skew - (t - skew), rate) == Supply(clock - t, rate);
    SupplyNonnegative(skew, rate);
    if r >= t {
      assert Supply(IDLE_TTL + gap - skew, rate) == Supply(IDLE_TTL, rate) + Supply(gap, rate) - Supply(skew, rate);
      assert Supply(2.0 * gap, rate) == Supply(gap, rate) + Supply(gap, rate);
      assert Supply(2.0 * skew, rate) == Supply(skew, rate) + Supply(skew, rate);
      assert Supply(gap, rate) > 0.0;
    } else {
      assert Supply(0.0, rate) == 0.0;
    }
  }

  lemma Drained(rate: real, burst: real, count: nat, y: real)
    requires Admissible(Probe(rate, burst, 0.0)) && burst >= 1.0 && count as real <= burst < count as real + 1.0
    requires Supply(y, rate) == 1.0 - (burst - count as real) && y >= 0.0
    ensures var evs := Burst(rate, burst, count, 0.0, y);
      "k" in Exec(map[], evs) && Exec(map[], evs)["k"] == Bucket(0.0, y)
  {
    var evs := Burst(rate, burst, count, 0.0, y);
    assert Supply(0.0 - 0.0, rate) == 0.0 && Supply(y - 0.0, rate) == Supply(y, rate);
    assert evs[1..] == Burst(rate, burst, count - 1, 0.0, y);
    BurstEmpties(Step(map[], evs[0]), rate, burst, count - 1, 0.0, y);
  }

  /** Two runs that begin alike and end from two states. */
  lemma OnlyTheEndDiffers(first: seq<Event>, lag: seq<Event>, clean: seq<Event>, last: seq<Event>)
    requires Run(first) && Run(lag) && Run(clean) && Run(last)
    requires Run(first + lag) && Run(first + clean) && Run(first + lag + last) && Run(first + clean + last)
    requires var m := Exec(map[], first);
      && VerdictsOf(m, lag, "k") == VerdictsOf(m, clean, "k")
      && VerdictsOf(Exec(m, lag), last, "k") != VerdictsOf(Exec(m, clean), last, "k")
    ensures VerdictsOf(map[], first + lag + last, "k") != VerdictsOf(map[], first + clean + last, "k")
  {
    hide Run, Exec, VerdictsOf;
    var m := Exec(map[], first);
    VerdictsConcat(map[], first, lag);
    VerdictsConcat(map[], first + lag, last);
    VerdictsConcat(map[], first, clean);
    VerdictsConcat(map[], first + clean, last);
    SameFront(VerdictsOf(map[], first, "k") + VerdictsOf(m, lag, "k"),
              VerdictsOf(Exec(m, lag), last, "k"), VerdictsOf(Exec(m, clean), last, "k"));
  }

  lemma SameFront(a: seq<Verdict>, b: seq<Verdict>, c: seq<Verdict>)
    requires b != c
    ensures a + b != a + c
  {
    assert (a + b)[|a|..] == b && (a + c)[|a|..] == c;
  }

  /** When the idle time less twice the lag does not refill the burst, some run lets a
      subject tell a limiter that reaps from one that does not. */
  lemma LateReapingTells(rate: real, burst: real, skew: real) returns (evs: seq<Event>)
    requires Admissible(Probe(rate, burst, 0.0)) && burst >= 1.0 && skew >= 0.0 && !Refills(rate, burst, skew)
    ensures Run(evs) && Run(WithoutReaps(evs)) && Skewed(evs, 0.0, skew) && SameTerms(evs, "k", rate, burst)
    ensures VerdictsOf(map[], evs, "k") != VerdictsOf(map[], WithoutReaps(evs), "k")
  {
    var count: nat := burst.Floor;
    var y := (1.0 - (burst - count as real)) / rate;
    var gap := (burst + Supply(2.0 * skew, rate) - Supply(IDLE_TTL, rate)) / (2.0 * rate);
    Quotient(1.0 - (burst - count as real), rate);
    Halved(burst + Supply(2.0 * skew, rate) - Supply(IDLE_TTL, rate), rate);
    var r := y - skew + IDLE_TTL + gap;
    var x := (if r < y then y else r) - skew;
    hide Supply, Refills;
    evs := TellingRun(rate, burst, skew, count, y, gap, r, x);
  }

  lemma TellingRun(rate: real, burst: real, skew: real, count: nat, y: real, gap: real, r: real, x: real)
    returns (evs: seq<Event>)
    requires Admissible(Probe(rate, burst, 0.0)) && burst >= 1.0 && skew >= 0.0
    requires count as real <= burst < count as real + 1.0
    requires Supply(y, rate) == 1.0 - (burst - count as real) && y >= 0.0 && gap > 0.0
    requires Supply(2.0 * gap, rate) == burst + Supply(2.0 * skew, rate) - Supply(IDLE_TTL, rate)
    requires r == y - skew + IDLE_TTL + gap && x == (if r < y then y else r) - skew
    ensures Run(evs) && Run(WithoutReaps(evs)) && Skewed(evs, 0.0, skew) && SameTerms(evs, "k", rate, burst)
    ensures VerdictsOf(map[], evs, "k") != VerdictsOf(map[], WithoutReaps(evs), "k")
  {
    hide Refilled, OnHand, Step, Decide, Run, Skewed, SameTerms, Exec, VerdictsOf, WithoutReaps, ClockAfter, Burst, Lag,
         Supply;
    var first, lag := Burst(rate, burst, count, 0.0, y), Lag(rate, burst, y, skew, r);
    var last, clean := Burst(rate, burst, count, x, x + y), [Probe(rate, burst, y - skew)];
    evs := first + lag + last;
    BurstRuns(rate, burst, count, 0.0, y, 0.0, skew);
    ClockOfBurst(rate, burst, count, 0.0, y, 0.0);
    LagRuns(rate, burst, y, skew, r);
    BurstRuns(rate, burst, count, x, x + y, if r < y then y else r, skew);
    JoinRuns(first, lag, last, rate, burst, skew);
    SkewedConcat(first, lag, 0.0, skew);
    ClockConcat(first, lag, 0.0);
    SkewedConcat(first + lag, last, 0.0, skew);
    WithoutReapsConcat(first, lag);
    WithoutReapsConcat(first + lag, last);
    WithoutReapsRun(evs);
    WithoutReapsRun(lag);
    RunConcat(first, clean);
    RunConcat(first + clean, last);
    Drained(rate, burst, count, y);
    var m := Exec(map[], first);
    AfterLag(m, rate, burst, y, skew, r);
    var n := Exec(m, clean);
    StillShort(n["k"], rate, burst, skew, y, gap, r);
    HeldIs(n, rate, burst, x);
    assert x + y - x == y;
    FreshTells(Exec(m, lag), n, rate, burst, count, x, x + y);
    OnlyTheEndDiffers(first, lag, clean, last);
  }

  /** No run with timestamps that lag by at most `skew` lets a subject tell whether its
      limiter reaps. */
  ghost predicate CannotTell(rate: real, burst: real, skew: real) {
    forall evs :: Run(evs) && Run(WithoutReaps(evs)) && Skewed(evs, 0.0, skew) && SameTerms(evs, "k", rate, burst)
                  ==> VerdictsOf(map[], evs, "k") == VerdictsOf(map[], WithoutReaps(evs), "k")
  }

  /** So the condition on the lag is exact. */
  lemma LateReapingIsInvisibleIff(rate: real, burst: real, skew: real)
    requires Admissible(Probe(rate, burst, 0.0)) && burst >= 1.0 && skew >= 0.0
    ensures CannotTell(rate, burst, skew) <==> Refills(rate, burst, skew)
  {
    hide VerdictsOf, Skewed, SameTerms, Run, WithoutReaps, Refills;
    if Refills(rate, burst, skew) {
      forall evs | Run(evs) && Run(WithoutReaps(evs)) && Skewed(evs, 0.0, skew) && SameTerms(evs, "k", rate, burst)
        ensures VerdictsOf(map[], evs, "k") == VerdictsOf(map[], WithoutReaps(evs), "k")
      {
        LateReapingIsInvisible(evs, 0.0, "k", rate, burst, skew);
      }
    } else {
      var evs := LateReapingTells(rate, burst, skew);
      assert Run(evs) && Run(WithoutReaps(evs));
    }
  }

  lemma HeldIs(n: Buckets, rate: real, burst: real, x: real)
    requires "k" in n
    ensures OnHand(n, "k", rate, burst, x) == Refilled(n["k"], rate, burst, x)
  {
  }

  lemma Quotient(a: real, rate: real)
    requires a > 0.0 && rate > 0.0
    ensures a / rate > 0.0 && Supply(a / rate, rate) == a
  {
  }

  lemma Halved(d: real, rate: real)
    requires d > 0.0 && rate > 0.0
    ensures d / (2.0 * rate) > 0.0 && Supply(2.0 * (d / (2.0 * rate)), rate) == d
  {
    var gap := d / (2.0 * rate);
    assert gap * (2.0 * rate) == d;
    assert 2.0 * gap * rate == gap * (2.0 * rate);
    assert gap > 0.0;
  }

  lemma JoinRuns(a: seq<Event>, b: seq<Event>, c: seq<Event>, rate: real, burst: real, skew: real)
    requires Run(a) && Run(b) && Run(c)
    requires SameTerms(a, "k", rate, burst) && SameTerms(b, "k", rate, burst) && SameTerms(c, "k", rate, burst)
    ensures Run(a + b) && Run(a + b + c) && SameTerms(a + b + c, "k", rate, burst)
  {
    RunConcat(a, b);
    RunConcat(a + b, c);
    SameTermsConcat(a, b, rate, burst);
    SameTermsConcat(a + b, c, rate, burst);
  }

  lemma {:induction false} ClockConcat(a: seq<Event>, b: seq<Event>, from: real)
    ensures ClockAfter(from, a + b) == ClockAfter(ClockAfter(from, a), b)
    decreases |a|
  {
    if a == [] {
      assert a + b == b;
    } else {
      assert (a + b)[1..] == a[1..] + b;
      ClockConcat(a[1..], b, Clock(from, a[0]));
    }
  }

  const STALE: seq<Event> := [Call("k", 1.0, 1.0, 0.0), Reap(1801.0), Call("k", 1.0, 1.0, 0.0)]

  /** The run, event by event: the first call takes the only token, the reap takes the
      bucket, and the last call finds none. */
  lemma StaleSteps()
    ensures var m, n := Step(map[], STALE[0]), Step(Step(map[], STALE[0]), STALE[1]);
      m == map["k" := Bucket(0.0, 0.0)] && n == map[]
    ensures Admits(map[], STALE[0]) && Admits(map[], STALE[2])
    ensures Projected(Bucket(1.0, 0.0), 1.0, 0.0) == 1.0
  {
    assert Supply(0.0 - 0.0, 1.0) == 0.0;
  }

  lemma StaleTails()
    ensures STALE[1..][0] == STALE[1] && STALE[1..][1..] == [STALE[2]] && [STALE[2]][1..] == []
    ensures STALE[..2][1..] == [STALE[1]] && [STALE[1]][1..] == []
  {
  }

  /** Without a limit on the lag the bound fails: a call that still carries the first
      call's timestamp finds its bucket reaped and full again. */
  lemma StaleCallAfterReap()
    ensures Run(STALE) && SameTerms(STALE, "k", 1.0, 1.0) && EndsAdmitted(map[], STALE, "k")
    ensures Admissions(map[], STALE, "k") == 2
    ensures Projected(Bucket(1.0, 0.0), 1.0, 0.0) == 1.0
  {
    hide Step, Admits, Projected;
    StaleSteps();
    StaleTails();
    var m := Step(map[], STALE[0]);
    assert Admissions(map[], [STALE[2]], "k") == 1;
    assert Admissions(m, STALE[1..], "k") == 1;
    assert Exec(map[], STALE[..2]) == Exec(m, [STALE[1]]) == map[];
  }

  // ----- a wait of zero

  /** The wait of a refusal, cut to nanoseconds, is 0 if and only if what is missing
      flows in within less than a nanosecond. */
  lemma ZeroWaitIff(tokens: real, rate: real)
    requires rate > 0.0 && tokens < 1.0
    ensures WaitFor(tokens, rate) == 0 <==> (1.0 - tokens) * SECOND as real < rate
  {
    var q := (1.0 - tokens) / rate;
    assert q * rate == 1.0 - tokens;
    var exact := q * SECOND as real;
    assert exact * rate == (1.0 - tokens) * SECOND as real by {
      assert exact * rate == (q * rate) * SECOND as real;
    }
    SmallerThanOne(exact, rate, (1.0 - tokens) * SECOND as real);
    assert q >= 0.0 by { assert q < 0.0 ==> q * rate < 0.0; }
    assert WaitFor(tokens, rate) == exact.Floor;
    FloorIsZero(exact);
  }

  lemma FloorIsZero(x: real)
    requires x >= 0.0
    ensures x.Floor == 0 <==> x < 1.0
  {
  }

  lemma SmallerThanOne(x: real, y: real, z: real)
    requires y > 0.0 && x * y == z
    ensures x < 1.0 <==> z < y
  {
    assert (1.0 - x) * y == y - z;
  }

  /** `n` calls at the same instant. */
  function Repeat(e: Event, n: nat): seq<Event> {
    if n == 0 then [] else [e] + Repeat(e, n - 1)
  }

  lemma {:induction false} Drains(m: Buckets, e: Event, n: nat)
    requires e.Call? && e.burst >= n as real && e.key in m && m[e.key] == Bucket(n as real, e.now)
    ensures e.key in Exec(m, Repeat(e, n)) && Exec(m, Repeat(e, n))[e.key] == Bucket(0.0, e.now)
    decreases n
  {
    if n > 0 {
      assert Supply(e.now - e.now, e.rate) == 0.0;
      assert Repeat(e, n)[1..] == Repeat(e, n - 1);
      assert n as real - 1.0 == (n - 1) as real;
      Drains(Step(m, e), e, n - 1);
    }
  }

  lemma {:induction false} Repeated(e: Event, n: nat, from: real)
    requires Admissible(e) && e.now >= from
    ensures Run(Repeat(e, n)) && Monotone(Repeat(e, n), from)
    decreases n
  {
    if n > 0 {
      assert Repeat(e, n)[1..] == Repeat(e, n - 1);
      Repeated(e, n - 1, Clock(from, e));
    }
  }

  /** Such a refusal occurs: a key of three requests a second uses its burst of six at
      once and asks again 333333333 nanoseconds later. */
  lemma ZeroWaitOccurs() returns (evs: seq<Event>, e: Event)
    ensures e == KeyCall("1", 3, 0.333333333) && evs == Repeat(KeyCall("1", 3, 0.0), 6)
    ensures Run(evs) && Monotone(evs, 0.0)
    ensures Decide(OnHand(Exec(map[], evs), e.key, e.rate, e.burst, e.now), e.rate) == Verdict(false, 0)
  {
    var first := KeyCall("1", 3, 0.0);
    e := KeyCall("1", 3, 0.333333333);
    evs := Repeat(first, 6);
    Repeated(first, 6, 0.0);
    assert evs[1..] == Repeat(first, 5);
    var m := Step(map[], first);
    assert m[first.key] == Bucket(5.0, 0.0) by { assert Supply(0.0 - 0.0, 3.0) == 0.0; }
    Drains(m, first, 5);
    assert Supply(0.333333333 - 0.0, 3.0) == 0.999999999;
    assert OnHand(Exec(map[], evs), e.key, e.rate, e.burst, e.now) == 0.999999999;
    ZeroWaitIff(0.999999999, 3.0);
  }
}
