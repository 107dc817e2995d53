/** The monthly hard cap (internal/auth/auth.go) against a usage log that lags
    behind.  Requests pass the cap check, then the key's rate limiter, then the
    meter, in the order internal/api/server.go chains them; any number of them are
    between two of these stages while the worker of the meter runs. */
module MonthlyCap {
  import opened Meter

  datatype Request = Request(keyId: int, endpoint: string)

  /** `requests` are those past the cap check that the meter has not seen yet. */
  datatype System = System(pipe: Pipeline, requests: map<nat, Request>)

  datatype Action =
    | CapCheck(id: nat, req: Request, cap: int)   // the cap the lookup returned, cached or not
    | RateRefused(id: nat)
    | Metered(id: nat, ts: int)
    | WorkerStep(step: Step)

  /** Usage of the month: its requests in the log, without the usage endpoint. */
  function MonthlyUsage(log: seq<LogRow>, keyId: int, month: int): nat {
    Logged(log, Billable(keyId, month))
  }

  /** A cap of 0 is none. */
  predicate PassesCap(log: seq<LogRow>, cap: int, req: Request, month: int) {
    cap > 0 && req.endpoint != USAGE_ENDPOINT ==> MonthlyUsage(log, req.keyId, month) < cap
  }

  ghost predicate CanAct(s: System, a: Action) {
    match a
    case CapCheck(id, _, _) => id !in s.requests && !s.pipe.closed
    case RateRefused(id) => id in s.requests
    case Metered(id, _) => id in s.requests && !s.pipe.closed
    case WorkerStep(step) =>
      !step.Offer? && Enabled(s.pipe, step) && (step.CloseChannel? ==> s.requests == map[])
  }

  ghost function Act(s: System, a: Action, month: int): System
    requires CanAct(s, a)
  {
    match a
    case CapCheck(id, req, cap) =>
      if PassesCap(s.pipe.log, cap, req, month) then s.(requests := s.requests[id := req]) else s
    case RateRefused(id) => s.(requests := s.requests - {id})
    case Metered(id, ts) =>
      var r := s.requests[id];
      System(Apply(s.pipe, Offer(Event(r.keyId, r.endpoint, ts))), s.requests - {id})
    case WorkerStep(step) => s.(pipe := Apply(s.pipe, step))
  }

  ghost predicate Behaviour(tr: seq<System>, acts: seq<Action>, month: int) {
    && |tr| == |acts| + 1
    && Fresh(tr[0].pipe) && tr[0].requests == map[]
    && forall i :: 0 <= i < |acts| ==> CanAct(tr[i], acts[i]) && tr[i + 1] == Act(tr[i], acts[i], month)
  }

  // ----- what each stage does

  /** What the log counts for a key from the start of the month on: its requests to any
      endpoint but /v1/usage. */
  function Counted(log: seq<LogRow>, keyId: int, month: int): nat {
    if log == [] then 0
    else
      var k := log[0].key;
      (if k.keyId == keyId && k.endpoint != "/v1/usage" && k.bucket >= month then log[0].count else 0)
      + Counted(log[1..], keyId, month)
  }

  lemma {:induction false} UsageIsCounted(log: seq<LogRow>, keyId: int, month: int)
    ensures MonthlyUsage(log, keyId, month) == Counted(log, keyId, month)
  {
    if log != [] { UsageIsCounted(log[1..], keyId, month); }
  }

  /** A request gets through the check if and only if the key has no cap, it asks for the
      usage itself, or less than the cap has been logged; a refused one leaves no trace. */
  lemma CheckDecides(s: System, id: nat, req: Request, cap: int, month: int)
    requires id !in s.requests && !s.pipe.closed
    ensures CanAct(s, CapCheck(id, req, cap))
    ensures var t := Act(s, CapCheck(id, req, cap), month);
      && t.pipe == s.pipe
      && (id in t.requests <==>
            cap <= 0 || req.endpoint == "/v1/usage" || Counted(s.pipe.log, req.keyId, month) < cap)
      && t.requests == (if id in t.requests then s.requests[id := req] else s.requests)
  {
    UsageIsCounted(s.pipe.log, req.keyId, month);
  }

  /** A request that is past the check is refused by the rate limiter and gone, or reaches
      the meter as one event of its key and endpoint, which is dropped only when 4096 wait. */
  lemma PastTheCheck(s: System, id: nat, ts: int, month: int)
    requires id in s.requests && !s.pipe.closed
    ensures CanAct(s, RateRefused(id)) && Act(s, RateRefused(id), month) == System(s.pipe, s.requests - {id})
    ensures CanAct(s, Metered(id, ts)) &&
      var t, e := Act(s, Metered(id, ts), month), Event(s.requests[id].keyId, s.requests[id].endpoint, ts);
      && t.requests == s.requests - {id}
      && t.pipe.log == s.pipe.log && t.pipe.agg == s.pipe.agg && t.pipe.lost == s.pipe.lost
      && if |s.pipe.queue| < 4096
         then t.pipe.queue == s.pipe.queue + [e] && t.pipe.dropped == s.pipe.dropped
         else t.pipe.queue == s.pipe.queue && t.pipe.dropped == s.pipe.dropped + 1
  {
  }

  // ----- what counts against a cap

  predicate Bills(req: Request, keyId: int) { req.keyId == keyId && req.endpoint != USAGE_ENDPOINT }

  function BillsOf(requests: map<nat, Request>, keyId: int): set<nat> {
    set id | id in requests && Bills(requests[id], keyId)
  }

  function InFlight(requests: map<nat, Request>, keyId: int): nat {
    |BillsOf(requests, keyId)|
  }

  /** Everything of the key that is or may still come into the log. */
  ghost function Committed(s: System, keyId: int, month: int): nat {
    var f := Billable(keyId, month);
    Logged(s.pipe.log, f) + Unsettled(s.pipe, f) + Queued(s.pipe.queue, f) + InFlight(s.requests, keyId)
  }

  lemma AddRequest(requests: map<nat, Request>, id: nat, req: Request, keyId: int)
    requires id !in requests
    ensures InFlight(requests[id := req], keyId)
            == InFlight(requests, keyId) + if Bills(req, keyId) then 1 else 0
  {
    var before, after := BillsOf(requests, keyId), BillsOf(requests[id := req], keyId);
    if Bills(req, keyId) {
      assert after == before + {id};
    } else {
      assert after == before;
    }
  }

  lemma RemoveRequest(requests: map<nat, Request>, id: nat, keyId: int)
    requires id in requests
    ensures InFlight(requests, keyId)
            == InFlight(requests - {id}, keyId) + if Bills(requests[id], keyId) then 1 else 0
  {
    AddRequest(requests - {id}, id, requests[id], keyId);
    assert (requests - {id})[id := requests[id]] == requests;
  }

  /** Only a passed cap check can add to what is committed. */
  lemma OnlyChecksAdd(s: System, a: Action, month: int, keyId: int)
    requires CanAct(s, a) && !a.CapCheck?
    ensures Committed(Act(s, a, month), keyId, month) <= Committed(s, keyId, month)
  {
    var f := Billable(keyId, month);
    match a {
      case RateRefused(id) => RemoveRequest(s.requests, id, keyId);
      case Metered(id, ts) =>
        var r := s.requests[id];
        QueuedConcat(s.pipe.queue, [Event(r.keyId, r.endpoint, ts)], f);
        RemoveRequest(s.requests, id, keyId);
      case WorkerStep(step) =>
        match step {
          case Receive => PendingBump(s.pipe.agg, f, KeyOf(s.pipe.queue[0]));
          case Commit(rows) =>
            LoggedConcat(s.pipe.log, rows, f);
            RowsCount(rows, s.pipe.agg, f);
          case _ =>
        }
    }
  }

  /** What a check that passes may not know of: a full queue, a full batch, and the
      requests that passed before it. */
  lemma CheckBounds(s: System, log0: seq<LogRow>, id: nat, req: Request, cap: int, month: int)
    requires Invariant(s.pipe, log0) && CanAct(s, CapCheck(id, req, cap))
    requires cap > 0 && req.endpoint != USAGE_ENDPOINT
    requires PassesCap(s.pipe.log, cap, req, month)
    ensures var t := Act(s, CapCheck(id, req, cap), month);
            Committed(t, req.keyId, month)
            <= cap - 1 + BUFFER + FLUSH_MAX + InFlight(t.requests, req.keyId)
  {
    var f := Billable(req.keyId, month);
    QueuedMonotone(s.pipe.queue, f);
    PendingMonotone(s.pipe.agg, f);
  }

  /** Every request of the key that is checked sees some cap, and none above `largest`:
      a cached key may carry a cap that has been changed since. */
  ghost predicate CapsUpTo(acts: seq<Action>, keyId: int, largest: int) {
    forall i :: 0 <= i < |acts| && acts[i].CapCheck? && Bills(acts[i].req, keyId) ==> 0 < acts[i].cap <= largest
  }

  /** The cap can be overshot, but only by what the queue, one batch and the `c`
      requests between check and meter can hold: in every interleaving, what is
      stored, aggregated, queued and in flight stays within that bound of the largest
      cap seen, or within what the log already held at the start if that was more. */
  lemma {:induction false} OvershootBound(tr: seq<System>, acts: seq<Action>, month: int, keyId: int, largest: int,
                                          c: nat, n: nat)
    requires Behaviour(tr, acts, month) && n < |tr|
    requires CapsUpTo(acts, keyId, largest)
    requires forall i :: 0 <= i < |tr| ==> InFlight(tr[i].requests, keyId) <= c
    ensures Invariant(tr[n].pipe, tr[0].pipe.log)
    ensures Committed(tr[n], keyId, month)
            <= Max(MonthlyUsage(tr[0].pipe.log, keyId, month), largest - 1 + BUFFER + FLUSH_MAX + c)
  {
    if n == 0 {
      assert BillsOf(tr[0].requests, keyId) == {};
    } else {
      OvershootBound(tr, acts, month, keyId, largest, c, n - 1);
      var s, a, t := tr[n - 1], acts[n - 1], tr[n];
      assert t == Act(s, a, month);
      ActKeeps(s, a, month, tr[0].pipe.log);
      if a.CapCheck? {
        AddRequest(s.requests, a.id, a.req, keyId);
        if Bills(a.req, keyId) && PassesCap(s.pipe.log, a.cap, a.req, month) {
          CheckBounds(s, tr[0].pipe.log, a.id, a.req, a.cap, month);
        }
      } else {
        OnlyChecksAdd(s, a, month, keyId);
      }
    }
  }

  lemma ActKeeps(s: System, a: Action, month: int, log0: seq<LogRow>)
    requires CanAct(s, a) && Invariant(s.pipe, log0)
    ensures Invariant(Act(s, a, month).pipe, log0)
  {
    match a {
      case Metered(id, ts) =>
        StepKeeps(s.pipe, Offer(Event(s.requests[id].keyId, s.requests[id].endpoint, ts)), log0);
      case WorkerStep(step) => StepKeeps(s.pipe, step, log0);
      case _ =>
    }
  }

  /** The same of the log alone: the requests counted against a key exceed neither the
      largest cap by more than 4195 and the requests between check and meter, nor what
      the log held at the start; and each check on the way decides by the log it sees. */
  lemma LoggedOvershoot(tr: seq<System>, acts: seq<Action>, month: int, keyId: int, largest: int, c: nat, n: nat)
    requires Behaviour(tr, acts, month) && n < |tr|
    requires CapsUpTo(acts, keyId, largest)
    requires forall i :: 0 <= i < |tr| ==> InFlight(tr[i].requests, keyId) <= c
    ensures Counted(tr[n].pipe.log, keyId, month) <= Counted(tr[0].pipe.log, keyId, month)
            || Counted(tr[n].pipe.log, keyId, month) <= largest + 4195 + c
    ensures forall i :: 0 <= i < |acts| && acts[i].CapCheck? ==>
      var a := acts[i];
      a.id in tr[i + 1].requests <==>
        a.cap <= 0 || a.req.endpoint == "/v1/usage" || Counted(tr[i].pipe.log, a.req.keyId, month) < a.cap
  {
    OvershootBound(tr, acts, month, keyId, largest, c, n);
    UsageIsCounted(tr[0].pipe.log, keyId, month);
    UsageIsCounted(tr[n].pipe.log, keyId, month);
    forall i | 0 <= i < |acts| && acts[i].CapCheck?
      ensures var a := acts[i];
        a.id in tr[i + 1].requests <==>
          a.cap <= 0 || a.req.endpoint == "/v1/usage" || Counted(tr[i].pipe.log, a.req.keyId, month) < a.cap
    {
      assert CanAct(tr[i], acts[i]) && tr[i + 1] == Act(tr[i], acts[i], month);
      CheckDecides(tr[i], acts[i].id, acts[i].req, acts[i].cap, month);
    }
  }

  function Max(a: int, b: int): int { if a < b then b else a }

  /** A month starts on a whole minute, so cutting an event's time to the minute never
      moves it into another month: the log's lower bound selects the right events. */
  lemma TruncationKeepsMonth(ts: int, month: int)
    requires month % MINUTE == 0
    ensures Truncate(ts) >= month <==> ts >= month
  {
    var q, d := ts / MINUTE, month / MINUTE;
    assert ts == q * MINUTE + ts % MINUTE && month == d * MINUTE;
    if ts >= month { assert q >= d; }
  }
}
