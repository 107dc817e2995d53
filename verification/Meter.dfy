/** Usage metering (internal/meter/meter.go): producers put events into a bounded
    channel without blocking, one worker aggregates them by key, endpoint and
    minute, and inserts the aggregate in batches. */
module Meter {

  const BUFFER: nat := 4096
  const FLUSH_MAX: nat := 100
  const MINUTE: int := 60_000_000_000   // nanoseconds
  const USAGE_ENDPOINT: string := "/v1/usage"

  datatype Event = Event(keyId: int, endpoint: string, ts: int)

  datatype AggKey = AggKey(keyId: int, endpoint: string, bucket: int)

  type Agg = map<AggKey, nat>

  datatype LogRow = LogRow(key: AggKey, count: nat)

  function Truncate(ts: int): int { ts - ts % MINUTE }

  function KeyOf(e: Event): AggKey { AggKey(e.keyId, e.endpoint, Truncate(e.ts)) }

  /** A request is counted under its own key and endpoint, in the minute it fell into. */
  lemma KeyIs(e: Event)
    ensures KeyOf(e).keyId == e.keyId && KeyOf(e).endpoint == e.endpoint && KeyOf(e).bucket % 60_000_000_000 == 0
    ensures KeyOf(e).bucket <= e.ts < KeyOf(e).bucket + 60_000_000_000
  {
    assert e.ts == e.ts / MINUTE * MINUTE + e.ts % MINUTE;
    WholeMultiple(e.ts / MINUTE);
  }

  lemma WholeMultiple(q: int)
    ensures q * MINUTE % MINUTE == 0
  {
  }

  function Bump(agg: Agg, k: AggKey): Agg {
    agg[k := (if k in agg then agg[k] else 0) + 1]
  }

  // ----- counting

  /** Which requests a count is about: all, those of one aggregate, or those that
      count against a key's monthly cap. */
  datatype Filter =
    | All
    | Exactly(key: AggKey)
    | Billable(keyId: int, month: int)

  predicate Matches(f: Filter, k: AggKey) {
    match f
    case All => true
    case Exactly(key) => k == key
    case Billable(id, month) => k.keyId == id && k.endpoint != USAGE_ENDPOINT && k.bucket >= month
  }

  function Weight(f: Filter, k: AggKey, count: nat): nat {
    if Matches(f, k) then count else 0
  }

  function Queued(q: seq<Event>, f: Filter): nat {
    if q == [] then 0 else Weight(f, KeyOf(q[0]), 1) + Queued(q[1..], f)
  }

  function Logged(rows: seq<LogRow>, f: Filter): nat {
    if rows == [] then 0 else Weight(f, rows[0].key, rows[0].count) + Logged(rows[1..], f)
  }

  ghost function Pending(agg: Agg, f: Filter): nat
    decreases |agg|
  {
    if agg == map[] then 0
    else
      var k :| k in agg;
      Weight(f, k, agg[k]) + Pending(agg - {k}, f)
  }

  lemma {:induction false} QueuedConcat(p: seq<Event>, q: seq<Event>, f: Filter)
    ensures Queued(p + q, f) == Queued(p, f) + Queued(q, f)
  {
    if p == [] {
      assert p + q == q;
    } else {
      assert (p + q)[1..] == p[1..] + q;
      QueuedConcat(p[1..], q, f);
    }
  }

  lemma {:induction false} LoggedConcat(p: seq<LogRow>, q: seq<LogRow>, f: Filter)
    ensures Logged(p + q, f) == Logged(p, f) + Logged(q, f)
  {
    if p == [] {
      assert p + q == q;
    } else {
      assert (p + q)[1..] == p[1..] + q;
      LoggedConcat(p[1..], q, f);
    }
  }

  /** The sum over an aggregate does not depend on the order of its entries. */
  lemma {:induction false} PendingPick(agg: Agg, f: Filter, k: AggKey)
    requires k in agg
    ensures Pending(agg, f) == Weight(f, k, agg[k]) + Pending(agg - {k}, f)
    decreases |agg|
  {
    var j :| j in agg && Pending(agg, f) == Weight(f, j, agg[j]) + Pending(agg - {j}, f);
    if j != k {
      PendingPick(agg - {j}, f, k);
      PendingPick(agg - {k}, f, j);
      assert agg - {j} - {k} == agg - {k} - {j};
    }
  }

  lemma PendingBump(agg: Agg, f: Filter, k: AggKey)
    ensures Pending(Bump(agg, k), f) == Pending(agg, f) + Weight(f, k, 1)
  {
    var next := Bump(agg, k);
    PendingPick(next, f, k);
    assert next - {k} == agg - {k};
    if k in agg {
      PendingPick(agg, f, k);
    } else {
      assert agg - {k} == agg;
    }
  }

  lemma PendingAll(agg: Agg)
    requires forall k :: k in agg ==> agg[k] > 0
    ensures Pending(agg, All) == 0 <==> agg == map[]
  {
    if agg != map[] {
      var k :| k in agg;
      PendingPick(agg, All, k);
    }
  }

  lemma {:induction false} PendingMonotone(agg: Agg, f: Filter)
    ensures Pending(agg, f) <= Pending(agg, All)
    decreases |agg|
  {
    if agg != map[] {
      var k :| k in agg;
      PendingPick(agg, f, k);
      PendingPick(agg, All, k);
      PendingMonotone(agg - {k}, f);
    }
  }

  lemma {:induction false} QueuedMonotone(q: seq<Event>, f: Filter)
    ensures Queued(q, f) <= Queued(q, All) == |q|
  {
    if q != [] { QueuedMonotone(q[1..], f); }
  }

  // ----- counting by the fields of an event

  /** The requests of one key and endpoint within the minute that begins at `minute`. */
  function Hits(events: seq<Event>, id: int, endpoint: string, minute: int): nat {
    if events == [] then 0
    else
      var e := events[0];
      (if e.keyId == id && e.endpoint == endpoint && minute <= e.ts < minute + 60_000_000_000 then 1 else 0)
      + Hits(events[1..], id, endpoint, minute)
  }

  /** What rows of one key, endpoint and minute add up to. */
  function RowSum(rows: seq<LogRow>, id: int, endpoint: string, minute: int): nat {
    if rows == [] then 0
    else
      var k := rows[0].key;
      (if k.keyId == id && k.endpoint == endpoint && k.bucket == minute then rows[0].count else 0)
      + RowSum(rows[1..], id, endpoint, minute)
  }

  lemma InMinute(e: Event, minute: int)
    requires minute % 60_000_000_000 == 0
    ensures KeyOf(e).bucket == minute <==> minute <= e.ts < minute + 60_000_000_000
  {
    KeyIs(e);
    var b := KeyOf(e).bucket;
    assert b == b / MINUTE * MINUTE && minute == minute / MINUTE * MINUTE;
    hide KeyOf;
    assert b / MINUTE < minute / MINUTE ==> b + MINUTE <= minute;
    assert b / MINUTE > minute / MINUTE ==> minute + MINUTE <= b;
  }

  lemma {:induction false} HitsAreQueued(q: seq<Event>, id: int, endpoint: string, minute: int)
    requires minute % 60_000_000_000 == 0
    ensures Queued(q, Exactly(AggKey(id, endpoint, minute))) == Hits(q, id, endpoint, minute)
  {
    if q != [] {
      KeyIs(q[0]);
      InMinute(q[0], minute);
      HitsAreQueued(q[1..], id, endpoint, minute);
    }
  }

  lemma {:induction false} RowSumsAreLogged(rows: seq<LogRow>, id: int, endpoint: string, minute: int)
    ensures Logged(rows, Exactly(AggKey(id, endpoint, minute))) == RowSum(rows, id, endpoint, minute)
  {
    if rows != [] { RowSumsAreLogged(rows[1..], id, endpoint, minute); }
  }

  /** Every request accepted is in exactly the row of its key, endpoint and minute,
      written or lost in a failed insert. */
  ghost predicate Accounted(accepted: seq<Event>, log0: seq<LogRow>, log: seq<LogRow>, lost: seq<LogRow>) {
    && (forall id, endpoint, minute :: minute % 60_000_000_000 == 0 ==>
          RowSum(log, id, endpoint, minute) + RowSum(lost, id, endpoint, minute)
          == RowSum(log0, id, endpoint, minute) + Hits(accepted, id, endpoint, minute))
    && log0 <= log
    && (forall i :: |log0| <= i < |log| ==> log[i].key.bucket % 60_000_000_000 == 0)
    && (forall i :: 0 <= i < |lost| ==> lost[i].key.bucket % 60_000_000_000 == 0)
  }

  /** One row for each entry of the aggregate, in some order. */
  ghost predicate RowsOf(rows: seq<LogRow>, agg: Agg) {
    && (forall i :: 0 <= i < |rows| ==> rows[i].key in agg && rows[i].count == agg[rows[i].key])
    && (forall i, j :: 0 <= i < j < |rows| ==> rows[i].key != rows[j].key)
    && (forall k :: k in agg ==> exists i :: 0 <= i < |rows| && rows[i].key == k)
  }

  lemma RowsOfRest(rows: seq<LogRow>, agg: Agg)
    requires RowsOf(rows, agg) && rows != []
    ensures RowsOf(rows[1..], agg - {rows[0].key})
  {
    var k, rest := rows[0].key, agg - {rows[0].key};
    forall j | j in rest ensures exists i :: 0 <= i < |rows[1..]| && rows[1..][i].key == j {
      var i :| 0 <= i < |rows| && rows[i].key == j;
      assert rows[1..][i - 1].key == j;
    }
  }

  lemma {:induction false} RowsCount(rows: seq<LogRow>, agg: Agg, f: Filter)
    requires RowsOf(rows, agg)
    ensures Logged(rows, f) == Pending(agg, f)
    decreases |rows|
  {
    if rows == [] {
      assert agg == map[];
    } else {
      var k := rows[0].key;
      assert k in agg && rows[0].count == agg[k];
      hide Weight, Pending, RowsOf;
      PendingPick(agg, f, k);
      RowsOfRest(rows, agg);
      RowsCount(rows[1..], agg - {k}, f);
    }
  }

  // ----- the pipeline as a state machine

  /** `Flushing` has handed its rows to the database, `Settled` knows the outcome
      but has not yet reset the aggregate; `last` marks the flush after close. */
  datatype Worker = Collecting | Flushing(last: bool) | Settled(last: bool) | Stopped

  /** `offered`, `accepted` and `lost` only keep accounts. */
  datatype Pipeline = Pipeline(
    queue: seq<Event>, closed: bool, worker: Worker, agg: Agg, n: nat,
    log: seq<LogRow>, offered: nat, accepted: seq<Event>, dropped: nat, lost: seq<LogRow>)

  datatype Step =
    | Offer(e: Event)
    | Receive
    | Tick
    | Drained
    | Commit(rows: seq<LogRow>)
    | Fail(rows: seq<LogRow>)
    | Return
    | CloseChannel

  ghost predicate Enabled(s: Pipeline, a: Step) {
    match a
    case Offer(_) => !s.closed
    case Receive => s.worker.Collecting? && s.queue != []
    case Tick => s.worker.Collecting?
    case Drained => s.worker.Collecting? && s.closed && s.queue == []
    case Commit(rows) => s.worker.Flushing? && RowsOf(rows, s.agg)
    case Fail(rows) => s.worker.Flushing? && RowsOf(rows, s.agg)
    case Return => s.worker.Settled?
    case CloseChannel => !s.closed
  }

  ghost function Apply(s: Pipeline, a: Step): Pipeline
    requires Enabled(s, a)
  {
    match a
    case Offer(e) =>
      if |s.queue| < BUFFER then
        s.(queue := s.queue + [e], offered := s.offered + 1, accepted := s.accepted + [e])
      else
        s.(offered := s.offered + 1, dropped := s.dropped + 1)
    case Receive =>
      s.(queue := s.queue[1..], agg := Bump(s.agg, KeyOf(s.queue[0])), n := s.n + 1,
         worker := if s.n + 1 >= FLUSH_MAX then Flushing(false) else Collecting)
    case Tick => if s.agg == map[] then s else s.(worker := Flushing(false))
    case Drained => s.(worker := if s.agg == map[] then Stopped else Flushing(true))
    case Commit(rows) => s.(log := s.log + rows, worker := Settled(s.worker.last))
    case Fail(rows) => s.(lost := s.lost + rows, worker := Settled(s.worker.last))
    case Return => s.(agg := map[], n := 0, worker := if s.worker.last then Stopped else Collecting)
    case CloseChannel => s.(closed := true)
  }

  ghost predicate Fresh(s: Pipeline) {
    && s.queue == [] && !s.closed && s.worker == Collecting && s.agg == map[] && s.n == 0
    && s.offered == 0 && s.accepted == [] && s.dropped == 0 && s.lost == []
  }

  /** What the aggregate holds that the database or the losses do not hold yet. */
  ghost function Unsettled(s: Pipeline, f: Filter): nat {
    if s.worker.Settled? then 0 else Pending(s.agg, f)
  }

  predicate WholeMinute(k: AggKey) { k.bucket % 60_000_000_000 == 0 }

  ghost predicate WholeMinutes(rows: seq<LogRow>) {
    forall i :: 0 <= i < |rows| ==> WholeMinute(rows[i].key)
  }

  /** The table has only grown, and what was added, is lost or waits in the aggregate
      belongs to whole minutes. */
  ghost predicate AddsWholeMinutes(s: Pipeline, log0: seq<LogRow>) {
    && log0 <= s.log && WholeMinutes(s.log[|log0|..]) && WholeMinutes(s.lost)
    && (forall k :: k in s.agg ==> WholeMinute(k))
  }

  ghost predicate Conserves(s: Pipeline, log0: seq<LogRow>, f: Filter) {
    Queued(s.accepted, f) + Logged(log0, f)
    == Queued(s.queue, f) + Unsettled(s, f) + Logged(s.log, f) + Logged(s.lost, f)
  }

  /** `log0` is what the table held before the process started. */
  ghost predicate Invariant(s: Pipeline, log0: seq<LogRow>) {
    && s.offered == |s.accepted| + s.dropped
    && |s.queue| <= BUFFER
    && (forall f :: Conserves(s, log0, f))
    && AddsWholeMinutes(s, log0)
    && s.n == Pending(s.agg, All)
    && (forall k :: k in s.agg ==> s.agg[k] > 0)
    && s.n <= FLUSH_MAX
    && (s.worker.Collecting? ==> s.n < FLUSH_MAX)
    && (s.worker.Flushing? ==> s.n > 0)
    && (s.worker.Stopped? ==> s.closed && s.queue == [] && s.agg == map[])
    && ((s.worker.Flushing? || s.worker.Settled?) && s.worker.last ==> s.closed && s.queue == [])
  }

  lemma OfferConserves(s: Pipeline, e: Event, log0: seq<LogRow>, f: Filter)
    requires Enabled(s, Offer(e)) && Conserves(s, log0, f)
    ensures Conserves(Apply(s, Offer(e)), log0, f)
  {
    hide Weight, Pending, Logged, Queued;
    QueuedConcat(s.queue, [e], f);
    QueuedConcat(s.accepted, [e], f);
  }

  lemma ReceiveConserves(s: Pipeline, log0: seq<LogRow>, f: Filter)
    requires Enabled(s, Receive) && Conserves(s, log0, f)
    ensures Conserves(Apply(s, Receive), log0, f)
  {
    hide Bump, Matches;
    PendingBump(s.agg, f, KeyOf(s.queue[0]));
  }

  lemma WriteConserves(s: Pipeline, a: Step, rows: seq<LogRow>, log0: seq<LogRow>, f: Filter)
    requires (a == Commit(rows) || a == Fail(rows)) && Enabled(s, a) && Conserves(s, log0, f)
    ensures Conserves(Apply(s, a), log0, f)
  {
    hide RowsOf, Weight, Pending, Logged;
    LoggedConcat(s.log, rows, f);
    LoggedConcat(s.lost, rows, f);
    RowsCount(rows, s.agg, f);
  }

  lemma StepConserves(s: Pipeline, a: Step, log0: seq<LogRow>, f: Filter)
    requires Enabled(s, a) && Conserves(s, log0, f)
    ensures Conserves(Apply(s, a), log0, f)
  {
    match a {
      case Offer(e) => OfferConserves(s, e, log0, f);
      case Receive => ReceiveConserves(s, log0, f);
      case Commit(rows) => WriteConserves(s, a, rows, log0, f);
      case Fail(rows) => WriteConserves(s, a, rows, log0, f);
      case _ =>
    }
  }

  lemma WriteAddsWholeMinutes(s: Pipeline, a: Step, rows: seq<LogRow>, log0: seq<LogRow>)
    requires (a == Commit(rows) || a == Fail(rows)) && Enabled(s, a) && AddsWholeMinutes(s, log0)
    ensures AddsWholeMinutes(Apply(s, a), log0)
  {
    assert (s.log + rows)[|log0|..] == s.log[|log0|..] + rows;
  }

  lemma StepAddsWholeMinutes(s: Pipeline, a: Step, log0: seq<LogRow>)
    requires Enabled(s, a) && AddsWholeMinutes(s, log0)
    ensures AddsWholeMinutes(Apply(s, a), log0)
  {
    match a {
      case Commit(rows) => WriteAddsWholeMinutes(s, a, rows, log0);
      case Fail(rows) => WriteAddsWholeMinutes(s, a, rows, log0);
      case Receive => KeyIs(s.queue[0]);
      case _ =>
    }
  }

  lemma StepKeeps(s: Pipeline, a: Step, log0: seq<LogRow>)
    requires Enabled(s, a) && Invariant(s, log0)
    ensures Invariant(Apply(s, a), log0)
  {
    forall f ensures Conserves(Apply(s, a), log0, f) {
      StepConserves(s, a, log0, f);
    }
    StepAddsWholeMinutes(s, a, log0);
    hide AddsWholeMinutes;
    PendingAll(s.agg);
    if a.Receive? { PendingBump(s.agg, All, KeyOf(s.queue[0])); }
  }

  ghost predicate Reachable(s: Pipeline, log0: seq<LogRow>, steps: seq<Step>)
    decreases |steps|
  {
    if steps == [] then Fresh(s) && s.log == log0
    else
      var a := steps[|steps| - 1];
      exists p :: Reachable(p, log0, steps[..|steps| - 1]) && Enabled(p, a) && s == Apply(p, a)
  }

  /** In every reachable state nothing is created or forgotten: offered requests are
      accepted or dropped, and for every aggregate (and every other selection) what
      was accepted is queued, aggregated, written or lost in a failed insert. */
  lemma {:induction false} Conservation(s: Pipeline, log0: seq<LogRow>, steps: seq<Step>)
    requires Reachable(s, log0, steps)
    ensures Invariant(s, log0)
    decreases |steps|
  {
    if steps != [] {
      var a := steps[|steps| - 1];
      var p :| Reachable(p, log0, steps[..|steps| - 1]) && Enabled(p, a) && s == Apply(p, a);
      Conservation(p, log0, steps[..|steps| - 1]);
      StepKeeps(p, a, log0);
    }
  }

  lemma SettledIsAccounted(s: Pipeline, log0: seq<LogRow>)
    requires Invariant(s, log0) && s.worker.Stopped?
    ensures Accounted(s.accepted, log0, s.log, s.lost)
  {
    forall id, endpoint, minute | minute % 60_000_000_000 == 0
      ensures RowSum(s.log, id, endpoint, minute) + RowSum(s.lost, id, endpoint, minute)
              == RowSum(log0, id, endpoint, minute) + Hits(s.accepted, id, endpoint, minute)
    {
      AccountedFor(s, log0, id, endpoint, minute);
    }
    AddedRows(s, log0);
    hide Invariant, AddsWholeMinutes, RowSum, Hits;
  }

  lemma AddedRows(s: Pipeline, log0: seq<LogRow>)
    requires AddsWholeMinutes(s, log0)
    ensures forall i :: |log0| <= i < |s.log| ==> s.log[i].key.bucket % 60_000_000_000 == 0
    ensures forall i :: 0 <= i < |s.lost| ==> s.lost[i].key.bucket % 60_000_000_000 == 0
  {
    forall i | |log0| <= i < |s.log| ensures s.log[i].key.bucket % 60_000_000_000 == 0 {
      assert s.log[i] == s.log[|log0|..][i - |log0|];
    }
  }

  lemma AccountedFor(s: Pipeline, log0: seq<LogRow>, id: int, endpoint: string, minute: int)
    requires Invariant(s, log0) && s.worker.Stopped? && minute % 60_000_000_000 == 0
    ensures RowSum(s.log, id, endpoint, minute) + RowSum(s.lost, id, endpoint, minute)
            == RowSum(log0, id, endpoint, minute) + Hits(s.accepted, id, endpoint, minute)
  {
    var f := Exactly(AggKey(id, endpoint, minute));
    assert Conserves(s, log0, f);
    assert Queued(s.queue, f) == 0 && Unsettled(s, f) == 0;
    hide Invariant, Weight, Queued, Logged, Pending, RowSum, Hits;
    HitsAreQueued(s.accepted, id, endpoint, minute);
    RowSumsAreLogged(log0, id, endpoint, minute);
    RowSumsAreLogged(s.log, id, endpoint, minute);
    RowSumsAreLogged(s.lost, id, endpoint, minute);
  }

  /** Once the worker has stopped, everything accepted has been written or was lost in a
      failed insert: under its own key and endpoint, and in its own minute. */
  lemma NothingLeftBehind(s: Pipeline, log0: seq<LogRow>, steps: seq<Step>)
    requires Reachable(s, log0, steps) && s.worker.Stopped?
    ensures s.queue == [] && s.agg == map[] && s.closed
    ensures |s.accepted| + s.dropped == s.offered
    ensures forall k :: Queued(s.accepted, Exactly(k)) + Logged(log0, Exactly(k))
                        == Logged(s.log, Exactly(k)) + Logged(s.lost, Exactly(k))
    ensures Accounted(s.accepted, log0, s.log, s.lost)
  {
    Conservation(s, log0, steps);
    SettledIsAccounted(s, log0);
    forall k ensures Queued(s.accepted, Exactly(k)) + Logged(log0, Exactly(k))
                     == Logged(s.log, Exactly(k)) + Logged(s.lost, Exactly(k)) {
      assert Conserves(s, log0, Exactly(k));
    }
  }

  // ----- the meter as it runs

  /** One moment of the running service. */
  datatype Turn = Arrive(e: Event) | Take | Timer

  function Arrivals(turns: seq<Turn>): nat {
    if turns == [] then 0 else Arrivals(turns[..|turns| - 1]) + (if turns[|turns| - 1].Arrive? then 1 else 0)
  }

  class Meter {
    var ch: seq<Event>
    var closed: bool
    var dropped: nat
    var agg: Agg
    var n: nat
    var done: bool
    var log: seq<LogRow>   // the usage_log table
    ghost var offered: nat
    ghost var accepted: seq<Event>
    ghost var lost: seq<LogRow>

    ghost function State(): Pipeline
      reads this
    {
      Pipeline(ch, closed, if done then Stopped else Collecting, agg, n, log, offered, accepted, dropped, lost)
    }

    constructor (log: seq<LogRow>)
      ensures Fresh(State()) && this.log == log
      ensures Invariant(State(), log)
    {
      ch, closed, dropped, agg, n, done := [], false, 0, map[], 0, false;
      this.log := log;
      offered, accepted, lost := 0, [], [];
    }

    /** Counts one authenticated request; never blocks. */
    method Middleware(e: Event)
      requires !closed
      modifies this
      ensures old(|ch|) < 4096 ==>
        ch == old(ch) + [e] && accepted == old(accepted) + [e] && dropped == old(dropped)
      ensures old(|ch|) >= 4096 ==> ch == old(ch) && accepted == old(accepted) && dropped == old(dropped) + 1
      ensures State() == Apply(old(State()), Offer(e))
    {
      if |ch| < BUFFER {
        ch := ch + [e];
        accepted := accepted + [e];
      } else {
        dropped := dropped + 1;
      }
      offered := offered + 1;
    }

    /** Inserts the aggregate with one COPY, which takes effect entirely or not at all. */
    method Insert() returns (ghost rows: seq<LogRow>, ok: bool)
      modifies this`log, this`lost
      ensures RowsOf(rows, agg)
      ensures log == if ok then old(log) + rows else old(log)
      ensures lost == if ok then old(lost) else old(lost) + rows
    {
      var out: seq<LogRow> := [];
      var keys := agg.Keys;
      while keys != {}
        invariant keys <= agg.Keys
        invariant forall i :: 0 <= i < |out| ==>
                    out[i].key in agg && out[i].key !in keys && out[i].count == agg[out[i].key]
        invariant forall i, j :: 0 <= i < j < |out| ==> out[i].key != out[j].key
        invariant forall k :: k in agg && k !in keys ==> exists i :: 0 <= i < |out| && out[i].key == k
        decreases |keys|
      {
        var k :| k in keys;
        ghost var before := out;
        out := out + [LogRow(k, agg[k])];
        keys := keys - {k};
        assert out[|before|].key == k;
        forall j | j in agg && j !in keys ensures exists i :: 0 <= i < |out| && out[i].key == j {
          if j != k {
            var i :| 0 <= i < |before| && before[i].key == j;
            assert out[i].key == j;
          }
        }
      }
      rows := out;
      ok := *;
      if ok {
        log := log + out;
      } else {
        lost := lost + out;
      }
    }

    method Flush(ghost log0: seq<LogRow>)
      requires !done
      modifies this`log, this`lost, this`agg, this`n
      ensures agg == map[]
      ensures old(agg) == map[] ==> State() == old(State())
      ensures old(agg) != map[] ==> n == 0 && Wrote(old(agg), old(log), log, old(lost), lost)
      ensures old(agg) != map[] ==> Flushed(old(State()), State())
      ensures Invariant(old(State()), log0) ==> Invariant(State(), log0)
    {
      hide RowsOf, Invariant, Wrote;
      if |agg| == 0 {
        return;
      }
      ghost var before := State();
      ghost var rows, ok := Insert();
      agg := map[];
      n := 0;
      assert State() == FlushResult(before, rows, ok);
      FlushedIs(before, State());
      if Invariant(before, log0) { FlushKeeps(before, State(), log0); }
    }

    /** One turn of the worker's loop that takes an event from the channel. */
    method Receive(ghost log0: seq<LogRow>)
      requires !done && ch != []
      modifies this`ch, this`agg, this`n, this`log, this`lost
      ensures ch == old(ch[1..])
      ensures var e := old(ch[0]);
        var k := AggKey(e.keyId, e.endpoint, e.ts - e.ts % 60_000_000_000);
        var counted := old(agg)[k := (if k in old(agg) then old(agg)[k] else 0) + 1];
        if old(n) < 99
        then agg == counted && n == old(n) + 1 && log == old(log) && lost == old(lost)
        else agg == map[] && n == 0 && Wrote(counted, old(log), log, old(lost), lost)
      ensures Received(old(State()), State())
    {
      hide FlushResult, RowsOf, Invariant, Wrote;
      ghost var before := State();
      var e := ch[0];
      ch := ch[1..];
      var k := KeyOf(e);
      agg := agg[k := (if k in agg then agg[k] else 0) + 1];
      n := n + 1;
      ghost var taken := State();
      assert taken == Apply(before, Step.Receive).(worker := Collecting);
      if n >= FLUSH_MAX {
        assert k in agg;
        Flush(log0);
        assert Flushed(taken, State());
      }
      ReceivedIs(before, State());
    }

    /** The loop while the service runs: any schedule of arrivals, events taken by the
        worker and ticks of its timer. */
    method Serve(ghost log0: seq<LogRow>, turns: seq<Turn>)
      requires !closed && !done && Invariant(State(), log0)
      modifies this
      ensures !closed && !done && Invariant(State(), log0)
      ensures offered == old(offered) + Arrivals(turns) && old(accepted) <= accepted
      ensures |accepted| + dropped == old(|accepted| + dropped) + Arrivals(turns)
    {
      hide Invariant, Received, Flushed, Wrote;
      OfferedIs(State(), log0);
      for i := 0 to |turns|
        invariant !closed && !done && Invariant(State(), log0)
        invariant offered == old(offered) + Arrivals(turns[..i]) && old(accepted) <= accepted
      {
        assert turns[..i + 1][..i] == turns[..i];
        ghost var before := State();
        match turns[i] {
          case Arrive(e) =>
            StepKeeps(before, Offer(e), log0);
            Middleware(e);
          case Take =>
            if |ch| > 0 {
              Receive(log0);
              ReceiveKeeps(before, State(), log0);
            }
          case Timer => Flush(log0);
        }
      }
      assert turns[..|turns|] == turns;
      OfferedIs(State(), log0);
    }

    /** The worker's loop from the moment the channel is closed, with `ticks` more
        ticks of the flush timer at moments of the runtime's choosing. */
    method Run(ghost log0: seq<LogRow>, ticks: nat)
      requires closed && !done && Invariant(State(), log0)
      modifies this`ch, this`agg, this`n, this`log, this`lost, this`done
      ensures done && ch == [] && agg == map[] && n == 0
      ensures Invariant(State(), log0)
    {
      hide Invariant, Received, Flushed, Wrote;
      var left := ticks;
      while true
        invariant !done && Invariant(State(), log0)
        decreases |ch| + left
      {
        var fires: bool := *;
        if fires && left > 0 {
          Flush(log0);
          left := left - 1;
        } else if |ch| > 0 {
          ghost var before := State();
          Receive(log0);
          ReceiveKeeps(before, State(), log0);
        } else {
          Flush(log0);
          StepKeeps(State(), Drained, log0);
          EmptyBatch(State(), log0);
          done := true;
          return;
        }
      }
    }

    /** Close: stop accepting, then wait for the worker. */
    method Close(ghost log0: seq<LogRow>, ticks: nat)
      requires !closed && !done && Invariant(State(), log0)
      modifies this`closed, this`ch, this`agg, this`n, this`log, this`lost, this`done
      ensures closed && done && ch == [] && agg == map[]
      ensures Invariant(State(), log0) && accepted == old(accepted)
      ensures Accounted(accepted, log0, log, lost)
      ensures forall k :: Queued(accepted, Exactly(k)) + Logged(log0, Exactly(k))
                          == Logged(log, Exactly(k)) + Logged(lost, Exactly(k))
    {
      StepKeeps(State(), CloseChannel, log0);
      closed := true;
      Run(log0, ticks);
      SettledIsAccounted(State(), log0);
      forall k ensures Queued(accepted, Exactly(k)) + Logged(log0, Exactly(k))
                       == Logged(log, Exactly(k)) + Logged(lost, Exactly(k)) {
        assert Conserves(State(), log0, Exactly(k));
      }
    }
  }

  lemma EmptyBatch(s: Pipeline, log0: seq<LogRow>)
    requires Invariant(s, log0) && s.agg == map[]
    ensures s.n == 0
  {
  }

  lemma OfferedIs(s: Pipeline, log0: seq<LogRow>)
    requires Invariant(s, log0)
    ensures s.offered == |s.accepted| + s.dropped
  {
  }

  /** A whole flush, from handing over the rows to the reset aggregate. */
  ghost function FlushResult(s: Pipeline, rows: seq<LogRow>, ok: bool): Pipeline
    requires RowsOf(rows, s.agg)
  {
    var handed := s.(worker := Flushing(false));
    Apply(Apply(handed, if ok then Commit(rows) else Fail(rows)), Return)
  }

  ghost predicate Flushed(s: Pipeline, t: Pipeline) {
    exists rows, ok :: RowsOf(rows, s.agg) && t == FlushResult(s, rows, ok)
  }

  lemma FlushKeeps(s: Pipeline, t: Pipeline, log0: seq<LogRow>)
    requires s.agg != map[] && s.worker.Collecting? && Invariant(s, log0) && Flushed(s, t)
    ensures Invariant(t, log0)
  {
    var rows, ok :| RowsOf(rows, s.agg) && t == FlushResult(s, rows, ok);
    var a := if ok then Commit(rows) else Fail(rows);
    StepKeeps(s, Tick, log0);
    var handed := Apply(s, Tick);
    StepKeeps(handed, a, log0);
    StepKeeps(Apply(handed, a), Return, log0);
  }

  /** A receive, with the flush it triggers when the batch is full. */
  ghost predicate Received(s: Pipeline, t: Pipeline)
    requires Enabled(s, Step.Receive)
  {
    var r := Apply(s, Step.Receive);
    if r.worker.Flushing? then Flushed(r.(worker := Collecting), t) else t == r
  }

  /** The rows of an aggregate have been added to the table, or to the losses. */
  ghost predicate Wrote(agg: Agg, log: seq<LogRow>, log': seq<LogRow>, lost: seq<LogRow>, lost': seq<LogRow>) {
    exists rows | RowsOf(rows, agg) :: (log' == log + rows && lost' == lost) || (log' == log && lost' == lost + rows)
  }

  lemma FlushedIs(s: Pipeline, t: Pipeline)
    requires Flushed(s, t)
    ensures t.agg == map[] && t.n == 0 && Wrote(s.agg, s.log, t.log, s.lost, t.lost)
  {
  }

  /** The hundredth event of a batch has the batch written, any other is only counted. */
  lemma ReceivedIs(s: Pipeline, t: Pipeline)
    requires Enabled(s, Step.Receive) && Received(s, t)
    ensures var e := s.queue[0];
      var k := AggKey(e.keyId, e.endpoint, e.ts - e.ts % 60_000_000_000);
      var counted := s.agg[k := (if k in s.agg then s.agg[k] else 0) + 1];
      if s.n < 99
      then t.agg == counted && t.n == s.n + 1 && t.log == s.log && t.lost == s.lost
      else t.agg == map[] && t.n == 0 && Wrote(counted, s.log, t.log, s.lost, t.lost)
  {
    var r := Apply(s, Step.Receive);
    if r.worker.Flushing? { FlushedIs(r.(worker := Collecting), t); }
    hide Wrote, FlushResult, RowsOf;
  }

  lemma ReceiveKeeps(s: Pipeline, t: Pipeline, log0: seq<LogRow>)
    requires Enabled(s, Step.Receive) && Invariant(s, log0) && Received(s, t)
    ensures Invariant(t, log0)
  {
    StepKeeps(s, Step.Receive, log0);
    var r := Apply(s, Step.Receive);
    if r.worker.Flushing? {
      var rows, ok :| RowsOf(rows, r.agg) && t == FlushResult(r.(worker := Collecting), rows, ok);
      var a := if ok then Commit(rows) else Fail(rows);
      StepKeeps(r, a, log0);
      StepKeeps(Apply(r, a), Return, log0);
    }
  }
}
