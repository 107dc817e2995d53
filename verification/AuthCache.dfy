/** Cached API key lookup (internal/auth/auth.go) under concurrent lookups and
    changes of the key table.  A lookup is four separate actions: read the clock,
    look in the cache under the mutex, read the database, store under the mutex. */
module AuthCache {
  import opened Options

  datatype Row = Row(id: int, scopes: seq<string>, rateRPS: int, monthlyCap: int)

  datatype Entry = Entry(row: Row, expires: int)

  type Cache = map<string, Entry>

  const DEFAULT_TTL: int := 30_000_000_000

  /** The lifetime configured by the environment; `parsed` is the value as a
      duration, absent when unset or malformed. */
  function TtlFromEnv(parsed: Option<int>): (ttl: int)
    ensures ttl >= 0
    ensures parsed.Some? && parsed.value >= 0 ==> ttl == parsed.value
    ensures parsed.None? || parsed.value < 0 ==> ttl == 30_000_000_000
  {
    match parsed
    case Some(d) => if d >= 0 then d else DEFAULT_TTL
    case None => DEFAULT_TTL
  }

  /** A cache entry answers a lookup started at `now` while it has not expired. */
  predicate Hit(cache: Cache, hash: string, now: int) {
    hash in cache && cache[hash].expires > now
  }

  function Stored(cache: Cache, hash: string, row: Row, now: int, ttl: int): Cache {
    cache[hash := Entry(row, now + ttl)]
  }

  datatype Answer = Found(row: Row) | NoRows | DbError

  class Authenticator {
    var cache: Cache
    const ttl: int

    constructor (ttl: int)
      ensures cache == map[] && this.ttl == ttl
    {
      this.cache := map[];
      this.ttl := ttl;
    }

    /** One lookup without interference; `db` is what the query would return. */
    method Lookup(hash: string, now: int, db: Answer) returns (ent: Answer, queried: bool)
      modifies this
      ensures queried <==> !(hash in old(cache) && now < old(cache)[hash].expires)
      ensures ent == if queried then db else Found(old(cache)[hash].row)
      ensures cache ==
        if queried && db.Found? then old(cache)[hash := Entry(db.row, now + ttl)] else old(cache)
    {
      if hash in cache && cache[hash].expires > now {
        return Found(cache[hash].row), false;
      }
      match db {
        case NoRows => return NoRows, true;
        case DbError => return DbError, true;
        case Found(row) =>
          cache := cache[hash := Entry(row, now + ttl)];
          return Found(row), true;
      }
    }
  }

  // ----- the protocol

  datatype Lookup =
    | Started(hash: string, now: int)
    | Missed(hash: string, now: int)
    | Fetched(hash: string, now: int, row: Row)
    | Returned(hash: string, now: int, row: Row)
    | Denied(hash: string, now: int)

  /** `db` holds the rows that exist and are not revoked. */
  datatype State = State(time: int, db: map<string, Row>, cache: Cache, lookups: map<nat, Lookup>)

  datatype Action =
    | Tick(to: int)
    | Write(hash: string, row: Option<Row>)   // create, change, reinstate; None revokes
    | Start(id: nat, hash: string)
    | Check(id: nat)
    | Fetch(id: nat)
    | FetchFails(id: nat)
    | Store(id: nat)

  predicate Enabled(s: State, a: Action) {
    match a
    case Tick(to) => s.time <= to
    case Write(_, _) => true
    case Start(id, _) => id !in s.lookups
    case Check(id) => id in s.lookups && s.lookups[id].Started?
    case Fetch(id) => id in s.lookups && s.lookups[id].Missed?
    case FetchFails(id) => id in s.lookups && s.lookups[id].Missed?
    case Store(id) => id in s.lookups && s.lookups[id].Fetched?
  }

  function Apply(s: State, a: Action, ttl: int): State
    requires Enabled(s, a)
  {
    match a
    case Tick(to) => s.(time := to)
    case Write(hash, row) =>
      s.(db := if row.Some? then s.db[hash := row.value] else s.db - {hash})
    case Start(id, hash) => s.(lookups := s.lookups[id := Started(hash, s.time)])
    case Check(id) =>
      var l := s.lookups[id];
      var next := if Hit(s.cache, l.hash, l.now) then Returned(l.hash, l.now, s.cache[l.hash].row)
                  else Missed(l.hash, l.now);
      s.(lookups := s.lookups[id := next])
    case Fetch(id) =>
      var l := s.lookups[id];
      var next := if l.hash in s.db then Fetched(l.hash, l.now, s.db[l.hash]) else Denied(l.hash, l.now);
      s.(lookups := s.lookups[id := next])
    case FetchFails(id) =>
      s.(lookups := s.lookups[id := Denied(s.lookups[id].hash, s.lookups[id].now)])
    case Store(id) =>
      var l := s.lookups[id];
      s.(cache := Stored(s.cache, l.hash, l.row, l.now, ttl),
         lookups := s.lookups[id := Returned(l.hash, l.now, l.row)])
  }

  predicate Possible(s: State, acts: seq<Action>, ttl: int)
    decreases |acts|
  {
    acts == [] || (Enabled(s, acts[0]) && Possible(Apply(s, acts[0], ttl), acts[1..], ttl))
  }

  function Exec(s: State, acts: seq<Action>, ttl: int): State
    requires Possible(s, acts, ttl)
    decreases |acts|
  {
    if acts == [] then s else Exec(Apply(s, acts[0], ttl), acts[1..], ttl)
  }

  /** The actions after a miss: the query, and the store when it finds a row. */
  function MissScript(s: State, id: nat, hash: string, dbFails: bool): seq<Action> {
    if dbFails then [FetchFails(id)] else if hash in s.db then [Fetch(id)] + [Store(id)] else [Fetch(id)]
  }

  /** The actions of one lookup that nothing comes between. */
  function Script(s: State, id: nat, hash: string, dbFails: bool): seq<Action> {
    [Start(id, hash)] + ([Check(id)] + if Hit(s.cache, hash, s.time) then [] else MissScript(s, id, hash, dbFails))
  }

  /** What the query of the method returns in this state. */
  function Queried(s: State, hash: string, dbFails: bool): Answer {
    if dbFails then DbError else if hash in s.db then Found(s.db[hash]) else NoRows
  }

  lemma ExecCons(s: State, a: Action, rest: seq<Action>, ttl: int)
    requires Enabled(s, a) && Possible(Apply(s, a, ttl), rest, ttl)
    ensures Possible(s, [a] + rest, ttl) && Exec(s, [a] + rest, ttl) == Exec(Apply(s, a, ttl), rest, ttl)
  {
    assert ([a] + rest)[1..] == rest;
  }

  lemma ExecNothing(s: State, ttl: int)
    ensures Possible(s, [], ttl) && Exec(s, [], ttl) == s
  {
  }

  lemma ExecOne(s: State, a: Action, ttl: int)
    requires Enabled(s, a)
    ensures Possible(s, [a], ttl) && Exec(s, [a], ttl) == Apply(s, a, ttl)
  {
    assert [a] + [] == [a];
    ExecNothing(Apply(s, a, ttl), ttl);
    ExecCons(s, a, [], ttl);
  }

  /** How the state looks once a lookup has ended with an answer. */
  function Ended(s: State, id: nat, hash: string, now: int, answer: Answer, cache: Cache): State {
    s.(cache := cache,
       lookups := s.lookups[id := if answer.Found? then Returned(hash, now, answer.row) else Denied(hash, now)])
  }

  lemma MissIsABehaviour(s: State, id: nat, hash: string, now: int, dbFails: bool, ttl: int)
    requires id in s.lookups && s.lookups[id] == Missed(hash, now)
    ensures Possible(s, MissScript(s, id, hash, dbFails), ttl)
    ensures var answer := Queried(s, hash, dbFails);
      Exec(s, MissScript(s, id, hash, dbFails), ttl)
      == Ended(s, id, hash, now, answer, if answer.Found? then Stored(s.cache, hash, answer.row, now, ttl) else s.cache)
  {
    hide Possible, Exec, Stored;
    if dbFails {
      ExecOne(s, FetchFails(id), ttl);
    } else {
      var t := Apply(s, Fetch(id), ttl);
      if hash in s.db {
        ExecOne(t, Store(id), ttl);
        ExecCons(s, Fetch(id), [Store(id)], ttl);
        assert t.lookups[id := Returned(hash, now, s.db[hash])] == s.lookups[id := Returned(hash, now, s.db[hash])];
      } else {
        ExecOne(s, Fetch(id), ttl);
      }
    }
  }

  /** The four actions, run without interference, do what the method promises: the
      same cache, and a row returned exactly when the method finds one. */
  lemma LookupIsABehaviour(s: State, id: nat, hash: string, dbFails: bool, ttl: int)
    requires id !in s.lookups
    ensures Possible(s, Script(s, id, hash, dbFails), ttl)
    ensures var hit := Hit(s.cache, hash, s.time);
      var answer := if hit then Found(s.cache[hash].row) else Queried(s, hash, dbFails);
      Exec(s, Script(s, id, hash, dbFails), ttl)
      == Ended(s, id, hash, s.time, answer,
               if !hit && answer.Found? then Stored(s.cache, hash, answer.row, s.time, ttl) else s.cache)
  {
    hide Possible, Exec, Stored;
    var start, check := Start(id, hash), Check(id);
    var a := Apply(s, start, ttl);
    var b := Apply(a, check, ttl);
    if Hit(s.cache, hash, s.time) {
      var answer := Found(s.cache[hash].row);
      ExecOne(a, check, ttl);
      ExecCons(s, start, [check], ttl);
      assert [check] + [] == [check];
      assert b == Ended(s, id, hash, s.time, answer, s.cache);
    } else {
      hide MissScript;
      var tail := MissScript(s, id, hash, dbFails);
      assert MissScript(b, id, hash, dbFails) == tail by { SameScript(b, s, id, hash, dbFails); }
      MissIsABehaviour(b, id, hash, s.time, dbFails, ttl);
      ExecCons(a, check, tail, ttl);
      ExecCons(s, start, [check] + tail, ttl);
    }
  }

  /** A live key is let in: a lookup that nothing comes between ends with a row, the
      cached one while its entry has not expired, and else the one in the table, which is
      then cached for a lifetime; a key that is neither is denied. */
  lemma LiveKeyIsFound(s: State, id: nat, hash: string, ttl: int)
    requires id !in s.lookups
    ensures Possible(s, Script(s, id, hash, false), ttl)
    ensures var t := Exec(s, Script(s, id, hash, false), ttl);
      && id in t.lookups && t.db == s.db && t.time == s.time
      && if hash in s.cache && s.time < s.cache[hash].expires
         then t.lookups[id] == Returned(hash, s.time, s.cache[hash].row) && t.cache == s.cache
         else if hash in s.db
         then t.lookups[id] == Returned(hash, s.time, s.db[hash])
              && t.cache == s.cache[hash := Entry(s.db[hash], s.time + ttl)]
         else t.lookups[id] == Denied(hash, s.time) && t.cache == s.cache
  {
    LookupIsABehaviour(s, id, hash, false, ttl);
    hide Possible, Exec, Script;
  }

  /** A revoked key is denied by the next query, and a changed one read as changed. */
  lemma QuerySeesWrite(s: State, id: nat, hash: string, now: int, row: Option<Row>, ttl: int)
    requires id in s.lookups && s.lookups[id] == Missed(hash, now)
    ensures var t := Apply(s, Write(hash, row), ttl);
      Enabled(t, Fetch(id)) && Apply(t, Fetch(id), ttl).lookups[id] ==
        match row
        case None => Denied(hash, now)
        case Some(r) => Fetched(hash, now, r)
  {
  }

  lemma SameScript(s: State, t: State, id: nat, hash: string, dbFails: bool)
    requires s.db == t.db
    ensures MissScript(s, id, hash, dbFails) == MissScript(t, id, hash, dbFails)
  {
  }

  predicate Initial(s: State) { s.cache == map[] && s.lookups == map[] }

  /** `tr` lists the states a run passes through under `acts`. */
  ghost predicate Behaviour(tr: seq<State>, acts: seq<Action>, ttl: int) {
    && |tr| == |acts| + 1
    && Initial(tr[0])
    && forall i :: 0 <= i < |acts| ==> Enabled(tr[i], acts[i]) && tr[i + 1] == Apply(tr[i], acts[i], ttl)
  }

  // ----- staleness

  /** The row was in the table and unrevoked in the m-th state. */
  ghost predicate LiveAt(tr: seq<State>, m: nat, hash: string, row: Row) {
    m < |tr| && hash in tr[m].db && tr[m].db[hash] == row
  }

  /** ... in some state up to the n-th, at `since` or later. */
  ghost predicate LiveSince(tr: seq<State>, n: nat, hash: string, row: Row, since: int) {
    exists m: nat :: m <= n && LiveAt(tr, m, hash, row) && tr[m].time >= since
  }

  /** A lookup started at `now` may return this row: it was live no earlier than
      that, or at least later than `now - ttl`. */
  ghost predicate FreshEnough(tr: seq<State>, n: nat, hash: string, row: Row, now: int, ttl: int) {
    exists m: nat :: m <= n && LiveAt(tr, m, hash, row) && (tr[m].time >= now || tr[m].time > now - ttl)
  }

  ghost predicate Consistent(tr: seq<State>, n: nat, ttl: int)
    requires n < |tr|
  {
    var s := tr[n];
    && (forall m: nat :: m <= n ==> tr[m].time <= s.time)
    && (forall h :: h in s.cache ==> LiveSince(tr, n, h, s.cache[h].row, s.cache[h].expires - ttl))
    && (forall i :: i in s.lookups ==> LookupConsistent(tr, n, s.lookups[i], ttl))
  }

  ghost predicate LookupConsistent(tr: seq<State>, n: nat, l: Lookup, ttl: int)
    requires n < |tr|
  {
    && l.now <= tr[n].time
    && (l.Fetched? ==> LiveSince(tr, n, l.hash, l.row, l.now))
    && (l.Returned? ==> FreshEnough(tr, n, l.hash, l.row, l.now, ttl))
  }

  lemma Later(tr: seq<State>, n: nat, ttl: int)
    requires n + 1 < |tr| && tr[n].time <= tr[n + 1].time
    ensures forall h, row, since :: LiveSince(tr, n, h, row, since) ==> LiveSince(tr, n + 1, h, row, since)
    ensures forall l :: LookupConsistent(tr, n, l, ttl) ==> LookupConsistent(tr, n + 1, l, ttl)
  {
    forall h, row, since | LiveSince(tr, n, h, row, since) ensures LiveSince(tr, n + 1, h, row, since) {
      var m: nat :| m <= n && LiveAt(tr, m, h, row) && tr[m].time >= since;
    }
    forall l | LookupConsistent(tr, n, l, ttl) ensures LookupConsistent(tr, n + 1, l, ttl) {
      if l.Returned? {
        var m: nat :| m <= n && LiveAt(tr, m, l.hash, l.row) && (tr[m].time >= l.now || tr[m].time > l.now - ttl);
      }
    }
  }

  /** The one action that can return a stale row. */
  lemma HitIsFresh(tr: seq<State>, n: nat, ttl: int, hash: string, now: int)
    requires n < |tr| && Consistent(tr, n, ttl) && Hit(tr[n].cache, hash, now)
    ensures FreshEnough(tr, n, hash, tr[n].cache[hash].row, now, ttl)
  {
    var e := tr[n].cache[hash];
    var m: nat :| m <= n && LiveAt(tr, m, hash, e.row) && tr[m].time >= e.expires - ttl;
  }

  lemma StepKeeps(tr: seq<State>, acts: seq<Action>, n: nat, ttl: int)
    requires Behaviour(tr, acts, ttl) && n < |acts| && Consistent(tr, n, ttl)
    ensures Consistent(tr, n + 1, ttl)
  {
    var s, t, a := tr[n], tr[n + 1], acts[n];
    assert Enabled(s, a) && t == Apply(s, a, ttl);
    Later(tr, n, ttl);
    match a {
      case Check(id) =>
        var l := s.lookups[id];
        assert LookupConsistent(tr, n, l, ttl);
        if Hit(s.cache, l.hash, l.now) {
          HitIsFresh(tr, n, ttl, l.hash, l.now);
          assert LookupConsistent(tr, n, t.lookups[id], ttl);
        }
      case Fetch(id) =>
        var l := s.lookups[id];
        assert LookupConsistent(tr, n, l, ttl);
        if l.hash in s.db {
          assert LiveAt(tr, n, l.hash, s.db[l.hash]);
        }
      case Store(id) =>
        var l := s.lookups[id];
        assert LookupConsistent(tr, n, l, ttl);
        var m: nat :| m <= n && LiveAt(tr, m, l.hash, l.row) && tr[m].time >= l.now;
        assert LookupConsistent(tr, n, t.lookups[id], ttl);
      case _ =>
    }
  }

  lemma {:induction false} AlwaysConsistent(tr: seq<State>, acts: seq<Action>, n: nat, ttl: int)
    requires Behaviour(tr, acts, ttl) && n < |tr|
    ensures Consistent(tr, n, ttl)
  {
    if n > 0 {
      AlwaysConsistent(tr, acts, n - 1, ttl);
      StepKeeps(tr, acts, n - 1, ttl);
    }
  }

  /** Under every interleaving, a lookup that succeeded returned a row that was in
      the table and unrevoked at some instant later than `now - ttl`, or not before
      `now`, and no later than the return. */
  lemma BoundedStaleness(tr: seq<State>, acts: seq<Action>, n: nat, id: nat, ttl: int)
    requires Behaviour(tr, acts, ttl) && n < |tr|
    requires id in tr[n].lookups && tr[n].lookups[id].Returned?
    ensures var l := tr[n].lookups[id]; FreshEnough(tr, n, l.hash, l.row, l.now, ttl)
  {
    AlwaysConsistent(tr, acts, n, ttl);
    assert LookupConsistent(tr, n, tr[n].lookups[id], ttl);
  }

  /** Once a key stays revoked from the r-th state on, no lookup that started a full
      lifetime later succeeds. */
  lemma RevocationTakesEffect(tr: seq<State>, acts: seq<Action>, r: nat, n: nat, id: nat, ttl: int)
    requires Behaviour(tr, acts, ttl) && r <= n < |tr| && ttl >= 0
    requires id in tr[n].lookups
    requires var l := tr[n].lookups[id];
      && (forall m :: r <= m <= n ==> l.hash !in tr[m].db)
      && l.now > tr[r].time && l.now >= tr[r].time + ttl
    ensures !tr[n].lookups[id].Returned?
  {
    var l := tr[n].lookups[id];
    if l.Returned? {
      BoundedStaleness(tr, acts, n, id, ttl);
      var m: nat :| m <= n && LiveAt(tr, m, l.hash, l.row) && (tr[m].time >= l.now || tr[m].time > l.now - ttl);
      AlwaysConsistent(tr, acts, r, ttl);
      assert false;
    }
  }

  /** With a zero lifetime a returned row was live no earlier than the start of the
      lookup, so a revocation is seen at once. */
  lemma ZeroTtlIsCurrent(tr: seq<State>, acts: seq<Action>, n: nat, id: nat)
    requires Behaviour(tr, acts, 0) && n < |tr|
    requires id in tr[n].lookups && tr[n].lookups[id].Returned?
    ensures var l := tr[n].lookups[id]; LiveSince(tr, n, l.hash, l.row, l.now)
  {
    BoundedStaleness(tr, acts, n, id, 0);
    var l := tr[n].lookups[id];
    var m: nat :| m <= n && LiveAt(tr, m, l.hash, l.row) && (tr[m].time >= l.now || tr[m].time > l.now - 0);
  }

  // ----- when the cache answers

  /** The clock reading of the lookup that last stored a row for `hash` before the
      n-th state. */
  ghost function LastStore(tr: seq<State>, acts: seq<Action>, n: nat, hash: string, ttl: int): Option<int>
    requires Behaviour(tr, acts, ttl) && n < |tr|
  {
    if n == 0 then None
    else if acts[n - 1].Store? && tr[n - 1].lookups[acts[n - 1].id].hash == hash then
      Some(tr[n - 1].lookups[acts[n - 1].id].now)
    else LastStore(tr, acts, n - 1, hash, ttl)
  }

  lemma {:induction false} EntryIsLastStore(tr: seq<State>, acts: seq<Action>, n: nat, hash: string, ttl: int)
    requires Behaviour(tr, acts, ttl) && n < |tr|
    ensures var last := LastStore(tr, acts, n, hash, ttl);
      && (hash in tr[n].cache <==> last.Some?)
      && (last.Some? ==> tr[n].cache[hash].expires == last.value + ttl)
  {
    if n > 0 {
      EntryIsLastStore(tr, acts, n - 1, hash, ttl);
      assert tr[n] == Apply(tr[n - 1], acts[n - 1], ttl);
    }
  }

  /** Under every interleaving the cache answers a lookup if and only if the row it
      holds was stored by a lookup that read the clock less than a lifetime before --
      with a zero lifetime, by one that read it later. */
  lemma HitIffStoredLater(tr: seq<State>, acts: seq<Action>, n: nat, hash: string, now: int, ttl: int)
    requires Behaviour(tr, acts, ttl) && n < |tr|
    ensures var last := LastStore(tr, acts, n, hash, ttl);
      Hit(tr[n].cache, hash, now) <==> last.Some? && last.value + ttl > now
  {
    EntryIsLastStore(tr, acts, n, hash, ttl);
  }

  /** A lookup in the table of lookups was started earlier, at the time it carries. */
  lemma {:induction false} WasStarted(tr: seq<State>, acts: seq<Action>, n: nat, id: nat, ttl: int) returns (j: nat)
    requires Behaviour(tr, acts, ttl) && n < |tr| && id in tr[n].lookups
    ensures j < n && acts[j] == Start(id, tr[n].lookups[id].hash) && tr[j].time == tr[n].lookups[id].now
  {
    assert tr[n] == Apply(tr[n - 1], acts[n - 1], ttl);
    if id in tr[n - 1].lookups {
      j := WasStarted(tr, acts, n - 1, id, ttl);
    } else {
      j := n - 1;
    }
  }

  /** The last store of a key was made by a lookup of that key that had been started. */
  lemma {:induction false} StorerWasStarted(tr: seq<State>, acts: seq<Action>, n: nat, hash: string, ttl: int)
    returns (j: nat)
    requires Behaviour(tr, acts, ttl) && n < |tr| && LastStore(tr, acts, n, hash, ttl).Some?
    ensures j < n && acts[j].Start? && acts[j].hash == hash
    ensures tr[j].time == LastStore(tr, acts, n, hash, ttl).value
  {
    if acts[n - 1].Store? && tr[n - 1].lookups[acts[n - 1].id].hash == hash {
      j := WasStarted(tr, acts, n - 1, acts[n - 1].id, ttl);
    } else {
      j := StorerWasStarted(tr, acts, n - 1, hash, ttl);
    }
  }

  /** Between its start and its look into the cache a lookup keeps key and clock. */
  lemma {:induction false} KeepsReading(tr: seq<State>, acts: seq<Action>, s: nat, n: nat, id: nat, ttl: int)
    requires Behaviour(tr, acts, ttl) && s < n < |tr| && acts[s].Start? && acts[s].id == id
    ensures id in tr[n].lookups && tr[n].lookups[id].hash == acts[s].hash && tr[n].lookups[id].now == tr[s].time
  {
    if n > s + 1 { KeepsReading(tr, acts, s, n - 1, id, ttl); }
    assert Enabled(tr[n - 1], acts[n - 1]) && tr[n] == Apply(tr[n - 1], acts[n - 1], ttl);
  }

  /** With a zero lifetime a lookup goes to the database unless another lookup of the
      same key reads the clock between its own reading and its look into the cache. */
  lemma ZeroTtlQueries(tr: seq<State>, acts: seq<Action>, s: nat, c: nat, id: nat, hash: string)
    requires Behaviour(tr, acts, 0) && s < c < |acts|
    requires acts[s] == Start(id, hash) && acts[c] == Check(id)
    requires forall j :: s < j < c && acts[j].Start? ==> acts[j].hash != hash
    ensures !Hit(tr[c].cache, hash, tr[s].time)
    ensures id in tr[c + 1].lookups && tr[c + 1].lookups[id] == Missed(hash, tr[s].time)
  {
    KeepsReading(tr, acts, s, c, id, 0);
    HitIffStoredLater(tr, acts, c, hash, tr[s].time, 0);
    if LastStore(tr, acts, c, hash, 0).Some? {
      var j := StorerWasStarted(tr, acts, c, hash, 0);
      AlwaysConsistent(tr, acts, s, 0);
      assert j <= s;
    }
    assert Enabled(tr[c], acts[c]) && tr[c + 1] == Apply(tr[c], acts[c], 0);
  }

  /** A zero lifetime does not bypass the cache: a lookup that reads the clock and
      then waits for the mutex is answered by a lookup that started after it. */
  lemma ZeroTtlCanHit(row: Row) returns (tr: seq<State>, acts: seq<Action>)
    ensures Behaviour(tr, acts, 0)
    ensures |acts| == 7 && acts[6] == Check(0) && Hit(tr[6].cache, "h", tr[6].lookups[0].now)
    ensures tr[7].lookups[0] == Returned("h", 0, row)
  {
    acts := [Start(0, "h"), Tick(1), Start(1, "h"), Check(1), Fetch(1), Store(1), Check(0)];
    var s0 := State(0, map["h" := row], map[], map[]);
    var s1 := Apply(s0, acts[0], 0);
    var s2 := Apply(s1, acts[1], 0);
    var s3 := Apply(s2, acts[2], 0);
    var s4 := Apply(s3, acts[3], 0);
    var s5 := Apply(s4, acts[4], 0);
    var s6 := Apply(s5, acts[5], 0);
    var s7 := Apply(s6, acts[6], 0);
    tr := [s0, s1, s2, s3, s4, s5, s6, s7];
  }
}
