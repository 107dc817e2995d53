/** Schema migrations (internal/store/migrate.go).

    The database is seen as the names recorded in schema_migrations and the
    sequence of files whose statements have taken effect.  Each file's statements
    and its record commit together.  The protocol at the end lets any number of
    runs interleave, each of which may fail at any step. */
module Migrations {

  // ----- file names, in the order of sort.Strings

  predicate Less(a: string, b: string) {
    if b == "" then false
    else if a == "" then true
    else a[0] < b[0] || (a[0] == b[0] && Less(a[1..], b[1..]))
  }

  predicate Ascending(s: seq<string>) {
    forall i, j :: 0 <= i < j < |s| ==> Less(s[i], s[j])
  }

  predicate NoRepeats(s: seq<string>) {
    forall i, j :: 0 <= i < j < |s| ==> s[i] != s[j]
  }

  function Insert(x: string, s: seq<string>): seq<string> {
    if s == [] then [x]
    else if Less(s[0], x) then [s[0]] + Insert(x, s[1..])
    else [x] + s
  }

  function Sort(files: seq<string>): seq<string> {
    if files == [] then [] else Insert(files[0], Sort(files[1..]))
  }

  lemma {:induction false} LessIsStrict(a: string, b: string)
    ensures !(Less(a, b) && Less(b, a))
    ensures a != b ==> Less(a, b) || Less(b, a)
  {
    if a != "" && b != "" && a[0] == b[0] {
      LessIsStrict(a[1..], b[1..]);
      assert a == [a[0]] + a[1..] && b == [b[0]] + b[1..];
    }
  }

  lemma {:induction false} LessIsTransitive(a: string, b: string, c: string)
    requires Less(a, b) && Less(b, c)
    ensures Less(a, c)
  {
    if a != "" && a[0] == b[0] == c[0] {
      LessIsTransitive(a[1..], b[1..], c[1..]);
    }
  }

  lemma {:induction false} InsertKeeps(x: string, s: seq<string>)
    ensures multiset(Insert(x, s)) == multiset([x]) + multiset(s)
    ensures Ascending(s) && x !in s ==> Ascending(Insert(x, s))
  {
    if s != [] {
      assert s == [s[0]] + s[1..];
      if Less(s[0], x) {
        InsertKeeps(x, s[1..]);
        var rest := Insert(x, s[1..]);
        forall i | Ascending(s) && 0 <= i < |rest| ensures Less(s[0], rest[i]) {
          assert rest[i] in multiset(rest);
          assert rest[i] == x || rest[i] in s[1..];
        }
      } else if Ascending(s) && x !in s {
        LessIsStrict(s[0], x);
        forall i | 0 <= i < |s| ensures Less(x, s[i]) {
          if i > 0 { LessIsTransitive(x, s[0], s[i]); }
        }
      }
    }
  }

  /** Sorting distinct names gives an ascending list of the same names. */
  lemma {:induction false} SortAscends(files: seq<string>)
    requires NoRepeats(files)
    ensures multiset(Sort(files)) == multiset(files)
    ensures Ascending(Sort(files))
  {
    if files != [] {
      hide Insert, Ascending;
      var name, rest := files[0], files[1..];
      SortAscends(rest);
      assert files == [name] + rest;
      assert name !in multiset(rest);
      assert name !in Sort(rest) by { assert name !in multiset(Sort(rest)); }
      InsertKeeps(name, Sort(rest));
    }
  }

  lemma AscendingHasNoRepeats(s: seq<string>)
    requires Ascending(s)
    ensures NoRepeats(s)
  {
    forall i, j | 0 <= i < j < |s| ensures s[i] != s[j] { LessIsStrict(s[i], s[j]); }
  }

  predicate GrowsByLaterNames(a: seq<string>, b: seq<string>) {
    (forall x :: x in a ==> x in b)
    && (forall x, y :: x in b && x !in a && y in a ==> Less(y, x))
  }

  lemma SameHead(a: seq<string>, b: seq<string>)
    requires Ascending(a) && Ascending(b) && GrowsByLaterNames(a, b) && a != []
    ensures b != [] && a[0] == b[0]
  {
    assert a[0] in b;
    LessIsStrict(a[0], b[0]);
  }

  /** When the directory only grows by later names, the old list is a prefix of the new. */
  lemma {:induction false} LaterNamesExtend(a: seq<string>, b: seq<string>)
    requires Ascending(a) && Ascending(b) && GrowsByLaterNames(a, b)
    ensures a <= b
  {
    if a != [] {
      SameHead(a, b);
      AscendingHasNoRepeats(a);
      AscendingHasNoRepeats(b);
      forall x | x in a[1..] ensures x in b[1..] {
        assert x in b;
      }
      LaterNamesExtend(a[1..], b[1..]);
    }
  }

  // ----- one run

  datatype Db = Db(recorded: set<string>, schema: seq<string>)

  /** The recorded names are exactly the files in effect, each applied once. */
  ghost predicate Sound(db: Db) {
    NoRepeats(db.schema) && forall n :: n in db.recorded <==> n in db.schema
  }

  /** The transaction of one file: its statements and its record, together. */
  function Applied(db: Db, name: string): Db {
    Db(db.recorded + {name}, db.schema + [name])
  }

  datatype Step = CheckStep | ReadStep | BeginStep | ApplyStep | RecordStep | CommitStep

  /** What the outside world makes of one file: all goes well, a step fails, or the
      commit takes effect and its acknowledgement is lost. */
  datatype Outcome = Goes | FailsAt(step: Step) | AckLost

  lemma SixSteps(o: Outcome)
    ensures o.FailsAt? ==> o.step in {CheckStep, ReadStep, BeginStep, ApplyStep, RecordStep, CommitStep}
  {
    if o.FailsAt? {
      match o.step
      case CheckStep =>
      case ReadStep =>
      case BeginStep =>
      case ApplyStep =>
      case RecordStep =>
      case CommitStep =>
    }
  }

  /** Before the loop: the table of records is created unless it exists, and the
      directory is listed. */
  datatype Setup = Ready | CreateFails | ListFails

  datatype Error = NoError | SetupFailed(setup: Setup) | Failed(step: Step, name: string)

  function RunFrom(db: Db, files: seq<string>, outcomes: seq<Outcome>): (Db, Error)
    requires |files| == |outcomes|
    decreases |files|
  {
    if files == [] then (db, NoError)
    else if outcomes[0] == FailsAt(CheckStep) then (db, Failed(CheckStep, files[0]))
    else if files[0] in db.recorded then RunFrom(db, files[1..], outcomes[1..])
    else
      match outcomes[0]
      case FailsAt(step) => (db, Failed(step, files[0]))
      case AckLost => (Applied(db, files[0]), Failed(CommitStep, files[0]))
      case Goes => RunFrom(Applied(db, files[0]), files[1..], outcomes[1..])
  }

  class Database {
    var recorded: set<string>
    var schema: seq<string>

    function Value(): Db reads this { Db(recorded, schema) }

    /** `outcomes` lists what happens to the files in the order they are taken. */
    method Migrate(setup: Setup, names: seq<string>, outcomes: seq<Outcome>) returns (err: Error)
      requires |outcomes| == |Sort(names)|
      modifies this
      ensures (Value(), err) ==
        if setup == Ready then RunFrom(old(Value()), Sort(names), outcomes) else (old(Value()), SetupFailed(setup))
    {
      if setup == CreateFails || setup == ListFails { return SetupFailed(setup); }
      var entries := Sort(names);
      for i := 0 to |entries|
        invariant RunFrom(old(Value()), entries, outcomes) == RunFrom(Value(), entries[i..], outcomes[i..])
      {
        var name, outcome := entries[i], outcomes[i];
        assert entries[i..][1..] == entries[i + 1..] && outcomes[i..][1..] == outcomes[i + 1..];
        if outcome == FailsAt(CheckStep) { return Failed(CheckStep, name); }
        if name in recorded { continue; }
        if outcome == FailsAt(ReadStep) { return Failed(ReadStep, name); }
        if outcome == FailsAt(BeginStep) { return Failed(BeginStep, name); }
        var txSchema := schema + [name];
        if outcome == FailsAt(ApplyStep) { return Failed(ApplyStep, name); }
        var txRecorded := recorded + {name};
        if outcome == FailsAt(RecordStep) { return Failed(RecordStep, name); }
        if outcome == FailsAt(CommitStep) { return Failed(CommitStep, name); }
        schema, recorded := txSchema, txRecorded;
        if outcome == AckLost { return Failed(CommitStep, name); }
        SixSteps(outcome);
      }
      return NoError;
    }
  }

  /** The files of the list that are not in effect yet, in order. */
  function Pending(db: Db, files: seq<string>): seq<string> {
    if files == [] then []
    else (if files[0] in db.recorded then [] else [files[0]]) + Pending(db, files[1..])
  }

  lemma {:induction false} PendingIgnoresOthers(db: Db, name: string, files: seq<string>)
    requires name !in files
    ensures Pending(Applied(db, name), files) == Pending(db, files)
  {
    if files != [] { PendingIgnoresOthers(db, name, files[1..]); }
  }

  lemma {:induction false} NothingPending(db: Db, files: seq<string>)
    requires forall n :: n in files ==> n in db.recorded
    ensures Pending(db, files) == []
  {
    if files != [] { NothingPending(db, files[1..]); }
  }

  /** A run appends a prefix of what is pending, and all of it exactly when it
      reports success -- or when only the last acknowledgement was lost. */
  lemma {:induction false} RunAppliesAPrefix(db: Db, files: seq<string>, outcomes: seq<Outcome>)
    requires |files| == |outcomes| && NoRepeats(files)
    ensures var (after, err) := RunFrom(db, files, outcomes);
      && db.schema <= after.schema
      && after.schema[|db.schema|..] <= Pending(db, files)
      && (err == NoError ==> after.schema == db.schema + Pending(db, files))
    decreases |files|
  {
    if files != [] && outcomes[0] != FailsAt(CheckStep) {
      if files[0] in db.recorded {
        RunAppliesAPrefix(db, files[1..], outcomes[1..]);
      } else if outcomes[0] == Goes {
        PendingIgnoresOthers(db, files[0], files[1..]);
        var next := Applied(db, files[0]);
        RunAppliesAPrefix(next, files[1..], outcomes[1..]);
        var after := RunFrom(next, files[1..], outcomes[1..]).0;
        assert after.schema[|db.schema|..] == [files[0]] + after.schema[|next.schema|..];
      }
    }
  }

  /** The database after the files of a list have been taken without trouble. */
  ghost function AfterAll(db: Db, files: seq<string>): Db {
    Db(db.recorded + (set x | x in files), db.schema + Pending(db, files))
  }

  lemma AfterOneMore(db: Db, files: seq<string>)
    requires files != [] && NoRepeats(files)
    ensures AfterAll(db, files) == AfterAll(if files[0] in db.recorded then db else Applied(db, files[0]), files[1..])
  {
    var name, rest := files[0], files[1..];
    assert files == [name] + rest;
    assert (set x | x in files) == {name} + (set x | x in rest);
    if name in db.recorded {
      assert [] + Pending(db, rest) == Pending(db, rest);
    } else {
      PendingIgnoresOthers(db, name, rest);
      assert db.schema + ([name] + Pending(db, rest)) == db.schema + [name] + Pending(db, rest);
    }
  }

  /** A file is no trouble when it can be looked up and is in effect or goes well. */
  predicate Easy(db: Db, name: string, outcome: Outcome) {
    outcome != FailsAt(CheckStep) && (name in db.recorded || outcome == Goes)
  }

  /** A run over files that are no trouble takes them all and reports no error. */
  lemma {:induction false} RunGoesThrough(db: Db, files: seq<string>, outcomes: seq<Outcome>)
    requires |files| == |outcomes| && NoRepeats(files)
    requires forall j :: 0 <= j < |files| ==> Easy(db, files[j], outcomes[j])
    ensures RunFrom(db, files, outcomes) == (AfterAll(db, files), NoError)
    decreases |files|
  {
    if files == [] {
      assert db.schema + [] == db.schema && db.recorded + (set x | x in files) == db.recorded;
    } else {
      var next := if files[0] in db.recorded then db else Applied(db, files[0]);
      assert Easy(db, files[0], outcomes[0]);
      forall j | 0 <= j < |files[1..]| ensures Easy(next, files[1..][j], outcomes[1..][j]) {
        assert Easy(db, files[j + 1], outcomes[j + 1]);
      }
      RunGoesThrough(next, files[1..], outcomes[1..]);
      AfterOneMore(db, files);
    }
  }

  /** A run stops at the first file that is trouble, with its step and name as error: the
      files before it are in effect, and it is itself exactly when only the
      acknowledgement of its commit was lost. */
  lemma {:induction false} RunStopsAt(db: Db, files: seq<string>, outcomes: seq<Outcome>, i: nat)
    requires |files| == |outcomes| && NoRepeats(files) && i < |files|
    requires forall j :: 0 <= j < i ==> Easy(db, files[j], outcomes[j])
    requires !Easy(db, files[i], outcomes[i])
    ensures var (after, err) := RunFrom(db, files, outcomes);
      && after == AfterAll(db, files[..i + if outcomes[i] == AckLost then 1 else 0])
      && err == Failed(if outcomes[i] == AckLost then CommitStep else outcomes[i].step, files[i])
    decreases i
  {
    var next := if files[0] in db.recorded then db else Applied(db, files[0]);
    var n := i + if outcomes[i] == AckLost then 1 else 0;
    if i == 0 {
      FirstStops(db, files, n);
    } else {
      assert Easy(db, files[0], outcomes[0]);
      forall j | 0 <= j < i - 1 ensures Easy(next, files[1..][j], outcomes[1..][j]) {
        assert Easy(db, files[j + 1], outcomes[j + 1]);
      }
      RunStopsAt(next, files[1..], outcomes[1..], i - 1);
      AfterOneMore(db, files[..n]);
      assert files[..n][1..] == files[1..][..n - 1];
    }
  }

  lemma FirstStops(db: Db, files: seq<string>, n: nat)
    requires files != [] && n <= 1
    ensures n == 0 ==> AfterAll(db, files[..n]) == db
    ensures n == 1 && files[0] !in db.recorded ==> AfterAll(db, files[..n]) == Applied(db, files[0])
  {
    if n == 0 {
      assert files[..0] == [] && db.schema + [] == db.schema;
      assert db.recorded + (set x | x in files[..0]) == db.recorded;
    } else {
      var one := files[..1];
      assert one == [files[0]] && one[1..] == [];
      assert (set x | x in one) == {files[0]};
      assert Pending(db, one[1..]) == [] && [files[0]] + [] == [files[0]];
      assert files[0] !in db.recorded ==> Pending(db, one) == [files[0]];
    }
  }

  lemma {:induction false} PendingOfPrefix(db: Db, files: seq<string>, k: nat)
    requires k <= |files| && NoRepeats(files)
    requires forall i :: 0 <= i < |files| ==> (files[i] in db.recorded <==> i < k)
    ensures Pending(db, files) == files[k..]
  {
    if files != [] {
      if k == 0 {
        PendingOfPrefix(db, files[1..], 0);
      } else {
        PendingOfPrefix(db, files[1..], k - 1);
        assert files[1..][k - 1..] == files[k..];
      }
    }
  }

  lemma InEffectIffEarlier(db: Db, files: seq<string>, i: nat)
    requires Sound(db) && NoRepeats(files) && db.schema <= files && i < |files|
    ensures files[i] in db.recorded <==> i < |db.schema|
  {
    if i < |db.schema| {
      assert db.schema[i] == files[i];
    } else {
      forall j | 0 <= j < |db.schema| ensures db.schema[j] != files[i] {
        assert db.schema[j] == files[j];
      }
    }
  }

  /** After a successful run the schema is the sorted list of files if and only if
      what was in effect before was a prefix of that list. */
  lemma OrderIsRestored(db: Db, files: seq<string>, outcomes: seq<Outcome>)
    requires Sound(db) && |files| == |outcomes| && NoRepeats(files)
    requires RunFrom(db, files, outcomes).1 == NoError
    ensures RunFrom(db, files, outcomes).0.schema == files <==> db.schema <= files
  {
    RunAppliesAPrefix(db, files, outcomes);
    if db.schema <= files {
      forall i | 0 <= i < |files| ensures files[i] in db.recorded <==> i < |db.schema| {
        InEffectIffEarlier(db, files, i);
      }
      PendingOfPrefix(db, files, |db.schema|);
    }
  }

  /** A file added with an earlier name is applied late: the run succeeds, and the
      schema is not in the order of the list. */
  lemma EarlierNameComesLate()
    ensures var db, files, outcomes := Db({"002"}, ["002"]), ["001", "002"], [Goes, Goes];
      && Sound(db) && Ascending(files)
      && RunFrom(db, files, outcomes) == (Db({"001", "002"}, ["002", "001"]), NoError)
      && RunFrom(db, files, outcomes).0.schema != files
  {
    assert ["001", "002"][1..] == ["002"] && [Goes, Goes][1..] == [Goes];
    assert "001"[2] != "002"[2];
    OneBeforeTwo();
    var db := Db({"002"}, ["002"]);
    var next := Applied(db, "001");
    assert next == Db({"001", "002"}, ["002", "001"]);
    assert RunFrom(next, ["002"], [Goes]) == (next, NoError);
    assert ["002", "001"][0] != ["001", "002"][0];
  }

  lemma OneBeforeTwo()
    ensures Less("001", "002")
  {
    assert "001"[1..] == "01" && "002"[1..] == "02" && "01"[1..] == "1" && "02"[1..] == "2";
    assert Less("1", "2");
    assert Less("01", "02");
  }

  // ----- any number of runs at once

  datatype Phase = Checking | Applying | Succeeded | Broken

  /** A run: its list, the file it is at, and what it is doing. */
  datatype Process = Process(files: seq<string>, pos: nat, phase: Phase)

  datatype System = System(db: Db, runs: seq<Process>)

  datatype Action =
    | Launch(files: seq<string>)
    | Look(run: nat)          // ask whether the file is recorded
    | Finish(run: nat)        // the loop is over
    | Commit(run: nat)        // statements, record and commit of the file
    | CommitUnheard(run: nat) // the same, but the acknowledgement is lost
    | Fail(run: nat)          // any step fails, or the process dies

  predicate Enabled(s: System, a: Action) {
    if a.Launch? then NoRepeats(a.files)
    else
      a.run < |s.runs| &&
      var p := s.runs[a.run];
      match a
      case Look(_) => p.phase == Checking && p.pos < |p.files|
      case Finish(_) => p.phase == Checking && p.pos == |p.files|
      case Commit(_) => p.phase == Applying && p.pos < |p.files|
      case CommitUnheard(_) => p.phase == Applying && p.pos < |p.files| && p.files[p.pos] !in s.db.recorded
      case Fail(_) => p.phase == Checking || p.phase == Applying
  }

  function Move(s: System, a: Action): System
    requires Enabled(s, a)
  {
    if a.Launch? then s.(runs := s.runs + [Process(a.files, 0, Checking)])
    else
      var p := s.runs[a.run];
      match a
      case Look(r) =>
        s.(runs := s.runs[r := if p.files[p.pos] in s.db.recorded then p.(pos := p.pos + 1) else p.(phase := Applying)])
      case Finish(r) => s.(runs := s.runs[r := p.(phase := Succeeded)])
      case Commit(r) =>
        // the primary key of schema_migrations refuses a second record of the file
        if p.files[p.pos] in s.db.recorded then s.(runs := s.runs[r := p.(phase := Broken)])
        else System(Applied(s.db, p.files[p.pos]), s.runs[r := p.(pos := p.pos + 1, phase := Checking)])
      case CommitUnheard(r) =>
        System(Applied(s.db, p.files[p.pos]), s.runs[r := p.(phase := Broken)])
      case Fail(r) => s.(runs := s.runs[r := p.(phase := Broken)])
  }

  predicate Possible(s: System, actions: seq<Action>)
    decreases |actions|
  {
    actions == [] || (Enabled(s, actions[0]) && Possible(Move(s, actions[0]), actions[1..]))
  }

  function Exec(s: System, actions: seq<Action>): System
    requires Possible(s, actions)
    decreases |actions|
  {
    if actions == [] then s else Exec(Move(s, actions[0]), actions[1..])
  }

  /** What a run has passed is in effect. */
  ghost predicate Honest(db: Db, p: Process) {
    && p.pos <= |p.files|
    && (p.phase == Succeeded ==> p.pos == |p.files|)
    && forall i :: 0 <= i < p.pos ==> p.files[i] in db.recorded
  }

  ghost predicate Invariant(s: System) {
    Sound(s.db) && forall r :: 0 <= r < |s.runs| ==> Honest(s.db, s.runs[r])
  }

  lemma AppliedKeepsSound(db: Db, name: string)
    requires Sound(db) && name !in db.recorded
    ensures Sound(Applied(db, name))
  {
    var after := Applied(db, name);
    forall n ensures n in after.recorded <==> n in after.schema {
      assert n in db.recorded <==> n in db.schema;
    }
  }

  lemma MoveKeeps(s: System, a: Action)
    requires Invariant(s) && Enabled(s, a)
    ensures Invariant(Move(s, a))
    ensures s.db.schema <= Move(s, a).db.schema
  {
    var t := Move(s, a);
    if t.db != s.db {
      AppliedKeepsSound(s.db, s.runs[a.run].files[s.runs[a.run].pos]);
    }
    forall r | 0 <= r < |t.runs| ensures Honest(t.db, t.runs[r]) {
      if r < |s.runs| { assert Honest(s.db, s.runs[r]); }
    }
  }

  /** In every interleaving of any number of runs, failing anywhere: the records are
      exactly the files in effect, none is applied twice or undone, and a run that
      reports success leaves none of its files pending. */
  lemma {:induction false} EveryInterleavingIsSound(s: System, actions: seq<Action>)
    requires Invariant(s) && Possible(s, actions)
    ensures Sound(Exec(s, actions).db)
    ensures s.db.schema <= Exec(s, actions).db.schema
    ensures forall r :: 0 <= r < |Exec(s, actions).runs| && Exec(s, actions).runs[r].phase == Succeeded ==>
      Pending(Exec(s, actions).db, Exec(s, actions).runs[r].files) == []
    decreases |actions|
  {
    if actions == [] {
      forall r | 0 <= r < |s.runs| && s.runs[r].phase == Succeeded ensures Pending(s.db, s.runs[r].files) == [] {
        assert Honest(s.db, s.runs[r]);
        NothingPending(s.db, s.runs[r].files);
      }
    } else {
      MoveKeeps(s, actions[0]);
      EveryInterleavingIsSound(Move(s, actions[0]), actions[1..]);
    }
  }

  /** Every list seen so far, and the schema, are prefixes of `all`. */
  ghost predicate InOrder(s: System, all: seq<string>) {
    s.db.schema <= all && forall r :: 0 <= r < |s.runs| ==> s.runs[r].files <= all
  }

  predicate LaunchesFrom(actions: seq<Action>, all: seq<string>) {
    forall i :: 0 <= i < |actions| && actions[i].Launch? ==> actions[i].files <= all
  }

  lemma CommitIsNext(s: System, r: nat, all: seq<string>)
    requires Invariant(s) && InOrder(s, all) && NoRepeats(all)
    requires r < |s.runs| && s.runs[r].pos < |s.runs[r].files|
    requires s.runs[r].files[s.runs[r].pos] !in s.db.recorded
    ensures Applied(s.db, s.runs[r].files[s.runs[r].pos]).schema <= all
  {
    var p, k := s.runs[r], |s.db.schema|;
    assert Honest(s.db, p) && p.files <= all;
    assert k < p.pos ==> p.files[k] in s.db.recorded;
    InEffectIffEarlier(s.db, all, p.pos);
    InEffectIffEarlier(s.db, all, k);
  }

  lemma MoveKeepsOrder(s: System, a: Action, all: seq<string>)
    requires Invariant(s) && InOrder(s, all) && NoRepeats(all) && Enabled(s, a)
    requires a.Launch? ==> a.files <= all
    ensures InOrder(Move(s, a), all)
  {
    var t := Move(s, a);
    if t.db != s.db { CommitIsNext(s, a.run, all); }
    forall r | 0 <= r < |t.runs| ensures t.runs[r].files <= all {
      if r < |s.runs| { assert s.runs[r].files <= all; }
    }
  }

  /** When the list of files only grows by later names, every interleaving leaves the
      schema equal to a sorted prefix, and to the whole list once a run over it succeeds. */
  lemma {:induction false} SchemaIsASortedPrefix(s: System, actions: seq<Action>, all: seq<string>)
    requires Invariant(s) && InOrder(s, all) && NoRepeats(all)
    requires Possible(s, actions) && LaunchesFrom(actions, all)
    ensures Exec(s, actions).db.schema <= all
    ensures (exists r :: 0 <= r < |Exec(s, actions).runs| && Exec(s, actions).runs[r] == Process(all, |all|, Succeeded))
      ==> Exec(s, actions).db.schema == all
    decreases |actions|
  {
    if actions == [] {
      if r :| 0 <= r < |s.runs| && s.runs[r] == Process(all, |all|, Succeeded) {
        assert Honest(s.db, s.runs[r]);
        AllRecordedIsAll(s.db, all);
      }
    } else {
      MoveKeeps(s, actions[0]);
      MoveKeepsOrder(s, actions[0], all);
      SchemaIsASortedPrefix(Move(s, actions[0]), actions[1..], all);
    }
  }

  lemma AllRecordedIsAll(db: Db, all: seq<string>)
    requires Sound(db) && NoRepeats(all) && db.schema <= all
    requires forall i :: 0 <= i < |all| ==> all[i] in db.recorded
    ensures db.schema == all
  {
    var k := |db.schema|;
    if k < |all| { InEffectIffEarlier(db, all, k); }
  }

  // ----- a sequential run is one of these behaviours

  function Script(db: Db, files: seq<string>, outcomes: seq<Outcome>, r: nat): seq<Action>
    requires |files| == |outcomes|
    decreases |files|
  {
    if files == [] then [Finish(r)]
    else if outcomes[0] == FailsAt(CheckStep) then [Fail(r)]
    else if files[0] in db.recorded then [Look(r)] + Script(db, files[1..], outcomes[1..], r)
    else
      match outcomes[0]
      case FailsAt(_) => [Look(r), Fail(r)]
      case AckLost => [Look(r), CommitUnheard(r)]
      case Goes => [Look(r), Commit(r)] + Script(Applied(db, files[0]), files[1..], outcomes[1..], r)
  }

  lemma ExecCons(s: System, a: Action, rest: seq<Action>)
    requires Enabled(s, a) && Possible(Move(s, a), rest)
    ensures Possible(s, [a] + rest)
    ensures Exec(s, [a] + rest) == Exec(Move(s, a), rest)
  {
    assert ([a] + rest)[1..] == rest;
  }

  lemma ExecOne(s: System, a: Action)
    requires Enabled(s, a)
    ensures Possible(s, [a]) && Exec(s, [a]) == Move(s, a)
  {
    assert [a] + [] == [a];
    ExecCons(s, a, []);
  }

  lemma ExecTwo(s: System, a: Action, b: Action, rest: seq<Action>)
    requires Enabled(s, a) && Enabled(Move(s, a), b) && Possible(Move(Move(s, a), b), rest)
    ensures Possible(s, [a, b] + rest)
    ensures Exec(s, [a, b] + rest) == Exec(Move(Move(s, a), b), rest)
  {
    assert [a, b] + rest == [a] + ([b] + rest);
    ExecCons(Move(s, a), b, rest);
    ExecCons(s, a, [b] + rest);
  }

  /** The loop of one run, started while any others are under way, is a behaviour of
      the protocol with the same effect and verdict. */
  lemma {:induction false} RunIsABehaviour(s: System, r: nat, outcomes: seq<Outcome>)
    requires r < |s.runs| && s.runs[r].phase == Checking
    requires s.runs[r].pos <= |s.runs[r].files| && |outcomes| == |s.runs[r].files| - s.runs[r].pos
    ensures var p := s.runs[r];
      var script := Script(s.db, p.files[p.pos..], outcomes, r);
      && Possible(s, script)
      && Exec(s, script).db == RunFrom(s.db, p.files[p.pos..], outcomes).0
      && |Exec(s, script).runs| == |s.runs|
      && (Exec(s, script).runs[r].phase == Succeeded <==> RunFrom(s.db, p.files[p.pos..], outcomes).1 == NoError)
    decreases |outcomes|
  {
    hide Possible, Exec;
    var p := s.runs[r];
    var rest := p.files[p.pos..];
    if rest == [] {
      ExecOne(s, Finish(r));
    } else if outcomes[0] == FailsAt(CheckStep) {
      ExecOne(s, Fail(r));
    } else {
      var look := Move(s, Look(r));
      assert rest[1..] == p.files[p.pos + 1..];
      if rest[0] in s.db.recorded {
        RunIsABehaviour(look, r, outcomes[1..]);
        ExecCons(s, Look(r), Script(s.db, rest[1..], outcomes[1..], r));
      } else if outcomes[0] == Goes {
        var done := Move(look, Commit(r));
        RunIsABehaviour(done, r, outcomes[1..]);
        ExecTwo(s, Look(r), Commit(r), Script(done.db, rest[1..], outcomes[1..], r));
      } else {
        var last := if outcomes[0] == AckLost then CommitUnheard(r) else Fail(r);
        ExecOne(look, last);
        assert [Look(r), last] == [Look(r)] + [last];
        ExecCons(s, Look(r), [last]);
      }
    }
  }
}
