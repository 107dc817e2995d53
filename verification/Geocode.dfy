/** Address lookup (internal/geocode/geocode.go): the fall-back order of `Search`
    and the suffix lookup of a key without province, over the keys `Entrance` stores. */
module Geocode {
  import opened Words
  import opened Numerals
  import opened Parser
  import opened RoadKeys
  import Entrance
  import Juso
  import opened SqlLike
  import opened Dict
  import opened NormalForm

  // ----- the pattern of a partial key

  /** The pattern a partial key is looked up with selects exactly the keys that end in
      it if and only if the key holds no metacharacter. */
  lemma SuffixPatternIsExact(partial: string)
    ensures (forall s :: Like("%" + (" " + partial), s) <==> HasSuffix(s, " " + partial)) <==> NoMeta(partial)
  {
    var lit := " " + partial;
    if NoMeta(partial) {
      assert NoMeta(lit);
      forall s ensures Like("%" + lit, s) <==> HasSuffix(s, lit) { LikeSuffix(lit, s); }
    } else {
      var i :| 0 <= i < |partial| && IsMeta(partial[i]);
      assert IsMeta(lit[i + 1]);
      assert ("%" + lit)[1..] == lit;
      if Dangling(lit) {
        assert Dangling("%" + lit);
        DanglingMatchesNothing("%" + lit, lit);
        assert lit[0..] == lit;
        assert !(Like("%" + lit, lit) <==> HasSuffix(lit, lit));
      } else {
        LikeSample(lit);
        var u := Sample(lit);
        assert |u| == |lit| ==> u[0..] == u;
        assert !(Like("%" + lit, u) <==> HasSuffix(u, lit));
      }
    }
  }

  // ----- suffixes of keys are suffixes of word lists

  /** `pw` is what is left of `ws` after leaving out at least one word in front. */
  ghost predicate IsProperSuffix(pw: seq<string>, ws: seq<string>) {
    |pw| < |ws| && ws[|ws| - |pw|..] == pw
  }

  /** A key ends in a blank and a partial key exactly when its words end in the
      partial key's words and there are more of them: a match never starts inside a
      word. */
  lemma SuffixIsWordSuffix(ws: seq<string>, pw: seq<string>)
    requires AreWords(ws) && AreWords(pw) && pw != []
    ensures HasSuffix(Join(ws), " " + Join(pw)) <==> IsProperSuffix(pw, ws)
  {
    hide Fields, Join;
    if IsProperSuffix(pw, ws) { WordSuffixIsSuffix(ws, pw); }
    if HasSuffix(Join(ws), " " + Join(pw)) { SuffixIsOfWords(ws, pw); }
  }

  lemma WordSuffixIsSuffix(ws: seq<string>, pw: seq<string>)
    requires pw != [] && IsProperSuffix(pw, ws)
    ensures HasSuffix(Join(ws), " " + Join(pw))
  {
    hide Join;
    var front := ws[..|ws| - |pw|];
    assert ws == front + pw;
    JoinConcat(front, pw);
    assert Join(ws) == Join(front) + (" " + Join(pw));
  }

  lemma SuffixIsOfWords(ws: seq<string>, pw: seq<string>)
    requires AreWords(ws) && AreWords(pw) && pw != []
    requires HasSuffix(Join(ws), " " + Join(pw))
    ensures IsProperSuffix(pw, ws)
  {
    hide Fields, Join;
    var s, t := Join(ws), " " + Join(pw);
    var a := s[..|s| - |t|];
    assert s == a + " " + Join(pw);
    FieldsConcat(a, Join(pw));
    FieldsOfJoin(ws);
    FieldsOfJoin(pw);
    assert ws == Fields(a) + pw;
    assert Fields(a) == [] ==> ws == pw;
  }

  // ----- the suffix lookup

  datatype Building = Building(roadAddress: string, bcode: string, normRoad: string, hasGeom: bool)

  datatype Match = Exact | ExactPartial | JibunMatch | Trigram | AmbiguousMatch

  datatype Result = Result(
    roadAddress: string, bcode: string, match_: Match, candidates: seq<string>, warnings: seq<Warning>)

  datatype Answer = Found(r: Result) | AmbiguousHit(r: Result) | NoRows | DbError

  predicate Selected(b: Building, partial: string) {
    Like("%" + (" " + partial), b.normRoad) && b.hasGeom
  }

  /** The distinct addresses the condition selects. */
  ghost function Addresses(table: set<Building>, partial: string): set<string> {
    set b | b in table && Selected(b, partial) :: b.roadAddress
  }

  /** What the query may return: one selected row for each of at most five addresses,
      all of them if there are no more. */
  ghost predicate IsSelection(table: set<Building>, partial: string, rows: seq<Building>) {
    && (forall i :: 0 <= i < |rows| ==> rows[i] in table && Selected(rows[i], partial))
    && (forall i, j :: 0 <= i < j < |rows| ==> rows[i].roadAddress != rows[j].roadAddress)
    && |rows| == (if |Addresses(table, partial)| < 5 then |Addresses(table, partial)| else 5)
  }

  method RoadSuffix(rows: seq<Building>) returns (a: Answer)
    ensures |rows| == 0 ==> a == NoRows
    ensures |rows| == 1 ==> a == Found(Result(rows[0].roadAddress, rows[0].bcode, ExactPartial, [], []))
    ensures |rows| >= 2 ==> a.AmbiguousHit? && a.r.match_ == AmbiguousMatch && |a.r.candidates| == |rows|
    ensures |rows| >= 2 ==> forall i :: 0 <= i < |rows| ==> a.r.candidates[i] == rows[i].roadAddress
  {
    var out: seq<Result> := [];
    for i := 0 to |rows|
      invariant |out| == i
      invariant forall k :: 0 <= k < i ==> out[k] == Result(rows[k].roadAddress, rows[k].bcode, Exact, [], [])
    {
      out := out + [Result(rows[i].roadAddress, rows[i].bcode, Exact, [], [])];
    }
    if |out| == 0 {
      return NoRows;
    }
    if |out| == 1 {
      return Found(out[0].(match_ := ExactPartial));
    }
    var amb := Result("", "", AmbiguousMatch, [], []);
    for i := 0 to |out|
      invariant |amb.candidates| == i && amb.match_ == AmbiguousMatch
      invariant forall k :: 0 <= k < i ==> amb.candidates[k] == rows[k].roadAddress
    {
      amb := amb.(candidates := amb.candidates + [out[i].roadAddress]);
    }
    return AmbiguousHit(amb);
  }

  /** Every key of the table is words joined by single blanks. */
  ghost predicate KeysAreJoined(table: set<Building>) {
    forall b :: b in table ==> b.normRoad == Join(Fields(b.normRoad))
  }

  ghost predicate EndsIn(b: Building, pw: seq<string>) {
    b.hasGeom && IsProperSuffix(pw, Fields(b.normRoad))
  }

  lemma SelectedIsSuffix(b: Building, pw: seq<string>)
    requires b.normRoad == Join(Fields(b.normRoad)) && AreWords(pw) && pw != [] && NoMeta(Join(pw))
    ensures Selected(b, Join(pw)) <==> EndsIn(b, pw)
  {
    hide Like, Fields, Join, IsProperSuffix;
    assert NoMeta(" " + Join(pw));
    LikeSuffix(" " + Join(pw), b.normRoad);
    FieldsAreWords(b.normRoad);
    SuffixIsWordSuffix(Fields(b.normRoad), pw);
  }

  /** The lookup of a partial key decides by the addresses its pattern selects: none means
      no rows, one means `exact_partial` with that address, two or more are reported as
      ambiguous, and the limit of five rows never hides that. */
  ghost predicate IsSuffixAnswer(table: set<Building>, partial: string, a: Answer) {
    && (a == NoRows <==> (forall b :: b in table ==> !Selected(b, partial)))
    && (a.Found? <==> (exists b :: b in table && Selected(b, partial)) && OneAddress(table, partial))
    && (a.Found? ==> a.r.match_ == ExactPartial && AreCandidates(table, partial, [a.r.roadAddress]))
    && (a.AmbiguousHit? <==>
        exists b, c :: b in table && c in table && Selected(b, partial) && Selected(c, partial)
                       && b.roadAddress != c.roadAddress)
    && (a.AmbiguousHit? ==> AreCandidates(table, partial, a.r.candidates))
  }

  ghost predicate OneAddress(table: set<Building>, partial: string) {
    forall b, c :: b in table && c in table && Selected(b, partial) && Selected(c, partial)
                   ==> b.roadAddress == c.roadAddress
  }

  ghost predicate AreCandidates(table: set<Building>, partial: string, candidates: seq<string>) {
    forall i :: 0 <= i < |candidates| ==>
      exists b :: b in table && Selected(b, partial) && b.roadAddress == candidates[i]
  }

  /** For any partial key.  Over joined keys, and for a partial key without metacharacter,
      what is selected are exactly the rows whose words end in the partial key's. */
  method LookUpPartial(ghost table: set<Building>, ghost partial: string, rows: seq<Building>) returns (a: Answer)
    requires IsSelection(table, partial, rows)
    ensures IsSuffixAnswer(table, partial, a)
    ensures KeysAreJoined(table) && NoMeta(partial) && partial != "" && partial == Join(Fields(partial)) ==>
      forall b :: b in table ==> (Selected(b, partial) <==> EndsIn(b, Fields(partial)))
  {
    a := RoadSuffix(rows);
    hide Like, Fields, Join, NoMeta, IsProperSuffix, EndsIn, Selected;
    CountDecides(table, partial, rows);
    if KeysAreJoined(table) && NoMeta(partial) && partial != "" && partial == Join(Fields(partial)) {
      FieldsAreWords(partial);
      NothingJoined();
      forall b | b in table ensures Selected(b, partial) <==> EndsIn(b, Fields(partial)) {
        SelectedIsSuffix(b, Fields(partial));
      }
    }
  }

  lemma CountDecides(table: set<Building>, partial: string, rows: seq<Building>)
    requires IsSelection(table, partial, rows)
    ensures |rows| == 0 <==> (forall b :: b in table ==> !Selected(b, partial))
    ensures |rows| >= 2 <==>
      exists b, c :: b in table && c in table && Selected(b, partial) && Selected(c, partial)
                     && b.roadAddress != c.roadAddress
    ensures forall i :: 0 <= i < |rows| ==> rows[i] in table && Selected(rows[i], partial)
  {
    hide Selected;
    var all := Addresses(table, partial);
    if all == {} {
      forall b | b in table ensures !Selected(b, partial) {
        assert Selected(b, partial) ==> b.roadAddress in all;
      }
    } else {
      assert |all| > 0;
      assert rows[0] in table;
    }
    if |rows| >= 2 {
      assert rows[0].roadAddress != rows[1].roadAddress;
    }
    if b, c :| b in table && c in table && Selected(b, partial) && Selected(c, partial)
               && b.roadAddress != c.roadAddress {
      assert {b.roadAddress, c.roadAddress} <= all;
      SubsetSize({b.roadAddress, c.roadAddress}, all);
    }
  }

  lemma SubsetSize(a: set<string>, b: set<string>)
    requires a <= b
    ensures |a| <= |b|
  {
    assert b == a + (b - a);
  }

  // ----- the fall-back order

  /** What each query would answer, were it made. */
  datatype Database = Database(exact: Answer, suffix: Answer, jibun: Answer, trigram: Answer)

  function Warned(a: Answer, warnings: seq<Warning>): Answer {
    match a
    case Found(r) => Found(r.(warnings := warnings))
    case AmbiguousHit(r) => AmbiguousHit(r.(warnings := warnings))
    case _ => a
  }

  function AsExact(a: Answer): Answer {
    if a.Found? then Found(a.r.(match_ := Exact)) else a
  }

  /** The first answer that is not "no rows". */
  function FirstDecisive(answers: seq<Answer>): Answer {
    if answers == [] then NoRows
    else if answers[0] != NoRows then answers[0]
    else FirstDecisive(answers[1..])
  }

  /** The queries a parsed address allows, in the order they are tried. */
  function Attempts(p: Parsed, db: Database): seq<Answer> {
    var (key, full) := RoadKey(p);
    (if key == "" then [] else if full then [AsExact(db.exact)] else [db.suffix])
    + (if p.jibun != "" && p.emd != "" then [db.jibun] else [])
    + [db.trigram]
  }

  /** Only the suffix lookup can report an ambiguity. */
  predicate Typed(db: Database) {
    !db.exact.AmbiguousHit? && !db.jibun.AmbiguousHit? && !db.trigram.AmbiguousHit?
  }

  /** The answer to a parsed address. */
  function Answered(p: Parsed, db: Database): Answer {
    Warned(FirstDecisive(Attempts(p, db)), p.warnings)
  }

  /** The road stage has a key to look for, with its province or without. */
  predicate HasRoadKey(p: Parsed, full: bool) {
    RoadKey(p).0 != "" && RoadKey(p).1 == full
  }

  predicate HasLot(p: Parsed) {
    p.jibun != "" && p.emd != ""
  }

  /** There was no key, or the query for it gave no rows. */
  predicate RoadFails(p: Parsed, db: Database) {
    && (HasRoadKey(p, true) ==> db.exact == NoRows)
    && (HasRoadKey(p, false) ==> db.suffix == NoRows)
  }

  /** What the road stage answers is final unless it is that there are no rows. */
  predicate RoadDecides(p: Parsed, db: Database, a: Answer) {
    && (HasRoadKey(p, true) && db.exact.Found? ==> a == Found(db.exact.r.(match_ := Exact, warnings := p.warnings)))
    && (HasRoadKey(p, true) && db.exact.DbError? ==> a == DbError)
    && (HasRoadKey(p, false) && db.suffix.Found? ==> a == Found(db.suffix.r.(warnings := p.warnings)))
    && (HasRoadKey(p, false) && db.suffix.AmbiguousHit? ==> a == AmbiguousHit(db.suffix.r.(warnings := p.warnings)))
    && (HasRoadKey(p, false) && db.suffix.DbError? ==> a == DbError)
  }

  /** Behind a failed road stage, a lot in a town is looked up, and the answer is final
      unless it is that there are no rows. */
  predicate LotDecides(p: Parsed, db: Database, a: Answer) {
    RoadFails(p, db) && HasLot(p) ==>
      && (db.jibun.Found? ==> a == Found(db.jibun.r.(warnings := p.warnings)))
      && (db.jibun.DbError? ==> a == DbError)
  }

  /** The text search answers only when every stage the parse allows gave no rows. */
  predicate TextIsLast(p: Parsed, db: Database, a: Answer) {
    RoadFails(p, db) && (HasLot(p) ==> db.jibun == NoRows) ==>
      && (db.trigram.Found? ==> a == Found(db.trigram.r.(warnings := p.warnings)))
      && (!db.trigram.Found? ==> a == db.trigram)
  }

  lemma AnsweredIs(p: Parsed, db: Database)
    requires Typed(db)
    ensures RoadDecides(p, db, Answered(p, db)) && LotDecides(p, db, Answered(p, db))
    ensures TextIsLast(p, db, Answered(p, db))
  {
    hide RoadKey;
    var (key, full) := RoadKey(p);
    var road := if key == "" then [] else if full then [AsExact(db.exact)] else [db.suffix];
    var lot := if p.jibun != "" && p.emd != "" then [db.jibun] else [];
    SkipsFailures(road, lot + [db.trigram]);
    SkipsFailures(lot, [db.trigram]);
    assert Attempts(p, db) == road + (lot + [db.trigram]);
    assert [db.trigram][1..] == [];
  }

  lemma SkipsFailures(first: seq<Answer>, rest: seq<Answer>)
    requires |first| <= 1
    ensures FirstDecisive(first + rest) ==
      if first == [] || first[0] == NoRows then FirstDecisive(rest) else first[0]
  {
    if first == [] { assert first + rest == rest; } else { assert (first + rest)[1..] == rest; }
  }

  method Search(q: string, db: Database) returns (a: Answer)
    requires Typed(db)
    ensures RoadDecides(ParseSpec(q), db, a) && LotDecides(ParseSpec(q), db, a) && TextIsLast(ParseSpec(q), db, a)
    ensures a == Answered(ParseSpec(q), db)
  {
    hide RoadKey, ParseSpec;
    AnsweredIs(ParseSpec(q), db);
    hide RoadDecides, LotDecides, TextIsLast;
    var p := Parse(q);
    ghost var tail := (if p.jibun != "" && p.emd != "" then [db.jibun] else []) + [db.trigram];
    assert Attempts(p, db) ==
      (if RoadKey(p).0 == "" then [] else if RoadKey(p).1 then [AsExact(db.exact)] else [db.suffix]) + tail;
    assert [db.trigram][1..] == [];
    assert FirstDecisive([db.trigram]) == db.trigram;
    var (key, full) := RoadKey(p);
    if key != "" {
      assert Attempts(p, db)[1..] == tail;
      if full {
        match db.exact {
          case Found(r) => return Found(r.(match_ := Exact, warnings := p.warnings));
          case DbError => return DbError;
          case _ =>
        }
      } else {
        match db.suffix {
          case Found(r) => return Found(r.(warnings := p.warnings));
          case AmbiguousHit(r) => return AmbiguousHit(r.(warnings := p.warnings));
          case DbError => return DbError;
          case NoRows =>
        }
      }
    } else {
      assert Attempts(p, db) == tail;
    }
    if p.jibun != "" && p.emd != "" {
      assert tail[1..] == [db.trigram];
      match db.jibun {
        case Found(r) => return Found(r.(warnings := p.warnings));
        case DbError => return DbError;
        case _ =>
      }
    } else {
      assert tail == [db.trigram];
    }
    match db.trigram {
      case Found(r) => return Found(r.(warnings := p.warnings));
      case DbError => return DbError;
      case _ => return NoRows;
    }
  }

  /** What the exact query may answer: any row with the key and a position. */
  ghost predicate IsExactAnswer(table: set<Building>, key: string, a: Answer) {
    match a
    case Found(r) => exists b :: b in table && b.normRoad == key && b.hasGeom && r.roadAddress == b.roadAddress
    case NoRows => forall b :: b in table ==> !(b.normRoad == key && b.hasGeom)
    case DbError => true
    case AmbiguousHit(_) => false
  }

  /** A stored row with a position is found, as an exact match on its own key, by every
      query that has its words, however spaced -- unless the database fails. */
  lemma StoredRowIsFound(table: set<Building>, b: Building, q: string, db: Database,
                         sido: string, sigungu: string, road: string, under: string, bon: string, bu: string)
    requires Entrance.WellFormedRow(sido, sigungu, road, under, bon, bu)
    requires b in table && b.hasGeom && b.normRoad == Entrance.Norm(sido, sigungu, road, under, bon, bu)
    requires Fields(q) == Entrance.RowWords(sido, sigungu, road, under, bon, bu)
    requires !HasPair(q)
    requires IsExactAnswer(table, b.normRoad, db.exact) && db.exact != DbError
    ensures var a := Answered(ParseSpec(q), db);
      a.Found? && a.r.match_ == Exact
      && exists c :: c in table && c.normRoad == b.normRoad && c.hasGeom && a.r.roadAddress == c.roadAddress
  {
    hide ParseSpec, RoadKey, HasPair, Fields;
    hide Entrance.WellFormedRow, Entrance.RowWords, Entrance.Norm;
    Entrance.AnySpacingFinds(q, sido, sigungu, road, under, bon, bu);
    var p := ParseSpec(q);
    EmptyKeys(p);
    assert Attempts(p, db)[0] == AsExact(db.exact);
  }

  /** The key of some well-formed row. */
  ghost predicate IsStored(norm: string) {
    exists sido, sigungu, road, under, bon, bu ::
      Entrance.WellFormedRow(sido, sigungu, road, under, bon, bu)
      && norm == Entrance.Norm(sido, sigungu, road, under, bon, bu)
  }

  /** A query that names a township and a province has no exact match in any table of such
      keys: it is left to the lot and text searches. */
  lemma TownshipIsNotFound(table: set<Building>, q: string, db: Database)
    requires forall b :: b in table ==> IsStored(b.normRoad)
    requires KeyOf(Tokens(q)).emd != [] && RoadKey(ParseSpec(q)).1
    requires IsExactAnswer(table, RoadKey(ParseSpec(q)).0, db.exact)
    ensures db.exact == NoRows || db.exact == DbError
  {
    hide KeyOf, Tokens, RoadKey, ParseSpec, Entrance.WellFormedRow, Entrance.Norm;
    forall b | b in table ensures b.normRoad != RoadKey(ParseSpec(q)).0 {
      var sido, sigungu, road, under, bon, bu :|
        Entrance.WellFormedRow(sido, sigungu, road, under, bon, bu) &&
        b.normRoad == Entrance.Norm(sido, sigungu, road, under, bon, bu);
      Entrance.TownshipIsNeverStored(q, sido, sigungu, road, under, bon, bu);
    }
  }

  /** The lot address printed for a record is answered by the lot lookup, when that finds
      the lot or fails: for every well-formed record whose number fields are not negative. */
  lemma PrintedLotIsAnswered(r: Juso.Record, db: Database)
    requires Juso.WellFormedRecord(r) && !HasPair(Juso.JibunText(r)) && Typed(db)
    requires Juso.Atoi(r.jibunMain) >= 0 && Juso.Atoi(r.jibunSub) >= 0
    ensures var p, a := ParseSpec(Juso.JibunText(r)), Answered(ParseSpec(Juso.JibunText(r)), db);
      && HasLot(p) && p.jibun == Juso.LotNumber(r) && p.emd == Join(Juso.TownWords(r))
      && (db.jibun.Found? ==> a == Found(db.jibun.r.(warnings := p.warnings)))
      && (db.jibun.DbError? ==> a == DbError)
      && (db.jibun == NoRows && db.trigram.Found? ==> a == Found(db.trigram.r.(warnings := p.warnings)))
  {
    hide ParseSpec, Juso.WellFormedRecord, Juso.JibunText, Juso.Atoi, Juso.LotNumber, Juso.LotToken, Fields, HasPair,
         Join, Juso.TownWords, Attempts, FirstDecisive, Warned;
    Juso.JibunRoundTrip(r);
    Juso.LotNumberIs(r);
    TownIsGiven(r);
    EmptyKeys(ParseSpec(Juso.JibunText(r)));
    AnsweredIs(ParseSpec(Juso.JibunText(r)), db);
  }

  lemma TownIsGiven(r: Juso.Record)
    requires Juso.WellFormedRecord(r)
    ensures Join(Juso.TownWords(r)) != ""
  {
    hide Fields, Join, SIDO_CANON, AreSigungu, AllPlain, AreOfKind;
    FieldsAreWords(r.emd);
    FieldsAreWords(r.ri);
    JoinNonempty(Juso.TownWords(r));
  }

  // ----- queries without province

  /** A query with the words of a stored row but its province finds that row's address,
      as the only one or among others, unless its first word is itself a province name
      or the database fails. */
  lemma PartialQueryIsAnswered(table: set<Building>, b: Building, q: string, db: Database,
                               sido: string, sigungu: string, road: string, under: string, bon: string, bu: string)
    requires Entrance.WellFormedRow(sido, sigungu, road, under, bon, bu)
    requires b in table && b.hasGeom && b.normRoad == Entrance.Norm(sido, sigungu, road, under, bon, bu)
    requires KeysAreJoined(table)
    requires Fields(q) == Entrance.PartialWords(sido, sigungu, road, under, bon, bu) && !HasPair(q)
    requires CanonSido(Fields(q)[0]).None? && '\\' !in q
    requires IsSuffixAnswer(table, Join(Fields(q)), db.suffix) && db.suffix != DbError
    ensures var a := Answered(ParseSpec(q), db);
      a.AmbiguousHit? || (a.Found? && a.r.match_ == ExactPartial && a.r.roadAddress == b.roadAddress)
  {
    hide ParseSpec, RoadKey, HasPair, Fields, Join, Selected, CanonSido;
    hide Entrance.WellFormedRow, Entrance.PartialWords, Entrance.Norm;
    Entrance.PartialQueryReads(q, sido, sigungu, road, under, bon, bu);
    RowEndsInQuery(b, q, sido, sigungu, road, under, bon, bu);
    EmptyKeys(ParseSpec(q));
    JoinedWords(q);
    if db.suffix.Found? { assert [db.suffix.r.roadAddress][0] == db.suffix.r.roadAddress; }
    assert Attempts(ParseSpec(q), db)[0] == db.suffix;
  }

  lemma JoinedWords(q: string)
    requires Fields(q) != []
    ensures Join(Fields(q)) != ""
  {
    hide Fields, Join;
    FieldsAreWords(q);
    JoinNonempty(Fields(q));
  }

  lemma RowEndsInQuery(b: Building, q: string, sido: string, sigungu: string, road: string, under: string, bon: string,
                       bu: string)
    requires Entrance.WellFormedRow(sido, sigungu, road, under, bon, bu)
    requires b.hasGeom && b.normRoad == Entrance.Norm(sido, sigungu, road, under, bon, bu)
    requires Fields(q) == Entrance.PartialWords(sido, sigungu, road, under, bon, bu) && '\\' !in q
    ensures Selected(b, Join(Fields(q)))
  {
    hide Fields, Join, Like, BodyWords, Entrance.WellFormedRow, Entrance.Norm, WellFormed, Plain;
    var k := Entrance.RowKey(sido, sigungu, road, under, bon, bu);
    Entrance.RowIsKey(sido, sigungu, road, under, bon, bu);
    WordsOfKey(k);
    Entrance.PlainAreWords(KeyWords(k));
    FieldsOfJoin(KeyWords(k));
    FieldsAreWords(q);
    Entrance.BodyIsNotEmpty(k);
    assert KeyWords(k)[|k.sido|..] == BodyWords(k);
    SuffixIsWordSuffix(KeyWords(k), Fields(q));
    NoNewEscape(q);
    SuffixIsFound(" " + Join(Fields(q)), b.normRoad);
  }

  lemma {:induction false} InFields(s: string, c: char)
    requires c !in s
    ensures forall i :: 0 <= i < |Fields(s)| ==> c !in Fields(s)[i]
    decreases |s|
  {
    if s != "" {
      if IsSpace(s[0]) {
        InFields(s[1..], c);
      } else {
        var k := WordEnd(s);
        InFields(s[k..], c);
        assert Fields(s) == [s[..k]] + Fields(s[k..]);
      }
    }
  }

  lemma {:induction false} InJoin(ws: seq<string>, c: char)
    requires c != ' ' && forall i :: 0 <= i < |ws| ==> c !in ws[i]
    ensures c !in Join(ws)
  {
    if |ws| > 1 { InJoin(ws[1..], c); }
  }

  lemma NoNewEscape(q: string)
    requires '\\' !in q
    ensures '\\' !in " " + Join(Fields(q))
  {
    hide Fields, Join;
    InFields(q, '\\');
    InJoin(Fields(q), '\\');
  }

  // ----- a partial key that is a pattern

  const WILD_ROAD: string := "가_로"
  const TAME_ROAD: string := "가나로"
  const SEOUL: string := "서울특별시"
  const JUNG: string := "중구"

  lemma WildRoadMatches()
    ensures Like(WILD_ROAD, TAME_ROAD) && !Dangling(WILD_ROAD) && WILD_ROAD != TAME_ROAD && !NoMeta(WILD_ROAD)
  {
    assert WILD_ROAD[1] == '_';
    assert "가_로"[1..] == "_로" && "_로"[1..] == "로" && "로"[1..] == "";
    assert "가나로"[1..] == "나로" && "나로"[1..] == "로";
    assert Like("로", "로");
    assert Like("_로", "나로");
    assert TAME_ROAD[1] == '나';
    NotDangling(WILD_ROAD);
  }

  lemma RoadsAre()
    ensures Plain(WILD_ROAD) && ClassifyName(WILD_ROAD) == Road && WILD_ROAD != UNDERGROUND
    ensures Plain(TAME_ROAD) && ClassifyName(TAME_ROAD) == Road && TAME_ROAD != UNDERGROUND
    ensures Opens(WILD_ROAD) == 0
  {
    OpensNone(WILD_ROAD);
  }

  lemma JungIsNoNumber()
    ensures !IsNumToken(JUNG)
  {
    hide Digits;
    assert JUNG[0..][0] != "번지"[0];
    assert NumberPart(JUNG) == JUNG;
    assert DigitsEnd(JUNG) == 0;
  }

  lemma JungIs()
    ensures Plain(JUNG) && IsSigungu(JUNG)
  {
    hide IsNumToken;
    JungIsNoNumber();
    assert JUNG[1..] == "구";
  }

  lemma PlacesAre()
    ensures SEOUL in SIDO_CANON && IsWord(SEOUL)
    ensures Plain(JUNG) && IsSigungu(JUNG)
  {
    hide Plain, IsSigungu;
    JungIs();
    assert SIDO_CANON[0] == SEOUL;
  }

  lemma TameWords()
    ensures Fields(SEOUL) == [SEOUL] && Fields(JUNG) == [JUNG]
    ensures Fields(TAME_ROAD) == [TAME_ROAD] && Fields("1") == ["1"]
  {
    hide Fields, IsWord, Clean, SEOUL, JUNG, WILD_ROAD, TAME_ROAD, ClassifyName, SIDO_CANON, IsSigungu,
         IsNumber;
    PlacesAre();
    RoadsAre();
    OneIsNumber();
    NumberIsPlain("1");
    OneWord(SEOUL);
    OneWord(JUNG);
    OneWord(TAME_ROAD);
    OneWord("1");
  }

  lemma TameRow()
    ensures Entrance.WellFormedRow(SEOUL, JUNG, TAME_ROAD, "0", "1", "0")
    ensures Entrance.RowWords(SEOUL, JUNG, TAME_ROAD, "0", "1", "0") == [SEOUL, JUNG, TAME_ROAD, "1"]
  {
    hide Fields, Plain, SEOUL, JUNG, WILD_ROAD, TAME_ROAD, ClassifyName, SIDO_CANON, IsSigungu, IsWord;
    PlacesAre();
    RoadsAre();
    TameWords();
  }

  lemma TameKey()
    ensures Entrance.Norm(SEOUL, JUNG, TAME_ROAD, "0", "1", "0") == SEOUL + " " + JUNG + (" " + (TAME_ROAD + " 1"))
  {
    hide Entrance.Norm, Entrance.RowWords, Fields, SEOUL, JUNG, TAME_ROAD, Join;
    TameRow();
    Entrance.NormJoinsWords(SEOUL, JUNG, TAME_ROAD, "0", "1", "0");
    JoinPair(SEOUL, JUNG);
    JoinPair(TAME_ROAD, "1");
    JoinConcat([SEOUL, JUNG], [TAME_ROAD, "1"]);
    assert [SEOUL, JUNG] + [TAME_ROAD, "1"] == [SEOUL, JUNG, TAME_ROAD, "1"];
    assert TAME_ROAD + " " + "1" == TAME_ROAD + " 1";
  }

  lemma JoinPair(a: string, b: string)
    ensures Join([a, b]) == a + " " + b
  {
    assert [a, b][1..] == [b];
  }

  /** A query whose road holds an underscore gets it into its key ... */
  lemma WildKey()
    ensures RoadKey(ParseSpec(WILD_ROAD + " 1")) == (WILD_ROAD + " 1", false)
  {
    hide WILD_ROAD, ClassifyName, Plain, IsNumber, ParseSpec, RoadKey, HasPair, Opens, Join, WellFormed,
         Printed;
    var k := Key([], [], [], [WILD_ROAD], false, "1");
    RoadsAre();
    OneIsNumber();
    WildIsWellFormed(k);
    JoinPair(WILD_ROAD, "1");
    assert KeyWords(k) == [WILD_ROAD, "1"];
    assert WILD_ROAD + " " + "1" == WILD_ROAD + " 1";
    WildText(k);
    OpensConcat(WILD_ROAD, " 1");
    OpensNone(" 1");
    OpensOfStrip(WILD_ROAD + " 1");
    KeyIsFixed(k);
  }

  lemma WildText(k: Key)
    ensures Printed(k) == Join(KeyWords(k))
  {
  }

  lemma WildIsWellFormed(k: Key)
    requires k == Key([], [], [], [WILD_ROAD], false, "1")
    ensures WellFormed(k)
  {
    hide WILD_ROAD, ClassifyName, Plain, IsNumber;
    RoadsAre();
    OneIsNumber();
  }

  /** ... and the lookup selects a stored key that does not end in those words. */
  lemma WildcardSelectsWrongly(b: Building)
    requires b.hasGeom && b.normRoad == Entrance.Norm(SEOUL, JUNG, TAME_ROAD, "0", "1", "0")
    ensures Entrance.WellFormedRow(SEOUL, JUNG, TAME_ROAD, "0", "1", "0")
    ensures RoadKey(ParseSpec(WILD_ROAD + " 1")) == (WILD_ROAD + " 1", false)
    ensures Selected(b, WILD_ROAD + " 1") && !EndsIn(b, [WILD_ROAD, "1"])
  {
    hide WILD_ROAD, TAME_ROAD, SEOUL, JUNG, Entrance.Norm, Entrance.WellFormedRow, Entrance.RowWords, RoadKey,
         ParseSpec, Fields, Join, Like, NoMeta, Dangling;
    TameRow();
    TameKey();
    WildKey();
    WildRoadMatches();
    BlankOne();
    LikeConcat(WILD_ROAD, " 1", TAME_ROAD, " 1");
    LikeConcat(" ", WILD_ROAD + " 1", " ", TAME_ROAD + " 1");
    PercentSkips(" " + (WILD_ROAD + " 1"), SEOUL + " " + JUNG, " " + (TAME_ROAD + " 1"));
    TameFields(b.normRoad);
    assert Fields(b.normRoad)[2..] == [TAME_ROAD, "1"];
    assert [TAME_ROAD, "1"][0] != [WILD_ROAD, "1"][0];
  }

  lemma TameFields(norm: string)
    requires norm == Entrance.Norm(SEOUL, JUNG, TAME_ROAD, "0", "1", "0")
    ensures Fields(norm) == [SEOUL, JUNG, TAME_ROAD, "1"]
  {
    hide WILD_ROAD, TAME_ROAD, SEOUL, JUNG, Entrance.Norm, Entrance.RowWords, Fields, Join, Plain, IsSigungu,
         ClassifyName, SIDO_CANON, IsNumber, Entrance.WellFormedRow;
    TameRow();
    Entrance.NormJoinsWords(SEOUL, JUNG, TAME_ROAD, "0", "1", "0");
    TameWords();
    FieldsAreWords(SEOUL);
    FieldsAreWords(JUNG);
    FieldsAreWords(TAME_ROAD);
    FieldsAreWords("1");
    FourWords(SEOUL, JUNG, TAME_ROAD, "1");
    FieldsOfJoin([SEOUL, JUNG, TAME_ROAD, "1"]);
  }

  lemma FourWords(a: string, b: string, c: string, d: string)
    requires AreWords([a]) && AreWords([b]) && AreWords([c]) && AreWords([d])
    ensures AreWords([a, b, c, d])
  {
    hide IsWord;
    assert IsWord([a][0]) && IsWord([b][0]) && IsWord([c][0]) && IsWord([d][0]);
  }

  lemma BlankOne()
    ensures Like(" 1", " 1") && Like(" ", " ") && !Dangling(" ")
  {
    assert " 1"[1..] == "1" && "1"[1..] == "" && " "[1..] == "";
    assert Like("1", "1");
  }
}
