/** The stored match key of a building entrance and the load that keeps one row per
    key (internal/etl/entrance/load.go). */
module Entrance {
  import opened Words
  import opened Numerals
  import opened Dict
  import opened Parser
  import opened RoadKeys
  import opened NormalForm
  import opened ParenPairs

  function Number(bon: string, bu: string): string {
    if bu != "" && bu != "0" then bon + "-" + bu else bon
  }

  function Norm(sido: string, sigungu: string, road: string, under: string, bon: string, bu: string): string {
    var parts := [sido, sigungu, road] + (if under == "1" then [UNDERGROUND] else []) + [Number(bon, bu)];
    Join(Fields(Join(parts)))
  }

  // ----- the stored key is a key the parser prints

  /** The words of all fields, in order. */
  function RowWords(sido: string, sigungu: string, road: string, under: string, bon: string, bu: string): seq<string> {
    Fields(sido) + (Fields(sigungu) + (Fields(road)
    + ((if under == "1" then [UNDERGROUND] else []) + Fields(Number(bon, bu)))))
  }

  lemma NormJoinsWords(sido: string, sigungu: string, road: string, under: string, bon: string, bu: string)
    ensures Norm(sido, sigungu, road, under, bon, bu) == Join(RowWords(sido, sigungu, road, under, bon, bu))
  {
    hide Fields;
    var num := Number(bon, bu);
    var u: seq<string> := if under == "1" then [UNDERGROUND] else [];
    var tail := u + [num];
    assert [sido, sigungu, road] + u + [num] == [sido] + ([sigungu] + ([road] + tail));
    FieldsOfPart(sido, [sigungu] + ([road] + tail));
    FieldsOfPart(sigungu, [road] + tail);
    FieldsOfPart(road, tail);
    assert Join([num]) == num;
    if u != [] {
      FieldsOfPart(UNDERGROUND, [num]);
      UndergroundIsPlain();
      PlainIsOneWord(UNDERGROUND);
    } else {
      assert tail == [num];
      assert u + Fields(num) == Fields(num);
    }
    assert Fields(Join(tail)) == u + Fields(num);
  }

  /** A row as the source's data has it: a full province name, up to two districts,
      road words, digits, and no town. */
  ghost predicate WellFormedRow(sido: string, sigungu: string, road: string, under: string, bon: string, bu: string) {
    && (exists s :: s in SIDO_CANON && Fields(sido) == [s])
    && |Fields(sigungu)| <= 2 && AreSigungu(Fields(sigungu)) && AllPlain(Fields(sigungu))
    && Fields(road) != [] && AreOfKind(Fields(road), Road) && AllPlain(Fields(road))
    && Digits(bon) && (bu == "" || Digits(bu))
  }

  function RowKey(sido: string, sigungu: string, road: string, under: string, bon: string, bu: string): Key {
    Key(Fields(sido), Fields(sigungu), [], Fields(road), under == "1", Number(bon, bu))
  }

  lemma DigitsAreNumber(bon: string, bu: string)
    requires Digits(bon) && (bu == "" || Digits(bu))
    ensures IsNumber(Number(bon, bu))
  {
    var num := Number(bon, bu);
    DigitsEndIs(num);
    if num != bon {
      assert num[|bon|] == '-' && num[|bon| + 1..] == bu;
      assert forall i :: 0 <= i < |bon| ==> num[i] == bon[i];
      assert DigitsEnd(num) == |bon|;
    } else {
      assert DigitsEnd(num) == |num|;
    }
  }

  lemma RowIsKey(sido: string, sigungu: string, road: string, under: string, bon: string, bu: string)
    requires WellFormedRow(sido, sigungu, road, under, bon, bu)
    ensures var k := RowKey(sido, sigungu, road, under, bon, bu);
            WellFormed(k) && k.sido != [] && Norm(sido, sigungu, road, under, bon, bu) == Printed(k)
  {
    hide Fields, IsSigungu, ClassifyName, Plain, CanonSido, IsNumber, SIDO_CANON, Join, Digits, Number;
    DigitsAreNumber(bon, bu);
    var num := Number(bon, bu);
    NumberIsPlain(num);
    PlainIsOneWord(num);
    NormJoinsWords(sido, sigungu, road, under, bon, bu);
    KeyWordsRegroup(RowKey(sido, sigungu, road, under, bon, bu), if under == "1" then [UNDERGROUND] else []);
    assert [] + (Fields(road) + ((if under == "1" then [UNDERGROUND] else []) + [num]))
        == Fields(road) + ((if under == "1" then [UNDERGROUND] else []) + [num]);
  }

  /** The stored key of a well-formed row and the key of a query agree: parsing the
      stored key recovers the row's fields, and printing the result gives the stored
      key with `full` set -- exactly when the names hold no pair of parentheses. */
  lemma StoredKeyAgrees(sido: string, sigungu: string, road: string, under: string, bon: string, bu: string)
    requires WellFormedRow(sido, sigungu, road, under, bon, bu)
    ensures var norm := Norm(sido, sigungu, road, under, bon, bu);
            RoadKey(ParseSpec(norm)) == (norm, true) <==> !HasPair(norm)
    ensures var norm := Norm(sido, sigungu, road, under, bon, bu);
            !HasPair(norm) ==>
              var p := ParseSpec(norm);
              && p.kind == Road && [p.sido] == Fields(sido) && p.sigungu == Join(Fields(sigungu))
              && p.road == Join(Fields(road)) && p.under == (under == "1") && p.bldNo == Number(bon, bu)
              && p.emd == "" && p.jibun == "" && p.extra == "" && !p.san
  {
    hide Fields, IsSigungu, ClassifyName, Plain, CanonSido, IsNumber, SIDO_CANON, Digits, Number, RoadKey,
         HasPair, OfKind;
    RowIsKey(sido, sigungu, road, under, bon, bu);
    var k := RowKey(sido, sigungu, road, under, bon, bu);
    var norm := Norm(sido, sigungu, road, under, bon, bu);
    if !HasPair(norm) {
      KeyIsFixed(k);
      KeyParsesBack(k);
      NamesOfKey(k);
      NumberIsPlain(k.num);
      NoOthers(k);
    } else {
      PrintedNonempty(k);
      if RoadKey(ParseSpec(norm)) == (norm, true) {
        KeyIsNormalForm(norm);
      }
    }
  }

  /** A key's name words leave nothing undecided. */
  lemma NoOthers(k: Key)
    requires WellFormed(k) && k.emd == []
    ensures Join([] + OfKind(NameWords(k), Ambiguous) + []) == "" && Join(OfKind(NameWords(k), Jibun)) == ""
  {
    hide ClassifyName, OfKind, IsSigungu, IsNumber, CanonSido, Plain;
    var u: seq<string> := if k.under then [UNDERGROUND] else [];
    AllOfKind(k.road, Road, Ambiguous);
    AllOfKind(k.road, Road, Jibun);
    AllOfKind([], Road, Ambiguous);
    AllOfKind([], Road, Jibun);
    forall kind: Kind ensures OfKind(NameWords(k), kind) == OfKind([], kind) + OfKind(k.road, kind) + OfKind(u, kind) {
      OfKindConcat([] + k.road, u, kind);
      OfKindConcat([], k.road, kind);
      NoNamesUnderground(k.under, kind);
    }
    NoNamesUnderground(k.under, Ambiguous);
    NoNamesUnderground(k.under, Jibun);
    NothingJoined();
    assert OfKind(NameWords(k), Ambiguous) == [] && OfKind(NameWords(k), Jibun) == [];
  }

  /** However a query spaces the words of a stored key, it gets that key. */
  lemma AnySpacingFinds(q: string, sido: string, sigungu: string, road: string, under: string, bon: string, bu: string)
    requires WellFormedRow(sido, sigungu, road, under, bon, bu)
    requires Fields(q) == RowWords(sido, sigungu, road, under, bon, bu)
    requires !HasPair(q)
    ensures RoadKey(ParseSpec(q)) == (Norm(sido, sigungu, road, under, bon, bu), true)
  {
    hide Fields, IsGlued, Plain, SIDO_CANON, Norm, HasPair, RoadKey, ReadTokens, RowWords, WellFormedRow,
         WellFormed, KeyWords, Tokens, Number;
    var norm := Norm(sido, sigungu, road, under, bon, bu);
    var k := RowKey(sido, sigungu, road, under, bon, bu);
    RowIsKey(sido, sigungu, road, under, bon, bu);
    NormJoinsWords(sido, sigungu, road, under, bon, bu);
    WordsOfKey(k);
    PlainAreWords(KeyWords(k));
    FieldsOfJoin(KeyWords(k));
    FieldsAreWords(q);
    FieldsOfJoin(Fields(q));
    SpacingKeepsPairs(q);
    WordsAreTokens(q);
    WordsAreTokens(norm);
    StoredKeyAgrees(sido, sigungu, road, under, bon, bu);
  }

  /** The words of a key tell its groups apart. */
  lemma WordsDetermineKey(a: Key, b: Key)
    requires WellFormed(a) && WellFormed(b) && |a.sido| == |b.sido|
    requires KeyWords(a) == KeyWords(b)
    ensures a == b
  {
    hide LayoutOf, BodyWords, NameWords, OfKind, CanonSido, AreSigungu, AreOfKind, AllPlain,
         EndsInTownOrTownship, IsNumber, SIDO_CANON;
    assert a.sido == KeyWords(a)[..|a.sido|] && b.sido == KeyWords(b)[..|b.sido|];
    assert BodyWords(a) == KeyWords(a)[|a.sido|..] && BodyWords(b) == KeyWords(b)[|b.sido|..];
    BodyOfKey(a);
    BodyOfKey(b);
    NamesOfKey(a);
    NamesOfKey(b);
  }

  lemma TextDeterminesKey(a: Key, b: Key)
    requires WellFormed(a) && WellFormed(b) && a.sido != [] && b.sido != []
    requires Printed(a) == Printed(b)
    ensures a == b
  {
    hide BodyWords, Join, Fields, Plain, CanonSido, IsSigungu, IsNumber, ClassifyName, SIDO_CANON, KeyWords;
    WordsOfKey(a);
    WordsOfKey(b);
    PlainAreWords(KeyWords(a));
    PlainAreWords(KeyWords(b));
    FieldsOfJoin(KeyWords(a));
    FieldsOfJoin(KeyWords(b));
    WordsDetermineKey(a, b);
  }

  /** A query gets the stored key of a row if and only if the parser reads in it the
      row's province, districts, road, underground mark and number, and no town that
      the key prints.  Short or former province names, a number stuck to the road,
      words after the number and notes in parentheses make no difference. */
  lemma AnyReadingFinds(q: string, sido: string, sigungu: string, road: string, under: string, bon: string, bu: string)
    requires WellFormedRow(sido, sigungu, road, under, bon, bu)
    ensures RoadKey(ParseSpec(q)) == (Norm(sido, sigungu, road, under, bon, bu), true)
            <==> KeyOf(Tokens(q)) == RowKey(sido, sigungu, road, under, bon, bu)
  {
    hide Fields, RoadKey, KeyOf, Tokens, Printed, Norm, Number, Digits, IsNumber, SIDO_CANON, Plain, WellFormed,
         ReadTokens, Mapped, Parens, RowKey;
    var row := RowKey(sido, sigungu, road, under, bon, bu);
    RowIsKey(sido, sigungu, road, under, bon, bu);
    WordsNonempty(row);
    PrintedNonempty(row);
    RoadIsGiven(row);
    KeyComesFromReading(q);
    if RoadKey(ParseSpec(q)) == (Norm(sido, sigungu, road, under, bon, bu), true) {
      TokensArePlain(q);
      PrintedIsWellFormed(Tokens(q), Parens(Mapped(q, true)));
      TextDeterminesKey(KeyOf(Tokens(q)), row);
    }
  }

  lemma RoadIsGiven(k: Key)
    requires WellFormed(k)
    ensures k.road != []
  {
  }

  /** A stored key never names a town, and the key of a query prints the township it
      names: such a query gets no stored key at all. */
  lemma TownshipIsNeverStored(q: string, sido: string, sigungu: string, road: string, under: string, bon: string,
                              bu: string)
    requires WellFormedRow(sido, sigungu, road, under, bon, bu)
    requires KeyOf(Tokens(q)).emd != []
    ensures RoadKey(ParseSpec(q)) != (Norm(sido, sigungu, road, under, bon, bu), true)
  {
    hide RoadKey, ParseSpec, KeyOf, Tokens, Norm, WellFormedRow;
    AnyReadingFinds(q, sido, sigungu, road, under, bon, bu);
  }

  // ----- an address with a township

  const JEONNAM: string := "전라남도"
  const WANDO: string := "완도군"
  const WANDO_EUP: string := "완도읍"
  const HOERYONG: string := "회룡길"
  const TOWNSHIP_KEY: Key := Key([JEONNAM], [WANDO], [WANDO_EUP], [HOERYONG], false, "64")

  lemma JeonnamIs()
    ensures JEONNAM in SIDO_CANON && IsWord(JEONNAM) && Opens(JEONNAM) == 0
  {
    hide IsWord;
    assert SIDO_CANON[13] == JEONNAM;
    HangulIsWord(JEONNAM);
    OpensNone(JEONNAM);
  }

  lemma HangulIsWord(w: string)
    requires IsHangul(w)
    ensures IsWord(w) && Plain(w)
  {
  }

  lemma WandoIs()
    ensures Plain(WANDO) && IsSigungu(WANDO) && IsWord(WANDO) && Opens(WANDO) == 0
  {
    hide IsWord, Plain;
    HangulIsWord(WANDO);
    assert WANDO[2..] == "군" && WANDO[1..] == "도군";
    assert !HasBunji(WANDO) && NumberPart(WANDO) == WANDO;
    OpensNone(WANDO);
  }

  lemma WandoEupIs()
    ensures Plain(WANDO_EUP) && ClassifyName(WANDO_EUP) == Jibun && WANDO_EUP != UNDERGROUND && Opens(WANDO_EUP) == 0
    ensures EndsInTownOrTownship([WANDO_EUP])
  {
    hide Plain, IsWord;
    HangulIsWord(WANDO_EUP);
    OpensNone(WANDO_EUP);
  }

  lemma HoeryongIs()
    ensures Plain(HOERYONG) && ClassifyName(HOERYONG) == Road && HOERYONG != UNDERGROUND && IsWord(HOERYONG)
    ensures Opens(HOERYONG) == 0
  {
    hide Plain, IsWord;
    HangulIsWord(HOERYONG);
    OpensNone(HOERYONG);
  }

  lemma SixtyFour()
    ensures Digits("64") && IsNumber("64") && Opens("64") == 0 && Digits("0")
  {
    assert "64"[1..] == "4" && "4"[1..] == "" && DigitsEnd("64") == 2;
    OpensNone("64");
  }

  lemma TownshipKeyIs()
    ensures WellFormed(TOWNSHIP_KEY)
    ensures KeyWords(TOWNSHIP_KEY) == [JEONNAM, WANDO, WANDO_EUP, HOERYONG, "64"]
  {
    hide JEONNAM, WANDO, WANDO_EUP, HOERYONG, SIDO_CANON, Plain, ClassifyName, IsSigungu, IsNumber, CanonSido,
         EndsInTownOrTownship, Opens;
    JeonnamIs();
    WandoIs();
    WandoEupIs();
    HoeryongIs();
    SixtyFour();
  }

  lemma {:induction false} OpensOfEach(ws: seq<string>)
    requires forall i :: 0 <= i < |ws| ==> Opens(ws[i]) == 0
    ensures OpensIn(ws) == 0
  {
    hide Opens;
    if ws != [] { OpensOfEach(ws[1..]); }
  }

  lemma TownshipHasNoPair()
    ensures !HasPair(Printed(TOWNSHIP_KEY))
  {
    hide JEONNAM, WANDO, WANDO_EUP, HOERYONG, SIDO_CANON, Plain, ClassifyName, IsSigungu, IsNumber, CanonSido,
         EndsInTownOrTownship, Opens, OpensIn, Join, HasPair, KeyWords, TOWNSHIP_KEY, WellFormed;
    JeonnamIs();
    WandoIs();
    WandoEupIs();
    HoeryongIs();
    SixtyFour();
    TownshipKeyIs();
    OpensOfEach(KeyWords(TOWNSHIP_KEY));
    OpensOfJoin(KeyWords(TOWNSHIP_KEY));
    OpensOfStrip(Printed(TOWNSHIP_KEY));
  }

  lemma TownshipFields()
    ensures Fields(JEONNAM) == [JEONNAM] && Fields(WANDO) == [WANDO] && Fields(HOERYONG) == [HOERYONG]
    ensures Fields("64") == ["64"]
  {
    hide JEONNAM, WANDO, HOERYONG, SIDO_CANON, ClassifyName, IsSigungu, IsNumber, Opens, Fields, Digits, IsWord,
         Clean;
    JeonnamIs();
    WandoIs();
    HoeryongIs();
    SixtyFour();
    NumberIsPlain("64");
    OneWord(JEONNAM);
    OneWord(WANDO);
    OneWord(HOERYONG);
    OneWord("64");
  }

  lemma TownshipRow()
    ensures WellFormedRow(JEONNAM, WANDO, HOERYONG, "0", "64", "0")
    ensures RowWords(JEONNAM, WANDO, HOERYONG, "0", "64", "0") == [JEONNAM, WANDO, HOERYONG, "64"]
  {
    hide JEONNAM, WANDO, HOERYONG, SIDO_CANON, ClassifyName, IsSigungu, IsNumber, Opens, Fields, Digits, IsWord,
         Plain;
    JeonnamIs();
    WandoIs();
    HoeryongIs();
    SixtyFour();
    TownshipFields();
  }

  /** The official address of a township is its own key, and the row it belongs to is
      stored under that key without the township. */
  lemma TownshipQueryMisses()
    ensures var q := Join([JEONNAM, WANDO, WANDO_EUP, HOERYONG, "64"]);
      && RoadKey(ParseSpec(q)) == (q, true)
      && WellFormedRow(JEONNAM, WANDO, HOERYONG, "0", "64", "0")
      && Norm(JEONNAM, WANDO, HOERYONG, "0", "64", "0") == Join([JEONNAM, WANDO, HOERYONG, "64"])
      && RoadKey(ParseSpec(q)) != (Norm(JEONNAM, WANDO, HOERYONG, "0", "64", "0"), true)
  {
    hide JEONNAM, WANDO, WANDO_EUP, HOERYONG, RoadKey, ParseSpec, Norm, WellFormedRow, WellFormed, Join, Fields,
         KeyWords, TOWNSHIP_KEY, RowWords, Tokens, KeyOf, HasPair;
    TownshipRow();
    TownshipKeyIs();
    TownshipHasNoPair();
    KeyIsFixed(TOWNSHIP_KEY);
    KeyIsRead();
    NormJoinsWords(JEONNAM, WANDO, HOERYONG, "0", "64", "0");
    TownshipIsNeverStored(Join([JEONNAM, WANDO, WANDO_EUP, HOERYONG, "64"]), JEONNAM, WANDO, HOERYONG, "0", "64", "0");
  }

  lemma KeyIsRead()
    ensures KeyOf(Tokens(Printed(TOWNSHIP_KEY))).emd == [WANDO_EUP] && TOWNSHIP_KEY.sido != []
  {
    hide JEONNAM, WANDO, WANDO_EUP, HOERYONG, Join, Fields, KeyWords, Tokens, HasPair, LayoutOf, OfKind,
         IsNumber, BodyWords, EndsInTownOrTownship, CanonSido, NameWords, SIDO_CANON, AreSigungu, AreOfKind,
         AllPlain;
    TownshipKeyIs();
    TownshipHasNoPair();
    WordsOfKey(TOWNSHIP_KEY);
    TokensOfJoin(KeyWords(TOWNSHIP_KEY));
    JeonnamIs();
    CanonIsItself(JEONNAM);
    KeyWordsSplit(TOWNSHIP_KEY);
    BodyOfKey(TOWNSHIP_KEY);
    NamesOfKey(TOWNSHIP_KEY);
    WandoEupIs();
  }

  lemma KeyWordsSplit(k: Key)
    requires |k.sido| == 1
    ensures KeyWords(k) != [] && KeyWords(k)[0] == k.sido[0] && KeyWords(k)[1..] == BodyWords(k)
  {
  }

  // ----- queries without province

  /** The words of a row without its province. */
  function PartialWords(sido: string, sigungu: string, road: string, under: string, bon: string,
                        bu: string): seq<string> {
    BodyWords(RowKey(sido, sigungu, road, under, bon, bu))
  }

  lemma BodyIsRead(k: Key, q: string)
    requires WellFormed(k) && Fields(q) == BodyWords(k) && !HasPair(q)
    ensures BodyWords(k) != [] && Tokens(q) == BodyWords(k) && Parens(Mapped(q, true)) == []
    ensures AreWords(BodyWords(k)) && AllPlain(BodyWords(k))
  {
    hide Fields, IsGlued, Plain, WellFormed, HasPair, Tokens, BodyWords, Mapped, Parens;
    WordsOfKey(k);
    BodyIsNotEmpty(k);
    var n := |k.sido|;
    forall i | 0 <= i < |BodyWords(k)| ensures Plain(BodyWords(k)[i]) && !IsGlued(BodyWords(k)[i]) {
      assert KeyWords(k)[n + i] == BodyWords(k)[i];
    }
    WordsAreTokens(q);
    PlainAreWords(BodyWords(k));
  }

  lemma BodyIsNotEmpty(k: Key)
    ensures BodyWords(k) != []
  {
  }

  lemma WithoutSido(k: Key)
    requires WellFormed(k) && CanonSido(BodyWords(k)[0]).None?
    ensures WellFormed(k.(sido := [])) && KeyWords(k.(sido := [])) == BodyWords(k)
  {
    hide IsNumToken, IsSigungu, ClassifyName, IsNumber, CanonSido, Plain;
    assert k.sigungu != [] ==> BodyWords(k)[0] == k.sigungu[0];
    assert [] + BodyWords(k) == BodyWords(k);
  }

  /** A query with a row's words but its province gets those words as partial key if and
      only if the first of them is no province name itself. */
  lemma PartialQueryReads(q: string, sido: string, sigungu: string, road: string, under: string, bon: string,
                          bu: string)
    requires WellFormedRow(sido, sigungu, road, under, bon, bu)
    requires Fields(q) == PartialWords(sido, sigungu, road, under, bon, bu) && !HasPair(q)
    ensures PartialWords(sido, sigungu, road, under, bon, bu) != []
    ensures var ws := PartialWords(sido, sigungu, road, under, bon, bu);
      RoadKey(ParseSpec(q)) == (Join(ws), false) <==> CanonSido(ws[0]).None?
  {
    hide Fields, Tokens, RoadKey, WellFormed, WellFormedRow, HasPair, Mapped, Parens, Join, BodyWords, KeyWords,
         CanonSido, Render, RowKey, Plain;
    var k := RowKey(sido, sigungu, road, under, bon, bu);
    var ws := BodyWords(k);
    RowIsKey(sido, sigungu, road, under, bon, bu);
    BodyIsRead(k, q);
    FieldsOfJoin(ws);
    SpacingKeepsPairs(q);
    if CanonSido(ws[0]).None? {
      var k0 := k.(sido := []);
      WithoutSido(k);
      KeyIsFixed(k0);
      KeyParsesBack(k0);
      KeyWordsRead(k0, []);
    } else {
      SidoIsRead(q);
      PlainNonempty(ws);
      JoinNonempty(ws);
    }
  }

  lemma SidoIsRead(q: string)
    requires StartsWithSido(Tokens(q))
    ensures RoadKey(ParseSpec(q)).0 != "" ==> RoadKey(ParseSpec(q)).1
  {
    hide Tokens, LayoutOf, CanonSido, SIDO_CANON, Join;
    SidoNames(Tokens(q)[0]);
    CanonNames(CanonSido(Tokens(q)[0]).value);
  }

  // ----- a city named like a province

  const GYEONGGI: string := "경기도"
  const GWANGJU_CITY: string := "광주시"
  const GWANGJU: string := "광주광역시"
  const GANA: string := "가나로"
  const CITY_KEY: Key := Key([GWANGJU], [], [], [GANA], false, "1")

  lemma CityIs()
    ensures Plain(GWANGJU_CITY) && IsWord(GWANGJU_CITY) && IsSigungu(GWANGJU_CITY) && Opens(GWANGJU_CITY) == 0
  {
    hide IsWord, Plain;
    HangulIsWord(GWANGJU_CITY);
    assert GWANGJU_CITY[2..] == "시" && GWANGJU_CITY[1..] == "주시";
    assert !HasBunji(GWANGJU_CITY) && NumberPart(GWANGJU_CITY) == GWANGJU_CITY;
    OpensNone(GWANGJU_CITY);
  }

  lemma CityIsNoFullName()
    ensures GWANGJU_CITY !in SIDO_CANON
  {
    forall s | s in SIDO_CANON ensures |s| != 3 || s[2] != '시' { ShortNames(s); }
  }

  lemma ShortNames(s: string)
    requires s in SIDO_CANON
    ensures |s| != 3 || s[2] != '시'
  {
  }

  lemma CityIsAlias()
    ensures CanonSido(GWANGJU_CITY).Some? && CanonSido(GWANGJU_CITY).value == GWANGJU && GWANGJU in SIDO_CANON
  {
    CityIsNoFullName();
    hide SIDO_CANON;
    assert GWANGJU_CITY in SIDO_ALIAS && SIDO_ALIAS[GWANGJU_CITY] == GWANGJU;
    AliasValues(GWANGJU_CITY);
  }

  lemma GyeonggiIs()
    ensures GYEONGGI in SIDO_CANON && IsWord(GYEONGGI)
  {
    assert SIDO_CANON[8] == GYEONGGI;
    HangulIsWord(GYEONGGI);
  }

  lemma GanaIs()
    ensures Plain(GANA) && IsWord(GANA) && ClassifyName(GANA) == Road && GANA != UNDERGROUND && Opens(GANA) == 0
  {
    hide IsWord, Plain;
    HangulIsWord(GANA);
    OpensNone(GANA);
  }

  lemma OneIs()
    ensures Digits("1") && Digits("0") && IsNumber("1") && Opens("1") == 0
  {
    OneIsNumber();
    OpensNone("1");
  }

  lemma CityRow()
    ensures WellFormedRow(GYEONGGI, GWANGJU_CITY, GANA, "0", "1", "0")
    ensures PartialWords(GYEONGGI, GWANGJU_CITY, GANA, "0", "1", "0") == [GWANGJU_CITY, GANA, "1"]
  {
    hide GYEONGGI, GWANGJU_CITY, GANA, SIDO_CANON, ClassifyName, IsSigungu, IsNumber, Opens, Fields, Digits,
         IsWord, Plain;
    GyeonggiIs();
    CityIs();
    GanaIs();
    OneIs();
    OneWord(GYEONGGI);
    OneWord(GWANGJU_CITY);
    OneWord(GANA);
  }

  lemma CityTokens()
    ensures Tokens(Join([GWANGJU_CITY, GANA, "1"])) == [GWANGJU_CITY, GANA, "1"]
  {
    hide GWANGJU_CITY, GANA, ClassifyName, IsSigungu, IsNumber, Opens, OpensIn, Plain, IsGlued, Tokens, HasPair,
         Join;
    var ws := [GWANGJU_CITY, GANA, "1"];
    CityIs();
    GanaIs();
    OneIs();
    NumberIsPlain("1");
    NumberNotGlued("1");
    SigunguEnd(GWANGJU_CITY);
    NotGlued(GWANGJU_CITY);
    NameEnd(GANA);
    NotGlued(GANA);
    OpensOfEach(ws);
    OpensOfJoin(ws);
    OpensOfStrip(Join(ws));
    TokensOfJoin(ws);
  }

  lemma CityKeyIs()
    ensures WellFormed(CITY_KEY) && BodyWords(CITY_KEY) == [GANA, "1"]
    ensures KeyWords(CITY_KEY) == [GWANGJU, GANA, "1"]
  {
    hide GWANGJU, GANA, SIDO_CANON, Plain, ClassifyName, IsNumber, CanonSido, IsSigungu;
    CityIsAlias();
    GanaIs();
    OneIs();
  }

  lemma CityReading()
    ensures KeyOf([GWANGJU_CITY, GANA, "1"]) == CITY_KEY
  {
    hide GWANGJU, GWANGJU_CITY, GANA, SIDO_CANON, Plain, IsNumber, CanonSido, LayoutOf, BodyWords, OfKind,
         NameWords, ClassifyName;
    CityIsAlias();
    CityKeyIs();
    OneIs();
    NumberIsPlain("1");
    assert [GWANGJU_CITY, GANA, "1"][1..] == [GANA, "1"];
    BodyOfKey(CITY_KEY);
    NamesOfKey(CITY_KEY);
  }

  /** The condition is needed: a row of the city of Gwangju in Gyeonggi, asked for without
      its province, is looked for in the province of Gwangju. */
  lemma CityNamedLikeAProvince()
    ensures WellFormedRow(GYEONGGI, GWANGJU_CITY, GANA, "0", "1", "0")
    ensures PartialWords(GYEONGGI, GWANGJU_CITY, GANA, "0", "1", "0") == [GWANGJU_CITY, GANA, "1"]
    ensures RoadKey(ParseSpec(Join([GWANGJU_CITY, GANA, "1"]))) == (Join([GWANGJU, GANA, "1"]), true)
  {
    hide GYEONGGI, GWANGJU, GWANGJU_CITY, GANA, WellFormedRow, PartialWords, RoadKey, ParseSpec, Tokens, KeyOf,
         KeyWords, CITY_KEY, Join;
    CityRow();
    CityTokens();
    CityReading();
    CityKeyIs();
    CityParts();
    KeyComesFromReading(Join([GWANGJU_CITY, GANA, "1"]));
  }

  lemma CityParts()
    ensures CITY_KEY.road != [] && CITY_KEY.num != "" && CITY_KEY.sido != []
  {
  }

  lemma PlainAreWords(ws: seq<string>)
    requires AllPlain(ws)
    ensures AreWords(ws)
  {
    hide Clean, IsWord;
    assert forall i :: 0 <= i < |ws| ==> Plain(ws[i]);
  }

  // ----- the load

  /** A line of the file: its fields, or nothing when it cannot be decoded. */
  datatype Line = Undecodable | Decoded(fields: seq<string>)

  datatype Building = Building(roadAddress: string, bcode: string, x: string, y: string, normRoad: string)

  datatype LoadStats = LoadStats(rows: nat, dup: nat, skipped: nat)

  predicate Accepted(l: Line) {
    && l.Decoded? && |l.fields| == 19
    && ByteLen(l.fields[1]) == 10 && l.fields[7] != "" && l.fields[9] != ""
    && TrimSpace(l.fields[17]) != "" && TrimSpace(l.fields[18]) != ""
  }

  function LineKey(l: Line): string
    requires Accepted(l)
  {
    var p := l.fields;
    Norm(p[2], p[3], p[7], p[8], p[9], p[10])
  }

  function Address(sido: string, sigungu: string, road: string, under: string, bon: string, bu: string): string {
    sido + " " + sigungu + " " + road + " " + (if under == "1" then UNDERGROUND + " " else "") + Number(bon, bu)
  }

  function RowOf(l: Line): Building
    requires Accepted(l)
  {
    var p := l.fields;
    Building(Address(p[2], p[3], p[7], p[8], p[9], p[10]), p[1], TrimSpace(p[17]), TrimSpace(p[18]), LineKey(l))
  }

  /** The text of an address: province, district, road, the mark of an underground
      address, and the number with its sub-number unless that is blank or 0. */
  predicate IsAddress(text: string, f: seq<string>)
    requires |f| == 19
  {
    text == f[2] + " " + f[3] + " " + f[7] + " " + (if f[8] == "1" then "지하 " else "")
            + (f[9] + if f[10] == "" || f[10] == "0" then "" else "-" + f[10])
  }

  /** A line counts when it has 19 columns, a town code of ten bytes, a road, a number
      and both coordinates; its row has the code, the longitude before the latitude,
      the address, and as key the words of that address. */
  lemma ColumnsAre(l: Line)
    ensures Accepted(l) <==>
      && l.Decoded? && |l.fields| == 19
      && ByteLen(l.fields[1]) == 10 && |l.fields[7]| > 0 && |l.fields[9]| > 0
      && !AllSpace(l.fields[17]) && !AllSpace(l.fields[18])
    ensures Accepted(l) ==>
      var row := RowOf(l);
      && row.bcode == l.fields[1] && IsTrimmed(row.x, l.fields[17]) && IsTrimmed(row.y, l.fields[18])
      && IsAddress(row.roadAddress, l.fields) && row.normRoad == Join(Fields(row.roadAddress))
  {
    hide Fields, Join, Norm, AllSpace, TrimSpace, IsTrimmed;
    if l.Decoded? && |l.fields| == 19 {
      var f := l.fields;
      BlankTrims(f[17]);
      BlankTrims(f[18]);
      TrimIs(f[17]);
      TrimIs(f[18]);
      AddressHasKeyWords(f[2], f[3], f[7], f[8], f[9], f[10]);
      AddressReads(f);
    }
  }

  lemma AddressReads(f: seq<string>)
    requires |f| == 19
    ensures IsAddress(Address(f[2], f[3], f[7], f[8], f[9], f[10]), f)
  {
    assert UNDERGROUND + " " == "지하 ";
    assert f[9] + ("-" + f[10]) == f[9] + "-" + f[10] && f[9] + "" == f[9];
  }

  /** Bytes of a character in UTF-8, by example of each length. */
  lemma BytesAre(s: string)
    ensures ByteLen("7" + s) == 1 + ByteLen(s) && ByteLen("é" + s) == 2 + ByteLen(s)
    ensures ByteLen("가" + s) == 3 + ByteLen(s) && ByteLen("\U{1F600}" + s) == 4 + ByteLen(s)
    ensures ByteLen("") == 0
  {
    assert ("7" + s)[1..] == s && ("é" + s)[1..] == s && ("가" + s)[1..] == s && ("\U{1F600}" + s)[1..] == s;
  }

  /** The first accepted line with its key. */
  ghost predicate IsFirst(lines: seq<Line>, i: nat) {
    i < |lines| && Accepted(lines[i]) &&
    forall j :: 0 <= j < i && Accepted(lines[j]) ==> LineKey(lines[j]) != LineKey(lines[i])
  }

  ghost predicate IsRowOf(row: Building, lines: seq<Line>, i: nat) {
    IsFirst(lines, i) && row == RowOf(lines[i])
  }

  ghost predicate ComesFrom(row: Building, lines: seq<Line>, n: nat) {
    exists i: nat :: i < n && IsRowOf(row, lines, i)
  }

  ghost predicate HasKey(rows: seq<Building>, key: string) {
    exists a: nat :: a < |rows| && rows[a].normRoad == key
  }

  ghost predicate LoadedUpTo(lines: seq<Line>, n: nat, rows: seq<Building>)
    requires n <= |lines|
  {
    && (forall a, b :: 0 <= a < b < |rows| ==> rows[a].normRoad != rows[b].normRoad)
    && (forall a :: 0 <= a < |rows| ==> ComesFrom(rows[a], lines, n))
    && (forall i :: 0 <= i < n && Accepted(lines[i]) ==> HasKey(rows, LineKey(lines[i])))
  }

  /** How many lines are not accepted. */
  function Rejected(lines: seq<Line>): nat {
    if lines == [] then 0
    else Rejected(lines[..|lines| - 1]) + (if Accepted(lines[|lines| - 1]) then 0 else 1)
  }

  /** One row for each key, that of its first line; every line not accepted is skipped,
      and the accepted lines that give no row are duplicates. */
  method Load(lines: seq<Line>) returns (rows: seq<Building>, stats: LoadStats)
    ensures LoadedUpTo(lines, |lines|, rows)
    ensures stats.rows == |rows| && stats.skipped == Rejected(lines)
    ensures stats.rows + stats.dup + stats.skipped == |lines|
  {
    hide LoadedUpTo, LineKey, RowOf, Accepted;
    LoadedNothing(lines);
    var seen: set<string> := {};
    rows := [];
    var dup, skipped := 0, 0;
    var n := 0;
    while n < |lines|
      invariant 0 <= n <= |lines| && LoadedUpTo(lines, n, rows)
      invariant forall a :: 0 <= a < |rows| ==> rows[a].normRoad in seen
      invariant forall key :: key in seen ==> HasKey(rows, key)
      invariant |rows| + dup + skipped == n && skipped == Rejected(lines[..n])
    {
      assert lines[..n + 1][..n] == lines[..n];
      var l := lines[n];
      if !Accepted(l) {
        SkipLine(lines, n, rows);
        skipped := skipped + 1;
      } else if LineKey(l) in seen {
        SkipLine(lines, n, rows);
        dup := dup + 1;
      } else {
        ghost var before := rows;
        FirstHere(lines, n, rows, seen);
        RowHasKey(l);
        seen := seen + {LineKey(l)};
        rows := rows + [RowOf(l)];
        AddRow(lines, n, before);
        forall key | key in seen ensures HasKey(rows, key) {
          if key != LineKey(l) {
            HasKeyStill(before, RowOf(l), key);
          } else {
            assert rows[|before|].normRoad == key;
          }
        }
      }
      n := n + 1;
    }
    assert lines[..n] == lines;
    stats := LoadStats(|rows|, dup, skipped);
  }

  lemma LoadedNothing(lines: seq<Line>)
    ensures LoadedUpTo(lines, 0, [])
  {
  }

  lemma RowHasKey(l: Line)
    requires Accepted(l)
    ensures RowOf(l).normRoad == LineKey(l)
  {
  }

  lemma SkipLine(lines: seq<Line>, n: nat, rows: seq<Building>)
    requires n < |lines| && LoadedUpTo(lines, n, rows)
    requires Accepted(lines[n]) ==> HasKey(rows, LineKey(lines[n]))
    ensures LoadedUpTo(lines, n + 1, rows)
  {
    hide LineKey, IsRowOf, Accepted;
  }

  lemma FirstHere(lines: seq<Line>, n: nat, rows: seq<Building>, seen: set<string>)
    requires n < |lines| && LoadedUpTo(lines, n, rows) && Accepted(lines[n]) && LineKey(lines[n]) !in seen
    requires forall a :: 0 <= a < |rows| ==> rows[a].normRoad in seen
    ensures IsFirst(lines, n)
  {
    hide Norm, Accepted;
  }

  lemma AddRow(lines: seq<Line>, n: nat, rows: seq<Building>)
    requires n < |lines| && LoadedUpTo(lines, n, rows) && IsFirst(lines, n)
    ensures LoadedUpTo(lines, n + 1, rows + [RowOf(lines[n])])
  {
    hide Norm, Accepted, Address, TrimSpace;
    var more := rows + [RowOf(lines[n])];
    assert more[|rows|].normRoad == LineKey(lines[n]);
    forall a, b | 0 <= a < b < |more| ensures more[a].normRoad != more[b].normRoad {
      if b == |rows| {
        assert ComesFrom(rows[a], lines, n);
        var i: nat :| i < n && IsRowOf(rows[a], lines, i);
      }
    }
    assert IsRowOf(more[|rows|], lines, n);
    forall a | 0 <= a < |more| ensures ComesFrom(more[a], lines, n + 1) {
      if a < |rows| { assert more[a] == rows[a]; }
    }
    forall i | 0 <= i < n + 1 && Accepted(lines[i]) ensures HasKey(more, LineKey(lines[i])) {
      if i < n { HasKeyStill(rows, RowOf(lines[n]), LineKey(lines[i])); }
    }
  }

  lemma HasKeyStill(rows: seq<Building>, row: Building, key: string)
    requires HasKey(rows, key)
    ensures HasKey(rows + [row], key)
  {
    var a: nat :| a < |rows| && rows[a].normRoad == key;
    assert (rows + [row])[a] == rows[a];
  }

  /** The words of the stored address are those of the stored key, so rows with one
      address have one key. */
  lemma AddressHasKeyWords(sido: string, sigungu: string, road: string, under: string, bon: string, bu: string)
    ensures Join(Fields(Address(sido, sigungu, road, under, bon, bu))) == Norm(sido, sigungu, road, under, bon, bu)
  {
    hide Fields, Number, Norm, Join;
    NormJoinsWords(sido, sigungu, road, under, bon, bu);
    var tail := (if under == "1" then UNDERGROUND + " " else "") + Number(bon, bu);
    assert Address(sido, sigungu, road, under, bon, bu) == sido + " " + (sigungu + " " + (road + " " + tail));
    FieldsConcat(sido, sigungu + " " + (road + " " + tail));
    FieldsConcat(sigungu, road + " " + tail);
    FieldsConcat(road, tail);
    UnderAndNumber(under, Number(bon, bu));
  }

  lemma UnderAndNumber(under: string, num: string)
    ensures Fields((if under == "1" then UNDERGROUND + " " else "") + num)
            == (if under == "1" then [UNDERGROUND] else []) + Fields(num)
  {
    hide Fields;
    if under == "1" {
      FieldsConcat(UNDERGROUND, num);
      UndergroundIsPlain();
      PlainIsOneWord(UNDERGROUND);
    } else {
      assert "" + num == num;
      assert [] + Fields(num) == Fields(num);
    }
  }
}
