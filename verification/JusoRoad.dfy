/** The road address of a road-name record (internal/etl/juso/parse.go, RoadAddress) and
    what the parser makes of it. */
module JusoRoad {
  import opened Words
  import opened Numerals
  import opened Dict
  import opened Parser
  import opened RoadKeys
  import opened NormalForm
  import opened ReadingRules
  import Entrance
  import Juso

  datatype RoadRecord = RoadRecord(
    sido: string, sigungu: string, emd: string, ri: string, road: string, undergroundYN: string,
    buildingMain: string, buildingSub: string, building: string, apartment: string)

  // ----- the printer

  /** The note in parentheses: the town of a town district, and the name of a block of flats. */
  function ReferenceItem(r: RoadRecord): string {
    var isDong := r.ri == "" && HasSuffix(r.emd, "동");
    var flats := r.apartment == "1" && r.building != "";
    if isDong && flats then "(" + r.emd + ", " + r.building + ")"
    else if isDong then "(" + r.emd + ")"
    else if flats then "(" + r.building + ")"
    else ""
  }

  /** The numbers of the building, written as those of a lot are. */
  function BuildingNumber(r: RoadRecord): string {
    Juso.LotNumber(Juso.Record("", "", "", "", "0", r.buildingMain, r.buildingSub))
  }

  /** The last word before the note; the underground mark is stuck to it. */
  function NumberWord(r: RoadRecord): string {
    (if r.undergroundYN == "1" then UNDERGROUND else "") + BuildingNumber(r)
  }

  function Blanked(s: string): string { " " + s }

  /** Province, districts, and the town when a village follows it. */
  function Places(r: RoadRecord): string {
    (r.sido + (if r.sigungu != "" then Blanked(r.sigungu) else "")) + (if r.ri != "" then Blanked(r.emd) else "")
  }

  /** Everything before the note. */
  function Body(r: RoadRecord): string {
    (Places(r) + Blanked(r.road)) + Blanked(NumberWord(r))
  }

  function RoadText(r: RoadRecord): string {
    Body(r) + (if ReferenceItem(r) != "" then Blanked(ReferenceItem(r)) else "")
  }

  /** Province, districts, and the town when a village follows it. */
  method WritePlaces(r: RoadRecord) returns (b: string)
    ensures b == Places(r)
  {
    b := r.sido;
    if r.sigungu != "" {
      b := b + " ";
      b := b + r.sigungu;
    }
    if r.ri != "" {
      b := b + " ";
      b := b + r.emd;
    }
  }

  method WriteNumber(b0: string, r: RoadRecord) returns (b: string)
    ensures b == b0 + NumberWord(r)
  {
    hide Juso.Atoi, Juso.Itoa, UNDERGROUND;
    b := b0;
    if r.undergroundYN == "1" {
      b := b + UNDERGROUND;
    }
    b := b + Juso.Itoa(Juso.Atoi(r.buildingMain));
    var sub := Juso.Atoi(r.buildingSub);
    if sub != 0 {
      b := b + "-";
      b := b + Juso.Itoa(sub);
    }
    NumberWordIs(r, b0, b);
  }

  method RoadAddress(r: RoadRecord) returns (b: string)
    ensures b == RoadText(r)
  {
    hide ReferenceItem, Places, NumberWord;
    b := WritePlaces(r);
    b := b + " ";
    b := b + r.road;
    b := b + " ";
    BodyIs(r, b);
    b := WriteNumber(b, r);
    var ref := ReferenceItem(r);
    if ref != "" {
      b := b + " ";
      b := b + ref;
    }
  }

  lemma NumberWordIs(r: RoadRecord, front: string, b: string)
    requires var main, sub := Juso.Itoa(Juso.Atoi(r.buildingMain)), Juso.Atoi(r.buildingSub);
      var head := (if r.undergroundYN == "1" then front + UNDERGROUND else front) + main;
      b == if sub != 0 then head + "-" + Juso.Itoa(sub) else head
    ensures b == front + NumberWord(r)
  {
    hide Juso.Atoi, Juso.Itoa, UNDERGROUND;
    Juso.Pieced(front, r.undergroundYN == "1", UNDERGROUND, Juso.Itoa(Juso.Atoi(r.buildingMain)),
                Juso.Atoi(r.buildingSub) != 0, Juso.Itoa(Juso.Atoi(r.buildingSub)));
  }

  lemma BodyIs(r: RoadRecord, front: string)
    requires front == Places(r) + " " + r.road + " "
    ensures front + NumberWord(r) == Body(r)
  {
    hide NumberWord, Places;
    assert front + NumberWord(r) == (Places(r) + (" " + r.road)) + (" " + NumberWord(r));
  }

  // ----- the words of the printed address

  function TownWords(r: RoadRecord): seq<string> {
    if r.ri != "" then Fields(r.emd) else []
  }

  /** Province, districts, town, road and number. */
  function BodyWords(r: RoadRecord): seq<string> {
    Fields(r.sido) + Fields(r.sigungu) + TownWords(r) + Fields(r.road) + [NumberWord(r)]
  }

  lemma FieldsOfBlanked(a: string, s: string)
    ensures Fields(a + Blanked(s)) == Fields(a) + Fields(s)
  {
    hide Fields;
    assert a + Blanked(s) == a + " " + s;
    FieldsConcat(a, s);
  }

  lemma FieldsOfOptional(a: string, given: bool, s: string)
    ensures Fields(a + (if given then Blanked(s) else "")) == Fields(a) + (if given then Fields(s) else [])
  {
    hide Fields, Blanked;
    if given {
      FieldsOfBlanked(a, s);
    } else {
      assert a + "" == a && Fields(a) + [] == Fields(a);
    }
  }

  lemma NumberWordIsOne(r: RoadRecord)
    ensures var t := NumberWord(r);
      && Plain(t) && !IsSigungu(t) && !IsGlued(t) && t != UNDERGROUND
      && ClassifyName(t) == Ambiguous && NumberPart(t) == t
      && (IsNumToken(t) <==> r.undergroundYN != "1" && Juso.Atoi(r.buildingMain) >= 0 && Juso.Atoi(r.buildingSub) >= 0)
  {
    hide Juso.LotNumber, Juso.Atoi, IsGlued, IsNumber;
    var lot := Juso.Record("", "", "", "", "0", r.buildingMain, r.buildingSub);
    Juso.LotNumberIs(lot);
    NumberWordChars(r.undergroundYN == "1", Juso.LotNumber(lot));
  }

  lemma NumberWordChars(under: bool, n: string)
    requires n != "" && IsDigit(Last(n))
    requires forall i :: 0 <= i < |n| ==> IsDigit(n[i]) || n[i] == '-'
    ensures var t := (if under then UNDERGROUND else "") + n;
      && Plain(t) && !IsSigungu(t) && !IsGlued(t) && t != UNDERGROUND
      && ClassifyName(t) == Ambiguous && NumberPart(t) == t && (IsNumToken(t) <==> !under && IsNumber(n))
  {
    hide IsNumber, IsGlued, Plain, IsNumToken, IsSigungu, ClassifyName, NumberPart;
    var t := (if under then UNDERGROUND else "") + n;
    assert Last(t) == Last(n);
    assert forall i :: 0 <= i < |t| ==> t[i] == '지' || t[i] == '하' || IsDigit(t[i]) || t[i] == '-';
    assert !under ==> t == n;
    CharsArePlain(t);
    if under { UnderIsNoNumber(n); }
    NumTokenIs(t);
    EndsInDigit(t);
  }

  /** A word that ends in a digit is no district and no name. */
  lemma EndsInDigit(t: string)
    requires t != "" && IsDigit(Last(t))
    ensures !IsSigungu(t) && ClassifyName(t) == Ambiguous && t != UNDERGROUND
  {
    hide IsSigungu, ClassifyName;
    if IsSigungu(t) { SigunguEnd(t); }
    if ClassifyName(t) != Ambiguous { NameEnd(t); }
    MarkEnds();
  }

  lemma MarkEnds()
    ensures UNDERGROUND != "" && Last(UNDERGROUND) == '하'
  {
  }

  lemma NumTokenIs(t: string)
    requires t != "" && t[0] != '산' && IsDigit(Last(t))
    ensures NumberPart(t) == t && IsNumToken(t) == IsNumber(t)
  {
    hide IsNumber;
    Juso.NoBunji(t);
  }

  lemma CharsArePlain(t: string)
    requires t != ""
    requires forall i :: 0 <= i < |t| ==> t[i] == '지' || t[i] == '하' || IsDigit(t[i]) || t[i] == '-'
    ensures Plain(t) && !IsGlued(t)
  {
    hide IsGlued;
    Juso.NoRoadChars(t);
  }

  lemma UnderIsNoNumber(n: string)
    ensures !IsNumber(UNDERGROUND + n)
  {
    assert (UNDERGROUND + n)[0] == '지';
  }

  lemma BodyFields(r: RoadRecord)
    ensures Fields(Body(r)) == BodyWords(r)
  {
    hide Fields, NumberWord, Blanked, Plain;
    NumberWordIsOne(r);
    FieldsOfOptional(r.sido, r.sigungu != "", r.sigungu);
    NoFields();
    FieldsOfOptional(r.sido + (if r.sigungu != "" then Blanked(r.sigungu) else ""), r.ri != "", r.emd);
    FieldsOfBlanked(Places(r), r.road);
    FieldsOfBlanked(Places(r) + Blanked(r.road), NumberWord(r));
    PlainIsOneWord(NumberWord(r));
  }

  // ----- the words the parser reads

  /** What the parser finds behind the number: nothing but what the note does not enclose. */
  function NoteWords(r: RoadRecord): seq<string> {
    Tokens(ReferenceItem(r))
  }

  lemma TokensOfBodyAndNote(body: string, note: string)
    requires '(' !in body && AllPlain(Fields(body)) && forall i :: 0 <= i < |Fields(body)| ==> !IsGlued(Fields(body)[i])
    ensures Tokens(body + Blanked(note)) == Fields(body) + Tokens(note)
  {
    hide Fields, IsGlued, Plain, Tokens, AllPlain;
    assert body + Blanked(note) == body + [' '] + note;
    BlankSeparates();
    TokensApart(body, ' ', note);
    NoOpeningNoPair(body);
    WordsAreTokens(body);
  }

  lemma BlankSeparates()
    ensures Separates(' ')
  {
  }

  // ----- the round trip

  /** A full province name, up to two districts, a township when a village follows, and
      road words. */
  ghost predicate WellFormedRecord(r: RoadRecord) {
    && (exists s :: s in SIDO_CANON && Fields(r.sido) == [s])
    && |Fields(r.sigungu)| <= 2 && AreSigungu(Fields(r.sigungu)) && AllPlain(Fields(r.sigungu))
    && AreOfKind(TownWords(r), Jibun) && AllPlain(TownWords(r))
    && (TownWords(r) == [] || EndsInTownOrTownship(TownWords(r)))
    && Fields(r.road) != [] && AreOfKind(Fields(r.road), Road) && AllPlain(Fields(r.road))
    && '(' !in Body(r)
  }

  /** The key the address should get. */
  function RecordKey(r: RoadRecord): Key {
    Key(Fields(r.sido), Fields(r.sigungu), TownWords(r), Fields(r.road), false, BuildingNumber(r))
  }

  lemma BodyWordIs(r: RoadRecord, i: nat)
    requires WellFormedRecord(r) && i < |BodyWords(r)|
    ensures Plain(BodyWords(r)[i]) && !IsGlued(BodyWords(r)[i])
  {
    hide Fields, IsGlued, Plain, IsSigungu, ClassifyName, SIDO_CANON, NumberWord, TownWords,
         EndsInTownOrTownship, Body;
    var s :| s in SIDO_CANON && Fields(r.sido) == [s];
    var sg, tw, rd := Fields(r.sigungu), TownWords(r), Fields(r.road);
    var a, b := 1 + |sg|, 1 + |sg| + |tw|;
    var w := BodyWords(r)[i];
    if i == 0 {
      assert w == s;
      CanonIsPlain(s);
    } else if i < a {
      assert w == sg[i - 1];
      SigunguEnd(w);
      NotGlued(w);
    } else if i < b {
      assert w == tw[i - a];
      NameIsNothingElse(w);
    } else if i < b + |rd| {
      assert w == rd[i - b];
      NameIsNothingElse(w);
    } else {
      assert w == NumberWord(r);
      NumberWordIsOne(r);
    }
  }

  lemma {:induction false} NoOpeningNoPair(s: string)
    requires '(' !in s
    ensures !HasPair(s)
  {
    if s != "" { NoOpeningNoPair(s[1..]); }
  }

  /** The words of the printed address, as the parser has them. */
  lemma RoadTokens(r: RoadRecord)
    requires WellFormedRecord(r)
    ensures Tokens(RoadText(r)) == BodyWords(r) + NoteWords(r)
    ensures AllPlain(BodyWords(r))
  {
    hide Fields, IsGlued, Plain, Mapped, StripParens, SplitGluedSpec, Body, BodyWords, Tokens, ReferenceItem,
         Blanked, WellFormedRecord, HasPair;
    BodyFields(r);
    OpeningFree(r);
    forall i | 0 <= i < |BodyWords(r)| ensures Plain(BodyWords(r)[i]) && !IsGlued(BodyWords(r)[i]) { BodyWordIs(r, i); }
    if ReferenceItem(r) != "" {
      TokensOfBodyAndNote(Body(r), ReferenceItem(r));
    } else {
      assert Body(r) + "" == Body(r);
      NoOpeningNoPair(Body(r));
      WordsAreTokens(Body(r));
      NoNoteNoWords(r);
      assert BodyWords(r) + [] == BodyWords(r);
    }
  }

  lemma OpeningFree(r: RoadRecord)
    requires WellFormedRecord(r)
    ensures '(' !in Body(r)
  {
  }

  lemma NoNoteNoWords(r: RoadRecord)
    requires ReferenceItem(r) == ""
    ensures NoteWords(r) == []
  {
    TokensOfNothing();
  }

  lemma NamesAreNames(r: RoadRecord)
    requires WellFormedRecord(r)
    ensures var names := TownWords(r) + Fields(r.road);
      && (forall i :: 0 <= i < |names| ==> !IsNumToken(names[i]) && !IsSigungu(names[i]))
      && OfKind(names, Jibun) == TownWords(r) && OfKind(names, Road) == Fields(r.road) && UNDERGROUND !in names
  {
    hide Fields, IsGlued, Plain, IsSigungu, ClassifyName, SIDO_CANON, TownWords, EndsInTownOrTownship, Body,
         IsNumToken, OfKind, UNDERGROUND;
    var tw, rd := TownWords(r), Fields(r.road);
    var names := tw + rd;
    forall i | 0 <= i < |names| ensures !IsNumToken(names[i]) && !IsSigungu(names[i]) {
      if i < |tw| { assert names[i] == tw[i]; } else { assert names[i] == rd[i - |tw|]; }
      NameIsNothingElse(names[i]);
    }
    AllOfKind(tw, Jibun, Road);
    AllOfKind(rd, Road, Jibun);
    OfKindConcat(tw, rd, Jibun);
    OfKindConcat(tw, rd, Road);
    assert tw + [] == tw && [] + rd == rd;
  }

  lemma SidoFirst(r: RoadRecord, rest: seq<string>)
    requires WellFormedRecord(r)
    ensures var toks := BodyWords(r) + rest;
      && StartsWithSido(toks) && [CanonSido(toks[0]).value] == [toks[0]] == Fields(r.sido)
      && toks[1..] == Fields(r.sigungu) + ((TownWords(r) + Fields(r.road)) + ([NumberWord(r)] + rest))
  {
    hide Fields, SIDO_CANON, NumberWord, TownWords, EndsInTownOrTownship, Body, CanonSido, AreSigungu,
         AreOfKind, AllPlain;
    var s :| s in SIDO_CANON && Fields(r.sido) == [s];
    CanonIsItself(s);
    assert (BodyWords(r) + rest)[0] == s;
  }

  /** What the parser reads in the address when its last word is a number. */
  lemma NumberedReading(r: RoadRecord)
    requires WellFormedRecord(r) && IsNumToken(NumberWord(r))
    ensures KeyOf(Tokens(RoadText(r))) == RecordKey(r)
  {
    hide Tokens, RoadText, Fields, NumberWord, TownWords, LayoutOf, IsNumToken, NoteWords, CanonSido, BodyWords,
         OfKind, AreSigungu, AreOfKind, AllPlain, Body, IsSigungu, IsGlued, Plain, ClassifyName, SIDO_CANON,
         EndsInTownOrTownship, UNDERGROUND, NumberPart, BuildingNumber;
    RoadTokens(r);
    SidoFirst(r, NoteWords(r));
    NamesAreNames(r);
    NumberWordIsOne(r);
    NumberedIsBare(r);
    LayoutBefore(Fields(r.sigungu), TownWords(r) + Fields(r.road), NumberWord(r), NoteWords(r));
  }

  lemma NumberedIsBare(r: RoadRecord)
    requires IsNumToken(NumberWord(r))
    ensures NumberWord(r) == BuildingNumber(r) && BuildingNumber(r) != "" && IsNumber(BuildingNumber(r))
  {
    hide BuildingNumber, UNDERGROUND, IsNumber, NumberPart;
    NumberWordIsOne(r);
    assert "" + BuildingNumber(r) == BuildingNumber(r);
    NumberChars(BuildingNumber(r));
  }

  /** Otherwise no number is read, if the note leaves nothing behind. */
  lemma UnnumberedReading(r: RoadRecord)
    requires WellFormedRecord(r) && !IsNumToken(NumberWord(r)) && NoteWords(r) == []
    ensures KeyOf(Tokens(RoadText(r))).num == ""
  {
    hide Tokens, RoadText, Fields, NumberWord, TownWords, LayoutOf, IsNumToken, CanonSido, BodyWords, OfKind,
         NoteWords, AreOfKind, AllPlain, Body, IsSigungu, IsGlued, Plain, ClassifyName, SIDO_CANON,
         EndsInTownOrTownship, UNDERGROUND, NumberPart;
    RoadTokens(r);
    SidoFirst(r, []);
    NamesAreNames(r);
    NumberWordIsOne(r);
    var names := (TownWords(r) + Fields(r.road)) + ([NumberWord(r)] + []);
    assert BodyWords(r) + [] == BodyWords(r);
    Juso.LayoutWithoutNumber(Fields(r.sigungu), names);
  }

  /** Parsing the printed road address finds its road, building and township, and nothing
      of the note, if the building is not underground and no number field is negative. */
  lemma RoadAddressReads(r: RoadRecord)
    requires WellFormedRecord(r)
    requires r.undergroundYN != "1" && Juso.Atoi(r.buildingMain) >= 0 && Juso.Atoi(r.buildingSub) >= 0
    ensures RoadKey(ParseSpec(RoadText(r))) == (Printed(RecordKey(r)), true)
    ensures RoadKey(ParseSpec(RoadText(r))).0 ==
      Join(Fields(r.sido) + Fields(r.sigungu) + (if r.ri == "" then [] else Fields(r.emd)) + Fields(r.road)
           + [BuildingNumber(r)])
  {
    hide ParseSpec, RoadText, Tokens, KeyOf, Printed, NumberWord, Fields, RoadKey, AreSigungu, AreOfKind,
         AllPlain, TownWords, BuildingNumber, Juso.Atoi, SIDO_CANON, EndsInTownOrTownship, Body, IsNumToken;
    NumberWordIsOne(r);
    NumberedReading(r);
    NumberedIsBare(r);
    KeyComesFromReading(RoadText(r));
    PrintedIs(r);
  }

  lemma PrintedIs(r: RoadRecord)
    ensures Printed(RecordKey(r)) ==
      Join(Fields(r.sido) + Fields(r.sigungu) + (if r.ri == "" then [] else Fields(r.emd)) + Fields(r.road)
           + [BuildingNumber(r)])
  {
    hide Join, Fields, BuildingNumber;
    var a, b, d, n := Fields(r.sido), Fields(r.sigungu), Fields(r.road), [BuildingNumber(r)];
    var c := if r.ri == "" then [] else Fields(r.emd);
    assert c + d + [] == c + d;
    assert a + (b + (c + d) + n) == a + b + c + d + n;
  }

  /** The building number of digit fields: both without leading zeros, the second only
      when it is not 0. */
  lemma BuildingNumberOfDigits(r: RoadRecord) returns (main: string, sub: string)
    requires Digits(r.buildingMain) && Value(r.buildingMain) <= 0x7FFF_FFFF_FFFF_FFFF
    requires Digits(r.buildingSub) && Value(r.buildingSub) <= 0x7FFF_FFFF_FFFF_FFFF
    ensures Juso.IsStripped(main, r.buildingMain) && Juso.IsStripped(sub, r.buildingSub)
    ensures BuildingNumber(r) == main + if sub == "0" then "" else "-" + sub
  {
    hide Juso.IsStripped, Juso.LotNumber;
    main, sub := Juso.LotNumberOfDigits(Juso.Record("", "", "", "", "0", r.buildingMain, r.buildingSub));
  }

  /** And only then, provided nothing of the note is left outside its parentheses: an
      underground mark stuck to the number, or a sign, hides it and the key is empty. */
  lemma RoadAddressRoundTrip(r: RoadRecord)
    requires WellFormedRecord(r) && NoteWords(r) == []
    ensures RoadKey(ParseSpec(RoadText(r))) ==
      if r.undergroundYN != "1" && Juso.Atoi(r.buildingMain) >= 0 && Juso.Atoi(r.buildingSub) >= 0
      then (Printed(RecordKey(r)), true) else ("", false)
  {
    hide ParseSpec, RoadText, Tokens, KeyOf, Printed, NumberWord, Fields, RoadKey, AreSigungu, AreOfKind,
         AllPlain, TownWords, BuildingNumber, Juso.Atoi, SIDO_CANON, EndsInTownOrTownship, Body, IsNumToken,
         NoteWords, RecordKey;
    NumberWordIsOne(r);
    if IsNumToken(NumberWord(r)) {
      RoadAddressReads(r);
    } else {
      UnnumberedReading(r);
      KeyComesFromReading(RoadText(r));
    }
  }

  /** A note is taken out whole when no name in it holds a closing parenthesis. */
  lemma NoteIsTakenOut(r: RoadRecord)
    requires ')' !in r.emd && ')' !in r.building
    ensures NoteWords(r) == []
    ensures Parens(Mapped(ReferenceItem(r), true)) ==
      if ReferenceItem(r) == "" then [] else [Mapped(ReferenceItem(r), true)]
  {
    TokensOfNothing();
    NothingStripped();
    var note := ReferenceItem(r);
    if note == "" {
      hide Tokens, ReferenceItem;
    } else {
      var inner := NoteInner(r);
      assert "" + ("(" + inner + ")" + "") == note;
      hide Tokens, ReferenceItem, Mapped, Parens;
      TokensAroundNote("", inner, "");
      NoteIsMapped("", inner, "");
      EmptyMapped();
      assert "" + ("(" + Mapped(inner, true) + ")" + "") == "(" + Mapped(inner, true) + ")";
    }
  }

  lemma EmptyMapped()
    ensures Mapped("", true) == ""
  {
  }

  /** What the note holds between its parentheses. */
  function NoteInner(r: RoadRecord): (s: string)
    requires ReferenceItem(r) != "" && ')' !in r.emd && ')' !in r.building
    ensures ReferenceItem(r) == "(" + s + ")" && ')' !in s
  {
    var isDong := r.ri == "" && HasSuffix(r.emd, "동");
    var flats := r.apartment == "1" && r.building != "";
    if isDong && flats then
      assert "(" + (r.emd + ", " + r.building) + ")" == "(" + r.emd + ", " + r.building + ")";
      r.emd + ", " + r.building
    else if isDong then r.emd
    else r.building
  }

  lemma NoAmbiguousNames(r: RoadRecord)
    requires WellFormedRecord(r)
    ensures Others(TownWords(r) + Fields(r.road)) == []
  {
    hide Fields, IsGlued, Plain, IsSigungu, ClassifyName, SIDO_CANON, TownWords, EndsInTownOrTownship, Body,
         IsNumToken, OfKind, UNDERGROUND, Others;
    OthersAre(TownWords(r) + Fields(r.road));
    AllOfKind(TownWords(r), Jibun, Ambiguous);
    AllOfKind(Fields(r.road), Road, Ambiguous);
    OfKindConcat(TownWords(r), Fields(r.road), Ambiguous);
  }

  lemma RoadGroups(r: RoadRecord)
    requires WellFormedRecord(r) && IsNumToken(NumberWord(r)) && NoteWords(r) == []
    ensures Groups(Tokens(RoadText(r)), Fields(r.sido), Fields(r.sigungu), TownWords(r) + Fields(r.road),
                   [NumberWord(r)], [])
  {
    hide Tokens, RoadText, Fields, NumberWord, TownWords, IsNumToken, CanonSido, BodyWords, AllPlain, Body, IsSigungu,
         OfKind, AreOfKind, IsGlued, Plain, ClassifyName, SIDO_CANON, EndsInTownOrTownship, UNDERGROUND, NoteWords;
    RoadTokens(r);
    SidoFirst(r, []);
    NamesAreNames(r);
    NumberWordIsOne(r);
    var names, toks := TownWords(r) + Fields(r.road), Tokens(RoadText(r));
    assert BodyWords(r) + [] == BodyWords(r) == toks;
    assert toks == [toks[0]] + toks[1..];
    forall i | 0 <= i < |Fields(r.sigungu)| ensures IsDistrict(Fields(r.sigungu)[i]) {
      DistrictIs(Fields(r.sigungu)[i]);
    }
    DistrictIs((names + ([NumberWord(r)] + []))[0]);
  }

  /** The note as the address guide has it: the town of a town district, and the name of
      a block of flats. */
  predicate IsNote(note: string, r: RoadRecord) {
    var town := r.ri == "" && r.emd != "" && r.emd[|r.emd| - 1] == '동';
    var flats := r.apartment == "1" && r.building != "";
    note == if town && flats then "(" + r.emd + ", " + r.building + ")"
            else if town then "(" + r.emd + ")"
            else if flats then "(" + r.building + ")"
            else ""
  }

  /** Nothing but the note, with its punctuation narrowed, is left beside the fields of
      the road address. */
  lemma NoteIsKept(r: RoadRecord) returns (note: string)
    requires WellFormedRecord(r) && ')' !in r.emd && ')' !in r.building
    requires r.undergroundYN != "1" && Juso.Atoi(r.buildingMain) >= 0 && Juso.Atoi(r.buildingSub) >= 0
    ensures IsNote(note, r)
    ensures ParseSpec(RoadText(r)).extra == Mapped(note, true)
  {
    hide ParseSpec, WellFormedRecord, Tokens, RoadText, Fields, NumberWord, TownWords, IsNumToken, Groups, Juso.Atoi,
         Parens, Mapped, Others, Roads, Towns, Remarks, CanonSido, Join, NoteWords, ReferenceItem, IsNote, NumberPart,
         EndsInBunji;
    note := ReferenceItem(r);
    NoteIs(r);
    NumberWordIsOne(r);
    NoteIsTakenOut(r);
    RoadGroups(r);
    NoAmbiguousNames(r);
    NotesOfText(r);
    var notes := Parens(Mapped(RoadText(r), true));
    ReadingIs(RoadText(r), Fields(r.sido), Fields(r.sigungu), TownWords(r) + Fields(r.road), [NumberWord(r)], []);
    assert notes + [] + [] == notes;
    EmptyMapped();
    NothingJoined();
    JoinOne(Mapped(note, true));
  }

  lemma NoteIs(r: RoadRecord)
    ensures IsNote(ReferenceItem(r), r)
  {
    if r.emd != "" { assert r.emd[|r.emd| - 1..] == [r.emd[|r.emd| - 1]]; }
  }

  lemma NotesOfText(r: RoadRecord)
    requires WellFormedRecord(r)
    ensures Parens(Mapped(RoadText(r), true)) == Parens(Mapped(ReferenceItem(r), true))
  {
    hide Mapped, Parens, StripParens, Body, ReferenceItem, WellFormedRecord;
    OpeningFree(r);
    var body, note := Body(r), ReferenceItem(r);
    NarrowedOpens(body);
    if note == "" {
      assert body + "" == body;
      StripBehind(Mapped(body, true), "");
      assert Mapped(body, true) + "" == Mapped(body, true);
      EmptyMapped();
    } else {
      assert RoadText(r) == (body + " ") + note;
      MappedConcat(body + " ", note, true);
      MappedConcat(body, " ", true);
      OneMapped(' ', true);
      StripBehind(Mapped(body, true) + " ", Mapped(note, true));
    }
  }

  // ----- an address that is lost

  const BASEMENT: RoadRecord :=
    RoadRecord(Entrance.GYEONGGI, "", "", "", Entrance.GANA, "1", "1", "0", "", "0")

  lemma BasementNumber()
    ensures NumberWord(BASEMENT) == UNDERGROUND + "1" && '(' !in NumberWord(BASEMENT)
  {
    assert "1"[..0] == "" && "0"[..0] == "" && Juso.Atoi("1") == 1 && Juso.Atoi("0") == 0;
    assert Juso.Itoa(1) == "1";
  }

  lemma BasementPlaces()
    ensures '(' !in Entrance.GYEONGGI && '(' !in Entrance.GANA
  {
  }

  lemma BasementIsWellFormed()
    ensures WellFormedRecord(BASEMENT) && NoteWords(BASEMENT) == []
  {
    hide Entrance.GYEONGGI, Entrance.GANA, SIDO_CANON, Fields, ClassifyName, IsWord, Clean, NumberWord,
         NoteWords;
    Entrance.GyeonggiIs();
    Entrance.GanaIs();
    OneWord(Entrance.GYEONGGI);
    OneWord(Entrance.GANA);
    NoFields();
    BasementNumber();
    BasementPlaces();
    NoteIsTakenOut(BASEMENT);
  }

  /** The address of a shop under a road gets no key at all. */
  lemma BasementIsLost()
    ensures RoadKey(ParseSpec(RoadText(BASEMENT))) == ("", false)
  {
    hide RoadKey, ParseSpec, RoadText, WellFormedRecord, NoteWords, RecordKey, Printed;
    BasementIsWellFormed();
    RoadAddressRoundTrip(BASEMENT);
  }
}
