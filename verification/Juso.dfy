/** The lot address of a road-name record (internal/etl/juso/parse.go) and the parser
    that has to undo it. */
module Juso {
  import opened Words
  import opened Numerals
  import opened Dict
  import opened Parser
  import opened RoadKeys
  import opened NormalForm

  const MAX_INT: int := 0x7FFF_FFFF_FFFF_FFFF

  // ----- numbers

  /** A numeric field: blank, malformed or out of the 64-bit range counts as 0. */
  function Atoi(s: string): (n: int)
    ensures -0x8000_0000_0000_0000 <= n <= 0x7FFF_FFFF_FFFF_FFFF
  {
    var t := TrimSpace(s);
    var body := if t != "" && (t[0] == '+' || t[0] == '-') then t[1..] else t;
    if !Digits(body) then 0
    else
      var n: int := if t[0] == '-' then -(Value(body) as int) else Value(body);
      if -MAX_INT - 1 <= n <= MAX_INT then n else 0
  }

  function Itoa(n: int): string {
    if n < 0 then "-" + Decimal(-n) else Decimal(n)
  }

  lemma {:induction false} TrimDigits(s: string)
    requires Digits(s)
    ensures TrimSpace(s) == s
  {
  }

  /** A digit field within range is printed without its leading zeros. */
  lemma DigitField(s: string)
    requires Digits(s) && Value(s) <= 0x7FFF_FFFF_FFFF_FFFF
    ensures Atoi(s) >= 0 && Itoa(Atoi(s)) == StripZeros(s)
  {
    TrimDigits(s);
    DecimalOfValue(s);
  }

  // ----- the printer

  datatype Record = Record(
    sido: string, sigungu: string, emd: string, ri: string, mountainYN: string, jibunMain: string, jibunSub: string)

  function LotNumber(r: Record): string {
    Itoa(Atoi(r.jibunMain)) + if Atoi(r.jibunSub) != 0 then "-" + Itoa(Atoi(r.jibunSub)) else ""
  }

  /** `t` is the numeral `s` without its leading zeros. */
  ghost predicate IsStripped(t: string, s: string) {
    && (exists z :: s == z + t && forall i :: 0 <= i < |z| ==> z[i] == '0')
    && t != "" && (t == "0" || t[0] != '0')
  }

  lemma {:induction false} StrippedIs(s: string) returns (z: string)
    requires s != ""
    ensures s == z + StripZeros(s) && (forall i :: 0 <= i < |z| ==> z[i] == '0')
    ensures StripZeros(s) != "" && (StripZeros(s) == "0" || StripZeros(s)[0] != '0')
    ensures StripZeros(s) == "0" <==> forall i :: 0 <= i < |s| ==> s[i] == '0'
  {
    z := "";
    if |s| > 1 && s[0] == '0' {
      var more := StrippedIs(s[1..]);
      z := "0" + more;
      assert s == "0" + s[1..];
    } else if s == ['0'] {
      assert s == "0";
    }
  }

  /** The number of a record with digit fields: both fields without leading zeros, the
      second only when it is not 0. */
  lemma LotNumberOfDigits(r: Record) returns (main: string, sub: string)
    requires Digits(r.jibunMain) && Value(r.jibunMain) <= 0x7FFF_FFFF_FFFF_FFFF
    requires Digits(r.jibunSub) && Value(r.jibunSub) <= 0x7FFF_FFFF_FFFF_FFFF
    ensures IsStripped(main, r.jibunMain) && IsStripped(sub, r.jibunSub)
    ensures LotNumber(r) == main + if sub == "0" then "" else "-" + sub
  {
    hide Atoi, Value, Decimal, Digits;
    DigitField(r.jibunMain);
    DigitField(r.jibunSub);
    main, sub := StripZeros(r.jibunMain), StripZeros(r.jibunSub);
    var z := StrippedIs(r.jibunMain);
    z := StrippedIs(r.jibunSub);
    ZeroIs(Atoi(r.jibunSub));
  }

  lemma ZeroIs(n: int)
    requires n >= 0
    ensures Itoa(n) == "0" <==> n == 0
  {
    ValueOfDecimal(n);
    ValueOfDecimal(0);
    assert Decimal(0) == "0";
  }

  function LotToken(r: Record): string {
    (if r.mountainYN == "1" then "산" else "") + LotNumber(r)
  }

  function Given(s: string): seq<string> { if s != "" then [s] else [] }

  /** The parts that are present, joined by single blanks. */
  function JibunText(r: Record): string {
    Join([r.sido] + Given(r.sigungu) + Given(r.emd) + Given(r.ri) + [LotToken(r)])
  }

  method JibunAddress(r: Record) returns (b: string)
    ensures b == JibunText(r)
  {
    hide Atoi, Itoa;
    ghost var parts := [r.sido];
    b := r.sido;
    AppendGiven(parts, r.sigungu);
    if r.sigungu != "" {
      b := b + " ";
      b := b + r.sigungu;
    }
    parts := parts + Given(r.sigungu);
    AppendGiven(parts, r.emd);
    if r.emd != "" {
      b := b + " ";
      b := b + r.emd;
    }
    parts := parts + Given(r.emd);
    AppendGiven(parts, r.ri);
    if r.ri != "" {
      b := b + " ";
      b := b + r.ri;
    }
    parts := parts + Given(r.ri);
    assert b == Join(parts);
    JoinConcat(parts, [LotToken(r)]);
    b := b + " ";
    var num := "";
    if r.mountainYN == "1" {
      num := num + "산";
    }
    num := num + Itoa(Atoi(r.jibunMain));
    var sub := Atoi(r.jibunSub);
    if sub != 0 {
      num := num + "-";
      num := num + Itoa(sub);
    }
    LotTokenIs(r, num);
    b := b + num;
  }

  lemma AppendGiven(parts: seq<string>, s: string)
    requires parts != []
    ensures Join(parts + Given(s)) == if s != "" then Join(parts) + " " + s else Join(parts)
  {
    if s != "" {
      JoinConcat(parts, [s]);
    } else {
      assert parts + [] == parts;
    }
  }

  lemma LotTokenIs(r: Record, num: string)
    requires var main, sub := Itoa(Atoi(r.jibunMain)), Atoi(r.jibunSub);
      var head := if r.mountainYN == "1" then "" + "산" + main else "" + main;
      num == if sub != 0 then head + "-" + Itoa(sub) else head
    ensures num == LotToken(r)
  {
    hide Atoi, Itoa;
    Pieced("", r.mountainYN == "1", "산", Itoa(Atoi(r.jibunMain)), Atoi(r.jibunSub) != 0, Itoa(Atoi(r.jibunSub)));
    assert "" + LotToken(r) == LotToken(r);
  }

  /** A mark, a number and a second number written one after the other behind a text. */
  lemma Pieced(front: string, marked: bool, mark: string, main: string, more: bool, sub: string)
    ensures var head := (if marked then front + mark else front) + main;
      (if more then head + "-" + sub else head)
      == front + ((if marked then mark else "") + (main + if more then "-" + sub else ""))
  {
    var m, t := if marked then mark else "", if more then "-" + sub else "";
    assert front + "" == front;
    assert front + m + main + t == front + (m + (main + t));
    assert front + m + main + "" == front + m + main;
    assert front + m + main + "-" + sub == front + m + main + ("-" + sub);
  }

  // ----- the round trip

  /** The town words of a record. */
  function TownWords(r: Record): seq<string> { Fields(r.emd) + Fields(r.ri) }

  /** A full province name, up to two districts, and at least one town word. */
  ghost predicate WellFormedRecord(r: Record) {
    && (exists s :: s in SIDO_CANON && Fields(r.sido) == [s])
    && |Fields(r.sigungu)| <= 2 && AreSigungu(Fields(r.sigungu)) && AllPlain(Fields(r.sigungu))
    && TownWords(r) != [] && AreOfKind(TownWords(r), Jibun) && AllPlain(TownWords(r))
  }

  lemma DecimalNumber(main: nat, sub: nat)
    ensures IsNumber(Decimal(main)) && IsNumber(Decimal(main) + ("-" + Decimal(sub)))
  {
    DecimalIsDigits(main);
    DecimalIsDigits(sub);
    var a, s := Decimal(main), Decimal(main) + ("-" + Decimal(sub));
    DigitsEndIs(a);
    DigitsEndIs(s);
    assert forall i :: 0 <= i < |a| ==> s[i] == a[i];
    assert s[|a|] == '-' && s[|a| + 1..] == Decimal(sub);
    assert DigitsEnd(s) == |a|;
  }

  lemma ItoaChars(n: int)
    ensures Itoa(n) != "" && IsDigit(Last(Itoa(n)))
    ensures forall i :: 0 <= i < |Itoa(n)| ==> IsDigit(Itoa(n)[i]) || Itoa(n)[i] == '-'
    ensures if n < 0 then Itoa(n)[0] == '-' else Digits(Itoa(n)) && Itoa(n) == Decimal(n)
  {
    var d := Decimal(if n < 0 then -n else n);
    DecimalIsDigits(if n < 0 then -n else n);
    assert n < 0 ==> Itoa(n) == "-" + d && Last(Itoa(n)) == Last(d);
  }

  lemma NotANumber(s: string, k: nat)
    requires k <= |s| && (forall i :: 0 <= i < k ==> IsDigit(s[i]))
    requires k < |s| && s[k] == '-' && (k == 0 || (k + 1 < |s| && s[k + 1] == '-'))
    ensures !IsNumber(s)
  {
    DigitsEndIs(s);
    assert DigitsEnd(s) == k;
    if k > 0 { assert s[k + 1..][0] == '-'; }
  }

  /** The number of a record is a lot number unless a field of it is negative. */
  lemma LotNumberIs(r: Record)
    ensures IsNumber(LotNumber(r)) <==> Atoi(r.jibunMain) >= 0 && Atoi(r.jibunSub) >= 0
    ensures LotNumber(r) != "" && IsDigit(Last(LotNumber(r)))
    ensures forall i :: 0 <= i < |LotNumber(r)| ==> IsDigit(LotNumber(r)[i]) || LotNumber(r)[i] == '-'
  {
    hide Atoi, IsNumber, Itoa;
    var main, sub := Atoi(r.jibunMain), Atoi(r.jibunSub);
    var a, b, n := Itoa(main), Itoa(sub), LotNumber(r);
    ItoaChars(main);
    ItoaChars(sub);
    if sub == 0 {
      assert n == a;
    } else {
      assert n == a + ("-" + b);
      assert Last(n) == Last(b);
    }
    if main >= 0 && sub >= 0 {
      DecimalNumber(main, sub);
    } else {
      assert forall i :: 0 <= i < |a| ==> n[i] == a[i];
      NotANumber(n, if main < 0 then 0 else |a|);
    }
  }

  lemma LotTokenParts(t: string, n: string, san: bool)
    requires n != "" && IsDigit(Last(n)) && t == (if san then "산" else "") + n
    requires forall i :: 0 <= i < |n| ==> IsDigit(n[i]) || n[i] == '-'
    ensures NumberPart(t) == n && HasSan(t) == san && !HasBunji(t)
    ensures t != "" && Last(t) == Last(n)
  {
    hide HasBunji;
    assert san ==> t[1..] == n;
    assert !san ==> t == n;
    NoBunji(n);
    NoBunji(t);
  }

  lemma NoBunji(t: string)
    requires t != "" && IsDigit(Last(t))
    ensures !HasBunji(t)
  {
    if |t| >= 2 { assert t[|t| - 2..][1] == Last(t); }
  }

  lemma LotTokenIsPlain(t: string, n: string, san: bool)
    requires n != "" && t == (if san then "산" else "") + n
    requires forall i :: 0 <= i < |n| ==> IsDigit(n[i]) || n[i] == '-'
    ensures Plain(t) && !IsGlued(t)
  {
    hide IsNumber, IsGlued;
    assert forall i :: 0 <= i < |t| ==> t[i] == '산' || IsDigit(t[i]) || t[i] == '-';
    NoRoadChars(t);
  }

  /** Hence its token is what the parser takes for a number in the same case, and no
      district, no town and nothing to split in any case. */
  lemma LotTokenReads(r: Record)
    ensures var t := LotToken(r);
      && Plain(t) && !IsSigungu(t) && !IsGlued(t) && t != UNDERGROUND
      && NumberPart(t) == LotNumber(r) && HasSan(t) == (r.mountainYN == "1") && !HasBunji(t)
      && (IsNumToken(t) <==> Atoi(r.jibunMain) >= 0 && Atoi(r.jibunSub) >= 0)
      && ClassifyName(t) == Ambiguous
  {
    hide Atoi, LotNumber, IsNumber, IsGlued, Plain, NumberPart, HasSan, HasBunji;
    LotNumberIs(r);
    var t, n := LotToken(r), LotNumber(r);
    LotTokenParts(t, n, r.mountainYN == "1");
    LotTokenIsPlain(t, n, r.mountainYN == "1");
    hide LotToken;
    if IsSigungu(t) { SigunguEnd(t); }
    if ClassifyName(t) != Ambiguous { NameEnd(t); }
  }

  lemma NoRoadChars(t: string)
    requires forall i :: 0 <= i < |t| ==> t[i] != '로' && t[i] != '길'
    ensures !IsGlued(t)
  {
    hide IsNumber;
    RoadEndIs(t);
  }

  // ----- words of the printed address

  function BodyOf(r: Record): seq<string> {
    Fields(r.sigungu) + TownWords(r) + [LotToken(r)]
  }

  lemma FieldsOfGiven(s: string, rest: seq<string>)
    requires rest != []
    ensures Fields(Join(Given(s) + rest)) == Fields(s) + Fields(Join(rest))
  {
    hide Fields;
    if s != "" {
      JoinConcat([s], rest);
      assert Join([s]) == s;
      FieldsConcat(s, Join(rest));
    } else {
      assert [] + rest == rest;
      NoFields();
    }
  }

  lemma LotWord(r: Record)
    ensures Fields(Join([LotToken(r)])) == [LotToken(r)]
  {
    hide Fields, Join, LotToken, Plain;
    LotTokenReads(r);
    PlainIsOneWord(LotToken(r));
  }

  lemma JibunTextWords(r: Record)
    ensures Fields(JibunText(r)) == Fields(r.sido) + BodyOf(r)
  {
    hide Fields, LotToken, Given, Join, JibunText;
    var t := LotToken(r);
    JibunTextIs(r);
    FieldsOfPart(r.sido, Given(r.sigungu) + (Given(r.emd) + (Given(r.ri) + [t])));
    FieldsOfGiven(r.sigungu, Given(r.emd) + (Given(r.ri) + [t]));
    FieldsOfGiven(r.emd, Given(r.ri) + [t]);
    FieldsOfGiven(r.ri, [t]);
    LotWord(r);
    assert Fields(r.sigungu) + (Fields(r.emd) + (Fields(r.ri) + [t]))
        == Fields(r.sigungu) + (Fields(r.emd) + Fields(r.ri)) + [t];
  }

  lemma JibunTextIs(r: Record)
    ensures JibunText(r) == Join([r.sido] + (Given(r.sigungu) + (Given(r.emd) + (Given(r.ri) + [LotToken(r)]))))
  {
    hide LotToken, Join;
    assert [r.sido] + Given(r.sigungu) + Given(r.emd) + Given(r.ri) + [LotToken(r)]
        == [r.sido] + (Given(r.sigungu) + (Given(r.emd) + (Given(r.ri) + [LotToken(r)])));
  }

  /** A body without number: all the names are taken and nothing is left. */
  lemma LayoutWithoutNumber(sg: seq<string>, names: seq<string>)
    requires AreSigungu(sg) && |sg| <= 2
    requires forall i :: 0 <= i < |names| ==> !IsNumToken(names[i]) && !IsSigungu(names[i])
    ensures LayoutOf(sg + names) == Layout(sg, names, [], [])
  {
    hide IsNumToken, IsSigungu, SigunguCount, NameCount;
    SigunguTaken(sg, names, 2);
    assert (sg + names)[|sg|..] == names && (sg + names)[..|sg|] == sg;
    assert names + [] == names;
    NamesTakenUpTo(names, []);
    assert (sg + names)[|sg|..|sg| + |names|] == names;
  }

  lemma TownsAreNothingElse(r: Record)
    requires WellFormedRecord(r)
    ensures var ws := TownWords(r);
      forall i :: 0 <= i < |ws| ==> !IsNumToken(ws[i]) && !IsSigungu(ws[i]) && !IsGlued(ws[i])
  {
    hide Fields, IsNumToken, IsSigungu, IsGlued, ClassifyName, Plain, SIDO_CANON, CanonSido, TownWords;
    var ws := TownWords(r);
    forall i | 0 <= i < |ws| ensures !IsNumToken(ws[i]) && !IsSigungu(ws[i]) && !IsGlued(ws[i]) {
      NameIsNothingElse(ws[i]);
    }
  }

  /** The groups the body falls into, according to whether the token is a number. */
  lemma BodyLayout(r: Record)
    requires WellFormedRecord(r)
    ensures LayoutOf(BodyOf(r)) ==
      if IsNumToken(LotToken(r)) then Layout(Fields(r.sigungu), TownWords(r), [LotToken(r)], [])
      else Layout(Fields(r.sigungu), TownWords(r) + [LotToken(r)], [], [])
  {
    hide Fields, IsNumToken, IsSigungu, IsGlued, ClassifyName, Plain, SIDO_CANON, LotToken, LayoutOf, TownWords;
    TownsAreNothingElse(r);
    LotTokenReads(r);
    if IsNumToken(LotToken(r)) {
      LayoutIs(Fields(r.sigungu), TownWords(r), LotToken(r));
    } else {
      assert BodyOf(r) == Fields(r.sigungu) + (TownWords(r) + [LotToken(r)]);
      LayoutWithoutNumber(Fields(r.sigungu), TownWords(r) + [LotToken(r)]);
    }
  }

  lemma JibunToken(r: Record, s: string, i: nat)
    requires WellFormedRecord(r) && s in SIDO_CANON && i < |[s] + BodyOf(r)|
    ensures Plain(([s] + BodyOf(r))[i]) && !IsGlued(([s] + BodyOf(r))[i])
  {
    hide Fields, IsNumToken, IsSigungu, IsGlued, ClassifyName, Plain, SIDO_CANON, LotToken, TownWords;
    var sigungu, towns := Fields(r.sigungu), TownWords(r);
    var w := ([s] + BodyOf(r))[i];
    if i == 0 {
      CanonIsPlain(s);
    } else if i - 1 < |sigungu| {
      assert w == sigungu[i - 1];
      SigunguEnd(w);
      NotGlued(w);
    } else if i - 1 - |sigungu| < |towns| {
      assert w == towns[i - 1 - |sigungu|];
      TownsAreNothingElse(r);
    } else {
      assert w == LotToken(r);
      LotTokenReads(r);
    }
  }

  /** The tokens of the printed address are its words. */
  lemma JibunTokens(r: Record)
    requires WellFormedRecord(r)
    ensures var words := Fields(r.sido) + BodyOf(r);
      AllPlain(words) && forall i :: 0 <= i < |words| ==> !IsGlued(words[i])
  {
    hide Fields, BodyOf, IsGlued, Plain, SIDO_CANON;
    var s :| s in SIDO_CANON && Fields(r.sido) == [s];
    forall i | 0 <= i < |[s] + BodyOf(r)| ensures Plain(([s] + BodyOf(r))[i]) && !IsGlued(([s] + BodyOf(r))[i]) {
      JibunToken(r, s, i);
    }
  }

  /** The parser's reading of a printed lot address, whatever the signs. */
  lemma JibunReads(r: Record) returns (s: string)
    requires WellFormedRecord(r) && !HasPair(JibunText(r))
    ensures Fields(r.sido) == [s] && ParseSpec(JibunText(r)) == Render(s, false, LayoutOf(BodyOf(r)), [])
  {
    hide Fields, IsGlued, Plain, SIDO_CANON, BodyOf, HasPair, Render, LayoutOf, JibunText, AreSigungu,
         AreOfKind, TownWords, CanonSido, Tokens, Mapped, Parens;
    s :| s in SIDO_CANON && Fields(r.sido) == [s];
    var text := JibunText(r);
    JibunTokens(r);
    JibunTextWords(r);
    WordsAreTokens(text);
    CanonIsItself(s);
    assert Tokens(text)[0] == s && Tokens(text)[1..] == BodyOf(r);
  }

  lemma TownKinds(ws: seq<string>, more: seq<string>)
    requires ws != [] && AreOfKind(ws, Jibun)
    requires more == [] || (|more| == 1 && more[0] != UNDERGROUND && ClassifyName(more[0]) == Ambiguous)
    ensures OfKind(ws + more, Jibun) == ws && OfKind(ws + more, Road) == [] && UNDERGROUND !in ws + more
    ensures KindOf(ws + more) == Jibun
    ensures OfKind(ws + more, Ambiguous) == more
  {
    hide ClassifyName, UNDERGROUND;
    AllOfKind(ws, Jibun, Road);
    AllOfKind(ws, Jibun, Ambiguous);
    OfKindConcat(ws, more, Jibun);
    OfKindConcat(ws, more, Road);
    OfKindConcat(ws, more, Ambiguous);
    if more != [] { assert more[1..] == []; }
  }

  /** Parsing the printed lot address of a well-formed record finds its town and its
      lot, with the mountain flag and no leading zeros -- exactly when neither number
      field is negative; otherwise the lot is not recognised as one. */
  lemma JibunRoundTrip(r: Record)
    requires WellFormedRecord(r) && !HasPair(JibunText(r))
    ensures var p := ParseSpec(JibunText(r));
      && p.kind == Jibun && [p.sido] == Fields(r.sido) && p.sigungu == Join(Fields(r.sigungu))
      && p.emd == Join(TownWords(r)) && p.road == "" && p.bldNo == "" && !p.under
      && p.emd == Join(Fields(r.emd) + Fields(r.ri))
      && (p.jibun == LotNumber(r) <==> Atoi(r.jibunMain) >= 0 && Atoi(r.jibunSub) >= 0)
      && (p.jibun == LotNumber(r) ==> p.san == (r.mountainYN == "1") && p.extra == "")
      && (p.jibun != LotNumber(r) ==> p.jibun == "" && p.extra == LotToken(r))
  {
    hide Fields, IsNumToken, Plain, SIDO_CANON, LotToken, LotNumber, TownWords, IsSigungu, HasSan, HasBunji,
         NumberPart, ClassifyName, OfKind, Atoi, NameWarnings, LayoutOf, BodyOf;
    var s := JibunReads(r);
    BodyLayout(r);
    TownWordsAre(r);
    LotTokenReads(r);
    LotNumberIs(r);
    var t := LotToken(r);
    if IsNumToken(t) {
      TownKinds(TownWords(r), []);
      assert TownWords(r) + [] == TownWords(r);
      NothingJoined();
      OnlyMiddle([]);
    } else {
      TownKinds(TownWords(r), [t]);
      NothingJoined();
      OnlyMiddle([t]);
    }
  }

  lemma TownWordsAre(r: Record)
    ensures TownWords(r) == Fields(r.emd) + Fields(r.ri)
  {
  }

  lemma OnlyMiddle(ws: seq<string>)
    ensures Join([] + ws + []) == Join(ws)
  {
    assert [] + ws + [] == ws;
  }

  const PROVINCE: string := "경기도"
  const TOWN: string := "가나동"
  const NEGATIVE: Record := Record(PROVINCE, "", TOWN, "", "0", "-5", "0")

  lemma ProvinceIs()
    ensures IsWord(PROVINCE) && PROVINCE in SIDO_CANON
    ensures forall i :: 0 <= i < |PROVINCE| ==> PROVINCE[i] != '('
  {
    assert SIDO_CANON[8] == PROVINCE;
  }

  lemma TownIs()
    ensures Plain(TOWN) && IsWord(TOWN) && ClassifyName(TOWN) == Jibun && TOWN != UNDERGROUND
    ensures forall i :: 0 <= i < |TOWN| ==> TOWN[i] != '('
  {
  }

  lemma NegativeWords()
    ensures Fields(PROVINCE) == [PROVINCE] && TownWords(NEGATIVE) == [TOWN] && Fields(NEGATIVE.sigungu) == []
  {
    hide Fields, IsWord, PROVINCE, TOWN, SIDO_CANON, Plain, ClassifyName;
    ProvinceIs();
    TownIs();
    OneWord(PROVINCE);
    OneWord(TOWN);
    NoFields();
  }

  lemma NegativeIsWellFormed()
    ensures WellFormedRecord(NEGATIVE)
  {
    hide Fields, IsWord, PROVINCE, TOWN, SIDO_CANON, Plain, ClassifyName, TownWords;
    NegativeWords();
    ProvinceIs();
    TownIs();
  }

  lemma NegativeNumbers()
    ensures Atoi("-5") == -5 && Atoi("0") == 0 && Itoa(-5) == "-5"
  {
    assert "-5"[1..] == "5" && "5"[..0] == "" && "0"[..0] == "";
  }

  lemma NegativeToken()
    ensures LotNumber(NEGATIVE) == "-5" && LotToken(NEGATIVE) == "-5"
  {
    hide Atoi, Itoa, PROVINCE, TOWN;
    NegativeNumbers();
  }

  lemma NegativeHasNoPair()
    ensures !HasPair(JibunText(NEGATIVE))
  {
    hide Atoi, LotToken, PROVINCE, TOWN, HasPair, Join, JibunText, Fields, Opens, OpensIn, IsWord, SIDO_CANON,
         Plain;
    NegativeToken();
    ProvinceIs();
    TownIs();
    JibunTextIs(NEGATIVE);
    assert [PROVINCE] + ([] + ([TOWN] + ([] + ["-5"]))) == [PROVINCE, TOWN, "-5"];
    OpensOfJoin([PROVINCE, TOWN, "-5"]);
    OpensNone(PROVINCE);
    OpensNone(TOWN);
    OpensNone("-5");
    OpensOfThree(PROVINCE, TOWN, "-5");
    OpensOfStrip(JibunText(NEGATIVE));
  }

  lemma OpensOfThree(a: string, b: string, c: string)
    ensures OpensIn([a, b, c]) == Opens(a) + Opens(b) + Opens(c)
  {
    hide Opens;
    assert [a, b, c][1..] == [b, c];
    OpensOfTwo(b, c);
  }

  /** A record with a negative main number prints a lot the parser does not recognise. */
  lemma NegativeLotIsLost()
    ensures var p := ParseSpec(JibunText(NEGATIVE));
      p.kind == Jibun && p.emd == TOWN && p.jibun == "" && p.extra == "-5"
  {
    hide ParseSpec, JibunText, LotNumber, Atoi, TownWords, LotToken, WellFormedRecord, PROVINCE, TOWN, HasPair,
         Fields;
    NegativeIsWellFormed();
    NegativeNumbers();
    NegativeHasNoPair();
    NegativeWords();
    NegativeToken();
    JibunRoundTrip(NEGATIVE);
  }

  // ----- the number reader

  /** Every number of 64 bits is read back from its text. */
  lemma AtoiReads(n: int)
    requires -0x8000_0000_0000_0000 <= n <= 0x7FFF_FFFF_FFFF_FFFF
    ensures Atoi(Itoa(n)) == n
  {
    hide TrimSpace, Decimal, Value, Digits;
    var m: nat := if n < 0 then -n else n;
    ValueOfDecimal(m);
    NumeralIsTrimmed(Itoa(n), n < 0, Decimal(m));
  }

  lemma NumeralIsTrimmed(s: string, minus: bool, d: string)
    requires Digits(d) && s == (if minus then "-" else "") + d
    ensures TrimSpace(s) == s && s != ""
    ensures (s[0] == '-') == minus && s[0] != '+' && (if minus then s[1..] == d else s == d)
  {
    assert IsDigit(d[0]) && IsDigit(d[|d| - 1]);
    assert s[|s| - 1] == d[|d| - 1];
    assert minus ==> s[0] == '-' && s[1..] == d;
    assert !minus ==> s == d;
  }

  /** A field is read as something other than 0 only if, blanks aside, it is an optional
      sign and digits, and these are the result's own up to leading zeros. */
  lemma AtoiReadsOnlyNumerals(s: string) returns (sign: string, digits: string)
    requires Atoi(s) != 0
    ensures TrimSpace(s) == sign + digits && sign in {"", "+", "-"} && Digits(digits)
    ensures (sign == "-") == (Atoi(s) < 0)
    ensures StripZeros(digits) == Decimal(if Atoi(s) < 0 then -Atoi(s) else Atoi(s))
  {
    hide TrimSpace, Value, StripZeros, Decimal;
    var t := TrimSpace(s);
    if t != "" && (t[0] == '+' || t[0] == '-') {
      sign, digits := [t[0]], t[1..];
      assert t == sign + digits;
    } else {
      sign, digits := "", t;
    }
    DecimalOfValue(digits);
  }
}
