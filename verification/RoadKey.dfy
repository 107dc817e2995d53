/** The canonical key of a road address (internal/address/parser.go, RoadKey) and
    the words such a key is made of.  A key read back by the parser gives itself,
    unless moving the town in front of the road has turned two stray parentheses
    into a pair. */
module RoadKeys {
  import opened Options
  import opened Words
  import opened Numerals
  import opened Dict
  import opened Parser

  function RoadKey(p: Parsed): (string, bool) {
    if p.road == "" || p.bldNo == "" then ("", false)
    else
      var parts :=
        (if p.sido != "" then [p.sido] else [])
        + (if p.sigungu != "" then [p.sigungu] else [])
        + (if p.emd != "" && (HasSuffix(p.emd, "읍") || HasSuffix(p.emd, "면")) then [p.emd] else [])
        + [p.road]
        + (if p.under then [UNDERGROUND] else [])
        + [p.bldNo];
      (Join(parts), p.sido != "")
  }

  lemma NonemptyConcat(a: seq<string>, b: seq<string>)
    requires Nonempty(a) && Nonempty(b)
    ensures Nonempty(a + b)
  {
  }

  /** Only a missing road or number makes a key empty. */
  lemma EmptyKeys(p: Parsed)
    ensures RoadKey(p).0 == "" <==> p.road == "" || p.bldNo == ""
    ensures RoadKey(p).0 == "" ==> RoadKey(p) == ("", false)
  {
    hide HasSuffix, Join, Nonempty;
    if p.road != "" && p.bldNo != "" {
      var a := if p.sido != "" then [p.sido] else [];
      var b := if p.sigungu != "" then [p.sigungu] else [];
      var c := if p.emd != "" && (HasSuffix(p.emd, "읍") || HasSuffix(p.emd, "면")) then [p.emd] else [];
      var d := if p.under then [UNDERGROUND] else [];
      OneNonempty(p.sido);
      OneNonempty(p.sigungu);
      OneNonempty(p.emd);
      OneNonempty(p.road);
      OneNonempty(UNDERGROUND);
      OneNonempty(p.bldNo);
      NonemptyConcat(a, b);
      NonemptyConcat(a + b, c);
      NonemptyConcat(a + b + c, [p.road]);
      NonemptyConcat(a + b + c + [p.road], d);
      NonemptyConcat(a + b + c + [p.road] + d, [p.bldNo]);
      JoinNonempty(a + b + c + [p.road] + d + [p.bldNo]);
    }
  }

  lemma OneNonempty(w: string)
    ensures Nonempty([]) && (w != "" ==> Nonempty([w]))
  {
  }

  // ----- the words of a key

  datatype Key = Key(
    sido: seq<string>, sigungu: seq<string>, emd: seq<string>, road: seq<string>, under: bool, num: string)

  function NameWords(k: Key): seq<string> {
    k.emd + k.road + (if k.under then [UNDERGROUND] else [])
  }

  function BodyWords(k: Key): seq<string> {
    k.sigungu + NameWords(k) + [k.num]
  }

  function KeyWords(k: Key): seq<string> { k.sido + BodyWords(k) }

  function Printed(k: Key): string { Join(KeyWords(k)) }

  /** Characters that preprocessing leaves alone. */
  predicate Clean(s: string) {
    forall i :: 0 <= i < |s| ==> Narrow(s[i]) == s[i] && Blank(s[i]) == s[i]
  }

  predicate Plain(w: string) { IsWord(w) && Clean(w) }

  lemma PlainIsOneWord(w: string)
    requires Plain(w)
    ensures Fields(w) == [w] && Join([w]) == w
  {
    hide Clean, IsWord;
    OneWord(w);
  }

  predicate AllPlain(ws: seq<string>) {
    forall i :: 0 <= i < |ws| ==> Plain(ws[i])
  }

  predicate AreSigungu(ws: seq<string>) {
    forall i :: 0 <= i < |ws| ==> IsSigungu(ws[i])
  }

  predicate AreOfKind(ws: seq<string>, kind: Kind) {
    forall i :: 0 <= i < |ws| ==> ws[i] != UNDERGROUND && ClassifyName(ws[i]) == kind
  }

  predicate EndsInTownOrTownship(ws: seq<string>) {
    ws != [] && ws[|ws| - 1] != "" && (Last(ws[|ws| - 1]) == '읍' || Last(ws[|ws| - 1]) == '면')
  }

  predicate WellFormed(k: Key) {
    && (k.sido == [] || (|k.sido| == 1 && k.sido[0] in SIDO_CANON))
    && |k.sigungu| <= 2 && AreSigungu(k.sigungu)
    && (k.sido == [] && k.sigungu != [] ==> CanonSido(k.sigungu[0]).None?)
    && AreOfKind(k.emd, Jibun) && (k.emd == [] || EndsInTownOrTownship(k.emd))
    && AreOfKind(k.road, Road) && k.road != []
    && IsNumber(k.num)
    && AllPlain(k.sigungu) && AllPlain(k.emd) && AllPlain(k.road)
  }

  // ----- how words end

  lemma {:induction false} DigitsEndIs(s: string)
    ensures forall i :: 0 <= i < DigitsEnd(s) ==> IsDigit(s[i])
    ensures DigitsEnd(s) < |s| ==> !IsDigit(s[DigitsEnd(s)])
  {
    if s != "" && IsDigit(s[0]) {
      DigitsEndIs(s[1..]);
      forall i | 0 <= i < DigitsEnd(s) ensures IsDigit(s[i]) {
        if i > 0 { assert s[i] == s[1..][i - 1]; }
      }
    }
  }

  /** A number is made of digits and hyphens, and begins and ends with a digit. */
  lemma NumberChars(s: string)
    requires IsNumber(s)
    ensures s != "" && IsDigit(s[0]) && IsDigit(Last(s))
    ensures forall i :: 0 <= i < |s| ==> IsDigit(s[i]) || s[i] == '-'
  {
    var k := DigitsEnd(s);
    DigitsEndIs(s);
    if k < |s| {
      assert forall i :: k + 1 <= i < |s| ==> s[i] == s[k + 1..][i - k - 1];
    }
  }

  lemma NumberIsPlain(s: string)
    requires IsNumber(s)
    ensures Plain(s) && IsNumToken(s) && NumberPart(s) == s && !HasSan(s) && !HasBunji(s)
    ensures !IsSigungu(s)
  {
    hide IsNumber, DigitsEnd;
    NumberChars(s);
    assert !HasBunji(s) by {
      if |s| >= 2 { assert Last(s) == s[|s| - 2..][1]; }
    }
    assert s[0] != '산' && NumberPart(s) == s;
    assert IsWord(s) && Clean(s);
  }

  lemma {:induction false} RoadEndIs(t: string)
    ensures RoadEnd(t) > 0 ==> t[RoadEnd(t) - 1] == '로' || t[RoadEnd(t) - 1] == '길'
    ensures forall i :: RoadEnd(t) <= i < |t| ==> t[i] != '로' && t[i] != '길'
  {
    if t != "" && !(Last(t) == '로' || Last(t) == '길') { RoadEndIs(t[..|t| - 1]); }
  }

  /** Only a word that ends in a digit is split. */
  lemma NotGlued(t: string)
    requires t != "" && !IsDigit(Last(t))
    ensures !IsGlued(t)
  {
    if IsGlued(t) {
      NumberChars(t[RoadEnd(t)..]);
    }
  }

  lemma NumberNotGlued(t: string)
    requires IsNumber(t)
    ensures !IsGlued(t)
  {
    NumberChars(t);
    RoadEndIs(t);
  }

  /** A number token ends in a digit or in 지. */
  lemma NumTokenEnd(t: string)
    requires IsNumToken(t)
    ensures t != "" && (IsDigit(Last(t)) || Last(t) == '지')
  {
    NumberChars(NumberPart(t));
  }

  lemma SigunguEnd(t: string)
    requires IsSigungu(t)
    ensures t != "" && (Last(t) == '시' || Last(t) == '군' || Last(t) == '구')
  {
  }

  lemma NameEnd(t: string)
    requires ClassifyName(t) != Ambiguous
    ensures t != "" && (Last(t) == '로' || Last(t) == '길' || IsTownEnding(Last(t)))
  {
  }

  /** A road or town word is no number, no district, no province, and not split. */
  lemma NameIsNothingElse(t: string)
    requires t != UNDERGROUND && ClassifyName(t) != Ambiguous
    ensures !IsNumToken(t) && !IsSigungu(t) && !IsGlued(t) && CanonSido(t).None?
  {
    NameEnd(t);
    NotGlued(t);
    if IsNumToken(t) { NumTokenEnd(t); }
    if IsSigungu(t) { SigunguEnd(t); }
    if CanonSido(t).Some? { SidoNames(t); }
  }

  lemma UndergroundIsNothingElse()
    ensures !IsNumToken(UNDERGROUND) && !IsSigungu(UNDERGROUND) && !IsGlued(UNDERGROUND)
  {
    UndergroundIsNoNumber();
    NotGlued(UNDERGROUND);
    if IsSigungu(UNDERGROUND) { SigunguEnd(UNDERGROUND); }
  }

  lemma UndergroundIsPlain()
    ensures Plain(UNDERGROUND)
  {
  }

  // ----- reading words back

  lemma {:induction false} MappedIdentity(s: string, narrow: bool)
    requires Clean(s)
    ensures Mapped(s, narrow) == s
  {
  }

  lemma {:induction false} NothingGlued(ws: seq<string>)
    requires forall i :: 0 <= i < |ws| ==> !IsGlued(ws[i])
    ensures SplitGluedSpec(ws) == ws
  {
    hide IsGlued;
    if ws != [] {
      NothingGlued(ws[1..]);
      assert [ws[0]] + ws[1..] == ws;
    }
  }

  lemma {:induction false} CleanJoin(ws: seq<string>)
    requires AllPlain(ws)
    ensures Clean(Join(ws))
  {
    if |ws| == 1 {
      assert Plain(ws[0]);
    } else if |ws| > 1 {
      assert AllPlain(ws[1..]) by { assert forall i :: 0 <= i < |ws[1..]| ==> ws[1..][i] == ws[i + 1]; }
      CleanJoin(ws[1..]);
      assert Plain(ws[0]);
      JoinStep(ws);
      CleanConcat(ws[0], " " + Join(ws[1..]));
    }
  }

  lemma CleanConcat(a: string, b: string)
    requires Clean(a) && (b == "" || (b[0] == ' ' && Clean(b[1..])))
    ensures Clean(a + b)
  {
    forall i | 0 <= i < |a + b|
      ensures Narrow((a + b)[i]) == (a + b)[i] && Blank((a + b)[i]) == (a + b)[i]
    {
      if i < |a| {
        assert (a + b)[i] == a[i];
      } else if i > |a| {
        assert (a + b)[i] == b[1..][i - |a| - 1];
      }
    }
  }

  lemma {:induction false} MappedParens(s: string)
    ensures IndexOf(Mapped(s, true), ')') == IndexOf(s, ')')
    ensures HasPair(Mapped(s, true)) == HasPair(s)
  {
    if s != "" {
      assert Mapped(s, true)[1..] == Mapped(s[1..], true);
      MappedParens(s[1..]);
    }
  }

  lemma HeadWord(s: string)
    requires s != "" && !IsSpace(s[0]) && AllPlain(Fields(s))
    ensures Plain(s[..WordEnd(s)]) && WordEnd(s) > 0
    ensures WordEnd(s) < |s| ==> IsSpace(s[WordEnd(s)])
  {
    hide Plain, IsSpace, WordEnd;
    assert Plain(Fields(s)[0]);
  }

  lemma SpaceStays(c: char)
    requires IsSpace(c)
    ensures IsSpace(Narrow(c)) && IsSpace(Blank(c))
  {
  }

  lemma FieldsSkipSpace(s: string)
    requires s != "" && IsSpace(s[0])
    ensures Fields(s) == Fields(s[1..])
  {
    hide IsSpace;
  }

  lemma FieldsOfRest(s: string)
    requires s != "" && !IsSpace(s[0]) && AllPlain(Fields(s))
    ensures AllPlain(Fields(s[WordEnd(s)..]))
  {
    hide Plain, IsSpace, WordEnd;
    assert Fields(s)[1..] == Fields(s[WordEnd(s)..]);
  }

  /** Where the words are plain, only white space is replaced, by white space. */
  lemma {:induction false} FieldsOfMapped(s: string, narrow: bool)
    requires AllPlain(Fields(s))
    ensures Fields(Mapped(s, narrow)) == Fields(s)
    decreases |s|
  {
    hide Plain, IsSpace, Fields, Narrow, Blank, AllPlain;
    if s != "" {
      if IsSpace(s[0]) {
        assert Mapped(s, narrow)[1..] == Mapped(s[1..], narrow);
        SpaceStays(s[0]);
        FieldsSkipSpace(s);
        FieldsSkipSpace(Mapped(s, narrow));
        FieldsOfMapped(s[1..], narrow);
      } else {
        HeadWord(s);
        FieldsOfRest(s);
        FieldsOfMapped(s[WordEnd(s)..], narrow);
        FieldsOfMappedWord(s, narrow);
      }
    }
  }

  lemma FieldsOfMappedWord(s: string, narrow: bool)
    requires s != "" && !IsSpace(s[0]) && AllPlain(Fields(s))
    requires Fields(Mapped(s[WordEnd(s)..], narrow)) == Fields(s[WordEnd(s)..])
    ensures Fields(Mapped(s, narrow)) == Fields(s)
  {
    hide Fields, Plain, IsSpace, WordEnd, Narrow, Blank;
    var w, rest := s[..WordEnd(s)], s[WordEnd(s)..];
    HeadWord(s);
    assert s == w + rest;
    if rest != "" { SpaceStays(rest[0]); }
    MappedConcat(w, rest, narrow);
    MappedPlain(w, narrow);
    FieldsStep(w, rest);
    FieldsStep(w, Mapped(rest, narrow));
  }

  lemma MappedPlain(w: string, narrow: bool)
    requires Plain(w)
    ensures IsWord(w) && Mapped(w, narrow) == w
  {
    MappedIdentity(w, narrow);
  }

  lemma MappedConcat(a: string, b: string, narrow: bool)
    ensures Mapped(a + b, narrow) == Mapped(a, narrow) + Mapped(b, narrow)
  {
  }

  /** A text without pairs, whose words are plain and not split, is read word by word. */
  lemma WordsAreTokens(s: string)
    requires AllPlain(Fields(s)) && !HasPair(s)
    requires forall i :: 0 <= i < |Fields(s)| ==> !IsGlued(Fields(s)[i])
    ensures Tokens(s) == Fields(s) && Parens(Mapped(s, true)) == []
  {
    hide IsGlued, Plain, Parens, StripParens, HasPair, Fields, Mapped;
    MappedParens(s);
    NoParens(Mapped(s, true));
    FieldsOfMapped(s, true);
    FieldsOfMapped(Mapped(s, true), false);
    NothingGlued(Fields(s));
  }

  /** Plain words joined by blanks come back as the same words. */
  lemma TokensOfJoin(ws: seq<string>)
    requires AllPlain(ws) && forall i :: 0 <= i < |ws| ==> !IsGlued(ws[i])
    requires !HasPair(Join(ws))
    ensures Tokens(Join(ws)) == ws && Parens(Mapped(Join(ws), true)) == []
  {
    hide IsGlued, Clean;
    FieldsOfJoin(ws);
    WordsAreTokens(Join(ws));
  }

  lemma {:induction false} SigunguTaken(sg: seq<string>, tail: seq<string>, max: nat)
    requires AreSigungu(sg) && |sg| <= max
    requires |sg| == max || tail == [] || !IsSigungu(tail[0])
    ensures SigunguCount(sg + tail, max) == |sg|
  {
    hide IsSigungu;
    if sg == [] {
      assert sg + tail == tail;
    } else {
      assert (sg + tail)[1..] == sg[1..] + tail;
      SigunguTaken(sg[1..], tail, max - 1);
    }
  }

  lemma {:induction false} NamesTakenUpTo(names: seq<string>, tail: seq<string>)
    requires forall i :: 0 <= i < |names| ==> !IsNumToken(names[i])
    requires tail == [] || IsNumToken(tail[0])
    ensures NameCount(names + tail) == |names|
  {
    hide IsNumToken;
    if names == [] {
      assert names + tail == tail;
    } else {
      assert (names + tail)[1..] == names[1..] + tail;
      NamesTakenUpTo(names[1..], tail);
    }
  }

  /** Words in canonical order fall into their groups whatever follows the number. */
  lemma LayoutBefore(sg: seq<string>, names: seq<string>, num: string, rest: seq<string>)
    requires AreSigungu(sg) && |sg| <= 2
    requires forall i :: 0 <= i < |names| ==> !IsNumToken(names[i]) && !IsSigungu(names[i])
    requires IsNumToken(num) && !IsSigungu(num)
    ensures LayoutOf(sg + (names + ([num] + rest))) == Layout(sg, names, [num], rest)
  {
    hide IsNumToken, IsSigungu, AreSigungu, SigunguCount, NameCount;
    var tail := names + ([num] + rest);
    assert tail[0] == if names == [] then num else names[0];
    SigunguTaken(sg, tail, 2);
    var body := sg + tail;
    assert body[|sg|..] == tail && body[..|sg|] == sg;
    NamesTakenUpTo(names, [num] + rest);
    var c := |sg| + |names|;
    assert body[|sg|..c] == names && body[c] == num && body[c + 1..] == rest;
  }

  lemma LayoutIs(sg: seq<string>, names: seq<string>, num: string)
    requires AreSigungu(sg) && |sg| <= 2
    requires forall i :: 0 <= i < |names| ==> !IsNumToken(names[i]) && !IsSigungu(names[i])
    requires IsNumToken(num) && !IsSigungu(num)
    ensures LayoutOf(sg + names + [num]) == Layout(sg, names, [num], [])
  {
    hide IsNumToken, IsSigungu, AreSigungu, LayoutOf;
    LayoutBefore(sg, names, num, []);
    assert sg + names + [num] == sg + (names + ([num] + []));
  }

  lemma {:induction false} AllOfKind(ws: seq<string>, kind: Kind, other: Kind)
    requires AreOfKind(ws, kind) && kind != other
    ensures OfKind(ws, kind) == ws && OfKind(ws, other) == []
    ensures UNDERGROUND !in ws
  {
    hide ClassifyName;
    if ws != [] {
      AllOfKind(ws[1..], kind, other);
      assert [ws[0]] + ws[1..] == ws;
    }
  }

  /** The name words of a key, sorted by kind again. */
  lemma NamesOfKey(k: Key)
    requires AreOfKind(k.emd, Jibun) && AreOfKind(k.road, Road)
    ensures OfKind(NameWords(k), Jibun) == k.emd
    ensures OfKind(NameWords(k), Road) == k.road
    ensures UNDERGROUND in NameWords(k) <==> k.under
  {
    var u: seq<string> := if k.under then [UNDERGROUND] else [];
    AllOfKind(k.emd, Jibun, Road);
    AllOfKind(k.road, Road, Jibun);
    hide ClassifyName, OfKind;
    forall kind: Kind ensures OfKind(NameWords(k), kind) == OfKind(k.emd, kind) + OfKind(k.road, kind) {
      OfKindConcat(k.emd + k.road, u, kind);
      OfKindConcat(k.emd, k.road, kind);
      NoNamesUnderground(k.under, kind);
    }
  }

  lemma NoNamesUnderground(under: bool, kind: Kind)
    ensures OfKind(if under then [UNDERGROUND] else [], kind) == []
  {
    assert [UNDERGROUND][1..] == [];
  }

  // ----- printing

  /** Joining fields that are joined words is joining the words. */
  lemma JoinTwo(a: string, parts: seq<string>, ws: seq<string>, rest: seq<string>)
    requires a == Join(ws) && Nonempty(ws) && Nonempty(parts) && Nonempty(rest) && rest != [] && parts != []
    requires Join(parts) == Join(rest)
    ensures Join((if a != "" then [a] else []) + parts) == Join(ws + rest)
  {
    JoinNonempty(ws);
    if ws == [] {
      assert [] + parts == parts && ws + rest == rest;
    } else {
      JoinConcat([a], parts);
      JoinConcat(ws, rest);
    }
  }

  lemma SuffixOfJoin(ws: seq<string>)
    requires Nonempty(ws)
    ensures var s := Join(ws);
            (s != "" && (HasSuffix(s, "읍") || HasSuffix(s, "면"))) <==> EndsInTownOrTownship(ws)
  {
    if ws != [] {
      JoinLast(ws);
      var s := Join(ws);
      assert s[|s| - 1..] == [Last(s)];
    }
  }

  lemma JoinNothing()
    ensures Join([]) == ""
  {
  }

  /** What a parse prints, in terms of the words of its fields. */
  lemma Prints(p: Parsed, k: Key, emd: seq<string>)
    requires k.sido == [] || |k.sido| == 1
    requires Nonempty(k.sido) && Nonempty(k.sigungu) && Nonempty(emd) && Nonempty(k.road)
    requires p.sido == Join(k.sido) && p.sigungu == Join(k.sigungu) && p.emd == Join(emd)
    requires k.emd == if EndsInTownOrTownship(emd) then emd else []
    requires p.road == Join(k.road) && k.road != [] && p.under == k.under && p.bldNo == k.num && k.num != ""
    ensures RoadKey(p) == (Printed(k), k.sido != []) && Printed(k) != ""
  {
    hide Join, HasSuffix, EndsInTownOrTownship, RoadKey, Nonempty, KeyWords, UNDERGROUND;
    var u: seq<string> := if k.under then [UNDERGROUND] else [];
    JoinNonempty(k.road);
    JoinNonempty(k.sido);
    SuffixOfJoin(emd);
    var e := if EndsInTownOrTownship(emd) then p.emd else "";
    JoinNothing();
    UndergroundIsNonempty();
    PrintsWords(p, e, k, u);
    KeyWordsRegroup(k, u);
    KeyWordsNonempty(k, u);
    PartsRegroup(p, e, u);
  }

  lemma UndergroundIsNonempty()
    ensures Nonempty([UNDERGROUND]) && Nonempty([])
  {
  }

  lemma KeyWordsNonempty(k: Key, u: seq<string>)
    requires Nonempty(k.sido) && Nonempty(k.sigungu) && Nonempty(k.emd) && Nonempty(k.road) && Nonempty(u)
    requires k.num != ""
    ensures Join(k.sido + (k.sigungu + (k.emd + (k.road + (u + [k.num]))))) != ""
  {
    hide Join, Nonempty;
    OneNonempty(k.num);
    var t1 := u + [k.num];
    NonemptyConcat(u, [k.num]);
    NonemptyConcat(k.road, t1);
    NonemptyConcat(k.emd, k.road + t1);
    NonemptyConcat(k.sigungu, k.emd + (k.road + t1));
    NonemptyConcat(k.sido, k.sigungu + (k.emd + (k.road + t1)));
    JoinNonempty(k.sido + (k.sigungu + (k.emd + (k.road + t1))));
    assert t1 != [];
  }

  /** The chain from the number to the front of the key, one field at a time. */
  lemma PrintsWords(p: Parsed, e: string, k: Key, u: seq<string>)
    requires Nonempty(k.sido) && Nonempty(k.sigungu) && Nonempty(k.emd) && Nonempty(k.road) && Nonempty(u)
    requires p.sido == Join(k.sido) && p.sigungu == Join(k.sigungu) && e == Join(k.emd)
    requires p.road == Join(k.road) && p.road != "" && p.bldNo == k.num && k.num != ""
    ensures Join((if p.sido != "" then [p.sido] else [])
                 + ((if p.sigungu != "" then [p.sigungu] else [])
                    + ((if e != "" then [e] else []) + ([p.road] + (u + [p.bldNo])))))
            == Join(k.sido + (k.sigungu + (k.emd + (k.road + (u + [k.num])))))
  {
    hide Join;
    var t1 := u + [k.num];
    var t2, w2 := [p.road] + t1, k.road + t1;
    JoinTwo(p.road, t1, k.road, t1);
    var t3, w3 := (if e != "" then [e] else []) + t2, k.emd + w2;
    JoinTwo(e, t2, k.emd, w2);
    var t4, w4 := (if p.sigungu != "" then [p.sigungu] else []) + t3, k.sigungu + w3;
    JoinTwo(p.sigungu, t3, k.sigungu, w3);
    JoinTwo(p.sido, t4, k.sido, w4);
  }

  lemma KeyWordsRegroup(k: Key, u: seq<string>)
    requires u == if k.under then [UNDERGROUND] else []
    ensures KeyWords(k) == k.sido + (k.sigungu + (k.emd + (k.road + (u + [k.num]))))
  {
  }

  lemma PartsRegroup(p: Parsed, e: string, u: seq<string>)
    requires p.road != "" && p.bldNo != ""
    requires e == if p.emd != "" && (HasSuffix(p.emd, "읍") || HasSuffix(p.emd, "면")) then p.emd else ""
    requires u == if p.under then [UNDERGROUND] else []
    ensures RoadKey(p).0 == Join((if p.sido != "" then [p.sido] else [])
                                 + ((if p.sigungu != "" then [p.sigungu] else [])
                                    + ((if e != "" then [e] else []) + ([p.road] + (u + [p.bldNo])))))
    ensures RoadKey(p).1 == (p.sido != "")
  {
    hide HasSuffix, Join;
    var a: seq<string> := if p.sido != "" then [p.sido] else [];
    var b: seq<string> := if p.sigungu != "" then [p.sigungu] else [];
    var c: seq<string> := if e != "" then [e] else [];
    Reassociate(a, b, c, [p.road], u, [p.bldNo]);
  }

  lemma Reassociate(a: seq<string>, b: seq<string>, c: seq<string>, d: seq<string>, e: seq<string>, f: seq<string>)
    ensures a + b + c + d + e + f == a + (b + (c + (d + (e + f))))
  {
  }

  // ----- a well-formed key is read back as itself

  lemma BodyOfKey(k: Key)
    requires WellFormed(k)
    ensures LayoutOf(BodyWords(k)) == Layout(k.sigungu, NameWords(k), [k.num], [])
  {
    hide IsNumToken, IsSigungu, ClassifyName, IsGlued, IsNumber, CanonSido;
    NumberIsPlain(k.num);
    UndergroundIsNothingElse();
    var names := NameWords(k);
    forall i | 0 <= i < |names| ensures !IsNumToken(names[i]) && !IsSigungu(names[i]) {
      if names[i] != UNDERGROUND {
        NameInKey(k, i);
        NameIsNothingElse(names[i]);
      }
    }
    LayoutIs(k.sigungu, names, k.num);
  }

  lemma NameInKey(k: Key, i: nat)
    requires WellFormed(k) && i < |NameWords(k)| && NameWords(k)[i] != UNDERGROUND
    ensures ClassifyName(NameWords(k)[i]) != Ambiguous && Plain(NameWords(k)[i])
  {
    hide ClassifyName, Plain, CanonSido, IsSigungu, IsNumber;
    var w := NameWords(k)[i];
    if i < |k.emd| {
      assert w == k.emd[i];
    } else {
      assert w == k.road[i - |k.emd|];
    }
  }

  lemma WordsOfKey(k: Key)
    requires WellFormed(k)
    ensures AllPlain(KeyWords(k)) && forall i :: 0 <= i < |KeyWords(k)| ==> !IsGlued(KeyWords(k)[i])
  {
    var ws := KeyWords(k);
    forall i | 0 <= i < |ws| ensures Plain(ws[i]) && !IsGlued(ws[i]) {
      WordOfKey(k, i);
    }
  }

  lemma WordOfKey(k: Key, i: nat)
    requires WellFormed(k) && i < |KeyWords(k)|
    ensures Plain(KeyWords(k)[i]) && !IsGlued(KeyWords(k)[i])
  {
    hide IsNumToken, IsSigungu, ClassifyName, IsGlued, IsNumber, CanonSido, Plain;
    var a, b, c := |k.sido|, |k.sido| + |k.sigungu|, |k.sido| + |k.sigungu| + |NameWords(k)|;
    var w := KeyWords(k)[i];
    if i < a {
      assert w == k.sido[0];
      CanonIsPlain(w);
    } else if i < b {
      assert w == k.sigungu[i - a];
      SigunguEnd(w);
      NotGlued(w);
    } else if i < c {
      assert w == NameWords(k)[i - b];
      if w == UNDERGROUND {
        UndergroundIsPlain();
        UndergroundIsNothingElse();
      } else {
        NameInKey(k, i - b);
        NameIsNothingElse(w);
      }
    } else {
      assert w == k.num;
      NumberIsPlain(w);
      NumberNotGlued(w);
    }
  }

  lemma CanonIsPlain(w: string)
    requires w in SIDO_CANON
    ensures Plain(w) && !IsGlued(w)
  {
    hide SIDO_CANON;
    CanonNames(w);
    NotGlued(w);
  }

  /** The first word of a key without province is no province. */
  lemma BodyIsNoSido(k: Key)
    requires WellFormed(k) && k.sido == []
    ensures KeyWords(k) == BodyWords(k) && CanonSido(BodyWords(k)[0]).None?
  {
    hide IsNumToken, IsSigungu, ClassifyName, IsGlued, IsNumber, CanonSido, Plain;
    assert KeyWords(k) == BodyWords(k);
    if k.sigungu != [] {
      assert BodyWords(k)[0] == k.sigungu[0];
    } else {
      var w := NameWords(k)[0];
      assert BodyWords(k)[0] == w;
      assert w == if k.emd != [] then k.emd[0] else k.road[0];
      NameInKey(k, 0);
      NameIsNothingElse(w);
    }
  }

  lemma CanonIsItself(w: string)
    requires w in SIDO_CANON
    ensures CanonSido(w) == Some(w)
  {
    hide SIDO_CANON, SIDO_ALIAS;
  }

  /** What the parser finds in the words of a well-formed key. */
  lemma KeyWordsRead(k: Key, parens: seq<string>)
    requires WellFormed(k)
    ensures ReadTokens(KeyWords(k), parens)
            == Render(Join(k.sido), k.sido == [], Layout(k.sigungu, NameWords(k), [k.num], []), parens)
  {
    hide Render, LayoutOf, CanonSido, IsSigungu, IsNumber, Plain, ClassifyName;
    BodyOfKey(k);
    if k.sido == [] {
      BodyIsNoSido(k);
    } else {
      CanonIsItself(k.sido[0]);
      assert KeyWords(k)[0] == k.sido[0] && KeyWords(k)[1..] == BodyWords(k);
    }
  }

  /** Printing a well-formed key and parsing the text recovers every field of it. */
  lemma KeyParsesBack(k: Key)
    requires WellFormed(k) && !HasPair(Printed(k))
    ensures ParseSpec(Printed(k)) ==
            Render(Join(k.sido), k.sido == [], Layout(k.sigungu, NameWords(k), [k.num], []), [])
  {
    hide Render, WellFormed, KeyWords, ReadTokens, Tokens;
    WordsOfKey(k);
    TokensOfJoin(KeyWords(k));
    KeyWordsRead(k, []);
  }

  /** ... and prints the same key again. */
  lemma KeyIsFixed(k: Key)
    requires WellFormed(k) && !HasPair(Printed(k))
    ensures RoadKey(ParseSpec(Printed(k))) == (Printed(k), k.sido != [])
    ensures Printed(k) != ""
  {
    hide CanonSido, IsSigungu, IsNumber, Plain, ClassifyName, RoadKey, Printed, NameWords, KeyWords, Join;
    KeyParsesBack(k);
    NamesOfKey(k);
    NumberIsPlain(k.num);
    WordsNonempty(k);
    var p := ParseSpec(Printed(k));
    assert p.kind == Road;
    Prints(p, k, k.emd);
  }

  lemma WordsNonempty(k: Key)
    requires WellFormed(k)
    ensures Nonempty(k.sido) && Nonempty(k.sigungu) && Nonempty(k.emd) && Nonempty(k.road) && k.num != ""
  {
    hide CanonSido, IsSigungu, IsNumber, Clean, ClassifyName, SIDO_CANON;
    NumberIsPlain(k.num);
    if k.sido != [] { CanonIsPlain(k.sido[0]); }
  }
}
