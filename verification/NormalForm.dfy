/** `RoadKey` is a normal form: for every input, the key it yields is read back as
    the same key with the same "full" flag exactly when the key holds no opening
    parenthesis that a closing one follows. */
module NormalForm {
  import opened Words
  import opened Dict
  import opened Parser
  import opened RoadKeys

  // ----- the words of an input are plain

  predicate Narrowed(s: string) {
    forall i :: 0 <= i < |s| ==> Narrow(s[i]) == s[i]
  }

  lemma {:induction false} StripKeepsNarrowed(s: string)
    requires Narrowed(s)
    ensures Narrowed(StripParens(s))
    decreases |s|
  {
    if s != "" {
      if OpensPair(s) {
        StripKeepsNarrowed(s[IndexOf(s, ')') + 1..]);
      } else {
        StripKeepsNarrowed(s[1..]);
      }
    }
  }

  lemma {:induction false} FieldsArePlain(s: string)
    requires Clean(s)
    ensures AllPlain(Fields(s))
    decreases |s|
  {
    if s != "" {
      if IsSpace(s[0]) {
        FieldsArePlain(s[1..]);
      } else {
        FieldsArePlain(s[WordEnd(s)..]);
        assert Clean(s[..WordEnd(s)]);
      }
    }
  }

  lemma {:induction false} UnglueIsPlain(ws: seq<string>)
    requires AllPlain(ws)
    ensures AllPlain(SplitGluedSpec(ws))
  {
    if ws != [] {
      assert AllPlain(ws[1..]);
      UnglueIsPlain(ws[1..]);
      assert Plain(ws[0]);
      PlainPieces(ws[0]);
    }
  }

  lemma PlainPieces(w: string)
    requires Plain(w)
    ensures AllPlain(Unglue(w))
  {
    if IsGlued(w) { NumberChars(w[RoadEnd(w)..]); }
  }

  lemma TokensArePlain(input: string)
    ensures AllPlain(Tokens(input))
  {
    var s := Mapped(input, true);
    StripKeepsNarrowed(s);
    var t := Mapped(StripParens(s), false);
    assert Clean(t);
    hide Clean;
    FieldsArePlain(t);
    UnglueIsPlain(Fields(t));
  }

  // ----- every printed key is well-formed

  predicate StartsWithSido(toks: seq<string>) { toks != [] && CanonSido(toks[0]).Some? }

  /** The words that go into the key, found in the words of an input. */
  function KeyOfBody(sido: seq<string>, l: Layout): Key {
    var emd := OfKind(l.names, Jibun);
    Key(sido, l.sigungu, if EndsInTownOrTownship(emd) then emd else [], OfKind(l.names, Road),
        UNDERGROUND in l.names, if l.num == [] then "" else NumberPart(l.num[0]))
  }

  function KeyOf(toks: seq<string>): Key {
    if StartsWithSido(toks) then KeyOfBody([CanonSido(toks[0]).value], LayoutOf(toks[1..]))
    else KeyOfBody([], LayoutOf(toks))
  }

  lemma {:induction false} SigunguPrefix(body: seq<string>, max: nat)
    ensures AreSigungu(body[..SigunguCount(body, max)])
  {
    hide IsSigungu;
    if max > 0 && body != [] && IsSigungu(body[0]) {
      SigunguPrefix(body[1..], max - 1);
      var k := SigunguCount(body, max);
      assert forall i :: 1 <= i < k ==> body[i] == body[1..][..k - 1][i - 1];
    }
  }

  lemma {:induction false} OfKindIs(names: seq<string>, kind: Kind)
    requires AllPlain(names)
    ensures AreOfKind(OfKind(names, kind), kind) && AllPlain(OfKind(names, kind))
  {
    hide ClassifyName, Plain;
    if names != [] {
      assert AllPlain(names[1..]);
      OfKindIs(names[1..], kind);
    }
  }

  /** The groups of a body: its words in order, the first two groups and the number
      being what their names say. */
  lemma LayoutGroups(body: seq<string>)
    requires AllPlain(body)
    ensures var l := LayoutOf(body);
      && body == l.sigungu + l.names + l.num + l.rest
      && |l.sigungu| <= 2 && AreSigungu(l.sigungu) && |l.num| <= 1
      && AllPlain(l.sigungu) && AllPlain(l.names)
      && (l.num != [] ==> IsNumToken(l.num[0]))
      && (l.num == [] ==> l.rest == [])
  {
    hide IsSigungu, IsNumToken, Plain, SigunguCount, NameCount, LayoutAt;
    var b := SigunguCount(body, 2);
    SigunguPrefix(body, 2);
    NamesEnd(body, b);
    GroupsAt(body, b, b + NameCount(body[b..]));
  }

  lemma GroupsAt(body: seq<string>, b: nat, c: nat)
    requires b <= c <= |body| && AllPlain(body)
    ensures var l := LayoutAt(body, b, c);
      && body == l.sigungu + l.names + l.num + l.rest
      && l.sigungu == body[..b] && AllPlain(l.sigungu) && AllPlain(l.names)
      && l.num == (if c < |body| then [body[c]] else [])
      && (l.num == [] ==> l.rest == [])
  {
    hide Plain;
  }

  lemma FromBodyWellFormed(sd: seq<string>, body: seq<string>)
    requires AllPlain(body) && (sd == [] || (|sd| == 1 && sd[0] in SIDO_CANON))
    requires var l := LayoutOf(body);
      && (sd == [] && l.sigungu != [] ==> CanonSido(l.sigungu[0]).None?)
      && OfKind(l.names, Road) != [] && l.num != []
    ensures WellFormed(KeyOfBody(sd, LayoutOf(body)))
  {
    hide IsSigungu, IsNumToken, Plain, CanonSido, LayoutOf, ClassifyName, NumberPart, IsNumber, SIDO_CANON,
         OfKind;
    var l := LayoutOf(body);
    LayoutGroups(body);
    OfKindIs(l.names, Road);
    OfKindIs(l.names, Jibun);
    NumTokenHolds(l.num[0]);
  }

  lemma PrintedFromBody(sido: string, sd: seq<string>, missing: bool, body: seq<string>, parens: seq<string>)
    requires AllPlain(body) && sido == Join(sd) && (sd == [] || (|sd| == 1 && sd[0] in SIDO_CANON))
    requires sd == [] && LayoutOf(body).sigungu != [] ==> CanonSido(LayoutOf(body).sigungu[0]).None?
    requires RoadKey(Render(sido, missing, LayoutOf(body), parens)).0 != ""
    ensures var k := KeyOfBody(sd, LayoutOf(body));
      && WellFormed(k)
      && RoadKey(Render(sido, missing, LayoutOf(body), parens)) == (Printed(k), sd != [])
  {
    hide IsSigungu, IsNumToken, Plain, CanonSido, LayoutOf, ClassifyName, NumberPart, IsNumber, SIDO_CANON;
    hide WellFormed, AllPlain, RoadKey, Printed, EndsInTownOrTownship, OfKind, Join;
    var l := LayoutOf(body);
    LayoutGroups(body);
    var p, k := Render(sido, missing, l, parens), KeyOfBody(sd, l);
    RoadKeyNeeds(p);
    NothingJoins(k.road);
    FromBodyWellFormed(sd, body);
    WordsNonempty(k);
    PlainNonempty(l.names);
    OfKindWords(l.names, Jibun);
    KindHasField(l.names);
    Prints(p, k, OfKind(l.names, Jibun));
  }

  lemma RoadKeyNeeds(p: Parsed)
    requires RoadKey(p).0 != ""
    ensures p.road != "" && p.bldNo != ""
  {
  }

  lemma NothingJoins(ws: seq<string>)
    ensures Join(ws) != "" ==> ws != []
  {
  }

  lemma NumTokenHolds(t: string)
    requires IsNumToken(t)
    ensures IsNumber(NumberPart(t)) && NumberPart(t) != ""
  {
    NumberChars(NumberPart(t));
  }

  lemma PlainNonempty(ws: seq<string>)
    requires AllPlain(ws)
    ensures Nonempty(ws)
  {
    hide Clean;
    assert forall i :: 0 <= i < |ws| ==> Plain(ws[i]);
  }

  lemma SidoJoin(tok: string)
    requires CanonSido(tok).Some?
    ensures Join([CanonSido(tok).value]) == CanonSido(tok).value && CanonSido(tok).value in SIDO_CANON
  {
    hide SIDO_CANON, SIDO_ALIAS;
    SidoNames(tok);
  }

  /** Whatever the words, a nonempty key is the text of a well-formed one. */
  lemma PrintedIsWellFormed(toks: seq<string>, parens: seq<string>)
    requires AllPlain(toks) && RoadKey(ReadTokens(toks, parens)).0 != ""
    ensures var k := KeyOf(toks);
      WellFormed(k) && RoadKey(ReadTokens(toks, parens)) == (Printed(k), k.sido != [])
  {
    hide RoadKey, Render, LayoutOf, WellFormed, Printed, KeyOfBody, CanonSido, Plain;
    if StartsWithSido(toks) {
      SidoJoin(toks[0]);
      assert AllPlain(toks[1..]);
      PrintedFromBody(CanonSido(toks[0]).value, [CanonSido(toks[0]).value], false, toks[1..], parens);
      KeepsSido([CanonSido(toks[0]).value], LayoutOf(toks[1..]));
    } else {
      LayoutGroups(toks);
      NothingJoined();
      PrintedFromBody("", [], toks != [], toks, parens);
      KeepsSido([], LayoutOf(toks));
    }
  }

  lemma KeepsSido(sd: seq<string>, l: Layout)
    ensures KeyOfBody(sd, l).sido == sd
  {
  }

  lemma NothingJoined()
    ensures Join([]) == ""
  {
  }

  // ----- counting opening parentheses

  lemma {:induction false} OpensOfUnglue(ws: seq<string>)
    ensures OpensIn(SplitGluedSpec(ws)) == OpensIn(ws)
  {
    if ws != [] {
      OpensOfUnglue(ws[1..]);
      OpensInConcat(Unglue(ws[0]), SplitGluedSpec(ws[1..]));
      OpensOfPieces(ws[0]);
    }
  }

  lemma OpensOfPieces(w: string)
    ensures OpensIn(Unglue(w)) == Opens(w)
  {
    hide IsGlued, OpensIn, Opens;
    if IsGlued(w) {
      var a, b := w[..RoadEnd(w)], w[RoadEnd(w)..];
      OpensConcat(a, b);
      assert a + b == w;
      OpensOfTwo(a, b);
    } else {
      OpensOfTwo(w, "");
    }
  }

  lemma OpensOfTwo(a: string, b: string)
    ensures OpensIn([a]) == Opens(a) && OpensIn([a, b]) == Opens(a) + Opens(b)
  {
    assert [a, b][1..] == [b] && [a][1..] == [] && [b][1..] == [];
  }

  lemma {:induction false} OpensOfMapped(s: string, narrow: bool)
    ensures Opens(Mapped(s, narrow)) == Opens(s)
  {
    if s != "" { OpensOfMapped(s[1..], narrow); }
  }

  /** Removing pairs removes opening parentheses. */
  lemma {:induction false} OpensOfStrip(s: string)
    ensures Opens(StripParens(s)) <= Opens(s)
    ensures HasPair(s) ==> Opens(StripParens(s)) < Opens(s)
    decreases |s|
  {
    if s != "" {
      if OpensPair(s) {
        var k := IndexOf(s, ')') + 1;
        OpensOfStrip(s[k..]);
        OpensConcat(s[..k], s[k..]);
        assert s[..k] + s[k..] == s;
        OpensConcat(" ", StripParens(s[k..]));
        OpensNone(" ");
      } else {
        OpensOfStrip(s[1..]);
      }
    }
  }

  lemma OpensOfTokens(input: string)
    ensures OpensIn(Tokens(input)) == Opens(StripParens(Mapped(input, true)))
  {
    hide Opens, OpensIn, SplitGluedSpec, StripParens, Mapped, Fields;
    var s := StripParens(Mapped(input, true));
    OpensOfMapped(s, false);
    OpensOfFields(Mapped(s, false));
    OpensOfUnglue(Fields(Mapped(s, false)));
  }

  lemma {:induction false} OpensOfKinds(names: seq<string>)
    ensures OpensIn(OfKind(names, Road)) + OpensIn(OfKind(names, Jibun)) <= OpensIn(names)
  {
    hide ClassifyName, Opens;
    if names != [] { OpensOfKinds(names[1..]); }
  }

  /** A key has no opening parenthesis that its input did not have. */
  lemma OpensOfKey(sd: seq<string>, body: seq<string>)
    requires AllPlain(body) && (sd == [] || (|sd| == 1 && sd[0] in SIDO_CANON))
    requires WellFormed(KeyOfBody(sd, LayoutOf(body)))
    ensures OpensIn(KeyWords(KeyOfBody(sd, LayoutOf(body)))) <= OpensIn(body)
  {
    hide IsSigungu, IsNumToken, Plain, CanonSido, LayoutOf, ClassifyName, NumberPart, IsNumber, Opens, OpensIn,
         OfKind, SIDO_CANON, EndsInTownOrTownship;
    var l := LayoutOf(body);
    var k := KeyOfBody(sd, l);
    OpensOfFixedWords(sd, k.under, k.num);
    LayoutGroups(body);
    OpensOfFour(l.sigungu, l.names, l.num, l.rest);
    OpensOfKinds(l.names);
    KeyWordsRegroup(k, if k.under then [UNDERGROUND] else []);
    OpensOfFour(k.sigungu, k.emd, k.road, (if k.under then [UNDERGROUND] else []) + [k.num]);
    OpensInConcat(sd, k.sigungu + (k.emd + (k.road + ((if k.under then [UNDERGROUND] else []) + [k.num]))));
    OpensInNothing();
  }

  lemma OpensOfFour(a: seq<string>, b: seq<string>, c: seq<string>, d: seq<string>)
    ensures OpensIn(a + (b + (c + d))) == OpensIn(a) + OpensIn(b) + OpensIn(c) + OpensIn(d)
    ensures a + b + c + d == a + (b + (c + d))
  {
    OpensInConcat(a, b + (c + d));
    OpensInConcat(b, c + d);
    OpensInConcat(c, d);
  }

  lemma OpensInNothing()
    ensures OpensIn([]) == 0
  {
  }

  lemma OpensOfFixedWords(sd: seq<string>, under: bool, num: string)
    requires sd == [] || (|sd| == 1 && sd[0] in SIDO_CANON)
    requires IsNumber(num)
    ensures OpensIn(sd) == 0
    ensures OpensIn((if under then [UNDERGROUND] else []) + [num]) == 0
  {
    hide SIDO_CANON, IsNumber;
    if sd != [] {
      CanonNames(sd[0]);
      OpensNone(sd[0]);
      assert sd[1..] == [];
    }
    NumberChars(num);
    OpensNone(num);
    OpensNone(UNDERGROUND);
    assert [num][1..] == [] && [UNDERGROUND, num][1..] == [num];
    assert [] + [num] == [num] && [UNDERGROUND] + [num] == [UNDERGROUND, num];
  }

  lemma OpensOfPrinted(toks: seq<string>)
    requires AllPlain(toks) && WellFormed(KeyOf(toks))
    ensures Opens(Printed(KeyOf(toks))) <= OpensIn(toks)
  {
    hide Opens, WellFormed, LayoutOf, KeyOfBody, KeyWords, CanonSido, Join, Plain;
    OpensOfJoin(KeyWords(KeyOf(toks)));
    if StartsWithSido(toks) {
      SidoJoin(toks[0]);
      assert AllPlain(toks[1..]);
      OpensOfKey([CanonSido(toks[0]).value], toks[1..]);
    } else {
      OpensOfKey([], toks);
    }
  }

  // ----- the theorem

  lemma NonemptyKeyIsNormalForm(input: string)
    requires RoadKey(ParseSpec(input)).0 != ""
    ensures var (key, full) := RoadKey(ParseSpec(input));
            RoadKey(ParseSpec(key)) == (key, full) <==> !HasPair(key)
  {
    hide Tokens, ReadTokens, RoadKey, WellFormed, KeyOf, Printed, HasPair, Opens, OpensIn, StripParens, Mapped,
         Parens, KeyWords, Clean;
    var k := KeyOf(Tokens(input));
    TokensArePlain(input);
    PrintedIsWellFormed(Tokens(input), Parens(Mapped(input, true)));
    var key := Printed(k);
    if !HasPair(key) {
      KeyIsFixed(k);
    } else {
      WordsOfKey(k);
      CleanPrinted(k);
      MappedIdentity(key, true);
      OpensOfStrip(key);
      OpensOfTokens(key);
      if RoadKey(ParseSpec(key)).0 != "" {
        TokensArePlain(key);
        PrintedIsWellFormed(Tokens(key), Parens(Mapped(key, true)));
        OpensOfPrinted(Tokens(key));
      } else {
        WordsNonempty(k);
        PrintedNonempty(k);
      }
    }
  }

  lemma NothingHasNoKey()
    ensures RoadKey(ParseSpec("")) == ("", false) && !HasPair("")
  {
    hide CanonSido;
    assert Tokens("") == [];
    assert ParseSpec("").road == "";
  }

  /** What every input gets as key: the text of the words its reading selects, or
      nothing when they include no road or no number. */
  lemma KeyComesFromReading(input: string)
    ensures var k := KeyOf(Tokens(input));
      RoadKey(ParseSpec(input)) ==
      if k.road != [] && k.num != "" then (Printed(k), k.sido != []) else ("", false)
  {
    hide Tokens, RoadKey, WellFormed, Printed, Mapped, Parens, Render, LayoutOf, CanonSido, Plain, OfKind;
    var toks, parens := Tokens(input), Parens(Mapped(input, true));
    TokensArePlain(input);
    EmptyKeys(ParseSpec(input));
    if StartsWithSido(toks) {
      assert AllPlain(toks[1..]);
      RoadAndNumber(CanonSido(toks[0]).value, [CanonSido(toks[0]).value], false, toks[1..], parens);
    } else {
      RoadAndNumber("", [], toks != [], toks, parens);
    }
    if RoadKey(ParseSpec(input)).0 != "" { PrintedIsWellFormed(toks, parens); }
  }

  lemma RoadAndNumber(sido: string, sd: seq<string>, missing: bool, body: seq<string>, parens: seq<string>)
    requires AllPlain(body)
    ensures var p, k := Render(sido, missing, LayoutOf(body), parens), KeyOfBody(sd, LayoutOf(body));
      p.road != "" && p.bldNo != "" <==> k.road != [] && k.num != ""
  {
    hide LayoutOf, Plain, OfKind, Join, NumberPart, EndsInTownOrTownship;
    var l := LayoutOf(body);
    LayoutGroups(body);
    PlainNonempty(l.names);
    OfKindWords(l.names, Road);
    JoinNonempty(OfKind(l.names, Road));
  }

  /** The key of any input is a normal form if and only if it holds no pair of
      parentheses. */
  lemma KeyIsNormalForm(input: string)
    ensures var (key, full) := RoadKey(ParseSpec(input));
            RoadKey(ParseSpec(key)) == (key, full) <==> !HasPair(key)
  {
    hide ParseSpec, RoadKey, HasPair;
    if RoadKey(ParseSpec(input)).0 == "" {
      EmptyKeys(ParseSpec(input));
      NothingHasNoKey();
    } else {
      NonemptyKeyIsNormalForm(input);
    }
  }

  lemma CleanPrinted(k: Key)
    requires AllPlain(KeyWords(k))
    ensures Clean(Printed(k))
  {
    hide Clean, KeyWords;
    CleanJoin(KeyWords(k));
  }

  lemma PrintedNonempty(k: Key)
    requires WellFormed(k)
    ensures Printed(k) != ""
  {
    hide CanonSido, IsSigungu, IsNumber, Plain, ClassifyName, Join, SIDO_CANON;
    WordsOfKey(k);
    PlainNonempty(KeyWords(k));
    JoinNonempty(KeyWords(k));
  }

  /** In particular the key of an input is one when no opening parenthesis is left
      after its parenthesised notes are taken out. */
  lemma ParenFreeInputs(input: string)
    requires Opens(StripParens(Mapped(input, true))) == 0
    ensures RoadKey(ParseSpec(RoadKey(ParseSpec(input)).0)) == RoadKey(ParseSpec(input))
  {
    hide Tokens, ReadTokens, RoadKey, WellFormed, KeyOf, Printed, HasPair, Opens, OpensIn, StripParens, Mapped,
         Parens;
    TokensArePlain(input);
    if RoadKey(ParseSpec(input)).0 == "" {
      NothingHasNoKey();
    } else {
      PrintedIsWellFormed(Tokens(input), Parens(Mapped(input, true)));
      OpensOfPrinted(Tokens(input));
      OpensOfTokens(input);
      OpensOfStrip(Printed(KeyOf(Tokens(input))));
    }
    KeyIsNormalForm(input);
  }

  const STRAY_ROAD: string := "가)로"
  const STRAY_TOWN: string := "나(면"
  const STRAY_INPUT: string := STRAY_ROAD + " " + (STRAY_TOWN + " " + "1")
  const STRAY_KEY: string := STRAY_TOWN + " " + (STRAY_ROAD + " " + "1")

  lemma StrayRoadIs()
    ensures Plain(STRAY_ROAD) && ClassifyName(STRAY_ROAD) == Road && STRAY_ROAD != UNDERGROUND
  {
  }

  lemma StrayTownIs()
    ensures Plain(STRAY_TOWN) && ClassifyName(STRAY_TOWN) == Jibun && STRAY_TOWN != UNDERGROUND
    ensures EndsInTownOrTownship([STRAY_TOWN])
  {
  }

  lemma OneIsNumber()
    ensures IsNumber("1")
  {
    assert "1"[1..] == "";
  }

  lemma StrayKey() returns (k: Key)
    ensures k == Key([], [], [STRAY_TOWN], [STRAY_ROAD], false, "1") && WellFormed(k)
  {
    k := Key([], [], [STRAY_TOWN], [STRAY_ROAD], false, "1");
    hide STRAY_ROAD, STRAY_TOWN, EndsInTownOrTownship, ClassifyName, Plain, IsNumber;
    StrayRoadIs();
    StrayTownIs();
    OneIsNumber();
  }

  /** In the order of the input the two words are no pair ... */
  lemma StrayInputReads()
    ensures ParseSpec(STRAY_INPUT) == Render("", true, Layout([], [STRAY_ROAD, STRAY_TOWN], ["1"], []), [])
  {
    hide STRAY_ROAD, STRAY_TOWN, EndsInTownOrTownship, ClassifyName, Plain, IsNumber, IsNumToken, IsSigungu,
         IsGlued, CanonSido, Tokens, HasPair, LayoutOf, Render;
    var ws, names := [STRAY_ROAD, STRAY_TOWN, "1"], [STRAY_ROAD, STRAY_TOWN];
    StrayRoadIs();
    StrayTownIs();
    OneIsNumber();
    NumberIsPlain("1");
    NumberNotGlued("1");
    NameIsNothingElse(STRAY_ROAD);
    NameIsNothingElse(STRAY_TOWN);
    JoinThree(STRAY_ROAD, STRAY_TOWN, "1");
    StrayInputHasNoPair();
    TokensOfJoin(ws);
    LayoutIs([], names, "1");
    assert [] + names + ["1"] == ws;
  }

  lemma JoinThree(a: string, b: string, c: string)
    ensures Join([a, b, c]) == a + " " + (b + " " + c)
  {
    assert [a, b, c][1..] == [b, c] && [b, c][1..] == [c];
    assert Join([b, c]) == b + " " + c;
    JoinStep([a, b, c]);
    assert a + (" " + (b + " " + c)) == a + " " + (b + " " + c);
  }

  lemma StrayInputHasNoPair()
    ensures !HasPair(STRAY_INPUT)
  {
    var s := STRAY_INPUT;
    assert |s| == 9 && s[0] == '가' && s[1] == ')' && s[2] == '로' && s[3] == ' ';
    assert s[4] == '나' && s[5] == '(' && s[6] == '면' && s[7] == ' ' && s[8] == '1';
    NoClosingAfter(s, 1);
  }

  lemma StrayKeyHasPair()
    ensures HasPair(STRAY_KEY)
  {
    var s := STRAY_KEY;
    assert s[1] == '(' && s[5] == ')';
    PairAt(s, 1, 5);
  }

  lemma {:induction false} PairAt(s: string, i: nat, j: nat)
    requires i < j < |s| && s[i] == '(' && s[j] == ')'
    ensures HasPair(s)
  {
    if i > 0 {
      PairAt(s[1..], i - 1, j - 1);
    } else {
      FirstIndex(s, ')', j);
    }
  }

  lemma {:induction false} FirstIndex(s: string, c: char, j: nat)
    requires j < |s| && s[j] == c
    ensures IndexOf(s, c) <= j
  {
    if s[0] != c { FirstIndex(s[1..], c, j - 1); }
  }

  /** No closing parenthesis after position `j`, and no opening one up to it. */
  lemma {:induction false} NoClosingAfter(s: string, j: int)
    requires forall i :: 0 <= i < |s| ==> (s[i] == ')' ==> i <= j) && (s[i] == '(' ==> i > j)
    ensures !HasPair(s)
  {
    if s != "" {
      NoClosingAfter(s[1..], j - 1);
      if s[0] == '(' { NoIndex(s, ')'); }
    }
  }

  lemma {:induction false} NoIndex(s: string, c: char)
    requires forall i :: 0 <= i < |s| ==> s[i] != c
    ensures IndexOf(s, c) == |s|
  {
    if s != "" { NoIndex(s[1..], c); }
  }

  /** Stray parentheses can become a pair, because the key prints the town before the
      road: the second reading then loses what is between them. */
  lemma ReorderingMakesAPair()
    ensures var (key, full) := RoadKey(ParseSpec(STRAY_INPUT));
            key == STRAY_KEY && HasPair(key) && RoadKey(ParseSpec(key)) != (key, full)
  {
    hide STRAY_ROAD, STRAY_TOWN, STRAY_INPUT, STRAY_KEY, RoadKey, HasPair, ParseSpec;
    StrayInputReads();
    StrayPrints();
    StrayKeyHasPair();
    KeyIsNormalForm(STRAY_INPUT);
  }

  lemma StrayPrints()
    ensures RoadKey(Render("", true, Layout([], [STRAY_ROAD, STRAY_TOWN], ["1"], []), [])) == (STRAY_KEY, false)
    ensures STRAY_KEY != ""
  {
    hide STRAY_ROAD, STRAY_TOWN, EndsInTownOrTownship, ClassifyName, Plain, IsNumber, WellFormed, RoadKey, Join;
    var k := StrayKey();
    var names := [STRAY_ROAD, STRAY_TOWN];
    StrayRoadIs();
    StrayTownIs();
    AllOfKind([STRAY_TOWN], Jibun, Road);
    AllOfKind([STRAY_ROAD], Road, Jibun);
    assert names == [STRAY_ROAD] + [STRAY_TOWN];
    OfKindConcat([STRAY_ROAD], [STRAY_TOWN], Road);
    OfKindConcat([STRAY_ROAD], [STRAY_TOWN], Jibun);
    OneIsNumber();
    NumberIsPlain("1");
    NothingJoined();
    WordsNonempty(k);
    Prints(Render("", true, Layout([], names, ["1"], []), []), k, [STRAY_TOWN]);
    assert KeyWords(k) == [STRAY_TOWN, STRAY_ROAD, "1"];
    JoinThree(STRAY_TOWN, STRAY_ROAD, "1");
  }
}
