/** Where a pair of parentheses in a canonical key comes from (internal/address/parser.go,
    RoadKey): the parser takes the pairs out of the text, and the key can bring one back
    only by printing the town in front of the road. */
module ParenPairs {
  import opened Words
  import opened Dict
  import opened Parser
  import opened RoadKeys
  import opened NormalForm

  // ----- what a text holds of parentheses

  /** Whether there is an opening one, a closing one, and an opening one before a
      closing one. */
  datatype Sign = Sign(opens: bool, closes: bool, pair: bool)

  const NONE: Sign := Sign(false, false, false)

  /** The sign of two texts in a row. */
  function Then(a: Sign, b: Sign): Sign {
    Sign(a.opens || b.opens, a.closes || b.closes, a.pair || b.pair || (a.opens && b.closes))
  }

  function CharSign(c: char): Sign { Sign(c == '(', c == ')', false) }

  function SignOf(s: string): Sign {
    if s == "" then NONE else Then(CharSign(s[0]), SignOf(s[1..]))
  }

  function SignIn(ws: seq<string>): Sign {
    if ws == [] then NONE else Then(SignOf(ws[0]), SignIn(ws[1..]))
  }

  predicate Within(a: Sign, b: Sign) {
    (a.opens ==> b.opens) && (a.closes ==> b.closes) && (a.pair ==> b.pair)
  }

  lemma {:induction false} SignMeans(s: string)
    ensures SignOf(s).opens <==> '(' in s
    ensures SignOf(s).closes <==> ')' in s
    ensures SignOf(s).closes <==> IndexOf(s, ')') < |s|
    ensures SignOf(s).pair <==> HasPair(s)
  {
    if s != "" {
      SignMeans(s[1..]);
      assert s == [s[0]] + s[1..];
    }
  }

  lemma {:induction false} SignConcat(a: string, b: string)
    ensures SignOf(a + b) == Then(SignOf(a), SignOf(b))
  {
    if a == "" {
      assert a + b == b;
    } else {
      assert (a + b)[1..] == a[1..] + b;
      SignConcat(a[1..], b);
    }
  }

  lemma {:induction false} SignInConcat(a: seq<string>, b: seq<string>)
    ensures SignIn(a + b) == Then(SignIn(a), SignIn(b))
  {
    if a == [] {
      assert a + b == b;
    } else {
      assert (a + b)[1..] == a[1..] + b;
      SignInConcat(a[1..], b);
    }
  }

  lemma {:induction false} NoSign(s: string)
    requires forall i :: 0 <= i < |s| ==> s[i] != '(' && s[i] != ')'
    ensures SignOf(s) == NONE
  {
    if s != "" { NoSign(s[1..]); }
  }

  lemma SignOfPair(a: string, b: string)
    ensures SignIn([a]) == SignOf(a) && SignIn([a, b]) == Then(SignOf(a), SignOf(b))
  {
    hide SignOf;
    assert [a, b][1..] == [b] && [b][1..] == [] && [a][1..] == [];
  }

  lemma {:induction false} SignOfJoin(ws: seq<string>)
    ensures SignOf(Join(ws)) == SignIn(ws)
  {
    if |ws| == 1 {
      SignOfPair(ws[0], "");
      assert ws == [ws[0]];
    } else if |ws| > 1 {
      hide SignOf;
      SignOfJoin(ws[1..]);
      SignConcat(ws[0] + " ", Join(ws[1..]));
      SignConcat(ws[0], " ");
      NoSign(" ");
    }
  }

  lemma {:induction false} SignOfFields(s: string)
    ensures SignIn(Fields(s)) == SignOf(s)
    decreases |s|
  {
    if s != "" {
      if IsSpace(s[0]) {
        SignOfFields(s[1..]);
      } else {
        var k := WordEnd(s);
        hide SignOf, IsSpace;
        SignOfFields(s[k..]);
        SignConcat(s[..k], s[k..]);
        assert s[..k] + s[k..] == s;
      }
    }
  }

  lemma {:induction false} SignOfMapped(s: string, narrow: bool)
    ensures SignOf(Mapped(s, narrow)) == SignOf(s)
  {
    if s != "" { SignOfMapped(s[1..], narrow); }
  }

  lemma SignOfPieces(w: string)
    ensures SignIn(Unglue(w)) == SignOf(w)
  {
    hide IsGlued, SignIn, SignOf;
    if IsGlued(w) {
      var a, b := w[..RoadEnd(w)], w[RoadEnd(w)..];
      SignConcat(a, b);
      assert a + b == w;
      SignOfPair(a, b);
    } else {
      SignOfPair(w, "");
    }
  }

  lemma {:induction false} SignOfUnglued(ws: seq<string>)
    ensures SignIn(SplitGluedSpec(ws)) == SignIn(ws)
  {
    hide Unglue, SignOf;
    if ws != [] {
      SignOfUnglued(ws[1..]);
      SignInConcat(Unglue(ws[0]), SplitGluedSpec(ws[1..]));
      SignOfPieces(ws[0]);
    }
  }

  lemma {:induction false} SignOfKind(names: seq<string>, kind: Kind)
    ensures Within(SignIn(OfKind(names, kind)), SignIn(names))
  {
    hide ClassifyName, SignOf;
    if names != [] {
      var rest := OfKind(names[1..], kind);
      SignOfKind(names[1..], kind);
      assert ([names[0]] + rest)[1..] == rest;
    }
  }

  // ----- the words of an input hold no pair

  lemma {:induction false} StrippedHasNoPair(s: string)
    ensures !SignOf(StripParens(s)).pair
    ensures SignOf(StripParens(s)).closes ==> SignOf(s).closes
    decreases |s|
  {
    if s != "" {
      if OpensPair(s) {
        var k := IndexOf(s, ')') + 1;
        StrippedHasNoPair(s[k..]);
        assert (" " + StripParens(s[k..]))[1..] == StripParens(s[k..]);
        SignConcat(s[..k], s[k..]);
        assert s[..k] + s[k..] == s;
      } else {
        StrippedHasNoPair(s[1..]);
        assert ([s[0]] + StripParens(s[1..]))[1..] == StripParens(s[1..]);
        SignMeans(s);
      }
    }
  }

  lemma TokensHaveNoPair(input: string)
    ensures !SignIn(Tokens(input)).pair
  {
    hide SignOf, SignIn, SplitGluedSpec, StripParens, Mapped, Fields;
    var s := StripParens(Mapped(input, true));
    StrippedHasNoPair(Mapped(input, true));
    SignOfMapped(s, false);
    SignOfFields(Mapped(s, false));
    SignOfUnglued(Fields(Mapped(s, false)));
  }

  /** Spacing makes no difference. */
  lemma SpacingKeepsPairs(s: string)
    ensures HasPair(Join(Fields(s))) <==> HasPair(s)
  {
    hide SignOf, SignIn, Fields, Join, HasPair;
    SignMeans(s);
    SignOfFields(s);
    SignOfJoin(Fields(s));
    SignMeans(Join(Fields(s)));
  }

  // ----- the words of a key

  lemma FixedWords(sd: seq<string>, under: bool, num: string)
    requires sd == [] || (|sd| == 1 && sd[0] in SIDO_CANON)
    requires IsNumber(num)
    ensures SignIn(sd) == NONE
    ensures SignIn((if under then [UNDERGROUND] else []) + [num]) == NONE
  {
    hide SIDO_CANON, IsNumber;
    if sd != [] {
      CanonNames(sd[0]);
      NoSign(sd[0]);
      SignOfPair(sd[0], "");
      assert sd == [sd[0]];
    }
    NumberChars(num);
    NoSign(num);
    NoSign(UNDERGROUND);
    SignOfPair(num, "");
    SignOfPair(UNDERGROUND, num);
    assert [] + [num] == [num] && [UNDERGROUND] + [num] == [UNDERGROUND, num];
  }

  lemma FourSigns(a: seq<string>, b: seq<string>, c: seq<string>, d: seq<string>)
    ensures SignIn(a + (b + (c + d))) == Then(SignIn(a), Then(SignIn(b), Then(SignIn(c), SignIn(d))))
    ensures a + b + c + d == a + (b + (c + d))
  {
    hide SignIn;
    SignInConcat(a, b + (c + d));
    SignInConcat(b, c + d);
    SignInConcat(c, d);
  }

  /** A key over words without a pair has one exactly when a printed town opens it and
      the road closes it. */
  lemma PairOfBody(sd: seq<string>, body: seq<string>)
    requires AllPlain(body) && (sd == [] || (|sd| == 1 && sd[0] in SIDO_CANON))
    requires WellFormed(KeyOfBody(sd, LayoutOf(body))) && !SignIn(body).pair
    ensures var k := KeyOfBody(sd, LayoutOf(body));
      SignIn(KeyWords(k)).pair <==> SignIn(k.emd).opens && SignIn(k.road).closes
  {
    hide IsSigungu, IsNumToken, Plain, CanonSido, LayoutOf, ClassifyName, NumberPart, IsNumber, SignOf, SignIn,
         OfKind, SIDO_CANON, EndsInTownOrTownship;
    var l := LayoutOf(body);
    var k := KeyOfBody(sd, l);
    var u: seq<string> := if k.under then [UNDERGROUND] else [];
    FixedWords(sd, k.under, k.num);
    LayoutGroups(body);
    FourSigns(l.sigungu, l.names, l.num, l.rest);
    SignOfKind(l.names, Jibun);
    SignOfKind(l.names, Road);
    KeyWordsRegroup(k, u);
    FourSigns(k.sigungu, k.emd, k.road, u + [k.num]);
    SignInConcat(sd, k.sigungu + (k.emd + (k.road + (u + [k.num]))));
    SignOfNothing();
  }

  lemma SignOfNothing()
    ensures SignIn([]) == NONE
  {
  }

  /** The town words go into the key. */
  predicate PrintsTown(p: Parsed) {
    p.emd != "" && (HasSuffix(p.emd, "읍") || HasSuffix(p.emd, "면"))
  }

  lemma PairOfFields(sd: seq<string>, sido: string, missing: bool, body: seq<string>, parens: seq<string>)
    requires AllPlain(body) && (sd == [] || (|sd| == 1 && sd[0] in SIDO_CANON))
    requires WellFormed(KeyOfBody(sd, LayoutOf(body))) && !SignIn(body).pair
    ensures var p := Render(sido, missing, LayoutOf(body), parens);
      HasPair(Printed(KeyOfBody(sd, LayoutOf(body)))) <==> PrintsTown(p) && '(' in p.emd && ')' in p.road
  {
    hide LayoutOf, WellFormed, SignOf, SignIn, OfKind, KeyWords, Plain, Join, HasPair, EndsInTownOrTownship,
         HasSuffix, ClassifyName, IsSigungu, NumberPart, SIDO_CANON;
    var l := LayoutOf(body);
    var k := KeyOfBody(sd, l);
    PairOfBody(sd, body);
    SignOfJoin(KeyWords(k));
    SignMeans(Printed(k));
    LayoutGroups(body);
    PlainNonempty(l.names);
    OfKindWords(l.names, Jibun);
    SuffixOfJoin(OfKind(l.names, Jibun));
    SignOfJoin(OfKind(l.names, Jibun));
    SignOfJoin(OfKind(l.names, Road));
    SignMeans(Join(OfKind(l.names, Jibun)));
    SignMeans(Join(OfKind(l.names, Road)));
    SignOfNothing();
    NoSign("");
  }

  /** For every input: its key holds a pair of parentheses if and only if the key
      prints the town, the town holds an opening parenthesis and the road a closing one. */
  lemma PairIsTownBeforeRoad(input: string)
    ensures var p := ParseSpec(input);
      HasPair(RoadKey(p).0) <==> RoadKey(p).0 != "" && PrintsTown(p) && '(' in p.emd && ')' in p.road
  {
    hide Tokens, RoadKey, WellFormed, Printed, HasPair, SignIn, Mapped, Parens, Render, LayoutOf, KeyOfBody,
         CanonSido, PrintsTown, Plain;
    var toks, parens := Tokens(input), Parens(Mapped(input, true));
    if RoadKey(ParseSpec(input)).0 == "" {
      NothingHasNoKey();
    } else {
      TokensArePlain(input);
      TokensHaveNoPair(input);
      PrintedIsWellFormed(toks, parens);
      if StartsWithSido(toks) {
        SidoJoin(toks[0]);
        assert AllPlain(toks[1..]);
        SignOfTail(toks);
        PairOfFields([CanonSido(toks[0]).value], CanonSido(toks[0]).value, false, toks[1..], parens);
      } else {
        PairOfFields([], "", toks != [], toks, parens);
      }
    }
  }

  lemma SignOfTail(ws: seq<string>)
    requires ws != [] && !SignIn(ws).pair
    ensures !SignIn(ws[1..]).pair
  {
  }

  /** Hence the exact condition on the reading of an input for its key to be a normal form. */
  lemma NormalFormCondition(input: string)
    ensures var p := ParseSpec(input);
      RoadKey(ParseSpec(RoadKey(p).0)) == RoadKey(p)
      <==> RoadKey(p).0 == "" || !(PrintsTown(p) && '(' in p.emd && ')' in p.road)
  {
    hide ParseSpec, RoadKey, HasPair, PrintsTown;
    PairIsTownBeforeRoad(input);
    KeyIsNormalForm(input);
  }
}
