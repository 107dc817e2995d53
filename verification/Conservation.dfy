/** No word of an input is lost by the parser, and its kind is decided by the names
    alone (internal/address/parser.go). */
module Conservation {
  import opened Words
  import opened Dict
  import opened Parser
  import opened RoadKeys
  import opened NormalForm

  /** `a` is `b` with some words left out. */
  ghost predicate IsSubsequence(a: seq<string>, b: seq<string>) {
    a == [] || (b != [] && (IsSubsequence(a, b[1..]) || (a[0] == b[0] && IsSubsequence(a[1..], b[1..]))))
  }

  function Markers(names: seq<string>): seq<string> {
    if names == [] then []
    else (if names[0] == UNDERGROUND then [UNDERGROUND] else []) + Markers(names[1..])
  }

  lemma {:induction false} KindKeepsOrder(names: seq<string>, kind: Kind)
    ensures IsSubsequence(OfKind(names, kind), names)
  {
    hide ClassifyName;
    if names != [] { KindKeepsOrder(names[1..], kind); }
  }

  /** Every name word is of exactly one kind, or is the underground marker. */
  lemma {:induction false} NamesArePartitioned(names: seq<string>)
    ensures multiset(names) == multiset(OfKind(names, Road)) + multiset(OfKind(names, Jibun))
                               + multiset(OfKind(names, Ambiguous)) + multiset(Markers(names))
    ensures UNDERGROUND in names <==> Markers(names) != []
  {
    hide ClassifyName, UNDERGROUND;
    if names != [] {
      hide OfKind, Markers;
      var t, rest := names[0], names[1..];
      NamesArePartitioned(rest);
      assert names == [t] + rest;
      OfKindCons(t, rest, Road);
      OfKindCons(t, rest, Jibun);
      OfKindCons(t, rest, Ambiguous);
      MarkersCons(t, rest);
      OneOfFour(t, multiset(OfKind(rest, Road)), multiset(OfKind(rest, Jibun)), multiset(OfKind(rest, Ambiguous)),
                multiset(Markers(rest)));
    }
  }

  /** A word adds to exactly one of the four collections. */
  lemma OneOfFour(t: string, r: multiset<string>, j: multiset<string>, a: multiset<string>, m: multiset<string>)
    ensures var one, none := multiset{t}, multiset{};
      one + (r + j + a + m)
      == ((if t != UNDERGROUND && ClassifyName(t) == Road then one else none) + r)
         + ((if t != UNDERGROUND && ClassifyName(t) == Jibun then one else none) + j)
         + ((if t != UNDERGROUND && ClassifyName(t) == Ambiguous then one else none) + a)
         + ((if t == UNDERGROUND then one else none) + m)
  {
    hide ClassifyName, UNDERGROUND;
    match ClassifyName(t) {
      case Road =>
      case Jibun =>
      case Ambiguous =>
    }
  }

  lemma OfKindCons(t: string, rest: seq<string>, kind: Kind)
    ensures multiset(OfKind([t] + rest, kind))
            == (if t != UNDERGROUND && ClassifyName(t) == kind then multiset{t} else multiset{})
               + multiset(OfKind(rest, kind))
  {
    hide ClassifyName, UNDERGROUND;
    assert ([t] + rest)[1..] == rest;
  }

  lemma MarkersCons(t: string, rest: seq<string>)
    ensures multiset(Markers([t] + rest))
            == (if t == UNDERGROUND then multiset{t} else multiset{}) + multiset(Markers(rest))
    ensures Markers([t] + rest) != [] <==> t == UNDERGROUND || Markers(rest) != []
  {
    hide UNDERGROUND;
    assert ([t] + rest)[1..] == rest;
  }

  /** The words of an input are, in this order: an optional province, the districts,
      the names, an optional number and the rest; each field of the result holds the
      words of its group, in order, and none is left out. */
  lemma NothingIsLost(input: string)
    ensures var toks, parens, p := Tokens(input), Parens(Mapped(input, true)), ParseSpec(input);
      var head: seq<string> := if StartsWithSido(toks) then [toks[0]] else [];
      var l := LayoutOf(toks[|head|..]);
      && toks == head + (l.sigungu + l.names + l.num + l.rest) && |l.num| <= 1
      && p.sido == (if head != [] then CanonSido(toks[0]).value else "")
      && p.sigungu == Join(l.sigungu)
      && p.emd == Join(OfKind(l.names, Jibun))
      && p.road == Join(OfKind(l.names, Road))
      && p.under == (Markers(l.names) != [])
      && p.extra == Join(parens + OfKind(l.names, Ambiguous) + l.rest)
      && (l.num != [] ==> (p.bldNo == NumberPart(l.num[0]) || p.jibun == NumberPart(l.num[0])))
      && multiset(l.names) == multiset(OfKind(l.names, Road)) + multiset(OfKind(l.names, Jibun))
                              + multiset(OfKind(l.names, Ambiguous)) + multiset(Markers(l.names))
      && forall k: Kind :: IsSubsequence(OfKind(l.names, k), l.names)
  {
    hide Tokens, LayoutOf, CanonSido, Plain, OfKind, Markers, IsSubsequence, Parens, Mapped, Join, NumberPart,
         NameWarnings, NumWarnings;
    var toks := Tokens(input);
    TokensArePlain(input);
    var head: seq<string> := if StartsWithSido(toks) then [toks[0]] else [];
    var body := toks[|head|..];
    assert AllPlain(body);
    assert head + body == toks;
    LayoutGroups(body);
    NamesArePartitioned(LayoutOf(body).names);
    forall k: Kind ensures IsSubsequence(OfKind(LayoutOf(body).names, k), LayoutOf(body).names) {
      KindKeepsOrder(LayoutOf(body).names, k);
    }
    assert head == [] ==> body == toks;
  }

  /** The kind says which of road and town were found, and only an undecided result
      carries its number twice. */
  lemma KindIsCharacterised(input: string)
    ensures var p := ParseSpec(input);
      && (p.kind == Road <==> p.road != "")
      && (p.kind == Jibun <==> p.road == "" && p.emd != "")
      && (p.bldNo != "" && p.jibun != "" ==> p.kind == Ambiguous && p.bldNo == p.jibun)
      && (p.kind == Road ==> p.jibun == "") && (p.kind == Jibun ==> p.bldNo == "")
  {
    hide Tokens, LayoutOf, CanonSido, Plain, OfKind, Parens, Mapped, Join, NumberPart, NameWarnings,
         NumWarnings;
    var toks := Tokens(input);
    TokensArePlain(input);
    var body := if StartsWithSido(toks) then toks[1..] else toks;
    assert AllPlain(body);
    LayoutGroups(body);
    PlainNonempty(LayoutOf(body).names);
    KindHasField(LayoutOf(body).names);
  }
}
