/** The address parser (internal/address/parser.go): a cursor walks over the words
    of the input and fills the fields of the result.  `ParseSpec` says what it
    computes without a cursor: the words fall into five consecutive groups, and each
    field collects the words of its kind. */
module Parser {
  import opened Words
  import opened Numerals
  import opened Dict

  datatype Kind = Ambiguous | Road | Jibun

  datatype Warning =
    | SidoMissing
    | AdminDong(tok: string)
    | Unrecognised(tok: string)
    | BunjiAfterRoad
    | NumberWithoutContext

  datatype Parsed = Parsed(
    sido: string, sigungu: string, emd: string, road: string, under: bool,
    bldNo: string, jibun: string, san: bool, extra: string, kind: Kind, warnings: seq<Warning>)

  const UNDERGROUND: string := "지하"

  // ----- token patterns

  /** Digits, or digits, a hyphen and digits. */
  predicate IsNumber(s: string) {
    var k := DigitsEnd(s);
    k > 0 && (k == |s| || (s[k] == '-' && Digits(s[k + 1..])))
  }

  predicate HasSan(t: string) { t != "" && t[0] == '산' }

  predicate HasBunji(t: string) { HasSuffix(t, "번지") }

  /** The token without the mountain prefix and the lot suffix. */
  function NumberPart(t: string): string {
    var u := if HasSan(t) then t[1..] else t;
    if HasBunji(u) then u[..|u| - 2] else u
  }

  predicate IsNumToken(t: string) { IsNumber(NumberPart(t)) }

  /** One past the last 로 or 길; 0 when there is none. */
  function RoadEnd(t: string): (k: nat)
    ensures k <= |t|
  {
    if t == "" then 0
    else if t[|t| - 1] == '로' || t[|t| - 1] == '길' then |t|
    else RoadEnd(t[..|t| - 1])
  }

  /** A road name with the building number stuck to it. */
  predicate IsGlued(t: string) { RoadEnd(t) >= 2 && IsNumber(t[RoadEnd(t)..]) }

  function Unglue(t: string): seq<string> {
    if IsGlued(t) then [t[..RoadEnd(t)], t[RoadEnd(t)..]] else [t]
  }

  function SplitGluedSpec(toks: seq<string>): seq<string> {
    if toks == [] then [] else Unglue(toks[0]) + SplitGluedSpec(toks[1..])
  }

  method SplitGlued(toks: seq<string>) returns (out: seq<string>)
    ensures out == SplitGluedSpec(toks)
  {
    out := [];
    for i := 0 to |toks|
      invariant out + SplitGluedSpec(toks[i..]) == SplitGluedSpec(toks)
    {
      var t := toks[i];
      assert toks[i..][0] == t && toks[i..][1..] == toks[i + 1..];
      ghost var rest := SplitGluedSpec(toks[i + 1..]);
      assert SplitGluedSpec(toks[i..]) == Unglue(t) + rest;
      assert out + (Unglue(t) + rest) == (out + Unglue(t)) + rest;
      if IsGlued(t) {
        out := out + [t[..RoadEnd(t)], t[RoadEnd(t)..]];
      } else {
        out := out + [t];
      }
    }
  }

  function Last(t: string): char
    requires t != ""
  {
    t[|t| - 1]
  }

  predicate NumberedSuffix(t: string, c: char) {
    |t| >= 2 && Last(t) == c && IsDigit(t[|t| - 2])
  }

  predicate IsTownEnding(c: char) { c == '동' || c == '읍' || c == '면' || c == '리' || c == '가' }

  function ClassifyName(t: string): Kind {
    if |t| < 2 then Ambiguous
    else if NumberedSuffix(t, '가') then Jibun
    else if Last(t) == '로' || Last(t) == '길' then Road
    else if IsTownEnding(Last(t)) then Jibun
    else Ambiguous
  }

  predicate IsSigungu(t: string) {
    (HasSuffix(t, "시") || HasSuffix(t, "군") || HasSuffix(t, "구")) && !IsNumToken(t) && |t| >= 2
  }

  // ----- preprocessing

  /** Position of the first `c`; |s| when there is none. */
  function IndexOf(s: string, c: char): (k: nat)
    ensures k <= |s|
  {
    if s == "" || s[0] == c then 0 else 1 + IndexOf(s[1..], c)
  }

  /** Full-width punctuation and the ideographic space. */
  function Narrow(c: char): char {
    if c == '\U{FF0C}' then ',' else if c == '\U{FF0E}' then '.' else if c == '\U{3000}' then ' ' else c
  }

  function Blank(c: char): char { if c == ',' || c == '.' then ' ' else c }

  function Mapped(s: string, narrow: bool): (r: string)
    ensures |r| == |s|
    ensures forall i :: 0 <= i < |s| ==> r[i] == if narrow then Narrow(s[i]) else Blank(s[i])
  {
    if s == "" then "" else [if narrow then Narrow(s[0]) else Blank(s[0])] + Mapped(s[1..], narrow)
  }

  predicate OpensPair(s: string) {
    s != "" && s[0] == '(' && IndexOf(s, ')') < |s|
  }

  function Parens(s: string): (ps: seq<string>)
    ensures Nonempty(ps)
    decreases |s|
  {
    if s == "" then []
    else if OpensPair(s) then [s[..IndexOf(s, ')') + 1]] + Parens(s[IndexOf(s, ')') + 1..])
    else Parens(s[1..])
  }

  function StripParens(s: string): string
    decreases |s|
  {
    if s == "" then ""
    else if OpensPair(s) then " " + StripParens(s[IndexOf(s, ')') + 1..])
    else [s[0]] + StripParens(s[1..])
  }

  /** An opening parenthesis with a closing one somewhere after it. */
  predicate HasPair(s: string) {
    s != "" && (OpensPair(s) || HasPair(s[1..]))
  }

  function Tokens(input: string): seq<string> {
    SplitGluedSpec(Fields(Mapped(StripParens(Mapped(input, true)), false)))
  }

  // ----- the declarative reading

  /** The consecutive groups the words after the province fall into. */
  datatype Layout = Layout(sigungu: seq<string>, names: seq<string>, num: seq<string>, rest: seq<string>)

  function SigunguCount(body: seq<string>, max: nat): (k: nat)
    ensures k <= max && k <= |body|
  {
    if max == 0 || body == [] || !IsSigungu(body[0]) then 0 else 1 + SigunguCount(body[1..], max - 1)
  }

  function NameCount(toks: seq<string>): (k: nat)
    ensures k <= |toks|
  {
    if toks == [] || IsNumToken(toks[0]) then 0 else 1 + NameCount(toks[1..])
  }

  function LayoutAt(body: seq<string>, b: nat, c: nat): Layout
    requires b <= c <= |body|
  {
    Layout(body[..b], body[b..c],
           if c < |body| then [body[c]] else [],
           if c < |body| then body[c + 1..] else [])
  }

  function LayoutOf(body: seq<string>): Layout {
    var b := SigunguCount(body, 2);
    LayoutAt(body, b, b + NameCount(body[b..]))
  }

  /** The names of one kind, in order; the underground marker is not a name. */
  function OfKind(names: seq<string>, kind: Kind): seq<string> {
    if names == [] then []
    else if names[0] != UNDERGROUND && ClassifyName(names[0]) == kind then
      [names[0]] + OfKind(names[1..], kind)
    else OfKind(names[1..], kind)
  }

  function KindOf(names: seq<string>): Kind {
    if OfKind(names, Road) != [] then Road
    else if OfKind(names, Jibun) != [] then Jibun
    else Ambiguous
  }

  function NameWarnings(names: seq<string>): seq<Warning> {
    if names == [] then []
    else
      var t := names[0];
      (if t == UNDERGROUND then []
       else if ClassifyName(t) == Jibun && NumberedSuffix(t, '동') then [AdminDong(t)]
       else if ClassifyName(t) == Ambiguous then [Unrecognised(t)]
       else []) + NameWarnings(names[1..])
  }

  function NumWarnings(num: seq<string>, kind: Kind): seq<Warning> {
    if num == [] then []
    else (if HasBunji(num[0]) && kind == Road then [BunjiAfterRoad] else [])
         + (if kind == Ambiguous then [NumberWithoutContext] else [])
  }

  /** The result, given the province and whether one is missing. */
  function Render(sido: string, missing: bool, l: Layout, parens: seq<string>): Parsed {
    var kind := KindOf(l.names);
    var num := if l.num == [] then "" else NumberPart(l.num[0]);
    Parsed(
      sido,
      Join(l.sigungu),
      Join(OfKind(l.names, Jibun)),
      Join(OfKind(l.names, Road)),
      UNDERGROUND in l.names,
      if kind == Jibun then "" else num,
      if kind == Road then "" else num,
      l.num != [] && HasSan(l.num[0]),
      Join(parens + OfKind(l.names, Ambiguous) + l.rest),
      kind,
      (if missing then [SidoMissing] else []) + NameWarnings(l.names) + NumWarnings(l.num, kind))
  }

  function ReadTokens(toks: seq<string>, parens: seq<string>): Parsed {
    if toks != [] && CanonSido(toks[0]).Some? then
      Render(CanonSido(toks[0]).value, false, LayoutOf(toks[1..]), parens)
    else
      Render("", toks != [], LayoutOf(toks), parens)
  }

  function ParseSpec(input: string): Parsed {
    ReadTokens(Tokens(input), Parens(Mapped(input, true)))
  }

  // ----- the cursor machine

  const EMPTY: Parsed := Parsed("", "", "", "", false, "", "", false, "", Ambiguous, [])

  /** What the machine does with one word of the name part. */
  function TakeName(p: Parsed, t: string): Parsed {
    if t == UNDERGROUND then p.(under := true)
    else
      match ClassifyName(t)
      case Road => p.(road := Append(p.road, t), kind := Road)
      case Jibun =>
        p.(emd := Append(p.emd, t),
           kind := if p.kind != Road then Jibun else p.kind,
           warnings := if NumberedSuffix(t, '동') then p.warnings + [AdminDong(t)] else p.warnings)
      case Ambiguous =>
        p.(extra := Append(p.extra, t), warnings := p.warnings + [Unrecognised(t)])
  }

  /** What it does with the number. */
  function TakeNumber(p: Parsed, t: string): Parsed {
    var num := NumberPart(t);
    var q := p.(san := p.san || HasSan(t),
                warnings := if HasBunji(t) && p.kind == Road then p.warnings + [BunjiAfterRoad] else p.warnings);
    match p.kind
    case Road => q.(bldNo := num)
    case Jibun => q.(jibun := num)
    case Ambiguous => q.(bldNo := num, jibun := num, warnings := q.warnings + [NumberWithoutContext])
  }

  /** The fields after the name words `names` have been taken. */
  ghost predicate NamesTaken(p: Parsed, p0: Parsed, parens: seq<string>, names: seq<string>) {
    p == p0.(
      emd := Join(OfKind(names, Jibun)),
      road := Join(OfKind(names, Road)),
      under := UNDERGROUND in names,
      extra := Join(parens + OfKind(names, Ambiguous)),
      kind := KindOf(names),
      warnings := p0.warnings + NameWarnings(names))
  }

  lemma {:induction false} OfKindConcat(a: seq<string>, b: seq<string>, kind: Kind)
    ensures OfKind(a + b, kind) == OfKind(a, kind) + OfKind(b, kind)
  {
    if a == [] {
      assert a + b == b;
    } else {
      assert (a + b)[1..] == a[1..] + b;
      OfKindConcat(a[1..], b, kind);
    }
  }

  lemma {:induction false} NameWarningsConcat(a: seq<string>, b: seq<string>)
    ensures NameWarnings(a + b) == NameWarnings(a) + NameWarnings(b)
  {
    if a == [] {
      assert a + b == b;
    } else {
      assert (a + b)[1..] == a[1..] + b;
      NameWarningsConcat(a[1..], b);
    }
  }

  lemma {:induction false} OfKindWords(names: seq<string>, kind: Kind)
    requires Nonempty(names)
    ensures Nonempty(OfKind(names, kind))
  {
    if names != [] { OfKindWords(names[1..], kind); }
  }

  lemma OfKindSnoc(names: seq<string>, t: string, kind: Kind)
    ensures OfKind(names + [t], kind)
            == OfKind(names, kind) + if t != UNDERGROUND && ClassifyName(t) == kind then [t] else []
  {
    OfKindConcat(names, [t], kind);
    assert [t][1..] == [];
  }

  lemma NameWarningsSnoc(w0: seq<Warning>, names: seq<string>, t: string)
    ensures w0 + NameWarnings(names + [t]) == (w0 + NameWarnings(names)) + NameWarnings([t])
    ensures NameWarnings([t]) ==
            if t == UNDERGROUND then []
            else if ClassifyName(t) == Jibun && NumberedSuffix(t, '동') then [AdminDong(t)]
            else if ClassifyName(t) == Ambiguous then [Unrecognised(t)]
            else []
  {
    NameWarningsConcat(names, [t]);
    assert [t][1..] == [];
  }

  lemma AppendOfKind(before: seq<string>, names: seq<string>, t: string, kind: Kind)
    requires t != UNDERGROUND && ClassifyName(t) == kind
    requires Nonempty(names)
    requires Nonempty(before)
    ensures Append(Join(before + OfKind(names, kind)), t) == Join(before + OfKind(names + [t], kind))
  {
    OfKindSnoc(names, t, kind);
    OfKindWords(names, kind);
    AppendJoin(before + OfKind(names, kind), t);
    assert (before + OfKind(names, kind)) + [t] == before + (OfKind(names, kind) + [t]);
  }

  lemma UnchangedOfKind(names: seq<string>, t: string, kind: Kind)
    requires t == UNDERGROUND || ClassifyName(t) != kind
    ensures OfKind(names + [t], kind) == OfKind(names, kind)
  {
    OfKindSnoc(names, t, kind);
  }

  lemma AppendNames(names: seq<string>, t: string, kind: Kind)
    requires t != UNDERGROUND && ClassifyName(t) == kind
    requires Nonempty(names)
    ensures Append(Join(OfKind(names, kind)), t) == Join(OfKind(names + [t], kind))
    ensures OfKind(names + [t], kind) != []
  {
    AppendOfKind([], names, t, kind);
    OfKindSnoc(names, t, kind);
    assert [] + OfKind(names, kind) == OfKind(names, kind);
    assert [] + OfKind(names + [t], kind) == OfKind(names + [t], kind);
  }

  lemma TakeUnderground(p: Parsed, p0: Parsed, parens: seq<string>, names: seq<string>, t: string)
    requires NamesTaken(p, p0, parens, names) && t != ""
    requires Nonempty(names)
    requires Nonempty(parens)
    requires t == UNDERGROUND
    ensures NamesTaken(TakeName(p, t), p0, parens, names + [t])
  {
    NameWarningsSnoc(p0.warnings, names, t);
    UnchangedOfKind(names, t, Road);
    UnchangedOfKind(names, t, Jibun);
    UnchangedOfKind(names, t, Ambiguous);
  }

  lemma TakeRoad(p: Parsed, p0: Parsed, parens: seq<string>, names: seq<string>, t: string)
    requires NamesTaken(p, p0, parens, names) && t != ""
    requires Nonempty(names)
    requires Nonempty(parens)
    requires t != UNDERGROUND && ClassifyName(t) == Road
    ensures NamesTaken(TakeName(p, t), p0, parens, names + [t])
  {
    NameWarningsSnoc(p0.warnings, names, t);
    AppendNames(names, t, Road);
    UnchangedOfKind(names, t, Jibun);
    UnchangedOfKind(names, t, Ambiguous);
  }

  lemma TakeTown(p: Parsed, p0: Parsed, parens: seq<string>, names: seq<string>, t: string)
    requires NamesTaken(p, p0, parens, names) && t != ""
    requires Nonempty(names)
    requires Nonempty(parens)
    requires t != UNDERGROUND && ClassifyName(t) == Jibun
    ensures NamesTaken(TakeName(p, t), p0, parens, names + [t])
  {
    NameWarningsSnoc(p0.warnings, names, t);
    AppendNames(names, t, Jibun);
    UnchangedOfKind(names, t, Road);
    UnchangedOfKind(names, t, Ambiguous);
  }

  lemma TakeOther(p: Parsed, p0: Parsed, parens: seq<string>, names: seq<string>, t: string)
    requires NamesTaken(p, p0, parens, names) && t != ""
    requires Nonempty(names)
    requires Nonempty(parens)
    requires t != UNDERGROUND && ClassifyName(t) == Ambiguous
    ensures NamesTaken(TakeName(p, t), p0, parens, names + [t])
  {
    NameWarningsSnoc(p0.warnings, names, t);
    AppendOfKind(parens, names, t, Ambiguous);
    UnchangedOfKind(names, t, Road);
    UnchangedOfKind(names, t, Jibun);
  }

  /** Taking one more word keeps the fields in step with the words taken. */
  lemma TakeNameStep(p: Parsed, p0: Parsed, parens: seq<string>, names: seq<string>, t: string)
    requires NamesTaken(p, p0, parens, names) && t != ""
    requires Nonempty(names)
    requires Nonempty(parens)
    ensures NamesTaken(TakeName(p, t), p0, parens, names + [t])
  {
    if t == UNDERGROUND {
      TakeUnderground(p, p0, parens, names, t);
    } else {
      match ClassifyName(t) {
        case Road => TakeRoad(p, p0, parens, names, t);
        case Jibun => TakeTown(p, p0, parens, names, t);
        case Ambiguous => TakeOther(p, p0, parens, names, t);
      }
    }
  }

  lemma {:induction false} NoParens(s: string)
    ensures Parens(s) == [] <==> !HasPair(s)
    ensures !HasPair(s) ==> StripParens(s) == s
    decreases |s|
  {
    if s != "" && !OpensPair(s) { NoParens(s[1..]); }
  }

  method TakeSigungu(toks: seq<string>, from: nat) returns (sigungu: string, i: nat)
    requires from <= |toks| && Nonempty(toks)
    ensures i == from + SigunguCount(toks[from..], 2) <= |toks|
    ensures sigungu == Join(toks[from..i])
  {
    sigungu, i := "", from;
    var n := 0;
    while n < 2 && i < |toks|
      invariant n <= 2 && from <= i <= |toks| && i == from + n
      invariant sigungu == Join(toks[from..i])
      invariant SigunguCount(toks[from..], 2) == n + SigunguCount(toks[i..], 2 - n)
    {
      var t := toks[i];
      if IsSigungu(t) {
        AppendJoin(toks[from..i], t);
        assert toks[from..i] + [t] == toks[from..i + 1];
        assert toks[i..][1..] == toks[i + 1..];
        sigungu := Append(sigungu, t);
        i := i + 1;
        n := n + 1;
        continue;
      }
      break;
    }
  }

  /** The name loop stands at `i`: the words from `from` to there have been taken. */
  ghost predicate Reading(p: Parsed, p0: Parsed, parens: seq<string>, toks: seq<string>, from: nat, i: nat)
    requires from <= i <= |toks|
  {
    && NamesTaken(p, p0, parens, toks[from..i])
    && NameCount(toks[from..]) == i - from + NameCount(toks[i..])
  }

  lemma NameCountStep(toks: seq<string>, i: nat)
    requires i < |toks| && !IsNumToken(toks[i])
    ensures NameCount(toks[i..]) == 1 + NameCount(toks[i + 1..])
  {
    assert toks[i..][1..] == toks[i + 1..];
  }

  lemma TakeNameAt(p: Parsed, p0: Parsed, parens: seq<string>, toks: seq<string>, from: nat, i: nat)
    requires from <= i < |toks| && Nonempty(toks) && Nonempty(parens)
    requires NamesTaken(p, p0, parens, toks[from..i])
    ensures NamesTaken(TakeName(p, toks[i]), p0, parens, toks[from..i + 1])
  {
    TakeNameStep(p, p0, parens, toks[from..i], toks[i]);
    assert toks[from..i] + [toks[i]] == toks[from..i + 1];
  }

  lemma ReadingStep(p: Parsed, p0: Parsed, parens: seq<string>, toks: seq<string>, from: nat, i: nat)
    requires from <= i < |toks| && Nonempty(toks) && Reading(p, p0, parens, toks, from, i)
    requires toks[i] == UNDERGROUND || !IsNumToken(toks[i])
    requires Nonempty(parens)
    ensures Reading(TakeName(p, toks[i]), p0, parens, toks, from, i + 1)
  {
    UndergroundIsNoNumber();
    TakeNameAt(p, p0, parens, toks, from, i);
    NameCountStep(toks, i);
  }

  method TakeNames(toks: seq<string>, from: nat, p0: Parsed, ghost parens: seq<string>) returns (p: Parsed, i: nat)
    requires from <= |toks| && Nonempty(toks)
    requires Reading(p0, p0, parens, toks, from, from) && Nonempty(parens)
    ensures i == from + NameCount(toks[from..]) <= |toks|
    ensures Reading(p, p0, parens, toks, from, i)
  {
    p, i := p0, from;
    while i < |toks|
      invariant from <= i <= |toks|
      invariant Reading(p, p0, parens, toks, from, i)
    {
      var t := toks[i];
      if t != UNDERGROUND && IsNumToken(t) {
        break;
      }
      ReadingStep(p, p0, parens, toks, from, i);
      p := TakeName(p, t);
      i := i + 1;
    }
  }

  lemma UndergroundIsNoNumber()
    ensures !IsNumToken(UNDERGROUND)
  {
    assert NumberPart(UNDERGROUND) == UNDERGROUND;
  }

  lemma {:induction false} UnglueWords(toks: seq<string>)
    requires AreWords(toks)
    ensures AreWords(SplitGluedSpec(toks))
  {
    if toks != [] {
      UnglueWords(toks[1..]);
      assert AreWords(Unglue(toks[0]));
    }
  }

  lemma TokensAreWords(input: string)
    ensures AreWords(Tokens(input)) && Nonempty(Tokens(input))
  {
    UnglueWords(Fields(Mapped(StripParens(Mapped(input, true)), false)));
  }

  /** The machine's last moves, from the fields before the name part on. */
  function Finish(p: Parsed, num: seq<string>, rest: seq<string>): Parsed {
    var q := if num == [] then p else TakeNumber(p, num[0]);
    if rest == [] then q else q.(extra := Append(q.extra, Join(rest)))
  }

  lemma ExtraWithRest(before: seq<string>, rest: seq<string>)
    requires Nonempty(before)
    ensures (if rest == [] then Join(before) else Append(Join(before), Join(rest))) == Join(before + rest)
  {
    JoinNonempty(before);
    if rest == [] {
      assert before + rest == before;
    } else if before == [] {
      assert before + rest == rest;
    } else {
      JoinConcat(before, rest);
    }
  }

  /** The fields when the name part begins. */
  function Opening(sido: string, missing: bool, sigungu: string, parens: seq<string>): Parsed {
    EMPTY.(sido := sido, sigungu := sigungu, extra := Join(parens),
           warnings := if missing then [SidoMissing] else [])
  }

  lemma NumberTaken(p: Parsed, num: seq<string>)
    requires p.bldNo == p.jibun == "" && !p.san
    ensures var n := if num == [] then "" else NumberPart(num[0]);
            (if num == [] then p else TakeNumber(p, num[0]))
            == p.(bldNo := if p.kind == Jibun then "" else n,
                  jibun := if p.kind == Road then "" else n,
                  san := num != [] && HasSan(num[0]),
                  warnings := p.warnings + NumWarnings(num, p.kind))
  {
    var w := p.warnings;
    if num == [] {
      assert w + [] == w;
    } else {
      var b: seq<Warning> := if HasBunji(num[0]) && p.kind == Road then [BunjiAfterRoad] else [];
      assert w + b + [NumberWithoutContext] == w + (b + [NumberWithoutContext]);
      assert w + [] == w && b + [] == b;
    }
  }

  lemma FinishRenders(p: Parsed, sido: string, missing: bool, l: Layout, parens: seq<string>)
    requires NamesTaken(p, Opening(sido, missing, Join(l.sigungu), parens), parens, l.names)
    requires Nonempty(l.names) && Nonempty(parens)
    ensures Finish(p, l.num, l.rest) == Render(sido, missing, l, parens)
  {
    OfKindWords(l.names, Ambiguous);
    ExtraWithRest(parens + OfKind(l.names, Ambiguous), l.rest);
    NumberTaken(p, l.num);
  }

  /** A name of a kind makes the field of that kind nonempty. */
  lemma KindHasField(names: seq<string>)
    requires Nonempty(names)
    ensures KindOf(names) == Road <==> Join(OfKind(names, Road)) != ""
    ensures KindOf(names) == Jibun <==> Join(OfKind(names, Road)) == "" && Join(OfKind(names, Jibun)) != ""
  {
    OfKindWords(names, Road);
    OfKindWords(names, Jibun);
    JoinNonempty(OfKind(names, Road));
    JoinNonempty(OfKind(names, Jibun));
  }

  /** The demotion to Ambiguous at the machine's end is never needed. */
  lemma NoDemotion(sido: string, missing: bool, l: Layout, parens: seq<string>)
    requires Nonempty(l.names)
    ensures var r := Render(sido, missing, l, parens);
            && (r.kind == Road <==> r.road != "")
            && (r.kind == Jibun <==> r.road == "" && r.emd != "")
  {
    KindHasField(l.names);
  }

  lemma ReadingStarts(p: Parsed, parens: seq<string>, toks: seq<string>, from: nat)
    requires from <= |toks| && p.emd == p.road == "" && !p.under && p.kind == Ambiguous && p.extra == Join(parens)
    ensures Reading(p, p, parens, toks, from, from)
  {
    assert toks[from..from] == [];
    assert parens + [] == parens;
    assert p.warnings + [] == p.warnings;
  }

  /** The number, if the name loop stopped at one, and what is left after it. */
  method TakeTail(toks: seq<string>, from: nat, p0: Parsed) returns (p: Parsed)
    requires from <= |toks| && (from < |toks| ==> IsNumToken(toks[from]))
    ensures p == Finish(p0, if from < |toks| then [toks[from]] else [], if from < |toks| then toks[from + 1..] else [])
  {
    p := p0;
    var i := from;
    if i < |toks| {
      if IsNumToken(toks[i]) {
        p := TakeNumber(p, toks[i]);
        i := i + 1;
      }
    }
    if i < |toks| {
      var rest := Join(toks[i..]);
      p := p.(extra := Append(p.extra, rest));
    }
  }

  lemma {:induction false} NamesEnd(toks: seq<string>, from: nat)
    requires from <= |toks|
    ensures var i := from + NameCount(toks[from..]);
            i < |toks| ==> IsNumToken(toks[i])
    decreases |toks| - from
  {
    hide IsNumToken;
    if from < |toks| && !IsNumToken(toks[from]) {
      NameCountStep(toks, from);
      NamesEnd(toks, from + 1);
    }
  }

  /** The part of the machine behind the province, started at `from`. */
  method ParseBody(toks: seq<string>, from: nat, p0: Parsed, ghost missing: bool, ghost parens: seq<string>)
    returns (p: Parsed)
    requires from <= |toks| && Nonempty(toks) && Nonempty(parens)
    requires p0 == Opening(p0.sido, missing, "", parens)
    ensures p == Render(p0.sido, missing, LayoutOf(toks[from..]), parens)
  {
    var sigungu: string, i: nat;
    sigungu, i := TakeSigungu(toks, from);
    p := p0.(sigungu := sigungu);
    ghost var start, body, l := i, toks[from..], LayoutOf(toks[from..]);
    ReadingStarts(p, parens, toks, i);
    NamesEnd(toks, i);
    p, i := TakeNames(toks, i, p, parens);
    SlicesOfSlice(toks, from, start, i);
    FinishRenders(p, p0.sido, missing, l, parens);
    p := TakeTail(toks, i, p);
    NoDemotion(p0.sido, missing, l, parens);
    if (p.kind == Road && p.road == "") || (p.kind == Jibun && p.emd == "") {
      p := p.(kind := Ambiguous);
    }
  }

  lemma LayoutAtOfSlice(toks: seq<string>, from: nat, b: nat, c: nat)
    requires from <= b <= c <= |toks|
    ensures LayoutAt(toks[from..], b - from, c - from)
            == Layout(toks[from..b], toks[b..c],
                      if c < |toks| then [toks[c]] else [], if c < |toks| then toks[c + 1..] else [])
  {
  }

  lemma SlicesOfSlice(toks: seq<string>, from: nat, b: nat, c: nat)
    requires from <= b <= c <= |toks|
    requires b == from + SigunguCount(toks[from..], 2) && c == b + NameCount(toks[b..])
    ensures LayoutOf(toks[from..])
            == Layout(toks[from..b], toks[b..c],
                      if c < |toks| then [toks[c]] else [], if c < |toks| then toks[c + 1..] else [])
  {
    hide IsSigungu, IsNumToken, LayoutAt, SigunguCount, NameCount;
    assert toks[from..][b - from..] == toks[b..];
    LayoutAtOfSlice(toks, from, b, c);
  }

  method Preprocess(input: string) returns (s: string, parens: seq<string>)
    ensures s == Mapped(StripParens(Mapped(input, true)), false)
    ensures parens == Parens(Mapped(input, true)) && Nonempty(parens)
  {
    s := Mapped(input, true);
    parens := Parens(s);
    NoParens(s);
    if |parens| > 0 {
      s := StripParens(s);
    }
    s := Mapped(s, false);
  }

  method Parse(input: string) returns (p: Parsed)
    ensures p == ParseSpec(input)
  {
    hide Parens, StripParens, Mapped, Fields, SplitGluedSpec, Render, LayoutOf;
    var s, m := Preprocess(input);
    p := EMPTY.(extra := Join(m));
    var toks := SplitGlued(Fields(s));
    TokensAreWords(input);
    var i := 0;
    if i < |toks| {
      var sido := CanonSido(toks[i]);
      if sido.Some? {
        p := p.(sido := sido.value);
        i := i + 1;
      } else {
        p := p.(warnings := p.warnings + [SidoMissing]);
      }
    }
    assert i == 0 ==> toks[i..] == toks;
    p := ParseBody(toks, i, p, i == 0 && toks != [], m);
  }
}
