/** What the address parser reads (internal/address/parser.go), rule by rule in terms of
    the characters of the input: which words are towns, roads, districts and numbers,
    what is taken out of the text before, and what every field of the result holds. */
module ReadingRules {
  import opened Words
  import opened Numerals
  import opened Dict
  import opened Parser
  import opened RoadKeys
  import opened NormalForm

  // ----- words

  /** The white space at which the text is split. */
  lemma SpaceIs(c: char)
    ensures IsSpace(c) <==>
      c in ['\t', '\n', '\U{000B}', '\U{000C}', '\r', ' ', '\U{0085}', '\U{00A0}', '\U{1680}', '\U{2000}', '\U{2001}',
            '\U{2002}', '\U{2003}', '\U{2004}', '\U{2005}', '\U{2006}', '\U{2007}', '\U{2008}', '\U{2009}', '\U{200A}',
            '\U{2028}', '\U{2029}', '\U{202F}', '\U{205F}', '\U{3000}']
  {
  }

  /** A text without white space is one word, and any white space separates words. */
  lemma {:induction false} FieldsSplit(a: string, c: char, b: string)
    requires IsSpace(c)
    ensures Fields(a + [c] + b) == Fields(a) + Fields(b)
    decreases |a|
  {
    var s := a + [c] + b;
    if a == "" {
      assert s[0] == c && s[1..] == b;
    } else if IsSpace(a[0]) {
      assert s[1..] == a[1..] + [c] + b;
      FieldsSplit(a[1..], c, b);
    } else {
      FieldsSplit(a[WordEnd(a)..], c, b);
      FieldsSplitWord(a, c, b);
    }
  }

  lemma FieldsSplitWord(a: string, c: char, b: string)
    requires a != "" && !IsSpace(a[0]) && IsSpace(c)
    requires var rest := a[WordEnd(a)..]; Fields(rest + [c] + b) == Fields(rest) + Fields(b)
    ensures Fields(a + [c] + b) == Fields(a) + Fields(b)
  {
    hide Fields, IsSpace;
    var w, rest := a[..WordEnd(a)], a[WordEnd(a)..];
    assert a == w + rest;
    assert a + [c] + b == w + (rest + [c] + b);
    assert IsWord(w) && (rest == "" || IsSpace(rest[0]));
    assert (rest + [c] + b)[0] == if rest == "" then c else rest[0];
    FieldsStep(w, rest + [c] + b);
    FieldsStep(w, rest);
  }

  /** A name is a road or a town by its last syllable, and undecided when it is shorter
      than two characters or ends in any other. */
  lemma NameIs(t: string)
    ensures ClassifyName(t) == Road <==> |t| >= 2 && t[|t| - 1] in "로길"
    ensures ClassifyName(t) == Jibun <==> |t| >= 2 && t[|t| - 1] in "동읍면리가"
    ensures UNDERGROUND == "지하"
  {
  }

  lemma DistrictIs(t: string)
    ensures IsSigungu(t) <==> |t| >= 2 && t[|t| - 1] in "시군구"
  {
    hide IsNumToken;
    if IsNumToken(t) { NumTokenEnd(t); }
    if t != "" { assert t[|t| - 1..][0] == t[|t| - 1]; }
  }

  predicate AllDigits(s: string) { s != "" && forall i :: 0 <= i < |s| ==> s[i] in "0123456789" }

  /** Digits, which a hyphen and more digits may follow. */
  predicate MainAndSub(s: string) {
    AllDigits(s) || exists k :: 0 < k < |s| && s[k] == '-' && AllDigits(s[..k]) && AllDigits(s[k + 1..])
  }

  lemma DigitsAre(s: string)
    ensures Digits(s) <==> AllDigits(s)
  {
  }

  lemma {:induction false} DigitsUpTo(s: string, k: nat)
    requires k <= |s| && (forall i :: 0 <= i < k ==> IsDigit(s[i])) && (k < |s| ==> !IsDigit(s[k]))
    ensures DigitsEnd(s) == k
  {
    if k > 0 { DigitsUpTo(s[1..], k - 1); }
  }

  lemma NumberIs(s: string)
    ensures IsNumber(s) <==> MainAndSub(s)
  {
    var e := DigitsEnd(s);
    DigitsEndIs(s);
    if IsNumber(s) && e < |s| {
      DigitsAre(s[..e]);
      DigitsAre(s[e + 1..]);
    }
    if AllDigits(s) { assert e == |s|; }
    if k :| 0 < k < |s| && s[k] == '-' && AllDigits(s[..k]) && AllDigits(s[k + 1..]) {
      assert forall i :: 0 <= i < k ==> s[i] == s[..k][i];
      DigitsUpTo(s, k);
      DigitsAre(s[k + 1..]);
    }
  }

  /** The text of a number word: an optional 산, the number, and an optional 번지. */
  function NumberText(san: bool, num: string, bunji: bool): string {
    (if san then "산" else "") + num + (if bunji then "번지" else "")
  }

  lemma BunjiEnd(t: string)
    ensures HasBunji(t) ==> t != "" && Last(t) == '지'
  {
    if HasBunji(t) { assert t[|t| - 2..][1] == Last(t); }
  }

  lemma LotSuffix(num: string, bunji: bool)
    requires IsNumber(num)
    ensures var u := num + if bunji then "번지" else "";
      HasBunji(u) == bunji && (if bunji then u[..|u| - 2] else u) == num && u[0] == num[0]
  {
    hide IsNumber;
    NumberChars(num);
    if bunji {
      assert (num + "번지")[|num|..] == "번지";
    } else {
      assert num + "" == num;
      BunjiEnd(num);
    }
  }

  lemma NumberWordReads(san: bool, num: string, bunji: bool)
    requires MainAndSub(num)
    ensures var t := NumberText(san, num, bunji);
      IsNumToken(t) && NumberPart(t) == num && HasSan(t) == san && HasBunji(t) == bunji
  {
    NumberIs(num);
    NumberChars(num);
    LotSuffix(num, bunji);
    hide IsNumber, MainAndSub, HasBunji, HasSan, IsDigit;
    var u := num + if bunji then "번지" else "";
    Fronted(san, u);
    TextIs(san, num, bunji);
  }

  lemma TextIs(san: bool, num: string, bunji: bool)
    ensures NumberText(san, num, bunji) == (if san then "산" else "") + (num + if bunji then "번지" else "")
  {
  }

  lemma Fronted(san: bool, u: string)
    requires u != "" && u[0] != '산'
    ensures var t := (if san then "산" else "") + u;
      HasSan(t) == san && (if san then t[1..] else t) == u && HasBunji(t) == HasBunji(u)
  {
    hide HasBunji;
    if san {
      assert ("산" + u)[1..] == u;
      SuffixBehind(u);
    } else {
      assert "" + u == u;
    }
  }

  /** A leading 산 does not change whether a nonempty text ends in 번지. */
  lemma SuffixBehind(u: string)
    requires u != ""
    ensures HasBunji("산" + u) == HasBunji(u)
  {
    var t := "산" + u;
    if |u| >= 2 {
      assert t[|t| - 2..] == u[|u| - 2..];
    } else {
      assert t[|t| - 2..][0] == '산';
    }
  }

  lemma NumberWordIs(t: string)
    requires IsNumToken(t)
    ensures MainAndSub(NumberPart(t)) && t == NumberText(HasSan(t), NumberPart(t), HasBunji(t))
  {
    NumberIs(NumberPart(t));
    NumTokenHolds(t);
    hide IsNumber, MainAndSub, IsNumToken, HasBunji;
    var u := if HasSan(t) then t[1..] else t;
    BunjiIsSuffix(u);
    if HasSan(t) {
      assert t == "산" + u;
      SuffixBehind(u);
    }
    assert "" + NumberPart(t) == NumberPart(t);
    assert u == NumberPart(t) + if HasBunji(t) then "번지" else "";
    TextIs(HasSan(t), NumberPart(t), HasBunji(t));
  }

  lemma BunjiIsSuffix(u: string)
    ensures HasBunji(u) ==> |u| >= 2 && u == u[..|u| - 2] + "번지"
    ensures u + "" == u
  {
  }

  /** A road name of at least two characters and the number stuck to it are split. */
  lemma GluedReads(road: string, num: string)
    requires |road| >= 2 && road[|road| - 1] in "로길" && MainAndSub(num)
    ensures IsGlued(road + num) && Unglue(road + num) == [road, num]
  {
    var t := road + num;
    NumberIs(num);
    NumberChars(num);
    hide IsNumber, MainAndSub;
    RoadEndIs(t);
    assert t[|road| - 1] == road[|road| - 1];
    assert forall i :: |road| <= i < |t| ==> t[i] == num[i - |road|];
    assert RoadEnd(t) == |road|;
    assert t[..|road|] == road && t[|road|..] == num;
  }

  /** No other word is split. */
  lemma GluedIs(t: string)
    ensures IsGlued(t) <==> exists k :: 2 <= k <= |t| && t[k - 1] in "로길" && MainAndSub(t[k..])
    ensures !IsGlued(t) ==> Unglue(t) == [t]
  {
    hide IsNumber, MainAndSub, RoadEnd;
    RoadEndIs(t);
    NumberIs(t[RoadEnd(t)..]);
    assert RoadEnd(t) > 0 ==> t[RoadEnd(t) - 1] in "로길";
    if k :| 2 <= k <= |t| && t[k - 1] in "로길" && MainAndSub(t[k..]) {
      GluedReads(t[..k], t[k..]);
      assert t[..k] + t[k..] == t;
    }
  }

  lemma {:induction false} SplitConcat(a: seq<string>, b: seq<string>)
    ensures SplitGluedSpec(a + b) == SplitGluedSpec(a) + SplitGluedSpec(b)
  {
    hide Unglue;
    if a == [] {
      assert a + b == b;
    } else {
      assert (a + b)[1..] == a[1..] + b;
      SplitConcat(a[1..], b);
    }
  }

  // ----- what is taken out before the words are split

  /** Commas and full stops, narrow or wide, and the ideographic space become blanks. */
  lemma PunctuationIsBlank(s: string, i: nat)
    requires i < |s|
    ensures var t := Mapped(Mapped(s, true), false);
      |t| == |s| && t[i] == if s[i] in ",.，．　" then ' ' else s[i]
  {
    var n := Mapped(s, true);
    assert |n| == |s| && n[i] == Narrow(s[i]);
    assert Mapped(n, false)[i] == Blank(n[i]);
  }

  /** A note in parentheses is collected, and a blank left in its place. */
  lemma {:induction false} NoteIsTaken(a: string, note: string, b: string)
    requires '(' !in a && ')' !in note
    ensures StripParens(a + ("(" + note + ")" + b)) == a + (" " + StripParens(b))
    ensures Parens(a + ("(" + note + ")" + b)) == ["(" + note + ")"] + Parens(b)
    decreases |a|
  {
    var s := a + ("(" + note + ")" + b);
    if a == "" {
      assert s == "(" + note + ")" + b;
      ClosesAt(s, |note| + 1);
      assert s[..|note| + 2] == "(" + note + ")" && s[|note| + 2..] == b;
      assert " " + StripParens(b) == a + (" " + StripParens(b));
    } else {
      assert s[0] == a[0] && s[1..] == a[1..] + ("(" + note + ")" + b);
      assert '(' !in a[1..];
      NoteIsTaken(a[1..], note, b);
      assert [a[0]] + (a[1..] + (" " + StripParens(b))) == a + (" " + StripParens(b));
    }
  }

  lemma {:induction false} ClosesAt(s: string, j: nat)
    requires j < |s| && s[j] == ')' && forall i :: 0 <= i < j ==> s[i] != ')'
    ensures IndexOf(s, ')') == j
  {
    if j > 0 { ClosesAt(s[1..], j - 1); }
  }

  /** A text without a pair of parentheses stays as it is. */
  lemma NoNote(s: string)
    ensures HasPair(s) <==> exists i, j :: 0 <= i < j < |s| && s[i] == '(' && s[j] == ')'
    ensures !HasPair(s) ==> StripParens(s) == s && Parens(s) == []
  {
    NoParens(s);
    if i, j :| 0 <= i < j < |s| && s[i] == '(' && s[j] == ')' { PairAt(s, i, j); }
    if HasPair(s) { var i, j := PairOf(s); }
  }

  lemma {:induction false} PairOf(s: string) returns (i: nat, j: nat)
    requires HasPair(s)
    ensures i < j < |s| && s[i] == '(' && s[j] == ')'
  {
    if OpensPair(s) {
      i, j := 0, IndexOf(s, ')');
      FoundAt(s, ')');
    } else {
      i, j := PairOf(s[1..]);
      i, j := i + 1, j + 1;
    }
  }

  lemma {:induction false} FoundAt(s: string, c: char)
    requires IndexOf(s, c) < |s|
    ensures s[IndexOf(s, c)] == c
  {
    if s[0] != c { FoundAt(s[1..], c); }
  }

  // ----- the words of a text

  predicate Separates(c: char) { IsSpace(c) || c in ",.，．" }

  lemma SeparatorBecomesSpace(c: char)
    requires Separates(c)
    ensures IsSpace(Blank(Narrow(c)))
  {
    BlankIsSpace();
    SpaceIs('　');
  }

  lemma {:induction false} StripBehind(a: string, b: string)
    requires '(' !in a
    ensures StripParens(a + b) == a + StripParens(b) && Parens(a + b) == Parens(b)
  {
    if a == "" {
      assert a + b == b;
    } else {
      assert (a + b)[0] == a[0] && (a + b)[1..] == a[1..] + b;
      assert '(' !in a[1..];
      StripBehind(a[1..], b);
      assert [a[0]] + (a[1..] + StripParens(b)) == a + StripParens(b);
    }
  }

  lemma {:induction false} NarrowedOpens(a: string)
    ensures '(' in Mapped(a, true) <==> '(' in a
    ensures ')' in Mapped(a, true) <==> ')' in a
  {
    if a != "" {
      NarrowedOpens(a[1..]);
      assert a == [a[0]] + a[1..];
    }
  }

  lemma OneMapped(c: char, narrow: bool)
    ensures Mapped([c], narrow) == [if narrow then Narrow(c) else Blank(c)]
  {
    assert [c][1..] == "";
  }

  /** The words of a text without opening parenthesis are those of its narrowed and
      blanked form. */
  lemma TokensPlainly(a: string)
    requires '(' !in a
    ensures Tokens(a) == SplitGluedSpec(Fields(Mapped(Mapped(a, true), false)))
  {
    hide Mapped, Fields, SplitGluedSpec, StripParens, Parens;
    NarrowedOpens(a);
    StripBehind(Mapped(a, true), "");
    NothingStripped();
    assert Mapped(a, true) + "" == Mapped(a, true);
  }

  lemma NothingStripped()
    ensures StripParens("") == "" && Parens("") == []
  {
  }

  /** White space, a comma or a full stop separates the words on its two sides. */
  lemma TokensApart(a: string, c: char, b: string)
    requires '(' !in a && Separates(c)
    ensures Tokens(a + [c] + b) == Tokens(a) + Tokens(b)
  {
    hide Mapped, Fields, SplitGluedSpec, StripParens, Parens, Narrow, Blank, IsSpace, Separates;
    var n := Mapped(a, true);
    var t := StripParens(Mapped(b, true));
    MappedConcat(a + [c], b, true);
    MappedConcat(a, [c], true);
    OneMapped(c, true);
    NarrowedOpens(a);
    SeparatorIsNoParen(c);
    StripBehind(n + [Narrow(c)], Mapped(b, true));
    MappedConcat(n + [Narrow(c)], t, false);
    MappedConcat(n, [Narrow(c)], false);
    OneMapped(Narrow(c), false);
    SeparatorBecomesSpace(c);
    FieldsSplit(Mapped(n, false), Blank(Narrow(c)), Mapped(t, false));
    SplitConcat(Fields(Mapped(n, false)), Fields(Mapped(t, false)));
    TokensPlainly(a);
  }

  lemma SeparatorIsNoParen(c: char)
    requires Separates(c)
    ensures Narrow(c) != '('
  {
  }

  /** A note is no word of the text; it separates the words on its two sides. */
  lemma TokensAroundNote(a: string, note: string, b: string)
    requires '(' !in a && ')' !in note
    ensures Tokens(a + ("(" + note + ")" + b)) == Tokens(a) + Tokens(b)
    ensures Parens(Mapped(a + ("(" + note + ")" + b), true))
            == ["(" + Mapped(note, true) + ")"] + Parens(Mapped(b, true))
  {
    hide Mapped, Fields, SplitGluedSpec, StripParens, Parens, IsSpace;
    var n := Mapped(a, true);
    var t := StripParens(Mapped(b, true));
    NoteIsMapped(a, note, b);
    NarrowedOpens(a);
    NarrowedOpens(note);
    NoteIsTaken(n, Mapped(note, true), Mapped(b, true));
    assert n + (" " + t) == n + " " + t;
    MappedConcat(n + " ", t, false);
    MappedConcat(n, " ", false);
    OneMapped(' ', false);
    BlankIsSpace();
    FieldsSplit(Mapped(n, false), ' ', Mapped(t, false));
    SplitConcat(Fields(Mapped(n, false)), Fields(Mapped(t, false)));
    TokensPlainly(a);
  }

  lemma NoteIsMapped(a: string, note: string, b: string)
    ensures Mapped(a + ("(" + note + ")" + b), true)
            == Mapped(a, true) + ("(" + Mapped(note, true) + ")" + Mapped(b, true))
  {
    hide Mapped;
    MappedConcat(a, "(" + note + ")" + b, true);
    MappedConcat("(" + note + ")", b, true);
    MappedConcat("(" + note, ")", true);
    MappedConcat("(", note, true);
    OneMapped('(', true);
    OneMapped(')', true);
  }

  /** A word without separator and parenthesis is one word, or a road and its number. */
  lemma TokensOfWord(w: string)
    requires w != "" && '(' !in w && forall i :: 0 <= i < |w| ==> !Separates(w[i])
    ensures Tokens(w) == Unglue(w)
  {
    hide Unglue, Mapped, Fields, Tokens, SplitGluedSpec;
    TokensPlainly(w);
    CleanWord(w);
    MappedPlain(w, true);
    MappedPlain(w, false);
    PlainIsOneWord(w);
    OneSplit(w);
  }

  lemma CleanWord(w: string)
    requires w != "" && forall i :: 0 <= i < |w| ==> !Separates(w[i])
    ensures Plain(w)
  {
    SpaceIs('　');
  }

  lemma OneSplit(w: string)
    ensures SplitGluedSpec([w]) == Unglue(w)
  {
    hide Unglue;
    assert [w][1..] == [];
    assert Unglue(w) + [] == Unglue(w);
  }

  lemma TokensOfNothing()
    ensures Tokens("") == []
  {
  }

  // ----- groups

  predicate IsDistrict(t: string) { |t| >= 2 && t[|t| - 1] in "시군구" }

  /** The words of an input: an optional province, at most two districts, the names up
      to the first number, the number, and the rest. */
  ghost predicate Groups(toks: seq<string>, head: seq<string>, districts: seq<string>, names: seq<string>,
                         num: seq<string>, rest: seq<string>) {
    && toks == head + (districts + (names + (num + rest)))
    && |head| <= 1 && (head != [] <==> toks != [] && CanonSido(toks[0]).Some?)
    && |districts| <= 2 && (forall i :: 0 <= i < |districts| ==> IsDistrict(districts[i]))
    && (|districts| < 2 && names + (num + rest) != [] ==> !IsDistrict((names + (num + rest))[0]))
    && (forall i :: 0 <= i < |names| ==> !IsNumToken(names[i]))
    && |num| <= 1 && (num != [] ==> IsNumToken(num[0])) && (num == [] ==> rest == [])
  }

  lemma GroupsAreLayout(toks: seq<string>, head: seq<string>, districts: seq<string>, names: seq<string>,
                        num: seq<string>, rest: seq<string>)
    requires Groups(toks, head, districts, names, num, rest)
    ensures toks[|head|..] == districts + (names + (num + rest))
    ensures LayoutOf(toks[|head|..]) == Layout(districts, names, num, rest)
  {
    hide IsNumToken, IsSigungu, SigunguCount, NameCount, CanonSido;
    var tail := names + (num + rest);
    var body := districts + tail;
    assert toks[|head|..] == body;
    forall i | 0 <= i < |districts| ensures IsSigungu(districts[i]) { DistrictIs(districts[i]); }
    if tail != [] { DistrictIs(tail[0]); }
    SigunguTaken(districts, tail, 2);
    assert body[|districts|..] == tail && body[..|districts|] == districts;
    assert num + rest != [] ==> (num + rest)[0] == num[0];
    NamesTakenUpTo(names, num + rest);
    GroupSlices(districts, names, num, rest);
  }

  lemma GroupSlices(districts: seq<string>, names: seq<string>, num: seq<string>, rest: seq<string>)
    requires |num| <= 1 && (num == [] ==> rest == [])
    ensures LayoutAt(districts + (names + (num + rest)), |districts|, |districts| + |names|)
            == Layout(districts, names, num, rest)
  {
    var body, c := districts + (names + (num + rest)), |districts| + |names|;
    assert body[|districts|..c] == names && body[..|districts|] == districts;
    if num != [] {
      assert num == [num[0]];
      assert body[c] == num[0] && body[c + 1..] == rest;
    }
  }

  /** Every input has such groups. */
  lemma InputHasGroups(input: string) returns (head: seq<string>, districts: seq<string>, names: seq<string>,
                                               num: seq<string>, rest: seq<string>)
    ensures Groups(Tokens(input), head, districts, names, num, rest)
  {
    hide Tokens, CanonSido, IsNumToken, IsSigungu, LayoutOf, Plain;
    var toks := Tokens(input);
    TokensArePlain(input);
    head := if StartsWithSido(toks) then [toks[0]] else [];
    var body := toks[|head|..];
    assert toks == head + body;
    var l := LayoutOf(body);
    LayoutGroups(body);
    LayoutStops(body);
    districts, names, num, rest := l.sigungu, l.names, l.num, l.rest;
    Regroup(districts, names, num, rest);
    forall i | 0 <= i < |districts| ensures IsDistrict(districts[i]) { DistrictIs(districts[i]); }
    if names + (num + rest) != [] { DistrictIs((names + (num + rest))[0]); }
  }

  lemma Regroup(a: seq<string>, b: seq<string>, c: seq<string>, d: seq<string>)
    ensures a + b + c + d == a + (b + (c + d))
  {
  }

  lemma BehindDistricts(body: seq<string>, b: nat, c: nat)
    requires b <= c <= |body|
    ensures var l := LayoutAt(body, b, c); l.names + (l.num + l.rest) == body[b..]
  {
    if c < |body| { assert [body[c]] + body[c + 1..] == body[c..]; }
  }

  /** The district group ends before a word that is none, and no name is a number. */
  ghost predicate Stops(l: Layout) {
    && (|l.sigungu| < 2 && l.names + (l.num + l.rest) != [] ==> !IsSigungu((l.names + (l.num + l.rest))[0]))
    && (forall i :: 0 <= i < |l.names| ==> !IsNumToken(l.names[i]))
  }

  lemma StopsAt(body: seq<string>, b: nat, c: nat)
    requires b <= c <= |body| && (b < 2 && b < |body| ==> !IsSigungu(body[b]))
    requires forall i :: b <= i < c ==> !IsNumToken(body[i])
    ensures Stops(LayoutAt(body, b, c))
  {
    hide IsSigungu, IsNumToken;
    BehindDistricts(body, b, c);
    assert b < |body| ==> body[b..][0] == body[b];
  }

  lemma LayoutStops(body: seq<string>)
    ensures Stops(LayoutOf(body))
  {
    hide IsSigungu, IsNumToken, SigunguCount, NameCount, LayoutAt, Stops;
    var b := SigunguCount(body, 2);
    var c := b + NameCount(body[b..]);
    DistrictsStop(body, 2);
    NamesAreNoNumbers(body[b..]);
    forall i | b <= i < c ensures !IsNumToken(body[i]) { assert body[i] == body[b..][i - b]; }
    StopsAt(body, b, c);
  }

  lemma {:induction false} DistrictsStop(body: seq<string>, max: nat)
    ensures var b := SigunguCount(body, max); b < max && b < |body| ==> !IsSigungu(body[b])
  {
    hide IsSigungu;
    if max > 0 && body != [] && IsSigungu(body[0]) { DistrictsStop(body[1..], max - 1); }
  }

  lemma {:induction false} NamesAreNoNumbers(toks: seq<string>)
    ensures forall i :: 0 <= i < NameCount(toks) ==> !IsNumToken(toks[i])
  {
    hide IsNumToken;
    if toks != [] && !IsNumToken(toks[0]) {
      NamesAreNoNumbers(toks[1..]);
      assert forall i :: 1 <= i < NameCount(toks) ==> toks[i] == toks[1..][i - 1];
    }
  }

  // ----- fields

  predicate IsRoad(t: string) { |t| >= 2 && t[|t| - 1] in "로길" }

  predicate IsTown(t: string) { |t| >= 2 && t[|t| - 1] in "동읍면리가" }

  function Roads(names: seq<string>): seq<string> {
    if names == [] then [] else (if IsRoad(names[0]) then [names[0]] else []) + Roads(names[1..])
  }

  function Towns(names: seq<string>): seq<string> {
    if names == [] then [] else (if IsTown(names[0]) then [names[0]] else []) + Towns(names[1..])
  }

  predicate IsOther(t: string) { t != "지하" && !IsRoad(t) && !IsTown(t) }

  function Others(names: seq<string>): seq<string> {
    if names == [] then [] else (if IsOther(names[0]) then [names[0]] else []) + Others(names[1..])
  }

  /** What is remarked about the names: a numbered 동, and a word that is neither. */
  function Remarks(names: seq<string>): seq<Warning> {
    if names == [] then []
    else
      var t := names[0];
      (if IsTown(t) && t[|t| - 1] == '동' && t[|t| - 2] in "0123456789" then [AdminDong(t)]
       else if IsOther(t) then [Unrecognised(t)]
       else []) + Remarks(names[1..])
  }

  lemma UndergroundIs()
    ensures UNDERGROUND == "지하" && ClassifyName(UNDERGROUND) == Ambiguous
  {
    assert |UNDERGROUND| == 2 && UNDERGROUND[1] == '하';
  }

  lemma OneName(t: string)
    ensures t != UNDERGROUND && ClassifyName(t) == Road <==> IsRoad(t)
    ensures t != UNDERGROUND && ClassifyName(t) == Jibun <==> IsTown(t)
    ensures t != UNDERGROUND && ClassifyName(t) == Ambiguous <==> IsOther(t)
    ensures NumberedSuffix(t, '동') <==> |t| >= 2 && t[|t| - 1] == '동' && t[|t| - 2] in "0123456789"
  {
    UndergroundIs();
    NameIs(t);
  }

  lemma {:induction false} RoadsAre(names: seq<string>)
    ensures OfKind(names, Road) == Roads(names)
  {
    hide ClassifyName, UNDERGROUND, IsRoad, IsTown, IsOther, NumberedSuffix;
    if names != [] {
      RoadsAre(names[1..]);
      OneName(names[0]);
    }
  }

  lemma {:induction false} TownsAre(names: seq<string>)
    ensures OfKind(names, Jibun) == Towns(names)
  {
    hide ClassifyName, UNDERGROUND, IsRoad, IsTown, IsOther, NumberedSuffix;
    if names != [] {
      TownsAre(names[1..]);
      OneName(names[0]);
    }
  }

  lemma {:induction false} OthersAre(names: seq<string>)
    ensures OfKind(names, Ambiguous) == Others(names)
  {
    hide ClassifyName, UNDERGROUND, IsRoad, IsTown, IsOther, NumberedSuffix;
    if names != [] {
      OthersAre(names[1..]);
      OneName(names[0]);
    }
  }

  lemma {:induction false} RemarksAre(names: seq<string>)
    ensures NameWarnings(names) == Remarks(names)
  {
    hide ClassifyName, UNDERGROUND, IsTown, IsOther, NumberedSuffix;
    if names != [] {
      RemarksAre(names[1..]);
      OneRemark(names[0]);
    }
  }

  lemma OneRemark(t: string)
    ensures (if t == UNDERGROUND then []
             else if ClassifyName(t) == Jibun && NumberedSuffix(t, '동') then [AdminDong(t)]
             else if ClassifyName(t) == Ambiguous then [Unrecognised(t)]
             else [])
      == if IsTown(t) && t[|t| - 1] == '동' && t[|t| - 2] in "0123456789" then [AdminDong(t)]
         else if IsOther(t) then [Unrecognised(t)]
         else []
  {
    OneName(t);
    UndergroundIs();
    hide ClassifyName, UNDERGROUND, IsRoad, IsOther, NumberedSuffix;
  }

  predicate EndsInBunji(t: string) { |t| >= 2 && t[|t| - 2] == '번' && t[|t| - 1] == '지' }

  lemma BunjiIs(t: string)
    ensures HasBunji(t) <==> EndsInBunji(t)
  {
    if |t| >= 2 { assert t[|t| - 2..] == [t[|t| - 2], t[|t| - 1]]; }
  }

  /** What every field holds, for every input and its groups. */
  lemma ReadingIs(input: string, head: seq<string>, districts: seq<string>, names: seq<string>, num: seq<string>,
                  rest: seq<string>)
    requires Groups(Tokens(input), head, districts, names, num, rest)
    ensures var p, notes := ParseSpec(input), Parens(Mapped(input, true));
      && p.sido == (if head == [] then "" else CanonSido(head[0]).value)
      && p.sigungu == Join(districts) && p.emd == Join(Towns(names)) && p.road == Join(Roads(names))
      && (p.under <==> "지하" in names)
      && p.extra == Join(notes + Others(names) + rest)
      && p.kind == (if Roads(names) != [] then Road else if Towns(names) != [] then Jibun else Ambiguous)
      && p.bldNo == (if num != [] && p.kind != Jibun then NumberPart(num[0]) else "")
      && p.jibun == (if num != [] && p.kind != Road then NumberPart(num[0]) else "")
      && (p.san <==> num != [] && num[0] != "" && num[0][0] == '산')
      && p.warnings ==
           (if head == [] && Tokens(input) != [] then [SidoMissing] else [])
           + Remarks(names)
           + (if num != [] && p.kind == Road && EndsInBunji(num[0]) then [BunjiAfterRoad]
              else if num != [] && p.kind == Ambiguous then [NumberWithoutContext] else [])
  {
    hide Tokens, Parens, Mapped, LayoutOf, CanonSido, NumberPart, IsNumToken, Join, OfKind, NameWarnings, Roads, Towns,
         Others, Remarks, HasBunji, EndsInBunji;
    GroupsAreLayout(Tokens(input), head, districts, names, num, rest);
    RoadsAre(names);
    TownsAre(names);
    OthersAre(names);
    RemarksAre(names);
    UndergroundIs();
    if num != [] { BunjiIs(num[0]); }
    assert Tokens(input)[0..] == Tokens(input);
    assert head != [] ==> head[0] == Tokens(input)[0];
    hide Groups, UNDERGROUND;
  }

  // ----- the key

  /** A part of the key with a blank behind it, or nothing when it is absent. */
  function Piece(given: bool, part: string): string { if given then part + " " else "" }

  predicate IsTownship(emd: string) { emd != "" && emd[|emd| - 1] in "읍면" }

  lemma TownshipIs(emd: string)
    ensures emd != "" && (HasSuffix(emd, "읍") || HasSuffix(emd, "면")) <==> IsTownship(emd)
  {
    if emd != "" { assert emd[|emd| - 1..] == [emd[|emd| - 1]]; }
  }

  lemma FirstPiece(given: bool, part: string, rest: seq<string>)
    requires rest != []
    ensures Join((if given then [part] else []) + rest) == Piece(given, part) + Join(rest)
  {
    if given {
      JoinConcat([part], rest);
    } else {
      assert [] + rest == rest && "" + Join(rest) == Join(rest);
    }
  }

  /** The pieces of the key in their order. */
  function KeyText(p: Parsed): string {
    Piece(p.sido != "", p.sido) + (Piece(p.sigungu != "", p.sigungu) + (Piece(IsTownship(p.emd), p.emd)
    + (Piece(true, p.road) + (Piece(p.under, "지하") + p.bldNo))))
  }

  /** The key: province, districts, a town only when it is a township, road, the mark of
      an underground address, and number, those that are given with blanks between; none
      without road or number. */
  lemma KeyIs(p: Parsed)
    ensures p.road == "" || p.bldNo == "" ==> RoadKey(p) == ("", false)
    ensures p.road != "" && p.bldNo != "" ==> RoadKey(p) == (KeyText(p), p.sido != "")
  {
    hide Join, HasSuffix, IsTownship, UNDERGROUND, Piece;
    PartsAre(p);
    hide RoadKey;
    var e := if p.under then ["지하"] else [];
    var n := [p.bldNo];
    var c := (if IsTownship(p.emd) then [p.emd] else []) + ([p.road] + (e + n));
    var b := (if p.sigungu != "" then [p.sigungu] else []) + c;
    FirstPiece(p.sido != "", p.sido, b);
    FirstPiece(p.sigungu != "", p.sigungu, c);
    FirstPiece(IsTownship(p.emd), p.emd, [p.road] + (e + n));
    FirstPiece(true, p.road, e + n);
    FirstPiece(p.under, "지하", n);
    JoinOne(p.bldNo);
  }

  lemma PartsAre(p: Parsed)
    ensures p.road == "" || p.bldNo == "" ==> RoadKey(p) == ("", false)
    ensures p.road != "" && p.bldNo != "" ==>
      var e := if p.under then ["지하"] else [];
      var c := (if IsTownship(p.emd) then [p.emd] else []) + ([p.road] + (e + [p.bldNo]));
      var b := (if p.sigungu != "" then [p.sigungu] else []) + c;
      RoadKey(p) == (Join((if p.sido != "" then [p.sido] else []) + b), p.sido != "")
  {
    hide Join, HasSuffix, IsTownship, UNDERGROUND;
    UndergroundIs();
    TownshipIs(p.emd);
    var a := if p.sido != "" then [p.sido] else [];
    var b := if p.sigungu != "" then [p.sigungu] else [];
    var c := if IsTownship(p.emd) then [p.emd] else [];
    var e := if p.under then ["지하"] else [];
    Reassociate(a, b, c, [p.road], e, [p.bldNo]);
  }

  lemma JoinOne(w: string)
    ensures Join([w]) == w
  {
  }
}
