/** Hangul decomposition (internal/address/jamo.go).
    A precomposed syllable is split by the arithmetic of section 3.12 of the
    Unicode Standard, but emitted as compatibility jamo, in which a leading and a
    trailing consonant are the same code point.  The reader below needs lookahead
    to tell them apart; `RoundTrip` says for exactly which strings it succeeds. */
module Jamo {

  const CHOSEONG: string := "ㄱㄲㄴㄷㄸㄹㅁㅂㅃㅅㅆㅇㅈㅉㅊㅋㅌㅍㅎ"
  const JUNGSEONG: string := "ㅏㅐㅑㅒㅓㅔㅕㅖㅗㅘㅙㅚㅛㅜㅝㅞㅟㅠㅡㅢㅣ"
  // Entry 0 is the rune 0: no trailing consonant.
  const JONGSEONG: string := "\0ㄱㄲㄳㄴㄵㄶㄷㄹㄺㄻㄼㄽㄾㄿㅀㅁㅂㅄㅅㅆㅇㅈㅊㅋㅌㅍㅎ"

  predicate IsSyllable(c: char) { 0xAC00 <= c as int <= 0xD7A3 }

  predicate IsCompatJamo(c: char) { 0x3131 <= c as int <= 0x3163 }

  predicate IsConsonant(c: char) { 0x3131 <= c as int <= 0x314E }

  predicate IsVowel(c: char) { 0x314F <= c as int <= 0x3163 }

  ghost predicate Ascending(table: string) {
    forall i, j :: 0 <= i < j < |table| ==> table[i] < table[j]
  }

  lemma LeadingCode(i: nat)
    requires i < 19
    ensures |CHOSEONG| == 19
    ensures i >= 9 ==> CHOSEONG[i] as int == 0x313C + i
    ensures i < 9 ==> CHOSEONG[i] as int == [0x3131, 0x3132, 0x3134, 0x3137, 0x3138, 0x3139, 0x3141, 0x3142, 0x3143][i]
  {
  }

  lemma TrailingCode(i: nat)
    requires 0 < i < 28
    ensures |JONGSEONG| == 28
    ensures JONGSEONG[i] as int == 0x3130 + i + if i >= 23 then 3 else if i >= 18 then 2 else if i >= 8 then 1 else 0
  {
  }

  lemma MiddleCode(i: nat)
    requires i < 21
    ensures |JUNGSEONG| == 21 && JUNGSEONG[i] as int == 0x314F + i
  {
  }

  /** All three tables are in code point order, so no letter occurs twice in one. */
  lemma TablesAscend()
    ensures |CHOSEONG| == 19 && |JUNGSEONG| == 21 && |JONGSEONG| == 28
    ensures Ascending(CHOSEONG) && Ascending(JONGSEONG)
    ensures forall i :: 0 <= i < 19 ==> IsConsonant(CHOSEONG[i])
    ensures forall i :: 0 < i < 28 ==> IsConsonant(JONGSEONG[i])
    ensures forall i :: 0 <= i < 21 ==> JUNGSEONG[i] as int == 0x314F + i
    ensures JONGSEONG[0] == '\0'
  {
    forall i | 0 <= i < 21 ensures JUNGSEONG[i] as int == 0x314F + i { MiddleCode(i); }
    forall i, j | 0 <= i < j < 28 ensures JONGSEONG[i] < JONGSEONG[j] {
      if i > 0 { TrailingCode(i); }
      TrailingCode(j);
    }
    forall i, j | 0 <= i < j < 19 ensures CHOSEONG[i] < CHOSEONG[j] {
      LeadingCode(i);
      LeadingCode(j);
    }
  }

  // ----- decomposition

  /** The three indices packed into a syllable. */
  function Lead(c: char): (k: nat)
    requires IsSyllable(c)
    ensures k < 19
  {
    (c as int - 0xAC00) / 588
  }

  function Middle(c: char): (k: nat)
    requires IsSyllable(c)
    ensures k < 21
  {
    ((c as int - 0xAC00) % 588) / 28
  }

  function Tail(c: char): (k: nat)
    requires IsSyllable(c)
    ensures k < 28
  {
    (c as int - 0xAC00) % 28
  }

  /** What one rune is written as. */
  function Letters(c: char): (r: string)
    ensures r != ""
  {
    if !IsSyllable(c) then [c]
    else if JONGSEONG[Tail(c)] != '\0' then
      [CHOSEONG[Lead(c)], JUNGSEONG[Middle(c)], JONGSEONG[Tail(c)]]
    else
      [CHOSEONG[Lead(c)], JUNGSEONG[Middle(c)]]
  }

  function Decompose(s: string): string {
    if s == "" then "" else Letters(s[0]) + Decompose(s[1..])
  }

  method WriteRune(r: char) returns (w: string)
    ensures w == Letters(r)
  {
    hide Lead, Middle, Tail;
    if (r as int) < 0xAC00 || r as int > 0xD7A3 {
      w := [r];
    } else {
      w := [CHOSEONG[Lead(r)], JUNGSEONG[Middle(r)]];
      var j := JONGSEONG[Tail(r)];
      if j != '\0' {
        w := w + [j];
      }
    }
  }

  method DecomposeJamo(s: string) returns (b: string)
    ensures b == Decompose(s)
  {
    b := "";
    for i := 0 to |s|
      invariant b + Decompose(s[i..]) == Decompose(s)
    {
      hide Letters;
      assert s[i..][0] == s[i] && s[i..][1..] == s[i + 1..];
      var w := WriteRune(s[i]);
      b := b + w;
    }
  }

  /** The search key of a name: one leading consonant for each syllable. */
  function Initial(c: char): char {
    if IsSyllable(c) then CHOSEONG[(c as int - 0xAC00) / 588] else c
  }

  method Choseong(s: string) returns (b: string)
    ensures |b| == |s|
    ensures forall i :: 0 <= i < |s| ==> b[i] == Initial(s[i]) == Letters(s[i])[0]
  {
    b := "";
    for i := 0 to |s|
      invariant |b| == i
      invariant forall k :: 0 <= k < i ==> b[k] == Initial(s[k]) == Letters(s[k])[0]
    {
      var r := s[i];
      if (r as int) < 0xAC00 || r as int > 0xD7A3 {
        b := b + [r];
      } else {
        b := b + [CHOSEONG[(r as int - 0xAC00) / 588]];
      }
    }
  }

  // ----- composition

  /** Position of a letter in a table from `from` on; |table| when it is absent. */
  function Find(table: string, c: char, from: nat): (k: nat)
    requires from <= |table|
    ensures from <= k <= |table|
    ensures k < |table| ==> table[k] == c
    ensures k == |table| ==> forall i :: from <= i < |table| ==> table[i] != c
    decreases |table| - from
  {
    if from == |table| || table[from] == c then from else Find(table, c, from + 1)
  }

  predicate IsLeading(c: char) { Find(CHOSEONG, c, 0) < 19 }

  predicate IsTrailing(c: char) { Find(JONGSEONG, c, 1) < 28 }

  function Syllable(l: nat, v: nat, t: nat): (c: char)
    requires l < 19 && v < 21 && t < 28
    ensures IsSyllable(c)
  {
    (0xAC00 + (l * 21 + v) * 28 + t) as char
  }

  /** Reads jamo back: a consonant is trailing unless a vowel follows it. */
  ghost function Compose(t: string): string
    decreases |t|
  {
    if t == "" then ""
    else if |t| >= 2 && IsLeading(t[0]) && IsVowel(t[1]) then
      var l, v := Find(CHOSEONG, t[0], 0), t[1] as int - 0x314F;
      if |t| >= 3 && IsTrailing(t[2]) && !StartsWithVowel(t[3..]) then
        [Syllable(l, v, Find(JONGSEONG, t[2], 1))] + Compose(t[3..])
      else
        [Syllable(l, v, 0)] + Compose(t[2..])
    else [t[0]] + Compose(t[1..])
  }

  ghost predicate StartsWithVowel(t: string) { t != "" && IsVowel(t[0]) }

  /** The first rune of `s` and what follows it cannot be told from some other
      text once decomposed: a loose consonant before a loose vowel, an open
      syllable before a loose consonant, or a closed syllable before a loose vowel. */
  ghost predicate HeadClash(s: string) {
    s != "" &&
    if !IsSyllable(s[0]) then IsLeading(s[0]) && StartsWithVowel(s[1..])
    else if Tail(s[0]) == 0 then
      |s| >= 2 && IsTrailing(s[1]) && !StartsWithVowel(s[2..])
    else StartsWithVowel(s[1..])
  }

  ghost predicate ClashFree(s: string) {
    forall i :: 0 <= i < |s| ==> !HeadClash(s[i..])
  }

  ghost predicate JamoFree(s: string) {
    forall i :: 0 <= i < |s| ==> !IsCompatJamo(s[i])
  }

  lemma FindInverts(table: string, k: nat, from: nat)
    requires Ascending(table) && from <= k < |table|
    ensures Find(table, table[k], from) == k
  {
    assert forall i :: 0 <= i < k ==> table[i] < table[k];
  }

  lemma Repack(c: char)
    requires IsSyllable(c)
    ensures Syllable(Lead(c), Middle(c), Tail(c)) == c
  {
    var n := c as int - 0xAC00;
    assert n == (n / 588) * 588 + n % 588;
    assert n % 588 == ((n % 588) / 28) * 28 + n % 28;
  }

  /** Splitting a syllable and applying the composition formula gives it back. */
  lemma SyllableRoundTrip(c: char)
    requires IsSyllable(c)
    ensures var w := Letters(c);
            && |w| == (if Tail(c) == 0 then 2 else 3)
            && IsLeading(w[0]) && IsVowel(w[1])
            && (Tail(c) != 0 ==> IsTrailing(w[2]))
            && Syllable(Find(CHOSEONG, w[0], 0), w[1] as int - 0x314F,
                        if Tail(c) == 0 then 0 else Find(JONGSEONG, w[2], 1)) == c
  {
    TablesAscend();
    Repack(c);
    FindInverts(CHOSEONG, Lead(c), 0);
    if Tail(c) != 0 { FindInverts(JONGSEONG, Tail(c), 1); }
  }

  /** The letters of every syllable, by the arithmetic of section 3.12 of the Unicode
      Standard: a leading consonant, a vowel, and unless it has none a trailing consonant. */
  lemma LettersOf(l: nat, m: nat, t: nat)
    requires l < 19 && m < 21 && t < 28
    ensures var c := (0xAC00 + (l * 21 + m) * 28 + t) as char;
      && '가' <= c <= '힣'
      && |CHOSEONG| == 19 && |JUNGSEONG| == 21 && |JONGSEONG| == 28
      && Letters(c) == [CHOSEONG[l], JUNGSEONG[m]] + if t == 0 then [] else [JONGSEONG[t]]
  {
    hide Lead, Middle, Tail;
    IndicesOf(l, m, t);
    TablesAscend();
    if t > 0 { TrailingCode(t); }
    hide JONGSEONG, CHOSEONG, JUNGSEONG, Ascending;
  }

  lemma IndicesOf(l: nat, m: nat, t: nat)
    requires l < 19 && m < 21 && t < 28
    ensures var c := (0xAC00 + (l * 21 + m) * 28 + t) as char;
      IsSyllable(c) && Lead(c) == l && Middle(c) == m && Tail(c) == t
  {
    var n := (l * 21 + m) * 28 + t;
    assert n == l * 588 + (m * 28 + t) && m * 28 + t < 588;
    assert n / 588 == l && n % 588 == m * 28 + t;
    assert (m * 28 + t) / 28 == m && n % 28 == t;
  }

  lemma OthersStay(c: char)
    requires c < '가' || '힣' < c
    ensures Letters(c) == [c]
  {
  }

  lemma VowelsAreNotLeading(c: char)
    requires IsVowel(c)
    ensures !IsLeading(c) && !IsTrailing(c)
  {
    TablesAscend();
  }

  /** Decomposition never moves a vowel to the front. */
  lemma DecomposeHead(s: string)
    ensures StartsWithVowel(Decompose(s)) == StartsWithVowel(s)
    ensures Decompose(s) == "" <==> s == ""
  {
    if s != "" && IsSyllable(s[0]) {
      SyllableRoundTrip(s[0]);
      if IsVowel(Letters(s[0])[0]) { VowelsAreNotLeading(Letters(s[0])[0]); }
    }
  }

  /** `r` is what is read back from `s`, and the first rune survives exactly
      when it does not clash. */
  ghost predicate HeadSurvives(s: string, r: string, rest: string)
    requires s != ""
  {
    if HeadClash(s) then r != "" && r[0] != s[0] else r == [s[0]] + rest
  }

  /** One step of the reader on decomposed text: it recovers the first rune
      exactly when that rune does not clash with what follows it. */
  lemma ComposeStep(s: string)
    requires s != ""
    ensures HeadSurvives(s, Compose(Decompose(s)), Compose(Decompose(s[1..])))
  {
    DecomposeHead(s[1..]);
    if !IsSyllable(s[0]) {
      assert Decompose(s) == [s[0]] + Decompose(s[1..]);
      ReadLoose(s[0], Decompose(s[1..]));
    } else if Tail(s[0]) != 0 {
      ComposeClosed(s);
    } else {
      ComposeOpen(s);
    }
  }

  lemma ComposeClosed(s: string)
    requires s != "" && IsSyllable(s[0]) && Tail(s[0]) != 0
    ensures HeadSurvives(s, Compose(Decompose(s)), Compose(Decompose(s[1..])))
  {
    hide Letters, IsLeading, IsTrailing, Syllable, Compose;
    DecomposeHead(s[1..]);
    SyllableRoundTrip(s[0]);
    ReadClosed(Letters(s[0]), Decompose(s[1..]), s[0]);
  }

  lemma ComposeOpen(s: string)
    requires s != "" && IsSyllable(s[0]) && Tail(s[0]) == 0
    ensures HeadSurvives(s, Compose(Decompose(s)), Compose(Decompose(s[1..])))
  {
    hide Letters, IsLeading, IsTrailing, Syllable, Compose;
    SyllableRoundTrip(s[0]);
    OpenSyllableStep(s, Letters(s[0]) + Decompose(s[1..]));
    ReadOpen(Letters(s[0]), Decompose(s[1..]), s[0]);
  }

  lemma ReadLoose(c: char, rest: string)
    requires !IsSyllable(c)
    ensures var r := Compose([c] + rest);
            if IsLeading(c) && StartsWithVowel(rest) then r != "" && r[0] != c
            else r == [c] + Compose(rest)
  {
    assert ([c] + rest)[1..] == rest;
  }

  lemma ReadClosed(w: string, rest: string, c: char)
    requires |w| == 3 && IsLeading(w[0]) && IsVowel(w[1]) && IsTrailing(w[2])
    requires c == Syllable(Find(CHOSEONG, w[0], 0), w[1] as int - 0x314F, Find(JONGSEONG, w[2], 1))
    ensures var r := Compose(w + rest);
            if StartsWithVowel(rest) then r != "" && r[0] != c
            else r == [c] + Compose(rest)
  {
    var t := w + rest;
    assert t[3..] == rest && t[0] == w[0] && t[1] == w[1] && t[2] == w[2];
  }

  lemma ReadOpen(w: string, rest: string, c: char)
    requires |w| == 2 && IsLeading(w[0]) && IsVowel(w[1])
    requires c == Syllable(Find(CHOSEONG, w[0], 0), w[1] as int - 0x314F, 0)
    ensures var t := w + rest; var r := Compose(t);
            if |t| >= 3 && IsTrailing(t[2]) && !StartsWithVowel(t[3..]) then r != "" && r[0] != c
            else r == [c] + Compose(rest)
  {
    var t := w + rest;
    assert t[2..] == rest && t[0] == w[0] && t[1] == w[1];
  }

  /** An open syllable takes no consonant from a following syllable, because the
      consonant is then followed by a vowel. */
  lemma OpenSyllableStep(s: string, t: string)
    requires s != "" && IsSyllable(s[0]) && Tail(s[0]) == 0
    requires t == Letters(s[0]) + Decompose(s[1..]) && |Letters(s[0])| == 2
    ensures (|t| >= 3 && IsTrailing(t[2]) && !StartsWithVowel(t[3..])) == HeadClash(s)
  {
    if |s| >= 2 {
      var c, rest := s[1], Decompose(s[2..]);
      assert s[1..][1..] == s[2..];
      assert t[2..] == Letters(c) + rest;
      DecomposeHead(s[2..]);
      if IsSyllable(c) {
        SyllableRoundTrip(c);
        assert t[3] == Letters(c)[1];
        TablesAscend();
      } else {
        assert t[2] == c && t[3..] == rest;
      }
    }
  }

  /** The reader restores a text if and only if no rune in it clashes. */
  lemma {:induction false} RoundTrip(s: string)
    ensures Compose(Decompose(s)) == s <==> ClashFree(s)
  {
    if s != "" {
      ComposeStep(s);
      RoundTrip(s[1..]);
      assert s == [s[0]] + s[1..];
      assert s[0..] == s;
      assert forall i :: 0 <= i < |s| - 1 ==> s[1..][i..] == s[i + 1..];
      if ClashFree(s) {
        assert ClashFree(s[1..]);
      } else {
        var i :| 0 <= i < |s| && HeadClash(s[i..]);
        if i > 0 { assert s[1..][i - 1..] == s[i..]; }
      }
    }
  }

  /** Text without compatibility jamo never clashes, so on it decomposition is
      uniquely decodable although trailing consonants are optional. */
  lemma UniquelyDecodable(s: string)
    requires JamoFree(s)
    ensures Compose(Decompose(s)) == s
  {
    hide Compose, Decompose, HeadClash;
    RoundTrip(s);
    forall i | 0 <= i < |s| ensures !HeadClash(s[i..]) {
      assert forall k :: 0 <= k < |s[i..]| ==> s[i..][k] == s[i + k];
      NoHeadClash(s[i..]);
    }
  }

  lemma NoHeadClash(s: string)
    requires s != "" && JamoFree(s)
    ensures !HeadClash(s)
  {
    TablesAscend();
    assert !IsCompatJamo(s[0]);
    assert |s| > 1 ==> !IsCompatJamo(s[1]);
  }

  lemma Injective(s: string, t: string)
    requires ClashFree(s) && ClashFree(t) && Decompose(s) == Decompose(t)
    ensures s == t
  {
    RoundTrip(s);
    RoundTrip(t);
  }

  /** Loose jamo do collide: an open syllable and a loose consonant decompose
      like the closed syllable. */
  lemma LooseJamoCollide()
    ensures "가ㄱ" != "각" && Decompose("가ㄱ") == Decompose("각") && HeadClash("가ㄱ")
  {
    TablesAscend();
    assert Letters('각') == "ㄱㅏㄱ" && Letters('가') == "ㄱㅏ";
    assert "가ㄱ"[1..] == "ㄱ" && "ㄱ"[1..] == "" && "각"[1..] == "";
    assert Decompose("ㄱ") == "ㄱ";
    assert Decompose("가ㄱ") == "ㄱㅏㄱ";
    assert JONGSEONG[1] == 'ㄱ';
    assert "가ㄱ"[2..] == "";
  }
}
