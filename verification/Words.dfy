/** Words of a text: strings are sequences of code points, `Fields` splits at white
    space and `Join` puts words together with single blanks. */
module Words {

  /** White space as Go's unicode.IsSpace has it. */
  predicate IsSpace(c: char) {
    var n := c as int;
    || 9 <= n <= 13 || n == 32 || n == 0x85 || n == 0xA0 || n == 0x1680
    || 0x2000 <= n <= 0x200A || n == 0x2028 || n == 0x2029 || n == 0x202F || n == 0x205F || n == 0x3000
  }

  predicate IsWord(w: string) {
    w != "" && forall i :: 0 <= i < |w| ==> !IsSpace(w[i])
  }

  predicate AreWords(ws: seq<string>) {
    forall i :: 0 <= i < |ws| ==> IsWord(ws[i])
  }

  predicate Nonempty(ws: seq<string>) {
    forall i :: 0 <= i < |ws| ==> ws[i] != ""
  }

  /** Length of the run of non-blanks at the front. */
  function WordEnd(s: string): (k: nat)
    ensures k <= |s|
    ensures forall i :: 0 <= i < k ==> !IsSpace(s[i])
    ensures k < |s| ==> IsSpace(s[k])
  {
    if s == "" || IsSpace(s[0]) then 0 else 1 + WordEnd(s[1..])
  }

  function Fields(s: string): (ws: seq<string>)
    ensures AreWords(ws)
    decreases |s|
  {
    if s == "" then []
    else if IsSpace(s[0]) then Fields(s[1..])
    else [s[..WordEnd(s)]] + Fields(s[WordEnd(s)..])
  }

  function Join(ws: seq<string>): string {
    if ws == [] then ""
    else if |ws| == 1 then ws[0]
    else ws[0] + " " + Join(ws[1..])
  }

  predicate HasSuffix(s: string, t: string) {
    |t| <= |s| && s[|s| - |t|..] == t
  }

  lemma WordEndIs(s: string, k: nat)
    requires k <= |s| && (forall i :: 0 <= i < k ==> !IsSpace(s[i])) && (k < |s| ==> IsSpace(s[k]))
    ensures WordEnd(s) == k
  {
  }

  lemma FieldsStep(w: string, rest: string)
    requires IsWord(w) && (rest == "" || IsSpace(rest[0]))
    ensures Fields(w + rest) == [w] + Fields(rest)
  {
    WordEndIs(w + rest, |w|);
    assert (w + rest)[..|w|] == w && (w + rest)[|w|..] == rest;
  }

  lemma JoinStep(ws: seq<string>)
    requires |ws| > 1
    ensures Join(ws) == ws[0] + (" " + Join(ws[1..]))
  {
    assert ws[0] + " " + Join(ws[1..]) == ws[0] + (" " + Join(ws[1..]));
  }

  lemma FieldsSkip(s: string)
    ensures Fields(" " + s) == Fields(s)
  {
    assert (" " + s)[1..] == s;
  }

  /** Splitting undoes joining. */
  lemma {:induction false} FieldsOfJoin(ws: seq<string>)
    requires AreWords(ws)
    ensures Fields(Join(ws)) == ws
  {
    if |ws| == 1 {
      FieldsStep(ws[0], "");
      assert ws[0] + "" == ws[0];
    } else if |ws| > 1 {
      var rest := ws[1..];
      assert AreWords(rest) by { assert forall i :: 0 <= i < |rest| ==> rest[i] == ws[i + 1]; }
      FieldsOfJoin(rest);
      JoinStep(ws);
      FieldsStep(ws[0], " " + Join(rest));
      FieldsSkip(Join(rest));
    }
  }

  /** Splitting at a blank and splitting the halves is the same. */
  lemma {:induction false} FieldsConcat(a: string, b: string)
    ensures Fields(a + " " + b) == Fields(a) + Fields(b)
    decreases |a|
  {
    var s := a + " " + b;
    if a == "" {
      assert s == " " + b;
      FieldsSkip(b);
    } else if IsSpace(a[0]) {
      assert s[1..] == a[1..] + " " + b;
      FieldsConcat(a[1..], b);
    } else {
      FieldsConcat(a[WordEnd(a)..], b);
      FieldsConcatWord(a, b);
    }
  }

  lemma FieldsConcatWord(a: string, b: string)
    requires a != "" && !IsSpace(a[0])
    requires var rest := a[WordEnd(a)..]; Fields(rest + " " + b) == Fields(rest) + Fields(b)
    ensures Fields(a + " " + b) == Fields(a) + Fields(b)
  {
    hide Fields, IsSpace;
    var w, rest := a[..WordEnd(a)], a[WordEnd(a)..];
    assert a == w + rest;
    assert a + " " + b == w + (rest + " " + b);
    assert IsWord(w) && (rest == "" || IsSpace(rest[0]));
    assert (rest + " " + b)[0] == if rest == "" then ' ' else rest[0];
    BlankIsSpace();
    FieldsStep(w, rest + " " + b);
    FieldsStep(w, rest);
  }

  lemma BlankIsSpace()
    ensures IsSpace(' ')
  {
  }

  function TrimLeft(s: string): string {
    if s != "" && IsSpace(s[0]) then TrimLeft(s[1..]) else s
  }

  function TrimSpace(s: string): string
    decreases |s|
  {
    var t := TrimLeft(s);
    TrimRight(t)
  }

  function TrimRight(s: string): string {
    if s != "" && IsSpace(s[|s| - 1]) then TrimRight(s[..|s| - 1]) else s
  }

  ghost predicate AllSpace(s: string) {
    forall i :: 0 <= i < |s| ==> IsSpace(s[i])
  }

  /** `t` is what is left of `s` between the white space around it. */
  ghost predicate IsTrimmed(t: string, s: string) {
    && (exists pre, post :: AllSpace(pre) && AllSpace(post) && s == pre + (t + post))
    && (t != "" ==> !IsSpace(t[0]) && !IsSpace(t[|t| - 1]))
  }

  lemma {:induction false} TrimLeftIs(s: string) returns (pre: string)
    ensures AllSpace(pre) && s == pre + TrimLeft(s)
    ensures TrimLeft(s) != "" ==> !IsSpace(TrimLeft(s)[0])
  {
    pre := "";
    if s != "" && IsSpace(s[0]) {
      var more := TrimLeftIs(s[1..]);
      pre := [s[0]] + more;
    }
  }

  lemma {:induction false} TrimRightIs(s: string) returns (post: string)
    ensures AllSpace(post) && s == TrimRight(s) + post
    ensures TrimRight(s) != "" ==> !IsSpace(TrimRight(s)[|TrimRight(s)| - 1]) && TrimRight(s)[0] == s[0]
  {
    post := "";
    if s != "" && IsSpace(s[|s| - 1]) {
      var more := TrimRightIs(s[..|s| - 1]);
      post := more + [s[|s| - 1]];
    }
  }

  lemma TrimIs(s: string)
    ensures IsTrimmed(TrimSpace(s), s)
  {
    hide IsSpace;
    var pre := TrimLeftIs(s);
    var post := TrimRightIs(TrimLeft(s));
    assert s == pre + (TrimSpace(s) + post);
  }

  /** Nothing is left exactly of a text of white space alone. */
  lemma BlankTrims(s: string)
    ensures TrimSpace(s) == "" <==> AllSpace(s)
  {
    hide IsSpace, TrimSpace;
    TrimIs(s);
    var t := TrimSpace(s);
    var pre, post :| AllSpace(pre) && AllSpace(post) && s == pre + (t + post);
    if t != "" { assert s[|pre|] == t[0]; }
  }

  lemma {:induction false} JoinConcat(a: seq<string>, b: seq<string>)
    requires a != [] && b != []
    ensures Join(a + b) == Join(a) + " " + Join(b)
  {
    if |a| == 1 {
      assert (a + b)[1..] == b;
    } else {
      assert (a + b)[1..] == a[1..] + b;
      JoinConcat(a[1..], b);
      assert Join(a) == a[0] + " " + Join(a[1..]);
      assert a[0] + " " + (Join(a[1..]) + " " + Join(b)) == (a[0] + " " + Join(a[1..])) + " " + Join(b);
    }
  }

  lemma JoinNonempty(ws: seq<string>)
    requires Nonempty(ws)
    ensures Join(ws) == "" <==> ws == []
  {
  }

  /** A joined text ends the way its last word does. */
  lemma {:induction false} JoinLast(ws: seq<string>)
    requires ws != [] && ws[|ws| - 1] != ""
    ensures Join(ws) != ""
    ensures Join(ws)[|Join(ws)| - 1] == ws[|ws| - 1][|ws[|ws| - 1]| - 1]
  {
    if |ws| > 1 { JoinLast(ws[1..]); }
  }

  /** Appending one piece with a blank in between, as the source's builders do. */
  function Append(s: string, w: string): string {
    if s != "" then s + " " + w else w
  }

  lemma AppendJoin(ws: seq<string>, w: string)
    requires Nonempty(ws)
    ensures Append(Join(ws), w) == Join(ws + [w])
  {
    JoinNonempty(ws);
    if ws != [] {
      JoinConcat(ws, [w]);
    } else {
      assert ws + [w] == [w];
    }
  }

  // ----- occurrences of the opening parenthesis

  function Opens(s: string): nat {
    if s == "" then 0 else (if s[0] == '(' then 1 else 0) + Opens(s[1..])
  }

  function OpensIn(ws: seq<string>): nat {
    if ws == [] then 0 else Opens(ws[0]) + OpensIn(ws[1..])
  }

  lemma {:induction false} OpensConcat(a: string, b: string)
    ensures Opens(a + b) == Opens(a) + Opens(b)
  {
    if a == "" {
      assert a + b == b;
    } else {
      assert (a + b)[1..] == a[1..] + b;
      OpensConcat(a[1..], b);
    }
  }

  lemma {:induction false} OpensInConcat(a: seq<string>, b: seq<string>)
    ensures OpensIn(a + b) == OpensIn(a) + OpensIn(b)
  {
    if a == [] {
      assert a + b == b;
    } else {
      assert (a + b)[1..] == a[1..] + b;
      OpensInConcat(a[1..], b);
    }
  }

  lemma {:induction false} OpensNone(s: string)
    requires forall i :: 0 <= i < |s| ==> s[i] != '('
    ensures Opens(s) == 0
  {
    if s != "" { OpensNone(s[1..]); }
  }

  lemma {:induction false} OpensOfJoin(ws: seq<string>)
    ensures Opens(Join(ws)) == OpensIn(ws)
  {
    if ws != [] {
      OpensOfJoin(ws[1..]);
      if |ws| > 1 {
        OpensConcat(ws[0] + " ", Join(ws[1..]));
        OpensConcat(ws[0], " ");
        OpensNone(" ");
      }
    }
  }

  lemma {:induction false} OpensOfFields(s: string)
    ensures OpensIn(Fields(s)) == Opens(s)
    decreases |s|
  {
    if s != "" {
      if IsSpace(s[0]) {
        OpensOfFields(s[1..]);
      } else {
        var k := WordEnd(s);
        OpensOfFields(s[k..]);
        OpensConcat(s[..k], s[k..]);
        assert s[..k] + s[k..] == s;
      }
    }
  }

  /** Length in UTF-8. */
  function ByteLen(s: string): nat {
    if s == "" then 0
    else
      var n := s[0] as int;
      (if n < 0x80 then 1 else if n < 0x800 then 2 else if n < 0x10000 then 3 else 4) + ByteLen(s[1..])
  }

  lemma FieldsOfPart(part: string, rest: seq<string>)
    requires rest != []
    ensures Fields(Join([part] + rest)) == Fields(part) + Fields(Join(rest))
  {
    hide Fields;
    JoinConcat([part], rest);
    assert Join([part]) == part;
    FieldsConcat(part, Join(rest));
  }

  lemma FieldsAreWords(s: string)
    ensures AreWords(Fields(s))
  {
  }

  lemma NoFields()
    ensures Fields("") == []
  {
  }

  lemma OneWord(w: string)
    requires IsWord(w)
    ensures Fields(w) == [w] && Join([w]) == w
  {
    hide IsWord;
    FieldsStep(w, "");
    NoFields();
    assert w + "" == w;
  }
}
