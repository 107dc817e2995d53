/** The LIKE operator of SQL, as the suffix lookup of geocode.go and the monthly
    delete of landsales use it. */
module SqlLike {
  import opened Words

  /** SQL's LIKE: % any text, _ any character, \\ takes the next character literally. */
  predicate Like(pat: string, s: string)
    decreases |pat|, |s|
  {
    if pat == "" then s == ""
    else if pat[0] == '%' then Like(pat[1..], s) || (s != "" && Like(pat, s[1..]))
    else if pat[0] == '_' then s != "" && Like(pat[1..], s[1..])
    else if pat[0] == '\\' then |pat| >= 2 && s != "" && s[0] == pat[1] && Like(pat[2..], s[1..])
    else s != "" && s[0] == pat[0] && Like(pat[1..], s[1..])
  }

  predicate IsMeta(c: char) { c == '%' || c == '_' || c == '\\' }

  predicate NoMeta(s: string) {
    forall i :: 0 <= i < |s| ==> !IsMeta(s[i])
  }

  lemma {:induction false} LikeLiteral(lit: string, s: string)
    requires NoMeta(lit)
    ensures Like(lit, s) <==> s == lit
  {
    if lit != "" {
      assert !IsMeta(lit[0]);
      if s != "" {
        LikeLiteral(lit[1..], s[1..]);
        assert s == [s[0]] + s[1..] && lit == [lit[0]] + lit[1..];
      }
    }
  }

  lemma {:induction false} LikeSuffix(lit: string, s: string)
    requires NoMeta(lit)
    ensures Like("%" + lit, s) <==> HasSuffix(s, lit)
    decreases |s|
  {
    assert ("%" + lit)[1..] == lit;
    LikeLiteral(lit, s);
    if s != "" {
      LikeSuffix(lit, s[1..]);
      if |lit| < |s| { assert s[1..][|s| - 1 - |lit|..] == s[|s| - |lit|..]; }
      if |lit| == |s| { assert s[0..] == s; }
    } else if lit == "" {
      assert s[0..] == "";
    }
  }

  /** How each kind of pattern matches: a percent sign any stretch, an underscore any one
      character, a backslash the next character itself, and any other character itself. */
  lemma {:induction false} LikeMeans(p: string, c: char, s: string)
    ensures Like("", s) <==> s == ""
    ensures Like("%" + p, s) <==> exists k :: 0 <= k <= |s| && Like(p, s[k..])
    ensures Like("_" + p, s) <==> |s| >= 1 && Like(p, s[1..])
    ensures Like("\\" + ([c] + p), s) <==> |s| >= 1 && s[0] == c && Like(p, s[1..])
    ensures !Like("\\", s)
    ensures c !in "%_\\" ==> (Like([c] + p, s) <==> |s| >= 1 && s[0] == c && Like(p, s[1..]))
  {
    PercentMeans(p, s);
    assert ("_" + p)[1..] == p && ([c] + p)[1..] == p;
    assert ("\\" + ([c] + p))[2..] == p;
  }

  lemma {:induction false} PercentMeans(p: string, s: string)
    ensures Like("%" + p, s) <==> exists k :: 0 <= k <= |s| && Like(p, s[k..])
    decreases |s|
  {
    var pat := "%" + p;
    assert pat[1..] == p && s[0..] == s;
    if s == "" {
      if k :| 0 <= k <= |s| && Like(p, s[k..]) { assert k == 0; }
    } else {
      PercentMeans(p, s[1..]);
      if k :| 0 <= k <= |s[1..]| && Like(p, s[1..][k..]) { assert s[1..][k..] == s[k + 1..]; }
      if k :| 1 <= k <= |s| && Like(p, s[k..]) { assert s[1..][k - 1..] == s[k..]; }
    }
  }

  /** A text that a pattern with metacharacters matches although it differs. */
  function Sample(pat: string): string
    decreases |pat|
  {
    if pat == "" then ""
    else if pat[0] == '%' || pat[0] == '_' then "가" + Sample(pat[1..])
    else if pat[0] == '\\' then (if |pat| >= 2 then [pat[1]] + Sample(pat[2..]) else "")
    else [pat[0]] + Sample(pat[1..])
  }

  predicate Dangling(pat: string)
    decreases |pat|
  {
    pat != "" &&
    if pat[0] == '\\' then |pat| == 1 || Dangling(pat[2..]) else Dangling(pat[1..])
  }

  lemma {:induction false} LikeSample(pat: string)
    requires !Dangling(pat)
    ensures Like(pat, Sample(pat))
    ensures |Sample(pat)| <= |pat| <= 2 * |Sample(pat)|
    ensures !NoMeta(pat) ==> Sample(pat) != pat
    ensures NoMeta(pat) ==> Sample(pat) == pat
    decreases |pat|
  {
    if pat != "" {
      var u := Sample(pat);
      if pat[0] == '\\' {
        LikeSample(pat[2..]);
        assert u[1..] == Sample(pat[2..]);
      } else {
        LikeSample(pat[1..]);
        assert u[1..] == Sample(pat[1..]);
        assert pat == [pat[0]] + pat[1..];
        if !IsMeta(pat[0]) && !NoMeta(pat) {
          var i :| 0 <= i < |pat| && IsMeta(pat[i]);
          assert pat[1..][i - 1] == pat[i];
        }
      }
    }
  }

  lemma {:induction false} DanglingMatchesNothing(pat: string, s: string)
    requires Dangling(pat)
    ensures !Like(pat, s)
    decreases |pat|, |s|
  {
    if pat[0] == '%' {
      DanglingMatchesNothing(pat[1..], s);
      if s != "" { DanglingMatchesNothing(pat, s[1..]); }
    } else if pat[0] == '\\' {
      if |pat| >= 2 && s != "" { DanglingMatchesNothing(pat[2..], s[1..]); }
    } else if s != "" {
      DanglingMatchesNothing(pat[1..], s[1..]);
    }
  }

  /** The pattern `lit%` finds every text that starts with a literal free of escapes ... */
  lemma {:induction false} PrefixIsFound(lit: string, s: string)
    requires '\\' !in lit && lit <= s
    ensures Like(lit + "%", s)
  {
    if lit == "" {
      AnythingMatches(s);
      assert lit + "%" == "%";
    } else {
      PrefixIsFound(lit[1..], s[1..]);
      assert (lit + "%")[1..] == lit[1..] + "%";
      if lit[0] == '%' { PercentAbsorbs(lit[1..] + "%", s); }
    }
  }

  lemma {:induction false} AnythingMatches(s: string)
    ensures Like("%", s)
  {
    if s != "" { AnythingMatches(s[1..]); }
    assert "%"[1..] == "";
  }

  lemma PercentAbsorbs(pat: string, s: string)
    requires s != "" && Like(pat, s[1..])
    ensures Like("%" + pat, s)
  {
    assert ("%" + pat)[1..] == pat;
    assert Like("%" + pat, s[1..]);
  }

  /** ... and, without metacharacters, no other text. */
  lemma {:induction false} PrefixIsExact(lit: string, s: string)
    requires NoMeta(lit)
    ensures Like(lit + "%", s) <==> lit <= s
  {
    if lit == "" {
      AnythingMatches(s);
      assert lit + "%" == "%";
    } else {
      assert !IsMeta(lit[0]);
      assert (lit + "%")[1..] == lit[1..] + "%";
      if s != "" {
        PrefixIsExact(lit[1..], s[1..]);
        assert s == [s[0]] + s[1..] && lit == [lit[0]] + lit[1..];
      }
    }
  }

  // ----- patterns in pieces

  lemma {:induction false} NotDangling(pat: string)
    requires pat != "" && pat[|pat| - 1] != '\\'
    ensures !Dangling(pat)
    decreases |pat|
  {
    if pat[0] == '\\' {
      if |pat| > 2 { NotDangling(pat[2..]); }
    } else if |pat| > 1 {
      NotDangling(pat[1..]);
    }
  }

  /** A pattern finds its own text unless it escapes. */
  lemma {:induction false} LikeItself(pat: string)
    requires '\\' !in pat
    ensures Like(pat, pat)
  {
    if pat != "" { LikeItself(pat[1..]); }
  }

  /** The text of the first pattern and then that of the second. */
  lemma {:induction false} LikeConcat(a: string, b: string, s: string, t: string)
    requires !Dangling(a) && Like(a, s) && Like(b, t)
    ensures Like(a + b, s + t)
    decreases |a|, |s|
  {
    if a == "" {
      assert a + b == b && s + t == t;
    } else {
      assert (a + b)[1..] == a[1..] + b;
      assert s != "" ==> (s + t)[1..] == s[1..] + t;
      if a[0] == '%' {
        if Like(a[1..], s) { LikeConcat(a[1..], b, s, t); } else { LikeConcat(a, b, s[1..], t); }
      } else if a[0] == '\\' {
        assert (a + b)[2..] == a[2..] + b;
        LikeConcat(a[2..], b, s[1..], t);
      } else {
        LikeConcat(a[1..], b, s[1..], t);
      }
    }
  }

  /** A text of two patterns in a row falls into a text of each. */
  lemma {:induction false} LikeSplit(a: string, b: string, t: string) returns (t1: string, t2: string)
    requires !Dangling(a) && Like(a + b, t)
    ensures t == t1 + t2 && Like(a, t1) && Like(b, t2)
    decreases |a|, |t|
  {
    if a == "" {
      t1, t2 := "", t;
      assert a + b == b && t1 + t2 == t;
    } else {
      assert (a + b)[1..] == a[1..] + b;
      if a[0] == '%' && Like(a[1..] + b, t) {
        t1, t2 := LikeSplit(a[1..], b, t);
      } else {
        var u: string;
        if a[0] == '%' {
          u, t2 := LikeSplit(a, b, t[1..]);
        } else if a[0] == '\\' {
          assert (a + b)[2..] == a[2..] + b;
          u, t2 := LikeSplit(a[2..], b, t[1..]);
        } else {
          u, t2 := LikeSplit(a[1..], b, t[1..]);
        }
        t1 := [t[0]] + u;
        assert t1[1..] == u;
        assert t == [t[0]] + t[1..];
        assert [t[0]] + (u + t2) == t1 + t2;
      }
    }
  }

  /** A pattern that ends in a plain character finds only texts that end in it. */
  lemma {:induction false} LikeEnds(pat: string, s: string)
    requires pat != "" && !Dangling(pat) && !IsMeta(pat[|pat| - 1]) && Like(pat, s)
    ensures s != "" && s[|s| - 1] == pat[|pat| - 1]
    decreases |pat|, |s|
  {
    if pat[0] == '%' {
      if Like(pat[1..], s) { LikeEnds(pat[1..], s); } else { LikeEnds(pat, s[1..]); }
    } else if pat[0] == '\\' {
      if |pat| > 2 { LikeEnds(pat[2..], s[1..]); }
    } else if |pat| > 1 {
      LikeEnds(pat[1..], s[1..]);
    }
  }

  lemma {:induction false} PercentSkips(pat: string, front: string, s: string)
    requires Like(pat, s)
    ensures Like("%" + pat, front + s)
  {
    assert ("%" + pat)[1..] == pat;
    if front == "" {
      assert front + s == s;
    } else {
      PercentSkips(pat, front[1..], s);
      assert (front + s)[1..] == front[1..] + s;
    }
  }

  /** Every text that ends in a pattern free of escapes is found by it. */
  lemma SuffixIsFound(pat: string, s: string)
    requires '\\' !in pat && HasSuffix(s, pat)
    ensures Like("%" + pat, s)
  {
    LikeItself(pat);
    PercentSkips(pat, s[..|s| - |pat|], pat);
    assert s[..|s| - |pat|] + pat == s;
  }
}
