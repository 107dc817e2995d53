/** When a partial key that is used as a pattern (internal/geocode/geocode.go, roadSuffix)
    tells the stored keys (internal/etl/entrance/load.go, Norm) apart as it should. */
module Patterns {
  import opened Words
  import opened Numerals
  import opened Dict
  import opened Parser
  import opened RoadKeys
  import opened NormalForm
  import opened SqlLike
  import opened Geocode
  import Entrance

  /** The pattern of a partial key selects exactly the stored keys whose words end in the
      partial key's and go on in front. */
  ghost predicate ExactOnStored(partial: string, pw: seq<string>) {
    forall norm :: IsStored(norm) ==> (Finds(partial, norm) <==> IsProperSuffix(pw, Fields(norm)))
  }

  predicate Finds(partial: string, norm: string) {
    Like("%" + (" " + partial), norm)
  }

  // ----- the words of a stored key

  /** The key a stored text is printed from. */
  lemma StoredKey(norm: string) returns (k: Key)
    requires IsStored(norm)
    ensures WellFormed(k) && |k.sido| == 1 && k.emd == [] && !HasSuffix(k.num, "-0")
    ensures norm == Printed(k) && Fields(norm) == KeyWords(k)
  {
    hide Entrance.WellFormedRow, Entrance.Norm, WellFormed, Fields, KeyWords, Join;
    var sido, sigungu, road, under, bon, bu :|
      Entrance.WellFormedRow(sido, sigungu, road, under, bon, bu)
      && norm == Entrance.Norm(sido, sigungu, road, under, bon, bu);
    k := Entrance.RowKey(sido, sigungu, road, under, bon, bu);
    Entrance.RowIsKey(sido, sigungu, road, under, bon, bu);
    RowShape(sido, sigungu, road, under, bon, bu);
    WordsOfKey(k);
    Entrance.PlainAreWords(KeyWords(k));
    FieldsOfJoin(KeyWords(k));
  }

  lemma RowShape(sido: string, sigungu: string, road: string, under: string, bon: string, bu: string)
    requires Entrance.WellFormedRow(sido, sigungu, road, under, bon, bu)
    ensures var k := Entrance.RowKey(sido, sigungu, road, under, bon, bu);
      |k.sido| == 1 && k.emd == [] && !HasSuffix(k.num, "-0")
  {
    hide Fields, SIDO_CANON, AreSigungu, AreOfKind, AllPlain;
    NumberEnd(bon, bu);
  }

  lemma NumberEnd(bon: string, bu: string)
    requires Digits(bon) && (bu == "" || Digits(bu))
    ensures !HasSuffix(Entrance.Number(bon, bu), "-0")
  {
    var num := Entrance.Number(bon, bu);
    if num == bon {
      assert |num| >= 2 ==> IsDigit(bon[|bon| - 2]);
    } else {
      assert num[|num| - 1] == bu[|bu| - 1];
      if |bu| >= 2 { assert num[|num| - 2] == bu[|bu| - 2] && IsDigit(bu[|bu| - 2]); }
      assert |bu| == 1 ==> bu == [bu[0]];
    }
    ZeroSubChars(num);
  }

  lemma ZeroSubChars(num: string)
    ensures HasSuffix(num, "-0") <==> |num| >= 2 && num[|num| - 2] == '-' && num[|num| - 1] == '0'
  {
    if |num| >= 2 { assert num[|num| - 2..] == [num[|num| - 2], num[|num| - 1]]; }
  }

  /** A number that does not end in -0 is the number of some row. */
  lemma NumberOfRow(num: string) returns (bon: string, bu: string)
    requires IsNumber(num) && !HasSuffix(num, "-0")
    ensures Digits(bon) && (bu == "" || Digits(bu)) && Entrance.Number(bon, bu) == num
  {
    var k := DigitsEnd(num);
    DigitsEndIs(num);
    if k == |num| {
      bon, bu := num, "";
    } else {
      bon, bu := num[..k], num[k + 1..];
      assert num == bon + "-" + bu;
      ZeroSubChars(num);
      assert num[|num| - 1] == bu[|bu| - 1] && num[k] == '-' && |num| == k + 1 + |bu|;
    }
  }

  /** Every key of a province, without town and with such a number, is stored for some row. */
  lemma KeyIsStored(k: Key)
    requires WellFormed(k) && |k.sido| == 1 && k.emd == [] && !HasSuffix(k.num, "-0")
    ensures IsStored(Printed(k)) && Fields(Printed(k)) == KeyWords(k)
  {
    hide Fields, Plain, IsSigungu, ClassifyName, SIDO_CANON, CanonSido, Join, Digits, Entrance.Norm, IsNumber,
         KeyWords, Entrance.Number, HasSuffix;
    var bon, bu := NumberOfRow(k.num);
    var under := if k.under then "1" else "0";
    var sido, sigungu, road := k.sido[0], Join(k.sigungu), Join(k.road);
    CanonIsPlain(sido);
    Entrance.PlainAreWords(k.sigungu);
    Entrance.PlainAreWords(k.road);
    FieldsOfJoin(k.sigungu);
    FieldsOfJoin(k.road);
    PlainIsOneWord(sido);
    assert Entrance.RowKey(sido, sigungu, road, under, bon, bu) == k;
    Entrance.RowIsKey(sido, sigungu, road, under, bon, bu);
    assert IsStored(Entrance.Norm(sido, sigungu, road, under, bon, bu));
    WordsOfKey(k);
    Entrance.PlainAreWords(KeyWords(k));
    FieldsOfJoin(KeyWords(k));
  }

  /** How the words of a key with province end. */
  lemma WordEnds(k: Key, i: nat)
    requires WellFormed(k) && k.emd == [] && i < |KeyWords(k)|
    ensures var w := KeyWords(k)[i];
      && w != "" && Last(w) != '읍' && Last(w) != '면' && Last(w) != '\\'
      && (|w| == 1 ==> IsDigit(w[0]))
  {
    hide Plain, IsSigungu, ClassifyName, SIDO_CANON, CanonSido, IsNumber, Last;
    var u: seq<string> := if k.under then [UNDERGROUND] else [];
    KeyWordsRegroup(k, u);
    var a, b, c := |k.sido|, |k.sido| + |k.sigungu|, |k.sido| + |k.sigungu| + |k.road|;
    var w := KeyWords(k)[i];
    if i < a {
      assert w == k.sido[0];
      CanonEnds(w);
    } else if i < b {
      assert w == k.sigungu[i - a];
      SigunguLong(w);
    } else if i < c {
      assert w == k.road[i - b];
      RoadLong(w);
    } else if i == c && k.under {
      assert w == UNDERGROUND;
      UndergroundEnds();
    } else {
      assert w == k.num;
      NumberChars(w);
      NumberEnds(w);
    }
  }

  lemma CanonEnds(w: string)
    requires w in SIDO_CANON
    ensures w != "" && Last(w) != '읍' && Last(w) != '면' && Last(w) != '\\' && |w| != 1
  {
    CanonNames(w);
    CanonLong(w);
  }

  lemma CanonLong(w: string)
    requires w in SIDO_CANON
    ensures |w| >= 3
  {
  }

  lemma SigunguLong(w: string)
    requires IsSigungu(w)
    ensures w != "" && Last(w) != '읍' && Last(w) != '면' && Last(w) != '\\' && |w| >= 2 && !IsMeta(Last(w))
    ensures Last(w) == '시' || Last(w) == '군' || Last(w) == '구'
  {
    SigunguEnd(w);
  }

  lemma RoadLong(w: string)
    requires ClassifyName(w) == Road
    ensures w != "" && Last(w) != '읍' && Last(w) != '면' && Last(w) != '\\' && |w| >= 2 && !IsMeta(Last(w))
    ensures Last(w) == '로' || Last(w) == '길'
  {
  }

  lemma UndergroundEnds()
    ensures UNDERGROUND != "" && Last(UNDERGROUND) == '하' && |UNDERGROUND| == 2 && NoMeta(UNDERGROUND)
  {
  }

  lemma NumberEnds(w: string)
    requires w != "" && IsDigit(Last(w))
    ensures Last(w) != '읍' && Last(w) != '면' && Last(w) != '\\' && !IsMeta(Last(w))
    ensures |w| == 1 ==> IsDigit(w[0])
  {
  }

  // ----- without metacharacters

  lemma ExactWithoutMeta(k: Key)
    requires WellFormed(k) && k.sido == [] && NoMeta(Printed(k))
    ensures ExactOnStored(Printed(k), KeyWords(k))
  {
    hide WellFormed, Fields, KeyWords, Join, NoMeta, IsStored, IsProperSuffix, Like;
    var pw := KeyWords(k);
    WordsOfKey(k);
    Entrance.PlainAreWords(pw);
    BodyOfPartial(k);
    assert NoMeta(" " + Join(pw)) by { BlankIsNoMeta(Join(pw)); }
    forall norm | IsStored(norm) ensures Finds(Printed(k), norm) <==> IsProperSuffix(pw, Fields(norm)) {
      var row := StoredKey(norm);
      WordsOfKey(row);
      Entrance.PlainAreWords(KeyWords(row));
      LikeSuffix(" " + Join(pw), norm);
      SuffixIsWordSuffix(KeyWords(row), pw);
    }
  }

  lemma BlankIsNoMeta(s: string)
    requires NoMeta(s)
    ensures NoMeta(" " + s)
  {
  }

  lemma BodyOfPartial(k: Key)
    requires WellFormed(k) && k.sido == []
    ensures |KeyWords(k)| >= 2 && KeyWords(k)[|KeyWords(k)| - 1] == k.num
  {
    hide AreSigungu, AreOfKind, AllPlain, IsNumber, CanonSido;
  }

  // ----- partial keys no stored key ends in

  /** If a pattern goes on with a word with a literal end and a blank, its text has a word
      with that end. */
  lemma EndOfWordIsFound(front: string, w: string, rest: string, t: string)
    requires !Dangling(front) && w != "" && !Dangling(w) && !IsMeta(Last(w)) && !IsSpace(Last(w))
    requires Like(front + (" " + (w + (" " + rest))), t)
    ensures exists v :: v in Fields(t) && v != "" && Last(v) == Last(w)
  {
    hide Like, Dangling, Fields, IsSpace, IsMeta;
    var t1, t2 := LikeSplit(front, " " + (w + (" " + rest)), t);
    BlankFirst(w + (" " + rest), t2);
    var u, v := LikeSplit(w, " " + rest, t2[1..]);
    LikeEnds(w, u);
    BlankFirst(rest, v);
    assert t == (t1 + " " + u) + " " + v[1..];
    FieldsConcat(t1 + " " + u, v[1..]);
    assert Last(t1 + " " + u) == Last(u);
    LastWordEnds(t1 + " " + u);
  }

  lemma BlankFirst(rest: string, v: string)
    requires Like(" " + rest, v)
    ensures v != "" && v[0] == ' ' && Like(rest, v[1..]) && v == " " + v[1..]
  {
    assert (" " + rest)[1..] == rest;
  }

  /** A text that does not end in a blank ends as its last word does. */
  lemma {:induction false} LastWordEnds(s: string)
    requires s != "" && !IsSpace(Last(s))
    ensures var ws := Fields(s); ws != [] && ws[|ws| - 1] != "" && Last(ws[|ws| - 1]) == Last(s)
    decreases |s|
  {
    hide IsSpace, Fields;
    if IsSpace(s[0]) {
      assert Last(s[1..]) == Last(s);
      LastWordEnds(s[1..]);
      FieldsSkipSpace(s);
    } else {
      var k := WordEnd(s);
      FieldsOfHead(s);
      if k < |s| {
        assert Last(s[k..]) == Last(s);
        LastWordEnds(s[k..]);
      } else {
        assert s[k..] == "" && s[..k] == s;
      }
    }
  }

  lemma FieldsOfHead(s: string)
    requires s != "" && !IsSpace(s[0])
    ensures Fields(s) == [s[..WordEnd(s)]] + Fields(s[WordEnd(s)..]) && WordEnd(s) > 0
    ensures WordEnd(s) == |s| ==> Fields(s) == [s]
  {
    hide IsSpace;
    if WordEnd(s) == |s| { assert s[|s|..] == "" && s[..|s|] == s; }
  }

  /** The words of a partial key, cut at one of them. */
  lemma CutAt(ws: seq<string>, i: nat) returns (rest: string)
    requires i + 1 < |ws|
    ensures " " + Join(ws) == Front(ws, i) + (" " + (ws[i] + (" " + rest)))
  {
    hide Join;
    rest := Join(ws[i + 1..]);
    assert ws[i..] == [ws[i]] + ws[i + 1..];
    JoinConcat([ws[i]], ws[i + 1..]);
    OnlyWord(ws[i]);
    if i == 0 {
      assert ws[0..] == ws;
    } else {
      assert ws == ws[..i] + ws[i..];
      JoinConcat(ws[..i], ws[i..]);
    }
  }

  lemma OnlyWord(w: string)
    ensures Join([w]) == w
  {
  }

  /** A partial key with a town: the pattern finds nothing, and nothing ends in its words. */
  lemma TownIsNeverFound(k: Key)
    requires WellFormed(k) && k.sido == [] && k.emd != []
    ensures ExactOnStored(Printed(k), KeyWords(k))
  {
    hide Fields, Like, Dangling, IsStored, Join, AreSigungu, AreOfKind, AllPlain, CanonSido, IsNumber;
    var pw, i := KeyWords(k), |k.sigungu| + |k.emd| - 1;
    var w := pw[i];
    assert w == k.emd[|k.emd| - 1];
    TownEnds(k.emd);
    NotDangling(w);
    var rest := CutAt(pw, i);
    var front := "%" + Front(pw, i);
    FrontDoesNotDangle(k, i);
    forall norm | IsStored(norm) ensures !Finds(Printed(k), norm) && !IsProperSuffix(pw, Fields(norm)) {
      var row := StoredKey(norm);
      forall j | 0 <= j < |KeyWords(row)| ensures KeyWords(row)[j] != "" && Last(KeyWords(row)[j]) != Last(w) {
        WordEnds(row, j);
      }
      if Finds(Printed(k), norm) {
        assert "%" + (" " + Join(pw)) == front + (" " + (w + (" " + rest)));
        EndOfWordIsFound(front, w, rest, norm);
      }
      if IsProperSuffix(pw, Fields(norm)) { SuffixWord(pw, Fields(norm), i); }
    }
  }

  lemma TownEnds(ws: seq<string>)
    requires ws != [] && EndsInTownOrTownship(ws)
    ensures var w := ws[|ws| - 1];
      w != "" && (Last(w) == '읍' || Last(w) == '면') && !IsMeta(Last(w)) && !IsSpace(Last(w))
  {
    var w := ws[|ws| - 1];
    assert w[|w| - 1..] == [Last(w)];
  }

  /** A partial key whose number ends in -0 likewise. */
  lemma ZeroSubIsNeverFound(k: Key)
    requires WellFormed(k) && k.sido == [] && HasSuffix(k.num, "-0")
    ensures ExactOnStored(Printed(k), KeyWords(k))
  {
    hide Fields, Like, Dangling, IsStored, Join, HasSuffix, WellFormed, KeyWords, IsNumber;
    var pw := KeyWords(k);
    BodyOfPartial(k);
    var n, last: nat := |pw|, |pw| - 1;
    assert IsNumber(k.num) by { NumberOfKey(k); }
    assert pw == pw[..n - 1] + [k.num];
    JoinConcat(pw[..n - 1], [k.num]);
    OnlyWord(k.num);
    var front := "%" + Front(pw, n - 1);
    assert "%" + (" " + Join(pw)) == front + (" " + k.num);
    FrontDoesNotDangle(k, n - 1);
    NumberIsLiteral(k.num);
    forall norm | IsStored(norm) ensures !Finds(Printed(k), norm) && !IsProperSuffix(pw, Fields(norm)) {
      var row := StoredKey(norm);
      LastIsNumber(row);
      if Finds(Printed(k), norm) {
        var t1, t2 := LikeSplit(front, " " + k.num, norm);
        LikeLiteral(" " + k.num, t2);
        assert norm == t1 + " " + k.num;
        LastFieldIs(t1, k.num);
      }
      if IsProperSuffix(pw, Fields(norm)) { SuffixWord(pw, Fields(norm), last); }
    }
  }

  lemma SuffixWord(pw: seq<string>, ws: seq<string>, i: nat)
    requires IsProperSuffix(pw, ws) && i < |pw|
    ensures pw[i] == ws[|ws| - |pw| + i]
  {
    assert ws[|ws| - |pw|..][i] == pw[i];
  }

  lemma LastFieldIs(front: string, num: string)
    requires IsNumber(num)
    ensures var ws := Fields(front + " " + num); ws != [] && ws[|ws| - 1] == num
  {
    hide Fields, IsNumber;
    FieldsConcat(front, num);
    NumberIsOneWord(num);
  }

  lemma NumberOfKey(k: Key)
    requires WellFormed(k)
    ensures IsNumber(k.num)
  {
  }

  lemma LastIsNumber(k: Key)
    ensures KeyWords(k) != [] && KeyWords(k)[|KeyWords(k)| - 1] == k.num
  {
  }

  lemma NumberIsOneWord(num: string)
    requires IsNumber(num)
    ensures Fields(num) == [num]
  {
    hide IsNumber, Plain, Fields;
    NumberIsPlain(num);
    PlainIsOneWord(num);
  }

  lemma NumberIsLiteral(num: string)
    requires IsNumber(num)
    ensures NoMeta(num) && NoMeta(" " + num)
  {
    NumberChars(num);
  }

  /** What a partial key has in front of one of its words. */
  function Front(ws: seq<string>, i: nat): string
    requires i <= |ws|
  {
    if i == 0 then "" else " " + Join(ws[..i])
  }

  lemma FrontDoesNotDangle(k: Key, i: nat)
    requires WellFormed(k) && i <= |KeyWords(k)|
    ensures !Dangling("%" + Front(KeyWords(k), i))
  {
    hide Dangling, Join, WellFormed;
    var front := KeyWords(k)[..i];
    if i > 0 {
      EndOfAnyWord(k, i - 1);
      JoinLast(front);
    }
    NotDangling("%" + Front(KeyWords(k), i));
  }

  lemma EndOfAnyWord(k: Key, i: nat)
    requires WellFormed(k) && i < |KeyWords(k)|
    ensures KeyWords(k)[i] != "" && KeyWords(k)[i][|KeyWords(k)[i]| - 1] != '\\'
  {
    hide Plain, IsSigungu, ClassifyName, SIDO_CANON, CanonSido, IsNumber;
    var a, b, c := |k.sido|, |k.sido| + |k.sigungu|, |k.sido| + |k.sigungu| + |NameWords(k)|;
    var w := KeyWords(k)[i];
    if i < a {
      assert w == k.sido[0];
      CanonEnds(w);
    } else if i < b {
      assert w == k.sigungu[i - a];
      SigunguLong(w);
    } else if i < c {
      assert w == NameWords(k)[i - b];
      if w == UNDERGROUND {
        UndergroundEnds();
      } else {
        NameInKey(k, i - b);
        NameEnd(w);
      }
    } else {
      assert w == k.num;
      NumberChars(w);
      NumberEnds(w);
    }
  }

  // ----- a partial key with metacharacters, town-free

  function Samples(ws: seq<string>): (r: seq<string>)
    ensures |r| == |ws|
    ensures forall i :: 0 <= i < |ws| ==> r[i] == Sample(ws[i])
  {
    seq(|ws|, i requires 0 <= i < |ws| => Sample(ws[i]))
  }

  lemma {:induction false} SampleChars(w: string)
    requires w != "" && !IsMeta(Last(w))
    ensures Sample(w) != "" && Last(Sample(w)) == Last(w)
    ensures forall c :: c in Sample(w) ==> c == '가' || c in w
    decreases |w|
  {
    assert w == [w[0]] + w[1..];
    if w[0] == '\\' {
      if |w| > 2 {
        SampleChars(w[2..]);
        assert w == [w[0], w[1]] + w[2..];
      } else {
        assert w[2..] == "";
      }
    } else if |w| > 1 {
      SampleChars(w[1..]);
    }
  }

  lemma SamplePlain(w: string)
    requires Plain(w) && !IsMeta(Last(w))
    ensures Plain(Sample(w)) && Last(Sample(w)) == Last(w)
  {
    var u := Sample(w);
    SampleChars(w);
    forall i | 0 <= i < |u| ensures u[i] == '가' || u[i] in w { assert u[i] in u; }
  }

  /** The words that a sample would shorten to a single character. */
  predicate Shrinks(w: string) {
    |w| == 2 && w[0] == '\\'
  }

  lemma SampleLong(w: string)
    requires |w| >= 2 && !IsMeta(Last(w)) && !Shrinks(w)
    ensures |Sample(w)| >= 2
  {
    if |w| == 2 {
      assert w[1..] == [w[1]] && [w[1]][1..] == "";
      assert Sample(w[1..]) == [w[1]] + Sample("");
    } else {
      NotDangling(w);
      LikeSample(w);
    }
  }

  lemma SampleSigungu(w: string)
    requires IsSigungu(w) && Plain(w) && !Shrinks(w)
    ensures IsSigungu(Sample(w)) && Plain(Sample(w))
  {
    hide IsNumToken, Plain;
    SigunguLong(w);
    SamplePlain(w);
    SampleLong(w);
    EndsLikeSigungu(Sample(w));
  }

  lemma EndsLikeSigungu(w: string)
    requires |w| >= 2 && (Last(w) == '시' || Last(w) == '군' || Last(w) == '구')
    ensures IsSigungu(w)
  {
    assert w[|w| - 1..] == [Last(w)];
    if IsNumToken(w) { NumTokenEnd(w); }
  }

  lemma SampleRoad(w: string)
    requires ClassifyName(w) == Road && Plain(w) && !Shrinks(w) && w != UNDERGROUND
    ensures ClassifyName(Sample(w)) == Road && Plain(Sample(w)) && Sample(w) != UNDERGROUND
  {
    hide Plain;
    RoadLong(w);
    SamplePlain(w);
    SampleLong(w);
    UndergroundEnds();
  }

  lemma NumTokenEndIsPlain(w: string)
    requires IsNumber(w)
    ensures Sample(w) == w
  {
    NumberIsLiteral(w);
    NumberChars(w);
    NotDangling(w);
    LikeSample(w);
  }

  lemma UndergroundSample()
    ensures Sample(UNDERGROUND) == UNDERGROUND
  {
    UndergroundEnds();
    NotDangling(UNDERGROUND);
    LikeSample(UNDERGROUND);
  }

  const FIRST_PROVINCE: string := SIDO_CANON[0]

  /** The key over the sampled words, in the first province of the list. */
  function SampleKey(k: Key): Key {
    Key([FIRST_PROVINCE], Samples(k.sigungu), [], Samples(k.road), k.under, k.num)
  }

  ghost predicate NoneShrinks(ws: seq<string>) {
    forall i :: 0 <= i < |ws| ==> !Shrinks(ws[i])
  }

  lemma SampleKeyIs(k: Key)
    requires WellFormed(k) && k.sido == [] && k.emd == [] && NoneShrinks(k.sigungu) && NoneShrinks(k.road)
    ensures WellFormed(SampleKey(k))
  {
    hide IsSigungu, ClassifyName, Plain, IsNumber, CanonSido, Sample, Shrinks, UNDERGROUND, SIDO_CANON,
         FIRST_PROVINCE;
    forall i | 0 <= i < |k.sigungu| ensures IsSigungu(Sample(k.sigungu[i])) && Plain(Sample(k.sigungu[i])) {
      SampleSigungu(k.sigungu[i]);
    }
    forall i | 0 <= i < |k.road| ensures ClassifyName(Sample(k.road[i])) == Road && Plain(Sample(k.road[i]))
                                         && Sample(k.road[i]) != UNDERGROUND {
      SampleRoad(k.road[i]);
    }
    FirstIsCanon();
  }

  lemma FirstIsCanon()
    ensures FIRST_PROVINCE in SIDO_CANON
  {
  }

  lemma SampleKeyWords(k: Key)
    requires IsNumber(k.num) && k.sido == [] && k.emd == []
    ensures KeyWords(SampleKey(k)) == [FIRST_PROVINCE] + Samples(KeyWords(k))
  {
    hide Sample, IsNumber, UNDERGROUND, SIDO_CANON, FIRST_PROVINCE, KeyWords;
    var u: seq<string> := if k.under then [UNDERGROUND] else [];
    KeyWordsRegroup(k, u);
    KeyWordsRegroup(SampleKey(k), u);
    NumTokenEndIsPlain(k.num);
    UndergroundSample();
    var all := KeyWords(k);
    assert all == k.sigungu + (k.road + (u + [k.num]));
    assert Samples(all) == Samples(k.sigungu) + (Samples(k.road) + (u + [k.num]));
  }

  lemma {:induction false} LikeSamples(ws: seq<string>)
    requires forall i :: 0 <= i < |ws| ==> !Dangling(ws[i])
    ensures Like(Join(ws), Join(Samples(ws)))
  {
    hide Like, Sample;
    if |ws| == 1 {
      LikeSample(ws[0]);
    } else if |ws| > 1 {
      LikeSample(ws[0]);
      LikeSamples(ws[1..]);
      assert Samples(ws)[1..] == Samples(ws[1..]);
      BlankMatches();
      JoinStep(ws);
      JoinStep(Samples(ws));
      LikeConcat(" ", Join(ws[1..]), " ", Join(Samples(ws[1..])));
      LikeConcat(ws[0], " " + Join(ws[1..]), Sample(ws[0]), " " + Join(Samples(ws[1..])));
    } else {
      NothingMatches();
    }
  }

  lemma NothingMatches()
    ensures Like("", "") && Join([]) == ""
  {
  }

  lemma BlankMatches()
    ensures Like(" ", " ") && !Dangling(" ")
  {
    assert " "[1..] == "";
  }

  lemma {:induction false} MetaInWord(ws: seq<string>)
    requires !NoMeta(Join(ws))
    ensures exists i :: 0 <= i < |ws| && !NoMeta(ws[i])
  {
    if |ws| == 1 {
      assert Join(ws) == ws[0];
    } else if |ws| > 1 {
      var head, tail := ws[0], Join(ws[1..]);
      JoinStep(ws);
      var i :| 0 <= i < |Join(ws)| && IsMeta(Join(ws)[i]);
      if i < |head| {
        assert head[i] == Join(ws)[i];
      } else {
        assert i > |head| && tail[i - |head| - 1] == Join(ws)[i];
        MetaInWord(ws[1..]);
        var j :| 0 <= j < |ws[1..]| && !NoMeta(ws[1..][j]);
        assert ws[j + 1] == ws[1..][j];
      }
    }
  }

  lemma WordsDoNotDangle(k: Key)
    requires WellFormed(k)
    ensures forall i :: 0 <= i < |KeyWords(k)| ==> !Dangling(KeyWords(k)[i])
  {
    hide WellFormed, KeyWords, Dangling;
    forall i | 0 <= i < |KeyWords(k)| ensures !Dangling(KeyWords(k)[i]) {
      EndOfAnyWord(k, i);
      NotDangling(KeyWords(k)[i]);
    }
  }

  /** The row over the sampled words is found, and does not end in the partial key. */
  lemma SampleIsWronglyFound(k: Key)
    requires WellFormed(k) && k.sido == [] && k.emd == [] && !HasSuffix(k.num, "-0") && !NoMeta(Printed(k))
    requires NoneShrinks(k.sigungu) && NoneShrinks(k.road)
    ensures !ExactOnStored(Printed(k), KeyWords(k))
  {
    hide Like, Fields, Join, NoMeta, Sample, IsStored, KeyWords, SIDO_CANON, FIRST_PROVINCE, HasSuffix,
         NoneShrinks, WellFormed, SampleKey;
    var pw, row := KeyWords(k), SampleKey(k);
    var norm := Printed(row);
    SampleKeyIs(k);
    SampleKeyShape(k);
    KeyIsStored(row);
    NumberOfKey(k);
    SampleKeyWords(k);
    BodyOfPartial(k);
    WordsDoNotDangle(k);
    LikeSamples(pw);
    SampleText(Samples(pw));
    BlankMatches();
    LikeConcat(" ", Join(pw), " ", Join(Samples(pw)));
    PercentSkips(" " + Join(pw), FIRST_PROVINCE, " " + Join(Samples(pw)));
    MetaInWord(pw);
    var i :| 0 <= i < |pw| && !NoMeta(pw[i]);
    LikeSample(pw[i]);
    assert Fields(norm)[|Fields(norm)| - |pw|..] == Samples(pw);
    assert Samples(pw)[i] != pw[i];
    assert Finds(Printed(k), norm) && !IsProperSuffix(pw, Fields(norm));
  }

  lemma SampleKeyShape(k: Key)
    ensures var row := SampleKey(k); |row.sido| == 1 && row.emd == [] && row.num == k.num
  {
  }

  lemma SampleText(ws: seq<string>)
    requires ws != []
    ensures Join([FIRST_PROVINCE] + ws) == FIRST_PROVINCE + (" " + Join(ws))
  {
    hide Join, FIRST_PROVINCE;
    JoinConcat([FIRST_PROVINCE], ws);
    OnlyWord(FIRST_PROVINCE);
  }

  /** A word that is an escaped single character: the row that does end in the partial key
      is not found, for no word of it is that character alone. */
  lemma ShrinkingIsNotFound(k: Key, i: nat)
    requires WellFormed(k) && k.sido == [] && k.emd == [] && !HasSuffix(k.num, "-0")
    requires i + 1 < |KeyWords(k)| && Shrinks(KeyWords(k)[i]) && !IsDigit(KeyWords(k)[i][1])
    requires !IsMeta(KeyWords(k)[i][1]) && !IsSpace(KeyWords(k)[i][1])
    ensures !ExactOnStored(Printed(k), KeyWords(k))
  {
    hide Like, Fields, Join, IsStored, KeyWords, SIDO_CANON, FIRST_PROVINCE, HasSuffix, Dangling, WellFormed,
         IsSpace, IsMeta;
    var pw := KeyWords(k);
    var row := k.(sido := [FIRST_PROVINCE]);
    WithFirstProvince(k);
    KeyIsStored(row);
    var norm := Printed(row);
    assert IsProperSuffix(pw, Fields(norm)) by { assert Fields(norm)[1..] == pw; }
    if Finds(Printed(k), norm) {
      var rest := CutAt(pw, i);
      var front := "%" + Front(pw, i);
      FrontDoesNotDangle(k, i);
      assert "%" + (" " + Join(pw)) == front + (" " + (pw[i] + (" " + rest)));
      SingleIsFound(front, pw[i], rest, norm);
      var j :| 0 <= j < |Fields(norm)| && Fields(norm)[j] == [pw[i][1]];
      WordEnds(row, j);
    }
    assert !Finds(Printed(k), norm);
  }

  lemma WithFirstProvince(k: Key)
    requires WellFormed(k) && k.sido == []
    ensures var row := k.(sido := [FIRST_PROVINCE]);
      WellFormed(row) && KeyWords(row) == [FIRST_PROVINCE] + KeyWords(k)
  {
    hide IsSigungu, ClassifyName, Plain, IsNumber, CanonSido, AreSigungu, AreOfKind, AllPlain, SIDO_CANON,
         FIRST_PROVINCE;
    FirstIsCanon();
    assert [] + BodyWords(k) == BodyWords(k);
  }

  lemma SingleIsFound(front: string, w: string, rest: string, t: string)
    requires Shrinks(w) && !Dangling(front) && !IsSpace(w[1])
    requires Like(front + (" " + (w + (" " + rest))), t)
    ensures exists j :: 0 <= j < |Fields(t)| && Fields(t)[j] == [w[1]]
  {
    hide Like, Dangling, Fields, IsSpace;
    var t1, t2 := LikeSplit(front, " " + (w + (" " + rest)), t);
    BlankFirst(w + (" " + rest), t2);
    EscapedFirst(w, " " + rest, t2[1..]);
    BlankFirst(rest, t2[2..]);
    var c := [w[1]];
    assert t == t1 + " " + (c + " " + t2[3..]) by {
      assert t2 == " " + t2[1..] && t2[1..] == c + t2[2..] && t2[2..] == " " + t2[3..];
    }
    FieldsConcat(t1, c + " " + t2[3..]);
    FieldsConcat(c, t2[3..]);
    CharIsWord(w[1]);
    assert Fields(t)[|Fields(t1)|] == c;
  }

  lemma CharIsWord(c: char)
    requires !IsSpace(c)
    ensures Fields([c]) == [[c]]
  {
    hide IsSpace;
    OneWord([c]);
  }

  lemma EscapedFirst(w: string, rest: string, v: string)
    requires Shrinks(w) && Like(w + rest, v)
    ensures v != "" && v[0] == w[1] && Like(rest, v[1..]) && v == [w[1]] + v[1..]
  {
    assert (w + rest)[2..] == rest && (w + rest)[1] == w[1];
  }

  // ----- the theorem

  lemma MetaIsNotExact(k: Key)
    requires WellFormed(k) && k.sido == [] && k.emd == [] && !HasSuffix(k.num, "-0") && !NoMeta(Printed(k))
    ensures !ExactOnStored(Printed(k), KeyWords(k))
  {
    hide Like, Fields, Join, NoMeta, IsStored, SIDO_CANON, HasSuffix, IsSigungu, ClassifyName, Plain, IsNumber,
         Shrinks, CanonSido, ExactOnStored, IsMeta, IsSpace;
    var u: seq<string> := if k.under then [UNDERGROUND] else [];
    KeyWordsRegroup(k, u);
    if i :| 0 <= i < |k.sigungu| && Shrinks(k.sigungu[i]) {
      assert KeyWords(k)[i] == k.sigungu[i];
      EndOfShrinking(k.sigungu[i]);
      ShrinkingIsNotFound(k, i);
    } else if i :| 0 <= i < |k.road| && Shrinks(k.road[i]) {
      assert KeyWords(k)[|k.sigungu| + i] == k.road[i];
      EndOfShrinking(k.road[i]);
      ShrinkingIsNotFound(k, |k.sigungu| + i);
    } else {
      SampleIsWronglyFound(k);
    }
  }

  lemma EndOfShrinking(w: string)
    requires Shrinks(w) && (IsSigungu(w) || ClassifyName(w) == Road)
    ensures !IsDigit(w[1]) && !IsMeta(w[1]) && !IsSpace(w[1])
  {
    hide IsSigungu, ClassifyName;
    assert Last(w) == w[1];
    if IsSigungu(w) { SigunguLong(w); } else { RoadLong(w); }
  }

  /** For every query that is read without province: its partial key is exact over the
      keys of all well-formed rows if and only if it holds no metacharacter, or names a
      town or a subordinate number 0, which no stored key does. */
  lemma PartialKeyIsExactIff(q: string)
    requires RoadKey(ParseSpec(q)).0 != "" && !RoadKey(ParseSpec(q)).1
    ensures var k := KeyOf(Tokens(q));
      ExactOnStored(RoadKey(ParseSpec(q)).0, KeyWords(k))
      <==> NoMeta(RoadKey(ParseSpec(q)).0) || k.emd != [] || HasSuffix(k.num, "-0")
  {
    hide RoadKey, ReadTokens, KeyOf, Tokens, WellFormed, Printed, NoMeta, HasSuffix, ExactOnStored, KeyWords,
         Mapped, Parens;
    var k := KeyOf(Tokens(q));
    TokensArePlain(q);
    PrintedIsWellFormed(Tokens(q), Parens(Mapped(q, true)));
    if NoMeta(Printed(k)) {
      ExactWithoutMeta(k);
    } else if k.emd != [] {
      TownIsNeverFound(k);
    } else if HasSuffix(k.num, "-0") {
      ZeroSubIsNeverFound(k);
    } else {
      MetaIsNotExact(k);
    }
  }
}
