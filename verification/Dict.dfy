/** The names of the provinces and their short and former forms
    (internal/address/dict.go). */
module Dict {
  import opened Options

  const SIDO_CANON: seq<string> := [
    "서울특별시", "부산광역시", "대구광역시", "인천광역시", "광주광역시",
    "대전광역시", "울산광역시", "세종특별자치시", "경기도", "강원특별자치도",
    "충청북도", "충청남도", "전북특별자치도", "전라남도", "경상북도",
    "경상남도", "제주특별자치도"
  ]

  const SIDO_ALIAS: map<string, string> := map[
    "서울" := "서울특별시", "서울시" := "서울특별시",
    "부산" := "부산광역시", "부산시" := "부산광역시",
    "대구" := "대구광역시", "대구시" := "대구광역시",
    "인천" := "인천광역시", "인천시" := "인천광역시",
    "광주" := "광주광역시", "광주시" := "광주광역시",
    "대전" := "대전광역시", "대전시" := "대전광역시",
    "울산" := "울산광역시", "울산시" := "울산광역시",
    "세종" := "세종특별자치시", "세종시" := "세종특별자치시",
    "경기" := "경기도",
    "강원" := "강원특별자치도", "강원도" := "강원특별자치도",
    "충북" := "충청북도", "충남" := "충청남도",
    "전북" := "전북특별자치도", "전북도" := "전북특별자치도", "전라북도" := "전북특별자치도",
    "전남" := "전라남도", "경북" := "경상북도", "경남" := "경상남도",
    "제주" := "제주특별자치도", "제주도" := "제주특별자치도"
  ]

  function CanonSido(tok: string): Option<string> {
    if tok in SIDO_CANON then Some(tok)
    else if tok in SIDO_ALIAS then Some(SIDO_ALIAS[tok])
    else None
  }

  predicate IsHangul(s: string) {
    s != "" && forall i :: 0 <= i < |s| ==> 0xAC00 <= s[i] as int <= 0xD7A3
  }

  /** Every full name is plain Hangul ending in 시 or 도. */
  lemma CanonNames(tok: string)
    requires tok in SIDO_CANON
    ensures IsHangul(tok) && (tok[|tok| - 1] == '시' || tok[|tok| - 1] == '도')
  {
  }

  lemma AliasKeys(tok: string)
    requires tok in SIDO_ALIAS
    ensures tok != "" && NoNameEnding(tok[|tok| - 1])
  {
  }

  lemma AliasValues(tok: string)
    requires tok in SIDO_ALIAS
    ensures SIDO_ALIAS[tok] in SIDO_CANON
  {
  }

  predicate NoNameEnding(c: char) {
    c != '로' && c != '길' && c != '동' && c != '읍' && c != '면' && c != '리' && c != '가'
  }

  /** Expansion gives a full name, and no name in the dictionary ends the way a road
      or a town does. */
  lemma SidoNames(tok: string)
    requires CanonSido(tok).Some?
    ensures CanonSido(tok).value in SIDO_CANON
    ensures tok != "" && NoNameEnding(tok[|tok| - 1])
  {
    if tok in SIDO_CANON { CanonNames(tok); } else { AliasKeys(tok); AliasValues(tok); }
  }

  // ----- which names are accepted

  /** The two syllables a province is called by: the first and third of a four-syllable
      name, the first two of any other. */
  function Short(s: string): string
    requires |s| >= 3
  {
    if |s| == 4 then [s[0], s[2]] else s[..2]
  }

  predicate HasEnding(s: string, ending: string) {
    |ending| <= |s| && s[|s| - |ending|..] == ending
  }

  /** `tok` is the full name of the province `s`, its short form, a city's with 시 behind
      it, a self-governing province's with 도 behind it, or the former name of 전북. */
  predicate Names(tok: string, s: string)
    requires |s| >= 3
  {
    || tok == s
    || tok == Short(s)
    || (HasEnding(s, "시") && tok == Short(s) + "시")
    || (HasEnding(s, "특별자치도") && tok == Short(s) + "도")
    || (tok == "전라북도" && s == "전북특별자치도")
  }

  lemma LongEnough(s: string)
    requires s in SIDO_CANON
    ensures |s| >= 3
  {
  }

  lemma AliasHeads(tok: string)
    requires tok in SIDO_ALIAS && |tok| < 4
    ensures |tok| >= 2
    ensures var s := SIDO_ALIAS[tok]; |s| >= 3 && s[0] == tok[0] && s[if |s| == 4 then 2 else 1] == tok[1]
  {
  }

  predicate SelfGoverning(s: string) {
    |s| == 7 && s[2] == '특' && s[3] == '별' && s[4] == '자' && s[5] == '치' && s[6] == '도'
  }

  lemma AliasTails(tok: string)
    requires tok in SIDO_ALIAS && |tok| == 3
    ensures var s := SIDO_ALIAS[tok];
      && |s| >= 5
      && ((tok[2] == '시' && s[|s| - 1] == '시') || (tok[2] == '도' && SelfGoverning(s)))
  {
  }

  lemma LongAlias(tok: string)
    requires tok in SIDO_ALIAS && |tok| >= 4
    ensures tok == "전라북도" && SIDO_ALIAS[tok] == "전북특별자치도"
  {
  }

  lemma AliasNames(tok: string)
    requires tok in SIDO_ALIAS
    ensures |SIDO_ALIAS[tok]| >= 3 && Names(tok, SIDO_ALIAS[tok])
  {
    if |tok| >= 4 {
      LongAlias(tok);
    } else {
      AliasHeads(tok);
      if |tok| == 3 { AliasTails(tok); }
      hide SIDO_ALIAS;
      var s := SIDO_ALIAS[tok];
      assert tok[..2] == Short(s);
      if |tok| == 3 {
        assert tok == Short(s) + [tok[2]];
        assert s[|s| - 1..] == [s[|s| - 1]];
        if SelfGoverning(s) { assert s[2..] == "특별자치도"; }
      } else {
        assert tok[..2] == tok;
      }
    }
  }

  const SHORT_FORMS: seq<string> := [
    "서울", "부산", "대구", "인천", "광주", "대전", "울산", "세종", "경기", "강원", "충북", "충남", "전북", "전남",
    "경북", "경남", "제주"
  ]

  lemma ShortAt(i: nat)
    requires i < |SIDO_CANON|
    ensures |SHORT_FORMS| == |SIDO_CANON| && |SIDO_CANON[i]| >= 3 && Short(SIDO_CANON[i]) == SHORT_FORMS[i]
  {
    var s := SIDO_CANON[i];
    assert |s| >= 3 && |SHORT_FORMS[i]| == 2;
    assert SHORT_FORMS[i][0] == s[0] && SHORT_FORMS[i][1] == s[if |s| == 4 then 2 else 1];
  }

  lemma ShortIsAlias(i: nat)
    requires i < |SIDO_CANON| == |SHORT_FORMS|
    ensures SHORT_FORMS[i] in SIDO_ALIAS && SIDO_ALIAS[SHORT_FORMS[i]] == SIDO_CANON[i]
  {
  }

  const CITY_FORMS: seq<string> := ["서울시", "부산시", "대구시", "인천시", "광주시", "대전시", "울산시", "세종시"]

  lemma CityAt(i: nat)
    requires i < |SIDO_CANON| == |SHORT_FORMS| && HasEnding(SIDO_CANON[i], "시")
    ensures i < |CITY_FORMS| && SHORT_FORMS[i] + "시" == CITY_FORMS[i]
  {
    assert SIDO_CANON[i][|SIDO_CANON[i]| - 1..][0] == '시';
    assert |SHORT_FORMS[i]| == 2 && |CITY_FORMS[i]| == 3;
    assert CITY_FORMS[i][0] == SHORT_FORMS[i][0] && CITY_FORMS[i][1] == SHORT_FORMS[i][1] && CITY_FORMS[i][2] == '시';
  }

  lemma CityIsAlias(i: nat)
    requires i < |CITY_FORMS|
    ensures CITY_FORMS[i] in SIDO_ALIAS && SIDO_ALIAS[CITY_FORMS[i]] == SIDO_CANON[i]
  {
  }

  lemma ProvinceAt(i: nat)
    requires i < |SIDO_CANON| == |SHORT_FORMS| && HasEnding(SIDO_CANON[i], "특별자치도")
    ensures i == 9 || i == 12 || i == 16
    ensures SHORT_FORMS[i] + "도" == (if i == 9 then "강원도" else if i == 12 then "전북도" else "제주도")
  {
    var s := SIDO_CANON[i];
    assert s[|s| - 5..][4] == s[|s| - 1] == '도';
    assert |s| >= 5;
  }

  lemma ProvinceIsAlias()
    ensures "강원도" in SIDO_ALIAS && SIDO_ALIAS["강원도"] == SIDO_CANON[9]
    ensures "전북도" in SIDO_ALIAS && SIDO_ALIAS["전북도"] == SIDO_CANON[12]
    ensures "제주도" in SIDO_ALIAS && SIDO_ALIAS["제주도"] == SIDO_CANON[16]
    ensures "전라북도" in SIDO_ALIAS && SIDO_ALIAS["전라북도"] == "전북특별자치도"
  {
  }

  lemma NameIsAlias(tok: string, i: nat)
    requires i < |SIDO_CANON| && |SIDO_CANON[i]| >= 3 && Names(tok, SIDO_CANON[i]) && tok != SIDO_CANON[i]
    ensures tok in SIDO_ALIAS && SIDO_ALIAS[tok] == SIDO_CANON[i]
  {
    hide SIDO_CANON, SIDO_ALIAS, HasEnding, Short;
    ShortAt(i);
    ShortIsAlias(i);
    if HasEnding(SIDO_CANON[i], "시") { CityAt(i); CityIsAlias(i); }
    if HasEnding(SIDO_CANON[i], "특별자치도") { ProvinceAt(i); }
    ProvinceIsAlias();
  }

  lemma ShortFullName(tok: string)
    requires tok in SIDO_CANON && |tok| <= 4
    ensures |tok| == 3 ==> tok[0] == '경'
    ensures |tok| >= 3
    ensures |tok| == 4 ==> tok[0] != '전' || tok[2] == '남'
  {
  }

  lemma ShortAlias(tok: string)
    requires tok in SIDO_ALIAS && |tok| == 3
    ensures tok[0] != '경'
  {
  }

  /** No alias is itself a full name. */
  lemma AliasIsNoFullName(tok: string)
    requires tok in SIDO_ALIAS
    ensures tok !in SIDO_CANON
  {
    if |tok| >= 4 { LongAlias(tok); } else if |tok| == 3 { ShortAlias(tok); }
    hide SIDO_ALIAS;
    if tok in SIDO_CANON { ShortFullName(tok); }
    hide SIDO_CANON;
  }

  /** A name is read as the province `s` if and only if it names it: the full name, the
      short form, or one of the listed variants of it. */
  lemma AcceptedIff(tok: string, s: string)
    ensures CanonSido(tok) == Some(s) <==> s in SIDO_CANON && |s| >= 3 && Names(tok, s)
  {
    if s in SIDO_CANON && |s| >= 3 && Names(tok, s) && tok != s {
      var i: nat :| i < |SIDO_CANON| && SIDO_CANON[i] == s;
      NameIsAlias(tok, i);
      AliasIsNoFullName(tok);
    }
    if tok in SIDO_ALIAS { AliasNames(tok); AliasValues(tok); }
    if tok in SIDO_CANON { LongEnough(tok); }
    hide SIDO_CANON, SIDO_ALIAS, Names;
  }

  lemma Spelled()
    ensures "서울" + "특별시" == "서울특별시" && "세종" + "특별자치시" == "세종특별자치시"
    ensures "부산" + "광역시" == "부산광역시" && "대구" + "광역시" == "대구광역시" && "인천" + "광역시" == "인천광역시"
    ensures "광주" + "광역시" == "광주광역시" && "대전" + "광역시" == "대전광역시" && "울산" + "광역시" == "울산광역시"
    ensures "강원" + "특별자치도" == "강원특별자치도" && "전북" + "특별자치도" == "전북특별자치도"
    ensures "제주" + "특별자치도" == "제주특별자치도"
    ensures "충청" + "북도" == "충청북도" && "충청" + "남도" == "충청남도" && "전라" + "남도" == "전라남도"
    ensures "경상" + "북도" == "경상북도" && "경상" + "남도" == "경상남도"
  {
  }

  /** The full names are those of the seventeen provinces, by their standing. */
  lemma FullNames(s: string)
    ensures s in SIDO_CANON <==>
      || s == "서울" + "특별시"
      || s in ["부산" + "광역시", "대구" + "광역시", "인천" + "광역시", "광주" + "광역시", "대전" + "광역시", "울산" + "광역시"]
      || s == "세종" + "특별자치시"
      || s in ["강원" + "특별자치도", "전북" + "특별자치도", "제주" + "특별자치도"]
      || s in ["경기도", "충청" + "북도", "충청" + "남도", "전라" + "남도", "경상" + "북도", "경상" + "남도"]
  {
    Spelled();
  }
}
