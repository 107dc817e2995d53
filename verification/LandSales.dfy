/** Monthly reload of land sales (internal/etl/landsales/load.go): the map from town
    names to codes, and the delete-then-insert of one district and month. */
module LandSales {
  import opened Options
  import opened Words
  import opened SqlLike

  // ----- the map of town names

  /** A line of an entrance file, split at the bars; Garbled when it does not decode. */
  datatype Line = Garbled | Columns(parts: seq<string>)

  /** A text file of an archive; other files are passed over. */
  datatype Source = Unreadable | Text(lines: seq<Line>)

  datatype Archive = Damaged | Archive(files: seq<Source>)

  datatype Entry = Entry(name: string, code: string)

  datatype EmdMap = EmdMap(code: map<string, string>, ambiguous: set<string>)

  /** The entry of a line, if it has one for the district. */
  function Given(line: Line, lawd: string): seq<Entry> {
    if line.Garbled? || |line.parts| < 5 then []
    else if ByteLen(line.parts[1]) != 10 || !(lawd <= line.parts[1]) then []
    else if TrimSpace(line.parts[4]) == "" then []
    else [Entry(TrimSpace(line.parts[4]), line.parts[1])]
  }

  /** A line counts when it has at least five columns, a code of ten bytes in the second
      that begins with the district, and a name in the fifth, from which blanks are cut. */
  lemma LineCounts(line: Line, lawd: string)
    ensures Given(line, lawd) != [] <==>
      && line.Columns? && |line.parts| >= 5 && ByteLen(line.parts[1]) == 10 && lawd <= line.parts[1]
      && !AllSpace(line.parts[4])
    ensures Given(line, lawd) != [] ==>
      var e := Given(line, lawd)[0];
      Given(line, lawd) == [e] && e.code == line.parts[1] && IsTrimmed(e.name, line.parts[4])
  {
    hide AllSpace, TrimSpace, IsTrimmed, ByteLen;
    if line.Columns? && |line.parts| >= 5 {
      TrimIs(line.parts[4]);
      BlankTrims(line.parts[4]);
    }
  }

  function Entries(lines: seq<Line>, lawd: string): seq<Entry> {
    if lines == [] then []
    else Entries(lines[..|lines| - 1], lawd) + Given(lines[|lines| - 1], lawd)
  }

  function AllEntries(sources: seq<Source>, lawd: string): seq<Entry> {
    if sources == [] then []
    else
      var last := sources[|sources| - 1];
      AllEntries(sources[..|sources| - 1], lawd) + (if last.Text? then Entries(last.lines, lawd) else [])
  }

  /** All text files in order; a damaged archive counts as a file that does not open. */
  function Sources(zips: seq<Archive>): seq<Source> {
    if zips == [] then []
    else
      var last := zips[|zips| - 1];
      Sources(zips[..|zips| - 1]) + (if last.Damaged? then [Unreadable] else last.files)
  }

  predicate Readable(sources: seq<Source>) {
    forall i :: 0 <= i < |sources| ==> sources[i].Text?
  }

  function Add(m: EmdMap, e: Entry): EmdMap {
    if e.name in m.code && m.code[e.name] != e.code then
      EmdMap(m.code - {e.name}, m.ambiguous + {e.name})
    else if e.name !in m.ambiguous then m.(code := m.code[e.name := e.code])
    else m
  }

  function EmdMapOf(es: seq<Entry>): EmdMap {
    if es == [] then EmdMap(map[], {}) else Add(EmdMapOf(es[..|es| - 1]), es[|es| - 1])
  }

  /** A name is mapped to the one code its entries carry, and ambiguous when they carry two. */
  ghost predicate Right(m: EmdMap, es: seq<Entry>, name: string) {
    && (name in m.ambiguous <==> exists c, d :: c != d && Entry(name, c) in es && Entry(name, d) in es)
    && (name in m.code <==>
        (exists c :: Entry(name, c) in es) && forall c, d :: Entry(name, c) in es && Entry(name, d) in es ==> c == d)
    && (name in m.code ==> Entry(name, m.code[name]) in es)
  }

  lemma AddKeeps(m: EmdMap, es: seq<Entry>, e: Entry, name: string)
    requires Right(m, es, name)
    ensures Right(Add(m, e), es + [e], name)
  {
    var now := es + [e];
    forall x ensures x in now <==> x in es || x == e {}
    if name == e.name {
      assert Entry(name, e.code) in now;
      if name in m.code {
        assert Entry(name, m.code[name]) in now;
      } else if name in m.ambiguous {
        var c, d :| c != d && Entry(name, c) in es && Entry(name, d) in es;
        assert Entry(name, c) in now && Entry(name, d) in now;
      } else {
        assert forall c :: Entry(name, c) !in es;
      }
    } else {
      assert forall c :: Entry(name, c) in now <==> Entry(name, c) in es;
    }
  }

  /** After any sequence of rows, each name is mapped exactly when all its rows carry one
      code, and ambiguous exactly when two different codes occurred. */
  lemma {:induction false} EmdMapIsRight(es: seq<Entry>, name: string)
    ensures Right(EmdMapOf(es), es, name)
  {
    if es != [] {
      EmdMapIsRight(es[..|es| - 1], name);
      AddKeeps(EmdMapOf(es[..|es| - 1]), es[..|es| - 1], es[|es| - 1], name);
      assert es == es[..|es| - 1] + [es[|es| - 1]];
    }
  }

  ghost predicate GivenBefore(lines: seq<Line>, n: nat, lawd: string, e: Entry)
    requires n <= |lines|
  {
    exists i :: 0 <= i < n && e in Given(lines[i], lawd)
  }

  lemma {:induction false} EntriesUpTo(lines: seq<Line>, n: nat, lawd: string, e: Entry)
    requires n <= |lines|
    ensures e in Entries(lines[..n], lawd) <==> GivenBefore(lines, n, lawd, e)
    decreases n
  {
    hide Given;
    if n > 0 {
      EntriesUpTo(lines, n - 1, lawd, e);
      assert lines[..n][..n - 1] == lines[..n - 1];
      assert lines[..n][n - 1] == lines[n - 1];
    }
  }

  lemma EntriesAre(lines: seq<Line>, lawd: string, e: Entry)
    ensures e in Entries(lines, lawd) <==> exists i :: 0 <= i < |lines| && e in Given(lines[i], lawd)
  {
    hide Given, Entries;
    EntriesUpTo(lines, |lines|, lawd, e);
    assert lines[..|lines|] == lines;
  }

  lemma EqualMaps(a: EmdMap, b: EmdMap, es: seq<Entry>, fs: seq<Entry>)
    requires forall e :: e in es <==> e in fs
    requires forall n :: Right(a, es, n) && Right(b, fs, n)
    ensures a == b
  {
    forall n ensures n in a.ambiguous <==> n in b.ambiguous { assert Right(a, es, n) && Right(b, fs, n); }
    forall n ensures n in a.code <==> n in b.code { assert Right(a, es, n) && Right(b, fs, n); }
    forall n | n in a.code ensures a.code[n] == b.code[n] {
      assert Right(a, es, n) && Right(b, fs, n);
      assert Entry(n, a.code[n]) in es && Entry(n, b.code[n]) in es;
    }
  }

  /** The map does not depend on the order in which rows are read, nor on repeats. */
  lemma OrderIsIrrelevant(lines: seq<Line>, other: seq<Line>, lawd: string)
    requires forall l :: l in lines <==> l in other
    ensures EmdMapOf(Entries(lines, lawd)) == EmdMapOf(Entries(other, lawd))
  {
    hide Given, Right, EmdMapOf, Entries;
    forall e ensures e in Entries(lines, lawd) <==> e in Entries(other, lawd) {
      EntriesAre(lines, lawd, e);
      EntriesAre(other, lawd, e);
      if i :| 0 <= i < |lines| && e in Given(lines[i], lawd) { assert lines[i] in other; }
      if i :| 0 <= i < |other| && e in Given(other[i], lawd) { assert other[i] in lines; }
    }
    var es, fs := Entries(lines, lawd), Entries(other, lawd);
    forall n ensures Right(EmdMapOf(es), es, n) && Right(EmdMapOf(fs), fs, n) {
      EmdMapIsRight(es, n);
      EmdMapIsRight(fs, n);
    }
    EqualMaps(EmdMapOf(es), EmdMapOf(fs), es, fs);
  }

  lemma {:induction false} AllEntriesAreLocal(sources: seq<Source>, lawd: string, e: Entry)
    requires e in AllEntries(sources, lawd)
    ensures lawd <= e.code && ByteLen(e.code) == 10 && e.name != ""
  {
    var last := sources[|sources| - 1];
    if e in AllEntries(sources[..|sources| - 1], lawd) {
      AllEntriesAreLocal(sources[..|sources| - 1], lawd, e);
    } else {
      EntriesAre(last.lines, lawd, e);
    }
  }

  /** Every mapped code belongs to the district, and no name is both mapped and ambiguous. */
  lemma MappedCodesAreLocal(sources: seq<Source>, lawd: string, name: string)
    requires name in EmdMapOf(AllEntries(sources, lawd)).code
    ensures lawd <= EmdMapOf(AllEntries(sources, lawd)).code[name]
    ensures name !in EmdMapOf(AllEntries(sources, lawd)).ambiguous
  {
    var m := EmdMapOf(AllEntries(sources, lawd));
    EmdMapIsRight(AllEntries(sources, lawd), name);
    AllEntriesAreLocal(sources, lawd, Entry(name, m.code[name]));
  }

  lemma EntriesOfNone(lines: seq<Line>, lawd: string)
    requires lines == []
    ensures Entries(lines, lawd) == []
  {
  }

  lemma OneLineMore(before: seq<Entry>, lines: seq<Line>, i: nat, lawd: string)
    requires i < |lines|
    ensures var given, m := Given(lines[i], lawd), EmdMapOf(before + Entries(lines[..i], lawd));
      EmdMapOf(before + Entries(lines[..i + 1], lawd)) == if given == [] then m else Add(m, given[0])
  {
    hide Add;
    var es, given := before + Entries(lines[..i], lawd), Given(lines[i], lawd);
    assert lines[..i + 1][..i] == lines[..i];
    assert before + Entries(lines[..i + 1], lawd) == es + given;
    if given == [] {
      assert es + given == es;
    } else {
      assert given == [given[0]];
      assert (es + given)[..|es|] == es;
    }
  }

  /** The rows of one file, folded into the two maps. */
  method ReadFile(lines: seq<Line>, lawd: string, emd0: map<string, string>, ambiguous0: set<string>,
                  ghost before: seq<Entry>)
    returns (emd: map<string, string>, ambiguous: set<string>)
    requires EmdMap(emd0, ambiguous0) == EmdMapOf(before)
    ensures EmdMap(emd, ambiguous) == EmdMapOf(before + Entries(lines, lawd))
  {
    hide ByteLen, TrimSpace, Entries, EmdMapOf;
    emd, ambiguous := emd0, ambiguous0;
    assert before + Entries(lines[..0], lawd) == before by { EntriesOfNone(lines[..0], lawd); }
    for i := 0 to |lines|
      invariant EmdMap(emd, ambiguous) == EmdMapOf(before + Entries(lines[..i], lawd))
    {
      OneLineMore(before, lines, i, lawd);
      if lines[i].Garbled? { continue; }
      var parts := lines[i].parts;
      if |parts| < 5 { continue; }
      var bcode := parts[1];
      if ByteLen(bcode) != 10 || !(lawd <= bcode) { continue; }
      var name := TrimSpace(parts[4]);
      if name == "" { continue; }
      if name in emd && emd[name] != bcode {
        ambiguous := ambiguous + {name};
        emd := emd - {name};
        continue;
      }
      if name !in ambiguous {
        emd := emd[name := bcode];
      }
    }
    assert lines[..|lines|] == lines;
  }

  lemma {:induction false} AllEntriesConcat(a: seq<Source>, b: seq<Source>, lawd: string)
    ensures AllEntries(a + b, lawd) == AllEntries(a, lawd) + AllEntries(b, lawd)
    decreases |b|
  {
    hide Entries;
    if b == [] {
      assert a + b == a;
    } else {
      var init, last := b[..|b| - 1], b[|b| - 1];
      AllEntriesConcat(a, init, lawd);
      var all := a + b;
      assert all[..|all| - 1] == a + init && all[|all| - 1] == last;
      var more := if last.Text? then Entries(last.lines, lawd) else [];
      assert AllEntries(all, lawd) == AllEntries(a + init, lawd) + more;
      assert AllEntries(b, lawd) == AllEntries(init, lawd) + more;
    }
  }

  lemma OneFileMore(before: seq<Source>, files: seq<Source>, i: nat, lawd: string)
    requires i < |files| && files[i].Text?
    ensures AllEntries(before + files[..i + 1], lawd)
            == AllEntries(before + files[..i], lawd) + Entries(files[i].lines, lawd)
  {
    hide Entries;
    var now := before + files[..i + 1];
    assert now[..|now| - 1] == before + files[..i];
  }

  /** The files of one archive, up to the first that does not open. */
  method ReadArchive(files: seq<Source>, lawd: string, emd0: map<string, string>, ambiguous0: set<string>,
                     ghost before: seq<Source>)
    returns (emd: map<string, string>, ambiguous: set<string>, ok: bool)
    requires EmdMap(emd0, ambiguous0) == EmdMapOf(AllEntries(before, lawd))
    ensures ok <==> Readable(files)
    ensures ok ==> EmdMap(emd, ambiguous) == EmdMapOf(AllEntries(before + files, lawd))
  {
    hide EmdMapOf, Entries, AllEntries;
    emd, ambiguous := emd0, ambiguous0;
    assert before + files[..0] == before;
    for i := 0 to |files|
      invariant Readable(files[..i])
      invariant EmdMap(emd, ambiguous) == EmdMapOf(AllEntries(before + files[..i], lawd))
    {
      if files[i].Unreadable? { return emd, ambiguous, false; }
      OneFileMore(before, files, i, lawd);
      emd, ambiguous := ReadFile(files[i].lines, lawd, emd, ambiguous, AllEntries(before + files[..i], lawd));
    }
    assert files[..|files|] == files;
    ok := true;
  }

  lemma OneArchiveMore(zips: seq<Archive>, i: nat)
    requires i < |zips|
    ensures Sources(zips[..i + 1]) == Sources(zips[..i]) + (if zips[i].Damaged? then [Unreadable] else zips[i].files)
  {
    assert zips[..i + 1][..i] == zips[..i];
  }

  lemma {:induction false} PrefixOfSources(zips: seq<Archive>, i: nat)
    requires i <= |zips|
    ensures Sources(zips[..i]) <= Sources(zips)
  {
    if i == |zips| {
      assert zips[..i] == zips;
    } else {
      PrefixOfSources(zips[..|zips| - 1], i);
      assert zips[..|zips| - 1][..i] == zips[..i];
    }
  }

  lemma NotReadable(zips: seq<Archive>, i: nat)
    requires i < |zips| && (zips[i].Damaged? || !Readable(zips[i].files))
    ensures !Readable(Sources(zips))
  {
    PrefixOfSources(zips, i + 1);
    OneArchiveMore(zips, i);
    var now, n := Sources(zips[..i + 1]), |Sources(zips[..i])|;
    if zips[i].Damaged? {
      assert now[n] == Unreadable;
      assert Sources(zips)[n] == Unreadable;
    } else {
      var k :| 0 <= k < |zips[i].files| && !zips[i].files[k].Text?;
      assert now[n + k] == zips[i].files[k];
      assert Sources(zips)[n + k] == zips[i].files[k];
    }
  }

  /** All files of all archives in order; no archive at all, or one or a file of one
      that does not open, is an error. */
  method BuildEmdMap(zips: seq<Archive>, lawd: string) returns (r: Option<EmdMap>)
    ensures r.Some? <==> zips != [] && Readable(Sources(zips))
    ensures r.Some? ==> r.value == EmdMapOf(AllEntries(Sources(zips), lawd))
  {
    if zips == [] { return None; }
    var emd: map<string, string>, ambiguous: set<string> := map[], {};
    assert zips[..0] == [] && EmdMap(emd, ambiguous) == EmdMapOf(AllEntries(Sources(zips[..0]), lawd));
    hide EmdMapOf, Entries, AllEntries, Sources;
    for i := 0 to |zips|
      invariant Readable(Sources(zips[..i]))
      invariant EmdMap(emd, ambiguous) == EmdMapOf(AllEntries(Sources(zips[..i]), lawd))
    {
      OneArchiveMore(zips, i);
      if zips[i].Damaged? {
        NotReadable(zips, i);
        return None;
      }
      var ok;
      emd, ambiguous, ok := ReadArchive(zips[i].files, lawd, emd, ambiguous, Sources(zips[..i]));
      if !ok {
        NotReadable(zips, i);
        return None;
      }
    }
    assert zips[..|zips|] == zips;
    return Some(EmdMap(emd, ambiguous));
  }

  // ----- the items of one month

  datatype Item = Item(umd: string, amount: string, area: string, year: string, month: string, day: string,
                       jibun: string, landUse: string, jimok: string)

  datatype Date = Date(year: int, month: int, day: int)

  datatype Row = Row(emdCode: string, jibun: string, date: Date, area: real, price: int,
                     useZone: string, category: string, geom: Option<string>, source: string)

  /** Number and date parsing, and the point of each town in the parcel table. */
  datatype World = World(parseInt: string -> Option<int>, parseFloat: string -> Option<real>,
                         toDate: (string, string, string) -> Option<Date>, centroid: string -> Option<string>)

  const SOURCE := "molit_rt"

  function WithoutCommas(s: string): string {
    if s == "" then "" else (if s[0] == ',' then "" else [s[0]]) + WithoutCommas(s[1..])
  }

  /** A 64-bit integer. */
  function Wrap(x: int): int {
    (x + 0x8000_0000_0000_0000) % 0x1_0000_0000_0000_0000 - 0x8000_0000_0000_0000
  }

  /** Sale(None) is a row whose date the database refuses. */
  datatype Fate = Ambiguous | NoEmd | Sale(row: Option<Row>)

  function FateOf(it: Item, m: EmdMap, w: World): Fate {
    var umd := TrimSpace(it.umd);
    if umd !in m.code then (if umd in m.ambiguous then Ambiguous else NoEmd)
    else
      var amount := w.parseInt(WithoutCommas(TrimSpace(it.amount)));
      var area := w.parseFloat(TrimSpace(it.area));
      var (y, mo, d) := (TrimSpace(it.year), TrimSpace(it.month), TrimSpace(it.day));
      if amount.None? || area.None? || area.value <= 0.0 || y == "" || mo == "" || d == "" then NoEmd
      else
        var date := w.toDate(y, mo, d);
        if date.None? then Sale(None)
        else Sale(Some(Row(m.code[umd], TrimSpace(it.jibun), date.value, area.value, Wrap(amount.value * 10000),
                           TrimSpace(it.landUse), TrimSpace(it.jimok), w.centroid(m.code[umd]), SOURCE)))
  }

  lemma {:induction false} CommasGone(s: string)
    ensures ',' !in WithoutCommas(s)
    ensures ',' !in s ==> WithoutCommas(s) == s
  {
    if s != "" { CommasGone(s[1..]); }
  }

  lemma {:induction false} CommasCut(a: string, b: string)
    ensures WithoutCommas(a + "," + b) == WithoutCommas(a) + WithoutCommas(b)
  {
    var s := a + "," + b;
    if a == "" {
      assert s[1..] == b;
    } else {
      assert s[1..] == a[1..] + "," + b;
      CommasCut(a[1..], b);
    }
  }

  /** The amount and the area of an item, as they are read. */
  function AmountOf(it: Item, w: World): Option<int> { w.parseInt(WithoutCommas(TrimSpace(it.amount))) }

  function AreaOf(it: Item, w: World): Option<real> { w.parseFloat(TrimSpace(it.area)) }

  /** Which items are sales, which are passed over for an ambiguous town, and which for
      any other reason. */
  lemma FateIs(it: Item, m: EmdMap, w: World)
    ensures var f, umd := FateOf(it, m, w), TrimSpace(it.umd);
      && (f.Sale? <==>
            umd in m.code && AmountOf(it, w).Some? && AreaOf(it, w).Some? && AreaOf(it, w).value > 0.0
            && !AllSpace(it.year) && !AllSpace(it.month) && !AllSpace(it.day))
      && (f == Ambiguous <==> umd !in m.code && umd in m.ambiguous)
  {
    hide AllSpace, TrimSpace, WithoutCommas;
    BlankTrims(it.year);
    BlankTrims(it.month);
    BlankTrims(it.day);
  }

  /** What is stored of a sale: the code and point of its town, the date, the area, the
      price in won where the item has ten-thousands, the use zone and the land category. */
  lemma SaleIs(it: Item, m: EmdMap, w: World)
    requires FateOf(it, m, w).Sale? && FateOf(it, m, w).row.Some?
    ensures var row, umd := FateOf(it, m, w).row.value, TrimSpace(it.umd);
      && umd in m.code && row.emdCode == m.code[umd] && row.geom == w.centroid(row.emdCode)
      && w.toDate(TrimSpace(it.year), TrimSpace(it.month), TrimSpace(it.day)) == Some(row.date)
      && AreaOf(it, w) == Some(row.area) && row.area > 0.0
      && AmountOf(it, w).Some?
      && (-922337203685477 <= AmountOf(it, w).value <= 922337203685477 ==> row.price == 10000 * AmountOf(it, w).value)
      && IsTrimmed(row.jibun, it.jibun) && IsTrimmed(row.useZone, it.landUse) && IsTrimmed(row.category, it.jimok)
      && row.source == "molit_rt"
  {
    hide TrimSpace, WithoutCommas, IsTrimmed;
    TrimIs(it.jibun);
    TrimIs(it.landUse);
    TrimIs(it.jimok);
    if AmountOf(it, w).Some? { WrapIs(AmountOf(it, w).value * 10000); }
  }

  /** A number of 64 bits is itself. */
  lemma WrapIs(x: int)
    ensures -0x8000_0000_0000_0000 <= x <= 0x7FFF_FFFF_FFFF_FFFF ==> Wrap(x) == x
    ensures (Wrap(x) - x) % 0x1_0000_0000_0000_0000 == 0
  {
  }

  /** The insertions the items call for, in order. */
  function Insertions(items: seq<Item>, m: EmdMap, w: World): seq<Option<Row>> {
    if items == [] then []
    else
      var f := FateOf(items[|items| - 1], m, w);
      Insertions(items[..|items| - 1], m, w) + (if f.Sale? then [f.row] else [])
  }

  function Rows(ins: seq<Option<Row>>): seq<Row> {
    if ins == [] then []
    else Rows(ins[..|ins| - 1]) + (if ins[|ins| - 1].Some? then [ins[|ins| - 1].value] else [])
  }

  datatype Stats = Stats(fetched: nat, inserted: nat, noEmd: nat, noGeom: nat, ambiguous: nat)

  /** How many items meet each fate. */
  function Count(items: seq<Item>, m: EmdMap, w: World, wanted: Fate -> bool): nat {
    if items == [] then 0
    else
      Count(items[..|items| - 1], m, w, wanted) + (if wanted(FateOf(items[|items| - 1], m, w)) then 1 else 0)
  }

  predicate IsSale(f: Fate) { f.Sale? }

  predicate IsNoEmd(f: Fate) { f.NoEmd? }

  predicate HasNoPoint(f: Fate) { f.Sale? && f.row.Some? && f.row.value.geom.None? }

  predicate IsAmbiguous(f: Fate) { f.Ambiguous? }

  function Tally(items: seq<Item>, m: EmdMap, w: World): Stats {
    Stats(|items|, Count(items, m, w, IsSale), Count(items, m, w, IsNoEmd), Count(items, m, w, HasNoPoint),
          Count(items, m, w, IsAmbiguous))
  }

  /** The places of the items that meet a fate. */
  function Meeting(items: seq<Item>, m: EmdMap, w: World, wanted: Fate -> bool): set<int> {
    set i | 0 <= i < |items| && wanted(FateOf(items[i], m, w))
  }

  lemma {:induction false} CountIs(items: seq<Item>, m: EmdMap, w: World, wanted: Fate -> bool)
    ensures Count(items, m, w, wanted) == |Meeting(items, m, w, wanted)|
  {
    hide FateOf;
    var all := Meeting(items, m, w, wanted);
    if items == [] {
      assert all == {};
    } else {
      var init, n := items[..|items| - 1], |items| - 1;
      CountIs(init, m, w, wanted);
      var before := Meeting(init, m, w, wanted);
      if wanted(FateOf(items[n], m, w)) {
        assert all == before + {n};
      } else {
        assert all == before;
      }
    }
  }

  /** Each counter is the number of items with its fate. */
  lemma TallyIs(items: seq<Item>, m: EmdMap, w: World)
    ensures var s := Tally(items, m, w);
      && s.fetched == |items|
      && s.inserted == |set i | 0 <= i < |items| && FateOf(items[i], m, w).Sale?|
      && s.noEmd == |set i | 0 <= i < |items| && FateOf(items[i], m, w) == NoEmd|
      && s.ambiguous == |set i | 0 <= i < |items| && FateOf(items[i], m, w) == Ambiguous|
      && s.noGeom == |set i | 0 <= i < |items| && HasNoPoint(FateOf(items[i], m, w))|
  {
    hide FateOf, Count, HasNoPoint;
    CountIs(items, m, w, HasNoPoint);
    assert Meeting(items, m, w, HasNoPoint) == set i | 0 <= i < |items| && HasNoPoint(FateOf(items[i], m, w));
    CountIs(items, m, w, IsSale);
    CountIs(items, m, w, IsNoEmd);
    CountIs(items, m, w, IsAmbiguous);
    assert Meeting(items, m, w, IsSale)
        == set i | 0 <= i < |items| && FateOf(items[i], m, w).Sale?;
    assert Meeting(items, m, w, IsNoEmd)
        == set i | 0 <= i < |items| && FateOf(items[i], m, w) == NoEmd;
    assert Meeting(items, m, w, IsAmbiguous)
        == set i | 0 <= i < |items| && FateOf(items[i], m, w) == Ambiguous;
  }

  /** The counters add up, and a row without a point is a row inserted. */
  lemma {:induction false} CountersAddUp(items: seq<Item>, m: EmdMap, w: World)
    ensures var s := Tally(items, m, w);
      && s.fetched == s.inserted + s.noEmd + s.ambiguous
      && s.noGeom <= s.inserted
      && s.inserted == |Insertions(items, m, w)|
  {
    if items != [] { CountersAddUp(items[..|items| - 1], m, w); }
  }

  // ----- delete and insert

  predicate Before(a: Date, b: Date) {
    a.year < b.year || (a.year == b.year && (a.month < b.month || (a.month == b.month && a.day < b.day)))
  }

  /** One month on, for a first of the month. */
  function NextMonth(d: Date): Date {
    if d.month == 12 then Date(d.year + 1, 1, d.day) else Date(d.year, d.month + 1, d.day)
  }

  predicate InMonth(d: Date, start: Date) {
    !Before(d, start) && Before(d, NextMonth(start))
  }

  predicate Due(r: Row, lawd: string, start: Date) {
    Like(lawd + "%", r.emdCode) && r.source == SOURCE && InMonth(r.date, start)
  }

  function Kept(table: seq<Row>, lawd: string, start: Date): seq<Row> {
    if table == [] then []
    else (if Due(table[0], lawd, start) then [] else [table[0]]) + Kept(table[1..], lawd, start)
  }

  function Reloaded(table: seq<Row>, batch: seq<Row>, lawd: string, start: Date): seq<Row> {
    Kept(table, lawd, start) + batch
  }

  datatype CommitOutcome = Done | Refused | AckLost

  datatype Faults = Faults(begin: bool, delete: bool, insertAt: Option<nat>, commit: CommitOutcome)

  ghost predicate InsertsGoWell(ins: seq<Option<Row>>, faults: Faults) {
    forall k :: 0 <= k < |ins| ==> ins[k].Some? && faults.insertAt != Some(k)
  }

  lemma NothingYet(m: EmdMap, w: World)
    ensures Insertions([], m, w) == [] && Rows([]) == [] && Tally([], m, w) == Stats(0, 0, 0, 0, 0)
  {
  }

  lemma OneMore(items: seq<Item>, i: nat, m: EmdMap, w: World)
    requires i < |items|
    ensures var f, s := FateOf(items[i], m, w), Tally(items[..i], m, w);
      && Insertions(items[..i + 1], m, w) == Insertions(items[..i], m, w) + (if f.Sale? then [f.row] else [])
      && Rows(Insertions(items[..i + 1], m, w)) ==
         Rows(Insertions(items[..i], m, w)) + (if f.Sale? && f.row.Some? then [f.row.value] else [])
      && Tally(items[..i + 1], m, w) ==
         match f
         case Ambiguous => Stats(i + 1, s.inserted, s.noEmd, s.noGeom, s.ambiguous + 1)
         case NoEmd => Stats(i + 1, s.inserted, s.noEmd + 1, s.noGeom, s.ambiguous)
         case Sale(row) =>
           Stats(i + 1, s.inserted + 1, s.noEmd,
                 s.noGeom + (if row.Some? && row.value.geom.None? then 1 else 0), s.ambiguous)
  {
    hide FateOf;
    assert items[..i + 1][..i] == items[..i];
    var ins, f := Insertions(items[..i], m, w), FateOf(items[i], m, w);
    if f.Sale? {
      assert (ins + [f.row])[..|ins|] == ins;
    } else {
      assert ins + [] == ins;
      assert Rows(ins) + [] == Rows(ins);
    }
  }

  // ----- failing half-way

  /** Item i calls for an insertion that fails: its date is refused, or the database
      fails on an insertion with that number. */
  predicate FailsHere(items: seq<Item>, i: nat, m: EmdMap, w: World, faults: Faults)
    requires i < |items|
  {
    var f := FateOf(items[i], m, w);
    f.Sale? && (f.row.None? || faults.insertAt == Some(|Insertions(items[..i], m, w)|))
  }

  /** The first such item; |items| when there is none. */
  function FirstFailure(items: seq<Item>, m: EmdMap, w: World, faults: Faults): (i: nat)
    ensures i <= |items|
  {
    FailureFrom(items, 0, m, w, faults)
  }

  function FailureFrom(items: seq<Item>, from: nat, m: EmdMap, w: World, faults: Faults): (i: nat)
    requires from <= |items|
    ensures from <= i <= |items|
    decreases |items| - from
  {
    if from == |items| || FailsHere(items, from, m, w, faults) then from
    else FailureFrom(items, from + 1, m, w, faults)
  }

  lemma {:induction false} FailureIsFirst(items: seq<Item>, from: nat, m: EmdMap, w: World, faults: Faults)
    requires from <= |items|
    ensures var i := FailureFrom(items, from, m, w, faults);
      && (i < |items| ==> FailsHere(items, i, m, w, faults))
      && forall j :: from <= j < i ==> !FailsHere(items, j, m, w, faults)
    decreases |items| - from
  {
    hide FailsHere;
    if from < |items| && !FailsHere(items, from, m, w, faults) { FailureIsFirst(items, from + 1, m, w, faults); }
  }

  /** The counters when item i fails: those of the items before it, and the missing point
      of the item itself, which is counted before the insertion. */
  function Partial(items: seq<Item>, i: nat, m: EmdMap, w: World): Stats
    requires i < |items|
  {
    var s, umd := Tally(items[..i], m, w), TrimSpace(items[i].umd);
    s.(fetched := |items|,
       noGeom := s.noGeom + if umd in m.code && w.centroid(m.code[umd]).None? then 1 else 0)
  }

  /** The counters of a load that stops at an item count the items before it, and a missing
      point also for the item itself. */
  lemma PartialIs(items: seq<Item>, i: nat, m: EmdMap, w: World, faults: Faults)
    requires i < |items| && FailsHere(items, i, m, w, faults)
    ensures var p, t, umd := Partial(items, i, m, w), Tally(items[..i], m, w), TrimSpace(items[i].umd);
      && p.fetched == |items| && p.inserted + p.noEmd + p.ambiguous == i
      && p.inserted == t.inserted && p.noEmd == t.noEmd && p.ambiguous == t.ambiguous
      && umd in m.code
      && p.noGeom == t.noGeom + if w.centroid(m.code[umd]) == None then 1 else 0
  {
    hide TrimSpace, Count, WithoutCommas;
    CountersAddUp(items[..i], m, w);
  }

  /** The insertions all go well if and only if no item fails. */
  lemma {:induction false} NoFailureMeans(items: seq<Item>, n: nat, m: EmdMap, w: World, faults: Faults)
    requires n <= |items| && forall j :: 0 <= j < n ==> !FailsHere(items, j, m, w, faults)
    ensures InsertsGoWell(Insertions(items[..n], m, w), faults)
  {
    hide FateOf, Tally, Insertions, Rows;
    if n == 0 {
      NothingYet(m, w);
      assert items[..0] == [];
    } else {
      NoFailureMeans(items, n - 1, m, w, faults);
      OneMore(items, n - 1, m, w);
      assert !FailsHere(items, n - 1, m, w, faults);
    }
  }

  /** What the caller gets: counters on success, counters so far when an insertion or the
      commit fails, and only an error before. */
  datatype Loaded = Loaded(stats: Stats) | Broken(partial: Stats) | Failed

  class Store {
    var landSales: seq<Row>

    /** `reply` is None when the request fails or is refused. */
    method Load(zips: seq<Archive>, lawd: string, ym: string, reply: Option<seq<Item>>, w: World, faults: Faults)
      returns (r: Loaded)
      modifies this
      ensures
        if zips == [] || !Readable(Sources(zips)) || reply.None? || |ym| < 6 || faults.begin || faults.delete
           || w.toDate(ym[..4], ym[4..6], "01").None?
        then landSales == old(landSales) && r == Failed
        else
          var m, items := EmdMapOf(AllEntries(Sources(zips), lawd)), reply.value;
          var i := FirstFailure(items, m, w, faults);
          var after := Reloaded(old(landSales), Rows(Insertions(items, m, w)), lawd,
                                w.toDate(ym[..4], ym[4..6], "01").value);
          if i < |items| then landSales == old(landSales) && r == Broken(Partial(items, i, m, w))
          else
            match faults.commit
            case Done => landSales == after && r == Loaded(Tally(items, m, w))
            case Refused => landSales == old(landSales) && r == Broken(Tally(items, m, w))
            case AckLost => landSales == after && r == Broken(Tally(items, m, w))
    {
      hide AllEntries, EmdMapOf, Kept, Rows, Insertions, Tally, TrimSpace, WithoutCommas, Wrap, ByteLen,
           Sources;
      var names := BuildEmdMap(zips, lawd);
      if names.None? || reply.None? { return Failed; }
      var m, items := names.value, reply.value;
      var fetched := |items|;
      var inserted, noEmd, noGeom, ambiguous := 0, 0, 0, 0;
      if faults.begin || |ym| < 6 { return Failed; }
      var start := w.toDate(ym[..4], ym[4..6], "01");
      if start.None? || faults.delete { return Failed; }
      var tx := Kept(landSales, lawd, start.value);
      var centroids: map<string, Option<string>> := map[];
      ghost var failure := FirstFailure(items, m, w, faults);
      FailureIsFirst(items, 0, m, w, faults);
      assert tx == tx + [] && items[..0] == [];
      NothingYet(m, w);
      for i := 0 to |items|
        invariant landSales == old(landSales) && i <= failure
        invariant forall b :: b in centroids ==> centroids[b] == w.centroid(b)
        invariant tx == Kept(landSales, lawd, start.value) + Rows(Insertions(items[..i], m, w))
        invariant Stats(i, inserted, noEmd, noGeom, ambiguous) == Tally(items[..i], m, w)
        invariant inserted == |Insertions(items[..i], m, w)|
      {
        OneMore(items, i, m, w);
        var it := items[i];
        var umd := TrimSpace(it.umd);
        if umd !in m.code {
          if umd in m.ambiguous { ambiguous := ambiguous + 1; } else { noEmd := noEmd + 1; }
          continue;
        }
        var bcode := m.code[umd];
        var amount := w.parseInt(WithoutCommas(TrimSpace(it.amount)));
        var area := w.parseFloat(TrimSpace(it.area));
        var y, mo, d := TrimSpace(it.year), TrimSpace(it.month), TrimSpace(it.day);
        if amount.None? || area.None? || area.value <= 0.0 || y == "" || mo == "" || d == "" {
          noEmd := noEmd + 1;
          continue;
        }
        if bcode !in centroids {
          centroids := centroids[bcode := w.centroid(bcode)];
        }
        var geom := centroids[bcode];
        ghost var before := noGeom;
        if geom.None? { noGeom := noGeom + 1; }
        var date := w.toDate(y, mo, d);
        if date.None? || faults.insertAt == Some(inserted) {
          assert FailsHere(items, i, m, w, faults);
          return Broken(Stats(fetched, inserted, noEmd, noGeom, ambiguous));
        }
        var row := Row(bcode, TrimSpace(it.jibun), date.value, area.value, Wrap(amount.value * 10000),
                       TrimSpace(it.landUse), TrimSpace(it.jimok), geom, SOURCE);
        assert !FailsHere(items, i, m, w, faults);
        tx := tx + [row];
        inserted := inserted + 1;
      }
      assert items[..|items|] == items;
      var stats := Stats(fetched, inserted, noEmd, noGeom, ambiguous);
      if faults.commit == Refused { return Broken(stats); }
      landSales := tx;
      if faults.commit == AckLost { return Broken(stats); }
      return Loaded(stats);
    }
  }

  // ----- what a reload leaves behind

  lemma {:induction false} KeptCounts(table: seq<Row>, lawd: string, start: Date, x: Row)
    ensures multiset(Kept(table, lawd, start))[x] == if Due(x, lawd, start) then 0 else multiset(table)[x]
  {
    hide Due;
    if table != [] {
      KeptCounts(table[1..], lawd, start, x);
      assert table == [table[0]] + table[1..];
    }
  }

  /** After a reload the rows due are exactly the batch's, and any other row is there
      as often as before, plus as often as the batch holds it. */
  lemma ReloadCounts(table: seq<Row>, batch: seq<Row>, lawd: string, start: Date, x: Row)
    ensures multiset(Reloaded(table, batch, lawd, start))[x] ==
      (if Due(x, lawd, start) then 0 else multiset(table)[x]) + multiset(batch)[x]
  {
    KeptCounts(table, lawd, start, x);
  }

  lemma {:induction false} KeptConcat(a: seq<Row>, b: seq<Row>, lawd: string, start: Date)
    ensures Kept(a + b, lawd, start) == Kept(a, lawd, start) + Kept(b, lawd, start)
  {
    hide Due;
    if a == [] {
      assert a + b == b;
    } else {
      assert (a + b)[1..] == a[1..] + b;
      KeptConcat(a[1..], b, lawd, start);
    }
  }

  lemma {:induction false} KeptTwice(table: seq<Row>, lawd: string, start: Date)
    ensures Kept(Kept(table, lawd, start), lawd, start) == Kept(table, lawd, start)
  {
    hide Due;
    if table != [] {
      KeptTwice(table[1..], lawd, start);
      var rest := Kept(table[1..], lawd, start);
      if Due(table[0], lawd, start) {
        assert [] + rest == rest;
      } else {
        assert ([table[0]] + rest)[1..] == rest;
      }
    }
  }

  lemma {:induction false} KeptNothing(batch: seq<Row>, lawd: string, start: Date)
    ensures Kept(batch, lawd, start) == [] <==> forall i :: 0 <= i < |batch| ==> Due(batch[i], lawd, start)
  {
    hide Due;
    if batch != [] {
      KeptNothing(batch[1..], lawd, start);
      assert forall i :: 1 <= i < |batch| ==> batch[i] == batch[1..][i - 1];
    }
  }

  /** Loading twice leaves what loading once does if and only if the second delete
      reaches every row the first load inserted. */
  lemma TwiceIsOnceIfAllDue(table: seq<Row>, batch: seq<Row>, lawd: string, start: Date)
    ensures var once := Reloaded(table, batch, lawd, start);
      multiset(Reloaded(once, batch, lawd, start)) == multiset(once)
      <==> forall i :: 0 <= i < |batch| ==> Due(batch[i], lawd, start)
  {
    hide Due;
    var kept, again := Kept(table, lawd, start), Kept(batch, lawd, start);
    KeptConcat(kept, batch, lawd, start);
    KeptTwice(table, lawd, start);
    KeptNothing(batch, lawd, start);
    assert Reloaded(Reloaded(table, batch, lawd, start), batch, lawd, start) == kept + again + batch;
    if again == [] {
      assert kept + again == kept;
    } else {
      assert |multiset(kept + again + batch)| == |kept| + |again| + |batch|;
      assert |multiset(kept + batch)| == |kept| + |batch|;
    }
  }

  /** What every inserted row looks like. */
  lemma {:induction false} BatchIsFromDistrict(items: seq<Item>, sources: seq<Source>, lawd: string, w: World, i: nat)
    requires i < |Rows(Insertions(items, EmdMapOf(AllEntries(sources, lawd)), w))|
    ensures var row := Rows(Insertions(items, EmdMapOf(AllEntries(sources, lawd)), w))[i];
      lawd <= row.emdCode && row.source == "molit_rt"
  {
    hide AllEntries, EmdMapOf, TrimSpace, WithoutCommas, Wrap, Tally, Count;
    var m, n := EmdMapOf(AllEntries(sources, lawd)), |items|;
    if n > 0 {
      OneMore(items, n - 1, m, w);
      assert items[..n] == items;
      if i < |Rows(Insertions(items[..n - 1], m, w))| {
        BatchIsFromDistrict(items[..n - 1], sources, lawd, w, i);
      } else {
        MappedCodesAreLocal(sources, lawd, TrimSpace(items[n - 1].umd));
      }
    }
  }

  /** The monthly reload is idempotent if and only if every row it inserts is dated in the
      month asked for. */
  lemma ReloadIsIdempotent(table: seq<Row>, items: seq<Item>, sources: seq<Source>, lawd: string, start: Date, w: World)
    requires '\\' !in lawd
    ensures var batch := Rows(Insertions(items, EmdMapOf(AllEntries(sources, lawd)), w));
      var once := Reloaded(table, batch, lawd, start);
      multiset(Reloaded(once, batch, lawd, start)) == multiset(once)
      <==> forall i :: 0 <= i < |batch| ==> InMonth(batch[i].date, start)
  {
    hide AllEntries, EmdMapOf, Rows, Insertions, InMonth, Reloaded, Like;
    var batch := Rows(Insertions(items, EmdMapOf(AllEntries(sources, lawd)), w));
    forall i | 0 <= i < |batch| ensures Due(batch[i], lawd, start) <==> InMonth(batch[i].date, start) {
      BatchIsFromDistrict(items, sources, lawd, w, i);
      PrefixIsFound(lawd, batch[i].emdCode);
    }
    TwiceIsOnceIfAllDue(table, batch, lawd, start);
  }

  /** A reload whose rows are all dated in the month leaves every row of another district,
      month or source as it was, and of its own month holds exactly the rows inserted. */
  lemma ReloadIsFramed(table: seq<Row>, items: seq<Item>, sources: seq<Source>, lawd: string, start: Date, w: World,
                       x: Row)
    requires NoMeta(lawd)
    requires forall r :: r in Rows(Insertions(items, EmdMapOf(AllEntries(sources, lawd)), w)) ==> InMonth(r.date, start)
    ensures var batch := Rows(Insertions(items, EmdMapOf(AllEntries(sources, lawd)), w));
      multiset(Reloaded(table, batch, lawd, start))[x] ==
      if lawd <= x.emdCode && x.source == "molit_rt" && InMonth(x.date, start)
      then multiset(batch)[x] else multiset(table)[x]
  {
    hide AllEntries, EmdMapOf, Rows, Insertions, InMonth, Reloaded, Like;
    var batch := Rows(Insertions(items, EmdMapOf(AllEntries(sources, lawd)), w));
    ReloadCounts(table, batch, lawd, start, x);
    PrefixIsExact(lawd, x.emdCode);
    if x in batch {
      var i :| 0 <= i < |batch| && batch[i] == x;
      BatchIsFromDistrict(items, sources, lawd, w, i);
    }
  }

  /** The half-open interval of the delete is the calendar month. */
  lemma IntervalIsTheMonth(d: Date, start: Date)
    requires start.day == 1 && 1 <= start.month <= 12 && 1 <= d.month <= 12 && 1 <= d.day
    ensures InMonth(d, start) <==> d.year == start.year && d.month == start.month
  {
  }

  // ----- a reload that is not idempotent

  const DISTRICT: string := "11680"
  const CODE: string := "1168010100"
  const TOWN: string := "역삼동"
  const ENTRANCES: seq<Source> := [Text([Columns(["", CODE, "", "", TOWN])])]
  const JANUARY: seq<Item> := [Item(TOWN, "1", "1", "2024", "1", "31", "", "", "")]

  /** Readers of the numbers and the date of the item, and no parcels. */
  function PlainWorld(): World {
    World(_ => Some(1), _ => Some(1.0), (y, m, d) => Some(Date(2024, 1, 31)), _ => None)
  }

  lemma CodeIs()
    ensures DISTRICT <= CODE && ByteLen(CODE) == 10 && '\\' !in DISTRICT
  {
    assert CODE[5..] == "10100" && CODE[..5] == DISTRICT;
    FiveDigits("11680");
    FiveDigits("10100");
    ByteLenConcat("11680", "10100");
    assert "11680" + "10100" == CODE;
  }

  lemma FiveDigits(s: string)
    requires |s| == 5 && forall i :: 0 <= i < 5 ==> s[i] <= '9'
    ensures ByteLen(s) == 5
  {
    assert ByteLen(s[4..]) == 1 + ByteLen(s[4..][1..]);
    assert s[3..][1..] == s[4..] && s[2..][1..] == s[3..] && s[1..][1..] == s[2..] && s[4..][1..] == "";
    assert ByteLen(s[3..]) == 2 && ByteLen(s[2..]) == 3 && ByteLen(s[1..]) == 4;
  }

  lemma {:induction false} ByteLenConcat(a: string, b: string)
    ensures ByteLen(a + b) == ByteLen(a) + ByteLen(b)
  {
    if a == "" {
      assert a + b == b;
    } else {
      assert (a + b)[1..] == a[1..] + b;
      ByteLenConcat(a[1..], b);
    }
  }

  lemma FieldsAreTrimmed()
    ensures TrimSpace(TOWN) == TOWN && TOWN != ""
    ensures TrimSpace("2024") != "" && TrimSpace("1") != "" && TrimSpace("31") != ""
  {
  }

  lemma MapOfEntrances()
    ensures EmdMapOf(AllEntries(ENTRANCES, DISTRICT)) == EmdMap(map[TOWN := CODE], {})
  {
    hide DISTRICT, CODE, TOWN, TrimSpace, ByteLen;
    CodeIs();
    FieldsAreTrimmed();
    var line := Columns(["", CODE, "", "", TOWN]);
    assert Given(line, DISTRICT) == [Entry(TOWN, CODE)];
    assert [line][..0] == [] && ENTRANCES[..0] == [];
    assert Entries([line], DISTRICT) == [] + [Entry(TOWN, CODE)];
    assert AllEntries(ENTRANCES, DISTRICT) == [] + [Entry(TOWN, CODE)];
    assert [Entry(TOWN, CODE)][..0] == [];
    assert EmdMapOf([Entry(TOWN, CODE)]) == Add(EmdMap(map[], {}), Entry(TOWN, CODE));
  }

  lemma JanuaryBatch() returns (row: Row)
    ensures row.date == Date(2024, 1, 31)
    ensures Rows(Insertions(JANUARY, EmdMapOf(AllEntries(ENTRANCES, DISTRICT)), PlainWorld())) == [row]
  {
    hide DISTRICT, CODE, TOWN, TrimSpace, AllEntries, EmdMapOf, ENTRANCES, WithoutCommas, Insertions, Rows;
    MapOfEntrances();
    FieldsAreTrimmed();
    var m, w := EmdMapOf(AllEntries(ENTRANCES, DISTRICT)), PlainWorld();
    assert FateOf(JANUARY[0], m, w).Sale? && FateOf(JANUARY[0], m, w).row.Some?;
    row := FateOf(JANUARY[0], m, w).row.value;
    OneMore(JANUARY, 0, m, w);
    NothingYet(m, w);
    assert JANUARY[..0] == [] && JANUARY[..1] == JANUARY;
  }

  /** The January sale that a request for February returns is there twice after the
      second load. */
  lemma ReloadCanDuplicate(table: seq<Row>)
    ensures var batch := Rows(Insertions(JANUARY, EmdMapOf(AllEntries(ENTRANCES, DISTRICT)), PlainWorld()));
      var once := Reloaded(table, batch, DISTRICT, Date(2024, 2, 1));
      multiset(Reloaded(once, batch, DISTRICT, Date(2024, 2, 1))) != multiset(once)
  {
    hide DISTRICT, AllEntries, EmdMapOf, ENTRANCES, JANUARY, Insertions, Rows, Reloaded;
    var row := JanuaryBatch();
    CodeIs();
    assert !InMonth(row.date, Date(2024, 2, 1));
    assert [row][0] == row;
    ReloadIsIdempotent(table, JANUARY, ENTRANCES, DISTRICT, Date(2024, 2, 1), PlainWorld());
  }
}
