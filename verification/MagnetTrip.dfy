/** The list of duplicate magnets that one script prints is read back by the other. */
module MagnetTrip {
  import opened MagnetText
  import opened Magnets
  import Decimals
  import Strings
  import StableSort

  ghost predicate DistinctNumbers(ms: seq<Magnet>)
  {
    forall i, j :: 0 <= i < j < |ms| ==> ms[i].number != ms[j].number
  }

  /** What the tracker gives: the address of the issue, and labels on one line */
  ghost predicate FromTracker(ms: seq<Magnet>)
  {
    && DistinctNumbers(ms)
    && (forall m :: m in ms ==> m.url == IssueUrl(m.number))
    && (forall m, a :: m in ms && a in m.areas ==> '\n' !in a)
  }

  // ---------- The listings ----------

  lemma {:induction false} AreasOfSpec(m: Magnet, k: nat)
    requires k <= |m.areas|
    ensures forall x :: x in AreasOf(m, k) <==> x.magnet == m && x.area in m.areas[..k]
  {
    if k != 0 {
      AreasOfSpec(m, k - 1);
      assert m.areas[..k] == m.areas[..k - 1] + [m.areas[k - 1]];
    }
  }

  lemma {:induction false} ListingsSpec(ms: seq<Magnet>)
    ensures forall x :: x in Listings(ms) <==> x.magnet in ms && x.area in x.magnet.areas
  {
    if |ms| != 0 {
      var n := |ms| - 1;
      ListingsSpec(ms[..n]);
      AreasOfSpec(ms[n], |ms[n].areas|);
      assert ms == ms[..n] + [ms[n]];
    }
  }

  lemma {:induction false} ByAreaSpec(listings: seq<Listing>, area: string)
    ensures forall m :: m in ByArea(listings, area) <==> Listing(area, m) in listings
  {
    if |listings| != 0 {
      var n := |listings| - 1;
      ByAreaSpec(listings[..n], area);
      assert listings == listings[..n] + [listings[n]];
    }
  }

  lemma {:induction false} AreasSpec(listings: seq<Listing>)
    ensures forall x :: x in listings ==> x.area in Areas(listings)
    ensures forall a :: a in Areas(listings) ==> exists m :: Listing(a, m) in listings
  {
    if |listings| != 0 {
      var n := |listings| - 1;
      AreasSpec(listings[..n]);
      assert listings == listings[..n] + [listings[n]];
      assert Listing(listings[n].area, listings[n].magnet) in listings;
      forall a | a in Areas(listings)
        ensures exists m :: Listing(a, m) in listings
      {
        if a in Areas(listings[..n]) {
          var m :| Listing(a, m) in listings[..n];
          assert Listing(a, m) in listings;
        }
      }
    }
  }

  /** The areas with their totals, as they are printed */
  function Ranked(ms: seq<Magnet>): seq<(string, nat)>
  {
    StableSort.SortDescending(Totals(Listings(ms)), AreaCount)
  }

  lemma RankedSpec(ms: seq<Magnet>)
    ensures forall a :: a in Areas(Listings(ms)) <==> exists i :: 0 <= i < |Ranked(ms)| && Ranked(ms)[i].0 == a
  {
    hide Areas, Total, Listings, StableSort.SortDescending;
    var listings := Listings(ms);
    StableSort.SortElements(Totals(listings), AreaCount);
    forall a | a in Areas(listings)
      ensures exists i :: 0 <= i < |Ranked(ms)| && Ranked(ms)[i].0 == a
    {
      var k :| 0 <= k < |Areas(listings)| && Areas(listings)[k] == a;
      assert Totals(listings)[k] in Ranked(ms);
    }
    forall i | 0 <= i < |Ranked(ms)|
      ensures Ranked(ms)[i].0 in Areas(listings)
    {
      assert Ranked(ms)[i] in Ranked(ms);
    }
  }

  /** The sections come by the duplicates of their area, the entries of a section by their own, and
      every listing of the area is an entry once. */
  lemma MostDuplicatedFirst(ms: seq<Magnet>, area: string)
    ensures StableSort.Descending(Ranked(ms), AreaCount)
    ensures forall t :: t in Ranked(ms) ==> t.1 == Total(Listings(ms), t.0)
    ensures var section := StableSort.SortDescending(ByArea(Listings(ms), area), Count);
            StableSort.Descending(section, Count) && multiset(section) == multiset(ByArea(Listings(ms), area))
  {
    hide Areas, Total, Listings, ByArea, StableSort.SortDescending, StableSort.Descending;
    var totals := Totals(Listings(ms));
    StableSort.SortSpec(totals, AreaCount, 0);
    StableSort.SortSpec(ByArea(Listings(ms), area), Count, 0);
    StableSort.SortElements(totals, AreaCount);
  }

  // ---------- Parsing the lines of a section ----------

  lemma {:induction false} ParseConcat(a: seq<string>, b: seq<string>, p: Parsed)
    requires p.Valid()
    ensures ParseLines(a + b, p) == ParseLines(b, ParseLines(a, p))
  {
    if |b| == 0 {
      assert a + b == a;
    } else {
      var n := |b| - 1;
      assert (a + b)[..|a + b| - 1] == a + b[..n];
      ParseConcat(a, b[..n], p);
    }
  }

  /** Entries are recorded below an area with a name, and skipped otherwise. */
  function AddEach(ms: seq<Magnet>, p: Parsed): (q: Parsed)
    ensures q.area == p.area
    ensures p.Valid() ==> q.Valid()
  {
    if |ms| == 0 || p.area == "" then p
    else
      var n := |ms| - 1;
      AddEach(ms[..n], p).Add(ms[n].number, ms[n].count)
  }

  lemma EntryLine(m: Magnet, p: Parsed)
    requires m.url == IssueUrl(m.number)
    ensures p.Line(Entry(m.count, m.url)) == if p.area == "" then p else p.Add(m.number, m.count)
  {
    hide ParseEntry, Find, Padded, IssueUrl, Parsed.Add;
    var line := Entry(m.count, m.url);
    EntryRoundTrip(m.count, m.number);
    assert line[0] == '-';
    EntryHasIssues(line, m.count, m.number);
  }

  lemma EntryHasIssues(line: string, count: nat, number: nat)
    requires line == Entry(count, IssueUrl(number))
    ensures Find(line, ISSUES).Some?
  {
    hide FirstWord, ParseInt, Find;
    EntryRoundTrip(count, number);
  }

  lemma {:induction false} ParseEntries(ms: seq<Magnet>, p: Parsed)
    requires p.Valid() && forall m :: m in ms ==> m.url == IssueUrl(m.number)
    ensures ParseLines(Entries(ms), p) == AddEach(ms, p)
  {
    hide Entry, Parsed.Line, Parsed.Add;
    if |ms| != 0 {
      var n := |ms| - 1;
      var line := Entry(ms[n].count, ms[n].url);
      ParseEntries(ms[..n], p);
      assert Entries(ms)[..n] == Entries(ms[..n]) by { EntriesLength(ms[..n]); }
      EntriesLength(ms);
      EntryLine(ms[n], AddEach(ms[..n], p));
    }
  }

  lemma {:induction false} EntriesLength(ms: seq<Magnet>)
    ensures |Entries(ms)| == |ms|
  {
    if |ms| != 0 {
      EntriesLength(ms[..|ms| - 1]);
    }
  }

  lemma ParseSection(area: string, ms: seq<Magnet>, p: Parsed)
    requires p.Valid() && forall m :: m in ms ==> m.url == IssueUrl(m.number)
    ensures ParseLines(Section(area, ms), p) == AddEach(ms, p.(area := Strip(area)))
  {
    hide Entries, Strip, AddEach, ParseEntry, Find, Parsed.Add;
    var head := ["", Header(area), ""];
    assert Header(area)[3..] == area;
    var q := p.(area := Strip(area));
    assert head[..2][..1] == [""] && head[..2] == ["", Header(area)] && head[..1] == [""];
    assert ParseLines(head[..1], p) == p;
    assert ParseLines(head[..2], p) == q;
    assert ParseLines(head, p) == q;
    ParseConcat(head, Entries(ms), p);
    ParseEntries(ms, q);
  }

  // ---------- What the parser has read ----------

  /** The parser has read these pairs of an area and a magnet. */
  ghost predicate HasRead(p: Parsed, ms: seq<Magnet>, read: set<Listing>)
  {
    && p.Valid()
    && (forall i, j :: 0 <= i < j < |p.numbers| ==> p.numbers[i] != p.numbers[j])
    && (forall n :: n in p.magnets ==> exists m :: m in ms && m.number == n)
    && (forall x :: x in read ==> x.magnet.number in p.magnets)
    && (forall m :: m in ms && m.number in p.magnets ==> HasReadOne(p.magnets[m.number], m, read))
  }

  ghost predicate HasReadOne(r: Record, m: Magnet, read: set<Listing>)
  {
    && r.number == m.number && r.dupeCount == m.count
    && (exists a :: Listing(a, m) in read)
    && (forall a :: a in r.areas <==> a != UNLABELED && Listing(a, m) in read)
  }

  lemma SameNumber(ms: seq<Magnet>, m: Magnet, n: Magnet)
    requires DistinctNumbers(ms) && m in ms && n in ms && m.number == n.number
    ensures m == n
  {
  }

  lemma AddReads(p: Parsed, ms: seq<Magnet>, read: set<Listing>, m: Magnet)
    requires DistinctNumbers(ms) && m in ms && HasRead(p, ms, read)
    ensures HasRead(p.Add(m.number, m.count), ms, read + {Listing(p.area, m)})
  {
    var q, more := p.Add(m.number, m.count), read + {Listing(p.area, m)};
    if m.number !in p.magnets {
      assert m.number !in p.numbers;
    }
    forall k | k in ms && k.number in q.magnets
      ensures HasReadOne(q.magnets[k.number], k, more)
    {
      OneRead(p, ms, read, m, k);
    }
  }

  lemma OneRead(p: Parsed, ms: seq<Magnet>, read: set<Listing>, m: Magnet, k: Magnet)
    requires DistinctNumbers(ms) && m in ms && k in ms && HasRead(p, ms, read)
    requires k.number in p.Add(m.number, m.count).magnets
    ensures HasReadOne(p.Add(m.number, m.count).magnets[k.number], k, read + {Listing(p.area, m)})
  {
    hide DistinctNumbers;
    var more := read + {Listing(p.area, m)};
    var r := p.Add(m.number, m.count).magnets[k.number];
    if k.number == m.number {
      SameNumber(ms, m, k);
      assert Listing(p.area, m) in more;
      if m.number !in p.magnets {
        assert forall a :: Listing(a, m) !in read;
      }
    } else {
      assert r == p.magnets[k.number];
      var a :| Listing(a, k) in read;
      assert Listing(a, k) in more;
    }
  }

  /** What is read below an area */
  ghost function ReadBelow(area: string, ms: seq<Magnet>): set<Listing>
  {
    if area == "" then {} else set m | m in ms :: Listing(area, m)
  }

  lemma {:induction false} AddEachReads(section: seq<Magnet>, p: Parsed, ms: seq<Magnet>, read: set<Listing>)
    requires DistinctNumbers(ms) && HasRead(p, ms, read) && forall m :: m in section ==> m in ms
    ensures HasRead(AddEach(section, p), ms, read + ReadBelow(p.area, section))
  {
    hide HasRead, DistinctNumbers;
    if |section| == 0 || p.area == "" {
      assert read + ReadBelow(p.area, section) == read;
    } else {
      var n := |section| - 1;
      var before := read + ReadBelow(p.area, section[..n]);
      AddEachReads(section[..n], p, ms, read);
      AddReads(AddEach(section[..n], p), ms, before, section[n]);
      assert section == section[..n] + [section[n]];
      assert before + {Listing(p.area, section[n])} == read + ReadBelow(p.area, section);
    }
  }

  // ---------- All sections ----------

  /** What is read in the sections of these areas: each magnet below the stripped name */
  ghost function ReadIn(listings: seq<Listing>, ranked: seq<(string, nat)>): set<Listing>
  {
    if |ranked| == 0 then {}
    else
      var n := |ranked| - 1;
      var area := ranked[n].0;
      ReadIn(listings, ranked[..n]) + ReadBelow(Strip(area), StableSort.SortDescending(ByArea(listings, area), Count))
  }

  lemma SectionMagnets(ms: seq<Magnet>, area: string)
    ensures forall m :: m in StableSort.SortDescending(ByArea(Listings(ms), area), Count) <==>
        m in ms && area in m.areas
  {
    hide StableSort.SortDescending, Listings, ByArea;
    StableSort.SortElements(ByArea(Listings(ms), area), Count);
    ByAreaSpec(Listings(ms), area);
    ListingsSpec(ms);
  }

  lemma IsAnotherArea(p: Parsed, ms: seq<Magnet>, read: set<Listing>, area: string)
    requires HasRead(p, ms, read)
    ensures HasRead(p.(area := area), ms, read)
  {
  }

  lemma {:induction false} ParseSections(ms: seq<Magnet>, ranked: seq<(string, nat)>, p: Parsed)
    requires FromTracker(ms) && HasRead(p, ms, {})
    ensures HasRead(ParseLines(Sections(Listings(ms), ranked), p), ms, ReadIn(Listings(ms), ranked))
  {
    hide Listings, ByArea, Section, StableSort.SortDescending, DistinctNumbers, AddEach, ParseLines, ReadBelow, Strip;
    var listings := Listings(ms);
    if |ranked| == 0 {
      NoLines(p);
    } else {
      var n := |ranked| - 1;
      var area := ranked[n].0;
      var section := StableSort.SortDescending(ByArea(listings, area), Count);
      ParseSections(ms, ranked[..n], p);
      SectionMagnets(ms, area);
      var q := ParseLines(Sections(listings, ranked[..n]), p);
      var read := ReadIn(listings, ranked[..n]);
      AnotherSection(ms, area, section, q, read);
      ParseConcat(Sections(listings, ranked[..n]), Section(area, section), p);
    }
  }

  lemma NoLines(p: Parsed)
    requires p.Valid()
    ensures ParseLines([], p) == p
  {
  }

  lemma AnotherSection(ms: seq<Magnet>, area: string, section: seq<Magnet>, p: Parsed, read: set<Listing>)
    requires FromTracker(ms) && HasRead(p, ms, read) && forall m :: m in section ==> m in ms
    ensures HasRead(ParseLines(Section(area, section), p), ms, read + ReadBelow(Strip(area), section))
  {
    hide Section, AddEach, ParseLines, ReadBelow, Strip, DistinctNumbers;
    ParseSection(area, section, p);
    IsAnotherArea(p, ms, read, Strip(area));
    hide HasRead;
    AddEachReads(section, p.(area := Strip(area)), ms, read);
  }

  lemma {:induction false} ReadInSpec(ms: seq<Magnet>, ranked: seq<(string, nat)>)
    ensures forall x :: x in ReadIn(Listings(ms), ranked) <==>
              x.area != "" && exists i :: 0 <= i < |ranked| && x.area == Strip(ranked[i].0)
                                          && x.magnet in ms && ranked[i].0 in x.magnet.areas
  {
    hide Listings, ByArea, StableSort.SortDescending, Strip;
    if |ranked| != 0 {
      var n := |ranked| - 1;
      ReadInSpec(ms, ranked[..n]);
      SectionMagnets(ms, ranked[n].0);
      assert forall i :: 0 <= i < n ==> ranked[..n][i] == ranked[i];
    }
  }

  /** Every magnet is read once below each of its areas that is not blank. */
  lemma ReadSpec(ms: seq<Magnet>, area: string, m: Magnet)
    requires m in ms
    ensures Listing(area, m) in ReadIn(Listings(ms), Ranked(ms)) <==>
        area != "" && exists a :: a in m.areas && Strip(a) == area
  {
    hide Listings, Areas, Ranked, ReadIn, Strip;
    var ranked := Ranked(ms);
    ReadInSpec(ms, ranked);
    RankedSpec(ms);
    AreasSpec(Listings(ms));
    ListingsSpec(ms);
    if area != "" && exists a :: a in m.areas && Strip(a) == area {
      var a :| a in m.areas && Strip(a) == area;
      assert Listing(a, m) in Listings(ms);
      var i :| 0 <= i < |ranked| && ranked[i].0 == a;
    }
  }

  // ---------- Other lines ----------

  /** Whatever stands before the first header is skipped. */
  lemma {:induction false} NothingBeforeHeader(lines: seq<string>)
    requires forall i :: 0 <= i < |lines| ==> !("## " <= lines[i])
    ensures ParseLines(lines, Parsed("", [], map[])) == Parsed("", [], map[])
  {
    hide Find, ParseEntry;
    if |lines| != 0 {
      NothingBeforeHeader(lines[..|lines| - 1]);
    }
  }

  /** So is a line that starts with neither `## ` nor `-`, or that names no issue. */
  lemma OtherLinesAreSkipped(p: Parsed, line: string)
    requires p.Valid() && !("## " <= line) && (!("-" <= line) || Find(line, "/issues/").None?)
    ensures p.Line(line) == p
  {
    hide Find, ParseEntry;
  }

  // ---------- The lines of the body ----------

  lemma {:induction false} EntriesHaveNoBreak(ms: seq<Magnet>)
    requires forall m :: m in ms ==> m.url == IssueUrl(m.number)
    ensures forall line :: line in Entries(ms) ==> '\n' !in line
  {
    hide IssueUrl, Decimals.ToDecimal, IsSpace;
    if |ms| != 0 {
      var n := |ms| - 1;
      EntriesHaveNoBreak(ms[..n]);
      UrlHasNoBracket(ms[n].number);
      DigitsAreNoSpace(Decimals.ToDecimal(ms[n].count));
    }
  }

  lemma {:induction false} SectionsHaveNoBreak(ms: seq<Magnet>, ranked: seq<(string, nat)>)
    requires FromTracker(ms) && forall i :: 0 <= i < |ranked| ==> ranked[i].0 in Areas(Listings(ms))
    ensures forall line :: line in Sections(Listings(ms), ranked) ==> '\n' !in line
  {
    hide Listings, ByArea, StableSort.SortDescending, Areas, DistinctNumbers, Entries;
    if |ranked| != 0 {
      var n := |ranked| - 1;
      var area := ranked[n].0;
      var section := StableSort.SortDescending(ByArea(Listings(ms), area), Count);
      SectionsHaveNoBreak(ms, ranked[..n]);
      SectionMagnets(ms, area);
      AreasSpec(Listings(ms));
      ListingsSpec(ms);
      EntriesHaveNoBreak(section);
      assert '\n' !in Header(area);
    }
  }

  lemma BodySplits(intro: Introduction, ms: seq<Magnet>)
    requires FromTracker(ms)
    ensures Strings.Split(Strings.Join(Lines(intro, ms), '\n'), '\n') == Lines(intro, ms)
  {
    hide Listings, Sections, Areas, StableSort.SortDescending, Strings.Split, Strings.Join, DistinctNumbers;
    var sections := Sections(Listings(ms), Ranked(ms));
    RankedSpec(ms);
    SectionsHaveNoBreak(ms, Ranked(ms));
    var lines := Lines(intro, ms);
    assert lines == [intro] + sections;
    forall i | 0 <= i < |lines|
      ensures '\n' !in lines[i]
    {
      if i > 0 {
        assert lines[i] == sections[i - 1];
      }
    }
    Strings.SplitOfJoin(lines, '\n');
  }

  /** What the parser has read at the end of a printed body */
  lemma BodyIsRead(intro: Introduction, ms: seq<Magnet>)
    requires FromTracker(ms)
    ensures var body := Strings.Join(Lines(intro, ms), '\n');
            HasRead(ParseLines(Strings.Split(body, '\n'), NOTHING), ms, ReadIn(Listings(ms), Ranked(ms)))
  {
    hide Listings, Sections, StableSort.SortDescending, Strings.Split, Strings.Join, DistinctNumbers, ReadIn,
        ParseLines, Areas;
    BodySplits(intro, ms);
    IntroIsSkipped(intro);
    var sections := Sections(Listings(ms), Ranked(ms));
    assert Lines(intro, ms) == [intro] + sections;
    ParseConcat([intro], sections, NOTHING);
    assert HasRead(NOTHING, ms, {});
    hide HasRead;
    ParseSections(ms, Ranked(ms), NOTHING);
  }

  lemma IntroIsSkipped(intro: Introduction)
    ensures ParseLines([intro], NOTHING) == NOTHING
  {
    hide Find;
    NoLines(NOTHING);
  }

  // ---------- What comes back ----------

  ghost function ComingBack(intro: Introduction, ms: seq<Magnet>): seq<Record>
  {
    Parse(Strings.Join(Lines(intro, ms), '\n'))
  }

  /** The record has the number and the count of the magnet and its areas without surrounding white
      space; a blank area and `(unlabeled)` leave no trace. */
  ghost predicate Recovers(r: Record, m: Magnet)
  {
    && r.number == m.number && r.dupeCount == m.count
    && forall a :: a in r.areas <==> a != "(unlabeled)" && a != "" && exists b :: b in m.areas && Strip(b) == a
  }

  /** The record has exactly the areas of the magnet, and none for `(unlabeled)`. */
  ghost predicate RecoversExactly(r: Record, m: Magnet)
  {
    && r.number == m.number && r.dupeCount == m.count
    && forall a :: a in r.areas <==> a != "(unlabeled)" && a in m.areas
  }

  ghost predicate HasVisibleArea(m: Magnet)
  {
    exists a :: a in m.areas && Strip(a) != ""
  }

  ghost predicate HasRecord(rs: seq<Record>, m: Magnet) { exists r :: r in rs && Recovers(r, m) }
  ghost predicate HasMagnet(r: Record, ms: seq<Magnet>) { exists m :: m in ms && Recovers(r, m) }

  ghost predicate DistinctRecords(rs: seq<Record>)
  {
    forall i, j :: 0 <= i < j < |rs| ==> rs[i].number != rs[j].number
  }

  lemma ReadRecovers(p: Parsed, ms: seq<Magnet>, m: Magnet)
    requires HasRead(p, ms, ReadIn(Listings(ms), Ranked(ms))) && m in ms
    ensures m.number in p.magnets <==> HasVisibleArea(m)
    ensures m.number in p.magnets ==> Recovers(p.magnets[m.number], m)
  {
    hide ReadIn, Listings, Ranked, Strip;
    var read := ReadIn(Listings(ms), Ranked(ms));
    forall a
      ensures Listing(a, m) in read <==> a != "" && exists b :: b in m.areas && Strip(b) == a
    {
      ReadSpec(ms, a, m);
    }
    if m.number in p.magnets {
      assert HasReadOne(p.magnets[m.number], m, read);
      var a :| Listing(a, m) in read;
    }
    if HasVisibleArea(m) {
      var b :| b in m.areas && Strip(b) != "";
      assert Listing(Strip(b), m) in read;
    }
  }

  /** The records of a well-formed result are those of the dictionary, in another order. */
  lemma RecordsOfParsed(p: Parsed, ms: seq<Magnet>, read: set<Listing>)
    requires HasRead(p, ms, read)
    ensures var rs := StableSort.SortDescending(p.Records(), DupeCount);
            && DistinctRecords(rs)
            && (forall r :: r in rs <==> r.number in p.magnets && p.magnets[r.number] == r)
  {
    hide StableSort.SortDescending;
    var records := p.Records();
    var rs := StableSort.SortDescending(records, DupeCount);
    KeyIsNumber(p, ms, read);
    StableSort.SortElements(records, DupeCount);
    forall r
      ensures r in records <==> r.number in p.magnets && p.magnets[r.number] == r
    {
      if r.number in p.magnets && p.magnets[r.number] == r {
        assert r.number in p.numbers;
        var i :| 0 <= i < |p.numbers| && p.numbers[i] == r.number;
        assert records[i] == r;
      }
    }
    assert DistinctRecords(records);
    StableSort.SortSpec(records, DupeCount, 0);
    DistinctMeansOnce(records);
    OnceMeansDistinct(rs, records);
  }

  lemma KeyIsNumber(p: Parsed, ms: seq<Magnet>, read: set<Listing>)
    requires HasRead(p, ms, read)
    ensures forall n :: n in p.magnets ==> p.magnets[n].number == n
  {
    forall n | n in p.magnets
      ensures p.magnets[n].number == n
    {
      var m :| m in ms && m.number == n;
      assert HasReadOne(p.magnets[m.number], m, read);
    }
  }

  lemma {:induction false} DistinctMeansOnce(rs: seq<Record>)
    requires DistinctRecords(rs)
    ensures forall r :: r in rs ==> multiset(rs)[r] == 1
  {
    if |rs| != 0 {
      var n := |rs| - 1;
      DistinctMeansOnce(rs[..n]);
      assert rs == rs[..n] + [rs[n]];
    }
  }

  lemma OnceMeansDistinct(rs: seq<Record>, records: seq<Record>)
    requires multiset(rs) == multiset(records) && DistinctRecords(records)
    requires forall r :: r in records ==> multiset(records)[r] == 1
    ensures DistinctRecords(rs)
  {
    forall i, j | 0 <= i < j < |rs|
      ensures rs[i].number != rs[j].number
    {
      assert rs[i] in multiset(rs) && rs[j] in multiset(rs);
      assert rs[i] in records && rs[j] in records;
      if rs[i] == rs[j] {
        TwiceInIt(rs, i, j);
      }
    }
  }

  lemma TwiceInIt(rs: seq<Record>, i: nat, j: nat)
    requires i < j < |rs| && rs[i] == rs[j]
    ensures multiset(rs)[rs[i]] >= 2
  {
    assert rs == rs[..j] + rs[j..];
    assert rs[i] in rs[..j] by { assert rs[..j][i] == rs[i]; }
    assert rs[j] in rs[j..] by { assert rs[j..][0] == rs[j]; }
    assert multiset(rs) == multiset(rs[..j]) + multiset(rs[j..]);
  }

  /** Exactly the magnets with an area that is not blank come back, each once, the most duplicated
      first. */
  lemma MagnetsComeBack(intro: Introduction, ms: seq<Magnet>)
    requires FromTracker(ms)
    ensures StableSort.Descending(ComingBack(intro, ms), DupeCount) && DistinctRecords(ComingBack(intro, ms))
    ensures forall r :: r in ComingBack(intro, ms) ==> HasMagnet(r, ms)
    ensures forall m :: m in ms ==> (HasVisibleArea(m) <==> HasRecord(ComingBack(intro, ms), m))
  {
    hide Lines, ParseLines, DistinctNumbers, ReadIn, Listings, Ranked, HasVisibleArea, StableSort.SortDescending,
        Strings.Join, Strings.Split, Parsed.Records, StableSort.Descending;
    var rs := ComingBack(intro, ms);
    var p := ParseLines(Strings.Split(Strings.Join(Lines(intro, ms), '\n'), '\n'), NOTHING);
    var read := ReadIn(Listings(ms), Ranked(ms));
    BodyIsRead(intro, ms);
    StableSort.SortSpec(p.Records(), DupeCount, 0);
    RecordsOfParsed(p, ms, read);
    assert forall n :: n in p.magnets ==> exists m :: m in ms && m.number == n;
    KeyIsNumber(p, ms, read);
    hide HasRead, Recovers;
    forall r | r in rs
      ensures HasMagnet(r, ms)
    {
      var m :| m in ms && m.number == r.number;
      ReadRecovers(p, ms, m);
    }
    forall m | m in ms
      ensures HasVisibleArea(m) <==> HasRecord(rs, m)
    {
      ReadRecovers(p, ms, m);
      if HasVisibleArea(m) {
        assert p.magnets[m.number] in rs;
      } else {
        forall r | r in rs && Recovers(r, m)
          ensures false
        {
          RecoversNumber(r, m);
        }
      }
    }
  }

  lemma RecoversNumber(r: Record, m: Magnet)
    requires Recovers(r, m)
    ensures r.number == m.number
  {
  }

  // ---------- When the areas come back exactly ----------

  predicate Trimmed(a: string)
  {
    a != "" && !IsSpace(a[0]) && !IsSpace(a[|a| - 1])
  }

  lemma {:induction false} LStripTrims(s: string)
    ensures LStrip(s) == "" || !IsSpace(LStrip(s)[0])
  {
    if |s| > 0 {
      LStripTrims(s[1..]);
    }
  }

  lemma {:induction false} RStripTrims(s: string)
    requires s == "" || !IsSpace(s[0])
    ensures var r := RStrip(s); r == "" || Trimmed(r)
  {
    if |s| > 0 {
      RStripTrims(s[..|s| - 1]);
    }
  }

  lemma StripTrims(s: string)
    ensures Strip(s) == "" || Trimmed(Strip(s))
    ensures Trimmed(s) <==> s != "" && Strip(s) == s
  {
    LStripTrims(s);
    RStripTrims(LStrip(s));
  }

  lemma UnlabeledIsTrimmed()
    ensures Trimmed(UNLABELED)
  {
  }

  lemma ExactIff(r: Record, m: Magnet)
    requires Recovers(r, m)
    ensures RecoversExactly(r, m) <==> forall a :: a in m.areas ==> Trimmed(a)
  {
    hide Strip, Trimmed;
    UnlabeledIsTrimmed();
    forall s
      ensures Strip(s) == "" || Trimmed(Strip(s))
      ensures Trimmed(s) <==> s != "" && Strip(s) == s
    {
      StripTrims(s);
    }
    if RecoversExactly(r, m) {
      forall a | a in m.areas
        ensures Trimmed(a)
      {
        if a != UNLABELED {
          assert a in r.areas;
        }
      }
    } else if forall a :: a in m.areas ==> Trimmed(a) {
      forall a
        ensures a in r.areas <==> a != UNLABELED && a in m.areas
      {
        if a in m.areas {
          assert Strip(a) == a;
        }
      }
      assert false;
    }
  }

  /** Every magnet comes back exactly, and nothing else does. */
  ghost predicate Faithful(rs: seq<Record>, ms: seq<Magnet>)
  {
    && DistinctRecords(rs) && |rs| == |ms|
    && (forall m :: m in ms ==> exists r :: r in rs && RecoversExactly(r, m))
  }

  ghost function MagnetNumbers(ms: seq<Magnet>): set<int> { set m | m in ms :: m.number as int }
  ghost function RecordNumbers(rs: seq<Record>): set<int> { set r | r in rs :: r.number }

  lemma {:induction false} MagnetCount(ms: seq<Magnet>)
    requires DistinctNumbers(ms)
    ensures |MagnetNumbers(ms)| == |ms|
  {
    if |ms| != 0 {
      var n := |ms| - 1;
      MagnetCount(ms[..n]);
      assert ms == ms[..n] + [ms[n]];
      assert MagnetNumbers(ms) == MagnetNumbers(ms[..n]) + {ms[n].number};
    }
  }

  lemma {:induction false} RecordCount(rs: seq<Record>)
    requires DistinctRecords(rs)
    ensures |RecordNumbers(rs)| == |rs|
  {
    if |rs| != 0 {
      var n := |rs| - 1;
      RecordCount(rs[..n]);
      assert rs == rs[..n] + [rs[n]];
      assert RecordNumbers(rs) == RecordNumbers(rs[..n]) + {rs[n].number};
    }
  }

  ghost predicate AllTrimmed(m: Magnet) { forall a :: a in m.areas ==> Trimmed(a) }

  lemma SameLength(rs: seq<Record>, ms: seq<Magnet>)
    requires DistinctRecords(rs) && DistinctNumbers(ms)
    requires forall r :: r in rs ==> HasMagnet(r, ms)
    requires forall m :: m in ms ==> HasRecord(rs, m)
    ensures |rs| == |ms|
  {
    MagnetCount(ms);
    RecordCount(rs);
    hide DistinctRecords, DistinctNumbers, HasMagnet, HasRecord;
    forall r | r in rs
      ensures r.number in MagnetNumbers(ms)
    {
      NumberOfRecord(r, ms);
    }
    forall m | m in ms
      ensures m.number as int in RecordNumbers(rs)
    {
      NumberOfMagnet(rs, m);
    }
    assert RecordNumbers(rs) == MagnetNumbers(ms);
  }

  lemma NumberOfRecord(r: Record, ms: seq<Magnet>)
    requires HasMagnet(r, ms)
    ensures r.number in MagnetNumbers(ms)
  {
    hide Recovers;
    var m :| m in ms && Recovers(r, m);
    RecoversNumber(r, m);
  }

  lemma NumberOfMagnet(rs: seq<Record>, m: Magnet)
    requires HasRecord(rs, m)
    ensures m.number as int in RecordNumbers(rs)
  {
    hide Recovers;
    var r :| r in rs && Recovers(r, m);
    RecoversNumber(r, m);
  }

  lemma TrimmedComesBack(rs: seq<Record>, m: Magnet)
    requires |m.areas| > 0 && AllTrimmed(m) && (HasVisibleArea(m) ==> HasRecord(rs, m))
    ensures HasRecord(rs, m) && exists r :: r in rs && RecoversExactly(r, m)
  {
    hide RecoversExactly, Recovers, Trimmed, Strip;
    StripTrims(m.areas[0]);
    assert m.areas[0] in m.areas;
    var r :| r in rs && Recovers(r, m);
    ExactIff(r, m);
  }

  lemma ExactIsTrimmed(rs: seq<Record>, ms: seq<Magnet>, m: Magnet, r: Record)
    requires DistinctNumbers(ms) && m in ms && RecoversExactly(r, m) && HasMagnet(r, ms)
    ensures AllTrimmed(m)
  {
    hide Trimmed, DistinctNumbers;
    var k :| k in ms && Recovers(r, k);
    assert k.number == m.number;
    hide RecoversExactly, Recovers;
    SameNumber(ms, m, k);
    ExactIff(r, m);
  }

  /** The round trip is exact if and only if no area is empty or has white space around it. */
  lemma RoundTripIff(intro: Introduction, ms: seq<Magnet>)
    requires FromTracker(ms) && forall m :: m in ms ==> |m.areas| > 0
    ensures Faithful(ComingBack(intro, ms), ms) <==> forall m :: m in ms ==> AllTrimmed(m)
  {
    hide ComingBack, AllTrimmed, HasRecord, HasMagnet, StableSort.Descending, HasVisibleArea, RecoversExactly,
        Recovers, DistinctNumbers, DistinctRecords;
    var rs := ComingBack(intro, ms);
    MagnetsComeBack(intro, ms);
    assert DistinctNumbers(ms);
    hide FromTracker;
    if forall m :: m in ms ==> AllTrimmed(m) {
      forall m | m in ms
        ensures HasRecord(rs, m) && exists r :: r in rs && RecoversExactly(r, m)
      {
        TrimmedComesBack(rs, m);
      }
      SameLength(rs, ms);
    }
    if Faithful(rs, ms) {
      forall m | m in ms
        ensures AllTrimmed(m)
      {
        var r :| r in rs && RecoversExactly(r, m);
        ExactIsTrimmed(rs, ms, m, r);
      }
    }
  }
}
