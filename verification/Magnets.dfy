/** Printing the duplicate magnets by area, and parsing them back in another script. */
module Magnets {
  import opened MagnetText
  import Strings
  import StableSort

  datatype Magnet = Magnet(number: nat, url: string, areas: seq<string>, count: nat)
  datatype Listing = Listing(area: string, magnet: Magnet)

  function Count(m: Magnet): int { m.count }
  function AreaCount(total: (string, nat)): int { total.1 }

  // ---------- What is printed ----------

  /** The first k areas of a magnet */
  function AreasOf(m: Magnet, k: nat): seq<Listing>
    requires k <= |m.areas|
  {
    if k == 0 then [] else AreasOf(m, k - 1) + [Listing(m.areas[k - 1], m)]
  }

  /** All magnets with all their areas, in the order in which they are visited */
  function Listings(magnets: seq<Magnet>): seq<Listing>
  {
    if |magnets| == 0 then []
    else
      var n := |magnets| - 1;
      Listings(magnets[..n]) + AreasOf(magnets[n], |magnets[n].areas|)
  }

  function ByArea(listings: seq<Listing>, area: string): seq<Magnet>
  {
    if |listings| == 0 then []
    else
      var n := |listings| - 1;
      ByArea(listings[..n], area) + if listings[n].area == area then [listings[n].magnet] else []
  }

  function Total(listings: seq<Listing>, area: string): nat
  {
    if |listings| == 0 then 0
    else
      var n := |listings| - 1;
      Total(listings[..n], area) + if listings[n].area == area then listings[n].magnet.count else 0
  }

  /** The areas in the order of their first appearance */
  function Areas(listings: seq<Listing>): (areas: seq<string>)
  {
    if |listings| == 0 then []
    else
      var n := |listings| - 1;
      var areas := Areas(listings[..n]);
      if listings[n].area in areas then areas else areas + [listings[n].area]
  }

  function Totals(listings: seq<Listing>): (totals: seq<(string, nat)>)
    ensures |totals| == |Areas(listings)|
    ensures forall i :: 0 <= i < |totals| ==> totals[i] == (Areas(listings)[i], Total(listings, Areas(listings)[i]))
  {
    seq(|Areas(listings)|, i requires 0 <= i < |Areas(listings)| =>
        (Areas(listings)[i], Total(listings, Areas(listings)[i])))
  }

  function Entries(magnets: seq<Magnet>): seq<string>
  {
    if |magnets| == 0 then []
    else
      var n := |magnets| - 1;
      Entries(magnets[..n]) + [Entry(magnets[n].count, magnets[n].url)]
  }

  function Section(area: string, magnets: seq<Magnet>): seq<string>
  {
    ["", Header(area), ""] + Entries(magnets)
  }

  function Sections(listings: seq<Listing>, ranked: seq<(string, nat)>): seq<string>
  {
    if |ranked| == 0 then []
    else
      var n := |ranked| - 1;
      Sections(listings, ranked[..n]) +
        Section(ranked[n].0, StableSort.SortDescending(ByArea(listings, ranked[n].0), Count))
  }

  function Lines(introduction: Introduction, magnets: seq<Magnet>): seq<string>
  {
    var listings := Listings(magnets);
    [introduction] + Sections(listings, StableSort.SortDescending(Totals(listings), AreaCount))
  }

  // ---------- The printer ----------

  class Tally {
    var areas: seq<string>  // insertion order of the two dictionaries
    var byArea: map<string, seq<Magnet>>
    var areaTotals: map<string, nat>

    ghost predicate Holds(listings: seq<Listing>)
      reads this
    {
      && areas == Areas(listings)
      && (forall a :: a in byArea <==> a in areas) && (forall a :: a in areaTotals <==> a in areas)
      && (forall a :: a in areas ==> byArea[a] == ByArea(listings, a) && areaTotals[a] == Total(listings, a))
    }

    constructor ()
      ensures Holds([])
    {
      areas, byArea, areaTotals := [], map[], map[];
    }

    method Add(area: string, info: Magnet, ghost listings: seq<Listing>)
      requires Holds(listings)
      modifies this
      ensures Holds(listings + [Listing(area, info)])
    {
      hide Areas, ByArea, Total;
      Unlisted(listings, area);
      OneMore(listings, Listing(area, info));
      if area !in areas {
        areas := areas + [area];
        byArea := byArea[area := []];
        areaTotals := areaTotals[area := 0];
      }
      byArea := byArea[area := byArea[area] + [info]];
      areaTotals := areaTotals[area := areaTotals[area] + info.count];
    }

    /** `area_totals.most_common()` */
    method MostCommon(ghost listings: seq<Listing>) returns (ranked: seq<(string, nat)>)
      requires Holds(listings)
      ensures ranked == StableSort.SortDescending(Totals(listings), AreaCount)
    {
      hide Areas, Total, ByArea, StableSort.SortDescending;
      var totals := [];
      for i := 0 to |areas|
        invariant totals == Totals(listings)[..i]
      {
        assert areas[i] in areas;
        totals := totals + [(areas[i], areaTotals[areas[i]])];
      }
      assert totals == Totals(listings);
      ranked := StableSort.SortDescending(totals, AreaCount);
    }
  }

  lemma {:induction false} Unlisted(listings: seq<Listing>, area: string)
    ensures area !in Areas(listings) ==> ByArea(listings, area) == [] && Total(listings, area) == 0
  {
    if |listings| != 0 {
      Unlisted(listings[..|listings| - 1], area);
    }
  }

  lemma OneMore(listings: seq<Listing>, x: Listing)
    ensures Areas(listings + [x]) == if x.area in Areas(listings) then Areas(listings) else Areas(listings) + [x.area]
    ensures forall a :: ByArea(listings + [x], a) == ByArea(listings, a) + if x.area == a then [x.magnet] else []
    ensures forall a :: Total(listings + [x], a) == Total(listings, a) + if x.area == a then x.magnet.count else 0
  {
    assert (listings + [x])[..|listings|] == listings;
  }

  method Group(magnets: seq<Magnet>) returns (tally: Tally)
    ensures fresh(tally) && tally.Holds(Listings(magnets))
  {
    hide Tally.Holds;
    tally := new Tally();
    for i := 0 to |magnets|
      invariant fresh(tally) && tally.Holds(Listings(magnets[..i]))
    {
      ghost var before := Listings(magnets[..i]);
      var info := magnets[i];
      assert before + AreasOf(info, 0) == before;
      for j := 0 to |info.areas|
        invariant fresh(tally) && tally.Holds(before + AreasOf(info, j))
      {
        tally.Add(info.areas[j], info, before + AreasOf(info, j));
        assert before + AreasOf(info, j) + [Listing(info.areas[j], info)] == before + AreasOf(info, j + 1);
      }
      assert magnets[..i + 1][..i] == magnets[..i];
    }
    assert magnets[..|magnets|] == magnets;
  }

  method Issues(tally: Tally, area: string, ghost listings: seq<Listing>) returns (lines: seq<string>)
    requires tally.Holds(listings) && area in tally.areas
    ensures lines == Section(area, StableSort.SortDescending(ByArea(listings, area), Count))
  {
    hide ByArea, Total, Areas, StableSort.SortDescending, Entry;
    var issues := StableSort.SortDescending(tally.byArea[area], Count);
    lines := ["", Header(area), ""];
    for i := 0 to |issues|
      invariant lines == ["", Header(area), ""] + Entries(issues[..i])
    {
      lines := lines + [Entry(issues[i].count, issues[i].url)];
      assert issues[..i + 1][..i] == issues[..i];
    }
    assert issues[..|issues|] == issues;
  }

  method BuildMarkdownBody(introduction: Introduction, magnets: seq<Magnet>) returns (body: string)
    ensures body == Strings.Join(Lines(introduction, magnets), '\n')
  {
    hide Section, Listings, Totals, ByArea, Areas, StableSort.SortDescending, Strings.Join;
    ghost var listings := Listings(magnets);
    var tally := Group(magnets);
    var ranked := tally.MostCommon(listings);
    RankedAreAreas(listings);
    var lines: seq<string> := [introduction];
    for k := 0 to |ranked|
      invariant tally.Holds(listings)
      invariant lines == [introduction] + Sections(listings, ranked[..k])
    {
      assert ranked[k] in ranked;
      var section := Issues(tally, ranked[k].0, listings);
      lines := lines + section;
      assert ranked[..k + 1][..k] == ranked[..k];
    }
    assert ranked[..|ranked|] == ranked;
    body := Strings.Join(lines, '\n');
  }

  lemma RankedAreAreas(listings: seq<Listing>)
    ensures forall t :: t in StableSort.SortDescending(Totals(listings), AreaCount) ==> t.0 in Areas(listings)
  {
    StableSort.SortElements(Totals(listings), AreaCount);
  }

  // ---------- The parser ----------

  datatype Record = Record(number: int, areas: seq<string>, dupeCount: int)

  function DupeCount(r: Record): int { r.dupeCount }

  function RecordsOf(numbers: seq<int>, magnets: map<int, Record>): (records: seq<Record>)
    requires forall i :: 0 <= i < |numbers| ==> numbers[i] in magnets
    ensures |records| == |numbers|
    ensures forall i :: 0 <= i < |records| ==> records[i] == magnets[numbers[i]]
  {
    if |numbers| == 0 then []
    else
      var k := |numbers| - 1;
      RecordsOf(numbers[..k], magnets) + [magnets[numbers[k]]]
  }

  /** The current area, empty before the first header, and the dictionary with its insertion order */
  datatype Parsed = Parsed(area: string, numbers: seq<int>, magnets: map<int, Record>) {
    ghost predicate Valid() {
      && (forall i :: 0 <= i < |numbers| ==> numbers[i] in magnets)
      && (forall n :: n in magnets ==> n in numbers)
    }

    function Records(): (records: seq<Record>)
      requires Valid()
    {
      RecordsOf(numbers, magnets)
    }

    function Add(number: int, dupeCount: int): (p: Parsed)
      ensures Valid() ==> p.Valid()
    {
      var unlabeled := area == UNLABELED;
      if number in magnets then
        var m := magnets[number];
        if unlabeled then this else this.(magnets := magnets[number := m.(areas := m.areas + [area])])
      else
        this.(numbers := numbers + [number],
        magnets := magnets[number := Record(number, if unlabeled then [] else [area], dupeCount)])
    }

    function Line(line: string): (p: Parsed)
      ensures Valid() ==> p.Valid()
    {
      if "## " <= line then this.(area := Strip(line[3..]))
      else if area == "" || !("-" <= line) || Find(line, ISSUES).None? then this
      else
        match ParseEntry(line)
        case None => this
        case Some((dupeCount, number)) => Add(number, dupeCount)
    }
  }

  const NOTHING := Parsed("", [], map[])

  function ParseLines(lines: seq<string>, start: Parsed): (p: Parsed)
    requires start.Valid()
    ensures p.Valid()
  {
    if |lines| == 0 then start else ParseLines(lines[..|lines| - 1], start).Line(lines[|lines| - 1])
  }

  function Parse(body: string): seq<Record>
  {
    StableSort.SortDescending(ParseLines(Strings.Split(body, '\n'), NOTHING).Records(), DupeCount)
  }

  method ParseDuplicateMagnets(body: string) returns (magnetList: seq<Record>)
    ensures magnetList == Parse(body)
  {
    var lines := Strings.Split(body, '\n');
    var magnets: map<int, Record>, numbers: seq<int>, currentArea := map[], [], "";
    for i := 0 to |lines|
      invariant Parsed(currentArea, numbers, magnets) == ParseLines(lines[..i], NOTHING)
    {
      var line := lines[i];
      assert lines[..i + 1][..i] == lines[..i];
      if "## " <= line {
        currentArea := Strip(line[3..]);
        continue;
      }
      if currentArea == "" || !("-" <= line) || Find(line, ISSUES).None? {
        continue;
      }
      var entry := ParseEntry(line);
      if entry.None? {
        continue;
      }
      var (dupeCount, number) := entry.value;
      var isUnlabeled := currentArea == UNLABELED;
      if number in magnets {
        if !isUnlabeled {
          magnets := magnets[number := magnets[number].(areas := magnets[number].areas + [currentArea])];
        }
      } else {
        magnets := magnets[number := Record(number, if isUnlabeled then [] else [currentArea], dupeCount)];
        numbers := numbers + [number];
      }
    }
    assert lines[..|lines|] == lines;
    magnetList := StableSort.SortDescending(Parsed(currentArea, numbers, magnets).Records(), DupeCount);
  }
}
