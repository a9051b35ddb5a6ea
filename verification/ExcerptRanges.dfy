/** The excerpts of a pending diff: diff hunks and revealed ranges, sorted and merged. */
module ExcerptRanges {

  datatype Point = Point(row: nat, column: nat)

  predicate Leq(a: Point, b: Point)
  {
    a.row < b.row || (a.row == b.row && a.column <= b.column)
  }

  predicate Lt(a: Point, b: Point)
  {
    Leq(a, b) && a != b
  }

  function Max(a: Point, b: Point): Point
  {
    if Leq(a, b) then b else a
  }

  datatype Range = Range(start: Point, end: Point)

  /** The sort key: by start, and of equal starts the longest first */
  predicate Before(a: Range, b: Range)
  {
    Lt(a.start, b.start) || (a.start == b.start && Leq(b.end, a.end))
  }

  ghost predicate Sorted(rs: seq<Range>)
  {
    forall i, j :: 0 <= i < j < |rs| ==> Before(rs[i], rs[j])
  }

  // ---------- Sorting (`sort_unstable_by_key` on the pair of start and reversed end) ----------

  function Insert(r: Range, rs: seq<Range>): seq<Range>
  {
    if |rs| == 0 || Before(r, rs[0]) then [r] + rs else [rs[0]] + Insert(r, rs[1..])
  }

  function Sort(rs: seq<Range>): seq<Range>
  {
    if |rs| == 0 then [] else Insert(rs[0], Sort(rs[1..]))
  }

  lemma {:induction false} InsertSorts(r: Range, rs: seq<Range>)
    requires Sorted(rs)
    ensures Sorted(Insert(r, rs)) && multiset(Insert(r, rs)) == multiset(rs) + multiset{r}
    decreases |rs|
  {
    if |rs| == 0 || Before(r, rs[0]) {
      PrependSorted(r, rs);
    } else {
      var rest := Insert(r, rs[1..]);
      InsertSorts(r, rs[1..]);
      assert rs == [rs[0]] + rs[1..];
      forall x | x in rest
        ensures Before(rs[0], x)
      {
        assert x in multiset(rest);
        if x != r {
          assert x in rs[1..];
        }
      }
      PrependSorted(rs[0], rest);
    }
  }

  lemma PrependSorted(r: Range, rs: seq<Range>)
    requires Sorted(rs) && (|rs| > 0 ==> Before(r, rs[0]) || forall x :: x in rs ==> Before(r, x))
    ensures Sorted([r] + rs)
  {
    forall i | 0 <= i < |rs|
      ensures Before(r, rs[i])
    {
      if i > 0 {
        assert Before(rs[0], rs[i]);
      }
      assert rs[i] in rs;
    }
  }

  lemma {:induction false} SortSorts(rs: seq<Range>)
    ensures Sorted(Sort(rs)) && multiset(Sort(rs)) == multiset(rs)
    decreases |rs|
  {
    if |rs| != 0 {
      SortSorts(rs[1..]);
      InsertSorts(rs[0], Sort(rs[1..]));
      assert rs == [rs[0]] + rs[1..];
    }
  }

  lemma FirstIsLeast(rs: seq<Range>, x: Range)
    requires Sorted(rs) && x in rs
    ensures x == rs[0] || Before(rs[0], x)
  {
  }

  lemma SameFirst(a: seq<Range>, b: seq<Range>)
    requires Sorted(a) && Sorted(b) && multiset(a) == multiset(b) && |a| > 0 && |b| > 0
    ensures a[0] == b[0]
  {
    hide Sorted;
    assert a[0] in multiset(b) && b[0] in multiset(a);
    FirstIsLeast(a, b[0]);
    FirstIsLeast(b, a[0]);
  }

  lemma TailSorted(rs: seq<Range>)
    requires Sorted(rs) && |rs| > 0
    ensures Sorted(rs[1..])
  {
  }

  lemma SameLength(a: seq<Range>, b: seq<Range>)
    requires multiset(a) == multiset(b)
    ensures |a| == |b|
  {
    assert |a| == |multiset(a)| && |b| == |multiset(b)|;
  }

  /** The key is the whole range, so a sorted list is determined by its elements. */
  lemma {:induction false} SortedIsUnique(a: seq<Range>, b: seq<Range>)
    requires Sorted(a) && Sorted(b) && multiset(a) == multiset(b)
    ensures a == b
    decreases |a|
  {
    hide Sorted;
    SameLength(a, b);
    if |a| != 0 {
      SameFirst(a, b);
      TailMultiset(a);
      TailMultiset(b);
      TailSorted(a);
      TailSorted(b);
      SortedIsUnique(a[1..], b[1..]);
      assert a == [a[0]] + a[1..] && b == [b[0]] + b[1..];
    }
  }

  lemma TailMultiset(rs: seq<Range>)
    requires |rs| > 0
    ensures multiset(rs[1..]) == multiset(rs) - multiset{rs[0]}
  {
    assert rs == [rs[0]] + rs[1..];
  }

  // ---------- Merging ----------

  function Merge(rs: seq<Range>): seq<Range>
    decreases |rs|
  {
    if |rs| <= 1 then rs
    else if Leq(rs[1].start, rs[0].end) then Merge([Range(rs[0].start, Max(rs[0].end, rs[1].end))] + rs[2..])
    else [rs[0]] + Merge(rs[1..])
  }

  function Excerpts(rs: seq<Range>): seq<Range>
  {
    Merge(Sort(rs))
  }

  class PendingDiff {
    var revealedRanges: seq<Range>

    constructor ()
      ensures revealedRanges == []
    {
      revealedRanges := [];
    }

    method RevealRange(range: Range)
      modifies this
      ensures revealedRanges == old(revealedRanges) + [range]
    {
      revealedRanges := revealedRanges + [range];
    }

    method ExcerptRanges(hunks: seq<Range>) returns (merged: seq<Range>)
      ensures merged == Excerpts(hunks + revealedRanges)
    {
      hide Leq, Max, Sort, Merge;
      var ranges := hunks;
      ranges := ranges + revealedRanges;
      ranges := Sort(ranges);
      merged := [];
      var next := 0;
      assert ranges[0..] == ranges;
      while next < |ranges|
        invariant 0 <= next <= |ranges|
        invariant Merge(ranges) == merged + Merge(ranges[next..])
      {
        var range := ranges[next];
        next := next + 1;
        HeadAndTail(ranges, next - 1);
        while next < |ranges| && Leq(ranges[next].start, range.end)
          invariant 0 <= next <= |ranges|
          invariant Merge(ranges) == merged + Merge([range] + ranges[next..])
        {
          MergeStep(range, ranges, next);
          range := range.(end := Max(range.end, ranges[next].end));
          next := next + 1;
        }
        MergeStep(range, ranges, next);
        ghost var before := merged;
        merged := merged + [range];
        assert before + ([range] + Merge(ranges[next..])) == merged + Merge(ranges[next..]);
      }
      NothingMerged();
      assert ranges[next..] == [] && merged + [] == merged;
    }
  }

  lemma NothingMerged()
    ensures Merge([]) == []
  {
  }

  lemma HeadAndTail(rs: seq<Range>, i: nat)
    requires i < |rs|
    ensures rs[i..] == [rs[i]] + rs[i + 1..]
  {
  }

  lemma MergeStep(range: Range, ranges: seq<Range>, next: nat)
    requires next <= |ranges|
    ensures Merge([range] + ranges[next..]) ==
            if next < |ranges| && Leq(ranges[next].start, range.end) then
              Merge([Range(range.start, Max(range.end, ranges[next].end))] + ranges[next + 1..])
            else [range] + Merge(ranges[next..])
  {
    var rs := [range] + ranges[next..];
    if next < |ranges| {
      assert rs[1] == ranges[next] && rs[2..] == ranges[next + 1..] && rs[1..] == ranges[next..];
    }
  }

  // ---------- What the excerpts are ----------

  /** A point of a range, which contains its end or not */
  predicate In(p: Point, r: Range, closed: bool)
  {
    Leq(r.start, p) && (if closed then Leq(p, r.end) else Lt(p, r.end))
  }

  ghost predicate Covers(rs: seq<Range>, p: Point, closed: bool)
  {
    exists i :: 0 <= i < |rs| && In(p, rs[i], closed)
  }

  lemma CoversConcat(a: seq<Range>, b: seq<Range>, p: Point, closed: bool)
    ensures Covers(a + b, p, closed) <==> Covers(a, p, closed) || Covers(b, p, closed)
  {
    var all := a + b;
    assert forall i :: 0 <= i < |all| ==> all[i] == if i < |a| then a[i] else b[i - |a|];
    assert forall i :: 0 <= i < |a| ==> all[i] == a[i];
    assert forall i :: 0 <= i < |b| ==> all[|a| + i] == b[i];
  }

  lemma CoversOne(r: Range, p: Point, closed: bool)
    ensures Covers([r], p, closed) <==> In(p, r, closed)
  {
    assert [r][0] == r;
  }

  /** The list after joining its first two ranges */
  function Joined(rs: seq<Range>): seq<Range>
    requires |rs| >= 2
  {
    [Range(rs[0].start, Max(rs[0].end, rs[1].end))] + rs[2..]
  }

  lemma JoinKeepsCover(rs: seq<Range>, p: Point, closed: bool)
    requires |rs| >= 2 && Leq(rs[0].start, rs[1].start) && Leq(rs[1].start, rs[0].end)
    ensures Covers(Joined(rs), p, closed) <==> Covers(rs, p, closed)
  {
    var a, b, rest := rs[0], rs[1], rs[2..];
    assert rs == ([a] + [b]) + rest;
    CoversConcat([a] + [b], rest, p, closed);
    CoversConcat([a], [b], p, closed);
    CoversConcat([Range(a.start, Max(a.end, b.end))], rest, p, closed);
    CoversOne(a, p, closed);
    CoversOne(b, p, closed);
    CoversOne(Range(a.start, Max(a.end, b.end)), p, closed);
  }

  ghost predicate StartsSorted(rs: seq<Range>)
  {
    forall i, j :: 0 <= i < j < |rs| ==> Leq(rs[i].start, rs[j].start)
  }

  lemma JoinKeepsStarts(rs: seq<Range>)
    requires |rs| >= 2 && StartsSorted(rs)
    ensures StartsSorted(Joined(rs)) && Joined(rs)[0].start == rs[0].start
  {
    var j := Joined(rs);
    assert forall i :: 1 <= i < |j| ==> j[i] == rs[i + 1];
  }

  /** Exactly the points of the input are covered, whether ends belong to their ranges or not. */
  lemma {:induction false} MergeCovers(rs: seq<Range>, p: Point, closed: bool)
    requires StartsSorted(rs)
    ensures Covers(Merge(rs), p, closed) <==> Covers(rs, p, closed)
    decreases |rs|
  {
    hide Covers, In;
    if |rs| > 1 {
      if Leq(rs[1].start, rs[0].end) {
        JoinKeepsCover(rs, p, closed);
        JoinKeepsStarts(rs);
        MergeCovers(Joined(rs), p, closed);
      } else {
        TailStarts(rs);
        MergeCovers(rs[1..], p, closed);
        CoversConcat([rs[0]], Merge(rs[1..]), p, closed);
        CoversConcat([rs[0]], rs[1..], p, closed);
        assert rs == [rs[0]] + rs[1..];
      }
    }
  }

  lemma TailStarts(rs: seq<Range>)
    requires StartsSorted(rs) && |rs| > 0
    ensures StartsSorted(rs[1..])
  {
    assert forall i :: 0 <= i < |rs[1..]| ==> rs[1..][i] == rs[i + 1];
  }

  /** Sorted by start, and each range ends strictly before every later one starts */
  ghost predicate Separated(rs: seq<Range>)
  {
    StartsSorted(rs) && forall i, j :: 0 <= i < j < |rs| ==> Lt(rs[i].end, rs[j].start)
  }

  lemma {:induction false} MergeSeparates(rs: seq<Range>)
    requires StartsSorted(rs)
    ensures Separated(Merge(rs))
    ensures |rs| > 0 ==> |Merge(rs)| > 0 && Merge(rs)[0].start == rs[0].start
    decreases |rs|
  {
    if |rs| > 1 {
      if Leq(rs[1].start, rs[0].end) {
        JoinKeepsStarts(rs);
        MergeSeparates(Joined(rs));
      } else {
        TailStarts(rs);
        MergeSeparates(rs[1..]);
        PrependSeparated(rs[0], Merge(rs[1..]));
      }
    }
  }

  lemma PrependSeparated(r: Range, rs: seq<Range>)
    requires Separated(rs) && |rs| > 0 && Lt(r.end, rs[0].start) && Leq(r.start, rs[0].start)
    ensures Separated([r] + rs)
  {
    assert forall i :: 0 < i < |rs| ==> Leq(rs[0].start, rs[i].start);
  }

  ghost predicate EndpointsFrom(out: seq<Range>, rs: seq<Range>)
  {
    && (forall r :: r in out ==> exists x :: x in rs && x.start == r.start)
    && (forall r :: r in out ==> exists x :: x in rs && x.end == r.end)
  }

  lemma {:induction false} MergeUsesEndpoints(rs: seq<Range>)
    ensures EndpointsFrom(Merge(rs), rs)
    decreases |rs|
  {
    if |rs| > 1 {
      if Leq(rs[1].start, rs[0].end) {
        var j := Joined(rs);
        MergeUsesEndpoints(j);
        assert j[0].start == rs[0].start && (j[0].end == rs[0].end || j[0].end == rs[1].end);
        assert forall x :: x in j ==> x == j[0] || x in rs;
        assert rs[0] in rs && rs[1] in rs;
      } else {
        MergeUsesEndpoints(rs[1..]);
        assert forall x :: x in rs[1..] ==> x in rs;
        assert rs[0] in rs;
      }
    }
  }

  lemma SortedStarts(rs: seq<Range>)
    requires Sorted(rs)
    ensures StartsSorted(rs)
  {
  }

  lemma CoversPermuted(a: seq<Range>, b: seq<Range>, p: Point, closed: bool)
    requires multiset(a) == multiset(b)
    ensures Covers(a, p, closed) ==> Covers(b, p, closed)
  {
    if Covers(a, p, closed) {
      var i :| 0 <= i < |a| && In(p, a[i], closed);
      assert a[i] in multiset(b);
      var j :| 0 <= j < |b| && b[j] == a[i];
    }
  }

  /** The excerpts are sorted with strict gaps, cover exactly the points of the input ranges and use
      only endpoints of the input. */
  lemma ExcerptsCoverExactly(rs: seq<Range>)
    ensures Separated(Excerpts(rs))
    ensures forall p: Point, closed: bool :: Covers(Excerpts(rs), p, closed) <==> Covers(rs, p, closed)
    ensures EndpointsFrom(Excerpts(rs), rs)
  {
    var sorted := Sort(rs);
    SortSorts(rs);
    SortedStarts(sorted);
    MergeSeparates(sorted);
    MergeUsesEndpoints(sorted);
    assert forall x :: x in sorted ==> x in multiset(rs);
    forall p: Point, closed: bool
      ensures Covers(Excerpts(rs), p, closed) <==> Covers(rs, p, closed)
    {
      MergeCovers(sorted, p, closed);
      CoversPermuted(sorted, rs, p, closed);
      CoversPermuted(rs, sorted, p, closed);
    }
  }

  /** The order in which hunks and revealed ranges come does not matter. */
  lemma ExcerptsIgnoreOrder(a: seq<Range>, b: seq<Range>)
    requires multiset(a) == multiset(b)
    ensures Excerpts(a) == Excerpts(b)
  {
    SortSorts(a);
    SortSorts(b);
    SortedIsUnique(Sort(a), Sort(b));
  }

  lemma {:induction false} SeparatedMergesToItself(rs: seq<Range>)
    requires Separated(rs)
    ensures Merge(rs) == rs
    decreases |rs|
  {
    if |rs| > 1 {
      assert Lt(rs[0].end, rs[1].start);
      assert forall i :: 0 <= i < |rs[1..]| ==> rs[1..][i] == rs[i + 1];
      SeparatedMergesToItself(rs[1..]);
    }
  }

  // ---------- Merging keeps the sort order ----------

  /** An output range is an input range, or starts where one starts that does not end before its start. */
  ghost predicate HasOrigin(x: Range, rs: seq<Range>)
  {
    x in rs || exists r :: r in rs && r.start == x.start && Leq(r.start, r.end)
  }

  lemma JoinKeepsSorted(rs: seq<Range>)
    requires |rs| >= 2 && Sorted(rs) && Leq(rs[1].start, rs[0].end)
    ensures Sorted(Joined(rs)) && Leq(rs[0].start, rs[0].end)
    ensures forall x :: HasOrigin(x, Joined(rs)) ==> HasOrigin(x, rs)
  {
    var j := Joined(rs);
    assert forall i :: 1 <= i < |j| ==> j[i] == rs[i + 1];
    forall x | HasOrigin(x, j)
      ensures HasOrigin(x, rs)
    {
      assert rs[0] in rs && forall r :: r in j && r != j[0] ==> r in rs;
    }
  }

  lemma {:induction false} MergeKeepsSorted(rs: seq<Range>)
    requires Sorted(rs)
    ensures Sorted(Merge(rs)) && forall x :: x in Merge(rs) ==> HasOrigin(x, rs)
    decreases |rs|
  {
    hide HasOrigin;
    if |rs| > 1 && Leq(rs[1].start, rs[0].end) {
      JoinKeepsSorted(rs);
      MergeKeepsSorted(Joined(rs));
    } else if |rs| > 0 {
      var rest := Merge(rs[1..]);
      TailSorted(rs);
      MergeKeepsSorted(rs[1..]);
      assert Merge(rs) == [rs[0]] + rest;
      forall x | x in rest
        ensures Before(rs[0], x) && HasOrigin(x, rs)
      {
        GapKeepsSorted(rs, x);
      }
      HeadIsOrigin(rs);
      PrependSorted(rs[0], rest);
    }
  }

  lemma HeadIsOrigin(rs: seq<Range>)
    requires |rs| > 0
    ensures HasOrigin(rs[0], rs)
  {
  }

  lemma GapKeepsSorted(rs: seq<Range>, x: Range)
    requires |rs| > 0 && Sorted(rs) && (|rs| > 1 ==> !Leq(rs[1].start, rs[0].end)) && HasOrigin(x, rs[1..])
    ensures Before(rs[0], x) && HasOrigin(x, rs)
  {
    var r :| r in rs[1..] && (x == r || (r.start == x.start && Leq(r.start, r.end)));
    var i :| 0 <= i < |rs[1..]| && rs[1..][i] == r;
    assert rs[i + 1] == r && Before(rs[0], r) && Leq(rs[1].start, r.start);
  }

  /** Merging the excerpts again changes nothing. */
  lemma ExcerptsAreStable(rs: seq<Range>)
    ensures Excerpts(Excerpts(rs)) == Excerpts(rs)
  {
    var sorted, out := Sort(rs), Excerpts(rs);
    SortSorts(rs);
    SortedStarts(sorted);
    MergeSeparates(sorted);
    MergeKeepsSorted(sorted);
    SortSorts(out);
    SortedIsUnique(Sort(out), out);
    SeparatedMergesToItself(out);
  }
}
