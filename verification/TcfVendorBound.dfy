/** When the vendor encoder fails, and how long its output is: the 12-bit entry counter against
    a running estimate that charges 16 bits for a single id although 17 are written. */
module TcfVendorBound {
  import opened TcfBits
  import opened TcfVector
  import opened TcfVendors

  /** The number of entries that need two ids */
  function Ranges(runs: seq<Run>): (n: nat)
  {
    if |runs| == 0 then 0
    else Ranges(runs[..|runs| - 1]) + if runs[|runs| - 1].lo < runs[|runs| - 1].hi then 1 else 0
  }

  ghost predicate Isolated(ids: set<nat>)
  {
    forall x :: x in ids ==> x + 1 !in ids
  }

  lemma {:induction false} EstimateCounts(ids: set<nat>, k: nat)
    requires Positive(ids)
    ensures Estimate(ids, k) == 29 + 16 * |Runs(ids, k)| + 17 * Ranges(Runs(ids, k))
                                + if k in ids && k + 1 in ids then 17 else 0
  {
    if k != 0 {
      EstimateCounts(ids, k - 1);
      if k in ids && k + 1 !in ids {
        var runs := Runs(ids, k);
        assert runs[..|runs| - 1] == Runs(ids, k - 1);
      }
    }
  }

  /** The decision in closed form, with n runs of which r have two or more ids */
  lemma RangeChosenIff(ids: set<nat>)
    requires Positive(ids) && ids != {}
    ensures var m := MaxId(ids);
            var runs := Runs(ids, m);
            RangeChosen(ids, m) <==> m > 45 && 16 * |runs| + 17 * Ranges(runs) < m + 4
  {
    var m := MaxId(ids);
    EstimateCounts(ids, m - 1);
    var runs := Runs(ids, m);
    assert runs[..|runs| - 1] == Runs(ids, m - 1);
  }

  lemma {:induction false} RunsEnd(ids: set<nat>, k: nat)
    ensures forall j :: 0 <= j < |Runs(ids, k)| ==> Runs(ids, k)[j].hi + 1 !in ids
  {
    if k != 0 {
      RunsEnd(ids, k - 1);
    }
  }

  lemma {:induction false} NoRangesMeansSingles(runs: seq<Run>)
    requires forall j :: 0 <= j < |runs| ==> runs[j].lo <= runs[j].hi
    ensures Ranges(runs) == 0 <==> forall j :: 0 <= j < |runs| ==> runs[j].lo == runs[j].hi
    ensures Ranges(runs) <= |runs|
  {
    if |runs| != 0 {
      var n := |runs| - 1;
      NoRangesMeansSingles(runs[..n]);
      assert forall j :: 0 <= j < n ==> runs[..n][j] == runs[j];
    }
  }

  lemma IdOfRun(runs: seq<Run>, j: nat, x: nat)
    requires j < |runs| && runs[j].lo <= x <= runs[j].hi
    ensures x in RunsIds(runs)
  {
    assert x in RunIds(runs[j]);
  }

  /** There is no entry with two ids exactly when no two ids are adjacent. */
  lemma NoRangesIff(ids: set<nat>)
    requires Positive(ids)
    ensures Ranges(Runs(ids, MaxId(ids))) == 0 <==> Isolated(ids)
  {
    hide Runs, Ranges, RunStart;
    var m := MaxId(ids);
    var runs := Runs(ids, m);
    RunsCover(ids, m);
    RunsEnd(ids, m);
    NoRangesMeansSingles(runs);
    if Ranges(runs) == 0 {
      forall x | x in ids
        ensures x + 1 !in ids
      {
        assert x in RunsIds(runs);
        var j :| 0 <= j < |runs| && x in RunIds(runs[j]);
        assert runs[j].lo == runs[j].hi == x;
      }
    }
    if Isolated(ids) {
      forall j | 0 <= j < |runs|
        ensures runs[j].lo == runs[j].hi
      {
        if runs[j].lo < runs[j].hi {
          IdOfRun(runs, j, runs[j].lo);
          IdOfRun(runs, j, runs[j].lo + 1);
          assert false;
        }
      }
    }
  }

  lemma {:induction false} IsolatedCount(ids: set<nat>, k: nat)
    requires Positive(ids) && Isolated(ids)
    ensures |Runs(ids, k)| == |Clip(ids, k)|
  {
    if k == 0 {
      assert Clip(ids, 0) == {};
    } else {
      hide RunStart;
      IsolatedCount(ids, k - 1);
      assert Clip(ids, k) == Clip(ids, k - 1) + if k in ids then {k} else {};
    }
  }

  lemma {:induction false} EncodeRunsOk(runs: seq<Run>)
    requires forall j :: 0 <= j < |runs| ==> runs[j].lo <= runs[j].hi < 65536
    ensures EncodeRuns(runs).Ok?
    ensures |EncodeRuns(runs).value| == 17 * |runs| + 16 * Ranges(runs)
    decreases |runs|
  {
    if |runs| != 0 {
      Pow2Of16();
      IntRoundTrip(runs[0].lo, VENDOR_ID_BITS);
      IntRoundTrip(runs[0].hi, VENDOR_ID_BITS);
      EncodeRunsOk(runs[1..]);
      RangesHead(runs);
    }
  }

  lemma {:induction false} RangesHead(runs: seq<Run>)
    requires |runs| > 0
    ensures Ranges(runs) == Ranges(runs[1..]) + if runs[0].lo < runs[0].hi then 1 else 0
    decreases |runs|
  {
    var n := |runs| - 1;
    if n == 0 {
      assert Ranges(runs[..0]) == 0;
    } else {
      RangesHead(runs[..n]);
      assert runs[..n][1..] == runs[1..][..n - 1];
    }
  }

  lemma Pow2Of16()
    ensures Pow2(12) == 4096 && Pow2(16) == 65536
  {
    assert Pow2(4) == 16;
    assert Pow2(8) == 256;
    assert Pow2(12) == 4096;
  }

  ghost predicate CounterOverflows(ids: set<nat>)
  {
    65533 <= MaxId(ids) <= 65535 && |ids| == 4096 && Isolated(ids)
  }

  /** Encoding fails exactly for ids that need more than 16 bits, and for 4096 isolated ids
      with a largest id of 65533, 65534 or 65535. */
  lemma EncodeFailsIff(ids: set<nat>)
    requires Positive(ids)
    ensures EncodeVendors(ids, MaxId(ids)).Err? <==> MaxId(ids) > 65535 || CounterOverflows(ids)
  {
    hide Runs, Estimate, EncodeInt, RangeChosen, EncodeRuns;
    var m := MaxId(ids);
    Pow2Of16();
    IntRoundTrip(m, MAX_ID_BITS);
    var runs := Runs(ids, m);
    if ids != {} {
      RangeChosenIff(ids);
      IntRoundTrip(|runs|, NUM_ENTRIES_BITS);
      RunsCover(ids, m);
      NoRangesMeansSingles(runs);
      NoRangesIff(ids);
      if m <= 65535 {
        EncodeRunsOk(runs);
      }
      if Isolated(ids) {
        IsolatedCount(ids, m);
        assert Clip(ids, m) == ids;
      }
    } else {
      assert m == 0;
      EmptyIsField();
    }
  }

  lemma EmptyIsField()
    ensures !RangeChosen({}, 0)
  {
  }

  /** In particular the counter never overflows while the largest id is at most 65532. */
  lemma EncodeSucceedsUpTo65532(ids: set<nat>)
    requires Positive(ids) && MaxId(ids) <= 65532
    ensures EncodeVendors(ids, MaxId(ids)).Ok?
  {
    EncodeFailsIff(ids);
  }

  ghost function Comb(n: nat): (ids: set<nat>)
    ensures forall x :: x in ids ==> 1 <= x <= 16 * n - 3
  {
    if n == 0 then {} else Comb(n - 1) + {16 * n - 3}
  }

  lemma {:induction false} CombIsIsolated(n: nat)
    ensures |Comb(n)| == n && Isolated(Comb(n))
  {
    if n != 0 {
      CombIsIsolated(n - 1);
      AddFarId(Comb(n - 1), 16 * n - 3);
    }
  }

  lemma AddFarId(ids: set<nat>, x: nat)
    requires Isolated(ids) && forall y :: y in ids ==> y + 1 < x
    ensures Isolated(ids + {x}) && |ids + {x}| == |ids| + 1
  {
  }

  /** The ids 13, 29, 45, ..., 65533 cannot be encoded, although their bitfield would fit. */
  lemma CombCannotBeEncoded()
    ensures EncodeVendors(Comb(4096), MaxId(Comb(4096))).Err?
    ensures MaxId(Comb(4096)) == 65533
  {
    CombIsIsolated(4096);
    assert 16 * 4096 - 3 in Comb(4096);
    MaxIdIsUnique(Comb(4096), 65533);
    EncodeFailsIff(Comb(4096));
  }

  /** The exact length of both forms */
  lemma EncodedLength(ids: set<nat>)
    requires Positive(ids) && EncodeVendors(ids, MaxId(ids)).Ok?
    ensures var m := MaxId(ids);
            var runs := Runs(ids, m);
            |EncodeVendors(ids, m).value| == if RangeChosen(ids, m) then 29 + 17 * |runs| + 16 * Ranges(runs)
                else 17 + m
  {
    hide Runs, Estimate, EncodeInt, RangeChosen, EncodeRuns;
    var m := MaxId(ids);
    var runs := Runs(ids, m);
    Pow2Of16();
    IntRoundTrip(m, MAX_ID_BITS);
    RunsCover(ids, m);
    EncodeRunsOk(runs);
    IntRoundTrip(|runs|, NUM_ENTRIES_BITS);
  }

  /** What a bitfield would take, and what a list of runs would when its counter fits */
  function FieldLength(ids: set<nat>): nat { 17 + MaxId(ids) }

  function RunsLength(ids: set<nat>): nat
  {
    var runs := Runs(ids, MaxId(ids));
    29 + 17 * |runs| + 16 * Ranges(runs)
  }

  lemma BothLengths(ids: set<nat>)
    requires Positive(ids) && MaxId(ids) < 65536
    ensures FieldLength(ids) == MAX_ID_BITS + 1 + |Bitfield(ids, MaxId(ids))|
    ensures var list := RangeEncoding(Runs(ids, MaxId(ids)));
            list.Ok? ==> RunsLength(ids) == MAX_ID_BITS + 1 + |list.value|
  {
    hide Runs, EncodeInt, EncodeRuns;
    var runs := Runs(ids, MaxId(ids));
    Pow2Of16();
    RunsCover(ids, MaxId(ids));
    EncodeRunsOk(runs);
    IntRoundTrip(|runs|, NUM_ENTRIES_BITS);
  }

  /** With largest id m and n runs, r of them of two or more ids: exactly when the chosen form is a
      shortest one. */
  lemma ChosenIsShortestIff(ids: set<nat>)
    requires Positive(ids) && EncodeVendors(ids, MaxId(ids)).Ok?
    ensures var list := RangeEncoding(Runs(ids, MaxId(ids)));
            && FieldLength(ids) == MAX_ID_BITS + 1 + |Bitfield(ids, MaxId(ids))|
            && (list.Ok? ==> RunsLength(ids) == MAX_ID_BITS + 1 + |list.value|)
    ensures var m, runs := MaxId(ids), Runs(ids, MaxId(ids));
            var n, r, length := |runs|, Ranges(runs), |EncodeVendors(ids, m).value|;
            && length in {FieldLength(ids), RunsLength(ids)}
            && (length <= FieldLength(ids) && length <= RunsLength(ids) <==>
                  if m > 45 && 16 * n + 17 * r < m + 4 then 12 + 17 * n + 16 * r <= m else m <= 12 + 17 * n + 16 * r)
  {
    hide Runs, Estimate, EncodeInt, RangeChosen, EncodeRuns, EncodeVendors;
    EncodedLength(ids);
    EncodeFailsIff(ids);
    BothLengths(ids);
    if ids == {} {
      EmptyIsField();
    } else {
      RangeChosenIff(ids);
    }
  }

  /** The chosen form is not always the shorter one: {1, 3, 46} takes 80 bits as a list of runs
      and would take 63 as a bitfield. */
  lemma ChosenFormMayBeLonger()
    ensures var ids := {1, 3, 46};
            EncodeVendors(ids, MaxId(ids)).Ok? && |EncodeVendors(ids, MaxId(ids)).value| == 80 && 17 + MaxId(ids) == 63
  {
    hide Runs, Estimate, EncodeInt, RangeChosen, EncodeRuns, EncodeVendors;
    var ids: set<nat> := {1, 3, 46};
    MaxIdIsUnique(ids, 46);
    EncodeSucceedsUpTo65532(ids);
    NoRangesIff(ids);
    IsolatedCount(ids, 46);
    assert Clip(ids, 46) == ids;
    RangeChosenIff(ids);
    EncodedLength(ids);
  }
}
