/** The vendor vector of the consent string: a bitfield, or a list of runs when the running
    size estimate says that the list is shorter. */
module TcfVendors {
  import opened Wrappers
  import opened TcfBits
  import opened TcfVector

  const MAX_ID_BITS := 16
  const ENCODING_TYPE_BITS := 1
  const VENDOR_ID_BITS := 16
  const SINGLE_OR_RANGE_BITS := 1
  const NUM_ENTRIES_BITS := 12

  const PREFIX_COST := MAX_ID_BITS + ENCODING_TYPE_BITS
  const RANGE_THRESHOLD := VENDOR_ID_BITS * 2 + SINGLE_OR_RANGE_BITS + NUM_ENTRIES_BITS

  /** The ids lo..hi; the original stores a one-element list when they are equal */
  datatype Run = Run(lo: nat, hi: nat)

  // ---------- What is encoded ----------

  function StepCost(ids: set<nat>, l: nat): nat
  {
    if l !in ids then 0
    else if l + 1 !in ids then VENDOR_ID_BITS
    else if l >= 1 && l - 1 in ids then 0
    else SINGLE_OR_RANGE_BITS + VENDOR_ID_BITS
  }

  /** The size estimate of the range form after the ids 1..k have been visited */
  function Estimate(ids: set<nat>, k: nat): nat
  {
    if k == 0 then PREFIX_COST + NUM_ENTRIES_BITS
    else Estimate(ids, k - 1) + StepCost(ids, k)
  }

  predicate RangeIsSmaller(ids: set<nat>, maxId: nat, l: nat)
    requires l >= 1
  {
    maxId > RANGE_THRESHOLD && Estimate(ids, l - 1) < PREFIX_COST + maxId
  }

  predicate RangeChosen(ids: set<nat>, maxId: nat)
  {
    maxId >= 1 && RangeIsSmaller(ids, maxId, maxId)
  }

  function RunStart(ids: set<nat>, k: nat): (s: nat)
    ensures s <= k
    ensures k in ids ==> forall x :: s <= x <= k ==> x in ids
    ensures s >= 1 ==> s - 1 !in ids
  {
    if k >= 1 && k - 1 in ids then RunStart(ids, k - 1) else k
  }

  /** The maximal runs of consecutive ids that end at or before k, in order */
  function Runs(ids: set<nat>, k: nat): seq<Run>
  {
    if k == 0 then []
    else if k in ids && k + 1 !in ids then Runs(ids, k - 1) + [Run(RunStart(ids, k), k)]
    else Runs(ids, k - 1)
  }

  function EncodeRun(run: Run): Result<Bits, CodecError>
  {
    var lo :- EncodeInt(run.lo, VENDOR_ID_BITS);
    if run.lo == run.hi then Ok(EncodeBool(false) + lo)
    else
      var hi :- EncodeInt(run.hi, VENDOR_ID_BITS);
      Ok(EncodeBool(true) + lo + hi)
  }

  function EncodeRuns(runs: seq<Run>): Result<Bits, CodecError>
  {
    if |runs| == 0 then Ok([])
    else
      var first :- EncodeRun(runs[0]);
      var rest :- EncodeRuns(runs[1..]);
      Ok(first + rest)
  }

  function RangeEncoding(runs: seq<Run>): Result<Bits, CodecError>
  {
    var count :- EncodeInt(|runs|, NUM_ENTRIES_BITS);
    var entries :- EncodeRuns(runs);
    Ok(count + entries)
  }

  function EncodeVendors(ids: set<nat>, maxId: nat): Result<Bits, CodecError>
  {
    var header :- EncodeInt(maxId, MAX_ID_BITS);
    if RangeChosen(ids, maxId) then
      var body :- RangeEncoding(Runs(ids, maxId));
      Ok(header + [true] + body)
    else
      Ok(header + [false] + Bitfield(ids, maxId))
  }

  // ---------- The encoder ----------

  ghost function Prepend(done: Bits, rest: Result<Bits, CodecError>): Result<Bits, CodecError>
  {
    match rest
    case Ok(b) => Ok(done + b)
    case Err(e) => Err(e)
  }

  lemma PrependEntry(done: Bits, runs: seq<Run>, j: nat)
    requires j < |runs|
    ensures Prepend(done, EncodeRuns(runs[j..])) ==
            match EncodeRun(runs[j])
            case Ok(entry) => Prepend(done + entry, EncodeRuns(runs[j + 1..]))
            case Err(e) => Err(e)
  {
    assert runs[j..][0] == runs[j] && runs[j..][1..] == runs[j + 1..];
    if EncodeRun(runs[j]).Ok? && EncodeRuns(runs[j + 1..]).Ok? {
      var entry, rest := EncodeRun(runs[j]).value, EncodeRuns(runs[j + 1..]).value;
      assert done + (entry + rest) == (done + entry) + rest;
    }
  }

  method BuildRangeEncoding(runs: seq<Run>) returns (r: Result<Bits, CodecError>)
    ensures r == RangeEncoding(runs)
  {
    var count :- EncodeInt(|runs|, NUM_ENTRIES_BITS);
    var b, j := count, 0;
    assert runs[0..] == runs && count == count + [];
    assert Prepend(count, EncodeRuns(runs)) == RangeEncoding(runs);
    while j < |runs|
      invariant 0 <= j <= |runs|
      invariant Prepend(b, EncodeRuns(runs[j..])) == RangeEncoding(runs)
    {
      PrependEntry(b, runs, j);
      var entry :- EncodeRun(runs[j]);
      b, j := b + entry, j + 1;
    }
    assert b + [] == b;
    return Ok(b);
  }

  method EncodeVendorVector(v: Vector) returns (r: Result<Bits, CodecError>)
    requires v.Valid()
    ensures r == EncodeVendors(v.ids, v.maxId)
  {
    var collected: seq<Run>, open: Option<nat> := [], None;
    var s :- EncodeInt(v.maxId, MAX_ID_BITS);
    var field: Bits, rangeIsSmaller := [], false;
    var fieldCost := PREFIX_COST + v.maxId;
    var rangeCost := PREFIX_COST + NUM_ENTRIES_BITS;
    for l := 1 to v.maxId + 1
      invariant field == Bitfield(v.ids, l - 1)
      invariant rangeIsSmaller <==> l >= 2 && RangeIsSmaller(v.ids, v.maxId, l - 1)
      invariant l == 1 || rangeIsSmaller ==>
                  && rangeCost == Estimate(v.ids, l - 1)
                  && collected == Runs(v.ids, l - 1)
                  && open == if l - 1 in v.ids && l in v.ids then Some(RunStart(v.ids, l - 1)) else None
      invariant l >= 2 && v.maxId > RANGE_THRESHOLD && !rangeIsSmaller ==>
                  rangeCost >= fieldCost && Estimate(v.ids, l - 1) >= fieldCost
    {
      var d := l in v.ids;
      field := field + EncodeBool(d);
      rangeIsSmaller := v.maxId > RANGE_THRESHOLD && rangeCost < fieldCost;
      if rangeIsSmaller && d {
        if l + 1 in v.ids {
          if open.None? {
            open := Some(l);
            rangeCost := rangeCost + SINGLE_OR_RANGE_BITS;
            rangeCost := rangeCost + VENDOR_ID_BITS;
          }
        } else {
          collected := collected + [Run(if open.Some? then open.value else l, l)];
          rangeCost := rangeCost + VENDOR_ID_BITS;
          open := None;
        }
      }
    }
    if rangeIsSmaller {
      s := s + [true];
      var body := BuildRangeEncoding(collected);
      match body
      case Err(e) => return Err(e);
      case Ok(b) => return Ok(s + b);
    } else {
      s := s + [false];
      return Ok(s + field);
    }
  }

  /** Once the estimate has reached the size of the bitfield it never drops below it again,
      so the runs are complete whenever the flag is true at the end. */
  lemma {:induction false} FlagNeverReturns(ids: set<nat>, maxId: nat, j: nat, k: nat)
    requires 1 <= j <= k
    ensures Estimate(ids, j - 1) <= Estimate(ids, k - 1)
    ensures RangeIsSmaller(ids, maxId, k) ==> RangeIsSmaller(ids, maxId, j)
  {
    if j < k {
      FlagNeverReturns(ids, maxId, j, k - 1);
    }
  }

  // ---------- The decoder ----------

  /** `IntEncoder.decode(e.substr(at, width), width)` */
  function ReadInt(e: Bits, at: nat, width: nat): Result<nat, CodecError>
  {
    if at + width <= |e| then Ok(Number(e[at..at + width])) else Err(DecodingError)
  }

  /** `BooleanEncoder.decode(e.charAt(at))` */
  function ReadBool(e: Bits, at: nat): bool
  {
    at < |e| && e[at]
  }

  function Interval(lo: nat, hi: int): (ids: set<nat>)
    ensures forall x :: x in ids <==> lo <= x <= hi
    decreases hi - lo
  {
    if hi < lo then {} else Interval(lo, hi - 1) + {hi}
  }

  function RunIds(run: Run): set<nat>
  {
    Interval(run.lo, run.hi)
  }

  function ReadRun(e: Bits, at: nat): Result<(Run, nat), CodecError>
  {
    var lo :- ReadInt(e, at + 1, VENDOR_ID_BITS);
    if ReadBool(e, at) then
      var hi :- ReadInt(e, at + 17, VENDOR_ID_BITS);
      Ok((Run(lo, hi), at + 33))
    else Ok((Run(lo, lo), at + 17))
  }

  /** The ids of n entries starting at the cursor, and the cursor after them */
  function ReadRuns(e: Bits, at: nat, n: nat): Result<(set<nat>, nat), CodecError>
    decreases n
  {
    if n == 0 then Ok(({}, at))
    else
      var (run, next) :- ReadRun(e, at);
      if run.lo == 0 then Err(ModelError)
      else
        var (ids, end) :- ReadRuns(e, next, n - 1);
        Ok((RunIds(run) + ids, end))
  }

  function DecodeVendors(e: Bits, version: int): Result<(set<nat>, nat), CodecError>
  {
    var maxId :- ReadInt(e, 0, MAX_ID_BITS);
    var isRange :- ReadInt(e, 16, ENCODING_TYPE_BITS);
    if isRange == 1 then
      if version == 1 && ReadBool(e, 17) then Err(DecodingError)
      else
        var at := if version == 1 then 18 else 17;
        var n :- ReadInt(e, at, NUM_ENTRIES_BITS);
        ReadRuns(e, at + NUM_ENTRIES_BITS, n)
    else if 17 + maxId <= |e| then Ok((BitfieldIds(e[17..17 + maxId]), 17 + maxId))
    else Err(DecodingError)
  }

  ghost function WithIds(ids: set<nat>, rest: Result<(set<nat>, nat), CodecError>)
    : Result<(set<nat>, nat), CodecError>
  {
    match rest
    case Ok((more, end)) => Ok((ids + more, end))
    case Err(e) => Err(e)
  }

  /** The body of one entry: every id from lo to hi is set, and setting 0 fails. */
  method SetRun(v: Vector, run: Run) returns (r: Result<(), CodecError>)
    requires v.Valid()
    modifies v
    ensures v.Valid()
    ensures run.lo == 0 ==> r == Err(ModelError)
    ensures run.lo > 0 ==> r == Ok(()) && v.ids == old(v.ids) + RunIds(run)
  {
    var l := run.lo;
    while l <= run.hi
      invariant v.Valid() && run.lo <= l && (l <= run.hi + 1 || l == run.lo)
      invariant run.lo == 0 ==> l == 0
      invariant v.ids == old(v.ids) + Interval(run.lo, l - 1)
    {
      var _ :- v.Set(l);
      l := l + 1;
    }
    assert Interval(run.lo, l - 1) == RunIds(run);
    return Ok(());
  }

  method DecodeVendorVector(e: Bits, version: int) returns (r: Result<Vector, CodecError>)
    ensures DecodeVendors(e, version).Err? ==> r == Err(DecodeVendors(e, version).error)
    ensures DecodeVendors(e, version).Ok? ==>
              && r.Ok? && fresh(r.value) && r.value.Valid()
              && (r.value.ids, r.value.bitLength) == DecodeVendors(e, version).value
  {
    hide Number, Interval, MaxId, BitfieldIds, RunIds;
    var maxId :- ReadInt(e, 0, MAX_ID_BITS);
    var isRange :- ReadInt(e, 16, ENCODING_TYPE_BITS);
    var s: nat := 17;
    var v;
    if isRange == 1 {
      v := new Vector();
      if version == 1 {
        if ReadBool(e, s) {
          return Err(DecodingError);
        }
        s := s + 1;
      }
      var n :- ReadInt(e, s, NUM_ENTRIES_BITS);
      s := s + NUM_ENTRIES_BITS;
      assert DecodeVendors(e, version) == ReadRuns(e, s, n);
      assert ReadRuns(e, s, n).Ok? ==> {} + ReadRuns(e, s, n).value.0 == ReadRuns(e, s, n).value.0;
      var c := 0;
      while c < n
        invariant 0 <= c <= n && fresh(v) && v.Valid()
        invariant DecodeVendors(e, version) == WithIds(v.ids, ReadRuns(e, s, n - c))
      {
        ghost var before, at := v.ids, s;
        var range := ReadBool(e, s);
        s := s + 1;
        var lo :- ReadInt(e, s, VENDOR_ID_BITS);
        s := s + VENDOR_ID_BITS;
        var hi := lo;
        if range {
          hi :- ReadInt(e, s, VENDOR_ID_BITS);
          s := s + VENDOR_ID_BITS;
        }
        assert ReadRun(e, at) == Ok((Run(lo, hi), s));
        var _ :- SetRun(v, Run(lo, hi));
        c := c + 1;
        if ReadRuns(e, s, n - c).Ok? {
          var rest := ReadRuns(e, s, n - c).value.0;
          assert before + (RunIds(Run(lo, hi)) + rest) == v.ids + rest;
        }
      }
      assert v.ids + {} == v.ids;
    } else {
      var field := if s + maxId <= |e| then e[s..s + maxId] else e[s..];
      s := s + maxId;
      v :- DecodeFixed(field, maxId);
    }
    v.bitLength := s;
    return Ok(v);
  }

  // ---------- Round trip ----------

  lemma ReadIntOf(before: Bits, v: nat, width: nat, code: Bits, after: Bits)
    requires width >= 1 && EncodeInt(v, width) == Ok(code)
    ensures |code| == width
    ensures ReadInt(before + code + after, |before|, width) == Ok(v)
  {
    IntRoundTrip(v, width);
    assert (before + code + after)[|before|..|before| + width] == code;
  }

  lemma ReadRunOf(before: Bits, run: Run, code: Bits, after: Bits)
    requires EncodeRun(run) == Ok(code)
    ensures ReadRun(before + code + after, |before|) == Ok((run, |before| + |code|))
  {
    hide EncodeInt, ReadInt;
    var e := before + code + after;
    var lo := EncodeInt(run.lo, VENDOR_ID_BITS).value;
    IntRoundTrip(run.lo, VENDOR_ID_BITS);
    if run.lo == run.hi {
      assert e == (before + [false]) + lo + after;
      ReadIntOf(before + [false], run.lo, VENDOR_ID_BITS, lo, after);
    } else {
      var hi := EncodeInt(run.hi, VENDOR_ID_BITS).value;
      assert e == (before + [true]) + lo + (hi + after);
      ReadIntOf(before + [true], run.lo, VENDOR_ID_BITS, lo, hi + after);
      assert e == (before + [true] + lo) + hi + after;
      ReadIntOf(before + [true] + lo, run.hi, VENDOR_ID_BITS, hi, after);
    }
  }

  function RunsIds(runs: seq<Run>): set<nat>
  {
    set j, x | 0 <= j < |runs| && x in RunIds(runs[j]) :: x
  }

  lemma RunsIdsSplit(runs: seq<Run>)
    requires |runs| > 0
    ensures RunsIds(runs) == RunIds(runs[0]) + RunsIds(runs[1..])
  {
    forall x | x in RunsIds(runs)
      ensures x in RunIds(runs[0]) + RunsIds(runs[1..])
    {
      var j :| 0 <= j < |runs| && x in RunIds(runs[j]);
      assert j > 0 ==> runs[j] == runs[1..][j - 1];
    }
    forall x | x in RunsIds(runs[1..])
      ensures x in RunsIds(runs)
    {
      var j :| 0 <= j < |runs[1..]| && x in RunIds(runs[1..][j]);
      assert runs[1..][j] == runs[j + 1];
    }
  }

  lemma NoRunsNoIds()
    ensures RunsIds([]) == {}
  {
  }

  lemma {:induction false} ReadRunsOf(before: Bits, runs: seq<Run>, code: Bits, after: Bits)
    requires EncodeRuns(runs) == Ok(code)
    requires forall j :: 0 <= j < |runs| ==> runs[j].lo >= 1
    ensures ReadRuns(before + code + after, |before|, |runs|) == Ok((RunsIds(runs), |before| + |code|))
    decreases |runs|
  {
    hide EncodeRun, ReadRun, RunsIds;
    if |runs| == 0 {
      assert before + code + after == before + after && RunsIds(runs) == {} by {
        NoRunsNoIds();
      }
    } else {
      var first, rest := EncodeRun(runs[0]).value, EncodeRuns(runs[1..]).value;
      var e := before + code + after;
      assert e == before + first + (rest + after);
      ReadRunOf(before, runs[0], first, rest + after);
      assert e == (before + first) + rest + after;
      ReadRunsOf(before + first, runs[1..], rest, after);
      RunsIdsSplit(runs);
    }
  }

  /** The completed runs together with the open one hold exactly the ids up to k. */
  lemma {:induction false} RunsCover(ids: set<nat>, k: nat)
    requires Positive(ids)
    ensures forall j :: 0 <= j < |Runs(ids, k)| ==> 1 <= Runs(ids, k)[j].lo <= Runs(ids, k)[j].hi <= k
    ensures forall x :: x in RunsIds(Runs(ids, k)) <==>
                        x in ids && x <= k && !(k in ids && k + 1 in ids && x >= RunStart(ids, k))
  {
    if k != 0 {
      RunsCover(ids, k - 1);
      var old_, new_ := Runs(ids, k - 1), Runs(ids, k);
      if k in ids && k + 1 !in ids {
        forall x
          ensures x in RunsIds(new_) <==> x in RunsIds(old_) || x in RunIds(Run(RunStart(ids, k), k))
        {
          if x in RunIds(new_[|old_|]) {
          } else if x in RunsIds(old_) {
            var j :| 0 <= j < |old_| && x in RunIds(old_[j]);
            assert new_[j] == old_[j];
          }
        }
      }
    }
  }

  lemma ReadHeader(maxId: nat, isRange: bool, header: Bits, rest: Bits)
    requires EncodeInt(maxId, MAX_ID_BITS) == Ok(header)
    ensures |header| == 16
    ensures var e := header + [isRange] + rest;
            ReadInt(e, 0, MAX_ID_BITS) == Ok(maxId)
            && ReadInt(e, 16, ENCODING_TYPE_BITS) == Ok(if isRange then 1 else 0)
  {
    var e := header + [isRange] + rest;
    assert e == [] + header + ([isRange] + rest);
    ReadIntOf([], maxId, MAX_ID_BITS, header, [isRange] + rest);
    assert e[16..17] == [isRange] && Number([isRange][..0]) == 0;
  }

  lemma RangeRoundTrip(ids: set<nat>, maxId: nat, header: Bits, body: Bits, suffix: Bits)
    requires Positive(ids) && maxId == MaxId(ids)
    requires EncodeInt(maxId, MAX_ID_BITS) == Ok(header)
    requires RangeEncoding(Runs(ids, maxId)) == Ok(body)
    ensures DecodeVendors(header + [true] + body + suffix, 2) == Ok((ids, 17 + |body|))
  {
    hide EncodeInt, ReadInt, ReadRuns, EncodeRuns, Runs, MaxId, RunsIds;
    var e := header + [true] + body + suffix;
    var runs := Runs(ids, maxId);
    var count, entries := EncodeInt(|runs|, NUM_ENTRIES_BITS).value, EncodeRuns(runs).value;
    assert e == header + [true] + (body + suffix);
    ReadHeader(maxId, true, header, body + suffix);
    assert e == (header + [true]) + count + (entries + suffix);
    ReadIntOf(header + [true], |runs|, NUM_ENTRIES_BITS, count, entries + suffix);
    RunsCover(ids, maxId);
    assert e == (header + [true] + count) + entries + suffix;
    ReadRunsOf(header + [true] + count, runs, entries, suffix);
    assert RunsIds(runs) == ids;
    IntRoundTrip(|runs|, NUM_ENTRIES_BITS);
  }

  lemma DecodeOfField(e: Bits, maxId: nat)
    requires ReadInt(e, 0, MAX_ID_BITS) == Ok(maxId) && ReadInt(e, 16, ENCODING_TYPE_BITS) == Ok(0)
    requires 17 + maxId <= |e|
    ensures DecodeVendors(e, 2) == Ok((BitfieldIds(e[17..17 + maxId]), 17 + maxId))
  {
  }

  lemma FieldRoundTrip(ids: set<nat>, maxId: nat, header: Bits, suffix: Bits)
    requires Positive(ids) && maxId == MaxId(ids)
    requires EncodeInt(maxId, MAX_ID_BITS) == Ok(header)
    ensures DecodeVendors(header + [false] + Bitfield(ids, maxId) + suffix, 2) == Ok((ids, 17 + maxId))
  {
    var field := Bitfield(ids, maxId);
    var e := header + [false] + field + suffix;
    assert e == header + [false] + (field + suffix);
    ReadHeader(maxId, false, header, field + suffix);
    DecodeOfField(e, maxId);
    assert e[17..17 + maxId] == field;
    BitfieldRoundTrip(ids, maxId);
    assert Clip(ids, maxId) == ids;
  }

  /** Whenever encoding succeeds, decoding returns the same ids and consumes exactly the
      encoded bits, in both forms and whatever follows. */
  lemma VendorRoundTrip(ids: set<nat>, suffix: Bits)
    requires Positive(ids) && EncodeVendors(ids, MaxId(ids)).Ok?
    ensures var b := EncodeVendors(ids, MaxId(ids)).value;
            DecodeVendors(b + suffix, 2) == Ok((ids, |b|))
  {
    hide EncodeInt, DecodeVendors, Runs, RangeEncoding, RangeChosen;
    var maxId := MaxId(ids);
    var header := EncodeInt(maxId, MAX_ID_BITS).value;
    IntRoundTrip(maxId, MAX_ID_BITS);
    if RangeChosen(ids, maxId) {
      RangeRoundTrip(ids, maxId, header, RangeEncoding(Runs(ids, maxId)).value, suffix);
    } else {
      FieldRoundTrip(ids, maxId, header, suffix);
    }
  }
}
