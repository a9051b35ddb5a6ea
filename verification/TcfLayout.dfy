/** Where everything stands in an encoded consent string, bit by bit: the layout that other readers of the format
    rely on, in literal offsets. */
module TcfLayout {
  import opened Wrappers
  import opened TcfBits
  import opened TcfVector
  import opened TcfVendors
  import opened TcfRestrictions
  import opened TcfBase64
  import opened TcfSegments
  import opened Strings

  // ---------- Scalars ----------

  /** The unsigned integer in b, its first bit counting most */
  function Read(b: Bits): nat
  {
    if |b| == 0 then 0 else (if b[0] then Pow2(|b| - 1) else 0) + Read(b[1..])
  }

  lemma {:induction false} ReadIsNumber(b: Bits)
    ensures Read(b) == Number(b)
    decreases |b|
  {
    if |b| > 1 {
      var init := b[..|b| - 1];
      ReadIsNumber(init);
      ReadIsNumber(b[1..]);
      ReadIsNumber(init[1..]);
      assert b[1..][..|b| - 2] == init[1..];
      assert Read(init) == (if b[0] then Pow2(|b| - 2) else 0) + Read(init[1..]);
    } else if |b| == 1 {
      assert b[1..] == [] && b[..0] == [];
    }
  }

  /** An integer stands in its bits with the most significant one first. */
  lemma IntLayout(e: int, width: nat, b: Bits)
    requires width >= 1 && EncodeInt(e, width) == Ok(b)
    ensures |b| == width && Read(b) == e
  {
    IntRoundTrip(e, width);
    ReadIsNumber(b);
  }

  /** The bits of an integer are read as its tenths of a second, halves rounded up. */
  predicate IsDate(b: Bits, ms: int)
  {
    100 * Read(b) - 50 <= ms < 100 * Read(b) + 50
  }

  /** Two letters of six bits each, of which A is 0 */
  predicate IsLetters(b: Bits, s: string)
    requires |b| == 12
  {
    var upper := Upper(s);
    |upper| >= 2 && 'A' as int + Read(b[..6]) == upper[0] as int && 'A' as int + Read(b[6..]) == upper[1] as int
  }

  /** The k-th bit says whether k is in the set, counted from 1. */
  predicate IsField(b: Bits, ids: set<nat>)
  {
    forall k :: 1 <= k <= |b| ==> (b[k - 1] <==> k in ids)
  }

  // ---------- Fields one after the other ----------

  /** What an encoded field of fixed width holds */
  ghost predicate Holds(code: Bits, v: Value)
  {
    match v
    case IntV(n) => Read(code) == n
    case BoolV(x) => code == [x]
    case DateV(ms) => IsDate(code, ms)
    case LangV(s) => |code| == 12 && IsLetters(code, s)
    case VectorV(ids) => IsField(code, ids)
    case RestrictionsV(_, _) => false
  }

  lemma FieldHolds(f: Field, m: Model, w: nat, code: Bits)
    requires WellTyped(m) && CodecOf(f) !in {VendorCodec, RestrictionCodec} && NumBits(f, m) == Some(w)
    requires w >= 1 && EncodeField(f, m) == Ok(code)
    ensures |code| == w && Holds(code, m[f])
  {
    hide EncodeInt, EncodeLang, Upper, EncodeVendors, EncodeRestrictions, IsLetters;
    var v := m[f];
    assert Matches(CodecOf(f), v);
    match CodecOf(f) {
      case IntCodec => IntLayout(v.n, w, code);
      case DateCodec => IntLayout(Deciseconds(v.ms), w, code);
      case LangCodec => LangLayout(v.s, code);
      case _ =>
    }
  }

  lemma LangLayout(s: string, code: Bits)
    requires EncodeLang(s, 12) == Ok(code)
    ensures |code| == 12 && IsLetters(code, s)
  {
    hide EncodeInt, Upper;
    var upper := Upper(s);
    LangRoundTrip(s);
    var a, b := EncodeInt(upper[0] as int - 65, 6).value, EncodeInt(upper[1] as int - 65, 6).value;
    IntLayout(upper[0] as int - 65, 6, a);
    IntLayout(upper[1] as int - 65, 6, b);
    assert code[..6] == a && code[6..] == b;
  }

  function IdsOf(m: Model, f: Field): set<nat>
    requires WellTyped(m) && CodecOf(f) in {FixedCodec, VendorCodec}
  {
    assert Matches(CodecOf(f), m[f]);
    m[f].ids
  }

  /** From field k on the code is b[at..]. */
  ghost predicate Stands(fs: seq<Field>, m: Model, b: Bits, k: nat, at: nat)
    requires WellTyped(m)
  {
    k <= |fs| && at <= |b| && EncodeFields(fs[k..], m) == Ok(b[at..])
  }

  /** One field further */
  lemma Next(fs: seq<Field>, m: Model, b: Bits, k: nat, at: nat, w: nat)
    requires WellTyped(m) && Stands(fs, m, b, k, at) && k < |fs| && w >= 1
    requires CodecOf(fs[k]) !in {VendorCodec, RestrictionCodec} && NumBits(fs[k], m) == Some(w)
    ensures at + w <= |b| && Holds(b[at..at + w], m[fs[k]])
    ensures Stands(fs, m, b, k + 1, at + w)
  {
    hide EncodeField, NumBits, Holds, WellTyped, CodecOf;
    NextCode(fs, m, b, k, at);
    FieldHolds(fs[k], m, w, EncodeField(fs[k], m).value);
  }

  lemma NextCode(fs: seq<Field>, m: Model, b: Bits, k: nat, at: nat)
    requires WellTyped(m) && Stands(fs, m, b, k, at) && k < |fs|
    ensures EncodeField(fs[k], m).Ok?
    ensures var w := |EncodeField(fs[k], m).value|;
            at + w <= |b| && EncodeField(fs[k], m).value == b[at..at + w] && Stands(fs, m, b, k + 1, at + w)
  {
    hide EncodeField, WellTyped;
    assert fs[k..][0] == fs[k] && fs[k..][1..] == fs[k + 1..];
    var first, rest := EncodeField(fs[k], m).value, EncodeFields(fs[k + 1..], m).value;
    assert b[at..] == first + rest;
    assert |b[at..]| == |first| + |rest|;
    assert b[at..at + |first|] == b[at..][..|first|] == first;
    assert b[at + |first|..] == b[at..][|first|..] == rest;
  }

  // ---------- Vendors ----------

  /** The entries of a list of ranges: a clear bit and one id, or a set bit, the first id and the last one */
  ghost predicate IsList(b: Bits, runs: seq<Run>)
    decreases |runs|
  {
    if |runs| == 0 then b == []
    else if runs[0].lo == runs[0].hi then
      |b| >= 17 && !b[0] && Read(b[1..17]) == runs[0].lo && IsList(b[17..], runs[1..])
    else
      |b| >= 33 && b[0] && Read(b[1..17]) == runs[0].lo && Read(b[17..33]) == runs[0].hi && IsList(b[33..], runs[1..])
  }

  /** The ranges are in order, with an id between any two of them that is in neither. */
  predicate Apart(runs: seq<Run>)
  {
    && (forall i :: 0 <= i < |runs| ==> runs[i].lo <= runs[i].hi)
    && forall i :: 0 <= i < |runs| - 1 ==> runs[i].hi + 1 < runs[i + 1].lo
  }

  lemma {:induction false} ListLayout(runs: seq<Run>, b: Bits)
    requires EncodeRuns(runs) == Ok(b)
    ensures IsList(b, runs)
    decreases |runs|
  {
    hide EncodeInt, Read;
    if |runs| != 0 {
      var first, rest := EncodeRun(runs[0]).value, EncodeRuns(runs[1..]).value;
      ListLayout(runs[1..], rest);
      var lo := EncodeInt(runs[0].lo, 16).value;
      IntLayout(runs[0].lo, 16, lo);
      if runs[0].lo == runs[0].hi {
        assert b[1..17] == lo && b[17..] == rest;
      } else {
        var hi := EncodeInt(runs[0].hi, 16).value;
        IntLayout(runs[0].hi, 16, hi);
        assert b[1..17] == lo && b[17..33] == hi && b[33..] == rest;
      }
    }
  }

  lemma {:induction false} RunsApart(ids: set<nat>, k: nat)
    ensures Apart(Runs(ids, k))
    ensures forall run :: run in Runs(ids, k) ==> run.hi <= k && run.hi + 1 !in ids
  {
    if k > 0 {
      RunsApart(ids, k - 1);
      var runs, before := Runs(ids, k), Runs(ids, k - 1);
      if |before| > 0 && k in ids && k + 1 !in ids {
        assert before[|before| - 1] in before;
        assert before[|before| - 1].hi + 1 < RunStart(ids, k);
      }
    }
  }

  /** The ids of a code: the largest one in 16 bits, then a clear bit and one bit for each id up to it, or a set bit,
      the number of ranges in 12 bits, and the ranges. */
  lemma VendorLayout(ids: set<nat>, b: Bits)
    requires Positive(ids) && EncodeVendors(ids, MaxId(ids)) == Ok(b)
    ensures |b| >= 17 && Read(b[0..16]) == MaxId(ids)
    ensures !b[16] ==> |b| == 17 + MaxId(ids) && IsField(b[17..], ids)
    ensures b[16] ==>
              var runs := Runs(ids, MaxId(ids));
              && |b| >= 29 && Read(b[17..29]) == |runs| && IsList(b[29..], runs) && Apart(runs)
              && forall x: nat :: x in ids <==> exists run :: run in runs && run.lo <= x <= run.hi
  {
    hide EncodeInt, Read, RangeChosen, Runs, EncodeRuns, IsList, Apart;
    var m := MaxId(ids);
    var header, runs := EncodeInt(m, 16).value, Runs(ids, m);
    IntLayout(m, 16, header);
    assert b[0..16] == header;
    if RangeChosen(ids, m) {
      var count, body := EncodeInt(|runs|, 12).value, EncodeRuns(runs).value;
      IntLayout(|runs|, 12, count);
      ListLayout(runs, body);
      RunsApart(ids, m);
      RunsAreIds(ids);
      assert b[17..29] == count && b[29..] == body;
    } else {
      assert b[17..] == Bitfield(ids, m);
    }
  }

  lemma RunsAreIds(ids: set<nat>)
    requires Positive(ids)
    ensures var runs := Runs(ids, MaxId(ids));
            forall x: nat :: x in ids <==> exists run :: run in runs && run.lo <= x <= run.hi
  {
    hide Runs;
    var m := MaxId(ids);
    var runs := Runs(ids, m);
    RunsCover(ids, m);
    forall x: nat
      ensures x in ids <==> exists run :: run in runs && run.lo <= x <= run.hi
    {
      InSomeRun(runs, x);
    }
  }

  lemma InSomeRun(runs: seq<Run>, x: nat)
    ensures x in RunsIds(runs) <==> exists run :: run in runs && run.lo <= x <= run.hi
  {
    if x in RunsIds(runs) {
      var j :| 0 <= j < |runs| && x in RunIds(runs[j]);
      assert runs[j] in runs;
    }
    if run :| run in runs && run.lo <= x <= run.hi {
      var j :| 0 <= j < |runs| && runs[j] == run;
      assert x in RunIds(runs[j]);
    }
  }

  // ---------- The core segment ----------

  /** What both versions start with, up to bit 132 */
  ghost predicate CommonLayout(m: Model, b: Bits)
    requires WellTyped(m)
  {
    && |b| >= 132
    && Read(b[0..6]) == m[Version].n
    && IsDate(b[6..42], m[Created].ms)
    && IsDate(b[42..78], m[LastUpdated].ms)
    && Read(b[78..90]) == m[CmpId].n
    && Read(b[90..102]) == m[CmpVersion].n
    && Read(b[102..108]) == m[ConsentScreen].n
    && IsLetters(b[108..120], m[ConsentLanguage].s)
    && Read(b[120..132]) == m[VendorListVersion].n
  }

  /** One integer, date, pair of letters, flag or set further */
  lemma NextInt(fs: seq<Field>, m: Model, b: Bits, k: nat, at: nat, w: nat)
    requires WellTyped(m) && Stands(fs, m, b, k, at) && k < |fs| && w >= 1
    requires CodecOf(fs[k]) == IntCodec && NumBits(fs[k], m) == Some(w)
    ensures at + w <= |b| && m[fs[k]].IntV? && Read(b[at..at + w]) == m[fs[k]].n
    ensures Stands(fs, m, b, k + 1, at + w)
  {
    hide Stands, Read;
    Next(fs, m, b, k, at, w);
    assert Matches(IntCodec, m[fs[k]]);
  }

  lemma NextDate(fs: seq<Field>, m: Model, b: Bits, k: nat, at: nat, w: nat)
    requires WellTyped(m) && Stands(fs, m, b, k, at) && k < |fs| && w >= 1
    requires CodecOf(fs[k]) == DateCodec && NumBits(fs[k], m) == Some(w)
    ensures at + w <= |b| && m[fs[k]].DateV? && IsDate(b[at..at + w], m[fs[k]].ms)
    ensures Stands(fs, m, b, k + 1, at + w)
  {
    hide Stands, Read;
    Next(fs, m, b, k, at, w);
    assert Matches(DateCodec, m[fs[k]]);
  }

  lemma NextLetters(fs: seq<Field>, m: Model, b: Bits, k: nat, at: nat)
    requires WellTyped(m) && Stands(fs, m, b, k, at) && k < |fs|
    requires CodecOf(fs[k]) == LangCodec && NumBits(fs[k], m) == Some(12)
    ensures at + 12 <= |b| && m[fs[k]].LangV? && IsLetters(b[at..at + 12], m[fs[k]].s)
    ensures Stands(fs, m, b, k + 1, at + 12)
  {
    hide Stands, IsLetters;
    Next(fs, m, b, k, at, 12);
    assert Matches(LangCodec, m[fs[k]]);
  }

  lemma NextFlag(fs: seq<Field>, m: Model, b: Bits, k: nat, at: nat)
    requires WellTyped(m) && Stands(fs, m, b, k, at) && k < |fs|
    requires CodecOf(fs[k]) == BoolCodec && NumBits(fs[k], m) == Some(1)
    ensures at < |b| && m[fs[k]].BoolV? && b[at] == m[fs[k]].b
    ensures Stands(fs, m, b, k + 1, at + 1)
  {
    hide Stands;
    Next(fs, m, b, k, at, 1);
    assert Matches(BoolCodec, m[fs[k]]);
    assert b[at..at + 1][0] == b[at];
  }

  lemma NextField(fs: seq<Field>, m: Model, b: Bits, k: nat, at: nat, w: nat)
    requires WellTyped(m) && Stands(fs, m, b, k, at) && k < |fs| && w >= 1
    requires CodecOf(fs[k]) == FixedCodec && NumBits(fs[k], m) == Some(w)
    ensures at + w <= |b| && m[fs[k]].VectorV? && IsField(b[at..at + w], m[fs[k]].ids)
    ensures Stands(fs, m, b, k + 1, at + w)
  {
    hide Stands, IsField;
    Next(fs, m, b, k, at, w);
    assert Matches(FixedCodec, m[fs[k]]);
  }

  lemma CommonFields(fs: seq<Field>, m: Model, b: Bits)
    requires WellTyped(m) && EncodeFields(fs, m) == Ok(b) && |fs| >= 8
    requires fs[0] == Version && fs[1] == Created && fs[2] == LastUpdated && fs[3] == CmpId
    requires fs[4] == CmpVersion && fs[5] == ConsentScreen && fs[6] == ConsentLanguage && fs[7] == VendorListVersion
    ensures CommonLayout(m, b) && Stands(fs, m, b, 8, 132)
  {
    hide EncodeFields, Read, IsDate, IsLetters, Matches, Stands, WellTyped;
    Begins(fs, m, b);
    NextInt(fs, m, b, 0, 0, 6);
    NextDate(fs, m, b, 1, 6, 36);
    NextDate(fs, m, b, 2, 42, 36);
    NextInt(fs, m, b, 3, 78, 12);
    NextInt(fs, m, b, 4, 90, 12);
    NextInt(fs, m, b, 5, 102, 6);
    NextLetters(fs, m, b, 6, 108);
    NextInt(fs, m, b, 7, 120, 12);
  }

  lemma Begins(fs: seq<Field>, m: Model, b: Bits)
    requires WellTyped(m) && EncodeFields(fs, m) == Ok(b)
    ensures Stands(fs, m, b, 0, 0)
  {
    assert fs[0..] == fs && b[0..] == b;
  }

  lemma TypesOf(m: Model)
    requires WellTyped(m)
    ensures forall f: Field :: f in m && Matches(CodecOf(f), m[f])
  {
  }

  /** Version 2, bits 132 to 213: policy, flags, special features, purposes with consent and with legitimate
      interest, and the publisher's country */
  ghost predicate PurposeLayout(m: Model, b: Bits)
    requires WellTyped(m)
  {
    && |b| >= 213
    && Read(b[132..138]) == m[PolicyVersion].n
    && b[138] == m[IsServiceSpecific].b
    && b[139] == m[UseNonStandardTexts].b
    && IsField(b[140..152], m[SpecialFeatureOptins].ids)
    && IsField(b[152..176], m[PurposeConsents].ids)
    && IsField(b[176..200], m[PurposeLegitimateInterests].ids)
    && b[200] == m[PurposeOneTreatment].b
    && IsLetters(b[201..213], m[PublisherCountryCode].s)
  }

  /** What follows: vendors with consent, vendors with legitimate interest, restrictions */
  ghost predicate VendorsLayout(m: Model, rest: Bits)
    requires WellTyped(m)
  {
    var first := EncodeVendors(m[VendorConsents].ids, MaxId(m[VendorConsents].ids));
    var second := EncodeVendors(m[VendorLegitimateInterests].ids, MaxId(m[VendorLegitimateInterests].ids));
    var third := EncodeRestrictions(m[PublisherRestrictions].entries, m[PublisherRestrictions].gvl);
    first.Ok? && second.Ok? && third.Ok? && rest == first.value + second.value + third.value
  }

  lemma CoreLayout(m: Model, b: Bits)
    requires WellTyped(m) && m[Version] == IntV(2) && EncodeSegmentBits(m, Core) == Ok(b)
    ensures CommonLayout(m, b) && PurposeLayout(m, b) && VendorsLayout(m, b[213..])
  {
    hide EncodeFields, Stands, CommonLayout, PurposeLayout, VendorsLayout, WellTyped, EncodeSegmentBits, FieldSequence;
    SecondCore();
    var fs := FieldSequence(2, Core).value;
    CoreFields(m, b);
    CommonFields(fs, m, b);
    PurposeFields(fs, m, b);
    AtMost(fs, m, b, 16, 213);
    VendorFields(fs, m, b);
  }

  lemma SecondCore()
    ensures FieldSequence(2, Core).Some?
    ensures var fs := FieldSequence(2, Core).value;
            && |fs| == 19 && fs[0] == Version && fs[1] == Created && fs[2] == LastUpdated && fs[3] == CmpId
            && fs[4] == CmpVersion && fs[5] == ConsentScreen && fs[6] == ConsentLanguage && fs[7] == VendorListVersion
            && fs[8] == PolicyVersion && fs[9] == IsServiceSpecific && fs[10] == UseNonStandardTexts
            && fs[11] == SpecialFeatureOptins && fs[12] == PurposeConsents && fs[13] == PurposeLegitimateInterests
            && fs[14] == PurposeOneTreatment && fs[15] == PublisherCountryCode && fs[16] == VendorConsents
            && fs[17] == VendorLegitimateInterests && fs[18] == PublisherRestrictions
  {
    hide FieldSequence;
    FrontOfCore();
    BackOfCore();
  }

  lemma FrontOfCore()
    ensures FieldSequence(2, Core).Some?
    ensures var fs := FieldSequence(2, Core).value;
            && |fs| == 19 && fs[0] == Version && fs[1] == Created && fs[2] == LastUpdated && fs[3] == CmpId
            && fs[4] == CmpVersion && fs[5] == ConsentScreen && fs[6] == ConsentLanguage && fs[7] == VendorListVersion
            && fs[8] == PolicyVersion && fs[9] == IsServiceSpecific
  {
  }

  lemma BackOfCore()
    ensures FieldSequence(2, Core).Some?
    ensures var fs := FieldSequence(2, Core).value;
            && |fs| == 19 && fs[10] == UseNonStandardTexts
            && fs[11] == SpecialFeatureOptins && fs[12] == PurposeConsents && fs[13] == PurposeLegitimateInterests
            && fs[14] == PurposeOneTreatment && fs[15] == PublisherCountryCode && fs[16] == VendorConsents
            && fs[17] == VendorLegitimateInterests && fs[18] == PublisherRestrictions
  {
  }

  lemma AtMost(fs: seq<Field>, m: Model, b: Bits, k: nat, at: nat)
    requires WellTyped(m) && Stands(fs, m, b, k, at)
    ensures at <= |b|
  {
  }

  lemma CoreFields(m: Model, b: Bits)
    requires WellTyped(m) && m[Version].IntV? && EncodeSegmentBits(m, Core) == Ok(b)
    ensures FieldSequence(m[Version].n, Core).Some? && EncodeFields(FieldSequence(m[Version].n, Core).value, m) == Ok(b)
  {
    hide FieldSequence, EncodeFields, Matches;
    var body := EncodeFields(FieldSequence(m[Version].n, Core).value, m).value;
    assert [] + body == body;
  }

  lemma PurposeFields(fs: seq<Field>, m: Model, b: Bits)
    requires WellTyped(m) && |fs| == 19 && Stands(fs, m, b, 8, 132)
    requires fs[8] == PolicyVersion && fs[9] == IsServiceSpecific && fs[10] == UseNonStandardTexts
    requires fs[11] == SpecialFeatureOptins && fs[12] == PurposeConsents && fs[13] == PurposeLegitimateInterests
    requires fs[14] == PurposeOneTreatment && fs[15] == PublisherCountryCode
    ensures PurposeLayout(m, b) && Stands(fs, m, b, 16, 213)
  {
    hide EncodeFields, Read, IsDate, IsLetters, IsField, Matches, Stands, WellTyped;
    NextInt(fs, m, b, 8, 132, 6);
    NextFlag(fs, m, b, 9, 138);
    NextFlag(fs, m, b, 10, 139);
    NextField(fs, m, b, 11, 140, 12);
    NextField(fs, m, b, 12, 152, 24);
    NextField(fs, m, b, 13, 176, 24);
    NextFlag(fs, m, b, 14, 200);
    NextLetters(fs, m, b, 15, 201);
  }

  lemma VendorFields(fs: seq<Field>, m: Model, b: Bits)
    requires WellTyped(m) && |fs| == 19 && Stands(fs, m, b, 16, 213) && |b| >= 213
    requires fs[16] == VendorConsents && fs[17] == VendorLegitimateInterests && fs[18] == PublisherRestrictions
    ensures VendorsLayout(m, b[213..])
  {
    hide EncodeFields, Matches, Stands, EncodeVendors, EncodeRestrictions;
    TypesOf(m);
    NextCode(fs, m, b, 16, 213);
    var at := 213 + |EncodeField(fs[16], m).value|;
    NextCode(fs, m, b, 17, at);
    var later := at + |EncodeField(fs[17], m).value|;
    NextCode(fs, m, b, 18, later);
    var end := later + |EncodeField(fs[18], m).value|;
    AtEnd(fs, m, b, end);
    assert b[213..] == b[213..at] + b[at..later] + b[later..end];
  }

  lemma AtEnd(fs: seq<Field>, m: Model, b: Bits, at: nat)
    requires WellTyped(m) && Stands(fs, m, b, |fs|, at)
    ensures at == |b|
  {
    assert fs[|fs|..] == [];
  }

  /** Version 1: the purposes from bit 132, the vendor code from bit 156 */
  lemma FirstVersionLayout(m: Model, b: Bits)
    requires WellTyped(m) && m[Version] == IntV(1) && EncodeSegmentBits(m, Core) == Ok(b)
    ensures CommonLayout(m, b) && |b| >= 156
    ensures IsField(b[132..156], IdsOf(m, PurposeConsents))
    ensures EncodeVendors(IdsOf(m, VendorConsents), MaxId(IdsOf(m, VendorConsents))) == Ok(b[156..])
  {
    hide EncodeFields, IsField, Stands, EncodeVendors, CommonLayout, FieldSequence, WellTyped;
    FirstCore();
    var fs := FieldSequence(1, Core).value;
    CoreFields(m, b);
    CommonFields(fs, m, b);
    NextField(fs, m, b, 8, 132, 24);
    LastVendors(fs, m, b, 156);
  }

  lemma FirstCore()
    ensures FieldSequence(1, Core).Some?
    ensures var fs := FieldSequence(1, Core).value;
            && |fs| == 10 && fs[0] == Version && fs[1] == Created && fs[2] == LastUpdated && fs[3] == CmpId
            && fs[4] == CmpVersion && fs[5] == ConsentScreen && fs[6] == ConsentLanguage && fs[7] == VendorListVersion
            && fs[8] == PurposeConsents && fs[9] == VendorConsents
  {
  }

  lemma LastVendors(fs: seq<Field>, m: Model, b: Bits, at: nat)
    requires WellTyped(m) && |fs| > 0 && Stands(fs, m, b, |fs| - 1, at) && CodecOf(fs[|fs| - 1]) == VendorCodec
    ensures at <= |b|
    ensures var ids := IdsOf(m, fs[|fs| - 1]); EncodeVendors(ids, MaxId(ids)) == Ok(b[at..])
  {
    hide EncodeFields, Stands, EncodeVendors, Matches;
    AtMost(fs, m, b, |fs| - 1, at);
    NextCode(fs, m, b, |fs| - 1, at);
    var end := at + |EncodeField(fs[|fs| - 1], m).value|;
    AtEnd(fs, m, b, end);
    assert b[at..end] == b[at..];
  }

  // ---------- The other segments ----------

  /** Disclosed and allowed vendors: the segment type in three bits, then the vendor code */
  lemma VendorSegmentLayout(m: Model, segment: Segment, b: Bits)
    requires WellTyped(m) && m[Version] == IntV(2) && segment in {Disclosed, Allowed}
    requires EncodeSegmentBits(m, segment) == Ok(b)
    ensures |b| >= 3 && Read(b[0..3]) == if segment == Disclosed then 1 else 2
    ensures var ids := IdsOf(m, if segment == Disclosed then VendorsDisclosed else VendorsAllowed);
            EncodeVendors(ids, MaxId(ids)) == Ok(b[3..])
  {
    hide EncodeFields, Read, Stands, EncodeVendors, EncodeSegmentBits, WellTyped, IdsOf;
    var fs := FieldSequence(2, segment).value;
    var body := Typed(m, segment, b);
    Begins(fs, m, body);
    LastVendors(fs, m, body, 0);
    assert body[0..] == body;
  }

  /** The three bits of the type, and the rest */
  lemma Typed(m: Model, segment: Segment, b: Bits) returns (body: Bits)
    requires WellTyped(m) && m[Version] == IntV(2) && segment != Core && EncodeSegmentBits(m, segment) == Ok(b)
    ensures |b| >= 3 && body == b[3..] && EncodeFields(FieldSequence(2, segment).value, m) == Ok(body)
    ensures Read(b[0..3]) == match segment case Disclosed => 1 case Allowed => 2 case _ => 3
  {
    hide EncodeFields, Read, EncodeInt, WellTyped;
    var prefix := EncodeInt(KeyToId(segment), 3).value;
    IntLayout(KeyToId(segment), 3, prefix);
    body := b[3..];
    assert b[..3] == prefix && b[0..3] == b[..3];
    assert EncodeFields(FieldSequence(2, segment).value, m) == Ok(body);
  }

  /** The publisher's purposes: two sets of 24, the number of custom purposes in six bits, and two sets of as many
      custom purposes. */
  lemma PublisherLayout(m: Model, b: Bits)
    requires WellTyped(m) && m[Version] == IntV(2) && EncodeSegmentBits(m, PublisherTc) == Ok(b)
    ensures |b| >= 57 && Read(b[0..3]) == 3
    ensures IsField(b[3..27], IdsOf(m, PublisherConsents)) && IsField(b[27..51], IdsOf(m, PublisherLegitimateInterests))
    ensures m[NumCustomPurposes] == IntV(Read(b[51..57]))
    ensures var n := Read(b[51..57]);
            && |b| == 57 + 2 * n
            && IsField(b[57..57 + n], IdsOf(m, PublisherCustomConsents))
            && IsField(b[57 + n..], IdsOf(m, PublisherCustomLegitimateInterests))
  {
    hide EncodeFields, Read, IsField, Stands, EncodeSegmentBits, WellTyped, FieldSequence, Matches;
    PublisherFields();
    var fs := FieldSequence(2, PublisherTc).value;
    var body := Typed(m, PublisherTc, b);
    Begins(fs, m, body);
    NextField(fs, m, body, 0, 0, 24);
    NextField(fs, m, body, 1, 24, 24);
    NextInt(fs, m, body, 2, 48, 6);
    var n := Read(body[48..54]);
    CustomFields(fs, m, body, n);
    Shifted(b, body, 0, 24);
    Shifted(b, body, 24, 48);
    Shifted(b, body, 48, 54);
    Shifted(b, body, 54, 54 + n);
    Shifted(b, body, 54 + n, 54 + 2 * n);
    assert b[57 + n..57 + 2 * n] == b[57 + n..];
  }

  lemma Shifted(b: Bits, body: Bits, from: nat, to: nat)
    requires |b| >= 3 && body == b[3..] && from <= to <= |body|
    ensures body[from..to] == b[from + 3..to + 3]
  {
  }

  lemma PublisherFields()
    ensures FieldSequence(2, PublisherTc).Some?
    ensures var fs := FieldSequence(2, PublisherTc).value;
            && |fs| == 5 && fs[0] == PublisherConsents && fs[1] == PublisherLegitimateInterests
            && fs[2] == NumCustomPurposes && fs[3] == PublisherCustomConsents
            && fs[4] == PublisherCustomLegitimateInterests
  {
  }

  lemma CustomFields(fs: seq<Field>, m: Model, b: Bits, n: nat)
    requires WellTyped(m) && |fs| == 5 && Stands(fs, m, b, 3, 54) && m[NumCustomPurposes] == IntV(n)
    requires fs[3] == PublisherCustomConsents && fs[4] == PublisherCustomLegitimateInterests
    ensures |b| == 54 + 2 * n
    ensures IsField(b[54..54 + n], IdsOf(m, PublisherCustomConsents))
    ensures IsField(b[54 + n..54 + 2 * n], IdsOf(m, PublisherCustomLegitimateInterests))
  {
    hide EncodeFields, Stands, Matches;
    TypesOf(m);
    NextCode(fs, m, b, 3, 54);
    NextCode(fs, m, b, 4, 54 + n);
    AtEnd(fs, m, b, 54 + 2 * n);
  }

  // ---------- Restrictions ----------

  function ListLength(runs: seq<Run>): nat
  {
    if |runs| == 0 then 0 else (if runs[0].lo == runs[0].hi then 17 else 33) + ListLength(runs[1..])
  }

  lemma {:induction false} LengthOfList(runs: seq<Run>, b: Bits)
    requires IsList(b, runs)
    ensures |b| == ListLength(runs)
    decreases |runs|
  {
    hide Read;
    if |runs| != 0 {
      LengthOfList(runs[1..], if runs[0].lo == runs[0].hi then b[17..] else b[33..]);
    }
  }

  /** For each key: the purpose in six bits, the type in two, the number of ranges in 12, and the ranges */
  ghost predicate IsKeys(b: Bits, entries: seq<Entry>, listed: set<nat>)
    decreases |entries|
  {
    if |entries| == 0 then b == []
    else
      var ranges := AllSpans(entries[0].vendors, listed);
      var end := 20 + ListLength(ranges);
      && |b| >= end && Read(b[0..6]) == entries[0].key.purposeId && Read(b[6..8]) == entries[0].key.restrictionType
      && Read(b[8..20]) == |ranges| && IsList(b[20..end], ranges) && IsKeys(b[end..], entries[1..], listed)
  }

  lemma KeyLayout(entry: Entry, gvl: Option<Gvl>, b: Bits, rest: Bits)
    requires EncodeEntry(entry, gvl) == Ok(b)
    ensures var ranges := AllSpans(entry.vendors, ListedIds(gvl));
            var end := 20 + ListLength(ranges);
            var all := b + rest;
            && |all| >= end && Read(all[0..6]) == entry.key.purposeId && Read(all[6..8]) == entry.key.restrictionType
            && Read(all[8..20]) == |ranges| && IsList(all[20..end], ranges) && all[end..] == rest
  {
    hide EncodeInt, Read, AllSpans, SortedIds, EncodeRuns, IsList, ListLength, ListedIds;
    var ranges := AllSpans(entry.vendors, ListedIds(gvl));
    var p, t := EncodeInt(entry.key.purposeId, 6).value, EncodeInt(entry.key.restrictionType, 2).value;
    var body, count := EncodeRuns(ranges).value, EncodeInt(|ranges|, 12).value;
    IntLayout(entry.key.purposeId, 6, p);
    IntLayout(entry.key.restrictionType, 2, t);
    IntLayout(|ranges|, 12, count);
    ListLayout(ranges, body);
    LengthOfList(ranges, body);
    var all := b + rest;
    assert all == p + t + count + body + rest;
    assert all[0..6] == p && all[6..8] == t && all[8..20] == count && all[20..20 + |body|] == body;
    assert all[20 + |body|..] == rest;
  }

  lemma {:induction false} KeysLayout(entries: seq<Entry>, gvl: Option<Gvl>, b: Bits)
    requires EncodeEntries(entries, gvl) == Ok(b)
    ensures IsKeys(b, entries, ListedIds(gvl))
    decreases |entries|
  {
    hide EncodeEntry, Read, AllSpans, IsList, ListLength, ListedIds;
    if |entries| != 0 {
      var first, rest := EncodeEntry(entries[0], gvl).value, EncodeEntries(entries[1..], gvl).value;
      KeysLayout(entries[1..], gvl, rest);
      KeyLayout(entries[0], gvl, first, rest);
    }
  }

  /** The number of keys in 12 bits, and the keys in their order */
  lemma RestrictionLayout(entries: seq<Entry>, gvl: Option<Gvl>, b: Bits)
    requires EncodeRestrictions(entries, gvl) == Ok(b)
    ensures |b| >= 12 && Read(b[0..12]) == |entries| && IsKeys(b[12..], entries, ListedIds(gvl))
  {
    hide EncodeInt, EncodeEntries, Read, IsKeys;
    var count, body := EncodeInt(|entries|, 12).value, EncodeEntries(entries, gvl).value;
    IntLayout(|entries|, 12, count);
    KeysLayout(entries, gvl, body);
    assert b[0..12] == count && b[12..] == body;
  }

  // ---------- Letters of the string ----------

  const CAPITALS := "ABCDEFGHIJKLMNOPQRSTUVWXYZ"
  const SMALL := "abcdefghijklmnopqrstuvwxyz"
  const OTHERS := "0123456789-_"

  function Alphabet(): string { CAPITALS + SMALL + OTHERS }

  lemma AlphabetIsRfc4648()
    ensures |Alphabet()| == 64 && forall n: nat :: n < 64 ==> CharOf(n) == Alphabet()[n]
  {
    forall n: nat | n < 64
      ensures CharOf(n) == Alphabet()[n]
    {
      if n < 26 {
        Capital(n);
      } else if n < 52 {
        Small(n - 26);
      } else {
        Other(n - 52);
      }
    }
  }

  lemma Capital(n: nat)
    requires n < 26
    ensures CAPITALS[n] == CharOf(n)
  {
  }

  lemma Small(n: nat)
    requires n < 26
    ensures SMALL[n] == CharOf(26 + n)
  {
  }

  lemma Other(n: nat)
    requires n < 12
    ensures OTHERS[n] == CharOf(52 + n)
  {
  }

  lemma {:induction false} CharsAt(b: Bits, at: nat, i: nat)
    requires |b| % 6 == 0 && at % 6 == 0 && at + 6 * i < |b|
    ensures var here := at + 6 * i;
            && here + 6 <= |b| && i < |Chars(b[at..])| && Number(b[here..here + 6]) < 64
            && Chars(b[at..])[i] == CharOf(Number(b[here..here + 6]))
    decreases i
  {
    hide CharOf, Number, Chars;
    CharsStep(b, at);
    if i > 0 {
      CharsAt(b, at + 6, i - 1);
    }
  }

  lemma PaddedText(b: Bits)
    ensures var all := PadTo24(b);
            && |all| % 6 == 0 && 6 * |Chars(all)| == |all| && |Chars(all)| % 4 == 0
            && all == b + Zeros(|all| - |b|)
  {
    hide Chars;
  }

  /** A segment is the text of its bits, filled with zeros to a multiple of 24: each character stands for six of
      them, by the alphabet of RFC 4648, section 5. */
  lemma TextLayout(m: Model, segment: Segment, text: string, b: Bits)
    requires WellTyped(m) && EncodeSegmentBits(m, segment) == Ok(b) && EncodeSegment(m, segment) == Ok(text)
    ensures |b| <= 6 * |text| < |b| + 24 && |text| % 4 == 0
    ensures var all := b + Zeros(6 * |text| - |b|);
            forall i :: 0 <= i < |text| ==>
              var sextet := Read(all[6 * i..6 * i + 6]); sextet < 64 && text[i] == Alphabet()[sextet]
  {
    hide EncodeSegmentBits, Chars, Number, Read, CharOf, Alphabet, WellTyped, PadTo24;
    var all := PadTo24(b);
    PaddedText(b);
    AlphabetIsRfc4648();
    forall i | 0 <= i < |text|
      ensures Read(all[6 * i..6 * i + 6]) < 64 && text[i] == Alphabet()[Read(all[6 * i..6 * i + 6])]
    {
      CharsAt(all, 0, i);
      assert all[0..] == all;
      ReadIsNumber(all[6 * i..6 * i + 6]);
    }
  }

  /** Upper case of ASCII letters; other characters stay. */
  lemma UpperLetters(n: nat, c: char)
    requires n < 26
    ensures UpperChar(SMALL[n]) == CAPITALS[n] == UpperChar(CAPITALS[n])
    ensures !('a' <= c <= 'z') ==> UpperChar(c) == c
  {
    Small(n);
    Capital(n);
  }

  /** Outside ASCII these characters have an upper case that begins with an ASCII letter: a dotless i and a long s, */
  lemma UpperOfLetters(c: char)
    ensures UpperOf('\U{131}') == "I" && UpperOf('\U{17F}') == "S" && UpperOf('\U{DF}') == "SS"
    ensures c < '\U{80}' ==> UpperOf(c) == [UpperChar(c)]
  {
  }

  /** letters with a mark that has no capital, */
  lemma UpperOfMarked()
    ensures UpperOf('\U{1F0}') == ['J', '\U{30C}'] && UpperOf('\U{1E96}') == ['H', '\U{331}']
    ensures UpperOf('\U{1E97}') == ['T', '\U{308}'] && UpperOf('\U{1E98}') == ['W', '\U{30A}']
    ensures UpperOf('\U{1E99}') == ['Y', '\U{30A}'] && UpperOf('\U{1E9A}') == ['A', '\U{2BE}']
  {
  }

  /** and ligatures. */
  lemma UpperOfLigatures()
    ensures UpperOf('\U{FB00}') == ['F', 'F'] && UpperOf('\U{FB01}') == ['F', 'I']
    ensures UpperOf('\U{FB02}') == ['F', 'L'] && UpperOf('\U{FB03}') == ['F', 'F', 'I']
    ensures UpperOf('\U{FB04}') == ['F', 'F', 'L']
    ensures UpperOf('\U{FB05}') == ['S', 'T'] == UpperOf('\U{FB06}')
  {
  }

  /** A string is the texts of its segments with dots between them. */
  lemma StringLayout(m: Model, first: Segment, rest: seq<Segment>)
    requires WellTyped(m) && EncodeTcString(m, [first] + rest).Ok?
    ensures EncodeSegment(m, first).Ok? && EncodeTcString(m, rest).Ok?
    ensures EncodeTcString(m, [first] + rest).value ==
            EncodeSegment(m, first).value + if |rest| == 0 then "" else "." + EncodeTcString(m, rest).value
  {
    hide EncodeSegment, WellTyped;
    var all := [first] + rest;
    assert all[0] == first && all[1..] == rest;
    var text, more := EncodeSegment(m, first).value, EncodeSegments(m, rest).value;
    assert EncodeSegments(m, all) == Ok([text] + more);
    SegmentCount(m, rest);
    assert ([text] + more)[1..] == more;
  }

  lemma {:induction false} SegmentCount(m: Model, segments: seq<Segment>)
    requires WellTyped(m) && EncodeSegments(m, segments).Ok?
    ensures |EncodeSegments(m, segments).value| == |segments|
  {
    hide EncodeSegment;
    if |segments| != 0 {
      SegmentCount(m, segments[1..]);
    }
  }

  /** Which segments a string has when the caller names none: the core comes first, the others in the order of
      disclosed, allowed, publisher. */
  lemma DefaultSegments(m: Model, supportOob: bool, isForVendors: bool)
    requires WellTyped(m)
    ensures var segments := SegmentSequence(m, supportOob, isForVendors);
            var own := m[Version].n == 2 && m[IsServiceSpecific].b;
            && (segments.Some? <==> m[Version].n == 1 || m[Version].n == 2)
            && (segments.Some? ==>
                  var list := segments.value;
                  && |list| > 0 && list[0] == Core
                  && (forall i, j :: 0 <= i < j < |list| ==> Rank(list[i]) < Rank(list[j]))
                  && (Disclosed in list <==> m[Version].n == 2 && (own || !isForVendors || supportOob))
                  && (Allowed in list <==>
                        m[Version].n == 2 && !own && isForVendors && supportOob && m[VendorsAllowed].ids != {})
                  && (PublisherTc in list <==> m[Version].n == 2 && (own || isForVendors)))
  {
    hide Matches;
    TypesOf(m);
    assert Matches(VendorCodec, m[VendorsAllowed]) && Matches(IntCodec, m[Version]);
    assert Matches(BoolCodec, m[IsServiceSpecific]);
  }

  function Rank(segment: Segment): nat
  {
    match segment case Core => 0 case Disclosed => 1 case Allowed => 2 case PublisherTc => 3
  }
}
