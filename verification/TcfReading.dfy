/** What a decoder reads at each offset of a core segment, in both versions and whoever wrote it. */
module TcfReading {
  import opened Wrappers
  import opened TcfBits
  import opened TcfVector
  import opened TcfVendors
  import opened TcfRestrictions
  import opened TcfBase64
  import opened TcfSegments
  import opened TcfLayout

  // ---------- Vendors ----------

  lemma {:induction false} NumberOfRead(b: Bits, n: nat)
    requires |b| >= 1 && Read(b) == n
    ensures EncodeInt(n, |b|) == Ok(b)
  {
    ReadIsNumber(b);
    IntDecodeEncode(b);
  }

  lemma {:induction false} ListIsCode(b: Bits, runs: seq<Run>)
    requires IsList(b, runs)
    ensures EncodeRuns(runs) == Ok(b)
    decreases |runs|
  {
    hide EncodeInt, Read;
    if |runs| != 0 {
      NumberOfRead(b[1..17], runs[0].lo);
      if runs[0].lo == runs[0].hi {
        ListIsCode(b[17..], runs[1..]);
        assert b == [false] + b[1..17] + b[17..];
      } else {
        NumberOfRead(b[17..33], runs[0].hi);
        ListIsCode(b[33..], runs[1..]);
        assert b == [true] + b[1..17] + b[17..33] + b[33..];
      }
    }
  }

  /** Any list of ranges is read, in order or not, and gives the ids of all of them. Version 1 has one more bit
      before it. */
  lemma ListIsRead(e: Bits, version: int, runs: seq<Run>, end: nat)
    requires version in {1, 2}
    requires var at := if version == 1 then 30 else 29;
             at <= end <= |e| && e[16] && Read(e[at - 12..at]) == |runs| && IsList(e[at..end], runs)
    requires (version == 1 ==> !e[17]) && forall j :: 0 <= j < |runs| ==> runs[j].lo >= 1
    ensures DecodeVendors(e, version) == Ok((RunsIds(runs), end))
  {
    hide Read, IsList, ReadRuns, RunsIds, Number, EncodeRuns;
    var at := if version == 1 then 30 else 29;
    ReadIsNumber(e[at - 12..at]);
    ListIsCode(e[at..end], runs);
    ReadRunsOf(e[..at], runs, e[at..end], e[end..]);
    assert e[..at] + e[at..end] + e[end..] == e;
    OneBit(e);
  }

  lemma OneBit(e: Bits)
    requires |e| >= 17
    ensures ReadInt(e, 16, 1) == Ok(if e[16] then 1 else 0)
  {
    assert e[16..17] == [e[16]] && Number([e[16]][..0]) == 0;
  }

  /** A bitfield is read up to the largest id that it announces. */
  lemma FieldIsRead(e: Bits, version: int)
    requires |e| >= 17 && !e[16] && 17 + Read(e[0..16]) <= |e|
    ensures var n := Read(e[0..16]);
            && DecodeVendors(e, version).Ok? && DecodeVendors(e, version).value.1 == 17 + n
            && var ids := DecodeVendors(e, version).value.0;
               IsField(e[17..17 + n], ids) && forall x :: x in ids ==> 1 <= x <= n
  {
    hide Read, Number;
    ReadIsNumber(e[0..16]);
    OneBit(e);
  }

  /** A list with consent by default is an error in version 1. */
  lemma DefaultConsentIsRejected(e: Bits)
    requires |e| >= 18 && e[16] && e[17]
    ensures DecodeVendors(e, 1) == Err(DecodingError)
  {
    hide Number;
    OneBit(e);
  }

  /** A range that starts with 0 is an error of the model, whatever comes before and after it. */
  lemma {:induction false} ZeroIsRejected(before: Bits, runs: seq<Run>, list: Bits, after: Bits, j: nat)
    requires IsList(list, runs) && j < |runs| && runs[j].lo == 0 && forall i :: 0 <= i < j ==> runs[i].lo >= 1
    ensures ReadRuns(before + list + after, |before|, |runs|) == Err(ModelError)
    decreases |runs|
  {
    hide Read, ReadRun;
    var e := before + list + after;
    var n := if runs[0].lo == runs[0].hi then 17 else 33;
    var first, rest := list[..n], list[n..];
    OneRun(list, runs);
    assert e == before + first + (rest + after);
    ReadRunOf(before, runs[0], first, rest + after);
    if j > 0 {
      assert e == (before + first) + rest + after;
      ZeroIsRejected(before + first, runs[1..], rest, after, j - 1);
    }
  }

  lemma OneRun(list: Bits, runs: seq<Run>)
    requires IsList(list, runs) && |runs| > 0
    ensures var n := if runs[0].lo == runs[0].hi then 17 else 33;
            n <= |list| && EncodeRun(runs[0]) == Ok(list[..n]) && IsList(list[n..], runs[1..])
  {
    hide IsList, EncodeRun, Read;
    if runs[0].lo == runs[0].hi {
      SingleShape(list, runs);
      SingleCode(list, runs[0]);
    } else {
      PairShape(list, runs);
      PairCode(list, runs[0]);
    }
  }

  lemma SingleCode(list: Bits, run: Run)
    requires run.lo == run.hi && |list| >= 17 && !list[0] && Read(list[1..17]) == run.lo
    ensures EncodeRun(run) == Ok(list[..17])
  {
    hide EncodeInt, Read;
    NumberOfRead(list[1..17], run.lo);
    assert list[..17] == [false] + list[1..17];
  }

  lemma PairCode(list: Bits, run: Run)
    requires run.lo != run.hi && |list| >= 33 && list[0]
    requires Read(list[1..17]) == run.lo && Read(list[17..33]) == run.hi
    ensures EncodeRun(run) == Ok(list[..33])
  {
    hide EncodeInt, Read;
    NumberOfRead(list[1..17], run.lo);
    NumberOfRead(list[17..33], run.hi);
    assert list[..33] == [true] + list[1..17] + list[17..33];
  }

  lemma SingleShape(list: Bits, runs: seq<Run>)
    requires IsList(list, runs) && |runs| > 0 && runs[0].lo == runs[0].hi
    ensures |list| >= 17 && !list[0] && Read(list[1..17]) == runs[0].lo && IsList(list[17..], runs[1..])
  {
  }

  lemma PairShape(list: Bits, runs: seq<Run>)
    requires IsList(list, runs) && |runs| > 0 && runs[0].lo != runs[0].hi
    ensures |list| >= 33 && list[0] && Read(list[1..17]) == runs[0].lo && Read(list[17..33]) == runs[0].hi
    ensures IsList(list[33..], runs[1..])
  {
  }

  /** Bits that end too early are an error. */
  lemma ShortIsRejected(e: Bits, version: int)
    requires |e| < 17 || (!e[16] && |e| < 17 + Read(e[0..16]))
    ensures DecodeVendors(e, version) == Err(DecodingError)
  {
    hide Read, Number;
    if |e| >= 17 {
      ReadIsNumber(e[0..16]);
      OneBit(e);
    }
  }

  /** One range of a restriction: its ids join the key's, unless it is inverted or the key makes no sense. */
  lemma SpanIsRead(e: Bits, at: nat, n: nat, key: Restriction, entries: seq<Entry>)
    requires n > 0 && at + 33 <= |e|
    ensures var lo := Read(e[at + 1..at + 17]);
            var hi := if e[at] then Read(e[at + 17..at + 33]) else lo;
            ReadSpans(e, at, n, key, entries) ==
            if hi < lo then Err(DecodingError)
            else if key.purposeId == 0 || key.restrictionType > 2 then Err(ModelError)
            else ReadSpans(e, if e[at] then at + 33 else at + 17, n - 1, key,
                           AddAll(entries, key, Interval(lo, hi)))
  {
    hide Read, Number;
    ReadIsNumber(e[at + 1..at + 17]);
    ReadIsNumber(e[at + 17..at + 33]);
    var lo := Read(e[at + 1..at + 17]);
    var hi := if e[at] then Read(e[at + 17..at + 33]) else lo;
    assert ReadRun(e, at) == Ok((Run(lo, hi), if e[at] then at + 33 else at + 17));
  }

  /** The key before its ranges */
  lemma KeyIsRead(e: Bits, at: nat)
    requires at + 20 <= |e|
    ensures ReadKey(e, at) ==
            Ok((Restriction(Read(e[at..at + 6]), Read(e[at + 6..at + 8])), Read(e[at + 8..at + 20])))
  {
    hide Read, Number;
    ReadIsNumber(e[at..at + 6]);
    ReadIsNumber(e[at + 6..at + 8]);
    ReadIsNumber(e[at + 8..at + 20]);
  }

  /** Text is rejected exactly when it is empty or has a character outside the alphabet. */
  lemma TextIsRejectedIff(text: string)
    ensures DecodeBase64(text).Err? <==> text == "" || exists c :: c in text && c !in Alphabet()
  {
    hide Alphabet, Sextets, CodeOf;
    forall c: char
      ensures CodeOf(c).Some? <==> c in Alphabet()
    {
      InAlphabetIff(c);
    }
    if exists c :: c in text && c !in Alphabet() {
      var c :| c in text && c !in Alphabet();
      var i :| 0 <= i < |text| && text[i] == c;
    }
  }

  lemma InAlphabetIff(c: char)
    ensures CodeOf(c).Some? <==> c in Alphabet()
  {
    hide Alphabet;
    AlphabetIsRfc4648();
    if CodeOf(c).Some? {
      CharOfCode(c);
      assert Alphabet()[CodeOf(c).value] == c;
    }
    if c in Alphabet() {
      var n :| 0 <= n < |Alphabet()| && Alphabet()[n] == c;
      CodeOfChar(n);
    }
  }

  // ---------- Fields one after the other ----------

  /** From field k on, s[at..] is decoded into the model, with the given result. */
  ghost predicate Reads(fs: seq<Field>, s: Bits, k: nat, at: nat, m: Model, end: Model)
    requires WellTyped(m)
  {
    k <= |fs| && DecodeFields(fs[k..], s, at, m) == Ok(end)
  }

  lemma AssignsOne(f: Field, s: Bits, at: nat, m: Model)
    requires WellTyped(m) && DecodeAndAssign(f, s, at, m).Ok?
    ensures forall g: Field :: g != f ==> DecodeAndAssign(f, s, at, m).value.0[g] == m[g]
  {
    hide DecodeField, Matches;
  }

  lemma {:induction false} LaterFieldsKeep(fs: seq<Field>, s: Bits, at: nat, m: Model, f: Field)
    requires WellTyped(m) && DecodeFields(fs, s, at, m).Ok? && f !in fs
    ensures WellTyped(DecodeFields(fs, s, at, m).value) && DecodeFields(fs, s, at, m).value[f] == m[f]
    decreases |fs|
  {
    hide DecodeAndAssign, Matches;
    if |fs| != 0 {
      AssignsOne(fs[0], s, at, m);
      assert fs == [fs[0]] + fs[1..];
      var (next, cursor) := DecodeAndAssign(fs[0], s, at, m).value;
      LaterFieldsKeep(fs[1..], s, cursor, next, f);
    }
  }

  lemma NextStep(fs: seq<Field>, s: Bits, k: nat, at: nat, m: Model, end: Model) returns (next: Model, cursor: nat)
    requires WellTyped(m) && Reads(fs, s, k, at, m, end) && k < |fs| && fs[k] !in fs[k + 1..]
    ensures DecodeAndAssign(fs[k], s, at, m) == Ok((next, cursor)) && WellTyped(next)
    ensures WellTyped(end) && end[fs[k]] == next[fs[k]] && (fs[k] != Version ==> next[Version] == m[Version])
    ensures Reads(fs, s, k + 1, cursor, next, end)
  {
    hide DecodeAndAssign, Matches;
    assert fs[k..][0] == fs[k] && fs[k..][1..] == fs[k + 1..];
    next, cursor := DecodeAndAssign(fs[k], s, at, m).value.0, DecodeAndAssign(fs[k], s, at, m).value.1;
    AssignsOne(fs[k], s, at, m);
    LaterFieldsKeep(fs[k + 1..], s, cursor, next, fs[k]);
  }

  /** Two letters as they are read; the country code is upper-cased besides. */
  predicate IsPair(code: Bits, s: string)
    requires |code| == 12
  {
    |s| == 2 && s[0] as int == 65 + Read(code[..6]) && s[1] as int == 65 + Read(code[6..])
  }

  /** The set of the ids whose bits are set */
  ghost predicate IsSet(code: Bits, ids: set<nat>)
  {
    IsField(code, ids) && forall x :: x in ids ==> 1 <= x <= |code|
  }

  /** What a decoded field of fixed width says of its bits, which begin at the given offset */
  ghost predicate Says(s: Bits, at: nat, w: nat, f: Field, v: Value)
  {
    match CodecOf(f)
    case BoolCodec => v.BoolV? && (at < |s| ==> w == 1 && v.b == s[at])
    case IntCodec => at + w <= |s| && v == IntV(Read(s[at..at + w]))
    case DateCodec => at + w <= |s| && v == DateV(100 * Read(s[at..at + w]))
    case LangCodec =>
      && at + w <= |s| && w == 12 && v.LangV? && |v.s| == 2
      && (f != PublisherCountryCode ==> IsPair(s[at..at + w], v.s))
      && (f == PublisherCountryCode ==>
            exists pair :: IsPair(s[at..at + w], pair) && v.s == [UpperChar(pair[0]), UpperChar(pair[1])])
    case FixedCodec =>
      && at + w <= |s| && v.VectorV? && IsSet(s[at..at + w], v.ids)
    case _ => false
  }

  /** The same before the setter, which upper-cases the country code */
  ghost predicate SaysFirst(s: Bits, at: nat, w: nat, f: Field, v: Value)
  {
    if f == PublisherCountryCode then at + w <= |s| && w == 12 && v.LangV? && |v.s| == 2 && IsPair(s[at..at + w], v.s)
    else Says(s, at, w, f, v)
  }

  lemma DecodedSays(f: Field, s: Bits, at: nat, w: nat, m: Model)
    requires WellTyped(m) && CodecOf(f) !in {VendorCodec, RestrictionCodec} && NumBits(f, m) == Some(w) && w >= 1
    requires DecodeAndAssign(f, s, at, m).Ok?
    ensures DecodeAndAssign(f, s, at, m).value.1 == at + w
    ensures Says(s, at, w, f, DecodeAndAssign(f, s, at, m).value.0[f])
  {
    hide DecodeField, Assign, Says, Substr, WellTyped, NumBits;
    var d := Substr(s, at, Some(w));
    WidthIsTaken(f, m, w);
    var (v, _) := DecodeField(f, d, Some(w), m[Version].n).value;
    DecodedMatches(f, d, Some(w), m[Version].n);
    ValueSays(f, s, at, w, m[Version].n);
    AssignedSays(f, s, at, w, m, v);
  }

  lemma WidthIsTaken(f: Field, m: Model, w: nat)
    requires WellTyped(m) && CodecOf(f) !in {VendorCodec, RestrictionCodec} && NumBits(f, m) == Some(w) && w >= 1
    ensures TakesWidth(f, w) && Version in m && m[Version].IntV?
  {
    assert Matches(CodecOf(Version), m[Version]);
  }

  /** The value before it is assigned */
  lemma ValueSays(f: Field, s: Bits, at: nat, w: nat, version: int)
    requires CodecOf(f) !in {VendorCodec, RestrictionCodec} && TakesWidth(f, w)
    requires DecodeField(f, Substr(s, at, Some(w)), Some(w), version).Ok?
    ensures Matches(CodecOf(f), DecodeField(f, Substr(s, at, Some(w)), Some(w), version).value.0)
    ensures SaysFirst(s, at, w, f, DecodeField(f, Substr(s, at, Some(w)), Some(w), version).value.0)
  {
    hide Number, Read, BitfieldIds, IsSet, DecodeLang, IsPair;
    var d := Substr(s, at, Some(w));
    match CodecOf(f) {
      case BoolCodec =>
      case IntCodec => ReadIsNumber(d);
      case DateCodec => ReadIsNumber(d);
      case LangCodec =>
        LangLength(d);
        PairIsRead(d);
      case _ => BitfieldIsField(d);
    }
  }

  predicate TakesWidth(f: Field, w: nat)
  {
    w >= 1 && (CodecOf(f) == LangCodec ==> w == 12) && (CodecOf(f) == BoolCodec ==> w == 1)
  }

  lemma LangLength(d: Bits)
    ensures DecodeLang(d, 12).Ok? ==> |d| == 12
  {
    hide Number;
  }

  lemma AssignedSays(f: Field, s: Bits, at: nat, w: nat, m: Model, v: Value)
    requires WellTyped(m) && Matches(CodecOf(f), v) && SaysFirst(s, at, w, f, v)
    requires (CodecOf(f) == LangCodec ==> |v.s| == 2) && Assign(m, f, v).Ok?
    ensures f in Assign(m, f, v).value && Says(s, at, w, f, Assign(m, f, v).value[f])
  {
    hide Read, IsSet, UpperChar, WellTyped, IsPair;
  }

  lemma PairIsRead(d: Bits)
    requires |d| == 12
    ensures DecodeLang(d, 12).Ok? && IsPair(d, DecodeLang(d, 12).value) && |DecodeLang(d, 12).value| == 2
  {
    hide Number, Read;
    ReadIsNumber(d[..6]);
    ReadIsNumber(d[6..]);
    NumberBound(d[..6]);
    NumberBound(d[6..]);
  }

  lemma BitfieldIsField(d: Bits)
    ensures IsSet(d, BitfieldIds(d))
  {
  }

  lemma NextRead(fs: seq<Field>, s: Bits, k: nat, at: nat, w: nat, m: Model, end: Model) returns (next: Model)
    requires WellTyped(m) && Reads(fs, s, k, at, m, end) && k < |fs| && fs[k] !in fs[k + 1..]
    requires CodecOf(fs[k]) !in {VendorCodec, RestrictionCodec} && NumBits(fs[k], m) == Some(w) && w >= 1
    ensures WellTyped(next) && WellTyped(end) && Reads(fs, s, k + 1, at + w, next, end)
    ensures Says(s, at, w, fs[k], end[fs[k]]) && (fs[k] != Version ==> next[Version] == m[Version])
  {
    hide Reads, DecodeAndAssign, Says, NumBits, CodecOf, WellTyped;
    var cursor;
    next, cursor := NextStep(fs, s, k, at, m, end);
    DecodedSays(fs[k], s, at, w, m);
  }

  /** One integer, date, pair of letters, flag or set further */
  lemma ReadIntField(fs: seq<Field>, s: Bits, k: nat, at: nat, w: nat, m: Model, end: Model) returns (next: Model)
    requires WellTyped(m) && Reads(fs, s, k, at, m, end) && k < |fs| && fs[k] !in fs[k + 1..]
    requires CodecOf(fs[k]) == IntCodec && NumBits(fs[k], m) == Some(w) && w >= 1
    ensures WellTyped(next) && WellTyped(end) && Reads(fs, s, k + 1, at + w, next, end)
    ensures fs[k] != Version ==> next[Version] == m[Version]
    ensures at + w <= |s| && end[fs[k]] == IntV(Read(s[at..at + w]))
  {
    hide Reads, WellTyped, NumBits, Read;
    next := NextRead(fs, s, k, at, w, m, end);
  }

  lemma ReadDateField(fs: seq<Field>, s: Bits, k: nat, at: nat, w: nat, m: Model, end: Model) returns (next: Model)
    requires WellTyped(m) && Reads(fs, s, k, at, m, end) && k < |fs| && fs[k] !in fs[k + 1..]
    requires CodecOf(fs[k]) == DateCodec && NumBits(fs[k], m) == Some(w) && w >= 1
    ensures WellTyped(next) && WellTyped(end) && Reads(fs, s, k + 1, at + w, next, end)
    ensures fs[k] != Version ==> next[Version] == m[Version]
    ensures at + w <= |s| && end[fs[k]] == DateV(100 * Read(s[at..at + w]))
  {
    hide Reads, WellTyped, NumBits, Read;
    next := NextRead(fs, s, k, at, w, m, end);
  }

  lemma ReadPairField(fs: seq<Field>, s: Bits, k: nat, at: nat, m: Model, end: Model) returns (next: Model)
    requires WellTyped(m) && Reads(fs, s, k, at, m, end) && k < |fs| && fs[k] !in fs[k + 1..]
    requires CodecOf(fs[k]) == LangCodec && NumBits(fs[k], m) == Some(12)
    ensures WellTyped(next) && WellTyped(end) && Reads(fs, s, k + 1, at + 12, next, end)
    ensures fs[k] != Version ==> next[Version] == m[Version]
    ensures Says(s, at, 12, fs[k], end[fs[k]])
  {
    hide Reads, WellTyped, NumBits, Read, IsPair, Says;
    next := NextRead(fs, s, k, at, 12, m, end);
  }

  lemma ReadFlagField(fs: seq<Field>, s: Bits, k: nat, at: nat, m: Model, end: Model) returns (next: Model)
    requires WellTyped(m) && Reads(fs, s, k, at, m, end) && k < |fs| && fs[k] !in fs[k + 1..]
    requires CodecOf(fs[k]) == BoolCodec && NumBits(fs[k], m) == Some(1)
    ensures WellTyped(next) && WellTyped(end) && Reads(fs, s, k + 1, at + 1, next, end)
    ensures fs[k] != Version ==> next[Version] == m[Version]
    ensures end[fs[k]].BoolV? && (at < |s| ==> end[fs[k]].b == s[at])
  {
    hide Reads, WellTyped, NumBits, Read;
    next := NextRead(fs, s, k, at, 1, m, end);
  }

  lemma ReadSetField(fs: seq<Field>, s: Bits, k: nat, at: nat, w: nat, m: Model, end: Model) returns (next: Model)
    requires WellTyped(m) && Reads(fs, s, k, at, m, end) && k < |fs| && fs[k] !in fs[k + 1..]
    requires CodecOf(fs[k]) == FixedCodec && NumBits(fs[k], m) == Some(w) && w >= 1
    ensures WellTyped(next) && WellTyped(end) && Reads(fs, s, k + 1, at + w, next, end)
    ensures fs[k] != Version ==> next[Version] == m[Version]
    ensures at + w <= |s| && end[fs[k]].VectorV? && IsSet(s[at..at + w], end[fs[k]].ids)
  {
    hide Reads, WellTyped, NumBits, Read;
    next := NextRead(fs, s, k, at, w, m, end);
  }

  // ---------- The core segment ----------

  /** Both versions up to bit 132 */
  ghost predicate CommonReading(s: Bits, end: Model)
    requires WellTyped(end)
  {
    && |s| >= 132
    && end[Version] == IntV(Read(s[0..6]))
    && end[Created] == DateV(100 * Read(s[6..42]))
    && end[LastUpdated] == DateV(100 * Read(s[42..78]))
    && end[CmpId] == IntV(Read(s[78..90]))
    && end[CmpVersion] == IntV(Read(s[90..102]))
    && end[ConsentScreen] == IntV(Read(s[102..108]))
    && end[ConsentLanguage].LangV? && IsPair(s[108..120], end[ConsentLanguage].s)
    && end[VendorListVersion] == IntV(Read(s[120..132]))
  }

  lemma CommonIsRead(fs: seq<Field>, s: Bits, m: Model, end: Model) returns (next: Model)
    requires WellTyped(m) && Reads(fs, s, 0, 0, m, end) && |fs| >= 8 && NoneTwice(fs)
    requires fs[0] == Version && fs[1] == Created && fs[2] == LastUpdated && fs[3] == CmpId
    requires fs[4] == CmpVersion && fs[5] == ConsentScreen && fs[6] == ConsentLanguage && fs[7] == VendorListVersion
    ensures WellTyped(end) && CommonReading(s, end)
    ensures WellTyped(next) && Reads(fs, s, 8, 132, next, end) && next[Version] == end[Version]
  {
    hide Reads, Read, IsPair, WellTyped, NoneTwice, Says;
    var times := TimesAreRead(fs, s, m, end);
    next := CmpIsRead(fs, s, times, end);
    PairSays(s, end);
  }

  lemma PairSays(s: Bits, end: Model)
    requires WellTyped(end) && Says(s, 108, 12, ConsentLanguage, end[ConsentLanguage])
    ensures |s| >= 120 && end[ConsentLanguage].LangV? && IsPair(s[108..120], end[ConsentLanguage].s)
  {
    hide IsPair;
  }

  lemma TimesAreRead(fs: seq<Field>, s: Bits, m: Model, end: Model) returns (next: Model)
    requires WellTyped(m) && Reads(fs, s, 0, 0, m, end) && |fs| >= 8 && NoneTwice(fs)
    requires fs[0] == Version && fs[1] == Created && fs[2] == LastUpdated
    ensures WellTyped(end) && |s| >= 78 && end[Version] == IntV(Read(s[0..6]))
    ensures end[Created] == DateV(100 * Read(s[6..42])) && end[LastUpdated] == DateV(100 * Read(s[42..78]))
    ensures WellTyped(next) && Reads(fs, s, 3, 78, next, end) && next[Version] == end[Version]
  {
    hide Reads, Read, WellTyped, NoneTwice;
    AllLater(fs);
    var m1 := ReadIntField(fs, s, 0, 0, 6, m, end);
    var m2 := ReadDateField(fs, s, 1, 6, 36, m1, end);
    next := ReadDateField(fs, s, 2, 42, 36, m2, end);
    VersionStays(fs, s, 1, 6, m1, end);
  }

  lemma CmpIsRead(fs: seq<Field>, s: Bits, m: Model, end: Model) returns (next: Model)
    requires WellTyped(m) && Reads(fs, s, 3, 78, m, end) && |fs| >= 8 && NoneTwice(fs)
    requires fs[3] == CmpId && fs[4] == CmpVersion && fs[5] == ConsentScreen && fs[6] == ConsentLanguage
    requires fs[7] == VendorListVersion
    ensures WellTyped(end) && |s| >= 132 && end[CmpId] == IntV(Read(s[78..90]))
    ensures end[CmpVersion] == IntV(Read(s[90..102])) && end[ConsentScreen] == IntV(Read(s[102..108]))
    ensures Says(s, 108, 12, ConsentLanguage, end[ConsentLanguage])
    ensures end[VendorListVersion] == IntV(Read(s[120..132]))
    ensures WellTyped(next) && Reads(fs, s, 8, 132, next, end) && next[Version] == m[Version]
  {
    hide Reads, Read, WellTyped, NoneTwice, Says;
    AllLater(fs);
    var m1 := ReadIntField(fs, s, 3, 78, 12, m, end);
    var m2 := ReadIntField(fs, s, 4, 90, 12, m1, end);
    var m3 := ReadIntField(fs, s, 5, 102, 6, m2, end);
    var m4 := ReadPairField(fs, s, 6, 108, m3, end);
    next := ReadIntField(fs, s, 7, 120, 12, m4, end);
  }

  ghost predicate NoneTwice(fs: seq<Field>)
  {
    forall i, j :: 0 <= i < j < |fs| ==> fs[i] != fs[j]
  }

  /** The place of each field among those of both versions */
  function Place(f: Field): nat
  {
    match f
    case Version => 0 case Created => 1 case LastUpdated => 2 case CmpId => 3 case CmpVersion => 4
    case ConsentScreen => 5 case ConsentLanguage => 6 case VendorListVersion => 7 case PolicyVersion => 8
    case IsServiceSpecific => 9 case UseNonStandardTexts => 10 case SpecialFeatureOptins => 11
    case PurposeConsents => 12 case PurposeLegitimateInterests => 13 case PurposeOneTreatment => 14
    case PublisherCountryCode => 15 case VendorConsents => 16 case VendorLegitimateInterests => 17
    case _ => 18
  }

  lemma {:induction false} RisingPlaces(fs: seq<Field>, n: nat)
    requires n <= |fs| && forall i :: 0 < i < |fs| ==> Place(fs[i - 1]) < Place(fs[i])
    ensures forall i, j :: 0 <= i < j < n ==> Place(fs[i]) < Place(fs[j])
  {
    hide Place;
    if n > 1 {
      RisingPlaces(fs, n - 1);
      assert Place(fs[n - 2]) < Place(fs[n - 1]);
    }
  }

  lemma FirstHasNoneTwice()
    ensures FieldSequence(1, Core).Some? && NoneTwice(FieldSequence(1, Core).value)
  {
    FirstCore();
    hide FieldSequence;
    RisingPlaces(FieldSequence(1, Core).value, 10);
  }

  lemma SecondHasNoneTwice()
    ensures FieldSequence(2, Core).Some? && NoneTwice(FieldSequence(2, Core).value)
  {
    hide FieldSequence;
    SecondCore();
    var fs := FieldSequence(2, Core).value;
    SecondRises(fs);
    RisingPlaces(fs, 19);
  }

  lemma SecondRises(fs: seq<Field>)
    requires |fs| == 19 && fs[0] == Version && fs[1] == Created && fs[2] == LastUpdated && fs[3] == CmpId
    requires fs[4] == CmpVersion && fs[5] == ConsentScreen && fs[6] == ConsentLanguage && fs[7] == VendorListVersion
    requires fs[8] == PolicyVersion && fs[9] == IsServiceSpecific && fs[10] == UseNonStandardTexts
    requires fs[11] == SpecialFeatureOptins && fs[12] == PurposeConsents && fs[13] == PurposeLegitimateInterests
    requires fs[14] == PurposeOneTreatment && fs[15] == PublisherCountryCode && fs[16] == VendorConsents
    requires fs[17] == VendorLegitimateInterests && fs[18] == PublisherRestrictions
    ensures forall i :: 0 < i < |fs| ==> Place(fs[i - 1]) < Place(fs[i])
  {
  }

  lemma AllLater(fs: seq<Field>)
    requires NoneTwice(fs)
    ensures forall k :: 0 <= k < |fs| ==> fs[k] !in fs[k + 1..]
  {
  }

  lemma VersionStays(fs: seq<Field>, s: Bits, k: nat, at: nat, m: Model, end: Model)
    requires WellTyped(m) && Reads(fs, s, k, at, m, end) && Version !in fs[k..]
    ensures WellTyped(end) && end[Version] == m[Version]
  {
    LaterFieldsKeep(fs[k..], s, at, m, Version);
  }

  /** Version 2 up to bit 213, and from there the two vendor codes */
  ghost predicate PurposeReading(s: Bits, end: Model)
    requires WellTyped(end)
  {
    && |s| >= 213
    && end[PolicyVersion] == IntV(Read(s[132..138]))
    && end[IsServiceSpecific] == BoolV(s[138])
    && end[UseNonStandardTexts] == BoolV(s[139])
    && end[SpecialFeatureOptins].VectorV? && IsSet(s[140..152], end[SpecialFeatureOptins].ids)
    && end[PurposeConsents].VectorV? && IsSet(s[152..176], end[PurposeConsents].ids)
    && end[PurposeLegitimateInterests].VectorV? && IsSet(s[176..200], end[PurposeLegitimateInterests].ids)
    && end[PurposeOneTreatment] == BoolV(s[200])
    && end[PublisherCountryCode].LangV?
    && exists pair :: IsPair(s[201..213], pair)
                      && end[PublisherCountryCode].s == [UpperChar(pair[0]), UpperChar(pair[1])]
  }

  lemma PurposesAreRead(fs: seq<Field>, s: Bits, m: Model, end: Model) returns (next: Model)
    requires WellTyped(m) && Reads(fs, s, 8, 132, m, end) && |fs| == 19 && NoneTwice(fs)
    requires fs[8] == PolicyVersion && fs[9] == IsServiceSpecific && fs[10] == UseNonStandardTexts
    requires fs[11] == SpecialFeatureOptins && fs[12] == PurposeConsents && fs[13] == PurposeLegitimateInterests
    requires fs[14] == PurposeOneTreatment && fs[15] == PublisherCountryCode
    ensures WellTyped(end) && PurposeReading(s, end)
    ensures WellTyped(next) && Reads(fs, s, 16, 213, next, end) && next[Version] == m[Version]
  {
    hide Reads, WellTyped, PurposeReading, FlagReading, SetReading, NoneTwice;
    var flags := FlagsAreRead(fs, s, m, end);
    next := SetsAreRead(fs, s, flags, end);
    BothReadings(s, end);
  }

  ghost predicate FlagReading(s: Bits, end: Model)
    requires WellTyped(end)
  {
    && |s| >= 152 && end[PolicyVersion] == IntV(Read(s[132..138]))
    && end[IsServiceSpecific] == BoolV(s[138]) && end[UseNonStandardTexts] == BoolV(s[139])
    && end[SpecialFeatureOptins].VectorV? && IsSet(s[140..152], end[SpecialFeatureOptins].ids)
  }

  ghost predicate SetReading(s: Bits, end: Model)
    requires WellTyped(end)
  {
    && |s| >= 213
    && end[PurposeConsents].VectorV? && IsSet(s[152..176], end[PurposeConsents].ids)
    && end[PurposeLegitimateInterests].VectorV? && IsSet(s[176..200], end[PurposeLegitimateInterests].ids)
    && end[PurposeOneTreatment] == BoolV(s[200])
    && Says(s, 201, 12, PublisherCountryCode, end[PublisherCountryCode])
  }

  lemma BothReadings(s: Bits, end: Model)
    requires WellTyped(end) && FlagReading(s, end) && SetReading(s, end)
    ensures PurposeReading(s, end)
  {
    hide WellTyped, IsSet, Read, IsPair, UpperChar;
  }

  lemma FlagsAreRead(fs: seq<Field>, s: Bits, m: Model, end: Model) returns (next: Model)
    requires WellTyped(m) && Reads(fs, s, 8, 132, m, end) && |fs| == 19 && NoneTwice(fs)
    requires fs[8] == PolicyVersion && fs[9] == IsServiceSpecific && fs[10] == UseNonStandardTexts
    requires fs[11] == SpecialFeatureOptins
    ensures WellTyped(end) && FlagReading(s, end)
    ensures WellTyped(next) && Reads(fs, s, 12, 152, next, end) && next[Version] == m[Version]
  {
    hide Reads, Read, WellTyped, IsSet, NoneTwice;
    AllLater(fs);
    var m1 := ReadIntField(fs, s, 8, 132, 6, m, end);
    var m2 := ReadFlagField(fs, s, 9, 138, m1, end);
    var m3 := ReadFlagField(fs, s, 10, 139, m2, end);
    next := ReadSetField(fs, s, 11, 140, 12, m3, end);
  }

  lemma SetsAreRead(fs: seq<Field>, s: Bits, m: Model, end: Model) returns (next: Model)
    requires WellTyped(m) && Reads(fs, s, 12, 152, m, end) && |fs| == 19 && NoneTwice(fs)
    requires fs[12] == PurposeConsents && fs[13] == PurposeLegitimateInterests
    requires fs[14] == PurposeOneTreatment && fs[15] == PublisherCountryCode
    ensures WellTyped(end) && SetReading(s, end)
    ensures WellTyped(next) && Reads(fs, s, 16, 213, next, end) && next[Version] == m[Version]
  {
    hide Reads, Read, WellTyped, IsSet, IsPair, UpperChar, NoneTwice;
    AllLater(fs);
    var m1 := ReadSetField(fs, s, 12, 152, 24, m, end);
    var m2 := ReadSetField(fs, s, 13, 176, 24, m1, end);
    var m3 := ReadFlagField(fs, s, 14, 200, m2, end);
    next := ReadPairField(fs, s, 15, 201, m3, end);
  }

  lemma VendorsAreRead(fs: seq<Field>, s: Bits, k: nat, at: nat, m: Model, end: Model)
    returns (next: Model, cursor: nat)
    requires WellTyped(m) && Reads(fs, s, k, at, m, end) && k < |fs| && fs[k] !in fs[k + 1..]
    requires CodecOf(fs[k]) == VendorCodec && at <= |s| && m[Version].IntV?
    ensures WellTyped(next) && WellTyped(end) && next[Version] == m[Version]
    ensures var read := DecodeVendors(s[at..], m[Version].n);
            && read.Ok? && end[fs[k]] == VectorV(read.value.0) && cursor == at + read.value.1
            && Reads(fs, s, k + 1, cursor, next, end)
  {
    hide Reads, DecodeVendors, Matches;
    next, cursor := NextStep(fs, s, k, at, m, end);
  }

  /** Whoever wrote the segment and whatever the model was before: when it is read, it is a segment of version 1 or 2,
      and every field has the value that its own bits say. In version 2 the vendors with legitimate interest stand
      behind those with consent. */
  lemma CoreReading(e: string, m: Model)
    requires WellTyped(m) && DecodeSegment(e, m, Some(Core)).Ok?
    ensures DecodeBase64(e).Ok? && |DecodeBase64(e).value| >= 132
    ensures var s, end := DecodeBase64(e).value, DecodeSegment(e, m, Some(Core)).value;
            && CommonReading(s, end) && end[Version] in {IntV(1), IntV(2)}
            && (end[Version] == IntV(1) ==> FirstVersionReading(s, end))
            && (end[Version] == IntV(2) ==> PurposeReading(s, end) && VendorReading(s[213..], end))
  {
    hide DecodeFields, Read, CommonReading, PurposeReading, FirstVersionReading, VendorReading, Number, InAlphabet,
        Sextets;
    var s, end := DecodeBase64(e).value, DecodeSegment(e, m, Some(Core)).value;
    var version := ReadInt(s, 0, 6).value;
    var fs := FieldSequence(version, Core).value;
    var start := m[Version := IntV(version)];
    Starts(fs, s, start, end);
    if version == 1 {
      FirstVersionIsRead(fs, s, start, end);
    } else {
      SecondVersionIsRead(fs, s, start, end);
    }
    VersionRead(s, end, version);
  }

  lemma VersionRead(s: Bits, end: Model, version: nat)
    requires WellTyped(end) && CommonReading(s, end) && ReadInt(s, 0, 6) == Ok(version)
    ensures |s| >= 132 && end[Version] == IntV(version)
  {
    ReadIsNumber(s[0..6]);
  }

  lemma Starts(fs: seq<Field>, s: Bits, m: Model, end: Model)
    requires WellTyped(m) && DecodeFields(fs, s, 0, m) == Ok(end)
    ensures Reads(fs, s, 0, 0, m, end)
  {
    assert fs[0..] == fs;
  }

  /** Version 1 behind bit 132: the purposes and the vendor code */
  ghost predicate FirstVersionReading(s: Bits, end: Model)
    requires WellTyped(end)
  {
    && |s| >= 156
    && end[PurposeConsents].VectorV? && IsSet(s[132..156], end[PurposeConsents].ids)
    && DecodeVendors(s[156..], 1).Ok? && end[VendorConsents] == VectorV(DecodeVendors(s[156..], 1).value.0)
  }

  /** Version 2 behind bit 213 */
  ghost predicate VendorReading(rest: Bits, end: Model)
    requires WellTyped(end)
  {
    var first := DecodeVendors(rest, 2);
    && first.Ok? && end[VendorConsents] == VectorV(first.value.0)
    && first.value.1 <= |rest|
    && var second := DecodeVendors(rest[first.value.1..], 2);
       second.Ok? && end[VendorLegitimateInterests] == VectorV(second.value.0)
  }

  lemma FirstVersionIsRead(fs: seq<Field>, s: Bits, m: Model, end: Model)
    requires WellTyped(m) && FieldSequence(1, Core) == Some(fs) && Reads(fs, s, 0, 0, m, end)
    requires ReadInt(s, 0, 6) == Ok(1)
    ensures WellTyped(end) && CommonReading(s, end) && FirstVersionReading(s, end)
  {
    hide Reads, Read, IsPair, WellTyped, IsSet, DecodeVendors, CommonReading, Number, FieldSequence, NoneTwice;
    FirstCore();
    FirstHasNoneTwice();
    var common := CommonIsRead(fs, s, m, end);
    VersionRead(s, end, 1);
    AllLater(fs);
    var purposes := ReadSetField(fs, s, 8, 132, 24, common, end);
    var _, _ := VendorsAreRead(fs, s, 9, 156, purposes, end);
  }

  lemma SecondVersionIsRead(fs: seq<Field>, s: Bits, m: Model, end: Model)
    requires WellTyped(m) && FieldSequence(2, Core) == Some(fs) && Reads(fs, s, 0, 0, m, end)
    requires ReadInt(s, 0, 6) == Ok(2)
    ensures WellTyped(end) && CommonReading(s, end) && PurposeReading(s, end) && VendorReading(s[213..], end)
  {
    hide Reads, Read, IsPair, WellTyped, IsSet, DecodeVendors, CommonReading, PurposeReading, Number, FieldSequence,
        NoneTwice, VendorReading;
    SecondCore();
    SecondHasNoneTwice();
    var common := CommonIsRead(fs, s, m, end);
    VersionRead(s, end, 2);
    AllLater(fs);
    var purposes := PurposesAreRead(fs, s, common, end);
    LongEnough(s, end);
    BothVendors(fs, s, purposes, end);
  }

  lemma BothVendors(fs: seq<Field>, s: Bits, m: Model, end: Model)
    requires WellTyped(m) && WellTyped(end) && Reads(fs, s, 16, 213, m, end) && m[Version] == IntV(2)
    requires |fs| == 19 && fs[16] == VendorConsents && fs[17] == VendorLegitimateInterests && |s| >= 213
    requires fs[16] !in fs[17..] && fs[17] !in fs[18..]
    ensures VendorReading(s[213..], end)
  {
    hide Reads, WellTyped, DecodeVendors;
    var consents, at := VendorsAreRead(fs, s, 16, 213, m, end);
    ConsumedIsThere(s[213..], 2);
    var _, _ := VendorsAreRead(fs, s, 17, at, consents, end);
    assert s[213..][at - 213..] == s[at..];
  }

  lemma LongEnough(s: Bits, end: Model)
    requires WellTyped(end) && PurposeReading(s, end)
    ensures |s| >= 213
  {
  }

  lemma {:induction false} RunsAreThere(e: Bits, at: nat, n: nat)
    requires at <= |e| && ReadRuns(e, at, n).Ok?
    ensures ReadRuns(e, at, n).value.1 <= |e|
    decreases n
  {
    hide Number;
    if n != 0 {
      RunsAreThere(e, ReadRun(e, at).value.1, n - 1);
    }
  }

  lemma ConsumedIsThere(e: Bits, version: int)
    requires DecodeVendors(e, version).Ok?
    ensures DecodeVendors(e, version).value.1 <= |e|
  {
    hide Number, ReadRuns;
    var at := if version == 1 then 30 else 29;
    if ReadInt(e, 16, 1) == Ok(1) {
      RunsAreThere(e, at, ReadInt(e, at - 12, 12).value);
    }
  }
}
