/** Encoding a model as a consent string and decoding it again. */
module TcfTrip {
  import opened Wrappers
  import opened TcfBits
  import opened TcfVector
  import opened TcfVendors
  import opened TcfRestrictions
  import opened TcfRestrictionTrip
  import opened TcfBase64
  import opened TcfSegments
  import opened Strings

  /** The value that a field has after encoding and decoding */
  ghost function Normal(f: Field, m: Model): (v: Value)
    requires WellTyped(m)
  {
    var v := m[f];
    match CodecOf(f)
    case DateCodec => DateV(100 * Deciseconds(v.ms))
    case LangCodec => LangV(if |Upper(v.s)| < 2 then v.s else Upper(v.s)[..2])
    case FixedCodec => VectorV(Clip(v.ids, if NumBits(f, m).Some? then NumBits(f, m).value else 0))
    case RestrictionCodec => RestrictionsV(Filled(v.entries, ListedIds(v.gvl)), None)
    case _ => v
  }

  /** The target model after the field has been decoded into it */
  ghost function Put(f: Field, m: Model, target: Model): Model
    requires WellTyped(m)
  {
    if NumBits(f, m) == Some(0) then target else target[f := Normal(f, m)]
  }

  ghost function PutAll(fs: seq<Field>, m: Model, target: Model): Model
    requires WellTyped(m)
    decreases |fs|
  {
    if |fs| == 0 then target else PutAll(fs[1..], m, Put(fs[0], m, target))
  }

  ghost predicate Accepted(f: Field, m: Model)
    requires WellTyped(m)
  {
    f == CmpId ==> m[f].n > 1
  }

  // ---------- One field ----------

  lemma FieldCodeDecodes(f: Field, m: Model, code: Bits, after: Bits)
    requires WellTyped(m) && EncodeField(f, m) == Ok(code)
    requires NumBits(f, m) != Some(0)
    ensures var w := NumBits(f, m);
            && (w.Some? ==> |code| == w.value)
            && DecodeField(f, if w.Some? then code else code + after, w, 2)
               == Ok((Normal(f, m), if w.Some? then 0 else |code|))
  {
    hide EncodeInt, DecodeInt, EncodeVendors, DecodeVendors, EncodeRestrictions, DecodeRestrictions,
         EncodeLang, DecodeLang, EncodeDate, DecodeDate, Bitfield, BitfieldIds, Filled, Clip;
    var v, w := m[f], NumBits(f, m);
    match CodecOf(f) {
      case IntCodec => IntRoundTrip(v.n, w.value);
      case BoolCodec =>
      case DateCodec => DateRoundTrip(v.ms, w.value);
      case LangCodec => LangRoundTrip(v.s);
      case FixedCodec => BitfieldRoundTrip(v.ids, w.value);
      case VendorCodec => VendorRoundTrip(v.ids, after);
      case RestrictionCodec => RestrictionsRoundTrip(v.entries, v.gvl, after);
    }
  }

  lemma NormalMatches(f: Field, m: Model)
    requires WellTyped(m) && EncodeField(f, m).Ok?
    ensures Matches(CodecOf(f), Normal(f, m)) && (CodecOf(f) == LangCodec ==> |Normal(f, m).s| == 2)
  {
    hide EncodeInt, EncodeVendors, EncodeRestrictions, EncodeLang, DecodeLang, EncodeDate, Bitfield, Filled, MaxId,
         DistinctKeys;
    var v := m[f];
    assert Matches(CodecOf(f), v);
    if CodecOf(f) == LangCodec {
      LangRoundTrip(v.s);
    } else if CodecOf(f) == RestrictionCodec {
      RestrictionsMatch(v.entries, ListedIds(v.gvl));
    }
  }

  lemma RestrictionsMatch(entries: seq<Entry>, listed: set<nat>)
    requires DistinctKeys(entries) && forall i :: 0 <= i < |entries| ==> entries[i].key.IsValid()
    ensures Matches(RestrictionCodec, RestrictionsV(Filled(entries, listed), None))
  {
    hide Filled;
    FilledIsProper(entries, listed);
  }

  lemma IntIsAssigned(f: Field, m: Model, target: Model)
    requires WellTyped(m) && EncodeField(f, m).Ok? && CodecOf(f) == IntCodec
    ensures Normal(f, m) == m[f]
    ensures Assign(target, f, m[f]) == if Accepted(f, m) then Ok(target[f := m[f]]) else Err(ModelError)
  {
    hide EncodeInt, EncodeDate, EncodeLang, EncodeVendors, EncodeRestrictions, Bitfield, Filled, Clip, Upper, MaxId;
    assert Matches(IntCodec, m[f]);
    IntRoundTrip(m[f].n, NumBits(f, m).value);
  }

  lemma LangIsAssigned(f: Field, m: Model, target: Model)
    requires WellTyped(m) && EncodeField(f, m).Ok? && CodecOf(f) == LangCodec
    ensures |Normal(f, m).s| == 2
    ensures Assign(target, f, Normal(f, m)) == Ok(target[f := Normal(f, m)])
  {
    hide EncodeLang, DecodeLang, Upper, EncodeInt, EncodeDate, EncodeVendors, EncodeRestrictions, Filled, Clip;
    var upper := Upper(m[f].s);
    LangRoundTrip(m[f].s);
    LettersStay(upper);
  }

  lemma LettersStay(upper: string)
    requires |upper| >= 2 && IsUpperLetter(upper[0]) && IsUpperLetter(upper[1])
    ensures upper[..2] == [upper[0], upper[1]] == [UpperChar(upper[0]), UpperChar(upper[1])]
  {
  }

  lemma NormalIsAssigned(f: Field, m: Model, target: Model)
    requires WellTyped(m) && EncodeField(f, m).Ok?
    ensures Matches(CodecOf(f), Normal(f, m)) && (CodecOf(f) == LangCodec ==> |Normal(f, m).s| == 2)
    ensures Assign(target, f, Normal(f, m)) ==
            if Accepted(f, m) then Ok(target[f := Normal(f, m)]) else Err(ModelError)
  {
    hide EncodeField, Normal, WellTyped;
    NormalMatches(f, m);
    if CodecOf(f) == IntCodec {
      IntIsAssigned(f, m, target);
    } else if CodecOf(f) == LangCodec {
      LangIsAssigned(f, m, target);
    }
  }

  lemma {:induction false} FilledIsProper(entries: seq<Entry>, listed: set<nat>)
    requires ProperEntries(entries)
    ensures ProperEntries(Filled(entries, listed))
    ensures forall key :: HasKey(Filled(entries, listed), key) ==> HasKey(entries, key)
    decreases |entries|
  {
    hide Fill;
    if |entries| != 0 {
      var more := entries[1..];
      assert forall i :: 0 <= i < |more| ==> more[i] == entries[i + 1];
      FilledIsProper(more, listed);
      assert !HasKey(more, entries[0].key);
      AppendProper(FilledEntry(entries[0], listed), Filled(more, listed), entries);
    }
  }

  lemma AppendProper(a: seq<Entry>, b: seq<Entry>, entries: seq<Entry>)
    requires |entries| > 0 && entries[0].key.IsValid() && !HasKey(entries[1..], entries[0].key)
    requires a == [] || (|a| == 1 && a[0].key == entries[0].key)
    requires ProperEntries(b) && forall key :: HasKey(b, key) ==> HasKey(entries[1..], key)
    ensures ProperEntries(a + b) && forall key :: HasKey(a + b, key) ==> HasKey(entries, key)
  {
    assert forall i :: 0 <= i < |b| ==> HasKey(b, b[i].key);
    assert forall i :: 0 <= i < |a + b| ==> (a + b)[i] == if i < |a| then a[i] else b[i - |a|];
    forall key | HasKey(a + b, key)
      ensures HasKey(entries, key)
    {
      VendorsOfAppend(a, b, key);
      if HasKey(a, key) {
        assert entries[0].key == key;
      } else {
        var i :| 0 <= i < |entries[1..]| && entries[1..][i].key == key;
        assert entries[i + 1].key == key;
      }
    }
  }

  lemma SubstrOf(before: Bits, code: Bits, after: Bits, w: Option<nat>)
    requires w.Some? ==> |code| == w.value
    ensures Substr(before + code + after, |before|, w) == if w.Some? then code else code + after
  {
    var e := before + code + after;
    assert e[|before|..] == code + after;
    assert e[|before|..|before| + |code|] == code;
  }

  lemma AssignedThen(f: Field, s: Bits, at: nat, target: Model, v: Value, length: nat)
    requires WellTyped(target)
    requires var w := NumBits(f, target);
             w != Some(0) && DecodeField(f, Substr(s, at, w), w, target[Version].n) == Ok((v, length))
    requires Matches(CodecOf(f), v) && (CodecOf(f) == LangCodec ==> |v.s| == 2)
    ensures var w := NumBits(f, target);
            DecodeAndAssign(f, s, at, target) ==
            match Assign(target, f, v)
            case Ok(next) => Ok((next, at + if w.Some? then w.value else length))
            case Err(e) => Err(e)
  {
    hide DecodeField, Assign, Substr, NumBits, WellTyped;
  }

  /** Decoding a field at its place sets its normal value, or fails exactly when the setter rejects it. */
  lemma FieldTrip(f: Field, m: Model, target: Model, before: Bits, code: Bits, after: Bits)
    requires WellTyped(m) && WellTyped(target) && target[Version] == IntV(2)
    requires EncodeField(f, m) == Ok(code) && NumBits(f, target) == NumBits(f, m)
    ensures DecodeAndAssign(f, before + code + after, |before|, target) ==
            if Accepted(f, m) then Ok((Put(f, m, target), |before| + |code|)) else Err(ModelError)
  {
    hide EncodeField, DecodeField, Normal, Assign, Substr, NumBits, WellTyped, Matches, CodecOf;
    if NumBits(f, m) == Some(0) {
      OnlyBitfieldsMayBeEmpty(f, m);
      assert before + [] + after == before + after;
    } else {
      FieldCodeDecodes(f, m, code, after);
      SubstrOf(before, code, after, NumBits(f, m));
      NormalIsAssigned(f, m, target);
      AssignedThen(f, before + code + after, |before|, target, Normal(f, m),
                   if NumBits(f, m).Some? then 0 else |code|);
    }
  }

  lemma OnlyBitfieldsMayBeEmpty(f: Field, m: Model)
    requires WellTyped(m) && NumBits(f, m) == Some(0)
    ensures EncodeField(f, m) == Ok([]) && Accepted(f, m)
  {
  }

  // ---------- A sequence of fields ----------

  /** Custom purposes come after their number, which is `known` from the start or in the list. */
  ghost predicate WellOrdered(fs: seq<Field>, known: bool)
    decreases |fs|
  {
    |fs| == 0 || ((IsPublisherCustom(fs[0]) ==> known) && WellOrdered(fs[1..], known || fs[0] == NumCustomPurposes))
  }

  lemma PutKeeps(f: Field, m: Model, target: Model, known: bool)
    requires WellTyped(m) && WellTyped(target) && EncodeField(f, m).Ok?
    requires m[Version] == IntV(2) && target[Version] == IntV(2)
    requires known ==> target[NumCustomPurposes] == m[NumCustomPurposes]
    ensures WellTyped(Put(f, m, target)) && Put(f, m, target)[Version] == IntV(2)
    ensures known || f == NumCustomPurposes ==> Put(f, m, target)[NumCustomPurposes] == m[NumCustomPurposes]
  {
    hide Normal, EncodeField, NumBits, CodecOf, Matches;
    NormalMatches(f, m);
    if f == Version || f == NumCustomPurposes {
      IntStays(f, m);
    }
  }

  lemma IntStays(f: Field, m: Model)
    requires WellTyped(m) && f in {Version, NumCustomPurposes}
    ensures NumBits(f, m) != Some(0) && Normal(f, m) == m[f]
  {
  }

  lemma Regroup(a: Bits, b: Bits, c: Bits, d: Bits)
    ensures a + (b + c) + d == a + b + (c + d) == (a + b) + c + d
  {
  }

  lemma SameWidth(f: Field, m: Model, target: Model)
    requires WellTyped(m) && WellTyped(target)
    requires IsPublisherCustom(f) ==> target[NumCustomPurposes] == m[NumCustomPurposes]
    ensures NumBits(f, target) == NumBits(f, m)
  {
  }

  lemma {:induction false} FieldsTrip(fs: seq<Field>, m: Model, target: Model, known: bool,
      before: Bits, code: Bits, after: Bits)
    requires WellTyped(m) && WellTyped(target) && m[Version] == IntV(2) && target[Version] == IntV(2)
    requires EncodeFields(fs, m) == Ok(code) && WellOrdered(fs, known)
    requires known ==> target[NumCustomPurposes] == m[NumCustomPurposes]
    ensures DecodeFields(fs, before + code + after, |before|, target) ==
            if CmpId in fs && !Accepted(CmpId, m) then Err(ModelError) else Ok(PutAll(fs, m, target))
    decreases |fs|
  {
    hide EncodeField, DecodeAndAssign, Put, WellTyped, NumBits, IsPublisherCustom;
    if |fs| != 0 {
      assert NumBits(fs[0], target) == NumBits(fs[0], m) by {
        SameWidth(fs[0], m, target);
      }
      var f, more := fs[0], fs[1..];
      var first, rest := EncodeField(f, m).value, EncodeFields(more, m).value;
      Regroup(before, first, rest, after);
      FieldTrip(f, m, target, before, first, rest + after);
      if Accepted(f, m) {
        PutKeeps(f, m, target, known);
        FieldsTrip(more, m, Put(f, m, target), known || f == NumCustomPurposes, before + first, rest, after);
      }
    }
  }

  lemma {:induction false} PutAllSets(fs: seq<Field>, m: Model, target: Model)
    requires WellTyped(m) && WellTyped(target) && EncodeFields(fs, m).Ok?
    requires m[Version] == IntV(2) && target[Version] == IntV(2)
    ensures WellTyped(PutAll(fs, m, target)) && PutAll(fs, m, target)[Version] == IntV(2)
    ensures forall f: Field :: PutAll(fs, m, target)[f] ==
                               if f in fs && NumBits(f, m) != Some(0) then Normal(f, m) else target[f]
    decreases |fs|
  {
    hide EncodeField, Normal, NumBits, WellTyped;
    if |fs| != 0 {
      PutKeeps(fs[0], m, target, false);
      PutAllSets(fs[1..], m, Put(fs[0], m, target));
      assert fs == [fs[0]] + fs[1..];
    }
  }

  lemma {:induction false} NoCustomIsOrdered(fs: seq<Field>, known: bool)
    requires forall f :: f in fs ==> !IsPublisherCustom(f)
    ensures WellOrdered(fs, known)
    decreases |fs|
  {
    if |fs| != 0 {
      NoCustomIsOrdered(fs[1..], known || fs[0] == NumCustomPurposes);
    }
  }

  ghost function FieldsOf(segment: Segment): seq<Field>
  {
    FieldSequence(2, segment).value
  }

  lemma {:induction false} OrderedAfterNumber(fs: seq<Field>, k: nat, known: bool)
    requires known || (k < |fs| && fs[k] == NumCustomPurposes)
    requires known || forall i :: 0 <= i < k ==> !IsPublisherCustom(fs[i])
    ensures WellOrdered(fs, known)
    decreases |fs|
  {
    if |fs| != 0 {
      OrderedAfterNumber(fs[1..], if k == 0 then 0 else k - 1, known || fs[0] == NumCustomPurposes);
    }
  }

  lemma CoreFields()
    ensures forall f :: f in FieldsOf(Core) ==> !IsPublisherCustom(f)
    ensures FieldsOf(Core)[0] == Version && FieldsOf(Core)[3] == CmpId
  {
  }

  lemma SequencesAreOrdered(segment: Segment)
    ensures FieldSequence(2, segment) == Some(FieldsOf(segment))
    ensures WellOrdered(FieldsOf(segment), false)
    ensures CmpId in FieldsOf(segment) <==> segment == Core
    ensures segment == Core ==> FieldsOf(segment)[0] == Version
    ensures |FieldsOf(segment)| > 0
  {
    hide WellOrdered;
    if segment == Core {
      CoreFields();
      NoCustomIsOrdered(FieldsOf(Core), false);
    } else if segment == PublisherTc {
      OrderedAfterNumber(FieldsOf(PublisherTc), 2, false);
    } else {
      NoCustomIsOrdered(FieldsOf(segment), false);
    }
  }

  // ---------- One segment ----------

  lemma SegmentBits(m: Model, segment: Segment, b: Bits)
    requires WellTyped(m) && m[Version] == IntV(2) && EncodeSegmentBits(m, segment) == Ok(b)
    ensures |b| >= 3 && Number(b[..3]) == KeyToId(segment)
    ensures segment == Core ==> |b| >= 6 && EncodeInt(2, 6).Ok? && b[..6] == EncodeInt(2, 6).value
    ensures EncodeFields(FieldsOf(segment), m) == Ok(if segment == Core then b else b[3..])
  {
    hide Number, EncodeInt, EncodeFields, FieldSequence, FieldsOf, WellTyped;
    SequencesAreOrdered(segment);
    var body := EncodeFields(FieldsOf(segment), m).value;
    if segment == Core {
      assert b == [] + body == body;
      CoreBits(m, b);
    } else {
      IntRoundTrip(KeyToId(segment), 3);
      var prefix := EncodeInt(KeyToId(segment), 3).value;
      assert b == prefix + body;
      assert b[..3] == prefix && b[3..] == body;
    }
  }

  lemma CoreBits(m: Model, b: Bits)
    requires WellTyped(m) && m[Version] == IntV(2) && EncodeFields(FieldsOf(Core), m) == Ok(b)
    ensures |b| >= 6 && EncodeInt(2, 6).Ok? && b[..6] == EncodeInt(2, 6).value && Number(b[..3]) == 0
  {
    hide Number, EncodeInt, EncodeField, FieldSequence, FieldsOf, WellOrdered, WellTyped;
    SequencesAreOrdered(Core);
    VersionField(m);
    var first := EncodeField(Version, m).value;
    assert first <= b;
    assert b[..6] == first && b[..3] == first[..3];
  }

  lemma VersionField(m: Model)
    requires WellTyped(m) && m[Version] == IntV(2)
    ensures EncodeField(Version, m) == EncodeInt(2, 6) && EncodeInt(2, 6).Ok? && |EncodeInt(2, 6).value| == 6
    ensures Number(EncodeInt(2, 6).value[..3]) == 0
  {
    assert Binary(2) == [true, false];
    var b := EncodeInt(2, 6).value;
    assert b == Zeros(4) + [true, false];
    assert b[..3] == Zeros(3) == Zeros(3) + [];
    NumberOfPadded(3, []);
  }

  lemma DispatchOf(m: Model, segment: Segment, b: Bits)
    requires WellTyped(m) && m[Version] == IntV(2) && EncodeSegmentBits(m, segment) == Ok(b)
    ensures |b| > 0 && EncodeBase64(b).Ok? && Dispatch(EncodeBase64(b).value) == Ok(Some(segment))
  {
    hide Number, Chars, EncodeSegmentBits, Sextet;
    SegmentBits(m, segment, b);
    Base64RoundTrip(b);
    var e := EncodeBase64(b).value;
    assert |e| >= 1;
    assert Sextets(e)[..6] == Sextet(e[0]);
    assert Sextets(e[..1]) == Sextet(e[0]) by {
      assert e[..1][1..] == [];
      assert Sextets(e[..1]) == Sextet(e[..1][0]) + Sextets(e[..1][1..]);
    }
    assert Sextet(e[0])[..3] == PadTo24(b)[..3] == b[..3];
  }

  /** A segment is dispatched to its decoder and sets the normal value of each of its fields. */
  lemma SegmentTrip(m: Model, segment: Segment, target: Model, e: string)
    requires WellTyped(m) && WellTyped(target) && m[Version] == IntV(2) && target[Version] == IntV(2)
    requires EncodeSegment(m, segment) == Ok(e)
    ensures InAlphabet(e) && Dispatch(e) == Ok(Some(segment))
    ensures DecodeSegment(e, target, Some(segment)) ==
            if segment == Core && m[CmpId].n <= 1 then Err(ModelError)
            else Ok(PutAll(FieldsOf(segment), m, target))
  {
    hide Number, EncodeInt, EncodeFields, DecodeFields, PutAll, FieldSequence, FieldsOf, EncodeSegmentBits,
        EncodeBase64, DecodeBase64,
         Dispatch, DecodeSegment, PadTo24, ReadInt, WellTyped, InAlphabet;
    var b := EncodeSegmentBits(m, segment).value;
    var zeros := PadTo24(b)[|b|..];
    DispatchOf(m, segment, b);
    Base64RoundTrip(b);
    DecodeSegmentBits(m, segment, target, b, zeros);
    assert PadTo24(b) == b + zeros;
    DecodeSegmentOf(e, target, segment, b + zeros);
  }

  lemma DecodeSegmentOf(e: string, target: Model, segment: Segment, s: Bits)
    requires WellTyped(target) && target[Version] == IntV(2)
    requires DecodeBase64(e) == Ok(s) && (segment == Core ==> ReadInt(s, 0, 6) == Ok(2))
    ensures DecodeSegment(e, target, Some(segment)) ==
            DecodeFields(FieldsOf(segment), s, if segment == Core then 0 else 3, target)
  {
    hide DecodeFields, FieldSequence, FieldsOf, DecodeBase64, ReadInt, WellTyped, WellOrdered;
    SequencesAreOrdered(segment);
    SameVersion(target);
  }

  lemma SameVersion(target: Model)
    requires WellTyped(target) && target[Version] == IntV(2)
    ensures target[Version := IntV(2)] == target && target[Version := IntV(target[Version].n)] == target
  {
    hide Matches;
  }

  /** Where the fields of a segment start, and what its first bits say */
  lemma DecodeSegmentBits(m: Model, segment: Segment, target: Model, b: Bits, zeros: Bits)
    requires WellTyped(m) && WellTyped(target) && m[Version] == IntV(2) && target[Version] == IntV(2)
    requires EncodeSegmentBits(m, segment) == Ok(b)
    ensures segment == Core ==> ReadInt(b + zeros, 0, 6) == Ok(2)
    ensures DecodeFields(FieldsOf(segment), b + zeros, if segment == Core then 0 else 3, target) ==
            if segment == Core && m[CmpId].n <= 1 then Err(ModelError) else Ok(PutAll(FieldsOf(segment), m, target))
  {
    hide Number, EncodeInt, EncodeFields, DecodeFields, PutAll, FieldSequence, FieldsOf, EncodeSegmentBits, WellTyped,
         WellOrdered, ReadInt;
    SegmentBits(m, segment, b);
    SequencesAreOrdered(segment);
    if segment == Core {
      var version := EncodeInt(2, 6).value;
      assert b + zeros == [] + version + (b[6..] + zeros);
      ReadIntOf([], 2, 6, version, b[6..] + zeros);
      assert [] + b + zeros == b + zeros;
      FieldsTrip(FieldsOf(Core), m, target, false, [], b, zeros);
    } else {
      assert b + zeros == b[..3] + b[3..] + zeros;
      FieldsTrip(FieldsOf(segment), m, target, false, b[..3], b[3..], zeros);
    }
  }

  // ---------- The whole string ----------

  ghost function PutSegments(segments: seq<Segment>, m: Model, target: Model): Model
    requires WellTyped(m)
    decreases |segments|
  {
    if |segments| == 0 then target
    else PutSegments(segments[1..], m, PutAll(FieldsOf(segments[0]), m, target))
  }

  lemma {:induction false} PartsTrip(segments: seq<Segment>, m: Model, target: Model, parts: seq<string>)
    requires WellTyped(m) && WellTyped(target) && m[Version] == IntV(2) && target[Version] == IntV(2)
    requires EncodeSegments(m, segments) == Ok(parts)
    ensures |parts| == |segments| && forall i :: 0 <= i < |parts| ==> '.' !in parts[i]
    ensures DecodeParts(parts, target) ==
            if Core in segments && m[CmpId].n <= 1 then Err(ModelError) else Ok(PutSegments(segments, m, target))
    decreases |segments|
  {
    hide EncodeSegment, DecodeSegment, Dispatch, PutAll, FieldSequence, FieldsOf;
    if |segments| != 0 {
      var segment, e := segments[0], parts[0];
      SegmentTrip(m, segment, target, e);
      SegmentFieldsOk(m, segment);
      PutAllSets(FieldsOf(segment), m, target);
      var next := PutAll(FieldsOf(segment), m, target);
      PartsTrip(segments[1..], m, next, parts[1..]);
      assert segments == [segment] + segments[1..] && parts == [e] + parts[1..];
      assert '.' !in e;
    }
  }

  lemma SegmentFieldsOk(m: Model, segment: Segment)
    requires WellTyped(m) && m[Version] == IntV(2) && EncodeSegment(m, segment).Ok?
    ensures FieldSequence(2, segment) == Some(FieldsOf(segment)) && EncodeFields(FieldsOf(segment), m).Ok?
  {
    hide EncodeFields;
  }

  lemma {:induction false} FieldsEncodeIff(fs: seq<Field>, m: Model)
    requires WellTyped(m)
    ensures EncodeFields(fs, m).Ok? <==> forall f :: f in fs ==> EncodeField(f, m).Ok?
    decreases |fs|
  {
    hide EncodeField, WellTyped;
    if |fs| != 0 {
      assert fs == [fs[0]] + fs[1..];
      FieldsEncodeIff(fs[1..], m);
    }
  }

  lemma SegmentEncodesIff(m: Model, segment: Segment)
    requires WellTyped(m) && m[Version] == IntV(2)
    ensures EncodeSegment(m, segment).Ok? <==> forall f :: f in FieldsOf(segment) ==> EncodeField(f, m).Ok?
  {
    hide EncodeFields, EncodeField, FieldSequence, FieldsOf, EncodeInt, EncodeBase64, WellTyped;
    SequencesAreOrdered(segment);
    FieldsEncodeIff(FieldsOf(segment), m);
    IntRoundTrip(KeyToId(segment), 3);
    assert Pow2(3) == 8;
    if EncodeSegmentBits(m, segment).Ok? {
      var b := EncodeSegmentBits(m, segment).value;
      SegmentBits(m, segment, b);
      Base64RoundTrip(b);
    }
  }

  /** A string can be written if and only if each of its fields can. */
  lemma {:induction false} StringEncodesIff(m: Model, segments: seq<Segment>)
    requires WellTyped(m) && m[Version] == IntV(2)
    ensures EncodeTcString(m, segments).Ok? <==> forall f :: Carried(f, segments) ==> EncodeField(f, m).Ok?
    decreases |segments|
  {
    hide EncodeSegment, EncodeField, FieldsOf, WellTyped, Carried;
    if |segments| == 0 {
      NothingCarried();
    } else {
      SegmentEncodesIff(m, segments[0]);
      StringEncodesIff(m, segments[1..]);
      forall f: Field
        ensures Carried(f, segments) <==> f in FieldsOf(segments[0]) || Carried(f, segments[1..])
      {
        CarriedHead(f, segments);
      }
    }
  }

  lemma NothingCarried()
    ensures forall f: Field :: !Carried(f, [])
  {
  }

  /** A core segment brings its own version; any other one is read by the version of the target. */
  lemma FirstSegment(m: Model, segment: Segment, target: Model, e: string)
    requires WellTyped(m) && WellTyped(target) && m[Version] == IntV(2) && EncodeSegment(m, segment) == Ok(e)
    ensures WellTyped(target[Version := IntV(2)]) && Dispatch(e) == Ok(Some(segment))
    ensures DecodeSegment(e, target, Some(segment)) ==
            if segment != Core && target[Version] != IntV(2) then Err(TypeError)
            else DecodeSegment(e, target[Version := IntV(2)], Some(segment))
  {
    hide EncodeSegment, DecodeFields, FieldsOf, Dispatch, EncodeBase64, DecodeBase64, PadTo24, ReadInt, Substr,
         WellOrdered;
    var later := target[Version := IntV(2)];
    assert WellTyped(later);
    SegmentTrip(m, segment, later, e);
    VersionIsRead(m, segment, e);
    hide WellTyped;
    if target[Version] == IntV(2) {
      assert later == target;
    } else if segment == Core {
      SequencesAreOrdered(Core);
      assert target[Version := IntV(2)] == later[Version := IntV(2)];
    }
  }

  lemma VersionIsRead(m: Model, segment: Segment, e: string)
    requires WellTyped(m) && m[Version] == IntV(2) && EncodeSegment(m, segment) == Ok(e)
    ensures DecodeBase64(e).Ok? && (segment == Core ==> ReadInt(DecodeBase64(e).value, 0, 6) == Ok(2))
  {
    hide Number, EncodeInt, EncodeFields, DecodeFields, PutAll, FieldSequence, FieldsOf, EncodeSegmentBits,
         EncodeBase64, DecodeBase64, PadTo24, ReadInt, InAlphabet, WellOrdered, WellTyped;
    var b := EncodeSegmentBits(m, segment).value;
    SegmentBits(m, segment, b);
    Base64RoundTrip(b);
    DecodeSegmentBits(m, segment, m, b, PadTo24(b)[|b|..]);
    assert PadTo24(b) == b + PadTo24(b)[|b|..];
  }

  /** Any nonempty list of segments round-trips, whatever model it is decoded into: every field of those
      segments gets its normal value. Decoding fails exactly when the first segment is not the core and
      the target has another version, or when the core segment carries a CMP id that the setter rejects. */
  lemma TcStringRoundTrip(m: Model, segments: seq<Segment>, target: Model)
    requires WellTyped(m) && WellTyped(target) && m[Version] == IntV(2)
    requires |segments| > 0 && EncodeTcString(m, segments).Ok?
    ensures DecodeTcString(EncodeTcString(m, segments).value, target) ==
            if segments[0] != Core && target[Version] != IntV(2) then Err(TypeError)
            else if Core in segments && m[CmpId].n <= 1 then Err(ModelError)
            else Ok(PutSegments(segments, m, target[Version := IntV(2)]))
  {
    hide EncodeSegment, DecodeSegment, Dispatch, PutSegments, Split, Join;
    var parts, later := EncodeSegments(m, segments).value, target[Version := IntV(2)];
    FirstSegment(m, segments[0], target, parts[0]);
    PartsTrip(segments, m, later, parts);
    SplitOfJoin(parts, '.');
    assert DecodeParts(parts, target) ==
           if segments[0] != Core && target[Version] != IntV(2) then Err(TypeError) else DecodeParts(parts, later);
  }

  ghost predicate Carried(f: Field, segments: seq<Segment>)
  {
    exists i :: 0 <= i < |segments| && f in FieldsOf(segments[i])
  }

  /** Exactly the fields of the listed segments are set. */
  lemma {:induction false} PutSegmentsSets(segments: seq<Segment>, m: Model, target: Model)
    requires WellTyped(m) && WellTyped(target) && m[Version] == IntV(2) && target[Version] == IntV(2)
    requires EncodeSegments(m, segments).Ok?
    ensures WellTyped(PutSegments(segments, m, target))
    ensures forall f: Field :: PutSegments(segments, m, target)[f] ==
                               if Carried(f, segments) && NumBits(f, m) != Some(0) then Normal(f, m) else target[f]
    decreases |segments|
  {
    hide EncodeSegment, PutAll, FieldSequence, FieldsOf, Normal, NumBits;
    if |segments| != 0 {
      var fs := FieldsOf(segments[0]);
      SegmentFieldsOk(m, segments[0]);
      PutAllSets(fs, m, target);
      PutSegmentsSets(segments[1..], m, PutAll(fs, m, target));
      forall f: Field
        ensures Carried(f, segments) <==> f in fs || Carried(f, segments[1..])
      {
        CarriedHead(f, segments);
      }
    }
  }

  lemma CarriedHead(f: Field, segments: seq<Segment>)
    requires |segments| > 0
    ensures Carried(f, segments) <==> f in FieldsOf(segments[0]) || Carried(f, segments[1..])
  {
    hide FieldsOf;
    assert forall i :: 0 <= i < |segments[1..]| ==> segments[1..][i] == segments[i + 1];
    if Carried(f, segments[1..]) {
      var i :| 0 <= i < |segments[1..]| && f in FieldsOf(segments[1..][i]);
      assert f in FieldsOf(segments[i + 1]);
    }
  }

  /** Values that encoding does not change */
  ghost predicate Canonical(f: Field, m: Model)
    requires WellTyped(m)
  {
    var v := m[f];
    match CodecOf(f)
    case DateCodec => v.ms % 100 == 0
    case LangCodec => |v.s| == 2 && IsUpperLetter(v.s[0]) && IsUpperLetter(v.s[1])
    case FixedCodec => forall x :: x in v.ids ==> NumBits(f, m).Some? && x <= NumBits(f, m).value
    case RestrictionCodec =>
      forall i :: 0 <= i < |v.entries| ==>
        v.entries[i].vendors != {} && Fill(v.entries[i].vendors, ListedIds(v.gvl)) == v.entries[i].vendors
    case _ => true
  }

  /** Equal up to the vendor list that restrictions are attached to */
  ghost predicate SameValue(v: Value, w: Value)
  {
    if v.RestrictionsV? && w.RestrictionsV? then v.entries == w.entries else v == w
  }

  lemma FixedIff(f: Field, m: Model)
    requires WellTyped(m) && CodecOf(f) == FixedCodec
    ensures SameValue(Normal(f, m), m[f]) <==> Canonical(f, m)
  {
    hide NumBits;
    assert Matches(FixedCodec, m[f]);
    var ids := m[f].ids;
    if NumBits(f, m).Some? {
      ClipIff(ids, NumBits(f, m).value);
    } else {
      NoIds(ids);
    }
  }

  lemma ClipIff(ids: set<nat>, n: nat)
    ensures Clip(ids, n) == ids <==> forall x :: x in ids ==> x <= n
  {
  }

  lemma LangIff(f: Field, m: Model)
    requires WellTyped(m) && CodecOf(f) == LangCodec && EncodeField(f, m).Ok?
    ensures SameValue(Normal(f, m), m[f]) <==> Canonical(f, m)
  {
    hide EncodeLang;
    assert Matches(LangCodec, m[f]);
    var s := m[f].s;
    LangRoundTrip(s);
    if |s| == 2 && IsUpperLetter(s[0]) && IsUpperLetter(s[1]) {
      UpperOfTwo(s);
      assert s[..2] == s;
    }
    hide Upper;
  }

  lemma {:induction false} FilledIff(entries: seq<Entry>, listed: set<nat>)
    ensures |Filled(entries, listed)| <= |entries|
    ensures Filled(entries, listed) == entries <==>
            forall i :: 0 <= i < |entries| ==>
              entries[i].vendors != {} && Fill(entries[i].vendors, listed) == entries[i].vendors
    decreases |entries|
  {
    hide Fill;
    if |entries| != 0 {
      var first, rest := FilledEntry(entries[0], listed), Filled(entries[1..], listed);
      FilledIff(entries[1..], listed);
      assert Filled(entries, listed) == first + rest;
      if Filled(entries, listed) == entries {
        assert |first| == 1;
        assert first[0] == entries[0] && rest == entries[1..];
        forall i | 0 <= i < |entries|
          ensures entries[i].vendors != {} && Fill(entries[i].vendors, listed) == entries[i].vendors
        {
          if i > 0 {
            assert entries[i] == entries[1..][i - 1];
          }
        }
      }
      if forall i :: 0 <= i < |entries| ==>
                  entries[i].vendors != {} && Fill(entries[i].vendors, listed) == entries[i].vendors {
        assert forall i :: 0 <= i < |entries[1..]| ==> entries[1..][i] == entries[i + 1];
        assert first == [entries[0]] && [entries[0]] + entries[1..] == entries;
      }
    }
  }

  /** A field that can be written comes back unchanged if and only if it is canonical: a date in whole
      tenths of a second, two upper-case letters, ids within the bitfield, and for restrictions every key
      with vendors and nothing bridged between them. */
  lemma ComesBackIff(f: Field, m: Model)
    requires WellTyped(m) && EncodeField(f, m).Ok?
    ensures SameValue(Normal(f, m), m[f]) <==> Canonical(f, m)
  {
    hide EncodeField, Normal, Canonical, WellTyped;
    match CodecOf(f) {
      case FixedCodec => FixedIff(f, m);
      case LangCodec => LangIff(f, m);
      case RestrictionCodec => RestrictionsIff(f, m);
      case _ => OtherIff(f, m);
    }
  }

  lemma RestrictionsIff(f: Field, m: Model)
    requires WellTyped(m) && CodecOf(f) == RestrictionCodec
    ensures SameValue(Normal(f, m), m[f]) <==> Canonical(f, m)
  {
    hide Fill, Filled;
    assert Matches(RestrictionCodec, m[f]);
    FilledIff(m[f].entries, ListedIds(m[f].gvl));
  }

  lemma OtherIff(f: Field, m: Model)
    requires WellTyped(m) && CodecOf(f) !in {FixedCodec, LangCodec, RestrictionCodec}
    ensures SameValue(Normal(f, m), m[f]) <==> Canonical(f, m)
  {
    hide Fill, Filled, NumBits, Clip, Upper;
    assert Matches(CodecOf(f), m[f]);
  }

  lemma NoIds(ids: set<nat>)
    ensures Clip(ids, 0) == ids <==> forall x :: x !in ids || x <= 0
  {
  }
}
