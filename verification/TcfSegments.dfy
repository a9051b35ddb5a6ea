/** Segments and the whole consent string: field tables, field and segment encoders, dispatch. */
module TcfSegments {
  import opened Wrappers
  import opened TcfBits
  import opened TcfVector
  import opened TcfVendors
  import opened TcfRestrictions
  import opened TcfBase64
  import opened Strings

  datatype Field =
    | Version | Created | LastUpdated | CmpId | CmpVersion | ConsentScreen | ConsentLanguage
    | VendorListVersion | PolicyVersion | IsServiceSpecific | UseNonStandardTexts
    | SpecialFeatureOptins | PurposeConsents | PurposeLegitimateInterests | PurposeOneTreatment
    | PublisherCountryCode | VendorConsents | VendorLegitimateInterests | PublisherRestrictions
    | VendorsDisclosed | VendorsAllowed
    | PublisherConsents | PublisherLegitimateInterests | NumCustomPurposes
    | PublisherCustomConsents | PublisherCustomLegitimateInterests

  datatype Segment = Core | Disclosed | Allowed | PublisherTc

  datatype Codec = IntCodec | BoolCodec | DateCodec | LangCodec | FixedCodec | VendorCodec | RestrictionCodec

  /** The value of a model field; an id vector is the set of its ids. */
  datatype Value =
    | IntV(n: int)
    | BoolV(b: bool)
    | DateV(ms: int)
    | LangV(s: string)
    | VectorV(ids: set<nat>)
    | RestrictionsV(entries: seq<Entry>, gvl: Option<Gvl>)

  type Model = map<Field, Value>

  // ---------- The tables ----------

  function CodecOf(f: Field): Codec
  {
    match f
    case Created | LastUpdated => DateCodec
    case ConsentLanguage | PublisherCountryCode => LangCodec
    case IsServiceSpecific | UseNonStandardTexts | PurposeOneTreatment => BoolCodec
    case SpecialFeatureOptins | PurposeConsents | PurposeLegitimateInterests | PublisherConsents
       | PublisherLegitimateInterests | PublisherCustomConsents | PublisherCustomLegitimateInterests => FixedCodec
    case VendorConsents | VendorLegitimateInterests | VendorsDisclosed | VendorsAllowed => VendorCodec
    case PublisherRestrictions => RestrictionCodec
    case _ => IntCodec
  }

  /** The bit length table; the fields without an entry have a variable length. */
  function TableWidth(f: Field): (w: Option<nat>)
    ensures w.Some? ==> w.value >= 1
    ensures CodecOf(f) in {IntCodec, BoolCodec, DateCodec, LangCodec} ==> w.Some?
    ensures CodecOf(f) in {VendorCodec, RestrictionCodec} ==> w.None?
    ensures CodecOf(f) == LangCodec ==> w == Some(12)
    ensures CodecOf(f) == BoolCodec ==> w == Some(1)
  {
    match f
    case CmpId | CmpVersion | ConsentLanguage | VendorListVersion | PublisherCountryCode | SpecialFeatureOptins =>
        Some(12)
    case Version | ConsentScreen | PolicyVersion | NumCustomPurposes => Some(6)
    case Created | LastUpdated => Some(36)
    case IsServiceSpecific | UseNonStandardTexts | PurposeOneTreatment => Some(1)
    case PurposeConsents | PurposeLegitimateInterests | PublisherConsents | PublisherLegitimateInterests => Some(24)
    case _ => None
  }

  predicate IsPublisherCustom(f: Field)
  {
    f == PublisherCustomConsents || f == PublisherCustomLegitimateInterests
  }

  function FieldSequence(version: int, segment: Segment): Option<seq<Field>>
  {
    if version == 1 && segment == Core then
      Some([Version, Created, LastUpdated, CmpId, CmpVersion, ConsentScreen, ConsentLanguage, VendorListVersion,
            PurposeConsents, VendorConsents])
    else if version != 2 then None
    else
      match segment
      case Core => Some(
        [Version, Created, LastUpdated, CmpId, CmpVersion, ConsentScreen, ConsentLanguage, VendorListVersion,
         PolicyVersion, IsServiceSpecific, UseNonStandardTexts, SpecialFeatureOptins, PurposeConsents,
         PurposeLegitimateInterests, PurposeOneTreatment, PublisherCountryCode, VendorConsents,
         VendorLegitimateInterests, PublisherRestrictions])
      case Disclosed => Some([VendorsDisclosed])
      case Allowed => Some([VendorsAllowed])
      case PublisherTc => Some(
        [PublisherConsents, PublisherLegitimateInterests, NumCustomPurposes, PublisherCustomConsents,
         PublisherCustomLegitimateInterests])
  }

  function KeyToId(segment: Segment): (id: nat)
    ensures id < 4
  {
    match segment case Core => 0 case Disclosed => 1 case Allowed => 2 case PublisherTc => 3
  }

  function IdToKey(id: nat): Option<Segment>
  {
    if id == 0 then Some(Core) else if id == 1 then Some(Disclosed) else if id == 2 then Some(Allowed)
    else if id == 3 then Some(PublisherTc) else None
  }

  // ---------- Models ----------

  ghost predicate Matches(codec: Codec, v: Value)
  {
    match codec
    case IntCodec => v.IntV?
    case BoolCodec => v.BoolV?
    case DateCodec => v.DateV?
    case LangCodec => v.LangV?
    case FixedCodec | VendorCodec => v.VectorV? && Positive(v.ids)
    case RestrictionCodec =>
      && v.RestrictionsV? && DistinctKeys(v.entries)
      && forall i :: 0 <= i < |v.entries| ==> v.entries[i].key.IsValid()
  }

  ghost predicate WellTyped(m: Model)
  {
    forall f: Field :: f in m && Matches(CodecOf(f), m[f])
  }

  /** The number of bits a field is given; a variable-length field gets the rest of the string. */
  function NumBits(f: Field, m: Model): Option<nat>
    requires WellTyped(m)
  {
    if IsPublisherCustom(f) then
      var n := m[NumCustomPurposes].n;
      Some(if n < 0 then 0 else n)
    else TableWidth(f)
  }

  // ---------- Encoding ----------

  function EncodeField(f: Field, m: Model): Result<Bits, CodecError>
    requires WellTyped(m)
  {
    var v, w := m[f], NumBits(f, m);
    match CodecOf(f)
    case IntCodec => EncodeInt(v.n, w.value)
    case BoolCodec => Ok(EncodeBool(v.b))
    case DateCodec => EncodeDate(v.ms, w.value)
    case LangCodec => EncodeLang(v.s, w.value)
    case FixedCodec => Ok(Bitfield(v.ids, w.value))
    case VendorCodec => EncodeVendors(v.ids, MaxId(v.ids))
    case RestrictionCodec => EncodeRestrictions(v.entries, v.gvl)
  }

  function EncodeFields(fs: seq<Field>, m: Model): Result<Bits, CodecError>
    requires WellTyped(m)
  {
    if |fs| == 0 then Ok([])
    else
      var first :- EncodeField(fs[0], m);
      var rest :- EncodeFields(fs[1..], m);
      Ok(first + rest)
  }

  function EncodeSegmentBits(m: Model, segment: Segment): Result<Bits, CodecError>
    requires WellTyped(m)
  {
    match FieldSequence(m[Version].n, segment)
    case None => Err(EncodingError)
    case Some(fs) =>
      var prefix :- if segment == Core then Ok([]) else EncodeInt(KeyToId(segment), 3);
      var body :- EncodeFields(fs, m);
      Ok(prefix + body)
  }

  function EncodeSegment(m: Model, segment: Segment): Result<string, CodecError>
    requires WellTyped(m)
  {
    var b :- EncodeSegmentBits(m, segment);
    EncodeBase64(b)
  }

  function EncodeSegments(m: Model, segments: seq<Segment>): Result<seq<string>, CodecError>
    requires WellTyped(m)
  {
    if |segments| == 0 then Ok([])
    else
      var first :- EncodeSegment(m, segments[0]);
      var rest :- EncodeSegments(m, segments[1..]);
      Ok([first] + rest)
  }

  function EncodeTcString(m: Model, segments: seq<Segment>): Result<string, CodecError>
    requires WellTyped(m)
  {
    var parts :- EncodeSegments(m, segments);
    Ok(Join(parts, '.'))
  }

  // ---------- Decoding ----------

  /** `s.substr(at, n)`, or the rest of the string without n */
  function Substr(s: Bits, at: nat, n: Option<nat>): Bits
  {
    if at > |s| then []
    else if n.None? || at + n.value > |s| then s[at..]
    else s[at..at + n.value]
  }

  /** The decoded value and the length that a variable-length decoder reports */
  function DecodeField(f: Field, d: Bits, w: Option<nat>, version: int): Result<(Value, nat), CodecError>
    requires CodecOf(f) !in {VendorCodec, RestrictionCodec} ==> w.Some?
    requires CodecOf(f) == LangCodec ==> w == Some(12)
  {
    match CodecOf(f)
    case IntCodec => var n :- DecodeInt(d, w.value); Ok((IntV(n), 0))
    case BoolCodec => Ok((BoolV(DecodeBool(d)), 0))
    case DateCodec => var ms :- DecodeDate(d, w.value); Ok((DateV(ms), 0))
    case LangCodec => var s :- DecodeLang(d, w.value); Ok((LangV(s), 0))
    case FixedCodec => if |d| != w.value then Err(DecodingError) else Ok((VectorV(BitfieldIds(d)), 0))
    case VendorCodec => var (ids, length) :- DecodeVendors(d, version); Ok((VectorV(ids), length))
    case RestrictionCodec => var (entries, length) :- DecodeRestrictions(d); Ok((RestrictionsV(entries, None), length))
  }

  /** The setters of the model: some reject a value, the country code is upper-cased. */
  function Assign(m: Model, f: Field, v: Value): Result<Model, CodecError>
    requires CodecOf(f) == IntCodec ==> v.IntV?
    requires CodecOf(f) == LangCodec ==> v.LangV? && |v.s| == 2
  {
    if f == CmpId && v.n <= 1 then Err(ModelError)
    else if f in {CmpVersion, ConsentScreen, VendorListVersion, PolicyVersion, NumCustomPurposes} && v.n < 0
        then Err(ModelError)
    else if f == PublisherCountryCode then
      if 'A' <= v.s[0] <= 'z' && 'A' <= v.s[1] <= 'z' then Ok(m[f := LangV([UpperChar(v.s[0]), UpperChar(v.s[1])])])
      else Err(ModelError)
    else Ok(m[f := v])
  }

  lemma {:induction false} ReadRunsPositive(e: Bits, at: nat, n: nat)
    ensures ReadRuns(e, at, n).Ok? ==> Positive(ReadRuns(e, at, n).value.0)
    decreases n
  {
    if n != 0 && ReadRun(e, at).Ok? {
      ReadRunsPositive(e, ReadRun(e, at).value.1, n - 1);
    }
  }

  ghost predicate ProperEntries(entries: seq<Entry>)
  {
    DistinctKeys(entries) && forall i :: 0 <= i < |entries| ==> entries[i].key.IsValid()
  }

  lemma {:induction false} ReadSpansKeeps(e: Bits, at: nat, n: nat, key: Restriction, entries: seq<Entry>)
    requires ProperEntries(entries)
    ensures ReadSpans(e, at, n, key, entries).Ok? ==> ProperEntries(ReadSpans(e, at, n, key, entries).value.0)
    decreases n
  {
    if n != 0 && ReadRun(e, at).Ok? && key.IsValid() {
      var (run, next) := ReadRun(e, at).value;
      ReadSpansKeeps(e, next, n - 1, key, AddAll(entries, key, RunIds(run)));
    }
  }

  lemma {:induction false} ReadEntriesKeeps(e: Bits, at: nat, n: nat, entries: seq<Entry>)
    requires ProperEntries(entries)
    ensures ReadEntries(e, at, n, entries).Ok? ==> ProperEntries(ReadEntries(e, at, n, entries).value.0)
    decreases n
  {
    hide ReadSpans, ReadKey;
    if n != 0 && ReadKey(e, at).Ok? {
      var (key, count) := ReadKey(e, at).value;
      ReadSpansKeeps(e, at + 20, count, key, entries);
      var spans := ReadSpans(e, at + 20, count, key, entries);
      if spans.Ok? {
        ReadEntriesKeeps(e, spans.value.1, n - 1, spans.value.0);
      }
    }
  }

  /** Whatever the input, a decoded value has the type of its field. */
  lemma DecodedMatches(f: Field, d: Bits, w: Option<nat>, version: int)
    requires CodecOf(f) !in {VendorCodec, RestrictionCodec} ==> w.Some?
    requires CodecOf(f) == LangCodec ==> w == Some(12)
    ensures DecodeField(f, d, w, version).Ok? ==>
              var v := DecodeField(f, d, w, version).value.0;
              Matches(CodecOf(f), v) && (v.LangV? ==> |v.s| == 2)
  {
    hide ReadEntries, ReadRuns, ReadInt, Number;
    if CodecOf(f) == VendorCodec && ReadInt(d, 0, MAX_ID_BITS).Ok? {
      var at := if version == 1 then 18 else 17;
      var n := ReadInt(d, at, NUM_ENTRIES_BITS);
      if n.Ok? {
        ReadRunsPositive(d, at + NUM_ENTRIES_BITS, n.value);
      }
    } else if CodecOf(f) == RestrictionCodec && ReadInt(d, 0, NUM_RESTRICTIONS_BITS).Ok? {
      ReadEntriesKeeps(d, NUM_RESTRICTIONS_BITS, ReadInt(d, 0, NUM_RESTRICTIONS_BITS).value, []);
    }
  }

  function DecodeAndAssign(f: Field, s: Bits, at: nat, m: Model): (r: Result<(Model, nat), CodecError>)
    requires WellTyped(m)
    ensures r.Ok? ==> WellTyped(r.value.0)
  {
    var w := NumBits(f, m);
    if w == Some(0) then Ok((m, at))
    else
      var (v, length) :- DecodeField(f, Substr(s, at, w), w, m[Version].n);
      DecodedMatches(f, Substr(s, at, w), w, m[Version].n);
      var m' :- Assign(m, f, v);
      Ok((m', at + if w.Some? then w.value else length))
  }

  function DecodeFields(fs: seq<Field>, s: Bits, at: nat, m: Model): (r: Result<Model, CodecError>)
    requires WellTyped(m)
    ensures r.Ok? ==> WellTyped(r.value)
    decreases |fs|
  {
    if |fs| == 0 then Ok(m)
    else
      var (m', next) :- DecodeAndAssign(fs[0], s, at, m);
      DecodeFields(fs[1..], s, next, m')
  }

  function DecodeSegment(e: string, m: Model, segment: Option<Segment>): (r: Result<Model, CodecError>)
    requires WellTyped(m)
    ensures r.Ok? ==> WellTyped(r.value)
  {
    var s :- DecodeBase64(e);
    if segment == None then Err(TypeError)
    else
      var version :- if segment == Some(Core) then ReadInt(s, 0, 6) else Ok(m[Version].n);
      match FieldSequence(version, segment.value)
      case None => Err(TypeError)
      case Some(fs) => DecodeFields(fs, s, if segment == Some(Core) then 0 else 3, m[Version := IntV(version)])
  }

  /** The segment type is in the first three bits of the first character. */
  function Dispatch(e: string): Result<Option<Segment>, CodecError>
  {
    var first :- DecodeBase64(if |e| == 0 then e else e[..1]);
    var id :- DecodeInt(first[..3], 3);
    Ok(IdToKey(id))
  }

  function DecodeParts(parts: seq<string>, m: Model): (r: Result<Model, CodecError>)
    requires WellTyped(m)
    ensures r.Ok? ==> WellTyped(r.value)
  {
    if |parts| == 0 then Ok(m)
    else
      var segment :- Dispatch(parts[0]);
      var m' :- DecodeSegment(parts[0], m, segment);
      DecodeParts(parts[1..], m')
  }

  function DecodeTcString(e: string, m: Model): (r: Result<Model, CodecError>)
    requires WellTyped(m)
    ensures r.Ok? ==> WellTyped(r.value)
  {
    DecodeParts(Split(e, '.'), m)
  }

  // ---------- The loops over fields and segments ----------

  /** The consent model: the fields are read and assigned by name. */
  class TcModel {
    var fields: Model

    ghost predicate Valid()
      reads this
    {
      WellTyped(fields)
    }

    constructor (fields: Model)
      requires WellTyped(fields)
      ensures Valid() && this.fields == fields
    {
      this.fields := fields;
    }
  }

  lemma PrependField(done: Bits, fs: seq<Field>, j: nat, m: Model)
    requires WellTyped(m) && j < |fs|
    ensures Prepend(done, EncodeFields(fs[j..], m)) ==
            match EncodeField(fs[j], m)
            case Ok(code) => Prepend(done + code, EncodeFields(fs[j + 1..], m))
            case Err(e) => Err(e)
  {
    hide EncodeField;
    assert fs[j..][0] == fs[j] && fs[j..][1..] == fs[j + 1..];
    if EncodeField(fs[j], m).Ok? && EncodeFields(fs[j + 1..], m).Ok? {
      var code, rest := EncodeField(fs[j], m).value, EncodeFields(fs[j + 1..], m).value;
      assert done + (code + rest) == (done + code) + rest;
    }
  }

  method EncodeTcSegment(e: TcModel, t: Segment) returns (r: Result<string, CodecError>)
    requires e.Valid()
    ensures r == EncodeSegment(e.fields, t)
  {
    hide EncodeField, FieldSequence, EncodeInt, Chars;
    var sequence := FieldSequence(e.fields[Version].n, t);
    if sequence.None? {
      return Err(EncodingError);
    }
    var fs := sequence.value;
    var s: Bits := [];
    if t != Core {
      s :- EncodeInt(KeyToId(t), 3);
    }
    var o := 0;
    assert fs[0..] == fs;
    assert EncodeSegmentBits(e.fields, t) == Prepend(s, EncodeFields(fs, e.fields));
    while o < |fs|
      invariant 0 <= o <= |fs|
      invariant EncodeSegmentBits(e.fields, t) == Prepend(s, EncodeFields(fs[o..], e.fields))
    {
      PrependField(s, fs, o, e.fields);
      var code :- EncodeField(fs[o], e.fields);
      s := s + code;
      o := o + 1;
    }
    assert s + [] == s;
    r := EncodeBase64Url(s);
  }

  method DecodeTcSegment(e: string, t: TcModel, segment: Option<Segment>) returns (r: Result<(), CodecError>)
    requires t.Valid()
    modifies t
    ensures t.Valid()
    ensures match DecodeSegment(e, old(t.fields), segment)
            case Err(err) => r == Err(err)
            case Ok(m) => r == Ok(()) && t.fields == m
  {
    hide DecodeAndAssign, FieldSequence, ReadInt;
    var s :- DecodeBase64Url(e);
    var at: nat := 0;
    if segment == None {
      return Err(TypeError);
    }
    ghost var before := t.fields;
    if segment == Some(Core) {
      var version :- ReadInt(s, at, 6);
      t.fields := t.fields[Version := IntV(version)];
    } else {
      at := at + 3;
      assert before[Version := IntV(before[Version].n)] == before;
    }
    var sequence := FieldSequence(t.fields[Version].n, segment.value);
    if sequence.None? {
      return Err(TypeError);
    }
    var fs, o := sequence.value, 0;
    assert fs[0..] == fs;
    while o < |fs|
      invariant 0 <= o <= |fs| && t.Valid()
      invariant DecodeSegment(e, before, segment) == DecodeFields(fs[o..], s, at, t.fields)
    {
      assert fs[o..][0] == fs[o] && fs[o..][1..] == fs[o + 1..];
      var step :- DecodeAndAssign(fs[o], s, at, t.fields);
      t.fields, at := step.0, step.1;
      o := o + 1;
    }
    return Ok(());
  }

  method DecodeConsentString(e: string, t: TcModel) returns (r: Result<(), CodecError>)
    requires t.Valid()
    modifies t
    ensures t.Valid()
    ensures match DecodeTcString(e, old(t.fields))
            case Err(err) => r == Err(err)
            case Ok(m) => r == Ok(()) && t.fields == m
  {
    hide DecodeSegment, Dispatch, Split;
    var parts, i := Split(e, '.'), 0;
    ghost var before := t.fields;
    assert parts[0..] == parts;
    while i < |parts|
      invariant 0 <= i <= |parts| && t.Valid()
      invariant DecodeTcString(e, before) == DecodeParts(parts[i..], t.fields)
    {
      assert parts[i..][0] == parts[i] && parts[i..][1..] == parts[i + 1..];
      var segment :- Dispatch(parts[i]);
      var _ :- DecodeTcSegment(parts[i], t, segment);
      i := i + 1;
    }
    return Ok(());
  }

  /** The segments that are written when the caller names none; only two versions have any. */
  function SegmentSequence(m: Model, supportOob: bool, isForVendors: bool): Option<seq<Segment>>
    requires WellTyped(m)
  {
    if m[Version].n == 1 then Some([Core])
    else if m[Version].n != 2 then None
    else if m[IsServiceSpecific].b then Some([Core, Disclosed, PublisherTc])
    else
      Some([Core]
           + (if !isForVendors || supportOob then [Disclosed] else [])
           + (if isForVendors then (if supportOob && |m[VendorsAllowed].ids| > 0 then [Allowed] else []) + [PublisherTc]
              else []))
  }

  method EncodeConsentString(e: TcModel, segments: Option<seq<Segment>>, supportOob: bool, isForVendors: bool)
    returns (r: Result<string, CodecError>)
    requires e.Valid()
    ensures var chosen := if segments.Some? then segments else SegmentSequence(e.fields, supportOob, isForVendors);
            r == if chosen.None? then Err(TypeError) else EncodeTcString(e.fields, chosen.value)
  {
    hide EncodeSegment, SegmentSequence, Join, Joined, WellTyped;
    var chosen := if segments.Some? then segments else SegmentSequence(e.fields, supportOob, isForVendors);
    if chosen.None? {
      return Err(TypeError);
    }
    var s := chosen.value;
    var out, o := "", 0;
    ghost var parts: seq<string> := [];
    assert s[0..] == s;
    assert forall rest: seq<string> :: [] + rest == rest;
    assert EncodeSegments(e.fields, s) == WithParts([], EncodeSegments(e.fields, s));
    NothingJoined();
    while o < |s|
      invariant 0 <= o <= |s| && |parts| == o
      invariant out == Joined(parts, o < |s|)
      invariant EncodeSegments(e.fields, s) == WithParts(parts, EncodeSegments(e.fields, s[o..]))
    {
      WithPart(parts, e.fields, s, o);
      var part :- EncodeTcSegment(e, s[o]);
      JoinedSnoc(parts, part, o + 1 < |s|);
      parts := parts + [part];
      out := out + part + (if o < |s| - 1 then "." else "");
      o := o + 1;
    }
    assert parts + [] == parts;
    JoinedAll(parts);
    return Ok(out);
  }

  ghost function WithParts(done: seq<string>, rest: Result<seq<string>, CodecError>): Result<seq<string>, CodecError>
  {
    match rest
    case Ok(parts) => Ok(done + parts)
    case Err(e) => Err(e)
  }

  lemma WithPart(done: seq<string>, m: Model, s: seq<Segment>, o: nat)
    requires WellTyped(m) && o < |s|
    ensures WithParts(done, EncodeSegments(m, s[o..])) ==
            match EncodeSegment(m, s[o])
            case Ok(part) => WithParts(done + [part], EncodeSegments(m, s[o + 1..]))
            case Err(e) => Err(e)
  {
    hide EncodeSegment;
    assert s[o..][0] == s[o] && s[o..][1..] == s[o + 1..];
    if EncodeSegment(m, s[o]).Ok? && EncodeSegments(m, s[o + 1..]).Ok? {
      var part, rest := EncodeSegment(m, s[o]).value, EncodeSegments(m, s[o + 1..]).value;
      assert done + ([part] + rest) == (done + [part]) + rest;
    }
  }

  lemma NothingJoined()
    ensures Joined([], true) == "" && Joined([], false) == ""
  {
  }

  lemma JoinedAll(parts: seq<string>)
    ensures Joined(parts, false) == Join(parts, '.')
  {
  }

  /** The parts joined, with a trailing dot while more follow */
  ghost function Joined(parts: seq<string>, more: bool): string
  {
    Join(parts, '.') + if more && |parts| > 0 then "." else ""
  }

  lemma {:induction false} JoinedSnoc(parts: seq<string>, part: string, more: bool)
    ensures Joined(parts + [part], more) == Joined(parts, true) + part + if more then "." else ""
    decreases |parts|
  {
    if |parts| == 0 {
      assert [] + [part] == [part];
    } else {
      var all := parts + [part];
      var dot := if more then "." else "";
      assert all[1..] == parts[1..] + [part];
      JoinedSnoc(parts[1..], part, more);
      if |parts| == 1 {
        assert parts[1..] == [];
      }
      assert Joined(all, more) == parts[0] + "." + Joined(all[1..], more);
      assert Joined(all, more) == parts[0] + "." + Joined(parts[1..], true) + part + dot;
      assert Joined(parts, true) == parts[0] + "." + Joined(parts[1..], true);
    }
  }
}
