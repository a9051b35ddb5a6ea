/** Publisher restrictions: an insertion-ordered map from (purpose, type) to vendor ids, encoded
    as ranges that may bridge gaps holding no id of the global vendor list (GVL). */
module TcfRestrictions {
  import opened Wrappers
  import opened TcfBits
  import opened TcfVector
  import opened TcfVendors

  const PURPOSE_ID_BITS := 6
  const RESTRICTION_TYPE_BITS := 2
  const NUM_RESTRICTIONS_BITS := 12

  const NOT_ALLOWED := 0
  const REQUIRE_CONSENT := 1
  const REQUIRE_LI := 2

  datatype Restriction = Restriction(purposeId: nat, restrictionType: nat) {
    predicate IsValid() {
      purposeId > 0 && restrictionType <= REQUIRE_LI
    }
  }

  datatype Vendor = Vendor(purposes: set<nat>, legIntPurposes: set<nat>, flexiblePurposes: set<nat>)

  datatype Gvl = Gvl(vendorIds: set<nat>, vendors: map<nat, Vendor>)

  /** One key of the map with its vendors */
  datatype Entry = Entry(key: Restriction, vendors: set<nat>)

  predicate IsOkToHave(gvl: Option<Gvl>, restriction: Restriction, vendorId: nat)
  {
    match gvl
    case None => true
    case Some(list) =>
      if vendorId !in list.vendors then false
      else
        var vendor, p := list.vendors[vendorId], restriction.purposeId;
        if restriction.restrictionType == NOT_ALLOWED then p in vendor.legIntPurposes || p in vendor.purposes
        else if vendor.flexiblePurposes == {} then false
        else if restriction.restrictionType == REQUIRE_CONSENT then
          p in vendor.flexiblePurposes && p in vendor.legIntPurposes
        else if restriction.restrictionType == REQUIRE_LI then
          p in vendor.flexiblePurposes && p in vendor.purposes
        else true
  }

  /** What a vendor must have declared for its purpose to be restricted so: anything at all to be forbidden
      it; the other legal basis, and that it is flexible, to be moved to a basis. */
  predicate MayRestrict(vendor: Vendor, key: Restriction)
  {
    var byConsent, byInterest := key.purposeId in vendor.purposes, key.purposeId in vendor.legIntPurposes;
    var flexible := key.purposeId in vendor.flexiblePurposes;
    || (key.restrictionType == 0 && (byConsent || byInterest))
    || (key.restrictionType == 1 && flexible && byInterest)
    || (key.restrictionType == 2 && flexible && byConsent)
  }

  lemma OkToHaveIff(gvl: Option<Gvl>, key: Restriction, vendorId: nat)
    requires key.IsValid()
    ensures IsOkToHave(gvl, key, vendorId) <==>
            gvl.Some? ==> vendorId in gvl.value.vendors && MayRestrict(gvl.value.vendors[vendorId], key)
  {
  }

  // ---------- The map as a value ----------

  ghost predicate DistinctKeys(entries: seq<Entry>)
  {
    forall i, j :: 0 <= i < j < |entries| ==> entries[i].key != entries[j].key
  }

  /** The vendors of a key; a missing key and an empty set mean the same. */
  ghost function VendorsOf(entries: seq<Entry>, key: Restriction): set<nat>
  {
    set i, v | 0 <= i < |entries| && entries[i].key == key && v in entries[i].vendors :: v
  }

  ghost predicate HasKey(entries: seq<Entry>, key: Restriction)
  {
    exists i :: 0 <= i < |entries| && entries[i].key == key
  }

  function IndexOf(entries: seq<Entry>, key: Restriction): (i: nat)
    ensures i <= |entries|
    ensures i < |entries| ==> entries[i].key == key
    ensures forall j :: 0 <= j < i ==> entries[j].key != key
  {
    if |entries| == 0 then 0
    else
      var n := |entries| - 1;
      var i := IndexOf(entries[..n], key);
      if i < n || entries[n].key == key then i else n + 1
  }

  function AddAll(entries: seq<Entry>, key: Restriction, ids: set<nat>): seq<Entry>
  {
    var i := IndexOf(entries, key);
    if i < |entries| then entries[i := Entry(key, entries[i].vendors + ids)] else entries + [Entry(key, ids)]
  }

  function EntriesOf(keys: seq<Restriction>, vendors: map<Restriction, set<nat>>): (entries: seq<Entry>)
    requires forall k :: k in keys ==> k in vendors
    ensures |entries| == |keys|
    ensures forall i :: 0 <= i < |keys| ==> entries[i] == Entry(keys[i], vendors[keys[i]])
  {
    seq(|keys|, i requires 0 <= i < |keys| => Entry(keys[i], vendors[keys[i]]))
  }

  lemma AddToMap(keys: seq<Restriction>, vendors: map<Restriction, set<nat>>, key: Restriction, id: nat)
    requires forall i, j :: 0 <= i < j < |keys| ==> keys[i] != keys[j]
    requires forall k :: k in keys <==> k in vendors
    ensures var keys' := if key in vendors then keys else keys + [key];
            var old_ := if key in vendors then vendors[key] else {};
            EntriesOf(keys', vendors[key := old_ + {id}]) == AddAll(EntriesOf(keys, vendors), key, {id})
  {
    var before := EntriesOf(keys, vendors);
    var i := IndexOf(before, key);
    assert i < |before| ==> keys[i] == key;
    assert i == |before| ==> forall j :: 0 <= j < |before| ==> keys[j] == before[j].key;
    assert key in vendors <==> i < |before|;
    if key !in vendors {
      assert {} + {id} == {id};
    }
  }

  /** Adding an id changes the vendors of its key by that id, and no others. */
  lemma AddAllAdds(entries: seq<Entry>, key: Restriction, id: nat)
    ensures forall k, v :: v in VendorsOf(AddAll(entries, key, {id}), k) <==>
              v in VendorsOf(entries, k) || (k == key && v == id)
  {
    var more, n := AddAll(entries, key, {id}), IndexOf(entries, key);
    forall k, v
      ensures v in VendorsOf(more, k) <==> v in VendorsOf(entries, k) || (k == key && v == id)
    {
      if v in VendorsOf(entries, k) {
        var i :| 0 <= i < |entries| && entries[i].key == k && v in entries[i].vendors;
        assert more[i].key == k && v in more[i].vendors;
      }
      if k == key && v == id {
        assert more[n].key == k && v in more[n].vendors;
      }
    }
  }

  class PurposeRestrictionVector {
    var bitLength: nat
    var keys: seq<Restriction>
    var vendors: map<Restriction, set<nat>>
    var gvl: Option<Gvl>

    ghost predicate Valid()
      reads this
    {
      && (forall i, j :: 0 <= i < j < |keys| ==> keys[i] != keys[j])
      && (forall k :: k in keys <==> k in vendors)
      && (forall k :: k in keys ==> k.IsValid())
    }

    ghost function Contents(): (entries: seq<Entry>)
      requires Valid()
      reads this
      ensures DistinctKeys(entries) && |entries| == |keys|
    {
      EntriesOf(keys, vendors)
    }

    constructor ()
      ensures Valid() && Contents() == [] && gvl == None && bitLength == 0
    {
      bitLength, keys, vendors, gvl := 0, [], map[], None;
    }

    method Add(vendorId: nat, restriction: Restriction) returns (r: Result<(), CodecError>)
      requires Valid()
      modifies `bitLength, `keys, `vendors
      ensures Valid()
      ensures !IsOkToHave(gvl, restriction, vendorId) ==> r == Ok(()) && Contents() == old(Contents())
      ensures IsOkToHave(gvl, restriction, vendorId) && !restriction.IsValid() ==>
                r == Err(ModelError) && Contents() == old(Contents())
      ensures IsOkToHave(gvl, restriction, vendorId) && restriction.IsValid() ==>
                r == Ok(()) && Contents() == AddAll(old(Contents()), restriction, {vendorId})
      ensures var isNewKey := IsOkToHave(gvl, restriction, vendorId) && restriction.IsValid()
                              && restriction !in old(vendors);
              bitLength == if isNewKey then 0 else old(bitLength)
      ensures forall k, v :: v in VendorsOf(Contents(), k) <==>
                || v in VendorsOf(old(Contents()), k)
                || (k == restriction && v == vendorId && 1 <= k.purposeId && k.restrictionType <= 2
                    && (gvl.Some? ==> v in gvl.value.vendors && MayRestrict(gvl.value.vendors[v], k)))
    {
      ghost var before := Contents();
      AddAllAdds(before, restriction, vendorId);
      if restriction.IsValid() {
        OkToHaveIff(gvl, restriction, vendorId);
      }
      if IsOkToHave(gvl, restriction, vendorId) {
        if !restriction.IsValid() {
          return Err(ModelError);
        }
        AddToMap(keys, vendors, restriction, vendorId);
        if restriction !in vendors {
          keys := keys + [restriction];
          vendors := vendors[restriction := {}];
          bitLength := 0;
        }
        vendors := vendors[restriction := vendors[restriction] + {vendorId}];
      }
      return Ok(());
    }

    method GetVendors(restriction: Restriction) returns (ids: seq<nat>)
      requires Valid()
      ensures ids == SortedIds(if restriction in vendors then vendors[restriction] else {})
    {
      ids := [];
      if restriction in vendors {
        var rest := vendors[restriction];
        assert SortedIds(rest) == SortedIds(rest) + [];
        while rest != {}
          invariant SortedIds(vendors[restriction]) == SortedIds(rest) + ids
          decreases rest
        {
          assert MaxId(rest) in rest;
          var x :| x in rest && forall y :: y in rest ==> y <= x;
          ids := [x] + ids;
          rest := rest - {x};
        }
      }
    }
  }

  // ---------- Sorted ids ----------

  function SortedIds(ids: set<nat>): seq<nat>
  {
    if ids == {} then [] else SortedIds(ids - {MaxId(ids)}) + [MaxId(ids)]
  }

  ghost predicate Increasing(s: seq<nat>)
  {
    forall i, j :: 0 <= i < j < |s| ==> s[i] < s[j]
  }

  lemma {:induction false} SortedIdsSpec(ids: set<nat>)
    ensures Increasing(SortedIds(ids))
    ensures forall x :: x in SortedIds(ids) <==> x in ids
  {
    hide MaxId;
    if ids != {} {
      var m, rest := MaxId(ids), ids - {MaxId(ids)};
      SortedIdsSpec(rest);
      AppendLargest(SortedIds(rest), m);
      assert forall x :: x in ids <==> x in rest || x == m;
    }
  }

  lemma AppendLargest(s: seq<nat>, m: nat)
    requires Increasing(s) && forall x :: x in s ==> x < m
    ensures Increasing(s + [m])
    ensures forall x :: x in s + [m] <==> x in s || x == m
  {
    assert forall i :: 0 <= i < |s| ==> s[i] in s;
  }

  // ---------- Bridged ranges ----------

  /** The first id after s and up to r that the GVL lists, or s when there is none */
  function NextListed(listed: set<nat>, s: nat, r: nat): (o: nat)
    ensures o != s ==> s < o <= r && o in listed
    ensures forall x :: s < x < o ==> x !in listed
    ensures o == s ==> forall x :: s < x <= r ==> x !in listed
  {
    FirstListed(listed, s + 1, r, s)
  }

  function FirstListed(listed: set<nat>, from: nat, r: nat, none: nat): (o: nat)
    requires none < from
    ensures o != none ==> from <= o <= r && o in listed
    ensures forall x :: from <= x < o ==> x !in listed
    ensures o == none ==> forall x :: from <= x <= r ==> x !in listed
    decreases r + 1 - from
  {
    if from > r then none else if from in listed then from else FirstListed(listed, from + 1, r, none)
  }

  method FindNextListed(listed: set<nat>, s: nat, r: nat) returns (o: nat)
    ensures o == NextListed(listed, s, r)
  {
    o := s + 1;
    while o <= r
      invariant s < o && NextListed(listed, s, r) == FirstListed(listed, o, r, s)
    {
      if o in listed {
        return;
      }
      o := o + 1;
    }
    return s;
  }

  /** Whether the range that holds the p-th vendor ends there */
  predicate Closes(vs: seq<nat>, listed: set<nat>, p: nat)
    requires p < |vs|
  {
    p == |vs| - 1 || vs[p + 1] > NextListed(listed, vs[p], vs[|vs| - 1])
  }

  function SpanStart(vs: seq<nat>, listed: set<nat>, p: nat): nat
    requires p < |vs|
  {
    if p == 0 || Closes(vs, listed, p - 1) then vs[p] else SpanStart(vs, listed, p - 1)
  }

  /** The ranges that end among the first n vendors */
  function Spans(vs: seq<nat>, listed: set<nat>, n: nat): seq<Run>
    requires n <= |vs|
  {
    if n == 0 then []
    else if Closes(vs, listed, n - 1) then Spans(vs, listed, n - 1) + [Run(SpanStart(vs, listed, n - 1), vs[n - 1])]
    else Spans(vs, listed, n - 1)
  }

  function AllSpans(vendors: set<nat>, listed: set<nat>): seq<Run>
  {
    var vs := SortedIds(vendors);
    Spans(vs, listed, |vs|)
  }

  /** What a decoder sees: the vendors with the bridged gaps filled in */
  function Fill(vendors: set<nat>, listed: set<nat>): set<nat>
  {
    RunsIds(AllSpans(vendors, listed))
  }

  // ---------- What is encoded ----------

  function ListedIds(gvl: Option<Gvl>): set<nat>
  {
    if gvl.Some? then gvl.value.vendorIds else {}
  }

  function EncodeEntry(entry: Entry, gvl: Option<Gvl>): Result<Bits, CodecError>
  {
    var purposeId :- EncodeInt(entry.key.purposeId, PURPOSE_ID_BITS);
    var restrictionType :- EncodeInt(entry.key.restrictionType, RESTRICTION_TYPE_BITS);
    if |SortedIds(entry.vendors)| >= 2 && gvl.None? then Err(TypeError)
    else
      var spans := AllSpans(entry.vendors, ListedIds(gvl));
      var body :- EncodeRuns(spans);
      var count :- EncodeInt(|spans|, NUM_ENTRIES_BITS);
      Ok(purposeId + restrictionType + count + body)
  }

  function EncodeEntries(entries: seq<Entry>, gvl: Option<Gvl>): Result<Bits, CodecError>
  {
    if |entries| == 0 then Ok([])
    else
      var first :- EncodeEntry(entries[0], gvl);
      var rest :- EncodeEntries(entries[1..], gvl);
      Ok(first + rest)
  }

  function EncodeRestrictions(entries: seq<Entry>, gvl: Option<Gvl>): Result<Bits, CodecError>
  {
    var count :- EncodeInt(|entries|, NUM_RESTRICTIONS_BITS);
    var body :- EncodeEntries(entries, gvl);
    Ok(count + body)
  }

  // ---------- The encoder ----------

  lemma EncodeRunsSnoc(runs: seq<Run>, last: Run)
    ensures EncodeRuns(runs + [last]) ==
            match EncodeRuns(runs)
            case Err(e) => Err(e)
            case Ok(b) => Prepend(b, EncodeRun(last))
    decreases |runs|
  {
    if |runs| == 0 {
      assert (runs + [last])[1..] == [];
      if EncodeRun(last).Ok? {
        assert EncodeRun(last).value + [] == [] + EncodeRun(last).value;
      }
    } else {
      assert (runs + [last])[1..] == runs[1..] + [last];
      EncodeRunsSnoc(runs[1..], last);
      if EncodeRun(runs[0]).Ok? && EncodeRuns(runs[1..]).Ok? && EncodeRun(last).Ok? {
        var a, b, c := EncodeRun(runs[0]).value, EncodeRuns(runs[1..]).value, EncodeRun(last).value;
        assert a + (b + c) == (a + b) + c;
      }
    }
  }

  lemma SpansPrefixError(vs: seq<nat>, listed: set<nat>, n: nat)
    requires n <= |vs| && EncodeRuns(Spans(vs, listed, n)).Err?
    ensures EncodeRuns(Spans(vs, listed, |vs|)) == EncodeRuns(Spans(vs, listed, n))
    decreases |vs| - n
  {
    if n < |vs| {
      if Closes(vs, listed, n) {
        EncodeRunsSnoc(Spans(vs, listed, n), Run(SpanStart(vs, listed, n), vs[n]));
      }
      SpansPrefixError(vs, listed, n + 1);
    }
  }

  lemma NoSpans()
    ensures EncodeRuns([]) == Ok([])
  {
  }

  /** The loop over the sorted vendors of one restriction; an open range has a nonzero start. */
  method EncodeSpans(vs: seq<nat>, gvl: Option<Gvl>) returns (r: Result<(nat, Bits), CodecError>)
    requires forall i :: 0 <= i < |vs| ==> vs[i] > 0
    ensures r == if |vs| >= 2 && gvl.None? then Err(TypeError)
                 else
                   var spans := Spans(vs, ListedIds(gvl), |vs|);
                   match EncodeRuns(spans)
                   case Ok(b) => Ok((|spans|, b))
                   case Err(e) => Err(e)
  {
    hide EncodeRun, EncodeRuns, NextListed;
    ghost var listed := ListedIds(gvl);
    var count: nat, start: nat, b: Bits := 0, 0, [];
    var p := 0;
    assert EncodeRuns(Spans(vs, listed, 0)) == Ok(b) by {
      NoSpans();
    }
    while p < |vs|
      invariant 0 <= p <= |vs|
      invariant p > 0 && |vs| >= 2 ==> gvl.Some?
      invariant EncodeRuns(Spans(vs, listed, p)) == Ok(b)
      invariant start == if p == 0 || Closes(vs, listed, p - 1) then 0 else SpanStart(vs, listed, p - 1)
      invariant count == |Spans(vs, listed, p)| + if start == 0 then 0 else 1
      invariant p > 0 ==> SpanStart(vs, listed, p - 1) > 0
    {
      var d := vs[p];
      if start == 0 {
        count := count + 1;
        start := d;
      }
      var closes := p == |vs| - 1;
      if !closes {
        if gvl.None? {
          return Err(TypeError);
        }
        var next := FindNextListed(gvl.value.vendorIds, d, vs[|vs| - 1]);
        closes := vs[p + 1] > next;
      }
      if closes {
        EncodeRunsSnoc(Spans(vs, listed, p), Run(start, d));
        var code := EncodeRun(Run(start, d));
        if code.Err? {
          SpansPrefixError(vs, listed, p + 1);
          return Err(code.error);
        }
        b := b + code.value;
        start := 0;
      }
      p := p + 1;
    }
    return Ok((count, b));
  }

  ghost predicate AllPositive(entries: seq<Entry>)
  {
    forall i :: 0 <= i < |entries| ==> Positive(entries[i].vendors)
  }

  lemma PrependRestriction(done: Bits, entries: seq<Entry>, j: nat, gvl: Option<Gvl>)
    requires j < |entries|
    ensures Prepend(done, EncodeEntries(entries[j..], gvl)) ==
            match EncodeEntry(entries[j], gvl)
            case Ok(code) => Prepend(done + code, EncodeEntries(entries[j + 1..], gvl))
            case Err(e) => Err(e)
  {
    hide EncodeEntry;
    assert entries[j..][0] == entries[j] && entries[j..][1..] == entries[j + 1..];
    if EncodeEntry(entries[j], gvl).Ok? && EncodeEntries(entries[j + 1..], gvl).Ok? {
      var code, rest := EncodeEntry(entries[j], gvl).value, EncodeEntries(entries[j + 1..], gvl).value;
      assert done + (code + rest) == (done + code) + rest;
    }
  }

  /** The callback of the encoder's loop over the keys */
  method EncodeRestriction(v: PurposeRestrictionVector, j: nat) returns (r: Result<Bits, CodecError>)
    requires v.Valid() && AllPositive(v.Contents()) && j < |v.keys|
    ensures r == EncodeEntry(v.Contents()[j], v.gvl)
  {
    hide Spans, SortedIds, EncodeRuns, EncodeInt, MaxId, ListedIds;
    var key := v.keys[j];
    assert v.Contents()[j] == Entry(key, v.vendors[key]);
    var purposeId :- EncodeInt(key.purposeId, PURPOSE_ID_BITS);
    var restrictionType :- EncodeInt(key.restrictionType, RESTRICTION_TYPE_BITS);
    var vs := v.GetVendors(key);
    SortedIdsSpec(v.vendors[key]);
    assert forall i :: 0 <= i < |vs| ==> vs[i] in vs;
    var spans :- EncodeSpans(vs, v.gvl);
    var numEntries :- EncodeInt(spans.0, NUM_ENTRIES_BITS);
    return Ok(purposeId + restrictionType + numEntries + spans.1);
  }

  method EncodeRestrictionVector(v: PurposeRestrictionVector) returns (r: Result<Bits, CodecError>)
    requires v.Valid() && AllPositive(v.Contents())
    ensures r == EncodeRestrictions(v.Contents(), v.gvl)
  {
    hide EncodeEntry, EncodeInt, EntriesOf;
    var count :- EncodeInt(|v.keys|, NUM_RESTRICTIONS_BITS);
    var b, j := count, 0;
    ghost var entries := v.Contents();
    assert entries[0..] == entries;
    assert Prepend(count, EncodeEntries(entries, v.gvl)) == EncodeRestrictions(entries, v.gvl);
    while j < |v.keys|
      invariant 0 <= j <= |v.keys|
      invariant Prepend(b, EncodeEntries(entries[j..], v.gvl)) == EncodeRestrictions(entries, v.gvl)
    {
      PrependRestriction(b, entries, j, v.gvl);
      var code :- EncodeRestriction(v, j);
      b := b + code;
      j := j + 1;
    }
    assert b + [] == b;
    return Ok(b);
  }

  // ---------- The decoder ----------

  function ReadSpans(e: Bits, at: nat, n: nat, key: Restriction, entries: seq<Entry>)
    : Result<(seq<Entry>, nat), CodecError>
    decreases n
  {
    if n == 0 then Ok((entries, at))
    else
      var (run, next) :- ReadRun(e, at);
      if run.hi < run.lo then Err(DecodingError)
      else if !key.IsValid() then Err(ModelError)
      else ReadSpans(e, next, n - 1, key, AddAll(entries, key, RunIds(run)))
  }

  function ReadKey(e: Bits, at: nat): Result<(Restriction, nat), CodecError>
  {
    var purposeId :- ReadInt(e, at, PURPOSE_ID_BITS);
    var restrictionType :- ReadInt(e, at + 6, RESTRICTION_TYPE_BITS);
    var count :- ReadInt(e, at + 8, NUM_ENTRIES_BITS);
    Ok((Restriction(purposeId, restrictionType), count))
  }

  function ReadEntries(e: Bits, at: nat, n: nat, entries: seq<Entry>): Result<(seq<Entry>, nat), CodecError>
    decreases n
  {
    if n == 0 then Ok((entries, at))
    else
      var (key, count) :- ReadKey(e, at);
      var (more, next) :- ReadSpans(e, at + 20, count, key, entries);
      ReadEntries(e, next, n - 1, more)
  }

  function DecodeRestrictions(e: Bits): Result<(seq<Entry>, nat), CodecError>
  {
    var n :- ReadInt(e, 0, NUM_RESTRICTIONS_BITS);
    ReadEntries(e, NUM_RESTRICTIONS_BITS, n, [])
  }

  lemma AddAllTwice(entries: seq<Entry>, key: Restriction, a: set<nat>, b: set<nat>)
    ensures AddAll(AddAll(entries, key, a), key, b) == AddAll(entries, key, a + b)
  {
    var i := IndexOf(entries, key);
    var once := AddAll(entries, key, a);
    assert IndexOf(once, key) == i by {
      assert once[i].key == key;
      assert forall j :: 0 <= j < i ==> once[j].key != key;
    }
    if i < |entries| {
      assert entries[i].vendors + a + b == entries[i].vendors + (a + b);
    }
  }

  /** Adds the ids lo..hi one by one, as the decoder does for each entry. */
  method AddRun(v: PurposeRestrictionVector, run: Run, key: Restriction) returns (r: Result<(), CodecError>)
    requires v.Valid() && v.gvl == None && run.lo <= run.hi
    modifies v`bitLength, v`keys, v`vendors
    ensures v.Valid()
    ensures !key.IsValid() ==> r == Err(ModelError)
    ensures key.IsValid() ==> r == Ok(()) && v.Contents() == AddAll(old(v.Contents()), key, RunIds(run))
  {
    hide AddAll;
    ghost var before := v.Contents();
    var _ :- v.Add(run.lo, key);
    var m := run.lo + 1;
    assert Interval(run.lo, run.lo) == {run.lo};
    while m <= run.hi
      invariant v.Valid() && run.lo < m <= run.hi + 1
      invariant v.Contents() == AddAll(before, key, Interval(run.lo, m - 1))
    {
      AddAllTwice(before, key, Interval(run.lo, m - 1), {m});
      var added := v.Add(m, key);
      assert added.Ok?;
      m := m + 1;
    }
    return Ok(());
  }

  method DecodeSpans(e: Bits, at: nat, n: nat, key: Restriction, v: PurposeRestrictionVector)
    returns (r: Result<nat, CodecError>)
    requires v.Valid() && v.gvl == None
    modifies v`bitLength, v`keys, v`vendors
    ensures v.Valid()
    ensures match ReadSpans(e, at, n, key, old(v.Contents()))
            case Err(err) => r == Err(err)
            case Ok((entries, end)) => r == Ok(end) && v.Contents() == entries
  {
    hide AddAll, Number, Interval, RunIds, MaxId;
    ghost var before := v.Contents();
    var s: nat, p: nat := at, 0;
    while p < n
      invariant 0 <= p <= n && v.Valid()
      invariant ReadSpans(e, at, n, key, before) == ReadSpans(e, s, n - p, key, v.Contents())
    {
      ghost var from := s;
      var range := ReadBool(e, s);
      s := s + 1;
      var lo :- ReadInt(e, s, VENDOR_ID_BITS);
      s := s + VENDOR_ID_BITS;
      var hi := lo;
      if range {
        hi :- ReadInt(e, s, VENDOR_ID_BITS);
        s := s + VENDOR_ID_BITS;
      }
      assert ReadRun(e, from) == Ok((Run(lo, hi), s));
      if hi < lo {
        return Err(DecodingError);
      }
      var _ :- AddRun(v, Run(lo, hi), key);
      p := p + 1;
    }
    return Ok(s);
  }

  method DecodeRestrictionVector(e: Bits) returns (r: Result<PurposeRestrictionVector, CodecError>)
    ensures match DecodeRestrictions(e)
            case Err(err) => r == Err(err)
            case Ok((entries, end)) =>
              && r.Ok? && fresh(r.value) && r.value.Valid() && r.value.gvl == None
              && r.value.Contents() == entries && r.value.bitLength == end
  {
    var v := new PurposeRestrictionVector();
    var n :- ReadInt(e, 0, NUM_RESTRICTIONS_BITS);
    var t, i := NUM_RESTRICTIONS_BITS, 0;
    while i < n
      invariant 0 <= i <= n && t >= 0 && fresh(v) && v.Valid() && v.gvl == None
      invariant DecodeRestrictions(e) == ReadEntries(e, t, n - i, v.Contents())
    {
      var purposeId :- ReadInt(e, t, PURPOSE_ID_BITS);
      var restrictionType :- ReadInt(e, t + 6, RESTRICTION_TYPE_BITS);
      var count :- ReadInt(e, t + 8, NUM_ENTRIES_BITS);
      t :- DecodeSpans(e, t + 20, count, Restriction(purposeId, restrictionType), v);
      i := i + 1;
    }
    v.bitLength := t;
    return Ok(v);
  }
}
