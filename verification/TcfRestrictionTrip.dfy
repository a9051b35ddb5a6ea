/** What survives encoding and decoding publisher restrictions. */
module TcfRestrictionTrip {
  import opened Wrappers
  import opened TcfBits
  import opened TcfVector
  import opened TcfVendors
  import opened TcfRestrictions
  import TcfVendorBound

  // ---------- Bridged ranges against the vendor list ----------

  lemma {:induction false} SpanStartIsVendor(vs: seq<nat>, listed: set<nat>, p: nat)
    requires Increasing(vs) && p < |vs|
    ensures SpanStart(vs, listed, p) in vs && SpanStart(vs, listed, p) <= vs[p]
  {
    if p > 0 && !Closes(vs, listed, p - 1) {
      SpanStartIsVendor(vs, listed, p - 1);
    }
  }

  lemma {:induction false} SpansEnds(vs: seq<nat>, listed: set<nat>, n: nat)
    requires Increasing(vs) && n <= |vs|
    ensures var spans := Spans(vs, listed, n);
            && |spans| <= n
            && forall j :: 0 <= j < |spans| ==> spans[j].lo in vs && spans[j].hi in vs && spans[j].lo <= spans[j].hi
  {
    hide Closes, SpanStart;
    if n != 0 {
      SpansEnds(vs, listed, n - 1);
      SpanStartIsVendor(vs, listed, n - 1);
    }
  }

  /** Everything from lo to hi is a vendor or is not listed by the GVL. */
  ghost predicate Unlisted(vs: seq<nat>, listed: set<nat>, lo: nat, hi: nat)
  {
    forall x :: lo <= x <= hi ==> x in vs || x !in listed
  }

  lemma {:induction false} OpenSpanIsUnlisted(vs: seq<nat>, listed: set<nat>, p: nat)
    requires Increasing(vs) && p < |vs|
    ensures Unlisted(vs, listed, SpanStart(vs, listed, p), vs[p])
  {
    if p > 0 && !Closes(vs, listed, p - 1) {
      OpenSpanIsUnlisted(vs, listed, p - 1);
      NothingListedBetween(vs, listed, p - 1);
    }
  }

  lemma {:induction false} SpansAreUnlisted(vs: seq<nat>, listed: set<nat>, n: nat)
    requires Increasing(vs) && n <= |vs|
    ensures forall run :: run in Spans(vs, listed, n) ==> Unlisted(vs, listed, run.lo, run.hi)
  {
    hide Closes;
    if n != 0 {
      SpansAreUnlisted(vs, listed, n - 1);
      OpenSpanIsUnlisted(vs, listed, n - 1);
    }
  }

  /** Each of the first n vendors is in a completed range or in the open one. */
  lemma {:induction false} SpansCover(vs: seq<nat>, listed: set<nat>, n: nat)
    requires Increasing(vs) && n <= |vs|
    ensures forall i :: 0 <= i < n ==>
              vs[i] in RunsIds(Spans(vs, listed, n)) || (!Closes(vs, listed, n - 1) &&
                  vs[i] >= SpanStart(vs, listed, n - 1))
  {
    hide Closes, RunsIds, Spans;
    if n != 0 {
      SpansCover(vs, listed, n - 1);
      SpanStartIsVendor(vs, listed, n - 1);
      SpansStep(vs, listed, n);
    }
  }

  lemma NothingListedBetween(vs: seq<nat>, listed: set<nat>, p: nat)
    requires Increasing(vs) && p + 1 < |vs| && !Closes(vs, listed, p)
    ensures forall x :: vs[p] < x < vs[p + 1] ==> x !in listed
  {
  }

  lemma SpansStep(vs: seq<nat>, listed: set<nat>, n: nat)
    requires 0 < n <= |vs|
    ensures forall x :: x in RunsIds(Spans(vs, listed, n)) <==>
                        x in RunsIds(Spans(vs, listed, n - 1))
                        || (Closes(vs, listed, n - 1) && SpanStart(vs, listed, n - 1) <= x <= vs[n - 1])
  {
    var before, after := Spans(vs, listed, n - 1), Spans(vs, listed, n);
    if Closes(vs, listed, n - 1) {
      RunsIdsSnoc(before, Run(SpanStart(vs, listed, n - 1), vs[n - 1]));
    }
  }

  lemma RunsIdsSnoc(runs: seq<Run>, run: Run)
    ensures RunsIds(runs + [run]) == RunsIds(runs) + RunIds(run)
  {
    var all := runs + [run];
    forall x | x in RunsIds(all)
      ensures x in RunsIds(runs) + RunIds(run)
    {
      var j :| 0 <= j < |all| && x in RunIds(all[j]);
      if j < |runs| {
        assert all[j] == runs[j];
      }
    }
    forall x | x in RunsIds(runs) + RunIds(run)
      ensures x in RunsIds(all)
    {
      if x in RunIds(run) {
        assert all[|runs|] == run;
      } else {
        var j :| 0 <= j < |runs| && x in RunIds(runs[j]);
        assert all[j] == runs[j];
      }
    }
  }

  lemma LastCloses(vs: seq<nat>, listed: set<nat>)
    ensures |vs| > 0 ==> Closes(vs, listed, |vs| - 1)
  {
  }

  ghost predicate Enclosed(ids: set<nat>, x: nat)
  {
    exists lo, hi :: lo in ids && hi in ids && lo <= x <= hi
  }

  lemma FillKeeps(vendors: set<nat>, listed: set<nat>)
    ensures vendors <= Fill(vendors, listed)
  {
    hide Closes, SpanStart, Spans, SortedIds, MaxId, RunsIds;
    var vs := SortedIds(vendors);
    SortedIdsSpec(vendors);
    SpansCover(vs, listed, |vs|);
    LastCloses(vs, listed);
    forall v | v in vendors
      ensures v in Fill(vendors, listed)
    {
      assert v in vs;
      var i :| 0 <= i < |vs| && vs[i] == v;
    }
  }

  lemma FillAdds(vendors: set<nat>, listed: set<nat>, x: nat)
    requires x in Fill(vendors, listed)
    ensures x in vendors || x !in listed
    ensures Enclosed(vendors, x)
  {
    hide Closes, SpanStart, Spans, SortedIds, MaxId;
    var vs := SortedIds(vendors);
    SortedIdsSpec(vendors);
    SpansEnds(vs, listed, |vs|);
    SpansAreUnlisted(vs, listed, |vs|);
    var spans := AllSpans(vendors, listed);
    var j :| 0 <= j < |spans| && x in RunIds(spans[j]);
    assert Unlisted(vs, listed, spans[j].lo, spans[j].hi);
    assert spans[j].lo in vendors && spans[j].hi in vendors;
  }

  /** Filling keeps every vendor, adds only ids that the GVL does not list, and stays between
      the smallest and the largest vendor. */
  lemma FillIsLossless(vendors: set<nat>, listed: set<nat>)
    ensures vendors <= Fill(vendors, listed)
    ensures Fill(vendors, listed) * listed == vendors * listed
    ensures forall x :: x in Fill(vendors, listed) ==> Enclosed(vendors, x)
  {
    hide Fill, Enclosed;
    FillKeeps(vendors, listed);
    forall x | x in Fill(vendors, listed)
      ensures x in vendors || x !in listed
      ensures Enclosed(vendors, x)
    {
      FillAdds(vendors, listed, x);
    }
  }

  /** A gap between two neighbouring vendors is bridged when the GVL lists nothing in it, and something from its
      upper end up to the largest vendor: always, if it lists the vendors themselves. */
  ghost predicate Bridged(vendors: set<nat>, listed: set<nat>, u: nat, v: nat)
  {
    && u in vendors && v in vendors && (forall y :: u < y < v ==> y !in vendors && y !in listed)
    && exists y :: y in listed && v <= y <= MaxId(vendors)
  }

  ghost predicate InBridge(vendors: set<nat>, listed: set<nat>, x: nat)
  {
    exists u: nat, v: nat :: Bridged(vendors, listed, u, v) && u < x < v
  }

  lemma StaysOpenIff(vs: seq<nat>, listed: set<nat>, p: nat)
    requires Increasing(vs) && p + 1 < |vs|
    ensures !Closes(vs, listed, p) <==>
            && (forall y :: vs[p] < y < vs[p + 1] ==> y !in listed)
            && exists y :: y in listed && vs[p + 1] <= y <= vs[|vs| - 1]
  {
    var last := vs[|vs| - 1];
    var o := NextListed(listed, vs[p], last);
    assert vs[p + 1] <= last;
    if !Closes(vs, listed, p) {
      assert o in listed && vs[p + 1] <= o <= last;
    }
  }

  /** Where an id that is no vendor lies in a range, a gap was left open. */
  lemma {:induction false} GapInSpan(vs: seq<nat>, listed: set<nat>, p: nat, x: nat) returns (q: nat)
    requires Increasing(vs) && p < |vs| && SpanStart(vs, listed, p) <= x <= vs[p] && x !in vs
    ensures q + 1 < |vs| && !Closes(vs, listed, q) && vs[q] < x < vs[q + 1]
  {
    hide Closes;
    assert p > 0 && !Closes(vs, listed, p - 1);
    if x > vs[p - 1] {
      q := p - 1;
    } else {
      q := GapInSpan(vs, listed, p - 1, x);
    }
  }

  lemma {:induction false} SpanOf(vs: seq<nat>, listed: set<nat>, n: nat, x: nat) returns (p: nat)
    requires n <= |vs| && x in RunsIds(Spans(vs, listed, n))
    ensures p < n && SpanStart(vs, listed, p) <= x <= vs[p]
  {
    hide Closes, RunsIds, Spans, SpanStart;
    NothingSpanned(vs, listed);
    SpansStep(vs, listed, n);
    if x in RunsIds(Spans(vs, listed, n - 1)) {
      p := SpanOf(vs, listed, n - 1, x);
    } else {
      p := n - 1;
    }
  }

  lemma NothingSpanned(vs: seq<nat>, listed: set<nat>)
    ensures RunsIds(Spans(vs, listed, 0)) == {}
  {
  }

  /** What lies in an open gap is in the range that is completed later. */
  lemma {:induction false} OpenGapIsSpanned(vs: seq<nat>, listed: set<nat>, q: nat, x: nat, n: nat)
    requires Increasing(vs) && q + 1 < n <= |vs| && !Closes(vs, listed, q) && vs[q] < x < vs[q + 1]
    ensures x in RunsIds(Spans(vs, listed, n)) || (!Closes(vs, listed, n - 1) && SpanStart(vs, listed, n - 1) <= x)
    ensures x <= vs[n - 1]
  {
    hide Closes, RunsIds, Spans;
    SpansStep(vs, listed, n);
    SpanStartIsVendor(vs, listed, q);
    if n > q + 2 {
      OpenGapIsSpanned(vs, listed, q, x, n - 1);
    }
  }

  /** Exactly which ids are added: those in the bridged gaps. */
  lemma FillIsExact(vendors: set<nat>, listed: set<nat>, x: nat)
    ensures x in Fill(vendors, listed) <==> x in vendors || InBridge(vendors, listed, x)
  {
    hide Closes, SpanStart, Spans, SortedIds, MaxId, RunsIds, Bridged, Increasing;
    var vs := SortedIds(vendors);
    SortedIdsSpec(vendors);
    FillKeeps(vendors, listed);
    if x in Fill(vendors, listed) && x !in vendors {
      var p := SpanOf(vs, listed, |vs|, x);
      var q := GapInSpan(vs, listed, p, x);
      GapIff(vendors, listed, q);
    }
    if u: nat, v: nat :| Bridged(vendors, listed, u, v) && u < x < v {
      var q := Neighbours(vendors, listed, u, v);
      GapIff(vendors, listed, q);
      OpenGapIsSpanned(vs, listed, q, x, |vs|);
      LastCloses(vs, listed);
    }
  }

  lemma LastIsMax(ids: set<nat>)
    requires ids != {}
    ensures |SortedIds(ids)| > 0 && SortedIds(ids)[|SortedIds(ids)| - 1] == MaxId(ids)
  {
  }

  lemma GapIff(vendors: set<nat>, listed: set<nat>, q: nat)
    requires q + 1 < |SortedIds(vendors)|
    ensures var vs := SortedIds(vendors); !Closes(vs, listed, q) <==> Bridged(vendors, listed, vs[q], vs[q + 1])
  {
    hide Closes, SortedIds, MaxId;
    var vs := SortedIds(vendors);
    SortedIdsSpec(vendors);
    assert vs[q] in vs;
    LastIsMax(vendors);
    StaysOpenIff(vs, listed, q);
    forall y | y in vendors
      ensures !(vs[q] < y < vs[q + 1])
    {
      var i :| 0 <= i < |vs| && vs[i] == y;
      assert i <= q ==> vs[i] <= vs[q];
    }
    assert vs[q] in vendors && vs[q + 1] in vs;
  }

  lemma Neighbours(vendors: set<nat>, listed: set<nat>, u: nat, v: nat) returns (q: nat)
    requires Bridged(vendors, listed, u, v) && u < v
    ensures var vs := SortedIds(vendors); q + 1 < |vs| && vs[q] == u && vs[q + 1] == v
  {
    hide SortedIds, MaxId;
    var vs := SortedIds(vendors);
    SortedIdsSpec(vendors);
    assert u in vs && v in vs;
    var i :| 0 <= i < |vs| && vs[i] == u;
    var j :| 0 <= j < |vs| && vs[j] == v;
    q := i;
    assert i < j;
    assert vs[i + 1] in vs && u < vs[i + 1];
  }

  // ---------- Round trip ----------

  ghost function FilledEntry(entry: Entry, listed: set<nat>): seq<Entry>
  {
    if entry.vendors == {} then [] else [Entry(entry.key, Fill(entry.vendors, listed))]
  }

  /** What decoding returns: keys in the same order, those without vendors dropped */
  ghost function Filled(entries: seq<Entry>, listed: set<nat>): seq<Entry>
  {
    if |entries| == 0 then [] else FilledEntry(entries[0], listed) + Filled(entries[1..], listed)
  }

  ghost function AddRuns(entries: seq<Entry>, key: Restriction, runs: seq<Run>): seq<Entry>
  {
    if |runs| == 0 then entries else AddAll(entries, key, RunsIds(runs))
  }

  lemma AddRunsHead(entries: seq<Entry>, key: Restriction, runs: seq<Run>)
    requires |runs| > 0
    ensures AddRuns(AddAll(entries, key, RunIds(runs[0])), key, runs[1..]) == AddRuns(entries, key, runs)
  {
    RunsIdsSplit(runs);
    if |runs| == 1 {
      NoRunsNoIds();
      assert runs[1..] == [];
      assert RunsIds(runs) == RunIds(runs[0]);
    } else {
      AddAllTwice(entries, key, RunIds(runs[0]), RunsIds(runs[1..]));
    }
  }

  lemma {:induction false} ReadSpansOf(before: Bits, runs: seq<Run>, code: Bits, after: Bits,
      key: Restriction, entries: seq<Entry>)
    requires EncodeRuns(runs) == Ok(code) && key.IsValid()
    requires forall run :: run in runs ==> run.lo <= run.hi
    ensures ReadSpans(before + code + after, |before|, |runs|, key, entries)
            == Ok((AddRuns(entries, key, runs), |before| + |code|))
    decreases |runs|
  {
    hide EncodeRun, ReadRun, RunsIds, AddAll;
    if |runs| != 0 {
      var first, rest := EncodeRun(runs[0]).value, EncodeRuns(runs[1..]).value;
      var e := before + code + after;
      assert e == before + first + (rest + after);
      ReadRunOf(before, runs[0], first, rest + after);
      assert e == (before + first) + rest + after;
      ReadSpansOf(before + first, runs[1..], rest, after, key, AddAll(entries, key, RunIds(runs[0])));
      AddRunsHead(entries, key, runs);
    }
  }

  lemma SpansOfNone(vendors: set<nat>, listed: set<nat>)
    ensures AllSpans(vendors, listed) == [] <==> vendors == {}
  {
    hide Closes, SpanStart;
    if vendors != {} {
      FillKeeps(vendors, listed);
      NoRunsNoIds();
    }
  }

  lemma SpansAreOrdered(vendors: set<nat>, listed: set<nat>)
    ensures forall run :: run in AllSpans(vendors, listed) ==> run.lo <= run.hi
  {
    hide Closes, SpanStart, MaxId, SortedIds, Spans;
    var vs := SortedIds(vendors);
    SortedIdsSpec(vendors);
    SpansEnds(vs, listed, |vs|);
  }

  lemma ReadKeyOf(before: Bits, key: Restriction, count: nat, p: Bits, t: Bits, n: Bits, after: Bits)
    requires EncodeInt(key.purposeId, PURPOSE_ID_BITS) == Ok(p)
    requires EncodeInt(key.restrictionType, RESTRICTION_TYPE_BITS) == Ok(t)
    requires EncodeInt(count, NUM_ENTRIES_BITS) == Ok(n)
    ensures |p| == 6 && |t| == 2 && |n| == 12
    ensures ReadKey(before + (p + t + n) + after, |before|) == Ok((key, count))
  {
    hide EncodeInt, ReadInt;
    var e := before + (p + t + n) + after;
    assert e == before + p + (t + n + after);
    ReadIntOf(before, key.purposeId, PURPOSE_ID_BITS, p, t + n + after);
    assert e == (before + p) + t + (n + after);
    ReadIntOf(before + p, key.restrictionType, RESTRICTION_TYPE_BITS, t, n + after);
    assert e == (before + p + t) + n + after;
    ReadIntOf(before + p + t, count, NUM_ENTRIES_BITS, n, after);
  }

  lemma ReadEntryOf(before: Bits, entry: Entry, gvl: Option<Gvl>, code: Bits, after: Bits, done: seq<Entry>)
    requires EncodeEntry(entry, gvl) == Ok(code) && entry.key.IsValid()
    requires !HasKey(done, entry.key)
    ensures var spans := AllSpans(entry.vendors, ListedIds(gvl));
            && ReadKey(before + code + after, |before|) == Ok((entry.key, |spans|))
            && ReadSpans(before + code + after, |before| + 20, |spans|, entry.key, done)
               == Ok((done + FilledEntry(entry, ListedIds(gvl)), |before| + |code|))
  {
    hide EncodeInt, ReadKey, ReadSpans, AllSpans, EncodeRuns, RunsIds, SortedIds;
    var key, spans := entry.key, AllSpans(entry.vendors, ListedIds(gvl));
    var p := EncodeInt(key.purposeId, PURPOSE_ID_BITS).value;
    var t := EncodeInt(key.restrictionType, RESTRICTION_TYPE_BITS).value;
    var n := EncodeInt(|spans|, NUM_ENTRIES_BITS).value;
    var body := EncodeRuns(spans).value;
    var e := before + code + after;
    assert e == before + (p + t + n) + (body + after);
    ReadKeyOf(before, key, |spans|, p, t, n, body + after);
    assert e == (before + (p + t + n)) + body + after;
    SpansOfNone(entry.vendors, ListedIds(gvl));
    SpansAreOrdered(entry.vendors, ListedIds(gvl));
    assert done + [] == done;
    ReadSpansOf(before + (p + t + n), spans, body, after, key, done);
    assert IndexOf(done, key) == |done|;
  }

  lemma FilledEntryKey(entry: Entry, listed: set<nat>)
    ensures var filled := FilledEntry(entry, listed); filled == [] || (|filled| == 1 && filled[0].key == entry.key)
  {
  }

  lemma KeysStayNew(entries: seq<Entry>, done: seq<Entry>, filled: seq<Entry>)
    requires |entries| > 0 && DistinctKeys(entries)
    requires forall i :: 0 <= i < |entries| ==> entries[i].key.IsValid() && !HasKey(done, entries[i].key)
    requires filled == [] || (|filled| == 1 && filled[0].key == entries[0].key)
    ensures DistinctKeys(entries[1..])
    ensures forall i :: 0 <= i < |entries[1..]| ==>
              entries[1..][i].key.IsValid() && !HasKey(done + filled, entries[1..][i].key)
  {
    forall i | 0 <= i < |entries[1..]|
      ensures entries[1..][i].key.IsValid() && !HasKey(done + filled, entries[1..][i].key)
    {
      var key := entries[i + 1].key;
      assert entries[1..][i] == entries[i + 1];
      VendorsOfAppend(done, filled, key);
    }
  }

  lemma {:induction false} ReadEntriesOf(before: Bits, entries: seq<Entry>, gvl: Option<Gvl>, code: Bits, after: Bits,
      done: seq<Entry>)
    requires EncodeEntries(entries, gvl) == Ok(code)
    requires DistinctKeys(entries)
    requires forall i :: 0 <= i < |entries| ==> entries[i].key.IsValid() && !HasKey(done, entries[i].key)
    ensures ReadEntries(before + code + after, |before|, |entries|, done)
            == Ok((done + Filled(entries, ListedIds(gvl)), |before| + |code|))
    decreases |entries|
  {
    hide EncodeEntry, ReadKey, ReadSpans, AllSpans, Fill, HasKey, DistinctKeys, FilledEntry;
    if |entries| == 0 {
      assert done + [] == done;
    } else {
      var entry, more := entries[0], entries[1..];
      var first, rest := EncodeEntry(entry, gvl).value, EncodeEntries(more, gvl).value;
      var e := before + code + after;
      assert e == before + first + (rest + after);
      ReadEntryOf(before, entry, gvl, first, rest + after, done);
      assert e == (before + first) + rest + after;
      var done' := done + FilledEntry(entry, ListedIds(gvl));
      FilledEntryKey(entry, ListedIds(gvl));
      KeysStayNew(entries, done, FilledEntry(entry, ListedIds(gvl)));
      ReadEntriesOf(before + first, more, gvl, rest, after, done');
      assert done' + Filled(more, ListedIds(gvl)) == done + Filled(entries, ListedIds(gvl));
    }
  }

  /** Decoding the encoded restrictions, whatever follows, consumes exactly their bits and returns
      the keys in order with their gaps filled. */
  lemma RestrictionsRoundTrip(entries: seq<Entry>, gvl: Option<Gvl>, suffix: Bits)
    requires DistinctKeys(entries)
    requires forall i :: 0 <= i < |entries| ==> entries[i].key.IsValid()
    requires EncodeRestrictions(entries, gvl).Ok?
    ensures var b := EncodeRestrictions(entries, gvl).value;
            DecodeRestrictions(b + suffix) == Ok((Filled(entries, ListedIds(gvl)), |b|))
  {
    hide EncodeInt, EncodeEntries, ReadInt, ReadEntries, Filled;
    var count, body := EncodeInt(|entries|, NUM_RESTRICTIONS_BITS).value, EncodeEntries(entries, gvl).value;
    var e := count + body + suffix;
    assert e == [] + count + (body + suffix);
    ReadIntOf([], |entries|, NUM_RESTRICTIONS_BITS, count, body + suffix);
    ReadEntriesOf(count, entries, gvl, body, suffix, []);
    assert [] + Filled(entries, ListedIds(gvl)) == Filled(entries, ListedIds(gvl));
  }

  lemma {:induction false} VendorsOfFilled(entries: seq<Entry>, listed: set<nat>, key: Restriction)
    requires DistinctKeys(entries)
    ensures VendorsOf(Filled(entries, listed), key) == Fill(VendorsOf(entries, key), listed)
    ensures !HasKey(entries, key) ==> !HasKey(Filled(entries, listed), key)
    decreases |entries|
  {
    hide Fill;
    if |entries| == 0 {
      FillOfNone(listed);
      assert VendorsOf(entries, key) == {};
    } else {
      var entry, more := entries[0], entries[1..];
      assert forall i :: 0 <= i < |more| ==> more[i] == entries[i + 1];
      VendorsOfFilled(more, listed, key);
      VendorsOfOne(entry, key);
      VendorsOfOne(Entry(entry.key, Fill(entry.vendors, listed)), key);
      VendorsOfAppend([entry], more, key);
      assert [entry] + more == entries;
      VendorsOfAppend(FilledEntry(entry, listed), Filled(more, listed), key);
      FillOfNone(listed);
      if entry.key == key {
        assert !HasKey(more, key);
        assert VendorsOf(more, key) == {};
        assert VendorsOf(entries, key) == entry.vendors;
        assert Fill(entry.vendors, listed) + {} == Fill(entry.vendors, listed);
      } else {
        assert VendorsOf(entries, key) == VendorsOf(more, key);
      }
    }
  }

  lemma VendorsOfOne(entry: Entry, key: Restriction)
    ensures VendorsOf([entry], key) == if entry.key == key then entry.vendors else {}
    ensures VendorsOf([], key) == {}
    ensures HasKey([entry], key) <==> entry.key == key
  {
    assert [entry][0] == entry;
  }

  lemma FillOfNone(listed: set<nat>)
    ensures Fill({}, listed) == {}
  {
    SpansOfNone({}, listed);
    NoRunsNoIds();
  }

  lemma VendorsOfAppend(a: seq<Entry>, b: seq<Entry>, key: Restriction)
    ensures VendorsOf(a + b, key) == VendorsOf(a, key) + VendorsOf(b, key)
    ensures HasKey(a + b, key) <==> HasKey(a, key) || HasKey(b, key)
  {
    var all := a + b;
    assert forall i :: 0 <= i < |all| ==> all[i] == if i < |a| then a[i] else b[i - |a|];
    assert forall i :: 0 <= i < |a| ==> all[i] == a[i];
    assert forall i :: 0 <= i < |b| ==> all[|a| + i] == b[i];
  }

  /** Lossless relative to the vendor list: for every purpose and type the decoded vendors include
      the original ones, and the two sets agree on the ids that the GVL lists. */
  lemma RestrictionsAreLossless(entries: seq<Entry>, gvl: Option<Gvl>, suffix: Bits, key: Restriction)
    requires DistinctKeys(entries)
    requires forall i :: 0 <= i < |entries| ==> entries[i].key.IsValid()
    requires EncodeRestrictions(entries, gvl).Ok?
    ensures var decoded := DecodeRestrictions(EncodeRestrictions(entries, gvl).value + suffix);
            && decoded.Ok?
            && VendorsOf(entries, key) <= VendorsOf(decoded.value.0, key)
            && VendorsOf(entries, key) * ListedIds(gvl) == VendorsOf(decoded.value.0, key) * ListedIds(gvl)
            && forall x :: x in VendorsOf(decoded.value.0, key) ==> Enclosed(VendorsOf(entries, key), x)
  {
    hide EncodeRestrictions, DecodeRestrictions, Fill, Filled, Enclosed, VendorsOf;
    RestrictionsRoundTrip(entries, gvl, suffix);
    VendorsOfFilled(entries, ListedIds(gvl), key);
    FillIsLossless(VendorsOf(entries, key), ListedIds(gvl));
  }

  // ---------- When restrictions can be encoded ----------

  lemma {:induction false} EncodedRunsFit(runs: seq<Run>)
    requires EncodeRuns(runs).Ok?
    ensures forall run :: run in runs ==> run.lo < 65536 && run.hi < 65536
    decreases |runs|
  {
    hide EncodeInt;
    if |runs| != 0 {
      TcfVendorBound.Pow2Of16();
      IntRoundTrip(runs[0].lo, VENDOR_ID_BITS);
      IntRoundTrip(runs[0].hi, VENDOR_ID_BITS);
      EncodedRunsFit(runs[1..]);
      assert runs == [runs[0]] + runs[1..];
    }
  }

  lemma SpansFitIff(vendors: set<nat>, listed: set<nat>)
    ensures EncodeRuns(AllSpans(vendors, listed)).Ok? <==> forall v :: v in vendors ==> v < 65536
  {
    hide EncodeRuns, Spans, SortedIds, Fill;
    var spans, vs := AllSpans(vendors, listed), SortedIds(vendors);
    SortedIdsSpec(vendors);
    SpansEnds(vs, listed, |vs|);
    FillKeeps(vendors, listed);
    if EncodeRuns(spans).Ok? {
      EncodedRunsFit(spans);
      forall v | v in vendors
        ensures v < 65536
      {
        InSpan(vendors, listed, v);
      }
    }
    if forall v :: v in vendors ==> v < 65536 {
      forall j | 0 <= j < |spans|
        ensures spans[j].lo <= spans[j].hi < 65536
      {
        assert spans[j].hi in vs;
      }
      TcfVendorBound.EncodeRunsOk(spans);
    }
  }

  lemma InSpan(vendors: set<nat>, listed: set<nat>, v: nat)
    requires v in vendors
    ensures exists run :: run in AllSpans(vendors, listed) && v <= run.hi
  {
    hide AllSpans;
    FillKeeps(vendors, listed);
    assert v in RunsIds(AllSpans(vendors, listed));
  }

  /** What the fixed widths and the vendor list admit */
  ghost predicate Fits(entry: Entry, gvl: Option<Gvl>)
  {
    && entry.key.purposeId < 64 && entry.key.restrictionType < 4
    && (forall v :: v in entry.vendors ==> v < 65536)
    && (|SortedIds(entry.vendors)| >= 2 ==> gvl.Some?)
    && |AllSpans(entry.vendors, ListedIds(gvl))| < 4096
  }

  lemma EntryEncodesIff(entry: Entry, gvl: Option<Gvl>)
    ensures EncodeEntry(entry, gvl).Ok? <==> Fits(entry, gvl)
  {
    hide EncodeInt, EncodeRuns, AllSpans, SortedIds;
    var spans := AllSpans(entry.vendors, ListedIds(gvl));
    assert Pow2(2) == 4 && Pow2(6) == 64;
    TcfVendorBound.Pow2Of16();
    IntRoundTrip(entry.key.purposeId, PURPOSE_ID_BITS);
    IntRoundTrip(entry.key.restrictionType, RESTRICTION_TYPE_BITS);
    IntRoundTrip(|spans|, NUM_ENTRIES_BITS);
    SpansFitIff(entry.vendors, ListedIds(gvl));
  }

  /** Restrictions can be encoded if and only if there are fewer than 4096 keys and every key fits:
      its numbers, its vendors, fewer than 4096 ranges, and a vendor list unless there is at most one
      vendor. */
  lemma RestrictionsEncodeIff(entries: seq<Entry>, gvl: Option<Gvl>)
    ensures EncodeRestrictions(entries, gvl).Ok? <==>
            |entries| < 4096 && forall entry :: entry in entries ==> Fits(entry, gvl)
  {
    hide EncodeInt, EncodeEntries, Fits;
    TcfVendorBound.Pow2Of16();
    IntRoundTrip(|entries|, NUM_RESTRICTIONS_BITS);
    EntriesEncodeIff(entries, gvl);
  }

  lemma {:induction false} EntriesEncodeIff(entries: seq<Entry>, gvl: Option<Gvl>)
    ensures EncodeEntries(entries, gvl).Ok? <==> forall entry :: entry in entries ==> Fits(entry, gvl)
    decreases |entries|
  {
    hide EncodeEntry, Fits;
    if |entries| != 0 {
      assert entries == [entries[0]] + entries[1..];
      EntryEncodesIff(entries[0], gvl);
      EntriesEncodeIff(entries[1..], gvl);
    }
  }
}
