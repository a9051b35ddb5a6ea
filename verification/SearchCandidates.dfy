/** Selecting search candidates under per-channel quotas. */
module SearchCandidates {

  datatype Channel = SemanticQuery | ErrorPattern | TitleKeywords | PopularArea | AreaLabel

  datatype Candidate = Candidate(key: string, matchedSearches: set<Channel>)

  function Max(a: nat, b: nat): nat { if a >= b then a else b }

  function Quota(channel: Channel, limit: nat): nat
  {
    match channel
    case SemanticQuery => Max(2, limit / 3)
    case ErrorPattern => Max(1, limit / 10)
    case TitleKeywords => Max(1, limit / 6)
    case PopularArea => Max(1, limit / 5)
    case AreaLabel => Max(1, limit / 6)
  }

  /** The channels in the order in which they reserve places */
  const RESERVED := [SemanticQuery, ErrorPattern, TitleKeywords, PopularArea, AreaLabel]

  function Keys(cs: seq<Candidate>): set<string>
  {
    set i | 0 <= i < |cs| :: cs[i].key
  }

  function Matching(cs: seq<Candidate>, channel: Channel): seq<Candidate>
  {
    if |cs| == 0 then []
    else
      var n := |cs| - 1;
      Matching(cs[..n], channel) + if channel in cs[n].matchedSearches then [cs[n]] else []
  }

  /** `matching[:quota]` */
  function First(cs: seq<Candidate>, n: nat): (first: seq<Candidate>)
    ensures |first| <= n && first <= cs
  {
    if |cs| <= n then cs else cs[..n]
  }

  function AddOnce(selected: seq<Candidate>, c: Candidate, limit: nat): seq<Candidate>
  {
    if c.key !in Keys(selected) && |selected| < limit then selected + [c] else selected
  }

  function AddAll(selected: seq<Candidate>, cs: seq<Candidate>, limit: nat): seq<Candidate>
  {
    if |cs| == 0 then selected
    else
      var n := |cs| - 1;
      AddOnce(AddAll(selected, cs[..n], limit), cs[n], limit)
  }

  /** After the first k channels have taken their reserved places */
  function Reserve(candidates: seq<Candidate>, k: nat, limit: nat): seq<Candidate>
    requires k <= |RESERVED|
  {
    if k == 0 then []
    else
      var channel := RESERVED[k - 1];
      AddAll(Reserve(candidates, k - 1, limit), First(Matching(candidates, channel), Quota(channel, limit)), limit)
  }

  function Select(candidates: seq<Candidate>, limit: nat): seq<Candidate>
  {
    AddAll(Reserve(candidates, |RESERVED|, limit), candidates, limit)
  }

  // ---------- The loops ----------

  class Selection {
    var selected: seq<Candidate>
    var selectedKeys: set<string>
    const limit: nat

    ghost predicate Valid()
      reads this
    {
      selectedKeys == Keys(selected)
    }

    constructor (limit: nat)
      ensures Valid() && selected == [] && this.limit == limit
    {
      selected, selectedKeys, this.limit := [], {}, limit;
    }

    method Add(c: Candidate)
      requires Valid()
      modifies this
      ensures Valid() && selected == AddOnce(old(selected), c, limit)
    {
      if c.key !in selectedKeys && |selected| < limit {
        KeysSnoc(selected, c);
        selected := selected + [c];
        selectedKeys := selectedKeys + {c.key};
      }
    }

    method AddEach(cs: seq<Candidate>)
      requires Valid()
      modifies this
      ensures Valid() && selected == AddAll(old(selected), cs, limit)
    {
      for i := 0 to |cs|
        invariant Valid() && selected == AddAll(old(selected), cs[..i], limit)
      {
        assert cs[..i + 1][..i] == cs[..i];
        Add(cs[i]);
      }
      assert cs[..|cs|] == cs;
    }
  }

  method FindMatching(cs: seq<Candidate>, channel: Channel) returns (matching: seq<Candidate>)
    ensures matching == Matching(cs, channel)
  {
    matching := [];
    for i := 0 to |cs|
      invariant matching == Matching(cs[..i], channel)
    {
      assert cs[..i + 1][..i] == cs[..i];
      if channel in cs[i].matchedSearches {
        matching := matching + [cs[i]];
      }
    }
    assert cs[..|cs|] == cs;
  }

  method SelectSearchCandidates(candidates: seq<Candidate>, limit: nat) returns (selected: seq<Candidate>)
    ensures selected == Select(candidates, limit)
  {
    var s := new Selection(limit);
    for k := 0 to |RESERVED|
      invariant fresh(s) && s.Valid() && s.limit == limit && s.selected == Reserve(candidates, k, limit)
    {
      var channel := RESERVED[k];
      var matching := FindMatching(candidates, channel);
      s.AddEach(First(matching, Quota(channel, limit)));
    }
    s.AddEach(candidates);
    return s.selected;
  }

  // ---------- What is selected ----------

  ghost predicate DistinctKeys(cs: seq<Candidate>)
  {
    forall i, j :: 0 <= i < j < |cs| ==> cs[i].key != cs[j].key
  }

  lemma KeysSnoc(cs: seq<Candidate>, c: Candidate)
    ensures Keys(cs + [c]) == Keys(cs) + {c.key}
  {
    var all := cs + [c];
    assert forall i :: 0 <= i < |cs| ==> all[i] == cs[i];
    assert all[|cs|] == c;
  }

  lemma {:induction false} KeyCount(cs: seq<Candidate>)
    requires DistinctKeys(cs)
    ensures |Keys(cs)| == |cs|
  {
    if |cs| != 0 {
      var n := |cs| - 1;
      KeyCount(cs[..n]);
      KeysSnoc(cs[..n], cs[n]);
      assert cs == cs[..n] + [cs[n]];
    }
  }

  /** Adding keeps what was selected, never repeats a key and never exceeds the limit; unless the limit
      is reached, every key is there afterwards. */
  lemma {:induction false} AddAllSpec(selected: seq<Candidate>, cs: seq<Candidate>, limit: nat)
    requires DistinctKeys(selected) && |selected| <= limit
    ensures var r := AddAll(selected, cs, limit);
            && selected <= r && DistinctKeys(r) && |r| <= limit && |r| <= |selected| + |cs|
            && Keys(r) <= Keys(selected) + Keys(cs)
            && (|r| < limit || |selected| + |cs| <= limit ==> Keys(cs) <= Keys(r))
  {
    if |cs| != 0 {
      var n := |cs| - 1;
      var before := AddAll(selected, cs[..n], limit);
      AddAllSpec(selected, cs[..n], limit);
      KeysSnoc(cs[..n], cs[n]);
      assert cs == cs[..n] + [cs[n]];
      KeysSnoc(before, cs[n]);
      AddOnceSpec(before, cs[n], limit);
    }
  }

  lemma AddOnceSpec(selected: seq<Candidate>, c: Candidate, limit: nat)
    requires DistinctKeys(selected)
    ensures DistinctKeys(AddOnce(selected, c, limit)) && selected <= AddOnce(selected, c, limit)
  {
    if c.key !in Keys(selected) {
      assert forall i :: 0 <= i < |selected| ==> selected[i].key in Keys(selected);
    }
  }

  /** The places reserved by the first k channels */
  function Reserved(k: nat, limit: nat): nat
    requires k <= |RESERVED|
  {
    if k == 0 then 0 else Reserved(k - 1, limit) + Quota(RESERVED[k - 1], limit)
  }

  /** Despite the floors of the quotas and the divisions, six places are enough for all of them. */
  lemma QuotasFit(limit: nat)
    ensures Reserved(|RESERVED|, limit) == Quota(SemanticQuery, limit) + Quota(ErrorPattern, limit)
              + Quota(TitleKeywords, limit) + Quota(PopularArea, limit) + Quota(AreaLabel, limit)
    ensures Reserved(|RESERVED|, limit) <= limit <==> limit >= 6
  {
    assert Reserved(1, limit) == Quota(SemanticQuery, limit);
    assert Reserved(2, limit) == Reserved(1, limit) + Quota(ErrorPattern, limit);
    assert Reserved(3, limit) == Reserved(2, limit) + Quota(TitleKeywords, limit);
    assert Reserved(4, limit) == Reserved(3, limit) + Quota(PopularArea, limit);
    assert Reserved(5, limit) == Reserved(4, limit) + Quota(AreaLabel, limit);
  }

  lemma {:induction false} ReservedIsMonotone(j: nat, k: nat, limit: nat)
    requires j <= k <= |RESERVED|
    ensures Reserved(j, limit) <= Reserved(k, limit)
  {
    if j < k {
      ReservedIsMonotone(j, k - 1, limit);
    }
  }

  lemma FirstKeys(cs: seq<Candidate>, n: nat)
    ensures Keys(First(cs, n)) <= Keys(cs)
  {
    var first := First(cs, n);
    assert forall i :: 0 <= i < |first| ==> first[i] == cs[i];
  }

  lemma {:induction false} MatchingKeys(cs: seq<Candidate>, channel: Channel)
    ensures Keys(Matching(cs, channel)) <= Keys(cs)
  {
    if |cs| != 0 {
      var n := |cs| - 1;
      MatchingKeys(cs[..n], channel);
      KeysSnoc(Matching(cs[..n], channel), cs[n]);
      KeysSnoc(cs[..n], cs[n]);
      assert cs == cs[..n] + [cs[n]];
    }
  }

  lemma {:induction false} ReserveSpec(candidates: seq<Candidate>, k: nat, limit: nat)
    requires k <= |RESERVED|
    ensures var r := Reserve(candidates, k, limit);
            && DistinctKeys(r) && |r| <= limit && |r| <= Reserved(k, limit) && Keys(r) <= Keys(candidates)
  {
    hide Quota, Matching, First;
    if k != 0 {
      var channel := RESERVED[k - 1];
      var first := First(Matching(candidates, channel), Quota(channel, limit));
      ReserveSpec(candidates, k - 1, limit);
      AddAllSpec(Reserve(candidates, k - 1, limit), first, limit);
      FirstKeys(Matching(candidates, channel), Quota(channel, limit));
      MatchingKeys(candidates, channel);
    }
  }

  /** No key is repeated, and as many candidates are selected as there are keys, up to the limit. */
  lemma SelectionIsFull(candidates: seq<Candidate>, limit: nat)
    ensures var r := Select(candidates, limit);
            && DistinctKeys(r) && Keys(r) <= Keys(candidates)
            && |r| == if |Keys(candidates)| <= limit then |Keys(candidates)| else limit
  {
    hide Keys, Reserve;
    var reserved := Reserve(candidates, |RESERVED|, limit);
    ReserveSpec(candidates, |RESERVED|, limit);
    AddAllSpec(reserved, candidates, limit);
    var r := Select(candidates, limit);
    KeyCount(r);
    SubsetSize(Keys(r), Keys(candidates));
    if |r| < limit {
      assert Keys(r) == Keys(candidates);
    }
  }

  lemma SubsetSize(a: set<string>, b: set<string>)
    requires a <= b
    ensures |a| <= |b|
  {
    assert b == a + (b - a);
  }

  lemma {:induction false} LaterChannelsKeep(candidates: seq<Candidate>, j: nat, k: nat, limit: nat)
    requires j <= k <= |RESERVED|
    ensures Reserve(candidates, j, limit) <= Reserve(candidates, k, limit)
  {
    hide Quota, Matching, First, AddAll;
    if j < k {
      var channel := RESERVED[k - 1];
      LaterChannelsKeep(candidates, j, k - 1, limit);
      ReserveSpec(candidates, k - 1, limit);
      AddAllSpec(Reserve(candidates, k - 1, limit), First(Matching(candidates, channel), Quota(channel, limit)), limit);
    }
  }

  lemma PrefixKeys(a: seq<Candidate>, b: seq<Candidate>)
    requires a <= b
    ensures Keys(a) <= Keys(b)
  {
    assert forall i :: 0 <= i < |a| ==> a[i] == b[i];
  }

  /** The first matches of a channel, up to its quota */
  function Quotas(candidates: seq<Candidate>, k: nat, limit: nat): seq<Candidate>
    requires k < |RESERVED|
  {
    First(Matching(candidates, RESERVED[k]), Quota(RESERVED[k], limit))
  }

  /** Each channel is represented by the keys of its first matches. */
  ghost predicate KeepsQuotas(candidates: seq<Candidate>, limit: nat)
  {
    forall k :: 0 <= k < |RESERVED| ==> Keys(Quotas(candidates, k, limit)) <= Keys(Select(candidates, limit))
  }

  lemma ChannelKeepsQuota(candidates: seq<Candidate>, k: nat, limit: nat)
    requires limit >= 6 && k < |RESERVED|
    ensures Keys(Quotas(candidates, k, limit)) <= Keys(Select(candidates, limit))
  {
    hide Keys, Matching, Quota, AddAll;
    var before, after := Reserve(candidates, k, limit), Reserve(candidates, k + 1, limit);
    var full := Reserve(candidates, |RESERVED|, limit);
    QuotasFit(limit);
    ReservedIsMonotone(k + 1, |RESERVED|, limit);
    ReserveSpec(candidates, k, limit);
    AddAllSpec(before, Quotas(candidates, k, limit), limit);
    assert Keys(Quotas(candidates, k, limit)) <= Keys(after);
    LaterChannelsKeep(candidates, k + 1, |RESERVED|, limit);
    PrefixKeys(after, full);
    ReserveSpec(candidates, |RESERVED|, limit);
    AddAllSpec(full, candidates, limit);
    PrefixKeys(full, Select(candidates, limit));
  }

  const WITNESS := [
    Candidate("0", {SemanticQuery}), Candidate("1", {SemanticQuery}), Candidate("2", {ErrorPattern}),
    Candidate("3", {TitleKeywords}), Candidate("4", {PopularArea}), Candidate("5", {AreaLabel})]

  lemma WitnessMatches()
    ensures Matching(WITNESS, SemanticQuery) == [WITNESS[0], WITNESS[1]]
    ensures Matching(WITNESS, ErrorPattern) == [WITNESS[2]] && Matching(WITNESS, TitleKeywords) == [WITNESS[3]]
    ensures Matching(WITNESS, PopularArea) == [WITNESS[4]] && Matching(WITNESS, AreaLabel) == [WITNESS[5]]
  {
    forall c: Channel
      ensures Matching(WITNESS, c) ==
              OfChannel(0, c) + OfChannel(1, c) + OfChannel(2, c) + OfChannel(3, c) + OfChannel(4, c) + OfChannel(5, c)
    {
      var w := WITNESS;
      assert w[..6] == w && w[..6][..5] == w[..5] && w[..5][..4] == w[..4] && w[..4][..3] == w[..3] &&
          w[..3][..2] == w[..2];
      assert w[..2][..1] == w[..1] && w[..1][..0] == [];
      assert Matching(w[..1], c) == OfChannel(0, c);
      assert Matching(w[..2], c) == OfChannel(0, c) + OfChannel(1, c);
      assert Matching(w[..3], c) == OfChannel(0, c) + OfChannel(1, c) + OfChannel(2, c);
      assert Matching(w[..4], c) == OfChannel(0, c) + OfChannel(1, c) + OfChannel(2, c) + OfChannel(3, c);
    }
  }

  function OfChannel(i: nat, c: Channel): seq<Candidate>
    requires i < 6
  {
    if c in WITNESS[i].matchedSearches then [WITNESS[i]] else []
  }

  /** With fewer than six places one candidate for each place of the floors cannot be kept. */
  lemma FewPlacesLoseAChannel(limit: nat)
    requires limit < 6
    ensures !KeepsQuotas(WITNESS, limit)
  {
    hide Matching, Select;
    WitnessMatches();
    if KeepsQuotas(WITNESS, limit) {
      var keys := Keys(Select(WITNESS, limit));
      AllKept(keys, limit);
      SelectionIsFull(WITNESS, limit);
      KeyCount(Select(WITNESS, limit));
      SubsetSize({"0", "1", "2", "3", "4", "5"}, keys);
      assert false;
    }
  }

  lemma AllKept(keys: set<string>, limit: nat)
    requires limit < 6
    requires forall k :: 0 <= k < |RESERVED| ==> Keys(Quotas(WITNESS, k, limit)) <= keys
    ensures {"0", "1", "2", "3", "4", "5"} <= keys && |{"0", "1", "2", "3", "4", "5"}| == 6
  {
    WitnessMatches();
    hide Matching;
    assert Quotas(WITNESS, 0, limit) == [WITNESS[0], WITNESS[1]];
    assert Quotas(WITNESS, 1, limit) == [WITNESS[2]] && Quotas(WITNESS, 2, limit) == [WITNESS[3]];
    assert Quotas(WITNESS, 3, limit) == [WITNESS[4]] && Quotas(WITNESS, 4, limit) == [WITNESS[5]];
    assert [WITNESS[0], WITNESS[1]][0].key == "0" && [WITNESS[0], WITNESS[1]][1].key == "1";
    assert [WITNESS[2]][0].key == "2" && [WITNESS[3]][0].key == "3" && [WITNESS[4]][0].key == "4" &&
        [WITNESS[5]][0].key == "5";
    assert "0" in Keys(Quotas(WITNESS, 0, limit)) && "1" in Keys(Quotas(WITNESS, 0, limit));
    assert "2" in Keys(Quotas(WITNESS, 1, limit)) && "3" in Keys(Quotas(WITNESS, 2, limit));
    assert "4" in Keys(Quotas(WITNESS, 3, limit)) && "5" in Keys(Quotas(WITNESS, 4, limit));
    SixKeys();
  }

  lemma SixKeys()
    ensures |{"0", "1", "2", "3", "4", "5"}| == 6
  {
    assert "0"[0] == '0' && "1"[0] == '1' && "2"[0] == '2' && "3"[0] == '3' && "4"[0] == '4' && "5"[0] == '5';
    var s: set<string> := {"0", "1", "2", "3", "4"};
    assert |s| == 5;
    assert {"0", "1", "2", "3", "4", "5"} == s + {"5"};
  }

  /** The quotas of all channels are kept for every list exactly when there are at least six places. */
  lemma QuotasAreKeptIff(limit: nat)
    ensures (forall candidates: seq<Candidate> :: KeepsQuotas(candidates, limit)) <==> limit >= 6
  {
    hide Quotas, Select, Keys;
    if limit >= 6 {
      forall candidates: seq<Candidate>, k | 0 <= k < |RESERVED|
        ensures Keys(Quotas(candidates, k, limit)) <= Keys(Select(candidates, limit))
      {
        ChannelKeepsQuota(candidates, k, limit);
      }
    } else {
      FewPlacesLoseAChannel(limit);
    }
  }

  // ---------- The selection in one line ----------

  function Having(cs: seq<Candidate>, channel: Channel): seq<Candidate>
  {
    if |cs| == 0 then []
    else (if channel in cs[0].matchedSearches then [cs[0]] else []) + Having(cs[1..], channel)
  }

  function Take(cs: seq<Candidate>, n: nat): seq<Candidate>
  {
    if n < |cs| then cs[..n] else cs
  }

  /** The first candidate of every key that has not been seen */
  function Distinct(cs: seq<Candidate>, seen: set<string>): seq<Candidate>
  {
    if |cs| == 0 then []
    else if cs[0].key in seen then Distinct(cs[1..], seen)
    else [cs[0]] + Distinct(cs[1..], seen + {cs[0].key})
  }

  /** First come the best matches of the five channels: a third of the places but at least two for the semantic
      query, a tenth, a sixth, a fifth and a sixth but at least one for the others. Then come all candidates. */
  function InOrder(cs: seq<Candidate>, limit: nat): seq<Candidate>
  {
    Take(Having(cs, SemanticQuery), if limit < 6 then 2 else limit / 3)
    + Take(Having(cs, ErrorPattern), if limit < 10 then 1 else limit / 10)
    + Take(Having(cs, TitleKeywords), if limit < 6 then 1 else limit / 6)
    + Take(Having(cs, PopularArea), if limit < 5 then 1 else limit / 5)
    + Take(Having(cs, AreaLabel), if limit < 6 then 1 else limit / 6)
    + cs
  }

  lemma HavingCons(c: Candidate, cs: seq<Candidate>, channel: Channel)
    ensures Having([c] + cs, channel) == (if channel in c.matchedSearches then [c] else []) + Having(cs, channel)
    ensures Having([], channel) == []
  {
    assert ([c] + cs)[1..] == cs;
  }

  lemma {:induction false} HavingSnoc(cs: seq<Candidate>, c: Candidate, channel: Channel)
    ensures Having(cs + [c], channel) == Having(cs, channel) + if channel in c.matchedSearches then [c] else []
  {
    hide Having;
    if |cs| == 0 {
      assert cs + [c] == [c] + [];
      HavingCons(c, [], channel);
    } else {
      var rest := cs[1..];
      assert cs == [cs[0]] + rest && cs + [c] == [cs[0]] + (rest + [c]);
      HavingCons(cs[0], rest, channel);
      HavingCons(cs[0], rest + [c], channel);
      HavingSnoc(rest, c, channel);
    }
  }

  lemma {:induction false} MatchingIsHaving(cs: seq<Candidate>, channel: Channel)
    ensures Matching(cs, channel) == Having(cs, channel)
  {
    if |cs| != 0 {
      var n := |cs| - 1;
      MatchingIsHaving(cs[..n], channel);
      HavingSnoc(cs[..n], cs[n], channel);
      assert cs == cs[..n] + [cs[n]];
    }
  }

  lemma {:induction false} DistinctSnoc(cs: seq<Candidate>, c: Candidate, seen: set<string>)
    ensures Distinct(cs + [c], seen) ==
            Distinct(cs, seen) + if c.key in seen || c.key in Keys(cs) then [] else [c]
    ensures Keys(Distinct(cs, seen)) + seen == Keys(cs) + seen
    decreases |cs|
  {
    hide Keys;
    var all := cs + [c];
    if |cs| == 0 {
      assert all[1..] == [] && Distinct(all[1..], seen + {c.key}) == [];
      NoKeys();
    } else {
      var first, rest := cs[0], cs[1..];
      assert all[1..] == rest + [c] && cs == [first] + rest;
      KeysCons(first, rest);
      if first.key in seen {
        DistinctSnoc(rest, c, seen);
      } else {
        DistinctSnoc(rest, c, seen + {first.key});
        KeysCons(first, Distinct(rest, seen + {first.key}));
      }
    }
  }

  lemma NoKeys()
    ensures Keys([]) == {}
  {
  }

  lemma KeysCons(c: Candidate, cs: seq<Candidate>)
    ensures Keys([c] + cs) == {c.key} + Keys(cs)
  {
    var all := [c] + cs;
    assert all[0] == c;
    assert forall i :: 0 <= i < |cs| ==> all[i + 1] == cs[i];
  }

  /** Adding candidates one by one is taking the first distinct ones. */
  lemma {:induction false} AddAllTakes(before: seq<Candidate>, cs: seq<Candidate>, limit: nat)
    ensures AddAll(Take(Distinct(before, {}), limit), cs, limit) == Take(Distinct(before + cs, {}), limit)
    decreases |cs|
  {
    hide Distinct, Keys;
    if |cs| == 0 {
      assert before + cs == before;
    } else {
      var n := |cs| - 1;
      var sofar := before + cs[..n];
      AddAllTakes(before, cs[..n], limit);
      assert before + cs == sofar + [cs[n]];
      DistinctSnoc(sofar, cs[n], {});
      assert Keys(Distinct(sofar, {})) == Keys(sofar) by {
        assert Keys(Distinct(sofar, {})) + {} == Keys(Distinct(sofar, {})) && Keys(sofar) + {} == Keys(sofar);
      }
    }
  }

  lemma {:induction false} ReserveTakes(candidates: seq<Candidate>, k: nat, limit: nat) returns (stream: seq<Candidate>)
    requires k <= |RESERVED|
    ensures Reserve(candidates, k, limit) == Take(Distinct(stream, {}), limit)
    ensures stream + candidates == Quoted(candidates, k, limit) + candidates
    ensures stream == Quoted(candidates, k, limit)
  {
    hide Quota, Matching, First, Having;
    if k == 0 {
      stream := [];
      assert Take(Distinct([], {}), limit) == [];
    } else {
      var channel := RESERVED[k - 1];
      var first := First(Matching(candidates, channel), Quota(channel, limit));
      stream := ReserveTakes(candidates, k - 1, limit);
      AddAllTakes(stream, first, limit);
      FirstIsTake(candidates, channel, limit);
      stream := stream + first;
    }
  }

  /** What the first k channels reserve */
  function Quoted(candidates: seq<Candidate>, k: nat, limit: nat): seq<Candidate>
    requires k <= |RESERVED|
  {
    if k == 0 then []
    else
      Quoted(candidates, k - 1, limit)
      + Take(Having(candidates, RESERVED[k - 1]), Quota(RESERVED[k - 1], limit))
  }

  lemma FirstIsTake(candidates: seq<Candidate>, channel: Channel, limit: nat)
    ensures First(Matching(candidates, channel), Quota(channel, limit))
            == Take(Having(candidates, channel), Quota(channel, limit))
  {
    MatchingIsHaving(candidates, channel);
  }

  /** The selection is the beginning, without repeated keys, of that list. */
  lemma SelectionIsBeginning(candidates: seq<Candidate>, limit: nat)
    ensures Select(candidates, limit) == Take(Distinct(InOrder(candidates, limit), {}), limit)
  {
    hide Having, Distinct, Take, Matching, First, AddAll;
    var stream := ReserveTakes(candidates, 5, limit);
    AddAllTakes(stream, candidates, limit);
    QuotedIsInOrder(candidates, limit);
  }

  lemma QuotedIsInOrder(candidates: seq<Candidate>, limit: nat)
    ensures Quoted(candidates, 5, limit) + candidates == InOrder(candidates, limit)
  {
    hide Having, Take;
    var q := Quoted(candidates, 0, limit);
    assert q == [];
    assert Quoted(candidates, 1, limit) == q + Take(Having(candidates, SemanticQuery), Quota(SemanticQuery, limit));
    assert Quoted(candidates, 2, limit)
           == Quoted(candidates, 1, limit) + Take(Having(candidates, ErrorPattern), Quota(ErrorPattern, limit));
    assert Quoted(candidates, 3, limit)
           == Quoted(candidates, 2, limit) + Take(Having(candidates, TitleKeywords), Quota(TitleKeywords, limit));
    assert Quoted(candidates, 4, limit)
           == Quoted(candidates, 3, limit) + Take(Having(candidates, PopularArea), Quota(PopularArea, limit));
    assert Quoted(candidates, 5, limit)
           == Quoted(candidates, 4, limit) + Take(Having(candidates, AreaLabel), Quota(AreaLabel, limit));
  }
}
