/** The stale-draft protocol against the real activity on the pull request, and what a quiet run adds. */
module PrSafety {
  import opened Wrappers
  import opened PrCleanup
  import opened PrHistory

  // ---------- The real last activity ----------

  function LastConvert(ts: seq<Transition>, createdAt: int): int
  {
    if |ts| == 0 then createdAt
    else if ts[|ts| - 1].ConvertToDraft? then ts[|ts| - 1].at
    else LastConvert(ts[..|ts| - 1], createdAt)
  }

  function Since(s: State, pushedAt: Option<int>): int
  {
    var drafted := LastConvert(s.transitions, s.createdAt);
    if pushedAt.Some? then Max(drafted, pushedAt.value) else drafted
  }

  /** The last push or conversion to a draft, whether or not it is a draft now */
  function Activity(s: State): int { Since(s, s.lastPushAt) }

  /** The same with the time that the commit carries, which is what the bot can see */
  function SeenActivity(s: State): int { Since(s, s.lastCommitAt) }

  /** From here on every comment counts, for the bot and in fact. */
  function Epoch(s: State): int { Max(Activity(s), SeenActivity(s)) }

  ghost predicate Increasing(ts: seq<Transition>)
  {
    forall i, j :: 0 <= i < j < |ts| ==> ts[i].at < ts[j].at
  }

  ghost predicate TimelineOk(s: State)
  {
    && Increasing(s.transitions)
    && (forall x :: x in s.transitions ==> x.at <= s.clock)
    && (|s.transitions| > 0 ==> (s.isDraft <==> s.transitions[|s.transitions| - 1].ConvertToDraft?))
    && s.createdAt <= s.clock && CommitsOk(s)
  }

  lemma {:induction false} LatestOfIncreasing(ts: seq<Transition>)
    requires Increasing(ts) && |ts| > 0
    ensures LatestTransition(ts) == ts[|ts| - 1]
  {
    if |ts| > 1 {
      LatestOfIncreasing(ts[..|ts| - 1]);
    }
  }

  lemma LastKeepsOrder(ts: seq<Transition>, n: nat)
    requires Increasing(ts) && |ts| > 0 && n > 0
    ensures var seen := Last(ts, n); |seen| > 0 && Increasing(seen) && seen[|seen| - 1] == ts[|ts| - 1]
  {
    if |ts| > n {
      SuffixKeepsOrder(ts, |ts| - n);
    }
  }

  lemma SuffixKeepsOrder(ts: seq<Transition>, k: nat)
    requires Increasing(ts) && k < |ts|
    ensures Increasing(ts[k..])
  {
    forall i, j | 0 <= i < j < |ts[k..]|
      ensures ts[k..][i].at < ts[k..][j].at
    {
      assert ts[k..][i] == ts[k + i] && ts[k..][j] == ts[k + j];
    }
  }

  /** The last twenty transitions are enough: the bot sees the activity of an open draft as the last commit's
      own time shows it, which is too late exactly when that time lies after the activity. */
  lemma ViewShowsActivity(s: State)
    requires TimelineOk(s)
    ensures LatestDraftActivityAt(View(s)) == if s.open && s.isDraft then Some(SeenActivity(s)) else None
    ensures SeenActivity(s) > Activity(s) <==> s.lastCommitAt.Some? && s.lastCommitAt.value > Activity(s)
    ensures s.lastCommitAt == s.lastPushAt ==> SeenActivity(s) == Activity(s)
  {
    hide Increasing, LatestTransition, Last;
    if |s.transitions| > 0 {
      LastKeepsOrder(s.transitions, 20);
      LatestOfIncreasing(Last(s.transitions, 20));
    } else {
      assert Last(s.transitions, 20) == [] by {
        LastOfNone();
      }
    }
  }

  /** A pull request is stale exactly when it is an open draft and three weeks lie behind what can be seen. */
  lemma StaleIff(s: State, now: int)
    requires TimelineOk(s)
    ensures IsStale(View(s), now) <==> s.open && s.isDraft && now - SeenActivity(s) >= 21 * 24 * 3600
  {
    hide LatestDraftActivityAt, View;
    ViewShowsActivity(s);
  }

  lemma LastOfNone()
    ensures Last([], 20) == []
  {
  }

  lemma {:induction false} LastConvertBound(ts: seq<Transition>, createdAt: int, clock: int)
    requires createdAt <= clock && forall x :: x in ts ==> x.at <= clock
    ensures LastConvert(ts, createdAt) <= clock
  {
    if |ts| != 0 && !ts[|ts| - 1].ConvertToDraft? {
      LastConvertBound(ts[..|ts| - 1], createdAt, clock);
    }
  }

  lemma ConvertSnoc(ts: seq<Transition>, x: Transition, createdAt: int)
    ensures LastConvert(ts + [x], createdAt) == if x.ConvertToDraft? then x.at else LastConvert(ts, createdAt)
  {
    assert (ts + [x])[..|ts|] == ts;
  }

  predicate IsActivity(e: Event)
  {
    e.Push? || e.Convert?
  }

  predicate Honest(t: int, e: Event)
  {
    e.Push? ==> e.stamp == t
  }

  lemma AppendTransition(ts: seq<Transition>, x: Transition)
    requires Increasing(ts) && forall y :: y in ts ==> y.at < x.at
    ensures Increasing(ts + [x])
  {
    assert forall i :: 0 <= i < |ts| ==> ts[i] in ts;
  }

  lemma ActivityAfter(s: State, t: int, e: Event)
    requires TimelineOk(s) && Apply(s, t, e).Some?
    ensures TimelineOk(Apply(s, t, e).value)
    ensures Activity(s) <= s.clock
    ensures Honest(t, e) && s.lastCommitAt == s.lastPushAt ==>
              Apply(s, t, e).value.lastCommitAt == Apply(s, t, e).value.lastPushAt
    ensures Activity(Apply(s, t, e).value) == if IsActivity(e) then t else Activity(s)
    ensures !IsActivity(e) ==> SeenActivity(Apply(s, t, e).value) == SeenActivity(s)
  {
    hide IsStale, DraftAction, View, Increasing, LastConvert, LatestDraftActivityAt;
    LastConvertBound(s.transitions, s.createdAt, s.clock);
    if e.Convert? || e.Ready? {
      var x := if e.Convert? then ConvertToDraft(t) else ReadyForReview(t);
      ConvertSnoc(s.transitions, x, s.createdAt);
      AppendTransition(s.transitions, x);
      assert Apply(s, t, e).value.transitions == s.transitions + [x];
    } else {
      assert Apply(s, t, e).value.transitions == s.transitions;
    }
  }

  // ---------- At most one comment of a kind per activity epoch ----------

  predicate AllHonest(events: seq<(int, Event)>)
  {
    forall i :: 0 <= i < |events| ==> Honest(events[i].0, events[i].1)
  }

  ghost predicate AtMostOne(s: State)
  {
    forall i, j :: 0 <= i < j < |s.records| && s.records[i].marker == s.records[j].marker ==>
      s.records[i].at < Epoch(s) || s.records[j].at < Epoch(s)
  }

  ghost predicate TrackInvariant(s: State)
  {
    && Invariant(s) && TimelineOk(s) && AtMostOne(s)
    && (s.phase != Idle ==> s.phase.activity <= Epoch(s))
  }

  lemma PostKeepsAtMostOne(s: State, t: int)
    requires TrackInvariant(s) && Apply(s, t, Post).Some?
    ensures AtMostOne(Apply(s, t, Post).value)
  {
    hide TimelineOk, RecordOk, Counts;
    var s' := Apply(s, t, Post).value;
    var m, n := s.phase.action.post.value, |s.records|;
    forall i | 0 <= i < n && s.records[i].marker == m
      ensures s.records[i].at < Epoch(s)
    {
      NotCounted(s, m, s.records[i]);
    }
    assert Epoch(s') == Epoch(s);
  }

  lemma NotCounted(s: State, m: Marker, r: Record)
    requires Invariant(s) && s.phase.Decided? && s.phase.action.Act? && s.phase.action.post == Some(m)
    requires r in s.records && r.marker == m
    ensures r.at < s.phase.activity
  {
    var c := Comment(r.at, Some(m));
    assert c in s.comments;
    assert !Counts(c, m, s.phase.activity);
  }

  lemma TrackStep(s: State, t: int, e: Event)
    requires TrackInvariant(s) && Apply(s, t, e).Some?
    ensures TrackInvariant(Apply(s, t, e).value)
  {
    hide IsStale, DraftAction, View, Invariant, TimelineOk, Activity, SeenActivity;
    StepKeepsInvariant(s, t, e);
    ActivityAfter(s, t, e);
    PhaseIsOld(s);
    if e == Post {
      PostKeepsAtMostOne(s, t);
    } else {
      RecordsAreOld(s);
      assert Apply(s, t, e).value.records == s.records;
    }
    if e.Begin? {
      BeginSeesActivity(s, t, e.now);
    }
  }

  lemma RecordsAreOld(s: State)
    requires Invariant(s)
    ensures forall i :: 0 <= i < |s.records| ==> s.records[i].at <= s.clock
  {
    forall i | 0 <= i < |s.records|
      ensures s.records[i].at <= s.clock
    {
      assert RecordOk(s.records, s.records[i], s.clock, s.lastNow);
    }
  }

  lemma PhaseIsOld(s: State)
    requires Invariant(s)
    ensures s.phase != Idle ==> s.phase.activity <= s.clock
  {
  }

  lemma BeginSeesActivity(s: State, t: int, now: int)
    requires TimelineOk(s) && Apply(s, t, Begin(now)).Some?
    ensures var s' := Apply(s, t, Begin(now)).value;
            && Activity(s') == Activity(s) && SeenActivity(s') == SeenActivity(s)
            && (s'.phase != Idle ==> s'.phase.activity == SeenActivity(s))
            && (s'.phase != Idle && s.lastCommitAt == s.lastPushAt ==> s'.phase.activity == Activity(s))
  {
    var later := s.(clock := t);
    ViewShowsActivity(later);
    assert Activity(later) == Activity(s) && SeenActivity(later) == SeenActivity(s);
  }

  lemma {:induction false} TrackHistories(s: State, events: seq<(int, Event)>)
    requires TrackInvariant(s) && Execute(s, events).Some?
    ensures TrackInvariant(Execute(s, events).value)
    decreases |events|
  {
    hide Apply, TrackInvariant;
    if |events| != 0 {
      TrackStep(s, events[0].0, events[0].1);
      TrackHistories(Apply(s, events[0].0, events[0].1).value, events[1..]);
    }
  }

  lemma NewIsTracked(s: State)
    requires IsNew(s)
    ensures TrackInvariant(s)
  {
  }

  /** Since the last activity, or the time on the last commit if that is later, at most one warning and at
      most one explanation were posted: in every history, whatever times the commits carry. */
  lemma AtMostOneCommentPerEpoch(s: State, events: seq<(int, Event)>, i: nat, j: nat)
    requires IsNew(s) && Execute(s, events).Some?
    requires var end := Execute(s, events).value;
             i < j < |end.records| && end.records[i].marker == end.records[j].marker
    ensures var end := Execute(s, events).value; end.records[i].at < Epoch(end) || end.records[j].at < Epoch(end)
  {
    NewIsTracked(s);
    TrackHistories(s, events);
  }

  /** A comment repeats one of its kind since the last activity exactly when the time on the last commit,
      as the run saw it, lies after that one. */
  lemma RepeatsIff(s: State, events: seq<(int, Event)>, t: int)
    requires IsNew(s) && Execute(s, events).Some? && Apply(Execute(s, events).value, t, Post).Some?
    ensures var mid := Execute(s, events).value;
            var m := mid.phase.action.post.value;
            (exists r :: r in mid.records && r.marker == m && Activity(mid) <= r.at)
            <==> exists r :: r in mid.records && r.marker == m && Activity(mid) <= r.at < mid.phase.activity
  {
    hide Execute, Activity;
    NewIsTracked(s);
    TrackHistories(s, events);
    var mid := Execute(s, events).value;
    var m := mid.phase.action.post.value;
    forall r | r in mid.records && r.marker == m
      ensures r.at < mid.phase.activity
    {
      NotCounted(mid, m, r);
    }
  }

  // ---------- Histories in which no commit is dated later than its push ----------

  predicate NotAhead(t: int, e: Event)
  {
    e.Push? ==> e.stamp <= t
  }

  predicate NoneAhead(events: seq<(int, Event)>)
  {
    forall i :: 0 <= i < |events| ==> NotAhead(events[i].0, events[i].1)
  }

  predicate CommitNotAhead(s: State)
  {
    s.lastCommitAt.Some? && s.lastPushAt.Some? ==> s.lastCommitAt.value <= s.lastPushAt.value
  }

  lemma StepNotAhead(s: State, t: int, e: Event)
    requires CommitNotAhead(s) && NotAhead(t, e) && Apply(s, t, e).Some?
    ensures CommitNotAhead(Apply(s, t, e).value)
  {
    hide IsStale, DraftAction, View, LatestDraftActivityAt;
  }

  lemma {:induction false} NoCommitAhead(s: State, events: seq<(int, Event)>)
    requires CommitNotAhead(s) && NoneAhead(events) && Execute(s, events).Some?
    ensures CommitNotAhead(Execute(s, events).value)
    decreases |events|
  {
    hide Apply, CommitNotAhead, NotAhead;
    if |events| != 0 {
      StepNotAhead(s, events[0].0, events[0].1);
      assert forall i :: 0 <= i < |events[1..]| ==> events[1..][i] == events[i + 1];
      NoCommitAhead(Apply(s, events[0].0, events[0].1).value, events[1..]);
    }
  }

  /** Then the same holds since the last activity itself. */
  lemma AtMostOneSinceActivity(s: State, events: seq<(int, Event)>, i: nat, j: nat)
    requires IsNew(s) && CommitNotAhead(s) && NoneAhead(events) && Execute(s, events).Some?
    requires var end := Execute(s, events).value;
             i < j < |end.records| && end.records[i].marker == end.records[j].marker
    ensures var end := Execute(s, events).value;
            end.records[i].at < Activity(end) || end.records[j].at < Activity(end)
  {
    hide Execute, LastConvert;
    AtMostOneCommentPerEpoch(s, events, i, j);
    NoCommitAhead(s, events);
    NewIsTracked(s);
    TrackHistories(s, events);
    assert TimelineOk(Execute(s, events).value);
  }

  // ---------- Histories in which commits carry the time of their push ----------

  ghost predicate HonestInvariant(s: State)
  {
    TrackInvariant(s) && s.lastCommitAt == s.lastPushAt
  }

  lemma HonestStep(s: State, t: int, e: Event)
    requires HonestInvariant(s) && Apply(s, t, e).Some? && Honest(t, e)
    ensures HonestInvariant(Apply(s, t, e).value)
  {
    hide Apply, Invariant, TimelineOk, Activity, Honest, AtMostOne;
    TrackStep(s, t, e);
    ActivityAfter(s, t, e);
  }

  lemma {:induction false} HonestHistories(s: State, events: seq<(int, Event)>)
    requires HonestInvariant(s) && AllHonest(events) && Execute(s, events).Some?
    ensures HonestInvariant(Execute(s, events).value)
    decreases |events|
  {
    hide Apply, HonestInvariant, Honest;
    if |events| != 0 {
      HonestStep(s, events[0].0, events[0].1);
      assert forall i :: 0 <= i < |events[1..]| ==> events[1..][i] == events[i + 1];
      HonestHistories(Apply(s, events[0].0, events[0].1).value, events[1..]);
    }
  }

  predicate IsNewHonest(s: State)
  {
    IsNew(s) && s.lastCommitAt == s.lastPushAt
  }

  lemma NewIsHonest(s: State)
    requires IsNewHonest(s)
    ensures HonestInvariant(s)
  {
  }

  // ---------- Closing only after a warning that followed three quiet weeks ----------

  /** No push and no conversion happens while the bot is between its snapshot and its last call. */
  predicate QuietRuns(s: State, events: seq<(int, Event)>)
    decreases |events|
  {
    |events| == 0 ||
    ((IsActivity(events[0].1) ==> s.phase == Idle)
     && (Apply(s, events[0].0, events[0].1).Some? ==> QuietRuns(Apply(s, events[0].0, events[0].1).value, events[1..])))
  }

  /** The warning came 21 days after the last activity that the close saw, was followed by none
      before it, and was seven days old. */
  predicate ProperlyWarned(w: Record, c: Closing)
  {
    && w.marker == DraftWarning && w.at - c.activity >= DRAFT_WARNING_AFTER && c.activity <= w.at
    && c.now - w.at >= DRAFT_CLOSE_AFTER_WARNING
  }

  ghost predicate QuietInvariant(s: State)
  {
    && HonestInvariant(s)
    && (s.phase != Idle ==> s.phase.activity == Activity(s))
    && (forall r :: r in s.records && Activity(s) <= r.at ==> r.activity == Activity(s))
    && (forall c :: c in s.closings ==> exists w :: w in s.records && ProperlyWarned(w, c))
  }

  lemma CloseIsProperlyWarned(s: State, t: int)
    requires QuietInvariant(s) && Apply(s, t, Close).Some?
    ensures exists w :: w in s.records && ProperlyWarned(w, Closing(t, s.phase.now, s.phase.activity))
  {
    var c := Closing(t, s.phase.now, s.phase.activity);
    JustifiedMeansWarned(s, c.now);
    var w :| w in s.records && Warned(w, c.activity, c.now);
    assert w.activity == c.activity;
    assert ProperlyWarned(w, c);
  }

  /** An explanation of the same epoch carries its own warning over. */
  lemma JustifiedMeansWarned(s: State, now: int)
    requires QuietInvariant(s) && Justified(s.records, Activity(s), now)
    ensures exists w :: w in s.records && Warned(w, Activity(s), now)
  {
    var activity := Activity(s);
    if x :| x in s.records && IsExplained(s.records, x) && activity <= x.at && x.now <= now {
      assert x.activity == activity;
      var w :| w in s.records && Warned(w, x.activity, x.now);
      assert Warned(w, activity, now);
    }
  }

  lemma RecordsStayCurrent(s: State, t: int, e: Event)
    requires QuietInvariant(s) && Apply(s, t, e).Some? && Honest(t, e)
    requires IsActivity(e) ==> s.phase == Idle
    ensures var s' := Apply(s, t, e).value; forall r :: r in s'.records && Activity(s') <= r.at ==>
        r.activity == Activity(s')
  {
    hide IsStale, DraftAction, View, HonestInvariant, ProperlyWarned, Activity, TimelineOk, Invariant,
        LatestDraftActivityAt;
    var s' := Apply(s, t, e).value;
    HonestParts(s);
    ActivityAfter(s, t, e);
    RecordsAreOld(s);
    forall r | r in s'.records && Activity(s') <= r.at
      ensures r.activity == Activity(s')
    {
      if r in s.records {
        var i :| 0 <= i < |s.records| && s.records[i] == r;
      }
    }
  }

  lemma PhaseStaysCurrent(s: State, t: int, e: Event)
    requires QuietInvariant(s) && Apply(s, t, e).Some? && Honest(t, e)
    requires IsActivity(e) ==> s.phase == Idle
    ensures var s' := Apply(s, t, e).value; s'.phase != Idle ==> s'.phase.activity == Activity(s')
  {
    hide DraftAction, View, HonestInvariant, ProperlyWarned, Activity, TimelineOk, Invariant, LatestDraftActivityAt,
        IsStale;
    HonestParts(s);
    ActivityAfter(s, t, e);
    if e.Begin? {
      BeginSeesActivity(s, t, e.now);
    }
  }

  lemma QuietStep(s: State, t: int, e: Event)
    requires QuietInvariant(s) && Apply(s, t, e).Some? && Honest(t, e)
    requires IsActivity(e) ==> s.phase == Idle
    ensures QuietInvariant(Apply(s, t, e).value)
  {
    hide IsStale, DraftAction, View, HonestInvariant, ProperlyWarned, Activity, Honest, LatestDraftActivityAt;
    var s' := Apply(s, t, e).value;
    HonestStep(s, t, e);
    RecordsStayCurrent(s, t, e);
    PhaseStaysCurrent(s, t, e);
    if e == Close {
      CloseIsProperlyWarned(s, t);
    }
    assert forall w :: w in s.records ==> w in s'.records;
  }

  lemma HonestParts(s: State)
    requires HonestInvariant(s)
    ensures Invariant(s) && TimelineOk(s) && s.lastCommitAt == s.lastPushAt
  {
  }

  lemma {:induction false} QuietHistories(s: State, events: seq<(int, Event)>)
    requires QuietInvariant(s) && AllHonest(events) && QuietRuns(s, events) && Execute(s, events).Some?
    ensures QuietInvariant(Execute(s, events).value)
    decreases |events|
  {
    hide Apply, QuietInvariant, Honest, IsActivity;
    if |events| != 0 {
      QuietStep(s, events[0].0, events[0].1);
      assert forall i :: 0 <= i < |events[1..]| ==> events[1..][i] == events[i + 1];
      QuietHistories(Apply(s, events[0].0, events[0].1).value, events[1..]);
    }
  }

  /** With honest commit times and quiet runs, no draft is closed without a warning at least seven
      days old that was posted at least 21 days after the last activity and followed by none. */
  lemma NoCloseWithoutProperWarning(s: State, events: seq<(int, Event)>, c: Closing)
    requires IsNewHonest(s) && AllHonest(events) && QuietRuns(s, events) && Execute(s, events).Some?
    requires c in Execute(s, events).value.closings
    ensures exists w :: w in Execute(s, events).value.records && ProperlyWarned(w, c)
  {
    NewIsQuiet(s);
    QuietHistories(s, events);
  }

  /** The activity that such a close saw is the last one on the pull request at that moment. */
  lemma CloseSeesLastActivity(s: State, before: seq<(int, Event)>, t: int)
    requires IsNewHonest(s) && AllHonest(before) && QuietRuns(s, before) && Execute(s, before).Some?
    requires Apply(Execute(s, before).value, t, Close).Some?
    ensures var mid := Execute(s, before).value;
            Apply(mid, t, Close).value.closings == mid.closings + [Closing(t, mid.phase.now, Activity(mid))]
  {
    hide Execute, Activity;
    NewIsQuiet(s);
    QuietHistories(s, before);
    assert QuietInvariant(Execute(s, before).value);
  }

  lemma NewIsQuiet(s: State)
    requires IsNewHonest(s)
    ensures QuietInvariant(s)
  {
    NewIsHonest(s);
  }
}
