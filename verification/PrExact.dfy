/** When the warning behind a close was a proper one: exactly when both runs saw all that can be seen of the
    last activity, and that was the whole of it or the warning came late enough. */
module PrExact {
  import opened Wrappers
  import opened PrCleanup
  import opened PrHistory
  import opened PrSafety

  // ---------- Which records come after which ----------

  /** Runs are serial; a comment is posted only without one of its kind since the activity it saw, a warning
      only without an explanation since then, and an explanation only when the warnings since then are
      seven days old. */
  predicate Follows(earlier: Record, later: Record)
  {
    && earlier.at < later.snapshotAt
    && (later.marker == DraftWarning || later.marker == earlier.marker ==> earlier.at < later.activity)
    && (later.marker == DraftClose && earlier.marker == DraftWarning && later.activity <= earlier.at ==>
          later.now - earlier.at >= DRAFT_CLOSE_AFTER_WARNING)
  }

  ghost predicate Ordered(records: seq<Record>)
  {
    forall i, j :: 0 <= i < j < |records| ==> Follows(records[i], records[j])
  }

  /** A run that has not posted yet began after all records. */
  predicate BeganLater(s: State)
  {
    s.phase.Snapshotted? || (s.phase.Decided? && s.phase.action.Act? && s.phase.action.post.Some?) ==>
      forall r :: r in s.records ==> r.at < s.phase.snapshotAt
  }

  ghost predicate OrderInvariant(s: State)
  {
    TrackInvariant(s) && Ordered(s.records) && BeganLater(s)
  }

  lemma PostFollows(s: State, t: int, r: Record)
    requires OrderInvariant(s) && Apply(s, t, Post).Some? && r in s.records
    ensures Follows(r, Record(t, s.phase.action.post.value, s.phase.now, s.phase.snapshotAt, s.phase.activity))
  {
    hide TimelineOk, AtMostOne, RecordOk, Ordered, Activity, DraftAction;
    var c := Comment(r.at, Some(r.marker));
    assert c in s.comments;
    if s.phase.action.post == Some(r.marker) {
      NotCounted(s, r.marker, r);
    }
    if s.phase.action.post == Some(DraftWarning) && r.marker == DraftClose {
      assert !Counts(c, DraftClose, s.phase.activity);
    }
    if s.phase.action.post == Some(DraftClose) && r.marker == DraftWarning && s.phase.activity <= r.at {
      assert Counts(c, DraftWarning, s.phase.activity);
    }
  }

  lemma StepKeepsOrder(s: State, t: int, e: Event)
    requires OrderInvariant(s) && Apply(s, t, e).Some?
    ensures Ordered(Apply(s, t, e).value.records)
  {
    hide TrackInvariant, IsStale, DraftAction, View, Follows, LatestDraftActivityAt;
    var s' := Apply(s, t, e).value;
    if e == Post {
      var r := Record(t, s.phase.action.post.value, s.phase.now, s.phase.snapshotAt, s.phase.activity);
      assert s'.records == s.records + [r];
      forall i, j | 0 <= i < j < |s'.records|
        ensures Follows(s'.records[i], s'.records[j])
      {
        if j == |s.records| {
          assert s.records[i] in s.records;
          PostFollows(s, t, s.records[i]);
        }
      }
    } else {
      assert s'.records == s.records;
    }
  }

  lemma StepBeganLater(s: State, t: int, e: Event)
    requires OrderInvariant(s) && Apply(s, t, e).Some?
    ensures BeganLater(Apply(s, t, e).value)
  {
    hide IsStale, DraftAction, View, Ordered, TimelineOk, AtMostOne, Activity, LatestDraftActivityAt;
    TrackedIsOld(s);
  }

  lemma TrackedIsOld(s: State)
    requires TrackInvariant(s)
    ensures forall r :: r in s.records ==> r.at <= s.clock
  {
    RecordsAreOld(s);
  }

  lemma {:induction false} OrderHistories(s: State, events: seq<(int, Event)>)
    requires OrderInvariant(s) && Execute(s, events).Some?
    ensures OrderInvariant(Execute(s, events).value)
    decreases |events|
  {
    hide Apply, TrackInvariant, Ordered, BeganLater;
    if |events| != 0 {
      TrackStep(s, events[0].0, events[0].1);
      StepKeepsOrder(s, events[0].0, events[0].1);
      StepBeganLater(s, events[0].0, events[0].1);
      OrderHistories(Apply(s, events[0].0, events[0].1).value, events[1..]);
    }
  }

  // ---------- Runs that saw the last activity ----------

  /** A warning 21 days after the last activity and seven days before the closing run */
  predicate IsProper(w: Record, activity: int, now: int)
  {
    && w.marker == DraftWarning && w.at - activity >= DRAFT_WARNING_AFTER
    && now - w.at >= DRAFT_CLOSE_AFTER_WARNING
  }

  ghost predicate HasProperWarning(s: State, now: int)
  {
    exists w :: w in s.records && IsProper(w, Activity(s), now)
  }

  /** A warning whose run saw all that can be seen; if the last commit is older than the last activity, that
      is too little, and the warning has to come 21 days after the activity by itself. */
  predicate SawActivity(s: State, w: Record)
  {
    && w.marker == DraftWarning && w.activity == SeenActivity(s)
    && (Activity(s) <= SeenActivity(s) || w.at - Activity(s) >= DRAFT_WARNING_AFTER)
  }

  ghost predicate NotOvertaken(s: State)
    requires s.phase.Decided?
  {
    s.phase.activity == SeenActivity(s) && exists w :: w in s.records && SawActivity(s, w)
  }

  /** Of two records one follows the other. */
  lemma OneFollows(s: State, v: Record, w: Record)
    requires OrderInvariant(s) && v in s.records && w in s.records
    ensures v == w || Follows(v, w) || Follows(w, v)
  {
    hide TrackInvariant, Follows;
    var i, j :| 0 <= i < |s.records| && 0 <= j < |s.records| && s.records[i] == v && s.records[j] == w;
    assert i == j || Follows(s.records[i], s.records[j]) || Follows(s.records[j], s.records[i]);
  }

  /** A warning whose run saw the activity is no later than any other one that counts for it. */
  lemma WarningIsLast(s: State, w: Record, v: Record, activity: int)
    requires OrderInvariant(s) && w in s.records && v in s.records
    requires w.marker == DraftWarning && w.activity == activity && IsWarning(v) && activity <= v.at
    ensures w.at <= v.at
  {
    OneFollows(s, v, w);
    assert RecordOk(s.records, v, s.clock, s.lastNow);
  }

  /** The explanation behind a close came after the warning, and then some warning since was seven days old. */
  lemma ExplanationAfter(s: State, w: Record, c: Record, activity: int)
    requires OrderInvariant(s) && w in s.records && c in s.records && IsExplained(s.records, c)
    requires w.marker == DraftWarning && w.activity == activity && activity <= c.at
    ensures c.now - w.at >= DRAFT_CLOSE_AFTER_WARNING
  {
    hide TrackInvariant, Ordered;
    OneFollows(s, w, c);
    var v :| v in s.records && Warned(v, c.activity, c.now);
    if w.at < c.activity {
      assert c.activity <= v.at;
    }
  }

  /** When the bot closes, every warning whose run saw the same activity is seven days old. */
  lemma SeenIsOld(s: State, w: Record)
    requires OrderInvariant(s) && s.phase.Decided? && s.phase.action == Act(None, true)
    requires w in s.records && w.marker == DraftWarning && w.activity == s.phase.activity
    ensures s.phase.now - w.at >= DRAFT_CLOSE_AFTER_WARNING
  {
    hide TimelineOk, AtMostOne, Ordered, RecordOk, Follows;
    var now, activity := s.phase.now, s.phase.activity;
    assert Justified(s.records, activity, now);
    if v :| v in s.records && Warned(v, activity, now) {
      WarningIsLast(s, w, v, activity);
    } else {
      var c :| c in s.records && IsExplained(s.records, c) && activity <= c.at && c.now <= now;
      ExplanationAfter(s, w, c, activity);
    }
  }

  lemma SeenIsProper(s: State)
    requires OrderInvariant(s) && s.phase.Decided? && s.phase.action == Act(None, true) && NotOvertaken(s)
    ensures HasProperWarning(s, s.phase.now)
  {
    hide TimelineOk, AtMostOne, Ordered, BeganLater, Activity, SeenActivity;
    var w :| w in s.records && SawActivity(s, w);
    SeenIsOld(s, w);
    assert RecordOk(s.records, w, s.clock, s.lastNow);
    assert IsProper(w, Activity(s), s.phase.now);
  }

  // ---------- The converse ----------

  /** What a run saw is what can be seen, unless some activity came after the run's snapshot. */
  predicate CurrentOrOvertaken(s: State, activity: int, snapshotAt: int)
  {
    activity == SeenActivity(s) || Activity(s) > snapshotAt
  }

  ghost predicate OvertakeInvariant(s: State)
  {
    && TrackInvariant(s)
    && (s.phase != Idle ==> CurrentOrOvertaken(s, s.phase.activity, s.phase.snapshotAt))
    && (forall r :: r in s.records ==> CurrentOrOvertaken(s, r.activity, r.snapshotAt))
  }

  lemma StepKeepsOvertake(s: State, t: int, e: Event)
    requires OvertakeInvariant(s) && Apply(s, t, e).Some?
    ensures OvertakeInvariant(Apply(s, t, e).value)
  {
    hide IsStale, DraftAction, View, Activity, SeenActivity, TimelineOk, AtMostOne, LatestDraftActivityAt;
    TrackStep(s, t, e);
    ActivityAfter(s, t, e);
    SnapshotsAreOld(s);
    hide Invariant;
    if e.Begin? {
      BeginSeesActivity(s, t, e.now);
    }
  }

  lemma SnapshotsAreOld(s: State)
    requires Invariant(s)
    ensures s.phase != Idle ==> s.phase.snapshotAt <= s.clock
    ensures forall r :: r in s.records ==> r.snapshotAt <= s.clock
  {
    forall r | r in s.records
      ensures r.snapshotAt <= s.clock
    {
      assert RecordOk(s.records, r, s.clock, s.lastNow);
    }
  }

  lemma {:induction false} OvertakeHistories(s: State, events: seq<(int, Event)>)
    requires OvertakeInvariant(s) && Execute(s, events).Some?
    ensures OvertakeInvariant(Execute(s, events).value)
    decreases |events|
  {
    hide Apply, OvertakeInvariant;
    if |events| != 0 {
      StepKeepsOvertake(s, events[0].0, events[0].1);
      OvertakeHistories(Apply(s, events[0].0, events[0].1).value, events[1..]);
    }
  }

  /** No run took three weeks from its snapshot to its comment. */
  predicate ShortRuns(s: State)
  {
    forall r :: r in s.records ==> r.at - r.snapshotAt < DRAFT_WARNING_AFTER
  }

  lemma ProperIsSeen(s: State)
    requires OvertakeInvariant(s) && ShortRuns(s) && s.phase.Decided? && HasProperWarning(s, s.phase.now)
    ensures NotOvertaken(s)
  {
    hide Activity, SeenActivity, TimelineOk, AtMostOne, DraftAction;
    var w :| w in s.records && IsProper(w, Activity(s), s.phase.now);
    assert CurrentOrOvertaken(s, w.activity, w.snapshotAt);
    assert SawActivity(s, w);
    assert s.phase.now <= s.phase.snapshotAt;
  }

  /** When the bot closes a stale draft, whatever times the commits carry: there is a warning at least seven
      days old that was posted at least 21 days after the last activity, and hence followed by none, if and
      only if the closing run saw what can be seen of that activity and so did the run of a warning; if the
      last commit hides its push, the warning must also have come 21 days after this. */
  lemma ProperlyWarnedIff(start: State, events: seq<(int, Event)>, t: int)
    requires IsNew(start) && Execute(start, events).Some?
    requires Apply(Execute(start, events).value, t, Close).Some? && ShortRuns(Execute(start, events).value)
    ensures var s := Execute(start, events).value;
            HasProperWarning(s, s.phase.now) <==> NotOvertaken(s)
  {
    hide Execute, HasProperWarning, NotOvertaken, ShortRuns;
    var s := Execute(start, events).value;
    NewIsInvariant(start);
    OrderHistories(start, events);
    OvertakeHistories(start, events);
    hide OrderInvariant, OvertakeInvariant;
    if NotOvertaken(s) {
      SeenIsProper(s);
    }
    if HasProperWarning(s, s.phase.now) {
      ProperIsSeen(s);
    }
  }

  /** When commits carry the time of their push: if and only if both runs saw the last activity. */
  lemma HonestlyWarnedIff(start: State, events: seq<(int, Event)>, t: int)
    requires IsNewHonest(start) && AllHonest(events) && Execute(start, events).Some?
    requires Apply(Execute(start, events).value, t, Close).Some? && ShortRuns(Execute(start, events).value)
    ensures var s := Execute(start, events).value;
            HasProperWarning(s, s.phase.now) <==>
            && s.phase.activity == Activity(s)
            && exists w :: w in s.records && w.marker == DraftWarning && w.activity == Activity(s)
  {
    hide Execute, HasProperWarning, Activity, SeenActivity, ShortRuns;
    var s := Execute(start, events).value;
    ProperlyWarnedIff(start, events, t);
    NewIsHonest(start);
    HonestHistories(start, events);
    ViewShowsActivity(s);
    if w :| w in s.records && w.marker == DraftWarning && w.activity == Activity(s) {
      assert SawActivity(s, w);
    }
  }

  lemma NewIsInvariant(s: State)
    requires IsNew(s)
    ensures OrderInvariant(s) && OvertakeInvariant(s)
  {
  }

  /** One half holds also when runs take long. */
  lemma NotOvertakenIsEnough(start: State, events: seq<(int, Event)>, t: int)
    requires IsNew(start) && Execute(start, events).Some?
    requires Apply(Execute(start, events).value, t, Close).Some? && NotOvertaken(Execute(start, events).value)
    ensures var s := Execute(start, events).value; HasProperWarning(s, s.phase.now)
  {
    hide Execute, HasProperWarning, NotOvertaken;
    NewIsInvariant(start);
    OrderHistories(start, events);
    hide OrderInvariant;
    SeenIsProper(Execute(start, events).value);
  }

  // ---------- Histories in which a run is overtaken, or cannot see a push ----------

  const NEW_DRAFT := State(0, 0, true, true, 0, None, None, [], [], Idle, [], [])

  lemma Then(s: State, events: seq<(int, Event)>, i: nat, next: State)
    requires i < |events| && Apply(s, events[i].0, events[i].1) == Some(next)
    ensures Execute(s, events[i..]) == Execute(next, events[i + 1..])
  {
    hide Apply;
    assert events[i..][0] == events[i] && events[i..][1..] == events[i + 1..];
  }

  const WARNED_AT := 21 * DAY + 3
  const WARN := [(21 * DAY + 1, Begin(21 * DAY)), (21 * DAY + 2, Fetch), (WARNED_AT, Post)]
  const WARNING := Record(WARNED_AT, DraftWarning, 21 * DAY, 21 * DAY + 1, 0)
  const WARNED := State(WARNED_AT, 21 * DAY, true, true, 0, None, None, [], [Comment(WARNED_AT, Some(DraftWarning))],
                        Idle, [WARNING], [])

  lemma WarnRun()
    ensures Execute(NEW_DRAFT, WARN) == Some(WARNED)
  {
    var s1 := NEW_DRAFT.(clock := 21 * DAY + 1, lastNow := 21 * DAY, phase := Snapshotted(21 * DAY, 21 * DAY + 1, 0));
    var s2 := s1.(clock := 21 * DAY + 2, phase := Decided(21 * DAY, 21 * DAY + 1, 0, Act(Some(DraftWarning), false)));
    Then(NEW_DRAFT, WARN, 0, s1);
    Then(s1, WARN, 1, s2);
    assert s2.records + [WARNING] == [WARNING];
    assert s2.comments + [Comment(WARNED_AT, Some(DraftWarning))] == WARNED.comments;
    Then(s2, WARN, 2, WARNED);
    assert WARN[0..] == WARN && WARN[3..] == [];
  }

  /** A run that closes on a single warning at least seven days old */
  lemma CloseRun(s: State, now: int, activity: int)
    requires s.phase == Idle && s.lastNow <= now && s.clock <= now && s.open
    requires s.comments == [Comment(WARNED_AT, Some(DraftWarning))]
    requires LatestDraftActivityAt(View(s)) == Some(activity)
    requires activity <= WARNED_AT && now - WARNED_AT >= DRAFT_CLOSE_AFTER_WARNING &&
        now - activity >= DRAFT_WARNING_AFTER
    ensures var events := ClosingRun(now);
            && Execute(s, events).Some?
            && Execute(s, events).value.closings == s.closings + [Closing(now + 4, now, activity)]
            && Activity(Execute(s, events).value) == Activity(s)
  {
    var events := ClosingRun(now);
    hide DraftAction, LatestDraftActivityAt, View, LastConvert;
    var s1 := s.(clock := now + 1, lastNow := now, phase := Snapshotted(now, now + 1, activity));
    SameView(s, now + 1);
    Then(s, events, 0, s1);
    CountsOne(activity, now);
    var s2 := s1.(clock := now + 2, phase := Decided(now, now + 1, activity, Act(Some(DraftClose), true)));
    Then(s1, events, 1, s2);
    PostAndClose(s2, now, activity);
    assert events[0..] == events;
  }

  lemma PostAndClose(s: State, now: int, activity: int)
    requires s.phase == Decided(now, now + 1, activity, Act(Some(DraftClose), true)) && s.clock == now + 2
    ensures var end := Execute(s, ClosingRun(now)[2..]);
            && end.Some? && end.value.closings == s.closings + [Closing(now + 4, now, activity)]
            && Activity(end.value) == Activity(s)
  {
    hide LastConvert;
    var events := ClosingRun(now);
    var s3 := Apply(s, now + 3, Post).value;
    Then(s, events, 2, s3);
    Then(s3, events, 3, Apply(s3, now + 4, Close).value);
    assert events[4..] == [];
  }

  lemma SameView(s: State, clock: int)
    ensures View(s.(clock := clock)) == View(s)
  {
  }

  lemma CountsOne(activity: int, now: int)
    requires activity <= WARNED_AT && now - WARNED_AT >= DRAFT_CLOSE_AFTER_WARNING
    ensures DraftAction(activity, [Comment(WARNED_AT, Some(DraftWarning))], now) == Act(Some(DraftClose), true)
  {
    var c := Comment(WARNED_AT, Some(DraftWarning));
    var closes := LatestMarkerCommentAt([c], DraftClose, activity);
    var warnings := LatestMarkerCommentAt([c], DraftWarning, activity);
    assert IsLatestMarker([c], DraftClose, activity, closes) && IsLatestMarker([c], DraftWarning, activity, warnings);
    assert c in [c] && Counts(c, DraftWarning, activity);
  }

  lemma {:induction false} ExecuteConcat(s: State, a: seq<(int, Event)>, b: seq<(int, Event)>)
    requires Execute(s, a).Some?
    ensures Execute(s, a + b) == Execute(Execute(s, a).value, b)
    decreases |a|
  {
    hide Apply;
    if |a| == 0 {
      assert a + b == b;
    } else {
      assert (a + b)[0] == a[0] && (a + b)[1..] == a[1..] + b;
      ExecuteConcat(Apply(s, a[0].0, a[0].1).value, a[1..], b);
    }
  }

  function ClosingRun(now: int): seq<(int, Event)>
  {
    [(now + 1, Begin(now)), (now + 2, Fetch), (now + 3, Post), (now + 4, Close)]
  }

  const LATER := WARNED_AT + DRAFT_CLOSE_AFTER_WARNING

  const PUSHED := WARNED.(clock := LATER, lastCommitAt := Some(0), lastPushAt := Some(LATER))

  lemma OldPush()
    ensures Execute(WARNED, [(LATER, Push(0))]) == Some(PUSHED)
  {
    var push := [(LATER, Push(0))];
    Then(WARNED, push, 0, PUSHED);
    assert push[0..] == push && push[1..] == [];
  }

  /** A commit made before the warning of a new draft and pushed a week after it does not save the draft:
      the closing run sees no activity since the draft was opened. */
  lemma OldCommitDoesNotCount()
    ensures var run := WARN + [(LATER, Push(0))] + ClosingRun(LATER);
            && IsNew(NEW_DRAFT) && Execute(NEW_DRAFT, run).Some?
            && Execute(NEW_DRAFT, run).value.closings == [Closing(LATER + 4, LATER, 0)]
            && Activity(Execute(NEW_DRAFT, run).value) == LATER > WARNED_AT
  {
    hide Execute, ClosingRun;
    WarnRun();
    OldPush();
    CloseRun(PUSHED, LATER, 0);
    ExecuteConcat(NEW_DRAFT, WARN, [(LATER, Push(0))]);
    ExecuteConcat(NEW_DRAFT, WARN + [(LATER, Push(0))], ClosingRun(LATER));
  }

  /** A push between the snapshot and the comment of a run, by a commit that carries the given time */
  function Race(stamp: int): seq<(int, Event)>
  {
    [(21 * DAY, Begin(21 * DAY)), (21 * DAY + 1, Push(stamp)), (21 * DAY + 2, Fetch), (WARNED_AT, Post)]
  }

  const EARLY := Record(WARNED_AT, DraftWarning, 21 * DAY, 21 * DAY, 0)

  function Raced(stamp: int): State
  {
    State(WARNED_AT, 21 * DAY, true, true, 0, Some(stamp), Some(21 * DAY + 1), [],
          [Comment(WARNED_AT, Some(DraftWarning))], Idle, [EARLY], [])
  }

  lemma RaceRun(stamp: int)
    ensures Execute(NEW_DRAFT, Race(stamp)) == Some(Raced(stamp))
  {
    var events := Race(stamp);
    var s1 := NEW_DRAFT.(clock := 21 * DAY, lastNow := 21 * DAY, phase := Snapshotted(21 * DAY, 21 * DAY, 0));
    var s2 := s1.(clock := 21 * DAY + 1, lastCommitAt := Some(stamp), lastPushAt := Some(21 * DAY + 1));
    var s3 := s2.(clock := 21 * DAY + 2, phase := Decided(21 * DAY, 21 * DAY, 0, Act(Some(DraftWarning), false)));
    Then(NEW_DRAFT, events, 0, s1);
    Then(s1, events, 1, s2);
    Then(s2, events, 2, s3);
    assert s3.records + [EARLY] == [EARLY];
    assert s3.comments + [Comment(WARNED_AT, Some(DraftWarning))] == Raced(stamp).comments;
    Then(s3, events, 3, Raced(stamp));
    assert events[0..] == events && events[4..] == [];
  }

  /** The warning of such a run comes two seconds after the activity, and the draft is closed three weeks
      later without another one. */
  lemma RaceWarnsTooEarly()
    ensures var now := 42 * DAY + 1;
            var race := Race(21 * DAY + 1);
            var run := race + ClosingRun(now);
            && IsNewHonest(NEW_DRAFT) && AllHonest(run) && Execute(NEW_DRAFT, run).Some?
            && Execute(NEW_DRAFT, race) == Some(Raced(21 * DAY + 1)) && WARNED_AT - Activity(Raced(21 * DAY + 1)) == 2
            && Execute(NEW_DRAFT, run).value.closings == [Closing(now + 4, now, 21 * DAY + 1)]
            && Activity(Execute(NEW_DRAFT, run).value) == 21 * DAY + 1
  {
    hide Execute;
    RaceRun(21 * DAY + 1);
    CloseRun(Raced(21 * DAY + 1), 42 * DAY + 1, 21 * DAY + 1);
    ExecuteConcat(NEW_DRAFT, Race(21 * DAY + 1), ClosingRun(42 * DAY + 1));
  }

  const AHEAD := 21 * DAY + 60
  const SECOND_RUN := AHEAD + 21 * DAY
  const WARN_AGAIN := [(SECOND_RUN + 1, Begin(SECOND_RUN)), (SECOND_RUN + 2, Fetch), (SECOND_RUN + 3, Post)]
  const SECOND := Record(SECOND_RUN + 3, DraftWarning, SECOND_RUN, SECOND_RUN + 1, AHEAD)

  /** Nothing counts before the time that the commit carries. */
  lemma WarnAgain()
    ensures var end := Execute(Raced(AHEAD), WARN_AGAIN);
            end.Some? && end.value.records == [EARLY, SECOND] && Activity(end.value) == 21 * DAY + 1
  {
    var s := Raced(AHEAD);
    var s1 := s.(clock := SECOND_RUN + 1, lastNow := SECOND_RUN,
      phase := Snapshotted(SECOND_RUN, SECOND_RUN + 1, AHEAD));
    SameView(s, SECOND_RUN + 1);
    Then(s, WARN_AGAIN, 0, s1);
    NoneCounts();
    var s2 := s1.(clock := SECOND_RUN + 2,
      phase := Decided(SECOND_RUN, SECOND_RUN + 1, AHEAD, Act(Some(DraftWarning), false)));
    Then(s1, WARN_AGAIN, 1, s2);
    var s3 := Apply(s2, SECOND_RUN + 3, Post).value;
    Then(s2, WARN_AGAIN, 2, s3);
    assert WARN_AGAIN[0..] == WARN_AGAIN && WARN_AGAIN[3..] == [];
    assert s3.records == [EARLY] + [SECOND];
  }

  lemma NoneCounts()
    ensures DraftAction(AHEAD, [Comment(WARNED_AT, Some(DraftWarning))], SECOND_RUN) == Act(Some(DraftWarning), false)
  {
    DecisionIff(AHEAD, [Comment(WARNED_AT, Some(DraftWarning))], SECOND_RUN);
  }

  /** A commit dated 59 seconds ahead and pushed during a run: the warning of that run does not count, and
      another one follows three weeks later, both after the last activity. */
  lemma CommitAheadWarnsTwice()
    ensures var run := Race(AHEAD) + WARN_AGAIN;
            && IsNew(NEW_DRAFT) && Execute(NEW_DRAFT, run).Some?
            && Execute(NEW_DRAFT, run).value.records == [EARLY, SECOND]
            && EARLY.marker == SECOND.marker
            && Activity(Execute(NEW_DRAFT, run).value) < EARLY.at < SECOND.at
  {
    hide Execute, Race;
    RaceRun(AHEAD);
    WarnAgain();
    ExecuteConcat(NEW_DRAFT, Race(AHEAD), WARN_AGAIN);
  }
}
