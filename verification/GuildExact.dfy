/** When the check-in behind a clear was a proper one: exactly when neither of the two runs missed the
    assignee's last activity. */
module GuildExact {
  import opened Wrappers
  import opened GuildSweep
  import opened GuildHistory
  import opened GuildSafety

  // ---------- What a run can miss ----------

  /** The run saw this user's activity up to the time at which it fetched the comments. */
  ghost predicate SawUntil(s: State, user: string, activity: int, fetchedAt: int)
  {
    forall x :: WasActive(s, user, x) ==> x <= activity || x > fetchedAt
  }

  ghost predicate PhaseSaw(s: State)
  {
    match s.phase
    case Fetched(_, user, fetchedAt, comments) =>
      forall c :: c in s.comments && IsReply(c, user) ==> c in comments || c.at > fetchedAt
    case Decided(_, user, fetchedAt, activity, _) => SawUntil(s, user, activity, fetchedAt)
    case _ => true
  }

  ghost predicate WasAssigned(s: State, user: string)
  {
    exists at :: Assignment(at, user) in s.assignments
  }

  ghost predicate SeenInvariant(s: State)
  {
    && Invariant(s) && PhaseSaw(s)
    && (forall r :: r in s.records ==> SawUntil(s, r.user, r.activity, r.fetchedAt))
    && (s.assignee.Some? ==> WasAssigned(s, s.assignee.value))
  }

  lemma SawStays(s: State, t: int, e: Event, user: string, activity: int, fetchedAt: int)
    requires Apply(s, t, e).Some? && SawUntil(s, user, activity, fetchedAt) && fetchedAt <= s.clock
    ensures SawUntil(Apply(s, t, e).value, user, activity, fetchedAt)
  {
    hide Apply, WasActive;
    AssigneeAfter(s, t, e);
    forall x | WasActive(Apply(s, t, e).value, user, x)
      ensures x <= activity || x > fetchedAt
    {
      ActivityAfter(s, t, e, user, x);
    }
  }

  lemma DecisionSaw(s: State)
    requires s.phase.Fetched? && PhaseSaw(s) && DecideNext(s).Decided?
    ensures SawUntil(s, s.phase.user, DecideNext(s).activity, s.phase.fetchedAt)
  {
    hide LatestAssignmentTime, LastActivity, DecideFor;
    var user := s.phase.user;
    var at := LatestAssignmentTime(s.assignments, user).value;
    LatestAssignmentSpec(s.assignments, user);
    LastActivitySpec(at, s.phase.comments, user);
    forall x | WasActive(s, user, x)
      ensures x <= DecideNext(s).activity || x > s.phase.fetchedAt
    {
      if Assignment(x, user) in s.assignments {
        assert x <= at;
      } else {
        assert IsReply(Comment(x, user, false), user);
      }
    }
  }

  lemma SawOfSameLogs(s: State, s': State, user: string, activity: int, fetchedAt: int)
    requires s.assignments == s'.assignments && s.comments == s'.comments
    ensures SawUntil(s, user, activity, fetchedAt) <==> SawUntil(s', user, activity, fetchedAt)
  {
    hide WasActive;
    SameActivity(s, s');
  }

  lemma StepPhaseSaw(s: State, t: int, e: Event)
    requires SeenInvariant(s) && Apply(s, t, e).Some?
    ensures PhaseSaw(Apply(s, t, e).value)
  {
    hide DecideFor, RecordOk, Matches, Alternates, Justified, SawUntil;
    var s' := Apply(s, t, e).value;
    if e == FetchTimeline {
      var at := s.(clock := t);
      SameDecision(s, at);
      if s'.phase.Decided? {
        DecisionSaw(at);
        SawOfSameLogs(at, s', s'.phase.user, s'.phase.activity, s'.phase.fetchedAt);
      }
    } else if s.phase.Decided? && s'.phase.Decided? {
      SawStays(s, t, e, s.phase.user, s.phase.activity, s.phase.fetchedAt);
    }
  }

  lemma SameDecision(s: State, s': State)
    requires s.phase.Fetched? && s.phase == s'.phase && s.assignments == s'.assignments && s.comments == s'.comments
    ensures DecideNext(s) == DecideNext(s') && (PhaseSaw(s) ==> PhaseSaw(s'))
  {
  }

  lemma StepRecordsSaw(s: State, t: int, e: Event, r: Record)
    requires SeenInvariant(s) && Apply(s, t, e).Some? && r in Apply(s, t, e).value.records
    ensures SawUntil(Apply(s, t, e).value, r.user, r.activity, r.fetchedAt)
  {
    hide Apply, SawUntil, Matches, Alternates, Justified, WasActive;
    NewLogs(s, t, e);
    if r in s.records {
      assert RecordOk(s, r);
      SawStays(s, t, e, r.user, r.activity, r.fetchedAt);
    } else {
      PostPhase(s, t);
      SawStays(s, t, e, r.user, r.activity, r.fetchedAt);
    }
  }

  lemma PostPhase(s: State, t: int)
    requires Apply(s, t, Post).Some?
    ensures s.phase.Decided? && s.phase.action == CheckIn
  {
  }

  lemma StepWasAssigned(s: State, t: int, e: Event)
    requires SeenInvariant(s) && Apply(s, t, e).Some?
    ensures var s' := Apply(s, t, e).value; s'.assignee.Some? ==> WasAssigned(s', s'.assignee.value)
  {
    hide Invariant, SawUntil, PhaseSaw, Apply;
    var s' := Apply(s, t, e).value;
    AssigneeAfter(s, t, e);
    StepGrows(s, t, e);
    if e.Assign? {
      AssignLogs(s, t, e.user);
    } else if s'.assignee.Some? {
      var at :| Assignment(at, s.assignee.value) in s.assignments;
      assert Assignment(at, s.assignee.value) in s'.assignments;
    }
  }

  lemma AssignLogs(s: State, t: int, user: string)
    requires Apply(s, t, Assign(user)).Some?
    ensures Assignment(t, user) in Apply(s, t, Assign(user)).value.assignments
  {
  }

  lemma {:induction false} SeenHistories(s: State, events: seq<(int, Event)>)
    requires SeenInvariant(s) && Execute(s, events).Some?
    ensures SeenInvariant(Execute(s, events).value)
    decreases |events|
  {
    hide Apply, Invariant, PhaseSaw, SawUntil, WasAssigned;
    if |events| != 0 {
      var t, e := events[0].0, events[0].1;
      StepKeepsInvariant(s, t, e);
      StepPhaseSaw(s, t, e);
      StepWasAssigned(s, t, e);
      forall r | r in Apply(s, t, e).value.records
        ensures SawUntil(Apply(s, t, e).value, r.user, r.activity, r.fetchedAt)
      {
        StepRecordsSaw(s, t, e, r);
      }
      SeenHistories(Apply(s, t, e).value, events[1..]);
    }
  }

  // ---------- The exact condition ----------

  /** The user's last assignment or comment on the server */
  function RealActivity(s: State, user: string): Option<int>
  {
    match LatestAssignmentTime(s.assignments, user)
    case None => None
    case Some(at) => Some(LastActivity(at, s.comments, user))
  }

  lemma RealIsLast(s: State, user: string)
    requires WasAssigned(s, user)
    ensures RealActivity(s, user).Some?
    ensures var last := RealActivity(s, user).value; WasActive(s, user, last) && NoneAfter(s, user, last)
  {
    hide LatestAssignmentTime, LastActivity;
    var x :| Assignment(x, user) in s.assignments;
    LatestAssignmentSpec(s.assignments, user);
    var at := LatestAssignmentTime(s.assignments, user).value;
    LastActivitySpec(at, s.comments, user);
    var last := LastActivity(at, s.comments, user);
    SeenActivityIsReal(s, s.comments, user, at);
    forall y | WasActive(s, user, y)
      ensures y <= last
    {
      if Assignment(y, user) !in s.assignments {
        assert IsReply(Comment(y, user, false), user);
      }
    }
  }

  /** A check-in to the user fourteen days after that activity and seven days before the clearing run */
  predicate IsProper(w: Record, user: string, activity: int, now: int)
  {
    && w.user == user && w.at - activity >= CHECK_IN_AFTER_DAYS * DAY
    && now - w.at >= AUTO_CLEAR_AFTER_DAYS * DAY
  }

  ghost predicate HasProperCheckIn(s: State, user: string, activity: int, now: int)
  {
    exists w :: w in s.records && IsProper(w, user, activity, now)
  }

  ghost predicate WasNudged(s: State, user: string, activity: int)
  {
    exists w :: w in s.records && w.user == user && w.activity == activity
  }

  /** No run took fourteen days from fetching the comments to its check-in. */
  predicate ShortRuns(s: State)
  {
    forall r :: r in s.records ==> r.at - r.fetchedAt < CHECK_IN_AFTER_DAYS * DAY
  }

  lemma SeenIsProper(s: State, user: string)
    requires Invariant(s) && s.phase.Decided? && s.phase.action == Clear && WasNudged(s, user, s.phase.activity)
    ensures HasProperCheckIn(s, user, s.phase.activity, s.phase.now)
  {
    hide Matches, WasActive;
    var activity, now := s.phase.activity, s.phase.now;
    var w :| w in s.records && w.user == user && w.activity == activity;
    var v :| v in s.records && Nudged(v, activity, now);
    var i, j :| 0 <= i < |s.records| && 0 <= j < |s.records| && s.records[i] == w && s.records[j] == v;
    assert RecordOk(s, w);
    assert i <= j;
    assert w.at <= v.at;
    assert IsProper(w, user, activity, now);
  }

  lemma ProperIsSeen(s: State, last: int)
    requires SeenInvariant(s) && ShortRuns(s) && s.phase.Decided?
    requires WasActive(s, s.phase.user, last) && NoneAfter(s, s.phase.user, last)
    requires HasProperCheckIn(s, s.phase.user, last, s.phase.now)
    ensures s.phase.activity == last && WasNudged(s, s.phase.user, last)
  {
    hide Matches, WasActive, Alternates;
    var user := s.phase.user;
    var w :| w in s.records && IsProper(w, user, last, s.phase.now);
    assert RecordOk(s, w) && SawUntil(s, user, w.activity, w.fetchedAt);
    assert w.activity == last;
    assert PhaseOk(s) && SawUntil(s, user, s.phase.activity, s.phase.fetchedAt);
  }

  /** When the sweep clears an assignment, there is a check-in to the assignee at least seven days old that
      came at least fourteen days after their last activity, and hence was followed by none, if and only if
      the clearing run saw that activity and so did the run of a check-in to them. */
  lemma ProperlyNudgedIff(start: State, events: seq<(int, Event)>, t: int)
    requires IsNew(start) && Execute(start, events).Some?
    requires var s := Execute(start, events).value;
             Apply(s, t, RemoveAssignee).Some? && s.assignee == Some(s.phase.user) && ShortRuns(s)
    ensures var s := Execute(start, events).value;
            var user, last := s.phase.user, RealActivity(s, s.phase.user);
            && last.Some?
            && (HasProperCheckIn(s, user, last.value, s.phase.now) <==>
                  s.phase.activity == last.value && WasNudged(s, user, last.value))
  {
    hide Execute, HasProperCheckIn, WasNudged, ShortRuns, RealActivity, WasAssigned;
    var s := Execute(start, events).value;
    assert SeenInvariant(start);
    SeenHistories(start, events);
    var user := s.phase.user;
    RealIsLast(s, user);
    var last := RealActivity(s, user).value;
    if s.phase.activity == last && WasNudged(s, user, last) {
      SeenIsProper(s, user);
    }
    if HasProperCheckIn(s, user, last, s.phase.now) {
      ProperIsSeen(s, last);
    }
  }

  /** The half that the safety needs holds for runs of any length. */
  lemma SeenIsEnough(start: State, events: seq<(int, Event)>, t: int, last: int)
    requires IsNew(start) && Execute(start, events).Some?
    requires var s := Execute(start, events).value;
             Apply(s, t, RemoveAssignee).Some? && RealActivity(s, s.phase.user) == Some(last)
    requires var s := Execute(start, events).value; s.phase.activity == last && WasNudged(s, s.phase.user, last)
    ensures var s := Execute(start, events).value; HasProperCheckIn(s, s.phase.user, last, s.phase.now)
  {
    hide Execute, HasProperCheckIn, WasNudged, RealActivity;
    HistoriesKeepInvariant(start, events);
    SeenIsProper(Execute(start, events).value, Execute(start, events).value.phase.user);
  }

  // ---------- A reply during a run ----------

  const FORTNIGHT := 14 * DAY

  /** The assignee replies after the run fetched the comments: the check-in is posted two seconds
      later, and counts for a clear a week later. */
  const RACE := [
    (1, Assign("a")), (FORTNIGHT + 2, Begin(FORTNIGHT + 1)), (FORTNIGHT + 3, FetchComments),
        (FORTNIGHT + 4, Reply("a")),
    (FORTNIGHT + 5, FetchTimeline), (FORTNIGHT + 6, Post), (21 * DAY + 7, Begin(21 * DAY + 6)),
        (21 * DAY + 8, FetchComments),
    (21 * DAY + 9, FetchTimeline), (21 * DAY + 10, RemoveAssignee)]

  const NEW_ISSUE := State(0, 0, false, None, [], [], Idle, [], [])

  lemma Then(s: State, i: nat, next: State)
    requires i < |RACE| && Apply(s, RACE[i].0, RACE[i].1) == Some(next)
    ensures Execute(s, RACE[i..]) == Execute(next, RACE[i + 1..])
  {
    hide Apply;
    assert RACE[i..][0] == RACE[i] && RACE[i..][1..] == RACE[i + 1..];
  }

  const ASSIGNED := [Assignment(1, "a")]
  const REPLY := Comment(FORTNIGHT + 4, "a", false)
  const NUDGE := Record(FORTNIGHT + 6, "a", FORTNIGHT + 1, FORTNIGHT + 3, 1)
  const COMMENTS := [REPLY, Comment(FORTNIGHT + 6, "", true)]
  const RACED := State(FORTNIGHT + 6, FORTNIGHT + 1, false, Some("a"), ASSIGNED, COMMENTS, Idle, [NUDGE], [])

  lemma FirstDecision()
    ensures LatestAssignmentTime(ASSIGNED, "a") == Some(1)
    ensures LastActivity(1, [], "a") == 1 && DecideFor(1, [], "a", FORTNIGHT + 1) == CheckIn
  {
    assert ASSIGNED[..0] == [];
  }

  lemma SecondDecision()
    ensures LastActivity(1, COMMENTS, "a") == FORTNIGHT + 4 && DecideFor(1, COMMENTS, "a", 21 * DAY + 6) == Clear
  {
    assert COMMENTS[..1] == [REPLY] && [REPLY][..0] == [];
    assert LastActivity(1, [REPLY], "a") == FORTNIGHT + 4;
    assert CheckInAt([REPLY]) == None && CheckInAt(COMMENTS) == Some(FORTNIGHT + 6);
  }

  const FETCHED := State(FORTNIGHT + 3, FORTNIGHT + 1, false, Some("a"), ASSIGNED, [],
                         Fetched(FORTNIGHT + 1, "a", FORTNIGHT + 3, []), [], [])

  lemma FetchBeforeReply()
    ensures Execute(NEW_ISSUE, RACE) == Execute(FETCHED, RACE[3..])
  {
    hide DecideNext;
    var s1 := State(1, 0, false, Some("a"), ASSIGNED, [], Idle, [], []);
    var s2 := s1.(clock := FORTNIGHT + 2, lastNow := FORTNIGHT + 1, phase := Listed(FORTNIGHT + 1, "a"));
    assert NEW_ISSUE.assignments + [Assignment(1, "a")] == ASSIGNED;
    Then(NEW_ISSUE, 0, s1);
    Then(s1, 1, s2);
    Then(s2, 2, FETCHED);
    assert RACE[0..] == RACE;
  }

  lemma CheckInAfterReply()
    ensures Execute(FETCHED, RACE[3..]) == Execute(RACED, RACE[6..])
  {
    hide LatestAssignmentTime, LastActivity, DecideFor;
    var s4 := FETCHED.(clock := FORTNIGHT + 4, comments := [REPLY]);
    var s5 := s4.(clock := FORTNIGHT + 5, phase := Decided(FORTNIGHT + 1, "a", FORTNIGHT + 3, 1, CheckIn));
    assert FETCHED.comments + [REPLY] == [REPLY];
    Then(FETCHED, 3, s4);
    FirstDecision();
    Then(s4, 4, s5);
    assert [REPLY] + [Comment(FORTNIGHT + 6, "", true)] == COMMENTS;
    assert s5.records + [NUDGE] == [NUDGE];
    Then(s5, 5, RACED);
  }

  lemma SecondRun()
    ensures Execute(RACED, RACE[6..]).Some?
    ensures var end := Execute(RACED, RACE[6..]).value;
            end.records == [NUDGE] && end.clearings == [Clearing(21 * DAY + 10, "a", 21 * DAY + 6, FORTNIGHT + 4)]
  {
    hide LatestAssignmentTime, LastActivity, DecideFor;
    var s7 := RACED.(clock := 21 * DAY + 7, lastNow := 21 * DAY + 6, phase := Listed(21 * DAY + 6, "a"));
    var s8 := s7.(clock := 21 * DAY + 8, phase := Fetched(21 * DAY + 6, "a", 21 * DAY + 8, COMMENTS));
    var s9 := s8.(clock := 21 * DAY + 9, phase := Decided(21 * DAY + 6, "a", 21 * DAY + 8, FORTNIGHT + 4, Clear));
    Then(RACED, 6, s7);
    Then(s7, 7, s8);
    FirstDecision();
    SecondDecision();
    Then(s8, 8, s9);
    Then(s9, 9, Apply(s9, 21 * DAY + 10, RemoveAssignee).value);
    assert RACE[10..] == [];
  }

  /** Without quiet runs the check-in behind a clear can come two seconds after the last activity. */
  lemma ReplyDuringRunIsLost()
    ensures IsNew(NEW_ISSUE) && Execute(NEW_ISSUE, RACE).Some?
    ensures var end := Execute(NEW_ISSUE, RACE).value;
            |end.clearings| == 1 && end.clearings[0].activity == FORTNIGHT + 4
            && end.records == [NUDGE] && NUDGE.at - end.clearings[0].activity == 2
  {
    FetchBeforeReply();
    CheckInAfterReply();
    SecondRun();
  }
}
