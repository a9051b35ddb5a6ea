/** Stronger safety of the check-in protocol when the assignee is silent during each run, and what
    goes wrong otherwise. */
module GuildSafety {
  import opened Wrappers
  import opened GuildSweep
  import opened GuildHistory

  /** The user was not active after that time. */
  ghost predicate NoneAfter(s: State, user: string, at: int)
  {
    forall x :: WasActive(s, user, x) ==> x <= at
  }

  /** An assignment, or a comment of the assignee */
  predicate IsActivity(s: State, e: Event)
  {
    e.Assign? || (e.Reply? && s.assignee == Some(e.user))
  }

  /** Nobody is assigned and the assignee does not comment while a run is under way. */
  predicate QuietRuns(s: State, events: seq<(int, Event)>)
    decreases |events|
  {
    |events| == 0 ||
    ((IsActivity(s, events[0].1) ==> s.phase == Idle)
     && (Apply(s, events[0].0, events[0].1).Some? ==> QuietRuns(Apply(s, events[0].0, events[0].1).value, events[1..])))
  }

  // ---------- What quiet runs see ----------

  /** The run looks at the assignee and has seen all of the assignee's activity. */
  ghost predicate SeesAssignee(s: State)
  {
    s.phase == Idle || s.assignee == None ||
    (var user := s.assignee.value;
     s.phase.user == user
     && (s.phase.Fetched? ==> forall c :: c in s.comments && IsReply(c, user) ==> c in s.phase.comments)
     && (s.phase.Decided? ==> NoneAfter(s, user, s.phase.activity)))
  }

  /** A check-in that the assignee did not react to was theirs and saw their last activity. */
  ghost predicate RecordIsCurrent(s: State, r: Record)
  {
    s.assignee.Some? && NoneAfter(s, s.assignee.value, r.at) ==>
      r.user == s.assignee.value && NoneAfter(s, s.assignee.value, r.activity)
  }

  /** The check-in was sent to the cleared assignee, at least fourteen days after their last activity
      before the clear, and was at least seven days old. */
  predicate ProperlyNudged(w: Record, c: Clearing)
  {
    && w.user == c.user && w.at - c.activity >= CHECK_IN_AFTER_DAYS * DAY
    && c.now - w.at >= AUTO_CLEAR_AFTER_DAYS * DAY && c.now < c.at
  }

  /** Until the clear, that was the last activity. */
  ghost predicate LastBefore(s: State, c: Clearing)
  {
    && WasActive(s, c.user, c.activity)
    && forall x :: WasActive(s, c.user, x) && x <= c.at ==> x <= c.activity
  }

  ghost predicate ClearingOk(s: State, c: Clearing)
  {
    c.at <= s.clock && LastBefore(s, c) && exists w :: w in s.records && ProperlyNudged(w, c)
  }

  ghost predicate QuietInvariant(s: State)
  {
    && Invariant(s) && SeesAssignee(s)
    && (forall r :: r in s.records ==> RecordIsCurrent(s, r))
    && (forall c :: c in s.clearings ==> ClearingOk(s, c))
  }

  /** What a step adds to a user's activity */
  lemma ActivityAfter(s: State, t: int, e: Event, user: string, x: int)
    requires Apply(s, t, e).Some?
    ensures WasActive(Apply(s, t, e).value, user, x) <==>
            WasActive(s, user, x) || (x == t && (e == Assign(user) || e == Reply(user)))
  {
    hide DecideNext;
  }

  lemma ActivityStays(s: State, t: int, e: Event, user: string)
    requires Apply(s, t, e).Some? && e != Assign(user) && e != Reply(user)
    ensures forall x :: WasActive(Apply(s, t, e).value, user, x) <==> WasActive(s, user, x)
  {
    hide WasActive, Apply;
    forall x
      ensures WasActive(Apply(s, t, e).value, user, x) <==> WasActive(s, user, x)
    {
      ActivityAfter(s, t, e, user, x);
    }
  }

  /** The activity that a run computes is the last one. */
  lemma ComputedIsLast(s: State, user: string)
    requires s.phase.Fetched? && s.phase.user == user && DecideNext(s).Decided?
    requires forall c :: c in s.comments && IsReply(c, user) ==> c in s.phase.comments
    ensures NoneAfter(s, user, DecideNext(s).activity)
  {
    hide LatestAssignmentTime, LastActivity, DecideFor;
    var at := LatestAssignmentTime(s.assignments, user).value;
    LatestAssignmentSpec(s.assignments, user);
    LastActivitySpec(at, s.phase.comments, user);
    forall x | WasActive(s, user, x)
      ensures x <= DecideNext(s).activity
    {
      if Assignment(x, user) in s.assignments {
        assert x <= at;
      } else {
        assert IsReply(Comment(x, user, false), user);
      }
    }
  }

  lemma StepSeesAssignee(s: State, t: int, e: Event)
    requires SeesAssignee(s) && Apply(s, t, e).Some? && (IsActivity(s, e) ==> s.phase == Idle)
    ensures SeesAssignee(Apply(s, t, e).value)
  {
    hide WasActive, DecideFor;
    var s' := Apply(s, t, e).value;
    if s'.phase != Idle && s'.assignee.Some? {
      var user := s'.assignee.value;
      ActivityStays(s, t, e, user);
      if e == FetchTimeline {
        var at := s.(clock := t);
        ComputedIsLast(at, user);
        SameActivity(s', at);
      }
    }
  }

  lemma SameActivity(s: State, s': State)
    requires s.assignments == s'.assignments && s.comments == s'.comments
    ensures forall user, x :: WasActive(s, user, x) <==> WasActive(s', user, x)
  {
  }

  lemma StepKeepsCurrent(s: State, t: int, e: Event, r: Record)
    requires QuietInvariant(s) && Apply(s, t, e).Some? && (IsActivity(s, e) ==> s.phase == Idle) && r in s.records
    ensures RecordIsCurrent(Apply(s, t, e).value, r)
  {
    hide DecideNext, Invariant, Apply, WasActive, SeesAssignee, ClearingOk;
    var s' := Apply(s, t, e).value;
    RecordsAreOld(s, r);
    AssigneeAfter(s, t, e);
    if s'.assignee.Some? {
      var user := s'.assignee.value;
      if e == Assign(user) || e == Reply(user) {
        ActivityAfter(s, t, e, user, t);
      } else {
        ActivityStays(s, t, e, user);
        assert RecordIsCurrent(s, r);
      }
    }
  }

  lemma RecordsAreOld(s: State, r: Record)
    requires Invariant(s) && r in s.records
    ensures r.at <= s.clock
  {
    assert RecordOk(s, r);
  }

  lemma AssigneeAfter(s: State, t: int, e: Event)
    requires Apply(s, t, e).Some?
    ensures t > s.clock
    ensures var after := Apply(s, t, e).value.assignee; after.Some? && !e.Assign? ==> after == s.assignee
    ensures e.Assign? ==> Apply(s, t, e).value.assignee == Some(e.user)
  {
    hide DecideNext;
  }

  lemma PostIsCurrent(s: State, t: int)
    requires QuietInvariant(s) && Apply(s, t, Post).Some?
    ensures RecordIsCurrent(Apply(s, t, Post).value,
                            Record(t, s.phase.user, s.phase.now, s.phase.fetchedAt, s.phase.activity))
  {
    hide Invariant, WasActive, ClearingOk;
    if s.assignee.Some? {
      ActivityStays(s, t, Post, s.assignee.value);
    }
  }

  // ---------- Clearing ----------

  lemma NudgeWasProper(s: State, w: Record)
    requires QuietInvariant(s) && s.phase.Decided? && s.assignee == Some(s.phase.user)
    requires w in s.records && Nudged(w, s.phase.activity, s.phase.now)
    requires WasActive(s, s.phase.user, s.phase.activity)
    ensures w.user == s.phase.user && w.activity == s.phase.activity
  {
    hide WasActive, ClearingOk, PhaseOk, Matches, Alternates;
    assert RecordIsCurrent(s, w) && RecordOk(s, w);
    assert NoneAfter(s, s.phase.user, s.phase.activity);
    assert NoneAfter(s, s.phase.user, w.at);
  }

  lemma ClearIsProper(s: State, t: int)
    requires QuietInvariant(s) && Apply(s, t, RemoveAssignee).Some? && s.assignee == Some(s.phase.user)
    ensures ClearingOk(Apply(s, t, RemoveAssignee).value, Clearing(t, s.phase.user, s.phase.now, s.phase.activity))
  {
    hide Matches, Alternates, RecordOk, RecordIsCurrent, WasActive;
    var user, activity := s.phase.user, s.phase.activity;
    var c := Clearing(t, user, s.phase.now, activity);
    var s' := Apply(s, t, RemoveAssignee).value;
    assert PhaseOk(s);
    var w :| w in s.records && Nudged(w, activity, s.phase.now);
    NudgeWasProper(s, w);
    assert ProperlyNudged(w, c) && w in s'.records;
    ActivityStays(s, t, RemoveAssignee, user);
    assert NoneAfter(s, user, activity);
  }

  lemma StepKeepsClearing(s: State, t: int, e: Event, c: Clearing)
    requires ClearingOk(s, c) && Apply(s, t, e).Some?
    ensures ClearingOk(Apply(s, t, e).value, c)
  {
    hide Apply, WasActive;
    var s' := Apply(s, t, e).value;
    StepGrows(s, t, e);
    AssigneeAfter(s, t, e);
    var w :| w in s.records && ProperlyNudged(w, c);
    assert w in s'.records;
    forall x
      ensures WasActive(s', c.user, x) && x <= c.at <==> WasActive(s, c.user, x) && x <= c.at
    {
      ActivityAfter(s, t, e, c.user, x);
    }
  }

  lemma NewLogs(s: State, t: int, e: Event)
    requires Apply(s, t, e).Some?
    ensures var s' := Apply(s, t, e).value;
            s'.records == if e != Post then s.records
                          else s.records
                               + [Record(t, s.phase.user, s.phase.now, s.phase.fetchedAt, s.phase.activity)]
    ensures var s' := Apply(s, t, e).value;
            s'.clearings == if e == RemoveAssignee && s.assignee == Some(s.phase.user)
              then s.clearings + [Clearing(t, s.phase.user, s.phase.now, s.phase.activity)] else s.clearings
  {
    hide DecideNext;
  }

  lemma QuietStep(s: State, t: int, e: Event)
    requires QuietInvariant(s) && Apply(s, t, e).Some? && (IsActivity(s, e) ==> s.phase == Idle)
    ensures QuietInvariant(Apply(s, t, e).value)
  {
    hide Apply, Invariant, SeesAssignee, RecordIsCurrent, ClearingOk;
    var s' := Apply(s, t, e).value;
    StepKeepsInvariant(s, t, e);
    StepSeesAssignee(s, t, e);
    NewLogs(s, t, e);
    forall r | r in s'.records
      ensures RecordIsCurrent(s', r)
    {
      if r in s.records {
        StepKeepsCurrent(s, t, e, r);
      } else {
        PostIsCurrent(s, t);
      }
    }
    forall c | c in s'.clearings
      ensures ClearingOk(s', c)
    {
      if c in s.clearings {
        StepKeepsClearing(s, t, e, c);
      } else {
        ClearIsProper(s, t);
      }
    }
  }

  lemma {:induction false} QuietHistories(s: State, events: seq<(int, Event)>)
    requires QuietInvariant(s) && QuietRuns(s, events) && Execute(s, events).Some?
    ensures QuietInvariant(Execute(s, events).value)
    decreases |events|
  {
    hide Apply, QuietInvariant, IsActivity;
    if |events| != 0 {
      QuietStep(s, events[0].0, events[0].1);
      QuietHistories(Apply(s, events[0].0, events[0].1).value, events[1..]);
    }
  }

  /** With quiet runs, an assignment is cleared only after a check-in at least seven days old that came
      at least fourteen days after the last activity of the assignee, and was followed by none. */
  lemma NoClearWithoutProperCheckIn(s: State, events: seq<(int, Event)>, c: Clearing)
    requires IsNew(s) && QuietRuns(s, events) && Execute(s, events).Some?
    requires c in Execute(s, events).value.clearings
    ensures LastBefore(Execute(s, events).value, c)
    ensures exists w :: w in Execute(s, events).value.records && ProperlyNudged(w, c)
  {
    hide Apply, Execute;
    assert QuietInvariant(s);
    QuietHistories(s, events);
    assert ClearingOk(Execute(s, events).value, c);
  }
}
