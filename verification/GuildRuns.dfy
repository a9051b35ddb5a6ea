/** What one undisturbed run of the sweep does to an issue, from any state: what the sweep over the board does. */
module GuildRuns {
  import opened Wrappers
  import opened GuildSweep
  import opened GuildLaws
  import opened GuildHistory

  /** The issue as an item of the board; it is paused by the hold label, a linked pull request or its column. */
  function ItemOf(s: State): Item
  {
    Item(false, true, !s.paused, if s.assignee.Some? then [s.assignee.value] else [], false, false, 0, None,
         s.assignments, s.comments)
  }

  predicate CanRun(s: State, now: int)
  {
    s.phase == Idle && s.lastNow <= now && s.clock <= now
  }

  function Run(now: int): seq<(int, Event)>
  {
    [(now + 1, Begin(now)), (now + 2, FetchComments), (now + 3, FetchTimeline)]
  }

  lemma Then(s: State, events: seq<(int, Event)>, i: nat, next: State)
    requires i < |events| && Apply(s, events[i].0, events[i].1) == Some(next)
    ensures Execute(s, events[i..]) == Execute(next, events[i + 1..])
  {
    hide Apply;
    assert events[i..][0] == events[i] && events[i..][1..] == events[i + 1..];
  }

  lemma NoEvents(s: State, run: seq<(int, Event)>)
    ensures Execute(s, run[|run|..]) == Some(s)
  {
  }

  /** What the run has seen and decided before it acts */
  function AfterFetch(s: State, now: int): State
    requires s.assignee.Some? && LatestAssignmentTime(s.assignments, s.assignee.value).Some?
  {
    var user := s.assignee.value;
    var assignedAt := LatestAssignmentTime(s.assignments, user).value;
    s.(clock := now + 3, lastNow := now,
       phase := Decided(now, user, now + 2, LastActivity(assignedAt, s.comments, user), ActionFor(ItemOf(s), now)))
  }

  lemma Fetches(s: State, run: seq<(int, Event)>, now: int)
    requires CanRun(s, now) && IsDue(ItemOf(s)) && Run(now) <= run
    ensures s.assignee.Some? && LatestAssignmentTime(s.assignments, s.assignee.value).Some?
    ensures Execute(s, run) == Execute(AfterFetch(s, now), run[3..])
  {
    hide LatestAssignmentTime, LastActivity, DecideFor, Execute;
    var user := s.assignee.value;
    LatestAssignmentSpec(s.assignments, user);
    var listed := s.(clock := now + 1, lastNow := now, phase := Listed(now, user));
    var fetched := s.(clock := now + 2, lastNow := now, phase := Fetched(now, user, now + 2, s.comments));
    assert run[0] == Run(now)[0] && run[1] == Run(now)[1] && run[2] == Run(now)[2];
    Then(s, run, 0, listed);
    Then(listed, run, 1, fetched);
    assert !Fails(ItemOf(s)) && IsSwept(ItemOf(s));
    Then(fetched, run, 2, AfterFetch(s, now));
    assert run[0..] == run;
  }

  /** Fourteen quiet days: the run asks the assignee. */
  lemma RunChecksIn(s: State, now: int)
    requires CanRun(s, now) && IsDue(ItemOf(s)) && NeedsCheckIn(ItemOf(s), s.assignee.value, now)
    ensures var end := Execute(s, Run(now) + [(now + 4, Post)]);
            && end.Some? && end.value.comments == s.comments + [Comment(now + 4, "", true)]
            && end.value.phase == Idle && end.value.assignee == s.assignee && end.value.clearings == s.clearings
            && end.value.assignments == s.assignments && end.value.clock == now + 4
            && |end.value.records| == |s.records| + 1 && s.records <= end.value.records
            && var r := end.value.records[|s.records|];
               r.at == now + 4 && r.user == s.assignee.value && r.now == now && r.fetchedAt == now + 2
  {
    hide LatestAssignmentTime, LastActivity, ActionFor, Execute, NeedsCheckIn, IsDue;
    var run := Run(now) + [(now + 4, Post)];
    Fetches(s, run, now);
    DecisionOf(ItemOf(s), now);
    var next := Apply(AfterFetch(s, now), now + 4, Post).value;
    Then(AfterFetch(s, now), run, 3, next);
    NoEvents(next, run);
  }

  /** A check-in without an answer for seven days: the run removes the assignee. */
  lemma RunClears(s: State, now: int)
    requires CanRun(s, now) && IsDue(ItemOf(s)) && !NeedsCheckIn(ItemOf(s), s.assignee.value, now)
    requires NeedsClear(ItemOf(s), s.assignee.value, now)
    ensures var end := Execute(s, Run(now) + [(now + 4, RemoveAssignee)]);
            && end.Some? && end.value.assignee == None && end.value.phase == Idle
            && end.value.comments == s.comments && end.value.records == s.records
            && |end.value.clearings| == |s.clearings| + 1 && s.clearings <= end.value.clearings
            && var c := end.value.clearings[|s.clearings|];
               c.at == now + 4 && c.user == s.assignee.value && c.now == now
  {
    hide LatestAssignmentTime, LastActivity, ActionFor, Execute, NeedsCheckIn, NeedsClear, IsDue;
    var run := Run(now) + [(now + 4, RemoveAssignee)];
    Fetches(s, run, now);
    DecisionOf(ItemOf(s), now);
    var next := Apply(AfterFetch(s, now), now + 4, RemoveAssignee).value;
    Then(AfterFetch(s, now), run, 3, next);
    NoEvents(next, run);
  }

  /** Otherwise it can do neither. */
  lemma RunWaits(s: State, now: int)
    requires CanRun(s, now) && IsDue(ItemOf(s))
    requires !NeedsCheckIn(ItemOf(s), s.assignee.value, now) && !NeedsClear(ItemOf(s), s.assignee.value, now)
    ensures var end := Execute(s, Run(now));
            && end.Some? && end.value.comments == s.comments && end.value.records == s.records
            && end.value.assignee == s.assignee
            && forall t :: Apply(end.value, t, Post) == None && Apply(end.value, t, RemoveAssignee) == None
  {
    hide LatestAssignmentTime, LastActivity, ActionFor, Execute, NeedsCheckIn, NeedsClear, IsDue;
    Fetches(s, Run(now), now);
    DecisionOf(ItemOf(s), now);
    NoEvents(AfterFetch(s, now), Run(now));
  }

  /** A paused issue, and one without an assignee, is not even listed. */
  lemma NothingListed(s: State, now: int)
    requires CanRun(s, now) && (s.paused || s.assignee.None?)
    ensures Execute(s, [(now + 1, Begin(now))]) == Some(s.(clock := now + 1, lastNow := now))
  {
    var run := [(now + 1, Begin(now))];
    Then(s, run, 0, s.(clock := now + 1, lastNow := now));
    assert run[0..] == run && run[1..] == [];
  }
}
