/** What one undisturbed run of the bot does to a pull request, from any state: what is due, and nothing else. */
module PrRuns {
  import opened Wrappers
  import opened PrCleanup
  import opened PrHistory
  import opened PrSafety
  import opened PrExact

  /** An open draft with three weeks behind what can be seen of its activity */
  predicate IsDue(s: State, now: int)
  {
    s.open && s.isDraft && now - SeenActivity(s) >= 21 * 24 * 3600
  }

  /** The bot may start a run. */
  ghost predicate CanRun(s: State, now: int)
  {
    TimelineOk(s) && s.phase == Idle && s.lastNow <= now && s.clock <= now
  }

  lemma Begins(s: State, now: int)
    requires CanRun(s, now)
    ensures var next := s.(clock := now + 1, lastNow := now);
            Apply(s, now + 1, Begin(now)) ==
            Some(if IsDue(s, now) then next.(phase := Snapshotted(now, now + 1, SeenActivity(s))) else next)
  {
    hide View, LatestDraftActivityAt, IsStale;
    SameView(s, now + 1);
    StaleIff(s, now);
    ViewShowsActivity(s);
    StaleMeansSeen(View(s), now);
  }

  lemma StaleMeansSeen(pr: PullRequest, now: int)
    ensures IsStale(pr, now) ==> LatestDraftActivityAt(pr).Some?
  {
  }

  /** A pull request that is not due is left alone. */
  lemma NothingDue(s: State, now: int)
    requires CanRun(s, now) && !IsDue(s, now)
    ensures Execute(s, [(now + 1, Begin(now))]) == Some(s.(clock := now + 1, lastNow := now))
  {
    hide Apply;
    var run := [(now + 1, Begin(now))];
    Begins(s, now);
    Then(s, run, 0, s.(clock := now + 1, lastNow := now));
    assert run[0..] == run && run[1..] == [];
  }

  /** After the run has fetched the comments */
  function AfterFetch(s: State, now: int, action: Action): State
  {
    s.(clock := now + 2, lastNow := now, phase := Decided(now, now + 1, SeenActivity(s), action))
  }

  lemma Fetches(s: State, run: seq<(int, Event)>, now: int, action: Action)
    requires CanRun(s, now) && IsDue(s, now) && action == DraftAction(SeenActivity(s), s.comments, now)
    requires |run| >= 2 && run[0] == (now + 1, Begin(now)) && run[1] == (now + 2, Fetch)
    ensures Execute(s, run) == Execute(AfterFetch(s, now, action), run[2..])
  {
    hide DraftAction, Execute;
    Begins(s, now);
    var began := s.(clock := now + 1, lastNow := now, phase := Snapshotted(now, now + 1, SeenActivity(s)));
    Then(s, run, 0, began);
    Then(began, run, 1, AfterFetch(s, now, action));
    assert run[0..] == run;
  }

  /** Without a marker since the activity, the author is warned. */
  lemma Warns(s: State, now: int)
    requires CanRun(s, now) && IsDue(s, now)
    requires !WasMarked(s.comments, DraftClose, SeenActivity(s))
    requires !WasMarked(s.comments, DraftWarning, SeenActivity(s))
    ensures Execute(s, [(now + 1, Begin(now)), (now + 2, Fetch), (now + 3, Post)]) ==
            Some(s.(clock := now + 3, lastNow := now, comments := s.comments + [Comment(now + 3, Some(DraftWarning))],
                    records := s.records + [Record(now + 3, DraftWarning, now, now + 1, SeenActivity(s))]))
  {
    hide DraftAction, Execute, LastConvert;
    var run := [(now + 1, Begin(now)), (now + 2, Fetch), (now + 3, Post)];
    var action := Act(Some(DraftWarning), false);
    ActionIs(s, now);
    Fetches(s, run, now, action);
    PostsAt(s, now, action);
    Then(AfterFetch(s, now, action), run, 2, Posted(s, now, DraftWarning, Idle));
    NoEvents(Posted(s, now, DraftWarning, Idle), run);
  }

  /** When all warnings since then are seven days old, they are followed by an explanation and the close. */
  lemma Closes(s: State, now: int)
    requires CanRun(s, now) && IsDue(s, now) && !WasMarked(s.comments, DraftClose, SeenActivity(s))
    requires WasMarked(s.comments, DraftWarning, SeenActivity(s))
    requires forall c :: c in s.comments && HasMarker(c, DraftWarning, SeenActivity(s)) ==> now - c.at >= 7 * 24 * 3600
    ensures Execute(s, [(now + 1, Begin(now)), (now + 2, Fetch), (now + 3, Post), (now + 4, Close)]) ==
            Some(s.(clock := now + 4, lastNow := now, open := false,
                    comments := s.comments + [Comment(now + 3, Some(DraftClose))],
                    records := s.records + [Record(now + 3, DraftClose, now, now + 1, SeenActivity(s))],
                    closings := s.closings + [Closing(now + 4, now, SeenActivity(s))]))
  {
    hide DraftAction, Execute, LastConvert;
    var run := [(now + 1, Begin(now)), (now + 2, Fetch), (now + 3, Post), (now + 4, Close)];
    var action, seen := Act(Some(DraftClose), true), SeenActivity(s);
    ActionIs(s, now);
    Fetches(s, run, now, action);
    PostsAt(s, now, action);
    var explained := Posted(s, now, DraftClose, Decided(now, now + 1, seen, Act(None, true)));
    Then(AfterFetch(s, now, action), run, 2, explained);
    var closed := explained.(clock := now + 4, open := false, phase := Idle,
                             closings := s.closings + [Closing(now + 4, now, seen)]);
    Then(explained, run, 3, closed);
    NoEvents(closed, run);
  }

  /** After an explanation only the close is missing. */
  lemma FinishesClose(s: State, now: int)
    requires CanRun(s, now) && IsDue(s, now) && WasMarked(s.comments, DraftClose, SeenActivity(s))
    ensures Execute(s, [(now + 1, Begin(now)), (now + 2, Fetch), (now + 3, Close)]) ==
            Some(s.(clock := now + 3, lastNow := now, open := false,
                    closings := s.closings + [Closing(now + 3, now, SeenActivity(s))]))
  {
    hide DraftAction, Execute, LastConvert;
    var run := [(now + 1, Begin(now)), (now + 2, Fetch), (now + 3, Close)];
    var action, seen := Act(None, true), SeenActivity(s);
    ActionIs(s, now);
    Fetches(s, run, now, action);
    var closed := s.(clock := now + 3, lastNow := now, open := false,
                     closings := s.closings + [Closing(now + 3, now, seen)]);
    Then(AfterFetch(s, now, action), run, 2, closed);
    NoEvents(closed, run);
  }

  /** While a warning is young, nothing can be posted or closed. */
  lemma Waits(s: State, now: int)
    requires CanRun(s, now) && IsDue(s, now) && !WasMarked(s.comments, DraftClose, SeenActivity(s))
    requires exists c :: c in s.comments && HasMarker(c, DraftWarning, SeenActivity(s)) && now - c.at < 7 * 24 * 3600
    ensures var run := [(now + 1, Begin(now)), (now + 2, Fetch)];
            && Execute(s, run) == Some(AfterFetch(s, now, Nothing))
            && forall t :: Apply(AfterFetch(s, now, Nothing), t, Post) == None
                           && Apply(AfterFetch(s, now, Nothing), t, Close) == None
  {
    hide DraftAction, Execute, LastConvert;
    var run := [(now + 1, Begin(now)), (now + 2, Fetch)];
    ActionIs(s, now);
    Fetches(s, run, now, Nothing);
    NoEvents(AfterFetch(s, now, Nothing), run);
  }

  lemma ActionIs(s: State, now: int)
    ensures var a, seen := DraftAction(SeenActivity(s), s.comments, now), SeenActivity(s);
            && (WasMarked(s.comments, DraftClose, seen) ==> a == Act(None, true))
            && (!WasMarked(s.comments, DraftClose, seen) && !WasMarked(s.comments, DraftWarning, seen) ==>
                  a == Act(Some(DraftWarning), false))
            && (!WasMarked(s.comments, DraftClose, seen) && WasMarked(s.comments, DraftWarning, seen) ==>
                  a == if exists c :: c in s.comments && HasMarker(c, DraftWarning, seen) && now - c.at < 7 * 24 * 3600
                       then Nothing else Act(Some(DraftClose), true))
  {
    hide DraftAction, SeenActivity;
    DecisionIff(SeenActivity(s), s.comments, now);
    assert forall c, marker :: Counts(c, marker, SeenActivity(s)) <==> HasMarker(c, marker, SeenActivity(s));
  }

  function Posted(s: State, now: int, marker: Marker, phase: Phase): State
  {
    s.(clock := now + 3, lastNow := now, comments := s.comments + [Comment(now + 3, Some(marker))], phase := phase,
       records := s.records + [Record(now + 3, marker, now, now + 1, SeenActivity(s))])
  }

  lemma PostsAt(s: State, now: int, action: Action)
    requires action.Act? && action.post.Some?
    ensures Apply(AfterFetch(s, now, action), now + 3, Post) ==
            Some(Posted(s, now, action.post.value,
                        if action.close then Decided(now, now + 1, SeenActivity(s), Act(None, true)) else Idle))
  {
    hide SeenActivity;
  }

  lemma NoEvents(s: State, run: seq<(int, Event)>)
    ensures Execute(s, run[|run|..]) == Some(s)
  {
  }
}
