/** The stale-draft protocol over whole histories of one pull request: runs of the bot that stop
    anywhere, pushes, draft toggles, comments and closes, interleaved in any order. */
module PrHistory {
  import opened Wrappers
  import opened PrCleanup

  /** A comment of the bot, with the start of its run, the time of the run's snapshot and the
      activity seen there */
  datatype Record = Record(at: int, marker: Marker, now: int, snapshotAt: int, activity: int)

  datatype Closing = Closing(at: int, now: int, activity: int)

  /** Where the current run stands with this pull request */
  datatype Phase =
    | Idle
    | Snapshotted(now: int, snapshotAt: int, activity: int)
    | Decided(now: int, snapshotAt: int, activity: int, action: Action)

  /** The pull request on the server, with the time that the last commit carries and the time of its push;
      `records` and `closings` log what the draft pass did. */
  datatype State = State(
    clock: int, lastNow: int, open: bool, isDraft: bool, createdAt: int, lastCommitAt: Option<int>,
    lastPushAt: Option<int>, transitions: seq<Transition>, comments: seq<Comment>, phase: Phase, records: seq<Record>,
    closings: seq<Closing>)

  datatype Event =
    | Push(stamp: int)
    | Convert
    | Ready
    | OtherComment
    | SetOpen(open: bool)
    | Begin(now: int)
    | Fetch
    | Post
    | Close
    | Stop

  // ---------- Steps ----------

  function Last(ts: seq<Transition>, n: nat): seq<Transition>
  {
    if |ts| <= n then ts else ts[|ts| - n..]
  }

  function View(s: State): PullRequest
  {
    PullRequest(0, s.open, s.isDraft, s.createdAt, s.lastCommitAt, Last(s.transitions, 20))
  }

  function Apply(s: State, t: int, e: Event): Option<State>
  {
    if t <= s.clock then None
    else
      var s := s.(clock := t);
      match e
      case Push(stamp) => Some(s.(lastCommitAt := Some(stamp), lastPushAt := Some(t)))
      case Convert =>
        if s.isDraft then None else Some(s.(isDraft := true, transitions := s.transitions + [ConvertToDraft(t)]))
      case Ready =>
        if s.isDraft then Some(s.(isDraft := false, transitions := s.transitions + [ReadyForReview(t)])) else None
      case OtherComment => Some(s.(comments := s.comments + [Comment(t, None)]))
      case SetOpen(open) => Some(s.(open := open))
      case Begin(now) =>
        if s.phase != Idle || now < s.lastNow || now > t then None
        else
          var next := s.(lastNow := now);
          Some(if IsStale(View(s), now) then next.(phase := Snapshotted(now, t, LatestDraftActivityAt(View(s)).value))
              else next)
      case Fetch =>
        if s.phase.Snapshotted? then
          var Snapshotted(now, at, activity) := s.phase;
          Some(s.(phase := Decided(now, at, activity, DraftAction(activity, s.comments, now))))
        else None
      case Post =>
        if s.phase.Decided? && s.phase.action.Act? && s.phase.action.post.Some? then
          var Decided(now, at, activity, action) := s.phase;
          Some(s.(comments := s.comments + [Comment(t, action.post)],
                  records := s.records + [Record(t, action.post.value, now, at, activity)],
                  phase := if action.close then Decided(now, at, activity, Act(None, true)) else Idle))
        else None
      case Close =>
        if s.phase.Decided? && s.phase.action == Act(None, true) then
          Some(s.(open := false, closings := s.closings + [Closing(t, s.phase.now, s.phase.activity)], phase := Idle))
        else None
      case Stop => Some(s.(phase := Idle))
  }

  function Execute(s: State, events: seq<(int, Event)>): Option<State>
    decreases |events|
  {
    if |events| == 0 then Some(s)
    else
      match Apply(s, events[0].0, events[0].1)
      case None => None
      case Some(next) => Execute(next, events[1..])
  }

  /** The last push is not in the future; its commit carries the clock of whoever made it, early or late. */
  predicate CommitsOk(s: State)
  {
    && (s.lastCommitAt.Some? <==> s.lastPushAt.Some?)
    && (s.lastPushAt.Some? ==> s.lastPushAt.value <= s.clock)
  }

  /** A pull request that was just opened */
  predicate IsNew(s: State)
  {
    && s.createdAt <= s.clock && CommitsOk(s)
    && s.transitions == [] && s.comments == [] && s.phase == Idle && s.records == [] && s.closings == []
  }

  // ---------- What holds in every history ----------

  predicate IsWarning(w: Record)
  {
    w.marker == DraftWarning && w.now - w.activity >= DRAFT_WARNING_AFTER && w.now < w.at
  }

  /** A warning counts for the activity and was seven days old at the given time. */
  predicate Warned(w: Record, activity: int, now: int)
  {
    IsWarning(w) && activity <= w.at && now - w.at >= DRAFT_CLOSE_AFTER_WARNING
  }

  /** An explanation that was posted with a warning behind it */
  ghost predicate IsExplained(records: seq<Record>, c: Record)
  {
    c.marker == DraftClose && exists w :: w in records && Warned(w, c.activity, c.now)
  }

  /** What a close of the draft pass rests on: a warning, or an explanation of an earlier run */
  ghost predicate Justified(records: seq<Record>, activity: int, now: int)
  {
    || (exists w :: w in records && Warned(w, activity, now))
    || (exists c :: c in records && IsExplained(records, c) && activity <= c.at && c.now <= now)
  }

  ghost predicate RecordOk(records: seq<Record>, r: Record, clock: int, lastNow: int)
  {
    && r.now <= lastNow && r.now <= r.snapshotAt < r.at <= clock
    && (if r.marker == DraftWarning then IsWarning(r) else IsExplained(records, r))
  }

  /** Marker comments are exactly the bot's records. */
  predicate Matches(comments: seq<Comment>, records: seq<Record>)
  {
    && (forall c :: c in comments && c.marker.Some? ==> exists r ::
        r in records && r.at == c.at && r.marker == c.marker.value)
    && (forall r :: r in records ==> Comment(r.at, Some(r.marker)) in comments)
  }

  ghost predicate PhaseOk(s: State)
  {
    match s.phase
    case Idle => true
    case Snapshotted(now, at, activity) =>
      now == s.lastNow && now <= at <= s.clock && now - activity >= DRAFT_WARNING_AFTER
    case Decided(now, at, activity, action) =>
      && now == s.lastNow && now <= at <= s.clock && now - activity >= DRAFT_WARNING_AFTER
      && (action.Act? && action.post.Some? ==> forall c :: c in s.comments ==> !Counts(c, action.post.value, activity))
      && (action.Act? && action.post == Some(DraftWarning) ==>
            !action.close && forall c :: c in s.comments ==> !Counts(c, DraftClose, activity))
      && (action.Act? && action.post == Some(DraftClose) ==>
            && (exists w :: w in s.records && Warned(w, activity, now))
            && forall c :: c in s.comments && Counts(c, DraftWarning, activity) ==>
                             now - c.at >= DRAFT_CLOSE_AFTER_WARNING)
      && (action.Act? && action.post == None ==> Justified(s.records, activity, now))
  }

  ghost predicate Invariant(s: State)
  {
    && Matches(s.comments, s.records)
    && (forall r :: r in s.records ==> RecordOk(s.records, r, s.clock, s.lastNow))
    && PhaseOk(s)
    && (forall c :: c in s.closings ==> Justified(s.records, c.activity, c.now))
  }

  lemma MoreRecords(records: seq<Record>, more: seq<Record>, activity: int, now: int)
    requires forall r :: r in records ==> r in more
    ensures Justified(records, activity, now) ==> Justified(more, activity, now)
    ensures forall c :: IsExplained(records, c) ==> IsExplained(more, c)
  {
  }

  lemma DecisionKeeps(s: State, t: int)
    requires Invariant(s) && s.phase.Snapshotted? && t > s.clock
    ensures PhaseOk(Apply(s, t, Fetch).value)
  {
    hide DraftAction, Matches, RecordOk, Counts;
    var Snapshotted(now, at, activity) := s.phase;
    var action := DraftAction(activity, s.comments, now);
    DecisionIsJustified(activity, s.comments, now);
    DecisionIff(activity, s.comments, now);
    if action.Act? && action.close && action.post.Some? {
      WarningBehind(s, activity, now);
    } else if action.Act? && action.close {
      ExplanationBehind(s, activity, now);
    }
  }

  lemma WarningBehind(s: State, activity: int, now: int)
    requires Invariant(s)
    requires exists c ::
               c in s.comments && Counts(c, DraftWarning, activity) && now - c.at >= DRAFT_CLOSE_AFTER_WARNING
    ensures exists w :: w in s.records && Warned(w, activity, now)
  {
    var c :| c in s.comments && Counts(c, DraftWarning, activity) && now - c.at >= DRAFT_CLOSE_AFTER_WARNING;
    var w :| w in s.records && w.at == c.at && w.marker == DraftWarning;
    assert RecordOk(s.records, w, s.clock, s.lastNow);
    assert Warned(w, activity, now);
  }

  lemma ExplanationBehind(s: State, activity: int, now: int)
    requires Invariant(s) && now == s.lastNow && exists c :: c in s.comments && Counts(c, DraftClose, activity)
    ensures Justified(s.records, activity, now)
  {
    var c :| c in s.comments && Counts(c, DraftClose, activity);
    var r :| r in s.records && r.at == c.at && r.marker == DraftClose;
    assert RecordOk(s.records, r, s.clock, s.lastNow);
    assert IsExplained(s.records, r) && activity <= r.at && r.now <= now;
  }

  lemma PostKeeps(s: State, t: int)
    requires Invariant(s) && Apply(s, t, Post).Some?
    ensures Invariant(Apply(s, t, Post).value)
  {
    var Decided(now, at, activity, action) := s.phase;
    var r := Record(t, action.post.value, now, at, activity);
    var s' := Apply(s, t, Post).value;
    assert s'.records == s.records + [r];
    forall x | x in s'.records
      ensures RecordOk(s'.records, x, s'.clock, s'.lastNow)
    {
      if x in s.records {
        assert RecordOk(s.records, x, s.clock, s.lastNow);
        MoreRecords(s.records, s'.records, 0, 0);
      }
    }
    PostedJustifies(s, s', r);
    assert Matches(s'.comments, s'.records) by {
      PostMatches(s.comments, s.records, r);
    }
    forall c | c in s'.closings
      ensures Justified(s'.records, c.activity, c.now)
    {
      MoreRecords(s.records, s'.records, c.activity, c.now);
    }
  }

  lemma PostMatches(comments: seq<Comment>, records: seq<Record>, r: Record)
    requires Matches(comments, records)
    ensures Matches(comments + [Comment(r.at, Some(r.marker))], records + [r])
  {
    var cs, rs := comments + [Comment(r.at, Some(r.marker))], records + [r];
    forall c | c in cs && c.marker.Some?
      ensures exists x :: x in rs && x.at == c.at && x.marker == c.marker.value
    {
      if c in comments {
        var x :| x in records && x.at == c.at && x.marker == c.marker.value;
        assert x in rs;
      } else {
        assert r in rs;
      }
    }
  }

  lemma PostedJustifies(s: State, s': State, r: Record)
    requires Invariant(s) && s.phase.Decided? && s'.records == s.records + [r]
    requires s.phase.action.Act? && s.phase.action.post == Some(r.marker)
    requires r.now == s.phase.now && r.snapshotAt == s.phase.snapshotAt && r.activity == s.phase.activity &&
        r.at > s.clock
    ensures RecordOk(s'.records, r, r.at, s.lastNow)
    ensures s.phase.action.close ==> Justified(s'.records, r.activity, r.now)
  {
    if r.marker == DraftClose {
      var w :| w in s.records && Warned(w, r.activity, r.now);
      assert w in s'.records;
    }
  }

  lemma StepKeepsInvariant(s: State, t: int, e: Event)
    requires Invariant(s) && Apply(s, t, e).Some?
    ensures Invariant(Apply(s, t, e).value)
  {
    match e {
      case Post => PostKeeps(s, t);
      case Fetch =>
        DecisionKeeps(s, t);
        LaterIsFine(s, t, s.lastNow);
      case Begin(now) => LaterIsFine(s, t, now);
      case _ =>
        LaterIsFine(s, t, s.lastNow);
    }
  }

  lemma LaterIsFine(s: State, t: int, now: int)
    requires Invariant(s) && t > s.clock && now >= s.lastNow
    ensures forall r :: r in s.records ==> RecordOk(s.records, r, t, now)
  {
    forall r | r in s.records
      ensures RecordOk(s.records, r, t, now)
    {
      assert RecordOk(s.records, r, s.clock, s.lastNow);
    }
  }

  lemma {:induction false} HistoriesKeepInvariant(s: State, events: seq<(int, Event)>)
    requires Invariant(s) && Execute(s, events).Some?
    ensures Invariant(Execute(s, events).value)
    decreases |events|
  {
    hide Apply, Invariant;
    if |events| != 0 {
      StepKeepsInvariant(s, events[0].0, events[0].1);
      HistoriesKeepInvariant(Apply(s, events[0].0, events[0].1).value, events[1..]);
    }
  }

  /** In every history, whatever stops where: each close of the draft pass rests on a warning of the
      bot that was seven days old by then and was posted by a run that saw 21 days without activity,
      directly or through the explanation of an earlier run. */
  lemma EveryCloseIsJustified(s: State, events: seq<(int, Event)>, c: Closing)
    requires IsNew(s) && Execute(s, events).Some?
    requires c in Execute(s, events).value.closings
    ensures Justified(Execute(s, events).value.records, c.activity, c.now)
  {
    HistoriesKeepInvariant(s, events);
  }
}
