/** The contributor-agreement protocol over whole histories of one pull request: runs of the bot that
    stop anywhere, comments, signatures, closes and reopenings, interleaved in any order. */
module ClaHistory {
  import opened Wrappers
  import opened ClaCleanup

  /** A request for a re-check, or an explanation, with the start of its run */
  datatype Record = Record(at: int, post: Post, now: int)

  /** A close of this pass, with the start of its run and the time at which it fetched the comments */
  datatype Closing = Closing(at: int, now: int, fetchedAt: int)

  datatype Phase =
    | Idle
    | Listed(now: int)
    | Decided(now: int, fetchedAt: int, action: Action)

  datatype State = State(
    clock: int, lastNow: int, open: bool, pr: PullRequest, comments: seq<Comment>, phase: Phase,
    records: seq<Record>, closings: seq<Closing>)

  datatype Event =
    | AuthorComments(isCheck: bool)
    | OtherComments
    | Label(signed: bool)
    | SetOpen(open: bool)
    | Begin(now: int)
    | FetchComments
    | PostComment
    | Close
    | Stop

  // ---------- Steps ----------

  function CommentOf(t: int, post: Post): Comment
  {
    Comment(t, Bot, post == Retry, post == Explanation)
  }

  function Apply(s: State, t: int, e: Event): Option<State>
  {
    if t <= s.clock then None
    else
      var s := s.(clock := t);
      match e
      case AuthorComments(isCheck) => Some(s.(comments := s.comments + [Comment(t, Author, isCheck, false)]))
      case OtherComments => Some(s.(comments := s.comments + [Comment(t, Other, false, false)]))
      case Label(signed) => Some(s.(pr := s.pr.(signed := signed)))
      case SetOpen(open) => Some(s.(open := open))
      case Begin(now) =>
        if s.phase != Idle || now < s.lastNow || now > t then None
        else
          var next := s.(lastNow := now);
          Some(if s.open && NeedsFollowUp(s.pr, now) then next.(phase := Listed(now)) else next)
      case FetchComments =>
        if s.phase.Listed? then Some(s.(phase := Decided(s.phase.now, t, ClaAction(s.comments, s.phase.now)))) else None
      case PostComment =>
        if s.phase.Decided? && s.phase.action.Act? && s.phase.action.post.Some? then
          var Decided(now, fetchedAt, action) := s.phase;
          Some(s.(comments := s.comments + [CommentOf(t, action.post.value)],
                  records := s.records + [Record(t, action.post.value, now)],
                  phase := if action.close then Decided(now, fetchedAt, Act(None, true)) else Idle))
        else None
      case Close =>
        if s.phase.Decided? && s.phase.action == Act(None, true) then
          Some(s.(open := false, phase := Idle, closings := s.closings + [Closing(t, s.phase.now, s.phase.fetchedAt)]))
        else None
      case Stop => Some(s.(phase := Idle))
  }

  function Execute(s: State, events: seq<(int, Event)>): Option<State>
    decreases |events|
  {
    if |events| == 0 then Some(s)
    else
      match Apply(s, events[0].0, events[0].1)
      case None => None
      case Some(next) => Execute(next, events[1..])
  }

  predicate IsNew(s: State)
  {
    s.comments == [] && s.phase == Idle && s.records == [] && s.closings == []
  }

  // ---------- What holds in every history ----------

  /** The bot's comments are its records, and both kinds were posted at most once. */
  predicate Matches(comments: seq<Comment>, records: seq<Record>)
  {
    && (forall c :: c in comments && IsRetry(c) ==> exists r :: r in records && r.at == c.at && r.post == Retry)
    && (forall c :: c in comments && c.isExplanation ==> exists r :: r in records && r.post == Explanation)
    && (forall r :: r in records ==> CommentOf(r.at, r.post) in comments)
  }

  predicate AtMostOnce(records: seq<Record>)
  {
    forall i, j :: 0 <= i < j < |records| ==> records[i].post != records[j].post
  }

  /** A re-check that was requested seven days after the pull request was opened, and is a day old */
  predicate Recheck(r: Record, createdAt: int, now: int)
  {
    && r.post == Retry && r.now - createdAt >= CLA_RETRY_AFTER && r.now < r.at
    && now - r.at >= CLA_CLOSE_AFTER_RETRY
  }

  ghost predicate Rechecked(records: seq<Record>, createdAt: int, now: int)
  {
    exists r :: r in records && Recheck(r, createdAt, now)
  }

  ghost predicate HasExplanation(records: seq<Record>)
  {
    exists r :: r in records && r.post == Explanation
  }

  /** The author had not spoken when the run fetched the comments. */
  predicate SilentUntil(comments: seq<Comment>, at: int)
  {
    forall c :: c in comments && IsWord(c) ==> c.at > at
  }

  ghost predicate ClosingOk(s: State, c: Closing)
  {
    && c.now <= c.fetchedAt < c.at <= s.clock && Rechecked(s.records, s.pr.createdAt, c.now)
    && HasExplanation(s.records) && SilentUntil(s.comments, c.fetchedAt)
  }

  predicate RecordOk(s: State, r: Record)
  {
    r.now < r.at <= s.clock && r.now - s.pr.createdAt >= CLA_RETRY_AFTER
  }

  ghost predicate PhaseOk(s: State)
  {
    match s.phase
    case Idle => true
    case Listed(now) => now <= s.clock && now - s.pr.createdAt >= CLA_RETRY_AFTER
    case Decided(now, fetchedAt, action) =>
      && now <= fetchedAt <= s.clock && now - s.pr.createdAt >= CLA_RETRY_AFTER
      && (action.Act? && action.post.Some? ==> forall r :: r in s.records ==> r.post != action.post.value)
      && (action.Act? ==> SilentUntil(s.comments, fetchedAt))
      && (action.Act? && action.close ==> Rechecked(s.records, s.pr.createdAt, now))
      && (action == Act(None, true) ==> HasExplanation(s.records))
      && (action.Act? && !action.close ==> action.post == Some(Retry))
      && (action.Act? && action.close && action.post.Some? ==> action.post == Some(Explanation))
  }

  ghost predicate Invariant(s: State)
  {
    && Matches(s.comments, s.records) && AtMostOnce(s.records)
    && (forall r :: r in s.records ==> RecordOk(s, r))
    && PhaseOk(s) && (forall c :: c in s.closings ==> ClosingOk(s, c))
    && (forall c :: c in s.comments ==> c.at <= s.clock)
  }

  lemma FetchKeeps(s: State, t: int)
    requires Invariant(s) && s.phase.Listed? && t > s.clock
    ensures PhaseOk(Apply(s, t, FetchComments).value)
  {
    hide ClaAction, AtMostOnce, ClosingOk, AuthorSpoke;
    var now := s.phase.now;
    var action := ClaAction(s.comments, now);
    DecisionIsJustified(s.comments, now);
    if action.Act? {
      NotSpoken(s.comments, t);
      if action.close {
        var c :| c in s.comments && IsRetry(c);
        var r :| r in s.records && r.at == c.at && r.post == Retry;
        assert RecordOk(s, r);
        assert Recheck(r, s.pr.createdAt, now);
      }
      if action.post.Some? {
        forall r | r in s.records
          ensures r.post != action.post.value
        {
          assert CommentOf(r.at, r.post) in s.comments;
        }
      }
    }
  }

  lemma NotSpoken(comments: seq<Comment>, t: int)
    requires !AuthorSpoke(comments)
    ensures SilentUntil(comments, t)
  {
  }

  lemma PostMatches(comments: seq<Comment>, records: seq<Record>, r: Record)
    requires Matches(comments, records)
    ensures Matches(comments + [CommentOf(r.at, r.post)], records + [r])
  {
    var cs, rs := comments + [CommentOf(r.at, r.post)], records + [r];
    assert r in rs;
    forall c | c in cs && IsRetry(c)
      ensures exists x :: x in rs && x.at == c.at && x.post == Retry
    {
      if c in comments {
        var x :| x in records && x.at == c.at && x.post == Retry;
        assert x in rs;
      }
    }
    forall c | c in cs && c.isExplanation
      ensures exists x :: x in rs && x.post == Explanation
    {
      if c in comments {
        var x :| x in records && x.post == Explanation;
        assert x in rs;
      }
    }
  }

  lemma PostOnce(records: seq<Record>, r: Record)
    requires AtMostOnce(records) && forall x :: x in records ==> x.post != r.post
    ensures AtMostOnce(records + [r])
  {
    assert forall i :: 0 <= i < |records| ==> records[i] in records;
  }

  /** Comments that came later, and records that were added, change nothing about what was true. */
  lemma LaterStays(s: State, s': State)
    requires s.clock < s'.clock && s.pr.createdAt == s'.pr.createdAt
    requires forall r :: r in s.records ==> r in s'.records
    requires forall c :: c in s'.comments ==> c in s.comments || c.at > s.clock
    ensures forall r :: RecordOk(s, r) ==> RecordOk(s', r)
    ensures forall c :: ClosingOk(s, c) ==> ClosingOk(s', c)
    ensures forall at :: at <= s.clock && SilentUntil(s.comments, at) ==> SilentUntil(s'.comments, at)
    ensures forall now :: Rechecked(s.records, s.pr.createdAt, now) ==> Rechecked(s'.records, s'.pr.createdAt, now)
    ensures HasExplanation(s.records) ==> HasExplanation(s'.records)
  {
  }

  lemma StepIsLater(s: State, t: int, e: Event)
    requires Apply(s, t, e).Some?
    ensures var s' := Apply(s, t, e).value;
            && s.clock < s'.clock && s.pr.createdAt == s'.pr.createdAt
            && (forall r :: r in s.records ==> r in s'.records)
            && (forall c :: c in s'.comments ==> c in s.comments || c.at == t) && s'.clock == t
  {
    hide ClaAction, NeedsFollowUp;
  }

  lemma StepKeepsPhase(s: State, t: int, e: Event)
    requires Invariant(s) && Apply(s, t, e).Some?
    ensures PhaseOk(Apply(s, t, e).value)
  {
    hide ClaAction, Rechecked, ClosingOk, RecordOk, Matches, AtMostOnce, SilentUntil;
    var s' := Apply(s, t, e).value;
    StepIsLater(s, t, e);
    LaterStays(s, s');
    if e == FetchComments {
      FetchKeeps(s, t);
    } else if e == PostComment {
      assert Record(t, s.phase.action.post.value, s.phase.now) in s'.records;
    }
  }

  lemma StepKeepsMatches(s: State, t: int, e: Event)
    requires Invariant(s) && Apply(s, t, e).Some?
    ensures var s' := Apply(s, t, e).value; Matches(s'.comments, s'.records) && AtMostOnce(s'.records)
  {
    hide ClaAction, ClosingOk, NeedsFollowUp;
    if e == PostComment {
      var r := Record(t, s.phase.action.post.value, s.phase.now);
      PostMatches(s.comments, s.records, r);
      PostOnce(s.records, r);
    }
  }

  lemma StepKeepsInvariant(s: State, t: int, e: Event)
    requires Invariant(s) && Apply(s, t, e).Some?
    ensures Invariant(Apply(s, t, e).value)
  {
    var s' := Apply(s, t, e).value;
    StepKeepsPhase(s, t, e);
    StepKeepsMatches(s, t, e);
    StepIsLater(s, t, e);
    LaterStays(s, s');
    StepKeepsLogs(s, t, e);
  }

  lemma StepKeepsLogs(s: State, t: int, e: Event)
    requires Invariant(s) && Apply(s, t, e).Some?
    ensures var s' := Apply(s, t, e).value;
            (forall r :: r in s'.records ==> RecordOk(s', r)) && (forall c :: c in s'.closings ==> ClosingOk(s', c))
  {
    hide ClaAction, Matches, AtMostOnce, Rechecked, HasExplanation, SilentUntil;
    var s' := Apply(s, t, e).value;
    StepIsLater(s, t, e);
    LaterStays(s, s');
  }

  lemma {:induction false} HistoriesKeepInvariant(s: State, events: seq<(int, Event)>)
    requires Invariant(s) && Execute(s, events).Some?
    ensures Invariant(Execute(s, events).value)
    decreases |events|
  {
    hide Apply, Invariant;
    if |events| != 0 {
      StepKeepsInvariant(s, events[0].0, events[0].1);
      HistoriesKeepInvariant(Apply(s, events[0].0, events[0].1).value, events[1..]);
    }
  }

  /** In every history: a close of this pass comes after a re-check at least a day old, requested seven
      days after the pull request was opened, and after an explanation, and the author had not spoken
      when the run fetched the comments; a re-check and an explanation are posted at most once. */
  lemma EveryCloseIsJustified(s: State, events: seq<(int, Event)>)
    requires IsNew(s) && Execute(s, events).Some?
    ensures var end := Execute(s, events).value;
            (forall c :: c in end.closings ==> ClosingOk(end, c)) && AtMostOnce(end.records)
  {
    hide Execute;
    HistoriesKeepInvariant(s, events);
  }

  // ---------- The author speaks ----------

  /** Once the author has spoken, a run that starts afterwards does nothing, and no later one does. */
  lemma {:induction false} SpeakingStopsTheBot(s: State, events: seq<(int, Event)>)
    requires AuthorSpoke(s.comments) && Execute(s, events).Some?
    requires s.phase.Decided? ==> s.phase.action == Nothing
    ensures var end := Execute(s, events).value; end.records == s.records && end.closings == s.closings
    decreases |events|
  {
    if |events| != 0 {
      var next := Apply(s, events[0].0, events[0].1).value;
      assert forall c :: c in s.comments ==> c in next.comments;
      SpeakingStopsTheBot(next, events[1..]);
    }
  }

  // ---------- Reopening ----------

  /** A pull request that was closed once is closed again by the next run after it is reopened, without
      another comment, unless the author speaks or signs. */
  lemma ReopenedIsClosedAgain(start: State, events: seq<(int, Event)>, s: State, now: int)
    requires IsNew(start) && Execute(start, events) == Some(s)
    requires s.phase == Idle && s.open && s.lastNow <= now && s.clock <= now
    requires s.closings != [] && !AuthorSpoke(s.comments) && NeedsFollowUp(s.pr, now)
    ensures var run := [(now + 1, Begin(now)), (now + 2, FetchComments), (now + 3, Close)];
            && Execute(s, run).Some?
            && Execute(s, run).value.closings == s.closings + [Closing(now + 3, now, now + 2)]
            && Execute(s, run).value.records == s.records && !Execute(s, run).value.open
  {
    HistoriesKeepInvariant(start, events);
    CloseRun(s, now);
  }

  lemma CloseRun(s: State, now: int)
    requires Invariant(s) && s.phase == Idle && s.open && s.lastNow <= now && s.clock <= now
    requires s.closings != [] && !AuthorSpoke(s.comments) && NeedsFollowUp(s.pr, now)
    ensures var run := [(now + 1, Begin(now)), (now + 2, FetchComments), (now + 3, Close)];
            && Execute(s, run).Some?
            && Execute(s, run).value.closings == s.closings + [Closing(now + 3, now, now + 2)]
            && Execute(s, run).value.records == s.records && !Execute(s, run).value.open
  {
    var run := [(now + 1, Begin(now)), (now + 2, FetchComments), (now + 3, Close)];
    ClosesAgain(s, now);
    hide ClaAction, NeedsFollowUp, Invariant;
    var s1 := s.(clock := now + 1, lastNow := now, phase := Listed(now));
    var s2 := s1.(clock := now + 2, phase := Decided(now, now + 2, Act(None, true)));
    Then(s, run, 0, s1);
    Then(s1, run, 1, s2);
    Then(s2, run, 2, Apply(s2, now + 3, Close).value);
    assert run[0..] == run && run[3..] == [];
  }

  lemma Then(s: State, events: seq<(int, Event)>, i: nat, next: State)
    requires i < |events| && Apply(s, events[i].0, events[i].1) == Some(next)
    ensures Execute(s, events[i..]) == Execute(next, events[i + 1..])
  {
    hide Apply;
    assert events[i..][0] == events[i] && events[i..][1..] == events[i + 1..];
  }

  lemma ClosesAgain(s: State, now: int)
    requires Invariant(s) && s.closings != [] && !AuthorSpoke(s.comments) && s.clock <= now
    ensures ClaAction(s.comments, now) == Act(None, true)
  {
    hide ClaAction, PhaseOk, AuthorSpoke;
    DecisionIsJustified(s.comments, now);
    var c := s.closings[0];
    assert ClosingOk(s, c);
    var r :| r in s.records && Recheck(r, s.pr.createdAt, c.now);
    assert IsRetry(CommentOf(r.at, r.post)) && CommentOf(r.at, r.post) in s.comments;
    var x :| x in s.records && x.post == Explanation;
    assert CommentOf(x.at, x.post) in s.comments;
    assert Explained(s.comments);
    OnlyRetry(s, r, now);
  }

  /** The only re-check is the one that was a day old at the first close. */
  lemma OnlyRetry(s: State, r: Record, now: int)
    requires Matches(s.comments, s.records) && AtMostOnce(s.records) && r in s.records && r.post == Retry
    requires now - r.at >= CLA_CLOSE_AFTER_RETRY
    ensures RetriesAreOld(s.comments, now)
  {
    assert IsRetry(CommentOf(r.at, r.post)) && CommentOf(r.at, r.post) in s.comments;
    forall c | c in s.comments && IsRetry(c)
      ensures now - c.at >= CLA_CLOSE_AFTER_RETRY
    {
      var x :| x in s.records && x.at == c.at && x.post == Retry;
      var i, j :| 0 <= i < |s.records| && 0 <= j < |s.records| && s.records[i] == x && s.records[j] == r;
      assert i == j;
    }
  }

  // ---------- One undisturbed run ----------

  predicate CanRun(s: State, now: int)
  {
    s.phase == Idle && s.lastNow <= now && s.clock <= now
  }

  /** An open pull request of somebody with a login who has not signed a week after opening it */
  predicate IsDue(s: State, now: int)
  {
    s.open && s.pr.byUser && s.pr.hasLogin && !s.pr.signed && now - s.pr.createdAt >= 7 * 24 * 3600
  }

  lemma NothingDue(s: State, now: int)
    requires CanRun(s, now) && !IsDue(s, now)
    ensures Execute(s, [(now + 1, Begin(now))]) == Some(s.(clock := now + 1, lastNow := now))
  {
    var run := [(now + 1, Begin(now))];
    Then(s, run, 0, s.(clock := now + 1, lastNow := now));
    assert run[0..] == run && run[1..] == [];
  }

  function AfterFetch(s: State, now: int, action: Action): State
  {
    s.(clock := now + 2, lastNow := now, phase := Decided(now, now + 2, action))
  }

  lemma Fetches(s: State, run: seq<(int, Event)>, now: int, action: Action)
    requires CanRun(s, now) && IsDue(s, now) && action == ClaAction(s.comments, now)
    requires |run| >= 2 && run[0] == (now + 1, Begin(now)) && run[1] == (now + 2, FetchComments)
    ensures Execute(s, run) == Execute(AfterFetch(s, now, action), run[2..])
  {
    hide ClaAction, Execute;
    var began := s.(clock := now + 1, lastNow := now, phase := Listed(now));
    Then(s, run, 0, began);
    Then(began, run, 1, AfterFetch(s, now, action));
    assert run[0..] == run;
  }

  ghost predicate HasRecheck(comments: seq<Comment>) { exists c :: c in comments && IsRecheck(c) }

  ghost predicate HasYoungRecheck(comments: seq<Comment>, now: int)
  {
    exists c :: c in comments && IsRecheck(c) && now - c.at < 24 * 3600
  }

  ghost predicate HasSpoken(comments: seq<Comment>) { exists c :: c in comments && IsSpoken(c) }

  ghost predicate HasExplanationComment(comments: seq<Comment>) { exists c :: c in comments && c.isExplanation }

  lemma ActionIs(comments: seq<Comment>, now: int)
    ensures ClaAction(comments, now) ==
            if HasSpoken(comments) then Nothing
            else if !HasRecheck(comments) then Act(Some(Retry), false)
            else if HasYoungRecheck(comments, now) then Nothing
            else Act(if HasExplanationComment(comments) then None else Some(Explanation), true)
  {
    hide LatestRetryAt;
    LatestRetrySpec(comments);
    assert forall c :: (IsRetry(c) <==> IsRecheck(c)) && (IsWord(c) <==> IsSpoken(c));
  }

  /** One undisturbed run on a due pull request: nothing while the author has spoken or a re-check is younger than a
      day; else a re-check if there was none, and otherwise the close, after an explanation unless there is one. */
  lemma RunDoesWhatIsDue(s: State, now: int)
    requires CanRun(s, now) && IsDue(s, now)
    ensures var begun := [(now + 1, Begin(now)), (now + 2, FetchComments)];
            var next := s.(clock := now + 3, lastNow := now);
            if HasSpoken(s.comments) || (HasRecheck(s.comments) && HasYoungRecheck(s.comments, now)) then
              Execute(s, begun) == Some(AfterFetch(s, now, Nothing))
            else if !HasRecheck(s.comments) then
              Execute(s, begun + [(now + 3, PostComment)]) ==
              Some(next.(comments := s.comments + [Comment(now + 3, Bot, true, false)],
                         records := s.records + [Record(now + 3, Retry, now)]))
            else if HasExplanationComment(s.comments) then
              Execute(s, begun + [(now + 3, Close)]) ==
              Some(next.(open := false, closings := s.closings + [Closing(now + 3, now, now + 2)]))
            else
              Execute(s, begun + [(now + 3, PostComment), (now + 4, Close)]) ==
              Some(s.(clock := now + 4, lastNow := now, open := false,
                      comments := s.comments + [Comment(now + 3, Bot, false, true)],
                      records := s.records + [Record(now + 3, Explanation, now)],
                      closings := s.closings + [Closing(now + 4, now, now + 2)]))
  {
    hide ClaAction, Execute, HasSpoken, HasRecheck, HasYoungRecheck, HasExplanationComment;
    var begun := [(now + 1, Begin(now)), (now + 2, FetchComments)];
    var action := ClaAction(s.comments, now);
    ActionIs(s.comments, now);
    if action == Nothing {
      Fetches(s, begun, now, action);
      NoEvents(AfterFetch(s, now, action), begun);
    } else if action == Act(Some(Retry), false) {
      PostsOne(s, now, begun + [(now + 3, PostComment)]);
    } else if action.post.None? {
      ClosesOnly(s, now, begun + [(now + 3, Close)]);
    } else {
      ExplainsAndCloses(s, now, begun + [(now + 3, PostComment), (now + 4, Close)]);
    }
  }

  lemma PostsOne(s: State, now: int, run: seq<(int, Event)>)
    requires CanRun(s, now) && IsDue(s, now) && ClaAction(s.comments, now) == Act(Some(Retry), false)
    requires run == [(now + 1, Begin(now)), (now + 2, FetchComments), (now + 3, PostComment)]
    ensures Execute(s, run) ==
            Some(s.(clock := now + 3, lastNow := now, comments := s.comments + [Comment(now + 3, Bot, true, false)],
                    records := s.records + [Record(now + 3, Retry, now)]))
  {
    hide ClaAction, Execute;
    var posted := s.(clock := now + 3, lastNow := now, comments := s.comments + [Comment(now + 3, Bot, true, false)],
                     records := s.records + [Record(now + 3, Retry, now)]);
    Fetches(s, run, now, Act(Some(Retry), false));
    Then(AfterFetch(s, now, Act(Some(Retry), false)), run, 2, posted);
    NoEvents(posted, run);
  }

  lemma ClosesOnly(s: State, now: int, run: seq<(int, Event)>)
    requires CanRun(s, now) && IsDue(s, now) && ClaAction(s.comments, now) == Act(None, true)
    requires run == [(now + 1, Begin(now)), (now + 2, FetchComments), (now + 3, Close)]
    ensures Execute(s, run) ==
            Some(s.(clock := now + 3, lastNow := now, open := false,
                    closings := s.closings + [Closing(now + 3, now, now + 2)]))
  {
    hide ClaAction, Execute;
    var closed := s.(clock := now + 3, lastNow := now, open := false,
                     closings := s.closings + [Closing(now + 3, now, now + 2)]);
    Fetches(s, run, now, Act(None, true));
    Then(AfterFetch(s, now, Act(None, true)), run, 2, closed);
    NoEvents(closed, run);
  }

  lemma ExplainsAndCloses(s: State, now: int, run: seq<(int, Event)>)
    requires CanRun(s, now) && IsDue(s, now) && ClaAction(s.comments, now) == Act(Some(Explanation), true)
    requires run == [(now + 1, Begin(now)), (now + 2, FetchComments), (now + 3, PostComment), (now + 4, Close)]
    ensures Execute(s, run) ==
            Some(s.(clock := now + 4, lastNow := now, open := false,
                    comments := s.comments + [Comment(now + 3, Bot, false, true)],
                    records := s.records + [Record(now + 3, Explanation, now)],
                    closings := s.closings + [Closing(now + 4, now, now + 2)]))
  {
    hide ClaAction, Execute;
    var explained := s.(clock := now + 3, lastNow := now,
                        comments := s.comments + [Comment(now + 3, Bot, false, true)],
                        records := s.records + [Record(now + 3, Explanation, now)],
                        phase := Decided(now, now + 2, Act(None, true)));
    var closed := explained.(clock := now + 4, open := false, phase := Idle,
                             closings := s.closings + [Closing(now + 4, now, now + 2)]);
    Fetches(s, run, now, Act(Some(Explanation), true));
    Then(AfterFetch(s, now, Act(Some(Explanation), true)), run, 2, explained);
    Then(explained, run, 3, closed);
    NoEvents(closed, run);
  }

  lemma NoEvents(s: State, run: seq<(int, Event)>)
    ensures Execute(s, run[|run|..]) == Some(s)
  {
  }
}
