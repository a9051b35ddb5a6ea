/** The guild's check-in protocol over whole histories of one issue with at most one guild assignee:
    runs of the sweep that stop anywhere, assignments, comments and pauses, interleaved in any order. */
module GuildHistory {
  import opened Wrappers
  import opened GuildSweep

  /** A check-in: when and to whom, the start of its run, when that fetched the comments and the activity
      that it saw */
  datatype Record = Record(at: int, user: string, now: int, fetchedAt: int, activity: int)

  datatype Clearing = Clearing(at: int, user: string, now: int, activity: int)

  /** Where the current run stands with this issue */
  datatype Phase =
    | Idle
    | Listed(now: int, user: string)
    | Fetched(now: int, user: string, fetchedAt: int, comments: seq<Comment>)
    | Decided(now: int, user: string, fetchedAt: int, activity: int, action: Action)

  /** The issue on the server; `records` and `clearings` log what the sweep did. */
  datatype State = State(
    clock: int, lastNow: int, paused: bool, assignee: Option<string>, assignments: seq<Assignment>,
    comments: seq<Comment>, phase: Phase, records: seq<Record>, clearings: seq<Clearing>)

  datatype Event =
    | Assign(user: string)
    | Unassign
    | Reply(user: string)
    | Pause(paused: bool)
    | Begin(now: int)
    | FetchComments
    | FetchTimeline
    | Post
    | RemoveAssignee
    | Stop

  // ---------- Steps ----------

  function DecideNext(s: State): Phase
    requires s.phase.Fetched?
  {
    var Fetched(now, user, fetchedAt, comments) := s.phase;
    match LatestAssignmentTime(s.assignments, user)
    case None => Idle
    case Some(assignedAt) =>
      var activity := LastActivity(assignedAt, comments, user);
      Decided(now, user, fetchedAt, activity, DecideFor(assignedAt, comments, user, now))
  }

  function Apply(s: State, t: int, e: Event): Option<State>
  {
    if t <= s.clock then None
    else
      var s := s.(clock := t);
      match e
      case Assign(user) =>
        if s.assignee.Some? then None
        else Some(s.(assignee := Some(user), assignments := s.assignments + [Assignment(t, user)]))
      case Unassign => Some(s.(assignee := None))
      case Reply(user) => Some(s.(comments := s.comments + [Comment(t, user, false)]))
      case Pause(paused) => Some(s.(paused := paused))
      case Begin(now) =>
        if s.phase != Idle || now < s.lastNow || now > t then None
        else
          var next := s.(lastNow := now);
          Some(if s.paused || s.assignee.None? then next else next.(phase := Listed(now, s.assignee.value)))
      case FetchComments =>
        if s.phase.Listed? then Some(s.(phase := Fetched(s.phase.now, s.phase.user, t, s.comments))) else None
      case FetchTimeline =>
        if s.phase.Fetched? then Some(s.(phase := DecideNext(s))) else None
      case Post =>
        if s.phase.Decided? && s.phase.action == CheckIn then
          var Decided(now, user, fetchedAt, activity, _) := s.phase;
          Some(s.(comments := s.comments + [Comment(t, "", true)],
                  records := s.records + [Record(t, user, now, fetchedAt, activity)], phase := Idle))
        else None
      case RemoveAssignee =>
        if s.phase.Decided? && s.phase.action == Clear then
          if s.assignee == Some(s.phase.user) then
            Some(s.(assignee := None, phase := Idle,
                    clearings := s.clearings + [Clearing(t, s.phase.user, s.phase.now, s.phase.activity)]))
          else Some(s.(phase := Idle))
        else None
      case Stop => Some(s.(phase := Idle))
  }

  function Execute(s: State, events: seq<(int, Event)>): Option<State>
    decreases |events|
  {
    if |events| == 0 then Some(s)
    else
      match Apply(s, events[0].0, events[0].1)
      case None => None
      case Some(next) => Execute(next, events[1..])
  }

  predicate IsNew(s: State)
  {
    && s.assignee == None && s.assignments == [] && s.comments == [] && s.phase == Idle
    && s.records == [] && s.clearings == []
  }

  // ---------- What holds in every history ----------

  /** The user was assigned or commented at that time. */
  predicate WasActive(s: State, user: string, at: int)
  {
    Assignment(at, user) in s.assignments || Comment(at, user, false) in s.comments
  }

  /** A check-in that was seven days old and that no activity of the user followed, as far as the
      run could see */
  predicate Nudged(w: Record, activity: int, now: int)
  {
    && w.now - w.activity >= CHECK_IN_AFTER_DAYS * DAY && w.now < w.at
    && activity <= w.at && now - w.at >= AUTO_CLEAR_AFTER_DAYS * DAY
  }

  ghost predicate Justified(records: seq<Record>, activity: int, now: int)
  {
    exists w :: w in records && Nudged(w, activity, now)
  }

  predicate RecordOk(s: State, r: Record)
  {
    && r.now - r.activity >= CHECK_IN_AFTER_DAYS * DAY && r.now <= r.fetchedAt < r.at <= s.clock
    && WasActive(s, r.user, r.activity)
  }

  /** Check-in comments are exactly the records of the sweep. */
  predicate Matches(s: State)
  {
    && (forall c :: c in s.comments && c.isCheckIn ==> exists r :: r in s.records && r.at == c.at)
    && (forall r :: r in s.records ==> Comment(r.at, "", true) in s.comments)
  }

  /** Check-ins known to a run in progress are all that there are. */
  ghost predicate PhaseOk(s: State)
  {
    match s.phase
    case Idle => true
    case Listed(now, user) => now <= s.clock
    case Fetched(now, user, fetchedAt, comments) =>
      && now <= fetchedAt <= s.clock && SameCheckIns(s, comments)
      && forall c :: c in comments ==> c in s.comments
    case Decided(now, user, fetchedAt, activity, action) =>
      && now <= fetchedAt <= s.clock && WasActive(s, user, activity)
      && (action == CheckIn ==>
          && now - activity >= CHECK_IN_AFTER_DAYS * DAY
          && forall r :: r in s.records ==> r.at < activity)
      && (action == Clear ==> Justified(s.records, activity, now))
  }

  predicate SameCheckIns(s: State, comments: seq<Comment>)
  {
    forall r :: r in s.records ==> Comment(r.at, "", true) in comments
  }

  /** Between two check-ins the later one's assignee was active. */
  ghost predicate Alternates(records: seq<Record>)
  {
    forall i, j :: 0 <= i < j < |records| ==> records[i].at < records[j].activity < records[j].at
  }

  ghost predicate Invariant(s: State)
  {
    && Matches(s) && (forall r :: r in s.records ==> RecordOk(s, r)) && PhaseOk(s) && Alternates(s.records)
    && (forall c :: c in s.clearings ==> Justified(s.records, c.activity, c.now))
  }

  /** Nothing is taken back: assignments, comments and records only grow. */
  predicate Grows(s: State, s': State)
  {
    && s.clock <= s'.clock
    && (forall a :: a in s.assignments ==> a in s'.assignments)
    && (forall c :: c in s.comments ==> c in s'.comments)
    && s.records <= s'.records
  }

  lemma GrowthKeepsRecords(s: State, s': State)
    requires Grows(s, s')
    ensures forall user, at :: WasActive(s, user, at) ==> WasActive(s', user, at)
    ensures forall r :: RecordOk(s, r) ==> RecordOk(s', r)
    ensures forall activity, now :: Justified(s.records, activity, now) ==> Justified(s'.records, activity, now)
  {
    assert forall r :: r in s.records ==> r in s'.records;
  }

  lemma StepGrows(s: State, t: int, e: Event)
    requires Apply(s, t, e).Some?
    ensures Grows(s, Apply(s, t, e).value)
  {
    hide DecideNext;
  }

  lemma SeenActivityIsReal(s: State, comments: seq<Comment>, user: string, assignedAt: int)
    requires LatestAssignmentTime(s.assignments, user) == Some(assignedAt)
    requires forall c :: c in comments ==> c in s.comments
    ensures WasActive(s, user, LastActivity(assignedAt, comments, user))
  {
    hide LatestAssignmentTime, LastActivity;
    LatestAssignmentSpec(s.assignments, user);
    LastActivitySpec(assignedAt, comments, user);
    var at := LastActivity(assignedAt, comments, user);
    if at != assignedAt {
      var c :| c in comments && IsReply(c, user) && c.at == at;
      assert c == Comment(at, user, false);
    }
  }

  lemma DecisionKeeps(s: State, t: int)
    requires Invariant(s) && s.phase.Fetched? && t > s.clock
    ensures PhaseOk(Apply(s, t, FetchTimeline).value)
  {
    hide LatestAssignmentTime, LastActivity, DecideFor, Alternates;
    var Fetched(now, user, _, comments) := s.phase;
    var since := LatestAssignmentTime(s.assignments, user);
    if since.Some? {
      var activity := LastActivity(since.value, comments, user);
      DecisionIsJustified(since.value, comments, user, now);
      SeenActivityIsReal(s, comments, user, since.value);
      match DecideFor(since.value, comments, user, now) {
        case Leave =>
        case CheckIn =>
          forall r | r in s.records
            ensures r.at < activity
          {
            assert !IsNudge(Comment(r.at, "", true), activity);
          }
        case Clear =>
          var c :| c in comments && IsNudge(c, activity);
          var w :| w in s.records && w.at == c.at;
          assert Nudged(w, activity, now);
      }
    }
  }

  lemma PostMatches(s: State, s': State, r: Record)
    requires Matches(s) && s'.records == s.records + [r] && s'.comments == s.comments + [Comment(r.at, "", true)]
    ensures Matches(s')
  {
    forall c | c in s'.comments && c.isCheckIn
      ensures exists x :: x in s'.records && x.at == c.at
    {
      if c in s.comments {
        var x :| x in s.records && x.at == c.at;
        assert x in s'.records;
      } else {
        assert r in s'.records;
      }
    }
  }

  lemma PostAlternates(s: State, s': State, r: Record)
    requires Alternates(s.records) && s'.records == s.records + [r] && r.activity < r.at
    requires forall x :: x in s.records ==> x.at < r.activity
    ensures Alternates(s'.records)
  {
    forall i, j | 0 <= i < j < |s'.records|
      ensures s'.records[i].at < s'.records[j].activity < s'.records[j].at
    {
      if j == |s.records| {
        assert s.records[i] in s.records;
      }
    }
  }

  lemma PostKeeps(s: State, t: int)
    requires Invariant(s) && Apply(s, t, Post).Some?
    ensures Matches(Apply(s, t, Post).value) && Alternates(Apply(s, t, Post).value.records)
    ensures RecordOk(Apply(s, t, Post).value, Record(t, s.phase.user, s.phase.now, s.phase.fetchedAt, s.phase.activity))
  {
    hide Matches, Alternates, Justified;
    var s' := Apply(s, t, Post).value;
    var r := Record(t, s.phase.user, s.phase.now, s.phase.fetchedAt, s.phase.activity);
    assert s'.records == s.records + [r];
    PostMatches(s, s', r);
    PostAlternates(s, s', r);
    assert WasActive(s, r.user, r.activity);
    StepGrows(s, t, Post);
  }

  lemma StepKeepsPhase(s: State, t: int, e: Event)
    requires Invariant(s) && Apply(s, t, e).Some?
    ensures PhaseOk(Apply(s, t, e).value)
  {
    hide DecideNext, Alternates, RecordOk;
    StepGrows(s, t, e);
    if e == FetchTimeline {
      DecisionKeeps(s, t);
    } else {
      GrowthKeepsRecords(s, Apply(s, t, e).value);
    }
  }

  lemma StepKeepsLogs(s: State, t: int, e: Event)
    requires Invariant(s) && Apply(s, t, e).Some? && e != Post
    ensures Matches(Apply(s, t, e).value) && Alternates(Apply(s, t, e).value.records)
  {
    hide DecideNext, RecordOk, PhaseOk, Justified, Alternates;
    assert Apply(s, t, e).value.records == s.records;
  }

  lemma StepKeepsInvariant(s: State, t: int, e: Event)
    requires Invariant(s) && Apply(s, t, e).Some?
    ensures Invariant(Apply(s, t, e).value)
  {
    hide DecideNext, RecordOk, PhaseOk, Justified, Matches, Alternates;
    var s' := Apply(s, t, e).value;
    StepKeepsPhase(s, t, e);
    StepGrows(s, t, e);
    GrowthKeepsRecords(s, s');
    if e == Post {
      PostKeeps(s, t);
    } else {
      StepKeepsLogs(s, t, e);
      if e == RemoveAssignee {
        ClearIsJustified(s);
      }
    }
  }

  lemma ClearIsJustified(s: State)
    requires Invariant(s) && s.phase.Decided? && s.phase.action == Clear
    ensures Justified(s.records, s.phase.activity, s.phase.now)
  {
  }

  lemma {:induction false} HistoriesKeepInvariant(s: State, events: seq<(int, Event)>)
    requires Invariant(s) && Execute(s, events).Some?
    ensures Invariant(Execute(s, events).value)
    decreases |events|
  {
    hide Apply, Invariant;
    if |events| != 0 {
      StepKeepsInvariant(s, events[0].0, events[0].1);
      HistoriesKeepInvariant(Apply(s, events[0].0, events[0].1).value, events[1..]);
    }
  }

  /** Whatever stops where: an assignment is cleared only when a check-in of the sweep was seven days
      old that no activity seen by the run followed, and that a run had posted after it saw fourteen
      days of silence. */
  lemma EveryClearIsJustified(s: State, events: seq<(int, Event)>, c: Clearing)
    requires IsNew(s) && Execute(s, events).Some?
    requires c in Execute(s, events).value.clearings
    ensures Justified(Execute(s, events).value.records, c.activity, c.now)
  {
    HistoriesKeepInvariant(s, events);
  }

  /** Between two check-ins the one who is asked the second time was active: there is no second
      check-in in one silence. */
  lemma ActiveBetweenCheckIns(s: State, events: seq<(int, Event)>, i: nat, j: nat)
    requires IsNew(s) && Execute(s, events).Some?
    requires i < j < |Execute(s, events).value.records|
    ensures var end := Execute(s, events).value;
            var first, second := end.records[i], end.records[j];
            first.at < second.activity < second.at && WasActive(end, second.user, second.activity)
  {
    HistoriesKeepInvariant(s, events);
    var end := Execute(s, events).value;
    assert RecordOk(end, end.records[j]);
  }
}
