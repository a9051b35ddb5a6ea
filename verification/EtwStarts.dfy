/** Clicks on start while a launch is pending: exactly when they can cost a session its handle. */
module EtwStarts {
  import opened Wrappers
  import opened EtwRecorder
  import opened EtwEditor
  import opened EtwSystem

  // ---------- One launch at a time ----------

  /** The start action is only clicked while no launch is pending. */
  predicate StartsApart(s: State, action: Action)
  {
    action == ClickStart ==> forall id :: 0 <= id < |s.sessions| ==> s.sessions[id].task != Launching
  }

  predicate RunStartsApart(s: State, actions: seq<Action>)
    decreases |actions|
  {
    |actions| == 0 || (StartsApart(s, actions[0]) && (Apply(s, actions[0]).Some? ==>
        RunStartsApart(Apply(s, actions[0]).value, actions[1..])))
  }

  /** At most one task is alive; if it waits for the status its handle is the global one. */
  predicate OneTask(s: State)
  {
    && (forall i, j :: 0 <= i < j < |s.sessions| ==> s.sessions[i].task == Done || s.sessions[j].task == Done)
    && (forall i :: 0 <= i < |s.sessions| && s.sessions[i].task == AwaitingStatus ==> s.current == Some(i))
    && (forall i :: 0 <= i < |s.sessions| && s.sessions[i].task == Launching ==> s.current == None)
  }

  lemma TasksAfter(s: State, action: Action)
    requires Apply(s, action).Some? && (s.current.Some? ==> s.current.value < |s.sessions|)
    requires !action.ClickStart? && !action.LaunchFailed? && !action.LaunchSucceeded? && !action.StatusReceived? &&
        !action.StatusLost?
    ensures var s' := Apply(s, action).value;
            && |s'.sessions| == |s.sessions| && s'.current == s.current
            && forall i :: 0 <= i < |s.sessions| ==> s'.sessions[i].task == s.sessions[i].task
  {
    hide AfterSave, AfterCancel, AfterResume, AfterPrompt;
    if action.RecorderStep? {
      var session := s.sessions[action.id];
      assert Deliver(session, SocketOpen(s, action.id), action.event).value.task == session.task;
    }
  }

  lemma FinishKeepsOneTask(s: State, id: nat, read: seq<Status>)
    requires Invariant(s) && OneTask(s) && id < |s.sessions| && s.sessions[id].task == AwaitingStatus
    ensures OneTask(FinishTask(s, id, read))
  {
    hide SessionOk, TaskOk;
    assert s.current == Some(id);
  }

  lemma LaunchKeepsOneTask(s: State, id: nat)
    requires Invariant(s) && OneTask(s) && Apply(s, LaunchSucceeded(id)).Some?
    ensures OneTask(Apply(s, LaunchSucceeded(id)).value)
  {
    hide SessionOk, TaskOk;
    assert s.current == None;
  }

  lemma StepKeepsOneTask(s: State, action: Action)
    requires Invariant(s) && OneTask(s) && StartsApart(s, action) && Apply(s, action).Some?
    ensures OneTask(Apply(s, action).value)
  {
    hide SessionOk, TaskOk, Deliver, FinishTask;
    match action {
      case ClickStart =>
      case LaunchFailed(id) =>
      case LaunchSucceeded(id) => LaunchKeepsOneTask(s, id);
      case StatusReceived(id) => FinishKeepsOneTask(s, id, s.sessions[id].toEditor[..1]);
      case StatusLost(id) => FinishKeepsOneTask(s, id, []);
      case _ => TasksAfter(s, action);
    }
  }

  lemma {:induction false} RunsKeepOneTask(s: State, actions: seq<Action>)
    requires Invariant(s) && OneTask(s) && RunStartsApart(s, actions) && Execute(s, actions).Some?
    ensures OneTask(Execute(s, actions).value)
    decreases |actions|
  {
    hide Apply, Invariant, OneTask, StartsApart;
    if |actions| != 0 {
      StepKeepsInvariant(s, actions[0]);
      StepKeepsOneTask(s, actions[0]);
      RunsKeepOneTask(Apply(s, actions[0]).value, actions[1..]);
    }
  }

  /** When starts are clicked apart, a session's end or launch never drops the handle of another. */
  lemma OnlyOwnHandleIsDropped(actions: seq<Action>, id: nat)
    requires Execute(START, actions).Some? && RunStartsApart(START, actions)
    ensures var s := Execute(START, actions).value;
            id < |s.sessions| ==>
              && (s.sessions[id].task == AwaitingStatus ==> s.current == Some(id))
              && (s.sessions[id].task == Launching ==> s.current == None)
  {
    assert Invariant(START);
    RunsKeepOneTask(START, actions);
  }

  // ---------- Exactly when a session can be lost ----------

  /** A pending launch whose recorder has announced the start, or can still do so */
  predicate CanAnnounce(session: Session)
  {
    session.task == Launching
    && if session.toEditor == [] then session.recorder.phase in {Preparing, Announcing}
       else session.toEditor[0] == Started
  }

  predicate CanAwait(session: Session)
  {
    session.task == AwaitingStatus || CanAnnounce(session)
  }

  ghost predicate SomeOrphan(s: State)
  {
    exists id: nat :: Orphaned(s, id)
  }

  ghost predicate TwoCanAwait(s: State)
  {
    exists i, j :: 0 <= i < j < |s.sessions| && CanAwait(s.sessions[i]) && CanAwait(s.sessions[j])
  }

  ghost predicate AtRisk(s: State) { SomeOrphan(s) || TwoCanAwait(s) }

  predicate NoStarts(actions: seq<Action>)
  {
    forall a :: a in actions ==> a != ClickStart
  }

  ghost predicate LossIsPossible(s: State)
  {
    exists actions :: NoStarts(actions) && Execute(s, actions).Some? && SomeOrphan(Execute(s, actions).value)
  }

  lemma DeliverAwaits(session: Session, open: bool, e: Event)
    requires Consistent(session.recorder) && Deliver(session, open, e).Some?
    ensures CanAwait(Deliver(session, open, e).value) ==> CanAwait(session)
    ensures Deliver(session, open, e).value.task == session.task
  {
  }

  /** No step but a click on start makes a session able to await its status. */
  lemma AwaitsBackwards(s: State, action: Action, k: nat)
    requires Invariant(s) && Apply(s, action).Some? && action != ClickStart && k < |s.sessions|
    ensures |Apply(s, action).value.sessions| == |s.sessions|
    ensures CanAwait(Apply(s, action).value.sessions[k]) ==> CanAwait(s.sessions[k])
  {
    hide Deliver, CanAnnounce, TaskOk, AfterSave, AfterCancel, AfterResume, AfterPrompt, SaveSends, CancelSends,
         OpensDialog;
    assert SessionOk(s.sessions[k], s.picked);
    if action.RecorderStep? {
      if action.id == k {
        DeliverAwaits(s.sessions[k], SocketOpen(s, k), action.event);
      }
    } else if action.LaunchSucceeded? {
      if action.id == k {
        assert CanAnnounce(s.sessions[k]) by { AnnouncedCan(s.sessions[k]); }
      }
    } else if action.LaunchFailed? || action.StatusReceived? || action.StatusLost? {
      if action.id == k {
        DoneCannot(Apply(s, action).value.sessions[k]);
      }
    } else {
      ClicksKeepAwaiting(s, action, k);
    }
  }

  lemma AnnouncedCan(session: Session)
    requires session.task == Launching && |session.toEditor| > 0 && session.toEditor[0] == Started
    ensures CanAnnounce(session)
  {
  }

  lemma DoneCannot(session: Session)
    requires session.task == Done
    ensures !CanAwait(session)
  {
  }

  lemma ClicksKeepAwaiting(s: State, action: Action, k: nat)
    requires Apply(s, action).Some? && k < |s.sessions|
    requires action.ClickSave? || action.DialogPicked? || action.DialogDismissed? || action.ClickCancel?
    ensures |Apply(s, action).value.sessions| == |s.sessions|
    ensures CanAwait(Apply(s, action).value.sessions[k]) <==> CanAwait(s.sessions[k])
  {
    hide AfterSave, AfterCancel, AfterResume, AfterPrompt, SaveSends, CancelSends, OpensDialog;
  }

  lemma SafeStep(s: State, action: Action)
    requires Invariant(s) && !AtRisk(s) && Apply(s, action).Some? && action != ClickStart
    ensures !AtRisk(Apply(s, action).value)
  {
    hide SessionOk, CanAnnounce, Deliver;
    var s' := Apply(s, action).value;
    forall k | 0 <= k < |s.sessions|
      ensures CanAwait(s'.sessions[k]) ==> CanAwait(s.sessions[k])
    {
      AwaitsBackwards(s, action, k);
    }
    NewOrphanMeansTwo(s, action);
    hide Apply, Invariant, CanAwait;
    TwoBackwards(s, s');
  }

  lemma TwoBackwards(s: State, s': State)
    requires |s'.sessions| == |s.sessions|
    requires forall k :: 0 <= k < |s.sessions| && CanAwait(s'.sessions[k]) ==> CanAwait(s.sessions[k])
    ensures TwoCanAwait(s') ==> TwoCanAwait(s)
  {
    hide CanAwait;
  }

  lemma NewOrphanMeansTwo(s: State, action: Action)
    requires Invariant(s) && Apply(s, action).Some? && action != ClickStart
    ensures SomeOrphan(Apply(s, action).value) ==> AtRisk(s)
    ensures |Apply(s, action).value.sessions| == |s.sessions|
  {
    hide SessionOk, TaskOk, CanAnnounce, Deliver, TwoCanAwait;
    var s' := Apply(s, action).value;
    if action.LaunchSucceeded? || action.StatusReceived? || action.StatusLost? {
      var k := action.id;
      assert CanAwait(s.sessions[k]) by { if action.LaunchSucceeded? { AnnouncedCan(s.sessions[k]); } }
      if id: nat :| Orphaned(s', id) {
        OthersAwait(s, action, id);
        TwoAre(s, k, id);
      }
    } else if action.LaunchFailed? {
      if id: nat :| Orphaned(s', id) {
        assert Orphaned(s, id);
      }
    } else {
      TasksAfter(s, action);
      if id: nat :| Orphaned(s', id) {
        assert Orphaned(s, id);
      }
    }
  }

  lemma OthersAwait(s: State, action: Action, id: nat)
    requires Invariant(s) && Apply(s, action).Some? && Orphaned(Apply(s, action).value, id)
    requires action.LaunchSucceeded? || action.StatusReceived? || action.StatusLost?
    ensures id != action.id && id < |s.sessions| && s.sessions[id].task == AwaitingStatus
  {
    hide SessionOk, Deliver;
  }

  lemma TwoAre(s: State, i: nat, j: nat)
    requires i < |s.sessions| && j < |s.sessions| && i != j && CanAwait(s.sessions[i]) && CanAwait(s.sessions[j])
    ensures TwoCanAwait(s)
  {
    if j < i {
      assert CanAwait(s.sessions[j]);
    }
  }

  lemma {:induction false} SafeRun(s: State, actions: seq<Action>)
    requires Invariant(s) && !AtRisk(s) && NoStarts(actions) && Execute(s, actions).Some?
    ensures !AtRisk(Execute(s, actions).value)
    decreases |actions|
  {
    hide Apply, Invariant, AtRisk;
    if |actions| != 0 {
      assert actions[0] in actions && forall a :: a in actions[1..] ==> a in actions;
      StepKeepsInvariant(s, actions[0]);
      SafeStep(s, actions[0]);
      SafeRun(Apply(s, actions[0]).value, actions[1..]);
    }
  }

  /** A launch that can be announced can be brought to its end, with nothing else happening. */
  lemma {:induction false} FinishLaunch(s: State, id: nat) returns (actions: seq<Action>)
    requires Invariant(s) && id < |s.sessions| && CanAnnounce(s.sessions[id])
    ensures NoStarts(actions) && Execute(s, actions).Some?
    ensures var end := Execute(s, actions).value;
            && Invariant(end) && end.current == Some(id) && |end.sessions| == |s.sessions|
            && end.sessions[id].task == AwaitingStatus
            && forall k :: 0 <= k < |s.sessions| && k != id ==> end.sessions[k] == s.sessions[k]
    decreases if s.sessions[id].toEditor != [] then 0 else if s.sessions[id].recorder.phase == Announcing then 1 else 2
  {
    var first := if s.sessions[id].toEditor != [] then LaunchSucceeded(id)
                 else if s.sessions[id].recorder.phase == Announcing then RecorderStep(id, ANNOUNCE)
                 else RecorderStep(id, BEGIN);
    LaunchStep(s, id, first);
    StepKeepsInvariant(s, first);
    var next := Apply(s, first).value;
    hide Apply, Invariant, CanAnnounce;
    var rest := [];
    if !first.LaunchSucceeded? {
      rest := FinishLaunch(next, id);
    }
    actions := [first] + rest;
    assert actions[0] == first && actions[1..] == rest;
  }

  lemma LaunchStep(s: State, id: nat, action: Action)
    requires id < |s.sessions| && CanAnnounce(s.sessions[id])
    requires action == if s.sessions[id].toEditor != [] then LaunchSucceeded(id)
                       else if s.sessions[id].recorder.phase == Announcing then RecorderStep(id, ANNOUNCE)
                       else RecorderStep(id, BEGIN)
    ensures Apply(s, action).Some?
    ensures var s' := Apply(s, action).value;
            && |s'.sessions| == |s.sessions|
            && (forall k :: 0 <= k < |s.sessions| && k != id ==> s'.sessions[k] == s.sessions[k])
            && (action.LaunchSucceeded? ==> s'.current == Some(id) && s'.sessions[id].task == AwaitingStatus)
            && (!action.LaunchSucceeded? ==>
                  CanAnnounce(s'.sessions[id])
                  && if action == RecorderStep(id, ANNOUNCE) then s'.sessions[id].toEditor != []
                     else s'.sessions[id].toEditor == [] && s'.sessions[id].recorder.phase == Announcing)
  {
  }

  lemma RiskBecomesLoss(s: State)
    requires Invariant(s) && AtRisk(s)
    ensures LossIsPossible(s)
  {
    hide Invariant, CanAnnounce, Apply;
    var none: seq<Action> := [];
    assert NoStarts(none) && Execute(s, none) == Some(s);
    if i, j :| 0 <= i < j < |s.sessions| && CanAwait(s.sessions[i]) && CanAwait(s.sessions[j]) {
      if CanAnnounce(s.sessions[j]) {
        var first: seq<Action> := [];
        if CanAnnounce(s.sessions[i]) {
          first := FinishLaunch(s, i);
        }
        var mid := Execute(s, first).value;
        var second := FinishLaunch(mid, j);
        ExecuteConcat(s, first, second);
        assert Orphaned(Execute(mid, second).value, i);
        assert NoStarts(first + second);
      } else if CanAnnounce(s.sessions[i]) {
        var first := FinishLaunch(s, i);
        assert Orphaned(Execute(s, first).value, j);
      } else {
        assert Orphaned(s, i) || Orphaned(s, j);
      }
    }
  }

  /** In every reachable state: without further clicks on start some session can lose its handle while
      it waits if and only if one has lost it already, or two sessions wait or can still come to wait. */
  lemma LossIsPossibleIff(run: seq<Action>)
    requires Execute(START, run).Some?
    ensures LossIsPossible(Execute(START, run).value) <==> AtRisk(Execute(START, run).value)
  {
    var s := Execute(START, run).value;
    assert Invariant(START);
    RunsKeepInvariant(START, run);
    hide Execute, Invariant;
    if AtRisk(s) {
      RiskBecomesLoss(s);
    }
    if LossIsPossible(s) {
      var actions :| NoStarts(actions) && Execute(s, actions).Some? && SomeOrphan(Execute(s, actions).value);
      if !AtRisk(s) {
        SafeRun(s, actions);
        assert false;
      }
    }
  }

  ghost predicate LaunchPending(s: State)
  {
    exists id :: 0 <= id < |s.sessions| && CanAnnounce(s.sessions[id])
  }

  lemma StartRisks(s: State)
    requires Invariant(s) && !AtRisk(s)
    ensures AtRisk(Apply(s, ClickStart).value) <==> LaunchPending(s)
  {
    hide SessionOk;
    var s' := Apply(s, ClickStart).value;
    if s.current.Some? {
      assert TaskOk(s, s.current.value) && CanAwait(s.sessions[s.current.value]);
      if id :| 0 <= id < |s.sessions| && CanAnnounce(s.sessions[id]) {
        TwoAre(s, s.current.value, id);
      }
    } else {
      var n := |s.sessions|;
      assert s'.sessions[n] == NEW_SESSION && forall k :: 0 <= k < n ==> s'.sessions[k] == s.sessions[k];
      if id :| 0 <= id < n && CanAnnounce(s.sessions[id]) {
        assert CanAwait(s'.sessions[id]) && CanAwait(s'.sessions[n]);
      }
      if TwoCanAwait(s') {
        var i, j :| 0 <= i < j < |s'.sessions| && CanAwait(s'.sessions[i]) && CanAwait(s'.sessions[j]);
        assert CanAwait(s.sessions[i]) && !Orphaned(s, i);
      }
      assert (exists k: nat :: k < n && Orphaned(s', k)) ==> SomeOrphan(s) by {
        SameOrphans(s, s');
      }
    }
  }

  lemma SameOrphans(s: State, s': State)
    requires s'.current == s.current && s.sessions <= s'.sessions
    ensures forall k: nat :: k < |s.sessions| ==> (Orphaned(s', k) <==> Orphaned(s, k))
  {
  }

  /** When starts were clicked apart so far, one more click makes a loss possible if and only if a launch
      is pending that can still succeed. */
  lemma StartRisksLossIff(run: seq<Action>)
    requires Execute(START, run).Some? && RunStartsApart(START, run)
    ensures var s := Execute(START, run).value;
            LossIsPossible(Apply(s, ClickStart).value) <==> LaunchPending(s)
  {
    var s := Execute(START, run).value;
    assert Invariant(START) && OneTask(START);
    RunsKeepInvariant(START, run);
    RunsKeepOneTask(START, run);
    OneTaskIsSafe(s);
    StartRisks(s);
    var next := [ClickStart];
    assert next[0] == ClickStart && next[1..] == [];
    assert Execute(s, next) == Apply(s, ClickStart) by { NothingLeft(Apply(s, ClickStart).value); }
    ExecuteConcat(START, run, next);
    LossIsPossibleIff(run + next);
  }

  lemma NothingLeft(s: State)
    ensures Execute(s, []) == Some(s)
  {
  }

  lemma OneTaskIsSafe(s: State)
    requires OneTask(s)
    ensures !AtRisk(s)
  {
  }

  /** The end of the story: if a session ever loses its handle, start was clicked during a launch. */
  lemma LossNeedsOverlap(run: seq<Action>)
    requires Execute(START, run).Some? && SomeOrphan(Execute(START, run).value)
    ensures !RunStartsApart(START, run)
  {
    assert Invariant(START) && OneTask(START);
    if RunStartsApart(START, run) {
      RunsKeepOneTask(START, run);
      OneTaskIsSafe(Execute(START, run).value);
      assert false;
    }
  }

  // ---------- A run that loses a session ----------

  const WAITING := Recorder(Waiting, true, None, 0, true)
  const LIVE := Session(Handle(Recording, []), [], [], WAITING, AwaitingStatus)
  const BEGIN := StartCalled(true)
  const ANNOUNCE := StartedSent(true, true)
  const FIRST_LAUNCH := [ClickStart, ClickStart, RecorderStep(0, BEGIN), RecorderStep(0, ANNOUNCE), LaunchSucceeded(0)]
  const SECOND_LAUNCH := [RecorderStep(1, BEGIN), RecorderStep(1, ANNOUNCE), LaunchSucceeded(1)]
  const ONE_LIVE := State([LIVE, NEW_SESSION], Some(0), 0, {}, {})
  const REPLACED := State([LIVE, LIVE], Some(1), 0, {}, {})
  const ANNOUNCING := NEW_SESSION.(recorder := Recorder(Announcing, true, None, 0, true))
  const ANNOUNCED := NEW_SESSION.(recorder := WAITING, toEditor := [Started])

  lemma BeginAndAnnounce()
    ensures Deliver(NEW_SESSION, true, BEGIN) == Some(ANNOUNCING)
    ensures Deliver(ANNOUNCING, true, ANNOUNCE) == Some(ANNOUNCED)
  {
    assert [] + [Started] == [Started];
  }

  lemma LaunchAnnounced(s: State, id: nat)
    requires id < |s.sessions| && s.sessions[id] == ANNOUNCED
    ensures Apply(s, LaunchSucceeded(id)) == Some(s.(sessions := s.sessions[id := LIVE], current := Some(id)))
  {
    assert [Started][1..] == [];
  }

  lemma FirstLaunch()
    ensures Execute(START, FIRST_LAUNCH) == Some(ONE_LIVE)
  {
    hide Deliver;
    var actions := FIRST_LAUNCH;
    var s1 := START.(sessions := [NEW_SESSION]);
    var s2 := START.(sessions := [NEW_SESSION, NEW_SESSION]);
    var s3 := START.(sessions := [ANNOUNCING, NEW_SESSION]);
    var s4 := START.(sessions := [ANNOUNCED, NEW_SESSION]);
    assert START.sessions + [NEW_SESSION] == s1.sessions && s1.sessions + [NEW_SESSION] == s2.sessions;
    StepThen(START, actions, 0, s1);
    StepThen(s1, actions, 1, s2);
    hide Apply;
    BeginAndAnnounce();
    RecorderStepTo(s2, 0, BEGIN, ANNOUNCING, s3.sessions);
    StepThen(s2, actions, 2, s3);
    RecorderStepTo(s3, 0, ANNOUNCE, ANNOUNCED, s4.sessions);
    StepThen(s3, actions, 3, s4);
    LaunchAnnounced(s4, 0);
    assert s4.sessions[0 := LIVE] == ONE_LIVE.sessions;
    StepThen(s4, actions, 4, ONE_LIVE);
    assert actions[0..] == actions && actions[5..] == [];
  }

  lemma SecondLaunch()
    ensures Execute(ONE_LIVE, SECOND_LAUNCH) == Some(REPLACED)
  {
    hide Deliver, FinishTask, Apply;
    var actions := SECOND_LAUNCH;
    var s6 := ONE_LIVE.(sessions := [LIVE, ANNOUNCING]);
    var s7 := ONE_LIVE.(sessions := [LIVE, ANNOUNCED]);
    BeginAndAnnounce();
    RecorderStepTo(ONE_LIVE, 1, BEGIN, ANNOUNCING, s6.sessions);
    StepThen(ONE_LIVE, actions, 0, s6);
    RecorderStepTo(s6, 1, ANNOUNCE, ANNOUNCED, s7.sessions);
    StepThen(s6, actions, 1, s7);
    LaunchAnnounced(s7, 1);
    assert s7.sessions[1 := LIVE] == REPLACED.sessions;
    StepThen(s7, actions, 2, REPLACED);
    assert actions[0..] == actions && actions[3..] == [];
  }

  lemma {:induction false} ExecuteConcat(s: State, a: seq<Action>, b: seq<Action>)
    requires Execute(s, a).Some?
    ensures Execute(s, a + b) == Execute(Execute(s, a).value, b)
    decreases |a|
  {
    hide Apply;
    if |a| == 0 {
      assert a + b == b;
    } else {
      assert (a + b)[0] == a[0] && (a + b)[1..] == a[1..] + b;
      ExecuteConcat(Apply(s, a[0]).value, a[1..], b);
    }
  }

  /** Two clicks during a launch are enough: the second launch replaces the handle of the first session
      while its recorder waits for a command that nobody can send any more. */
  lemma SecondClickLosesASession()
    ensures Execute(START, FIRST_LAUNCH + SECOND_LAUNCH) == Some(REPLACED)
    ensures Orphaned(REPLACED, 0) && OutOfReach(REPLACED, 0) && REPLACED.sessions[0].handle.sent == []
    ensures REPLACED.sessions[0].recorder.phase == Waiting && SocketOpen(REPLACED, 0)
  {
    hide Execute;
    FirstLaunch();
    SecondLaunch();
    ExecuteConcat(START, FIRST_LAUNCH, SECOND_LAUNCH);
  }

  lemma RecorderStepTo(s: State, id: nat, event: Event, session: Session, sessions: seq<Session>)
    requires id < |s.sessions| && HoldsReader(s.sessions[id]) && Deliver(s.sessions[id], true, event) == Some(session)
    requires sessions == s.sessions[id := session]
    ensures Apply(s, RecorderStep(id, event)) == Some(s.(sessions := sessions))
  {
    hide Deliver;
  }

  lemma StepThen(s: State, actions: seq<Action>, i: nat, next: State)
    requires i < |actions| && Apply(s, actions[i]) == Some(next)
    ensures Execute(s, actions[i..]) == Execute(next, actions[i + 1..])
  {
    hide Apply;
    assert actions[i..][0] == actions[i] && actions[i..][1..] == actions[i + 1..];
  }
}
