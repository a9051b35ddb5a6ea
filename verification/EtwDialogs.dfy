/** What the person at the editor can rely on, in every reachable state: dialogs lead back to recording or to a
    command, notices are true, and a recording can always be saved or cancelled. */
module EtwDialogs {
  import opened Wrappers
  import opened EtwRecorder
  import opened EtwEditor
  import opened EtwSystem
  import opened EtwStarts

  /** Nobody has touched the handle of a session that is still being launched. */
  predicate Untouched(s: State, id: nat)
    requires id < |s.sessions|
  {
    s.sessions[id].task == Launching ==> s.sessions[id].handle == Handle(Recording, [])
  }

  ghost predicate DialogInvariant(s: State)
  {
    && Invariant(s)
    && AllUntouched(s)
    && (CurrentHandle(s).Some? && CurrentHandle(s).value.state == ChoosingOutputPath ==> s.dialogs > 0)
  }

  ghost predicate AllUntouched(s: State)
  {
    forall id {:trigger s.sessions[id]} :: 0 <= id < |s.sessions| ==> Untouched(s, id)
  }

  lemma StepKeepsDialogs(s: State, action: Action)
    requires DialogInvariant(s) && Apply(s, action).Some?
    ensures DialogInvariant(Apply(s, action).value)
  {
    hide Invariant, Deliver, SessionOk;
    StepKeepsInvariant(s, action);
    CurrentAwaits(s);
    StepKeepsUntouched(s, action);
    if action.RecorderStep? {
      DeliverKeepsHandle(s.sessions[action.id], SocketOpen(s, action.id), action.event);
    }
  }

  lemma StepKeepsUntouched(s: State, action: Action)
    requires DialogInvariant(s) && Apply(s, action).Some?
    ensures AllUntouched(Apply(s, action).value)
  {
    hide Invariant, Deliver, SessionOk;
    var s' := Apply(s, action).value;
    CurrentAwaits(s);
    if action.RecorderStep? {
      DeliverKeepsHandle(s.sessions[action.id], SocketOpen(s, action.id), action.event);
    }
    forall id | 0 <= id < |s'.sessions|
      ensures Untouched(s', id)
    {
      assert id < |s.sessions| ==> Untouched(s, id);
    }
  }

  lemma CurrentAwaits(s: State)
    requires Invariant(s)
    ensures s.current.Some? ==>
              s.current.value < |s.sessions| && s.sessions[s.current.value].task == AwaitingStatus
  {
    if s.current.Some? {
      assert TaskOk(s, s.current.value);
    }
  }

  lemma DeliverKeepsHandle(session: Session, open: bool, e: Event)
    requires Deliver(session, open, e).Some?
    ensures var next := Deliver(session, open, e).value; next.handle == session.handle && next.task == session.task
  {
  }

  lemma {:induction false} RunsKeepDialogs(s: State, actions: seq<Action>)
    requires DialogInvariant(s) && Execute(s, actions).Some?
    ensures DialogInvariant(Execute(s, actions).value)
    decreases |actions|
  {
    hide Apply, DialogInvariant;
    if |actions| != 0 {
      StepKeepsDialogs(s, actions[0]);
      RunsKeepDialogs(Apply(s, actions[0]).value, actions[1..]);
    }
  }

  lemma Reachable(actions: seq<Action>)
    requires Execute(START, actions).Some?
    ensures DialogInvariant(Execute(START, actions).value)
  {
    hide Execute;
    RunsKeepDialogs(START, actions);
  }

  /** The editor waits for a path only while a dialog is open. */
  lemma ChoosingMeansDialog(actions: seq<Action>)
    requires Execute(START, actions).Some?
    ensures var s := Execute(START, actions).value;
            CurrentHandle(s).Some? && CurrentHandle(s).value.state == ChoosingOutputPath ==> s.dialogs > 0
  {
    hide Execute;
    Reachable(actions);
  }

  /** A dialog that is dismissed leads back to recording, whatever happened before, and no command is sent. */
  lemma DismissResumes(actions: seq<Action>)
    requires Execute(START, actions).Some? && Apply(Execute(START, actions).value, DialogDismissed).Some?
    ensures var s := Execute(START, actions).value;
            var s' := Apply(s, DialogDismissed).value;
            && s'.dialogs == s.dialogs - 1 && s'.reported == s.reported && s'.picked == s.picked
            && match CurrentHandle(s)
               case None => CurrentHandle(s') == None
               case Some(Handle(Stopping, sent)) => CurrentHandle(s') == Some(Handle(Stopping, sent))
               case Some(Handle(_, sent)) => CurrentHandle(s') == Some(Handle(Recording, sent)) && sent == []
  {
    hide Execute;
    Reachable(actions);
    var s := Execute(START, actions).value;
    if CurrentHandle(s).Some? {
      SessionSentOnce(s);
    }
  }

  function SaveClicks(state: SessionState, path: Path): seq<Action>
  {
    (if state == Recording then [ClickSave] else []) + [DialogPicked(path, true, true)]
  }

  lemma ExecuteOne(s: State, action: Action)
    ensures Execute(s, [action]) == Apply(s, action)
  {
    hide Apply;
    assert [action][1..] == [];
  }

  lemma ExecuteTwo(s: State, a: Action, b: Action)
    requires Apply(s, a).Some?
    ensures Execute(s, [a, b]) == Apply(Apply(s, a).value, b)
  {
    hide Apply;
    assert [a, b][1..] == [b];
    ExecuteOne(Apply(s, a).value, b);
  }

  /** From every reachable state in which a recording goes on, clicking save, unless the dialog is open already,
      and picking a path sends exactly that command to its recorder. */
  lemma CanAlwaysSave(actions: seq<Action>, path: Path)
    requires Execute(START, actions).Some?
    requires var h := CurrentHandle(Execute(START, actions).value); h.Some? && h.value.state != Stopping
    ensures var s := Execute(START, actions).value;
            var end := Execute(s, SaveClicks(CurrentHandle(s).value.state, path));
            && end.Some? && end.value.current == s.current && path in end.value.picked
            && CurrentHandle(end.value) == Some(Handle(Stopping, [Save(path)]))
            && var id := s.current.value;
               end.value.sessions[id].toRecorder == s.sessions[id].toRecorder + [Save(path)]
  {
    hide Execute;
    Reachable(actions);
    var s := Execute(START, actions).value;
    SessionSentOnce(s);
    var pick := DialogPicked(path, true, true);
    if CurrentHandle(s).value.state == Recording {
      var asked := Apply(s, ClickSave).value;
      ExecuteTwo(s, ClickSave, pick);
      assert asked.dialogs == s.dialogs + 1 && CurrentHandle(asked) == Some(Handle(ChoosingOutputPath, []));
      assert SaveClicks(Recording, path) == [ClickSave, pick];
      PickSends(asked, path);
    } else {
      ExecuteOne(s, pick);
      assert SaveClicks(ChoosingOutputPath, path) == [pick];
      PickSends(s, path);
    }
  }

  lemma PickSends(s: State, path: Path)
    requires CurrentHandle(s) == Some(Handle(ChoosingOutputPath, [])) && s.dialogs > 0
    ensures var end := Apply(s, DialogPicked(path, true, true));
            && end.Some? && end.value.current == s.current && path in end.value.picked
            && CurrentHandle(end.value) == Some(Handle(Stopping, [Save(path)]))
            && var id := s.current.value;
               end.value.sessions[id].toRecorder == s.sessions[id].toRecorder + [Save(path)]
  {
    assert [] + [Save(path)] == [Save(path)];
  }

  /** The same for cancelling, in one click. A send that fails leaves the session recording. */
  lemma CanAlwaysCancel(actions: seq<Action>, ok: bool, delivered: bool)
    requires Execute(START, actions).Some? && (ok ==> delivered)
    requires var h := CurrentHandle(Execute(START, actions).value); h.Some? && h.value.state != Stopping
    ensures var s := Execute(START, actions).value;
            var end := Apply(s, ClickCancel(ok, delivered));
            && end.Some? && end.value.current == s.current && end.value.dialogs == s.dialogs
            && CurrentHandle(end.value) == Some(if ok then Handle(Stopping, [Cancel]) else Handle(Recording, []))
            && var id := s.current.value;
               end.value.sessions[id].toRecorder == s.sessions[id].toRecorder + if delivered then [Cancel] else []
  {
    hide Execute;
    Reachable(actions);
    SessionSentOnce(Execute(START, actions).value);
    assert [] + [Cancel] == [Cancel];
  }

  /** A click on save opens a dialog or says why it does not, truly. */
  lemma SaveNoticesAreTrue(actions: seq<Action>)
    requires Execute(START, actions).Some?
    ensures var s := Execute(START, actions).value;
            var notices, asks := PromptNotices(CurrentHandle(s)), Apply(s, ClickSave).value.dialogs == s.dialogs + 1;
            && (asks <==> notices == [])
            && (notices == [NothingToStop] <==> s.current == None)
            && (notices == [AlreadyChoosing] <==> CurrentHandle(s) == Some(Handle(ChoosingOutputPath, [])))
            && (notices == [AlreadyChoosing] ==> s.dialogs > 0)
            && (notices == [AlreadyStopping] <==> s.current.Some? && |CurrentHandle(s).value.sent| == 1)
  {
    hide Execute;
    Reachable(actions);
    var s := Execute(START, actions).value;
    CurrentAwaits(s);
    if CurrentHandle(s).Some? {
      SessionSentOnce(s);
    }
  }

  /** So does a click on cancel, whose notice tells whether the command was sent. */
  lemma CancelNoticesAreTrue(actions: seq<Action>, ok: bool)
    requires Execute(START, actions).Some?
    ensures var s := Execute(START, actions).value;
            var notices := CancelNotices(CurrentHandle(s), ok);
            var after := CurrentHandle(Apply(s, ClickCancel(ok, true)).value);
            && (notices == [NothingToCancel] <==> s.current == None)
            && (notices == [AlreadyStopping] <==> s.current.Some? && |CurrentHandle(s).value.sent| == 1)
            && (notices == [CancellingNow] <==>
                  s.current.Some? && CurrentHandle(s).value.sent == [] && after.value.sent == [Cancel])
            && (notices == [CancelFailed] <==> s.current.Some? && after.value == Handle(Recording, []))
  {
    hide Execute;
    Reachable(actions);
    var s := Execute(START, actions).value;
    CurrentAwaits(s);
    if CurrentHandle(s).Some? {
      SessionSentOnce(s);
    }
  }

  /** And the answer to a dialog: a notice comes exactly with an attempt to send. */
  lemma PickNoticesAreTrue(actions: seq<Action>, path: Path, ok: bool)
    requires Execute(START, actions).Some? && Apply(Execute(START, actions).value, DialogPicked(path, ok, true)).Some?
    ensures var s := Execute(START, actions).value;
            var notices := SaveNotices(CurrentHandle(s), ok);
            var before, after := CurrentHandle(s), CurrentHandle(Apply(s, DialogPicked(path, ok, true)).value);
            && (notices == [StoppingNow] <==> before != after && after.Some? && after.value.sent == [Save(path)])
            && (notices == [StopFailed] <==> before != after && after == Some(Handle(Recording, [])))
            && (notices == [] <==> before == after)
  {
    hide Execute;
    Reachable(actions);
    var s := Execute(START, actions).value;
    if CurrentHandle(s).Some? {
      SessionSentOnce(s);
    }
  }

  // ---------- A whole recording ----------

  function WholeRecording(id: nat, path: Path): seq<Action>
  {
    [ClickStart, RecorderStep(id, StartCalled(true)), RecorderStep(id, StartedSent(true, true)), LaunchSucceeded(id),
     ClickSave, DialogPicked(path, true, true), RecorderStep(id, CommandReceived(Save(path))),
     RecorderStep(id, SaveCalled(true)), RecorderStep(id, StatusSent(true)), StatusReceived(id)]
  }

  /** What the new session looks like when its trace has been saved */
  function SavedSession(path: Path): Session
  {
    Session(Handle(Stopping, [Save(path)]), [], [], Recorder(Exited, true, Some(path), 0, false), Done)
  }

  /** The session is the last one. */
  function With(s: State, session: Session): State
  {
    s.(sessions := s.sessions + [session])
  }

  lemma LastStep(s: State, session: Session, event: Event, next: Session)
    requires HoldsReader(session) && Deliver(session, true, event) == Some(next)
    ensures Apply(With(s, session), RecorderStep(|s.sessions|, event)) == Some(With(s, next))
  {
    hide Deliver;
    var before, after := s.sessions + [session], s.sessions + [next];
    assert before[|s.sessions| := next] == after;
    RecorderStepTo(With(s, session), |s.sessions|, event, next, after);
  }

  /** Whatever has happened before, when there is no current recording one can be made: started, saved to the path that
      is picked, and reported. The other sessions are not touched. */
  lemma ARecordingCanBeMade(s: State, path: Path)
    requires s.current == None
    ensures var id := |s.sessions|;
            Execute(s, WholeRecording(id, path)) ==
            Some(With(s, SavedSession(path)).(picked := s.picked + {path}, reported := s.reported + {(id, path)}))
  {
    hide Apply, Deliver;
    var id := |s.sessions|;
    var all := WholeRecording(id, path);
    var live := With(s, LIVE).(current := Some(id));
    LaunchIsPossible(s, path);
    SavingIsPossible(s, path);
    ReportIsPossible(s, path);
    var sent := With(s, SentSession(path)).(current := Some(id), picked := s.picked + {path});
    var reporting := With(s, ReportedSession(path)).(current := Some(id), picked := s.picked + {path});
    assert all[4..6] == [ClickSave, DialogPicked(path, true, true)];
    assert all == all[..4] + all[4..6] + all[6..9] + all[9..];
    ExecuteConcat(s, all[..4], all[4..6]);
    ExecuteConcat(s, all[..4] + all[4..6], all[6..9]);
    ExecuteConcat(s, all[..4] + all[4..6] + all[6..9], all[9..]);
    assert all[9..] == [StatusReceived(id)];
    ExecuteOne(reporting, StatusReceived(id));
  }

  function SentSession(path: Path): Session
  {
    LIVE.(handle := Handle(Stopping, [Save(path)]), toRecorder := [Save(path)])
  }

  function ReportedSession(path: Path): Session
  {
    SavedSession(path).(toEditor := [Stopped(path)], task := AwaitingStatus)
  }

  lemma LaunchIsPossible(s: State, path: Path)
    requires s.current == None
    ensures var id := |s.sessions|;
            Execute(s, WholeRecording(id, path)[..4]) == Some(With(s, LIVE).(current := Some(id)))
  {
    hide Deliver, Apply;
    var id := |s.sessions|;
    var actions := WholeRecording(id, path)[..4];
    StartsOne(s);
    StepThen(s, actions, 0, With(s, NEW_SESSION));
    BeginAndAnnounce();
    LastStep(s, NEW_SESSION, BEGIN, ANNOUNCING);
    StepThen(With(s, NEW_SESSION), actions, 1, With(s, ANNOUNCING));
    LastStep(s, ANNOUNCING, ANNOUNCE, ANNOUNCED);
    StepThen(With(s, ANNOUNCING), actions, 2, With(s, ANNOUNCED));
    LaunchAnnounced(With(s, ANNOUNCED), id);
    ReplaceLast(s.sessions, ANNOUNCED, LIVE);
    StepThen(With(s, ANNOUNCED), actions, 3, With(s, LIVE).(current := Some(id)));
    assert actions[0..] == actions && actions[4..] == [];
  }

  lemma StartsOne(s: State)
    requires s.current == None
    ensures Apply(s, ClickStart) == Some(With(s, NEW_SESSION))
  {
  }

  lemma ReplaceLast(sessions: seq<Session>, before: Session, after: Session)
    ensures (sessions + [before])[|sessions| := after] == sessions + [after]
  {
  }

  lemma SavingIsPossible(s: State, path: Path)
    requires s.current == None
    ensures var id := |s.sessions|;
            Execute(With(s, LIVE).(current := Some(id)), [ClickSave, DialogPicked(path, true, true)]) ==
            Some(With(s, SentSession(path)).(current := Some(id), picked := s.picked + {path}))
  {
    hide Deliver;
    var id := |s.sessions|;
    var live := With(s, LIVE).(current := Some(id));
    var chooser := LIVE.(handle := Handle(ChoosingOutputPath, []));
    var asking := With(s, chooser).(current := Some(id), dialogs := s.dialogs + 1);
    assert live.sessions[id] == LIVE && CurrentHandle(live) == Some(Handle(Recording, []));
    ReplaceLast(s.sessions, LIVE, chooser);
    assert LIVE.toRecorder + [] == [];
    assert Apply(live, ClickSave) == Some(asking);
    ExecuteTwo(live, ClickSave, DialogPicked(path, true, true));
    ReplaceLast(s.sessions, chooser, SentSession(path));
    assert [] + [Save(path)] == [Save(path)];
  }

  lemma DeliverSave(path: Path)
    ensures var executing := SentSession(path).(toRecorder := [], recorder := WAITING.(phase := Executing(Save(path))));
            var saved := Recorder(Reporting(Stopped(path)), true, Some(path), 0, false);
            && Deliver(SentSession(path), true, CommandReceived(Save(path))) == Some(executing)
            && Deliver(executing, true, SaveCalled(true)) == Some(executing.(recorder := saved))
            && Deliver(executing.(recorder := saved), true, StatusSent(true)) == Some(ReportedSession(path))
  {
    assert [Save(path)][1..] == [] && [] + [Stopped(path)] == [Stopped(path)];
  }

  lemma ReportIsPossible(s: State, path: Path)
    requires s.current == None
    ensures var id := |s.sessions|;
            var base := s.(current := Some(id), picked := s.picked + {path});
            && Execute(With(base, SentSession(path)), WholeRecording(id, path)[6..9])
               == Some(With(base, ReportedSession(path)))
            && Apply(With(base, ReportedSession(path)), StatusReceived(id)) ==
               Some(With(s, SavedSession(path)).(picked := base.picked, reported := s.reported + {(id, path)}))
  {
    var id := |s.sessions|;
    var base := s.(current := Some(id), picked := s.picked + {path});
    var actions := WholeRecording(id, path)[6..9];
    Reported(s, base, path);
    hide Deliver, Apply;
    var executing := SentSession(path).(toRecorder := [], recorder := WAITING.(phase := Executing(Save(path))));
    var saved := executing.(recorder := Recorder(Reporting(Stopped(path)), true, Some(path), 0, false));
    DeliverSave(path);
    LastStep(base, SentSession(path), CommandReceived(Save(path)), executing);
    LastStep(base, executing, SaveCalled(true), saved);
    LastStep(base, saved, StatusSent(true), ReportedSession(path));
    StepThen(With(base, SentSession(path)), actions, 0, With(base, executing));
    StepThen(With(base, executing), actions, 1, With(base, saved));
    StepThen(With(base, saved), actions, 2, With(base, ReportedSession(path)));
    assert actions[0..] == actions && actions[3..] == [];
  }

  lemma Reported(s: State, base: State, path: Path)
    requires s.current == None && base == s.(current := Some(|s.sessions|), picked := s.picked + {path})
    ensures var id := |s.sessions|;
            Apply(With(base, ReportedSession(path)), StatusReceived(id)) ==
            Some(With(s, SavedSession(path)).(picked := base.picked, reported := s.reported + {(id, path)}))
  {
    var id := |s.sessions|;
    var before := With(base, ReportedSession(path));
    assert before.sessions[id := SavedSession(path)] == With(s, SavedSession(path)).sessions;
    assert before.sessions[id].toEditor[..1] == [Stopped(path)];
  }
}
