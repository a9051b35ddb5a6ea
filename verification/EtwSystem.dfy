/** The editor and any number of recorder processes, in every interleaving of clicks, dialogs,
    launches, deliveries, failures and exits. */
module EtwSystem {
  import opened Wrappers
  import opened EtwRecorder
  import opened EtwEditor

  /** The background task of one start action */
  datatype Task = Launching | AwaitingStatus | Done

  datatype Session = Session(
    handle: Handle, toRecorder: seq<Command>, toEditor: seq<Status>, recorder: Recorder, task: Task)

  const NEW_SESSION := Session(Handle(Recording, []), [], [], INITIAL, Launching)

  /** `picked` collects the chosen paths and `reported` the notices that say a trace was saved. */
  datatype State = State(
    sessions: seq<Session>, current: Option<nat>, dialogs: nat, picked: set<Path>, reported: set<(nat, Path)>)

  const START := State([], None, 0, {}, {})

  /** A failed send or write may still have been delivered; a successful one always is. */
  datatype Action =
    | ClickStart
    | LaunchFailed(id: nat)
    | LaunchSucceeded(id: nat)
    | ClickSave
    | DialogPicked(path: Path, ok: bool, delivered: bool)
    | DialogDismissed
    | ClickCancel(ok: bool, delivered: bool)
    | StatusReceived(id: nat)
    | StatusLost(id: nat)
    | RecorderStep(id: nat, event: Event)

  // ---------- Steps ----------

  function Update(s: State, id: nat, session: Session): State
    requires id < |s.sessions|
  {
    s.(sessions := s.sessions[id := session])
  }

  function CurrentHandle(s: State): Option<Handle>
  {
    if s.current.Some? && s.current.value < |s.sessions| then Some(s.sessions[s.current.value].handle) else None
  }

  /** The launch holds the whole stream; afterwards the task holds the reading half. */
  predicate HoldsReader(session: Session) { session.task != Done }

  predicate KeepsHandle(s: State, id: nat) { s.current == Some(id) }

  /** The two halves share one socket, which closes when the last of them is dropped. */
  predicate SocketOpen(s: State, id: nat)
    requires id < |s.sessions|
  {
    HoldsReader(s.sessions[id]) || KeepsHandle(s, id)
  }

  function WithHandle(s: State, h: Option<Handle>, delivered: seq<Command>): State
  {
    if h.Some? && s.current.Some? && s.current.value < |s.sessions| then
      var id := s.current.value;
      var session := s.sessions[id];
      Update(s, id, session.(handle := h.value, toRecorder := session.toRecorder + delivered))
    else s
  }

  /** The end of a task drops its reader and whatever handle is the global one. */
  function FinishTask(s: State, id: nat, read: seq<Status>): State
    requires id < |s.sessions|
  {
    var done := Update(s, id, s.sessions[id].(task := Done, toEditor := [])).(current := None);
    if |read| > 0 && read[0].Stopped? then done.(reported := done.reported + {(id, read[0].path)}) else done
  }

  /** A status arrives only while the editor's socket is open. */
  function Deliver(session: Session, open: bool, e: Event): Option<Session>
  {
    match Step(session.recorder, e)
    case None => None
    case Some(r) =>
      match e
      case CommandReceived(command) =>
        if |session.toRecorder| > 0 && session.toRecorder[0] == command then
          Some(session.(recorder := r, toRecorder := session.toRecorder[1..]))
        else None
      case StartedSent(_, delivered) =>
        Some(session.(recorder := r, toEditor := session.toEditor + if delivered && open then [Started] else []))
      case StatusSent(delivered) =>
        var sent := if delivered && open then [session.recorder.phase.status] else [];
        Some(session.(recorder := r, toEditor := session.toEditor + sent))
      case _ => Some(session.(recorder := r))
  }

  function Apply(s: State, action: Action): Option<State>
  {
    match action
    case ClickStart =>
      Some(if s.current.Some? then s else s.(sessions := s.sessions + [NEW_SESSION]))
    case LaunchFailed(id) =>
      if id < |s.sessions| && s.sessions[id].task == Launching then
        Some(Update(s, id, s.sessions[id].(task := Done, toEditor := [])))
      else None
    case LaunchSucceeded(id) =>
      if id < |s.sessions| && s.sessions[id].task == Launching && |s.sessions[id].toEditor| > 0
         && s.sessions[id].toEditor[0] == Started then
        var session := s.sessions[id];
        Some(Update(s, id, session.(task := AwaitingStatus, toEditor := session.toEditor[1..])).(current := Some(id)))
      else None
    case ClickSave =>
      var h := CurrentHandle(s);
      var s' := WithHandle(s, AfterPrompt(h), []);
      Some(if OpensDialog(h) then s'.(dialogs := s'.dialogs + 1) else s')
    case DialogPicked(path, ok, delivered) =>
      if s.dialogs == 0 || (ok && !delivered) then None
      else
        var h := CurrentHandle(s);
        var s' := WithHandle(s, AfterSave(h, path, ok), if SaveSends(h) && delivered then [Save(path)] else []);
        Some(s'.(dialogs := s.dialogs - 1, picked := s.picked + {path}))
    case DialogDismissed =>
      if s.dialogs == 0 then None
      else Some(WithHandle(s, AfterResume(CurrentHandle(s)), []).(dialogs := s.dialogs - 1))
    case ClickCancel(ok, delivered) =>
      if ok && !delivered then None
      else
        var h := CurrentHandle(s);
        Some(WithHandle(s, AfterCancel(h, ok), if CancelSends(h) && delivered then [Cancel] else []))
    case StatusReceived(id) =>
      if id < |s.sessions| && s.sessions[id].task == AwaitingStatus && |s.sessions[id].toEditor| > 0 then
        Some(FinishTask(s, id, s.sessions[id].toEditor[..1]))
      else None
    case StatusLost(id) =>
      if id < |s.sessions| && s.sessions[id].task == AwaitingStatus then Some(FinishTask(s, id, [])) else None
    case RecorderStep(id, event) =>
      if id < |s.sessions| && Deliver(s.sessions[id], SocketOpen(s, id), event).Some? then
        Some(Update(s, id, Deliver(s.sessions[id], SocketOpen(s, id), event).value))
      else None
  }

  function Execute(s: State, actions: seq<Action>): Option<State>
    decreases |actions|
  {
    if |actions| == 0 then Some(s)
    else
      match Apply(s, actions[0])
      case None => None
      case Some(next) => Execute(next, actions[1..])
  }

  // ---------- What every step keeps ----------

  predicate FromPicked(command: Command, picked: set<Path>)
  {
    command.Save? ==> command.path in picked
  }

  /** One session: the handle sent at most one command, the recorder has not leaked its recording,
      statuses in flight are true, and every path was picked in a dialog. */
  predicate SessionOk(session: Session, picked: set<Path>)
  {
    && SentOnce(session.handle)
    && Consistent(session.recorder)
    && (forall i :: 0 <= i < |session.toEditor| ==>
          session.toEditor[i].Stopped? ==> session.recorder.saved == Some(session.toEditor[i].path))
    && (forall i :: 0 <= i < |session.toRecorder| ==> FromPicked(session.toRecorder[i], picked))
    && (session.recorder.phase.Executing? ==> FromPicked(session.recorder.phase.command, picked))
    && (session.recorder.saved.Some? ==> session.recorder.saved.value in picked)
  }

  /** The global handle's task awaits its status, and a finished task reads nothing any more. */
  predicate TaskOk(s: State, id: nat)
    requires id < |s.sessions|
  {
    && (s.current == Some(id) ==> s.sessions[id].task == AwaitingStatus)
    && (s.sessions[id].task == Done ==> s.sessions[id].toEditor == [])
  }

  ghost predicate Invariant(s: State)
  {
    && (s.current.Some? ==> s.current.value < |s.sessions|)
    && (forall id {:trigger s.sessions[id]} :: 0 <= id < |s.sessions| ==>
          SessionOk(s.sessions[id], s.picked) && TaskOk(s, id))
    && (forall id, path :: (id, path) in s.reported ==>
          id < |s.sessions| && s.sessions[id].recorder.saved == Some(path))
  }

  lemma MorePicked(session: Session, picked: set<Path>, more: set<Path>)
    requires SessionOk(session, picked) && picked <= more
    ensures SessionOk(session, more)
  {
  }

  lemma SavedStays(r: Recorder, e: Event)
    requires Consistent(r) && Step(r, e).Some? && r.saved.Some?
    ensures Step(r, e).value.saved == r.saved
  {
  }

  lemma DeliverKeeps(session: Session, open: bool, e: Event, picked: set<Path>)
    requires SessionOk(session, picked) && Deliver(session, open, e).Some?
    ensures SessionOk(Deliver(session, open, e).value, picked)
    ensures var next := Deliver(session, open, e).value;
            && next.handle == session.handle && next.task == session.task
            && (!open && session.toEditor == [] ==> next.toEditor == [])
            && (session.recorder.saved.Some? ==> next.recorder.saved == session.recorder.saved)
  {
    StepKeepsConsistent(session.recorder, e);
    if session.recorder.saved.Some? {
      SavedStays(session.recorder, e);
    }
  }

  lemma HandleKeeps(s: State, h: Handle, delivered: seq<Command>)
    requires Invariant(s) && SentOnce(h)
    requires forall i :: 0 <= i < |delivered| ==> FromPicked(delivered[i], s.picked)
    ensures Invariant(WithHandle(s, Some(h), delivered))
  {
    hide SentOnce, Consistent, FromPicked;
    if s.current.Some? {
      var session := s.sessions[s.current.value];
      var commands := session.toRecorder + delivered;
      forall i | 0 <= i < |commands|
        ensures FromPicked(commands[i], s.picked)
      {
        assert commands[i] == if i < |session.toRecorder| then session.toRecorder[i]
            else delivered[i - |session.toRecorder|];
      }
      assert SessionOk(session.(handle := h, toRecorder := commands), s.picked);
      var s' := WithHandle(s, Some(h), delivered);
      forall id | 0 <= id < |s.sessions|
        ensures SessionOk(s'.sessions[id], s'.picked) && TaskOk(s', id)
      {
        assert SessionOk(s.sessions[id], s.picked) && TaskOk(s, id);
      }
    }
  }

  lemma DialogsDoNotMatter(s: State, dialogs: nat)
    requires Invariant(s)
    ensures Invariant(s.(dialogs := dialogs))
  {
    forall id | 0 <= id < |s.sessions|
      ensures TaskOk(s.(dialogs := dialogs), id)
    {
      assert TaskOk(s, id);
    }
  }

  lemma PickedKeeps(s: State, path: Path)
    requires Invariant(s)
    ensures Invariant(s.(picked := s.picked + {path}))
  {
    var s' := s.(picked := s.picked + {path});
    forall id | 0 <= id < |s.sessions|
      ensures SessionOk(s.sessions[id], s'.picked) && TaskOk(s', id)
    {
      assert TaskOk(s, id);
      MorePicked(s.sessions[id], s.picked, s'.picked);
    }
  }

  lemma FinishKeeps(s: State, id: nat, read: seq<Status>)
    requires Invariant(s) && id < |s.sessions| && s.sessions[id].task == AwaitingStatus
    requires read <= s.sessions[id].toEditor
    ensures Invariant(FinishTask(s, id, read))
  {
    hide SentOnce, Consistent, FromPicked;
    var finished := FinishTask(s, id, read);
    assert finished.sessions == s.sessions[id := s.sessions[id].(task := Done, toEditor := [])];
    assert SessionOk(s.sessions[id], s.picked);
    if |read| > 0 {
      assert read[0] == s.sessions[id].toEditor[0];
    }
    forall k | 0 <= k < |finished.sessions|
      ensures SessionOk(finished.sessions[k], finished.picked) && TaskOk(finished, k)
    {
      assert SessionOk(s.sessions[k], s.picked) && TaskOk(s, k);
    }
  }

  lemma StepKeepsInvariant(s: State, action: Action)
    requires Invariant(s) && Apply(s, action).Some?
    ensures Invariant(Apply(s, action).value)
  {
    hide SessionOk, FinishTask, Deliver;
    match action {
      case ClickStart => NewSessionOk(s);
      case LaunchFailed(id) => LaunchFailedKeeps(s, id);
      case LaunchSucceeded(id) => LaunchSucceededKeeps(s, id);
      case StatusReceived(id) => FinishKeeps(s, id, s.sessions[id].toEditor[..1]);
      case StatusLost(id) => FinishKeeps(s, id, []);
      case RecorderStep(id, event) => RecorderKeeps(s, id, event);
      case _ => ClickKeeps(s, action);
    }
  }

  lemma NewSessionOk(s: State)
    requires Invariant(s)
    ensures Invariant(Apply(s, ClickStart).value)
  {
    hide SessionOk;
    assert SessionOk(NEW_SESSION, s.picked) by {
      FreshSessionOk(s.picked);
    }
    var s' := Apply(s, ClickStart).value;
    forall id | 0 <= id < |s'.sessions|
      ensures SessionOk(s'.sessions[id], s'.picked) && TaskOk(s', id)
    {
      if id < |s.sessions| {
        assert s'.sessions[id] == s.sessions[id];
        assert SessionOk(s.sessions[id], s.picked) && TaskOk(s, id);
      }
    }
  }

  lemma FreshSessionOk(picked: set<Path>)
    ensures SessionOk(NEW_SESSION, picked)
  {
  }

  lemma LaunchFailedKeeps(s: State, id: nat)
    requires Invariant(s) && Apply(s, LaunchFailed(id)).Some?
    ensures Invariant(Apply(s, LaunchFailed(id)).value)
  {
    hide SentOnce, Consistent, FromPicked;
    var s' := Apply(s, LaunchFailed(id)).value;
    forall k | 0 <= k < |s.sessions|
      ensures SessionOk(s'.sessions[k], s'.picked) && TaskOk(s', k)
    {
      assert SessionOk(s.sessions[k], s.picked) && TaskOk(s, k);
    }
  }

  lemma LaunchSucceededKeeps(s: State, id: nat)
    requires Invariant(s) && Apply(s, LaunchSucceeded(id)).Some?
    ensures Invariant(Apply(s, LaunchSucceeded(id)).value)
  {
    hide SentOnce, Consistent, FromPicked;
    var s' := Apply(s, LaunchSucceeded(id)).value;
    forall k | 0 <= k < |s.sessions|
      ensures SessionOk(s'.sessions[k], s'.picked) && TaskOk(s', k)
    {
      assert SessionOk(s.sessions[k], s.picked) && TaskOk(s, k);
      if k == id {
        var before, after := s.sessions[id].toEditor, s'.sessions[id].toEditor;
        assert forall i :: 0 <= i < |after| ==> after[i] == before[i + 1];
      }
    }
  }

  lemma RecorderKeeps(s: State, id: nat, event: Event)
    requires Invariant(s) && Apply(s, RecorderStep(id, event)).Some?
    ensures Invariant(Apply(s, RecorderStep(id, event)).value)
  {
    hide Deliver, SessionOk;
    DeliverKeeps(s.sessions[id], SocketOpen(s, id), event, s.picked);
    var s' := Apply(s, RecorderStep(id, event)).value;
    forall k | 0 <= k < |s'.sessions|
      ensures SessionOk(s'.sessions[k], s'.picked) && TaskOk(s', k)
    {
      assert SessionOk(s.sessions[k], s.picked) && TaskOk(s, k);
    }
  }

  lemma ClickKeeps(s: State, action: Action)
    requires Invariant(s) && Apply(s, action).Some?
    requires action.ClickSave? || action.DialogPicked? || action.DialogDismissed? || action.ClickCancel?
    ensures Invariant(Apply(s, action).value)
  {
    hide WithHandle, SessionOk, SentOnce;
    var h := CurrentHandle(s);
    if h.Some? {
      SessionSentOnce(s);
      match action {
        case ClickSave =>
          HandlersKeepSentOnce(h.value, "", false);
          PickedCommutes(s, "", AfterPrompt(h), []);
          HandleKeeps(s, AfterPrompt(h).value, []);
          DialogsDoNotMatter(WithHandle(s, AfterPrompt(h), []), s.dialogs + 1);
        case DialogPicked(path, ok, delivered) =>
          var p := s.(picked := s.picked + {path});
          PickedKeeps(s, path);
          var commands := if SaveSends(h) && delivered then [Save(path)] else [];
          HandlersKeepSentOnce(h.value, path, ok);
          HandleKeeps(p, AfterSave(h, path, ok).value, commands);
          PickedCommutes(s, path, AfterSave(h, path, ok), commands);
          DialogsDoNotMatter(WithHandle(p, AfterSave(h, path, ok), commands), s.dialogs - 1);
        case DialogDismissed =>
          HandlersKeepSentOnce(h.value, "", false);
          HandleKeeps(s, AfterResume(h).value, []);
          DialogsDoNotMatter(WithHandle(s, AfterResume(h), []), s.dialogs - 1);
        case ClickCancel(ok, delivered) =>
          HandlersKeepSentOnce(h.value, "", ok);
          HandleKeeps(s, AfterCancel(h, ok).value, if CancelSends(h) && delivered then [Cancel] else []);
      }
    } else {
      NoHandleNoChange(s);
      if action.DialogPicked? {
        PickedKeeps(s, action.path);
        DialogsDoNotMatter(s.(picked := s.picked + {action.path}), s.dialogs - 1);
      } else if action.DialogDismissed? {
        DialogsDoNotMatter(s, s.dialogs - 1);
      }
    }
  }

  lemma SessionSentOnce(s: State)
    requires Invariant(s) && CurrentHandle(s).Some?
    ensures SentOnce(CurrentHandle(s).value)
  {
  }

  lemma NoHandleNoChange(s: State)
    ensures WithHandle(s, None, []) == s
  {
  }

  lemma PickedCommutes(s: State, path: Path, h: Option<Handle>, delivered: seq<Command>)
    ensures WithHandle(s.(picked := s.picked + {path}), h, delivered)
            == WithHandle(s, h, delivered).(picked := s.picked + {path})
    ensures WithHandle(s, h, delivered).dialogs == s.dialogs
  {
  }

  lemma {:induction false} RunsKeepInvariant(s: State, actions: seq<Action>)
    requires Invariant(s) && Execute(s, actions).Some?
    ensures Invariant(Execute(s, actions).value)
    decreases |actions|
  {
    hide Apply, Invariant;
    if |actions| != 0 {
      StepKeepsInvariant(s, actions[0]);
      RunsKeepInvariant(Apply(s, actions[0]).value, actions[1..]);
    }
  }

  /** In every reachable state: each session sent at most one command and is stopping exactly then;
      a recorder that exited saved its recording or had Cancel called; a trace is reported as saved
      only if that recorder saved it, to a path picked in a dialog; and the socket of a session stays
      open until its task has ended, whatever becomes of its handle. */
  lemma ProtocolSafety(actions: seq<Action>)
    requires Execute(START, actions).Some?
    ensures var s := Execute(START, actions).value;
            && (forall id :: 0 <= id < |s.sessions| ==>
                  var session := s.sessions[id];
                  && |session.handle.sent| <= 1
                  && (session.handle.state == Stopping <==> |session.handle.sent| == 1)
                  && (session.recorder.phase == Exited && session.recorder.started ==>
                        (session.recorder.saved.Some? <==> session.recorder.cancelCalls == 0))
                  && (SocketOpen(s, id) <==> session.task != Done))
            && (forall id, path :: (id, path) in s.reported ==>
                  id < |s.sessions| && s.sessions[id].recorder.saved == Some(path) && path in s.picked)
  {
    assert Invariant(START);
    RunsKeepInvariant(START, actions);
    var s := Execute(START, actions).value;
    forall id | 0 <= id < |s.sessions|
      ensures SessionOk(s.sessions[id], s.picked) && TaskOk(s, id)
    {
    }
  }

  // ---------- A handle that is lost ----------

  /** The task waits for the status, but the handle is not the global one any more. */
  predicate Orphaned(s: State, id: nat)
  {
    id < |s.sessions| && s.sessions[id].task == AwaitingStatus && s.current != Some(id)
  }

  /** No handle of the session will ever be the global one, and no command is under way. */
  predicate OutOfReach(s: State, id: nat)
  {
    && id < |s.sessions| && s.sessions[id].task != Launching && s.current != Some(id)
    && s.sessions[id].toRecorder == []
  }

  /** How a recorder can go on without a command */
  predicate Unanswered(r: Recorder)
  {
    r.saved == None && (r.phase == Waiting || (r.phase in {Reporting(Error), Exited} && r.cancelCalls == 1))
  }

  lemma UnansweredStep(session: Session, open: bool, e: Event)
    requires session.toRecorder == [] && Unanswered(session.recorder) && Consistent(session.recorder)
    requires Deliver(session, open, e).Some?
    ensures var next := Deliver(session, open, e).value;
            && next.toRecorder == [] && next.task == session.task && Unanswered(next.recorder)
            && (session.recorder.phase == Waiting && next.recorder.phase != Waiting ==> e == ReceiveFailed)
  {
  }

  /** Steps of the editor and of other recorders */
  lemma OtherSteps(s: State, action: Action, id: nat)
    requires Invariant(s) && OutOfReach(s, id) && Apply(s, action).Some?
    requires !(action.RecorderStep? && action.id == id)
    ensures var s' := Apply(s, action).value;
            OutOfReach(s', id) && s'.sessions[id].recorder == s.sessions[id].recorder
  {
    hide SessionOk, Deliver, AfterSave, AfterCancel, AfterResume, AfterPrompt, SaveSends, CancelSends;
    assert TaskOk(s, id);
  }

  /** Once a session has lost its handle with no command under way, no command reaches its recorder in
      any continuation: it goes on waiting, or leaves by a failed receive, which cancels the recording. */
  lemma {:induction false} NoCommandReachesIt(s: State, actions: seq<Action>, id: nat)
    requires Invariant(s) && OutOfReach(s, id) && Unanswered(s.sessions[id].recorder)
    requires Execute(s, actions).Some?
    ensures var end := Execute(s, actions).value;
            && OutOfReach(end, id) && Unanswered(end.sessions[id].recorder)
            && (s.sessions[id].recorder.phase == Waiting ==>
                  end.sessions[id].recorder.phase == Waiting || RecorderStep(id, ReceiveFailed) in actions)
    decreases |actions|
  {
    hide Apply, Invariant, OutOfReach, Unanswered;
    if |actions| != 0 {
      var next := Apply(s, actions[0]).value;
      StepKeepsInvariant(s, actions[0]);
      OneStepOutOfReach(s, actions[0], id);
      NoCommandReachesIt(next, actions[1..], id);
      assert actions == [actions[0]] + actions[1..];
    }
  }

  lemma OneStepOutOfReach(s: State, action: Action, id: nat)
    requires Invariant(s) && OutOfReach(s, id) && Unanswered(s.sessions[id].recorder) && Apply(s, action).Some?
    ensures var s' := Apply(s, action).value;
            && OutOfReach(s', id) && Unanswered(s'.sessions[id].recorder)
            && (s.sessions[id].recorder.phase == Waiting ==>
                  s'.sessions[id].recorder.phase == Waiting || action == RecorderStep(id, ReceiveFailed))
  {
    if action.RecorderStep? && action.id == id {
      hide Deliver, Unanswered, TaskOk;
      assert SessionOk(s.sessions[id], s.picked);
      UnansweredStep(s.sessions[id], SocketOpen(s, id), action.event);
    } else {
      hide Apply, Invariant, Unanswered;
      OtherSteps(s, action, id);
    }
  }
}
