/** The elevated process that records an ETW trace: one recording, one command, one final status. */
module EtwRecorder {
  import opened Wrappers

  type Path = string

  datatype Command = Save(path: Path) | Cancel

  datatype Status = Started | Stopped(path: Path) | Cancelled | Error

  /** What the process does next */
  datatype Phase = Preparing | Announcing | Waiting | Executing(command: Command) | Reporting(status: Status) | Exited

  /** `saved` and `cancelCalls` count the successful Save and the Cancel calls after Start. */
  datatype Recorder = Recorder(phase: Phase, started: bool, saved: Option<Path>, cancelCalls: nat, guardArmed: bool)

  const INITIAL := Recorder(Preparing, false, None, 0, false)

  /** Outcomes of the calls into WPR and the socket. A failed write may still have been delivered. */
  datatype Event =
    | PrepareFailed
    | StartCalled(ok: bool)
    | StartedSent(ok: bool, delivered: bool)
    | CommandReceived(command: Command)
    | ReceiveFailed
    | CancelCalled(ok: bool)
    | SaveCalled(ok: bool)
    | StatusSent(delivered: bool)

  /** Leaving the function early: an armed guard calls Cancel, then the error is reported. */
  function Fail(r: Recorder): Recorder
  {
    r.(phase := Reporting(Error), guardArmed := false,
       cancelCalls := r.cancelCalls + if r.guardArmed then 1 else 0)
  }

  function Step(r: Recorder, e: Event): Option<Recorder>
  {
    match (r.phase, e)
    case (Preparing, PrepareFailed) => Some(Fail(r))
    case (Preparing, StartCalled(ok)) =>
      Some(if ok then r.(phase := Announcing, started := true, guardArmed := true) else Fail(r))
    case (Announcing, StartedSent(ok, delivered)) =>
      if ok && !delivered then None else Some(if ok then r.(phase := Waiting) else Fail(r))
    case (Waiting, CommandReceived(command)) => Some(r.(phase := Executing(command)))
    case (Waiting, ReceiveFailed) => Some(Fail(r))
    case (Executing(Cancel), CancelCalled(ok)) =>
      var called := r.(cancelCalls := r.cancelCalls + 1);
      Some(if ok then called.(phase := Reporting(Cancelled), guardArmed := false) else Fail(called))
    case (Executing(Save(path)), SaveCalled(ok)) =>
      Some(if ok then r.(phase := Reporting(Stopped(path)), saved := Some(path), guardArmed := false) else Fail(r))
    case (Reporting(_), StatusSent(_)) => Some(r.(phase := Exited))
    case _ => None
  }

  function Run(r: Recorder, events: seq<Event>): Option<Recorder>
    decreases |events|
  {
    if |events| == 0 then Some(r)
    else
      match Step(r, events[0])
      case None => None
      case Some(next) => Run(next, events[1..])
  }

  /** While recording the guard is armed; once it is not, the recording was saved or Cancel was called. */
  predicate Consistent(r: Recorder)
  {
    && (r.guardArmed <==> r.phase in {Announcing, Waiting} || r.phase.Executing?)
    && (r.guardArmed ==> r.started && r.saved == None && r.cancelCalls == 0)
    && (r.started && !r.guardArmed ==> (r.saved.Some? <==> r.cancelCalls == 0))
    && (!r.started ==> r.saved == None && r.cancelCalls == 0)
    && (r.phase.Reporting? && r.phase.status.Stopped? ==> r.saved == Some(r.phase.status.path))
    && (r.phase.Reporting? ==> r.phase.status != Started)
    && (r.phase == Preparing ==> !r.started)
  }

  lemma StepKeepsConsistent(r: Recorder, e: Event)
    requires Consistent(r) && Step(r, e).Some?
    ensures Consistent(Step(r, e).value)
  {
  }

  /** In every run: a recording that started is, when the process exits, either saved or had
      Cancel called on it, and not both. */
  lemma {:induction false} NoRecordingLeaks(r: Recorder, events: seq<Event>)
    requires Consistent(r) && Run(r, events).Some?
    ensures Consistent(Run(r, events).value)
    ensures var end := Run(r, events).value;
            end.phase == Exited && end.started ==> (end.saved.Some? <==> end.cancelCalls == 0)
    decreases |events|
  {
    if |events| != 0 {
      StepKeepsConsistent(r, events[0]);
      NoRecordingLeaks(Step(r, events[0]).value, events[1..]);
    }
  }

  // ---------- The process ----------

  /** What the world answers, one field per fallible call; `clearOk` is for the leftover session. */
  datatype World = World(
    connected: bool, prepareOk: bool, clearOk: bool, startOk: bool, startedSent: bool, startedDelivered: bool,
    command: Option<Command>, cancelOk: bool, guardOk: bool, saveOk: bool, statusDelivered: bool)
  {
    predicate IsPossible() { startedSent ==> startedDelivered }
  }

  class ControlManager {
    var recording: bool
    var saves: seq<Path>
    var cancels: nat

    constructor ()
      ensures !recording && saves == [] && cancels == 0
    {
      recording, saves, cancels := false, [], 0;
    }

    method Start(ok: bool) returns (r: bool)
      modifies this
      ensures r == ok && recording == (ok || old(recording)) && saves == old(saves) && cancels == old(cancels)
    {
      recording := ok || recording;
      return ok;
    }

    method Save(path: Path, ok: bool) returns (r: bool)
      modifies this
      ensures r == ok && saves == (if ok then old(saves) + [path] else old(saves))
      ensures recording == (old(recording) && !ok) && cancels == old(cancels)
    {
      if ok {
        saves := saves + [path];
        recording := false;
      }
      return ok;
    }

    method Cancel(ok: bool) returns (r: bool)
      modifies this
      ensures r == ok && recording == (old(recording) && !ok) && saves == old(saves) && cancels == old(cancels) + 1
    {
      recording := recording && !ok;
      cancels := cancels + 1;
      return ok;
    }
  }

  lemma {:induction false} RunSnoc(r: Recorder, events: seq<Event>, e: Event)
    requires Run(r, events).Some?
    ensures Run(r, events + [e]) == Step(Run(r, events).value, e)
    decreases |events|
  {
    if |events| == 0 {
      assert events + [e] == [e] && [e][1..] == [];
    } else {
      assert (events + [e])[0] == events[0] && (events + [e])[1..] == events[1..] + [e];
      RunSnoc(Step(r, events[0]).value, events[1..], e);
    }
  }

  /** The first Cancel call clears a leftover session and does not count. */
  ghost function Snapshot(phase: Phase, started: bool, control: ControlManager, armed: bool): Recorder
    reads control
  {
    var cancels := if control.cancels == 0 then 0 else control.cancels - 1;
    Recorder(phase, started, if |control.saves| == 0 then None else Some(control.saves[0]), cancels, armed)
  }

  /** The inner function: None stands for an early return with an error. `events` is the run of the
      step function up to here, where the guard of an early return has not fired yet. */
  method RecordInner(w: World, control: ControlManager)
    returns (status: Option<Status>, armed: bool, ghost started: bool, ghost before: Recorder, ghost events: seq<Event>)
    requires w.IsPossible() && control.saves == [] && control.cancels == 0
    modifies control
    ensures Run(INITIAL, events) == Some(if status.Some? then Snapshot(Reporting(status.value), started, control, armed)
                                         else Fail(Snapshot(before.phase, started, control, armed)))
    ensures status.Some? ==> !armed && status.value != Started
    ensures status.Some? && status.value.Stopped? ==> control.saves == [status.value.path]
    ensures armed ==> started
    ensures started ==> w.prepareOk && w.startOk && (control.recording <==> armed)
    ensures !started ==> control.recording == (old(control.recording) && !(w.prepareOk && w.clearOk))
    ensures control.cancels == 0 <==> !w.prepareOk
  {
    armed, status, started := false, None, false;
    events, before := [], INITIAL;
    if !w.prepareOk {
      RunSnoc(INITIAL, events, PrepareFailed);
      events := events + [PrepareFailed];
      return;
    }
    var _ := control.Cancel(w.clearOk);
    RunSnoc(INITIAL, events, StartCalled(w.startOk));
    events := events + [StartCalled(w.startOk)];
    var startOk := control.Start(w.startOk);
    if !startOk {
      return;
    }
    armed, started, before := true, true, Step(INITIAL, StartCalled(true)).value;
    RunSnoc(INITIAL, events, StartedSent(w.startedSent, w.startedDelivered));
    events := events + [StartedSent(w.startedSent, w.startedDelivered)];
    if !w.startedSent {
      return;
    }
    before := before.(phase := Waiting);
    if w.command.None? {
      RunSnoc(INITIAL, events, ReceiveFailed);
      events := events + [ReceiveFailed];
      return;
    }
    var command := w.command.value;
    before := before.(phase := Executing(command));
    RunSnoc(INITIAL, events, CommandReceived(command));
    events := events + [CommandReceived(command)];
    if command == Cancel {
      RunSnoc(INITIAL, events, CancelCalled(w.cancelOk));
      events := events + [CancelCalled(w.cancelOk)];
      var ok := control.Cancel(w.cancelOk);
      if !ok {
        return;
      }
      armed, status := false, Some(Cancelled);
    } else {
      RunSnoc(INITIAL, events, SaveCalled(w.saveOk));
      events := events + [SaveCalled(w.saveOk)];
      var ok := control.Save(command.path, w.saveOk);
      if !ok {
        return;
      }
      armed, status := false, Some(Stopped(command.path));
    }
  }

  /** The whole process: without COM and a connection nothing happens; otherwise a leftover session of the
      same name is cancelled, the guard fires when the inner function leaves with it armed, and the status is
      sent. */
  method RecordEtwTrace(w: World, control: ControlManager) returns (sent: Option<Status>, ghost started: bool)
    requires w.IsPossible() && control.saves == [] && control.cancels == 0
    modifies control
    ensures started ==> (control.saves != [] <==> control.cancels == 1)
    ensures started && control.recording ==> !w.guardOk
    ensures !started ==> control.recording == (old(control.recording) && !(w.connected && w.prepareOk && w.clearOk))
    ensures sent.Some? && sent.value.Stopped? ==> control.saves == [sent.value.path]
    ensures sent != Some(Started)
    ensures sent.None? <==> !w.connected
    ensures !w.connected ==> !started && control.saves == [] && control.cancels == 0
    ensures w.connected ==> exists events :: Run(INITIAL, events) == Some(Snapshot(Exited, started, control, false))
  {
    if !w.connected {
      return None, false;
    }
    ghost var before, events;
    var status, armed;
    status, armed, started, before, events := RecordInner(w, control);
    if armed {
      var _ := control.Cancel(w.guardOk);
    }
    sent := Some(if status.Some? then status.value else Error);
    RunSnoc(INITIAL, events, StatusSent(w.statusDelivered));
    events := events + [StatusSent(w.statusDelivered)];
    assert Run(INITIAL, events) == Some(Snapshot(Exited, started, control, false));
    NoRecordingLeaks(INITIAL, events);
  }
}
