/** The editor's side of an ETW recording: the session handle and the handlers of the four actions. */
module EtwEditor {
  import opened Wrappers
  import opened EtwRecorder

  datatype SessionState = Recording | ChoosingOutputPath | Stopping

  /** `sent` holds the commands whose send returned Ok. */
  datatype Handle = Handle(state: SessionState, sent: seq<Command>)

  datatype Notice =
    | NothingToStop | AlreadyChoosing | AlreadyStopping | NothingToCancel
    | StoppingNow | StopFailed | CancellingNow | CancelFailed | PickFailed

  // ---------- Handlers on values ----------

  function AfterPrompt(h: Option<Handle>): Option<Handle>
  {
    if h.Some? && h.value.state == Recording then Some(h.value.(state := ChoosingOutputPath)) else h
  }

  predicate OpensDialog(h: Option<Handle>)
  {
    h.Some? && h.value.state == Recording
  }

  /** The result of sending a command from the handle */
  function AfterSend(h: Handle, command: Command, ok: bool): Handle
  {
    if ok then Handle(Stopping, h.sent + [command]) else h.(state := Recording)
  }

  predicate SaveSends(h: Option<Handle>)
  {
    h.Some? && h.value.state == ChoosingOutputPath
  }

  function AfterSave(h: Option<Handle>, path: Path, ok: bool): Option<Handle>
  {
    if SaveSends(h) then Some(AfterSend(h.value, Save(path), ok)) else h
  }

  function AfterResume(h: Option<Handle>): Option<Handle>
  {
    if SaveSends(h) then Some(h.value.(state := Recording)) else h
  }

  predicate CancelSends(h: Option<Handle>)
  {
    h.Some? && h.value.state != Stopping
  }

  function AfterCancel(h: Option<Handle>, ok: bool): Option<Handle>
  {
    if CancelSends(h) then Some(AfterSend(h.value, Cancel, ok)) else h
  }

  // ---------- Notices ----------

  function PromptNotices(h: Option<Handle>): seq<Notice>
  {
    match h
    case None => [NothingToStop]
    case Some(Handle(Recording, _)) => []
    case Some(Handle(ChoosingOutputPath, _)) => [AlreadyChoosing]
    case Some(Handle(Stopping, _)) => [AlreadyStopping]
  }

  function SaveNotices(h: Option<Handle>, ok: bool): seq<Notice>
  {
    if !SaveSends(h) then [] else if ok then [StoppingNow] else [StopFailed]
  }

  function CancelNotices(h: Option<Handle>, ok: bool): seq<Notice>
  {
    if h.None? then [NothingToCancel]
    else if !CancelSends(h) then [AlreadyStopping]
    else if ok then [CancellingNow]
    else [CancelFailed]
  }

  /** At most one command was sent, and the handle is stopping exactly when one was. */
  predicate SentOnce(h: Handle)
  {
    |h.sent| <= 1 && (h.state == Stopping <==> |h.sent| == 1)
  }

  /** Every handler keeps this, whichever dialogs and clicks interleave. */
  lemma HandlersKeepSentOnce(h: Handle, path: Path, ok: bool)
    requires SentOnce(h)
    ensures SentOnce(AfterPrompt(Some(h)).value)
    ensures SentOnce(AfterSave(Some(h), path, ok).value)
    ensures SentOnce(AfterResume(Some(h)).value)
    ensures SentOnce(AfterCancel(Some(h), ok).value)
    ensures h.sent <= AfterSave(Some(h), path, ok).value.sent && h.sent <= AfterCancel(Some(h), ok).value.sent
  {
  }

  // ---------- Handlers on the global session ----------

  class EtwSessionHandle {
    var state: SessionState
    var sent: seq<Command>

    constructor ()
      ensures state == Recording && sent == []
    {
      state, sent := Recording, [];
    }

    method SendJson(command: Command, ok: bool) returns (r: bool)
      modifies this`sent
      ensures r == ok && sent == if ok then old(sent) + [command] else old(sent)
    {
      if ok {
        sent := sent + [command];
      }
      return ok;
    }
  }

  class EtwApp {
    var session: EtwSessionHandle?
    var openDialogs: nat
    var notices: seq<Notice>

    constructor ()
      ensures Current() == None && openDialogs == 0
    {
      session, openDialogs, notices := null, 0, [];
    }

    ghost function Current(): Option<Handle>
      reads this, session
    {
      if session == null then None else Some(Handle(session.state, session.sent))
    }

    method Show(notice: Notice)
      modifies this`notices
      ensures notices == old(notices) + [notice]
    {
      notices := notices + [notice];
    }

    method PromptForOutputPath()
      modifies this`notices, this`openDialogs, session
      ensures Current() == AfterPrompt(old(Current()))
      ensures openDialogs == old(openDialogs) + if OpensDialog(old(Current())) then 1 else 0
      ensures notices == old(notices) + PromptNotices(old(Current()))
    {
      if session == null {
        Show(NothingToStop);
        return;
      }
      match session.state {
        case Recording =>
          session.state := ChoosingOutputPath;
        case ChoosingOutputPath =>
          Show(AlreadyChoosing);
          return;
        case Stopping =>
          Show(AlreadyStopping);
          return;
      }
      openDialogs := openDialogs + 1;
    }

    method SaveRecording(path: Path, sendOk: bool)
      modifies this`notices, session
      ensures Current() == AfterSave(old(Current()), path, sendOk)
      ensures notices == old(notices) + SaveNotices(old(Current()), sendOk)
    {
      if session == null || session.state != ChoosingOutputPath {
        return;
      }
      var ok := session.SendJson(Save(path), sendOk);
      if ok {
        session.state := Stopping;
        Show(StoppingNow);
      } else {
        session.state := Recording;
        Show(StopFailed);
      }
    }

    method ResumeRecording()
      modifies session
      ensures Current() == AfterResume(old(Current()))
    {
      if session != null && session.state == ChoosingOutputPath {
        session.state := Recording;
      }
    }

    method CancelRecording(sendOk: bool)
      modifies this`notices, session
      ensures Current() == AfterCancel(old(Current()), sendOk)
      ensures notices == old(notices) + CancelNotices(old(Current()), sendOk)
    {
      if session == null {
        Show(NothingToCancel);
        return;
      }
      if session.state == Stopping {
        Show(AlreadyStopping);
        return;
      }
      var ok := session.SendJson(Cancel, sendOk);
      if ok {
        session.state := Stopping;
        Show(CancellingNow);
      } else {
        session.state := Recording;
        Show(CancelFailed);
      }
    }

    /** The dialog's answer: a path, nothing, or an error */
    method DialogAnswered(picked: Result<Option<Path>, ()>, sendOk: bool)
      requires openDialogs > 0
      modifies this`notices, this`openDialogs, session
      ensures openDialogs == old(openDialogs) - 1
      ensures match picked
              case Ok(Some(path)) =>
                && Current() == AfterSave(old(Current()), path, sendOk)
                && notices == old(notices) + SaveNotices(old(Current()), sendOk)
              case Ok(None) => Current() == AfterResume(old(Current())) && notices == old(notices)
              case Err(_) => Current() == AfterResume(old(Current())) && notices == old(notices) + [PickFailed]
    {
      openDialogs := openDialogs - 1;
      match picked {
        case Ok(Some(path)) => SaveRecording(path, sendOk);
        case Ok(None) => ResumeRecording();
        case Err(_) =>
          ResumeRecording();
          Show(PickFailed);
      }
    }
  }
}
