/** The server process: one storage and the session objects over it, as the program's thread resumes them. */
module Process {
  import opened Options
  import opened Maildrops
  import opened MailServer
  import Smtp
  import Pop3
  import Imap

  datatype Running =
    | SmtpRunning(smtpObject: Smtp.SmtpSession)
    | Pop3Running(pop3Object: Pop3.Pop3Session)
    | ImapRunning(imapObject: Imap.ImapSession)

  function ObjectOf(running: Running): object {
    match running
    case SmtpRunning(s) => s
    case Pop3Running(s) => s
    case ImapRunning(s) => s
  }

  function ViewOf(running: Running): Session
    reads ObjectOf(running)
  {
    match running
    case SmtpRunning(s) => SmtpSide(s.View())
    case Pop3Running(s) => Pop3Side(s.View())
    case ImapRunning(s) => ImapSide(s.View())
  }

  method NewRunning(protocol: Protocol) returns (running: Running)
    ensures fresh(ObjectOf(running)) && ViewOf(running) == NewSession(protocol)
  {
    match protocol {
      case SMTP =>
        var s := new Smtp.SmtpSession();
        running := SmtpRunning(s);
      case POP3 =>
        var s := new Pop3.Pop3Session();
        running := Pop3Running(s);
      case IMAP =>
        var s := new Imap.ImapSession();
        running := ImapRunning(s);
    }
  }

  class MailProcess {
    const storage: Storage
    var sessions: map<nat, Running>
    // The history of deliveries, which the program does not keep.
    ghost var delivered: seq<(nat, Mail)>

    ghost function Objects(): set<object>
      reads this
    {
      set id | id in sessions :: ObjectOf(sessions[id])
    }

    // No two connections share a session object.
    ghost predicate Valid()
      reads this
    {
      && this !in Objects() && storage !in Objects()
      && forall id, id' | id in sessions && id' in sessions && id != id' ::
           ObjectOf(sessions[id]) != ObjectOf(sessions[id'])
    }

    ghost function Views(): map<nat, Session>
      reads this, Objects()
    {
      map id | id in sessions :: ViewOf(sessions[id])
    }

    ghost function View(): Server
      reads this, storage, Objects()
    {
      Server(storage.maildrops, Views(), delivered)
    }

    constructor ()
      ensures Valid() && View() == START && fresh(storage) && sessions == map[]
    {
      storage := new Storage();
      sessions := map[];
      delivered := [];
      new;
      FillStorage(storage);
      assert Views() == map[];
    }

    /** A new connection gets a session object of its own. */
    method AcceptConnection(id: nat, protocol: Protocol)
      requires Valid() && id !in sessions
      modifies this
      ensures Valid() && View() == Step(old(View()), Accept(id, protocol))
      ensures fresh(Objects() - old(Objects()))
    {
      var running := NewRunning(protocol);
      sessions := sessions[id := running];
      OneAdded(id);
    }

    // When a new object has been added, so has its view.
    twostate lemma OneAdded(id: nat)
      requires old(Valid()) && id !in old(sessions) && id in sessions
      requires sessions == old(sessions)[id := sessions[id]]
      requires forall other | other in old(sessions) :: unchanged(ObjectOf(sessions[other]))
      requires ObjectOf(sessions[id]) !in old(Objects()) + {this, storage}
      ensures Valid() && Views() == old(Views())[id := ViewOf(sessions[id])]
      ensures Objects() == old(Objects()) + {ObjectOf(sessions[id])}
    {
    }

    // When one session object and the storage have changed, one view and the maildrops have.
    twostate lemma OneChanged(id: nat)
      requires old(Valid()) && id in old(sessions) && sessions == old(sessions)
      requires forall other | other in sessions && other != id :: unchanged(ObjectOf(sessions[other]))
      ensures Valid() && Views() == old(Views())[id := ViewOf(sessions[id])]
    {
    }

    /** What happens next, handled by the object concerned, takes the process one step. */
    method Handle(action: Action)
      requires Valid() && Enabled(View(), action)
      modifies this, storage, Objects()
      ensures Valid() && View() == Step(old(View()), action)
      ensures fresh(Objects() - old(Objects()))
    {
      match action {
        case Accept(id, protocol) =>
          AcceptConnection(id, protocol);
        case ResumeSmtp(id, e) =>
          ghost var mail := Smtp.Step(sessions[id].smtpObject.View(), e).1;
          sessions[id].smtpObject.Resume(storage, e);
          delivered := delivered + if mail.Some? then [(id, mail.value)] else [];
          OneChanged(id);
        case ResumePop3(id, e) =>
          sessions[id].pop3Object.Resume(storage, e);
          OneChanged(id);
        case ResumeImap(id, e) =>
          sessions[id].imapObject.Resume(storage, e);
          OneChanged(id);
      }
    }
  }

  /** The process over any run: whatever happens, objects and storage are where the model of the server is. */
  method Serve(actions: seq<Action>) returns (process: MailProcess)
    requires Run(actions).Some?
    ensures fresh(process) && process.Valid() && process.View() == Run(actions).value
  {
    assert Run(actions[..0]) == Some(START);
    hide Run, Enabled, Step, MailProcess.View, MailProcess.Views, MailProcess.Valid;
    process := new MailProcess();
    assert process.Objects() == {};
    Proceed(process, actions);
  }

  // `io_context.run()`.
  method Proceed(process: MailProcess, actions: seq<Action>)
    requires Run(actions).Some? && process.Valid() && process.View() == START
    modifies process, process.storage, process.Objects()
    ensures process.Valid() && process.View() == Run(actions).value
  {
    assert Run(actions[..0]) == Some(START);
    hide Run, Enabled, Step, START, MailProcess.View, MailProcess.Views, MailProcess.Valid, MailProcess.Objects;
    for i := 0 to |actions|
      invariant process.Valid() && fresh(process.Objects() - old(process.Objects()))
      invariant Run(actions[..i]) == Some(process.View())
    {
      ProceedOnce(process, actions, i);
    }
    assert actions[..|actions|] == actions;
  }

  method ProceedOnce(process: MailProcess, actions: seq<Action>, i: nat)
    requires Run(actions).Some? && i < |actions|
    requires process.Valid() && Run(actions[..i]) == Some(process.View())
    modifies process, process.storage, process.Objects()
    ensures process.Valid() && Run(actions[..i + 1]) == Some(process.View())
    ensures fresh(process.Objects() - old(process.Objects()))
  {
    hide Run, Enabled, Step, MailProcess.View, MailProcess.Views, MailProcess.Valid, MailProcess.Objects;
    NextIsEnabled(actions, i);
    process.Handle(actions[i]);
  }

  lemma {:induction false} NextIsEnabled(actions: seq<Action>, t: nat)
    requires Run(actions).Some? && t < |actions|
    ensures Run(actions[..t]).Some? && Enabled(Run(actions[..t]).value, actions[t])
    ensures Run(actions[..t + 1]) == Some(Step(Run(actions[..t]).value, actions[t]))
    decreases |actions|
  {
    hide Enabled, Step;
    var earlier := actions[..|actions| - 1];
    if t < |earlier| {
      NextIsEnabled(earlier, t);
      assert earlier[..t] == actions[..t] && earlier[..t + 1] == actions[..t + 1];
    } else {
      assert actions[..t] == earlier && actions[..t + 1] == actions;
    }
  }
}
