/**
  One SMTP session, from one suspension to the next. A session is suspended while a line is read or a reply is
  written; what the program does after a reply has been written is part of the suspended state.
 */
module Smtp {
  import opened Maildrops
  import opened Options

  // A request line, classified. An address counts only when the arguments are valid.
  datatype Command =
    | Helo(valid: bool)
    | MailFrom(valid: bool, address: string)
    | RcptTo(valid: bool, address: string)
    | Data
    | Quit
    | Unknown

  datatype Phase = WaitHelo | InitTransaction | Recipients

  datatype Point =
    | Reading(phase: Phase)
    | Replying(next: Phase)
    | ReplyingFrom(address: string)
    | ReplyingRcpt(address: string)
    | AskingBody
    | Closing
    | Ended

  // The body is read without suspending, so it arrives together with the completed 354 reply.
  datatype Event = Sent | Line(command: Command) | Body(lines: seq<string>) | Broken

  datatype Session = Session(point: Point, mail: Mail, replies: seq<nat>)

  const START := Session(Replying(WaitHelo), NO_MAIL, [220])

  predicate IsBody(lines: seq<string>) {
    lines != [] && lines[|lines| - 1] == "." && forall i | 0 <= i < |lines| - 1 :: lines[i] != "."
  }

  predicate Enabled(s: Session, e: Event) {
    match e
    case Sent => s.point.Replying? || s.point.ReplyingFrom? || s.point.ReplyingRcpt? || s.point.Closing?
    case Line(_) => s.point.Reading?
    case Body(lines) => s.point.AskingBody? && IsBody(lines)
    case Broken => !s.point.Ended?
  }

  function Reply(s: Session, code: nat, point: Point): Session {
    s.(point := point, replies := s.replies + [code])
  }

  function OnLine(s: Session, phase: Phase, command: Command): Session {
    match phase
    case WaitHelo => (
      match command
      case Helo(valid) => if valid then Reply(s, 250, Replying(InitTransaction)) else Reply(s, 501, Replying(WaitHelo))
      case Quit => Reply(s, 221, Closing)
      case Unknown => Reply(s, 500, Replying(WaitHelo))
      case _ => Reply(s, 503, Replying(WaitHelo)))
    case InitTransaction => (
      var s := s.(mail := NO_MAIL);
      match command
      case Helo(valid) => Reply(s, if valid then 250 else 501, Replying(InitTransaction))
      case MailFrom(valid, address) =>
        if valid then Reply(s, 250, ReplyingFrom(address)) else Reply(s, 501, Replying(InitTransaction))
      case Quit => Reply(s, 221, Closing)
      case Unknown => Reply(s, 500, Replying(InitTransaction))
      case _ => Reply(s, 503, Replying(InitTransaction)))
    case Recipients =>
      match command
      case RcptTo(valid, address) =>
        if valid then Reply(s, 250, ReplyingRcpt(address)) else Reply(s, 501, Replying(Recipients))
      case Data => if s.mail.recipients == {} then Reply(s, 503, Replying(Recipients)) else Reply(s, 354, AskingBody)
      case Quit => Reply(s, 221, Closing)
      case Unknown => Reply(s, 500, Replying(Recipients))
      case _ => Reply(s, 503, Replying(Recipients))
  }

  /** The next suspension, and the mail delivered on the way to it. */
  function Step(s: Session, e: Event): (Session, Option<Mail>)
    requires Enabled(s, e)
  {
    match e
    case Broken => (s.(point := Ended), None)
    case Line(command) => (OnLine(s, s.point.phase, command), None)
    case Body(lines) =>
      var mail := s.mail.(message := lines);
      (Reply(s.(mail := mail), 250, Replying(InitTransaction)), Some(mail))
    case Sent =>
      match s.point
      case Replying(next) => (s.(point := Reading(next)), None)
      case ReplyingFrom(address) => (s.(point := Reading(Recipients), mail := s.mail.(from := address)), None)
      case ReplyingRcpt(address) =>
        (s.(point := Reading(Recipients), mail := s.mail.(recipients := s.mail.recipients + {address})), None)
      case _ => (s.(point := Ended), None)
  }

  function Delivered(drops: Drops, mail: Option<Mail>): Drops {
    if mail.None? then drops else DeliverTo(drops, LocalRecipients(mail.value), mail.value)
  }

  /** `read_multiple_lines` over the lines that will come; it fails when none of them ends the body. */
  method ReadMultipleLines(incoming: seq<string>) returns (lines: seq<string>, complete: bool)
    ensures complete <==> "." in incoming
    ensures complete ==> IsBody(lines) && lines <= incoming
  {
    lines := [];
    complete := false;
    while !complete
      invariant lines <= incoming
      invariant if complete then IsBody(lines) else "." !in lines
      decreases |incoming| - |lines|, !complete
    {
      if |lines| == |incoming| {
        return;
      }
      var line := incoming[|lines|];
      lines := lines + [line];
      if line == "." {
        complete := true;
      }
    }
  }

  /** The session object: its local variables, and one method for what runs between two suspensions. */
  class SmtpSession {
    var point: Point
    var mail: Mail
    var replies: seq<nat>

    constructor ()
      ensures View() == START
    {
      point, mail, replies := Replying(WaitHelo), NO_MAIL, [220];
    }

    function View(): Session
      reads this
    {
      Session(point, mail, replies)
    }

    method Write(code: nat, next: Point)
      modifies this
      ensures View() == Reply(old(View()), code, next)
    {
      replies := replies + [code];
      point := next;
    }

    method Resume(storage: Storage, e: Event)
      requires Enabled(View(), e)
      modifies this, storage
      ensures var (s, delivered) := Step(old(View()), e);
              View() == s && storage.maildrops == Delivered(old(storage.maildrops), delivered)
    {
      match e {
        case Broken =>
          point := Ended;
        case Sent =>
          if point.Replying? {
            point := Reading(point.next);
          } else if point.ReplyingFrom? {
            mail := mail.(from := point.address);
            point := Reading(Recipients);
          } else if point.ReplyingRcpt? {
            mail := mail.(recipients := mail.recipients + {point.address});
            point := Reading(Recipients);
          } else {
            point := Ended;
          }
        case Body(lines) =>
          mail := mail.(message := lines);
          storage.Deliver(mail);
          Write(250, Replying(InitTransaction));
        case Line(command) =>
          HandleLine(command);
      }
    }

    method HandleLine(command: Command)
      requires point.Reading?
      modifies this
      ensures View() == OnLine(old(View()), old(point).phase, command)
    {
      match point.phase {
        case WaitHelo =>
          match command {
            case Helo(valid) =>
              if !valid {
                Write(501, Replying(WaitHelo));
              } else {
                Write(250, Replying(InitTransaction));
              }
            case MailFrom(_, _) => Write(503, Replying(WaitHelo));
            case RcptTo(_, _) => Write(503, Replying(WaitHelo));
            case Data => Write(503, Replying(WaitHelo));
            case Quit => Write(221, Closing);
            case Unknown => Write(500, Replying(WaitHelo));
          }
        case InitTransaction =>
          mail := NO_MAIL;
          match command {
            case Helo(valid) =>
              if !valid {
                Write(501, Replying(InitTransaction));
              } else {
                Write(250, Replying(InitTransaction));
              }
            case MailFrom(valid, address) =>
              if !valid {
                Write(501, Replying(InitTransaction));
              } else {
                Write(250, ReplyingFrom(address));
              }
            case RcptTo(_, _) => Write(503, Replying(InitTransaction));
            case Data => Write(503, Replying(InitTransaction));
            case Quit => Write(221, Closing);
            case Unknown => Write(500, Replying(InitTransaction));
          }
        case Recipients =>
          match command {
            case RcptTo(valid, address) =>
              if !valid {
                Write(501, Replying(Recipients));
              } else {
                Write(250, ReplyingRcpt(address));
              }
            case Data =>
              if mail.recipients == {} {
                Write(503, Replying(Recipients));
              } else {
                Write(354, AskingBody);
              }
            case Helo(_) => Write(503, Replying(Recipients));
            case MailFrom(_, _) => Write(503, Replying(Recipients));
            case Quit => Write(221, Closing);
            case Unknown => Write(500, Replying(Recipients));
          }
      }
    }
  }

  // ----- What a session delivers, read off its input alone -----

  /** The session after the given events and the mails it has delivered, if every event could happen. */
  function Run(events: seq<Event>): Option<(Session, seq<Mail>)> {
    if events == [] then Some((START, [])) else
    var before := Run(events[..|events| - 1]);
    var e := events[|events| - 1];
    if before.None? || !Enabled(before.value.0, e) then None else
    var (s, delivered) := Step(before.value.0, e);
    Some((s, before.value.1 + if delivered.Some? then [delivered.value] else []))
  }

  // The lines and bodies that were read.
  function Inputs(events: seq<Event>): seq<Event> {
    if events == [] then [] else
    var e := events[|events| - 1];
    Inputs(events[..|events| - 1]) + if e.Line? || e.Body? then [e] else []
  }

  predicate Greeted(inputs: seq<Event>) {
    Line(Helo(true)) in inputs
  }

  predicate IsMail(e: Event) {
    e.Line? && e.command.MailFrom? && e.command.valid
  }

  // A valid MAIL after a valid HELO.
  predicate MailAt(inputs: seq<Event>, a: nat) {
    a < |inputs| && IsMail(inputs[a]) && Greeted(inputs[..a])
  }

  predicate NoBodyAfter(inputs: seq<Event>, a: nat) {
    forall j | a < j < |inputs| :: !inputs[j].Body?
  }

  // The transaction that is open after these inputs began at index a: the first MAIL since the last body.
  ghost predicate Open(inputs: seq<Event>, a: nat) {
    && MailAt(inputs, a) && NoBodyAfter(inputs, a)
    && forall b | 0 <= b < a && MailAt(inputs, b) :: !NoBodyAfter(inputs, b)
  }

  ghost predicate HasOpen(inputs: seq<Event>) {
    exists a: nat :: Open(inputs, a)
  }

  function Rcpts(inputs: seq<Event>, a: nat): set<string> {
    set j | a < j < |inputs| && inputs[j].Line? && inputs[j].command.RcptTo? && inputs[j].command.valid
      :: inputs[j].command.address
  }

  // The body at index t ends a transaction that made this mail.
  ghost predicate IsTransaction(inputs: seq<Event>, t: nat, mail: Mail) {
    && 1 <= t < |inputs| && inputs[t].Body? && inputs[t - 1] == Line(Data)
    && exists a: nat :: Open(inputs[..t], a)
                   && mail == Mail(inputs[a].command.address, Rcpts(inputs[..t], a), inputs[t].lines)
                   && mail.recipients != {}
  }

  function Bodies(inputs: seq<Event>): seq<nat> {
    if inputs == [] then [] else
    Bodies(inputs[..|inputs| - 1]) + if inputs[|inputs| - 1].Body? then [|inputs| - 1] else []
  }

  lemma {:induction false} SomeOpen(inputs: seq<Event>, b: nat)
    requires MailAt(inputs, b) && NoBodyAfter(inputs, b)
    ensures HasOpen(inputs)
    decreases b
  {
    if !Open(inputs, b) {
      var earlier :| 0 <= earlier < b && MailAt(inputs, earlier) && NoBodyAfter(inputs, earlier);
      SomeOpen(inputs, earlier);
    }
  }

  lemma LineKeepsPrefix(inputs: seq<Event>, e: Event, a: nat)
    requires a < |inputs|
    ensures (inputs + [e])[..a] == inputs[..a]
    ensures MailAt(inputs + [e], a) <==> MailAt(inputs, a)
    ensures NoBodyAfter(inputs + [e], a) <==> NoBodyAfter(inputs, a) && !e.Body?
  {
    assert (inputs + [e])[..a] == inputs[..a];
    if NoBodyAfter(inputs + [e], a) {
      assert (inputs + [e])[|inputs|] == e;
      forall j | a < j < |inputs|
        ensures !inputs[j].Body?
      {
        assert (inputs + [e])[j] == inputs[j];
      }
    }
  }

  // How one more line changes the open transaction.
  lemma LineAndOpen(inputs: seq<Event>, e: Event, a: nat)
    requires e.Line?
    ensures a < |inputs| ==> (Open(inputs + [e], a) <==> Open(inputs, a))
    ensures Open(inputs + [e], |inputs|) <==> IsMail(e) && Greeted(inputs) && !HasOpen(inputs)
  {
    hide Greeted, NoBodyAfter;
    var more := inputs + [e];
    assert more[..|inputs|] == inputs;
    forall b | 0 <= b < |inputs|
      ensures MailAt(more, b) <==> MailAt(inputs, b)
      ensures NoBodyAfter(more, b) <==> NoBodyAfter(inputs, b)
    {
      LineKeepsPrefix(inputs, e, b);
    }
    assert NoBodyAfter(more, |inputs|) by { NothingAfterLast(more); }
    forall b | 0 <= b < |inputs| && MailAt(inputs, b) && NoBodyAfter(inputs, b)
      ensures HasOpen(inputs)
    {
      SomeOpen(inputs, b);
    }
  }

  lemma NothingAfterLast(inputs: seq<Event>)
    requires inputs != []
    ensures NoBodyAfter(inputs, |inputs| - 1)
  {
  }

  lemma BodyComesAfter(inputs: seq<Event>, e: Event, a: nat)
    requires e.Body? && a < |inputs|
    ensures !NoBodyAfter(inputs + [e], a)
  {
    assert (inputs + [e])[|inputs|] == e;
  }

  lemma BodyCloses(inputs: seq<Event>, e: Event)
    requires e.Body?
    ensures !HasOpen(inputs + [e])
  {
    forall a: nat
      ensures !Open(inputs + [e], a)
    {
      if a < |inputs| {
        BodyComesAfter(inputs, e, a);
      }
    }
  }

  lemma RcptsGrow(inputs: seq<Event>, e: Event, a: nat)
    requires a < |inputs|
    ensures Rcpts(inputs + [e], a) == Rcpts(inputs, a) +
              if e.Line? && e.command.RcptTo? && e.command.valid then {e.command.address} else {}
  {
    var more := inputs + [e];
    forall r | r in Rcpts(inputs, a)
      ensures r in Rcpts(more, a)
    {
      var j :| a < j < |inputs| && inputs[j].Line? && inputs[j].command.RcptTo? && inputs[j].command.valid
               && inputs[j].command.address == r;
      assert more[j] == inputs[j];
    }
    assert more[|inputs|] == e;
  }

  // The phase and the mail once the pending reply has been written.
  function Settled(s: Session): (Phase, Mail) {
    match s.point
    case Reading(phase) => (phase, s.mail)
    case Replying(next) => (next, s.mail)
    case ReplyingFrom(address) => (Recipients, s.mail.(from := address))
    case ReplyingRcpt(address) => (Recipients, s.mail.(recipients := s.mail.recipients + {address}))
    case _ => (Recipients, s.mail)
  }

  ghost predicate MakesMail(inputs: seq<Event>, mail: Mail) {
    exists a: nat :: Open(inputs, a) && mail.from == inputs[a].command.address && mail.recipients == Rcpts(inputs, a)
  }

  // A live session is where its inputs say.
  ghost predicate Describes(s: Session, inputs: seq<Event>) {
    var (phase, mail) := Settled(s);
    && (phase == WaitHelo <==> !Greeted(inputs))
    && (phase == Recipients <==> HasOpen(inputs))
    && (phase == Recipients ==> MakesMail(inputs, mail))
    && (s.point.ReplyingFrom? ==> s.mail.recipients == {})
    && (s.point == AskingBody <==>
          inputs != [] && inputs[|inputs| - 1] == Line(Data) && HasOpen(inputs) && mail.recipients != {})
  }

  predicate Live(s: Session) {
    !s.point.Closing? && !s.point.Ended?
  }

  lemma OpenAfterLine(inputs: seq<Event>, e: Event)
    requires e.Line?
    ensures HasOpen(inputs + [e]) <==> HasOpen(inputs) || (IsMail(e) && Greeted(inputs))
    ensures Greeted(inputs + [e]) <==> Greeted(inputs) || e == Line(Helo(true))
  {
    hide Open;
    LineAndOpen(inputs, e, 0);
    if HasOpen(inputs) {
      var a: nat :| Open(inputs, a);
      OpenIsInside(inputs, a);
      LineAndOpen(inputs, e, a);
    }
    if HasOpen(inputs + [e]) {
      var a: nat :| Open(inputs + [e], a);
      OpenIsInside(inputs + [e], a);
      LineAndOpen(inputs, e, a);
    }
  }

  lemma OpenIsInside(inputs: seq<Event>, a: nat)
    requires Open(inputs, a)
    ensures a < |inputs| && IsMail(inputs[a]) && Greeted(inputs)
  {
    assert inputs[..a] + inputs[a..] == inputs;
  }

  lemma OpenIsUnique(inputs: seq<Event>, a: nat, b: nat)
    requires Open(inputs, a) && Open(inputs, b)
    ensures a == b
  {
  }

  lemma MailAfterLine(inputs: seq<Event>, e: Event, mail: Mail)
    requires e.Line? && MakesMail(inputs, mail)
    ensures MakesMail(inputs + [e], mail.(recipients := mail.recipients +
              if e.command.RcptTo? && e.command.valid then {e.command.address} else {}))
  {
    hide Rcpts;
    var a: nat :| Open(inputs, a) && mail.from == inputs[a].command.address && mail.recipients == Rcpts(inputs, a);
    OpenIsInside(inputs, a);
    LineAndOpen(inputs, e, a);
    RcptsGrow(inputs, e, a);
    assert (inputs + [e])[a] == inputs[a];
  }

  lemma MailStarts(inputs: seq<Event>, e: Event, mail: Mail)
    requires IsMail(e) && Greeted(inputs) && !HasOpen(inputs)
    requires mail.from == e.command.address && mail.recipients == {}
    ensures MakesMail(inputs + [e], mail)
  {
    LineAndOpen(inputs, e, |inputs|);
    assert (inputs + [e])[|inputs|] == e;
    assert Rcpts(inputs + [e], |inputs|) == {};
  }

  lemma LineDescribes(s: Session, inputs: seq<Event>, command: Command)
    requires s.point.Reading? && Describes(s, inputs)
    ensures var s' := OnLine(s, s.point.phase, command);
            Live(s') ==> Describes(s', inputs + [Line(command)])
  {
    hide Greeted, HasOpen, MakesMail;
    var e := Line(command);
    OpenAfterLine(inputs, e);
    if s.point.phase == Recipients {
      MailAfterLine(inputs, e, s.mail);
      assert s.mail.(recipients := s.mail.recipients + {}) == s.mail;
    } else if IsMail(e) && Greeted(inputs) {
      MailStarts(inputs, e, NO_MAIL.(from := command.address));
    }
  }

  lemma BodyDescribes(s: Session, inputs: seq<Event>, lines: seq<string>)
    requires s.point == AskingBody && Describes(s, inputs) && IsBody(lines)
    ensures Describes(Step(s, Body(lines)).0, inputs + [Body(lines)])
    ensures IsTransaction(inputs + [Body(lines)], |inputs|, Step(s, Body(lines)).1.value)
  {
    hide Rcpts;
    var more := inputs + [Body(lines)];
    BodyCloses(inputs, Body(lines));
    var a: nat :| Open(inputs, a) && s.mail.from == inputs[a].command.address && s.mail.recipients == Rcpts(inputs, a);
    OpenIsInside(inputs, a);
    assert more[..|inputs|] == inputs && more[a] == inputs[a];
  }

  lemma {:induction false} RunDescribes(events: seq<Event>)
    requires Run(events).Some?
    ensures Live(Run(events).value.0) ==> Describes(Run(events).value.0, Inputs(events))
  {
    if events == [] {
      assert !HasOpen([]);
    } else {
      hide Greeted, HasOpen, MakesMail, OnLine;
      var earlier, e := events[..|events| - 1], events[|events| - 1];
      RunDescribes(earlier);
      var s, inputs := Run(earlier).value.0, Inputs(earlier);
      match e
      case Line(command) => LineDescribes(s, inputs, command);
      case Body(lines) => BodyDescribes(s, inputs, lines);
      case Sent => assert inputs + [] == inputs;
      case Broken =>
    }
  }

  /** A session asks for a body exactly when its last line was DATA in an open transaction with a recipient. */
  lemma {:induction false} AsksForBodyExactly(events: seq<Event>)
    requires Run(events).Some? && Live(Run(events).value.0)
    ensures var inputs := Inputs(events);
            Run(events).value.0.point == AskingBody <==>
              inputs != [] && inputs[|inputs| - 1] == Line(Data)
              && exists a: nat :: Open(inputs, a) && Rcpts(inputs, a) != {}
  {
    RunDescribes(events);
    var s, inputs := Run(events).value.0, Inputs(events);
    hide Rcpts, Open;
    if HasOpen(inputs) {
      var a: nat :| Open(inputs, a) && Settled(s).1.recipients == Rcpts(inputs, a);
      forall b: nat | Open(inputs, b)
        ensures b == a
      {
        OpenIsUnique(inputs, a, b);
      }
    }
  }

  lemma {:induction false} BodiesAreInside(inputs: seq<Event>)
    ensures forall t | t in Bodies(inputs) :: t < |inputs|
  {
    if inputs != [] {
      BodiesAreInside(inputs[..|inputs| - 1]);
    }
  }

  lemma {:induction false} BodiesIncrease(inputs: seq<Event>)
    ensures forall i, j | 0 <= i < j < |Bodies(inputs)| :: Bodies(inputs)[i] < Bodies(inputs)[j]
  {
    if inputs != [] {
      BodiesIncrease(inputs[..|inputs| - 1]);
      BodiesAreInside(inputs[..|inputs| - 1]);
      var earlier := Bodies(inputs[..|inputs| - 1]);
      assert forall i | 0 <= i < |earlier| :: earlier[i] in earlier;
    }
  }

  lemma TransactionStays(inputs: seq<Event>, more: seq<Event>, t: nat, mail: Mail)
    requires IsTransaction(inputs, t, mail)
    ensures IsTransaction(inputs + more, t, mail)
  {
    hide Rcpts;
    var a: nat :| Open(inputs[..t], a)
                  && mail == Mail(inputs[a].command.address, Rcpts(inputs[..t], a), inputs[t].lines);
    OpenIsInside(inputs[..t], a);
    assert (inputs + more)[..t] == inputs[..t];
    assert (inputs + more)[a] == inputs[a] && (inputs + more)[t] == inputs[t];
  }

  // The mails are, body by body, one transaction each.
  ghost predicate AllTransactions(inputs: seq<Event>, mails: seq<Mail>) {
    && |mails| == |Bodies(inputs)|
    && forall i | 0 <= i < |mails| :: IsTransaction(inputs, Bodies(inputs)[i], mails[i])
  }

  lemma {:induction false} TransactionsStay(inputs: seq<Event>, mails: seq<Mail>, e: Event)
    requires AllTransactions(inputs, mails)
    ensures |mails| <= |Bodies(inputs + [e])| && Bodies(inputs) == Bodies(inputs + [e])[..|mails|]
    ensures forall i | 0 <= i < |mails| :: IsTransaction(inputs + [e], Bodies(inputs)[i], mails[i])
    ensures !e.Body? ==> AllTransactions(inputs + [e], mails)
  {
    hide IsTransaction;
    assert (inputs + [e])[..|inputs|] == inputs;
    forall i | 0 <= i < |mails|
      ensures IsTransaction(inputs + [e], Bodies(inputs)[i], mails[i])
    {
      TransactionStays(inputs, [e], Bodies(inputs)[i], mails[i]);
    }
  }

  lemma TransactionAdded(inputs: seq<Event>, mails: seq<Mail>, e: Event, mail: Mail)
    requires AllTransactions(inputs, mails) && e.Body? && IsTransaction(inputs + [e], |inputs|, mail)
    ensures AllTransactions(inputs + [e], mails + [mail])
  {
    hide IsTransaction;
    assert (inputs + [e])[..|inputs|] == inputs;
    TransactionsStay(inputs, mails, e);
  }

  /**
    For every input: the mails a session delivers are, body by body, the sender, the recipients and the lines of
    one transaction each, opened by a valid MAIL after a valid HELO and closed by DATA with a recipient given.
   */
  lemma {:induction false} DeliversTransactions(events: seq<Event>)
    requires Run(events).Some?
    ensures AllTransactions(Inputs(events), Run(events).value.1)
  {
    if events != [] {
      hide AllTransactions, Enabled, Step;
      var earlier, e := events[..|events| - 1], events[|events| - 1];
      DeliversTransactions(earlier);
      var inputs, mails := Inputs(earlier), Run(earlier).value.1;
      assert earlier + [e] == events;
      OneMoreEvent(earlier, e);
      if e.Body? {
        TransactionAdded(inputs, mails, e, Step(Run(earlier).value.0, e).1.value);
      } else {
        assert mails + [] == mails && inputs + [] == inputs;
        TransactionsStay(inputs, mails, e);
      }
    }
  }

  lemma {:induction false} OneMoreEvent(earlier: seq<Event>, e: Event)
    requires Run(earlier + [e]).Some?
    ensures Run(earlier).Some? && Enabled(Run(earlier).value.0, e)
    ensures e.Body? ==> IsTransaction(Inputs(earlier) + [e], |Inputs(earlier)|, Step(Run(earlier).value.0, e).1.value)
    ensures e.Body? <==> Step(Run(earlier).value.0, e).1.Some?
  {
    assert (earlier + [e])[..|earlier|] == earlier;
    if e.Body? {
      RunDescribes(earlier);
      BodyDescribes(Run(earlier).value.0, Inputs(earlier), e.lines);
    }
  }

  // What a line or a body is answered with, after these inputs.
  ghost function Answer(inputs: seq<Event>, e: Event): nat {
    if !e.Line? then 250 else
    match e.command
    case Quit => 221
    case Unknown => 500
    case Helo(valid) => if HasOpen(inputs) then 503 else if valid then 250 else 501
    case MailFrom(valid, _) => if !Greeted(inputs) || HasOpen(inputs) then 503 else if valid then 250 else 501
    case RcptTo(valid, _) => if !HasOpen(inputs) then 503 else if valid then 250 else 501
    case Data => if exists a: nat :: Open(inputs, a) && Rcpts(inputs, a) != {} then 354 else 503
  }

  lemma OpenIsGreeted(inputs: seq<Event>)
    requires HasOpen(inputs)
    ensures Greeted(inputs)
  {
    hide Greeted;
    var a: nat :| Open(inputs, a);
    OpenIsInside(inputs, a);
  }

  lemma DataAnswer(s: Session, inputs: seq<Event>)
    requires Describes(s, inputs) && s.point == Reading(Recipients)
    ensures (exists a: nat :: Open(inputs, a) && Rcpts(inputs, a) != {}) <==> s.mail.recipients != {}
  {
    hide Rcpts, Open, Greeted;
    var a: nat :| Open(inputs, a) && s.mail.recipients == Rcpts(inputs, a);
    forall b: nat | Open(inputs, b)
      ensures b == a
    {
      OpenIsUnique(inputs, a, b);
    }
  }

  lemma StepAnswers(s: Session, inputs: seq<Event>, e: Event)
    requires Describes(s, inputs) && Enabled(s, e) && (e.Line? || e.Body?)
    ensures Step(s, e).0.replies == s.replies + [Answer(inputs, e)]
  {
    hide Greeted, HasOpen, MakesMail, Rcpts;
    if e.Line? {
      if s.point == Reading(Recipients) {
        DataAnswer(s, inputs);
        OpenIsGreeted(inputs);
      } else {
        NoneOpen(inputs);
      }
    }
  }

  lemma NoneOpen(inputs: seq<Event>)
    requires !HasOpen(inputs)
    ensures !exists a: nat :: Open(inputs, a) && Rcpts(inputs, a) != {}
  {
  }

  /**
    Behind the greeting the replies answer the lines and bodies read, one each and in order, and each code is
    determined by the inputs before: whether HELO has been given, whether a transaction is open, and for DATA
    whether it has a recipient.
   */
  lemma {:induction false} RepliesAnswerInputs(events: seq<Event>)
    requires Run(events).Some?
    ensures var replies, inputs := Run(events).value.0.replies, Inputs(events);
            && |replies| == 1 + |inputs| && replies[0] == 220
            && forall i | 0 <= i < |inputs| :: replies[i + 1] == Answer(inputs[..i], inputs[i])
  {
    if events != [] {
      hide Answer, Describes, Enabled;
      var earlier, e := events[..|events| - 1], events[|events| - 1];
      RepliesAnswerInputs(earlier);
      var s, inputs := Run(earlier).value.0, Inputs(earlier);
      if e.Line? || e.Body? {
        RunDescribes(earlier);
        assert Live(s) by { ReadsWhileLive(s, e); }
        StepAnswers(s, inputs, e);
        assert forall i | 0 <= i <= |inputs| :: (inputs + [e])[..i] == inputs[..i];
      } else {
        SilentStep(s, e);
        assert inputs + [] == inputs;
      }
    }
  }

  lemma ReadsWhileLive(s: Session, e: Event)
    requires Enabled(s, e) && (e.Line? || e.Body?)
    ensures Live(s)
  {
  }

  lemma SilentStep(s: Session, e: Event)
    requires Enabled(s, e) && (e.Sent? || e.Broken?)
    ensures Step(s, e).0.replies == s.replies
  {
  }

  // ----- Turns and end -----

  // The connection is lost, or QUIT has been read and its reply written.
  predicate EndsAt(events: seq<Event>, k: nat) {
    k < |events| && (events[k] == Broken || (events[k] == Line(Quit) && k + 1 < |events|))
  }

  predicate Over(events: seq<Event>) {
    exists k | 0 <= k < |events| :: EndsAt(events, k)
  }

  predicate LastIs(events: seq<Event>, e: Event) {
    events != [] && events[|events| - 1] == e
  }

  lemma OverGrows(events: seq<Event>, e: Event)
    ensures Over(events + [e]) <==> Over(events) || e == Broken || LastIs(events, Line(Quit))
  {
    var more := events + [e];
    forall k: nat | k < |events|
      ensures EndsAt(more, k) <==> EndsAt(events, k) || (k == |events| - 1 && events[k] == Line(Quit))
    {
      assert more[k] == events[k];
    }
    assert EndsAt(more, |events|) <==> e == Broken;
    hide EndsAt;
    if Over(events) {
      var k :| 0 <= k < |events| && EndsAt(events, k);
      assert EndsAt(more, k);
    }
    if LastIs(events, Line(Quit)) {
      assert EndsAt(more, |events| - 1);
    }
  }

  // Where the last event leaves a session.
  predicate InTurn(s: Session, events: seq<Event>) {
    && (s.point.Ended? <==> Over(events))
    && (!Over(events) ==> (s.point.Reading? <==> LastIs(events, Sent)))
    && (!Over(events) ==> (s.point.Closing? <==> LastIs(events, Line(Quit))))
  }

  lemma TurnsChange(s: Session, events: seq<Event>, e: Event)
    requires InTurn(s, events) && Enabled(s, e)
    ensures InTurn(Step(s, e).0, events + [e])
  {
    OverGrows(events, e);
    hide Over;
  }

  lemma {:induction false} RunInTurn(events: seq<Event>)
    requires Run(events).Some?
    ensures InTurn(Run(events).value.0, events)
  {
    if events != [] {
      hide InTurn, Step, Enabled;
      var earlier, e := events[..|events| - 1], events[|events| - 1];
      RunInTurn(earlier);
      assert earlier + [e] == events;
      TurnsChange(Run(earlier).value.0, earlier, e);
    }
  }

  /**
    A session has ended exactly if its connection was lost, or QUIT was read and its reply written; before that it
    reads a line exactly when the reply before has been written.
   */
  lemma {:induction false} EndsExactly(events: seq<Event>)
    requires Run(events).Some?
    ensures var s := Run(events).value.0;
            && (s.point.Ended? <==> Broken in events || exists k | 0 <= k < |events| - 1 :: events[k] == Line(Quit))
            && (!s.point.Ended? ==> (s.point.Reading? <==> events != [] && events[|events| - 1] == Sent))
  {
    RunInTurn(events);
    if Broken in events {
      var k :| 0 <= k < |events| && events[k] == Broken;
      assert EndsAt(events, k);
    }
    forall k | 0 <= k < |events| - 1 && events[k] == Line(Quit)
      ensures Over(events)
    {
      assert EndsAt(events, k);
    }
  }

  lemma {:induction false} RunBefore(events: seq<Event>, t: nat)
    requires Run(events).Some? && t <= |events|
    ensures Run(events[..t]).Some? && (t < |events| ==> Enabled(Run(events[..t]).value.0, events[t]))
    decreases |events|
  {
    hide Step, Enabled;
    if t == |events| {
      assert events[..t] == events;
    } else {
      var earlier := events[..|events| - 1];
      assert earlier[..t] == events[..t];
      RunBefore(earlier, t);
    }
  }

  /**
    QUIT, in whatever state, is the last input a session reads. It is answered 221 and followed by one more event,
    the written reply or a lost connection, which ends the session.
   */
  lemma {:induction false} QuitEnds(events: seq<Event>, k: nat)
    requires Run(events).Some? && k < |events| && events[k] == Line(Quit)
    ensures |events| <= k + 2
    ensures var s := Run(events).value.0;
            && s.replies != [] && s.replies[|s.replies| - 1] == 221 && !s.point.Reading?
            && (s.point.Ended? <==> |events| == k + 2)
  {
    RunInTurn(events);
    if k + 2 <= |events| {
      var upTo := events[..k + 2];
      RunBefore(events, k + 2);
      RunInTurn(upTo);
      assert upTo[k] == Line(Quit) && EndsAt(upTo, k) && Over(upTo);
      assert |events| == k + 2;
      assert upTo == events;
    }
    QuitReply(events, k);
  }

  lemma {:induction false} RunUnrolls(events: seq<Event>)
    requires events != [] && Run(events).Some?
    ensures var before, e := Run(events[..|events| - 1]), events[|events| - 1];
            before.Some? && Enabled(before.value.0, e) && Run(events).value.0 == Step(before.value.0, e).0
  {
    hide Step, Enabled;
  }

  lemma StepsAtQuit(s: Session, e: Event)
    requires Enabled(s, e)
    ensures e == Line(Quit) ==> Step(s, e).0.replies == s.replies + [221] && Step(s, e).0.point == Closing
    ensures s.point == Closing ==> Step(s, e).0.replies == s.replies && Step(s, e).0.point == Ended
  {
  }

  lemma {:induction false} QuitReply(events: seq<Event>, k: nat)
    requires Run(events).Some? && k < |events| <= k + 2 && events[k] == Line(Quit)
    ensures var s := Run(events).value.0; s.replies != [] && s.replies[|s.replies| - 1] == 221
    ensures |events| == k + 1 ==> Run(events).value.0.point == Closing
  {
    hide Run, Step, Enabled;
    var upTo := events[..k + 1];
    RunBefore(events, k + 1);
    RunUnrolls(upTo);
    StepsAtQuit(Run(upTo[..k]).value.0, upTo[k]);
    if |events| == k + 2 {
      RunUnrolls(events);
      assert events[..|events| - 1] == upTo;
      StepsAtQuit(Run(upTo).value.0, events[k + 1]);
    } else {
      assert events == upTo;
    }
  }
}
