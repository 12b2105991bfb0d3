/** One IMAP session over the shared storage, from one suspension to the next. */
module Imap {
  import opened Maildrops

  // A request line, classified. `rootReference` says that the reference of LIST is empty or "/".
  datatype Command =
    | Login(name: string)
    | List(rootReference: bool, mailbox: string)
    | Logout
    | TagUnknown
    | Unknown

  datatype Phase = Unauthenticated | Authenticated | LoggedOut

  // A tagged reply names, by its tag, the request it answers.
  datatype Reply =
    | Greeting | Ok(to: Command) | No(to: Command) | BadTag(to: Command) | Bad | Bye | ListLine(mailbox: string)

  // SayOk has the tagged OK still to write. Listing is an iteration at position `index` of its order.
  datatype Point =
    | Reading(phase: Phase)
    | Replying(next: Phase)
    | SayOk(to: Command, next: Phase)
    | Listing(order: seq<string>, index: nat)
    | Ended

  // `order` is the order in which an iteration over the mailboxes, if the line starts one, finds them.
  datatype Event = Sent | Line(command: Command, order: seq<string>) | Broken

  datatype Session = Session(point: Point, user: string, out: seq<Reply>)

  const START := Session(Replying(Unauthenticated), "", [Greeting])

  const LIST_ALL := List(true, "*")

  function Elements(names: seq<string>): set<string> {
    set name | name in names
  }

  // The names in some order, each once.
  predicate IsOrder(order: seq<string>, names: set<string>) {
    Elements(order) == names && forall i, j | 0 <= i < j < |order| :: order[i] != order[j]
  }

  // An unordered map has its names in an unknown order, but at any one moment it has just those.
  predicate Enabled(drops: Drops, s: Session, e: Event) {
    match e
    case Sent => s.point.Replying? || s.point.SayOk? || s.point.Listing?
    case Line(command, order) =>
      || s.point == Reading(Unauthenticated)
      || (s.point == Reading(Authenticated)
          && (command == LIST_ALL && s.user in drops ==> IsOrder(order, drops[s.user].mails.Keys)))
    case Broken => !s.point.Ended?
  }

  function Write(s: Session, reply: Reply, point: Point): Session {
    s.(point := point, out := s.out + [reply])
  }

  function Qualified(name: string): string {
    if '@' in name then name else name + "@" + HOST_NAME
  }

  // The iteration writes the mailbox at the index, or has come to its end.
  function ListFrom(s: Session, order: seq<string>, index: nat): Session {
    if index < |order| then Write(s, ListLine(order[index]), Listing(order, index))
    else Write(s, Ok(LIST_ALL), Replying(Authenticated))
  }

  function OnLine(drops: Drops, s: Session, command: Command, order: seq<string>): Session
    requires s.point.Reading?
  {
    var phase := s.point.phase;
    match command
    case Login(name) =>
      if phase != Unauthenticated then Write(s, Bad, Replying(phase))
      else if Qualified(name) !in drops then Write(s, No(command), Replying(phase))
      else Write(s.(user := Qualified(name)), Ok(command), Replying(Authenticated))
    case List(rootReference, mailbox) =>
      if phase != Authenticated then Write(s, Bad, Replying(phase))
      else if !rootReference then Write(s, Ok(command), Replying(phase))
      else if s.user !in drops then s.(point := Ended)
      else if mailbox == "*" then ListFrom(s, order, 0)
      else if mailbox in drops[s.user].mails then Write(s, ListLine(mailbox), SayOk(command, phase))
      else Write(s, Ok(command), Replying(phase))
    case Logout => Write(s, Bye, SayOk(command, LoggedOut))
    case TagUnknown => Write(s, BadTag(command), Replying(phase))
    case Unknown => Write(s, Bad, Replying(phase))
  }

  function Step(drops: Drops, s: Session, e: Event): Session
    requires Enabled(drops, s, e)
  {
    match e
    case Broken => s.(point := Ended)
    case Line(command, order) => OnLine(drops, s, command, order)
    case Sent =>
      match s.point
      case Listing(order, index) => ListFrom(s, order, index + 1)
      case SayOk(command, phase) => Write(s, Ok(command), Replying(phase))
      case Replying(phase) => s.(point := if phase == LoggedOut then Ended else Reading(phase))
      case _ => s
  }

  /** The session object. It reads the shared storage and never changes it. */
  class ImapSession {
    var point: Point
    var user: string
    var out: seq<Reply>

    constructor ()
      ensures View() == START
    {
      point, user, out := Replying(Unauthenticated), "", [Greeting];
    }

    function View(): Session
      reads this
    {
      Session(point, user, out)
    }

    method Respond(reply: Reply, next: Point)
      modifies this
      ensures View() == Write(old(View()), reply, next)
    {
      out := out + [reply];
      point := next;
    }

    method Resume(storage: Storage, e: Event)
      requires Enabled(storage.maildrops, View(), e)
      modifies this
      ensures View() == Step(storage.maildrops, old(View()), e)
    {
      match e {
        case Broken =>
          point := Ended;
        case Line(command, order) =>
          if point.phase == Unauthenticated {
            Authenticate(storage, command, order);
          } else {
            Serve(storage, command, order);
          }
        case Sent =>
          if point.Listing? {
            Iterate(point.order, point.index + 1);
          } else if point.SayOk? {
            Respond(Ok(point.to), Replying(point.next));
          } else if point.next == LoggedOut {
            point := Ended;
          } else {
            point := Reading(point.next);
          }
      }
    }

    method Authenticate(storage: Storage, command: Command, ghost order: seq<string>)
      requires point == Reading(Unauthenticated)
      modifies this
      ensures View() == OnLine(storage.maildrops, old(View()), command, order)
    {
      match command {
        case Login(name) =>
          var triedUser := name;
          if '@' !in triedUser {
            triedUser := triedUser + "@" + HOST_NAME;
          }
          if triedUser !in storage.maildrops {
            Respond(No(command), Replying(Unauthenticated));
          } else {
            user := triedUser;
            Respond(Ok(command), Replying(Authenticated));
          }
        case Logout =>
          Respond(Bye, SayOk(command, LoggedOut));
        case TagUnknown =>
          Respond(BadTag(command), Replying(Unauthenticated));
        case List(_, _) =>
          Respond(Bad, Replying(Unauthenticated));
        case Unknown =>
          Respond(Bad, Replying(Unauthenticated));
      }
    }

    method Serve(storage: Storage, command: Command, order: seq<string>)
      requires point == Reading(Authenticated)
      modifies this
      ensures View() == OnLine(storage.maildrops, old(View()), command, order)
    {
      match command {
        case List(rootReference, mailbox) =>
          if !rootReference {
            Respond(Ok(command), Replying(Authenticated));
          } else if user !in storage.maildrops {
            point := Ended;
          } else if mailbox == "*" {
            Iterate(order, 0);
          } else if mailbox in storage.maildrops[user].mails {
            Respond(ListLine(mailbox), SayOk(command, Authenticated));
          } else {
            Respond(Ok(command), Replying(Authenticated));
          }
        case Logout =>
          Respond(Bye, SayOk(command, LoggedOut));
        case TagUnknown =>
          Respond(BadTag(command), Replying(Authenticated));
        case Login(_) =>
          Respond(Bad, Replying(Authenticated));
        case Unknown =>
          Respond(Bad, Replying(Authenticated));
      }
    }

    method Iterate(order: seq<string>, index: nat)
      modifies this
      ensures View() == ListFrom(old(View()), order, index)
    {
      if index < |order| {
        Respond(ListLine(order[index]), Listing(order, index));
      } else {
        Respond(Ok(LIST_ALL), Replying(Authenticated));
      }
    }
  }
}
