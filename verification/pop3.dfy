/** One POP3 session over the shared storage, from one suspension to the next. */
module Pop3 {
  import opened Maildrops
  import opened Options

  // A request line, classified; LIST may carry a message number.
  datatype Command = User(name: string) | Pass | List(number: Option<nat>) | Quit | Unknown

  datatype Phase = Authorization | Transaction | SignedOff

  datatype Reply =
    | Greeting | Positive | Negative | NoSuchUser | AlreadyLocked | SigningOff
    | ListOk(count: nat, octets: int) | ListOne(number: nat, size: nat)
    | ListEntry(number: nat, size: nat) | ListEnd

  datatype Point = Reading(phase: Phase) | Replying(next: Phase) | ListHeader | ListLine(index: nat) | Ended

  datatype Event = Sent | Line(command: Command) | Broken

  // `lock` names the maildrop whose lock the session's lock object holds.
  datatype Session = Session(point: Point, user: string, lock: Option<string>, out: seq<Reply>)

  const START := Session(Replying(Authorization), "", None, [Greeting])

  const MAX_INT := 0x7fff_ffff

  predicate Enabled(s: Session, e: Event) {
    match e
    case Sent => s.point.Replying? || s.point.ListHeader? || s.point.ListLine?
    case Line(_) => s.point == Reading(Authorization) || s.point == Reading(Transaction)
    case Broken => !s.point.Ended?
  }

  function Write(s: Session, reply: Reply, point: Point): Session {
    s.(point := point, out := s.out + [reply])
  }

  // The session ends, by QUIT or by an exception, and its lock object unlocks what it holds.
  function End(drops: Drops, s: Session): (Drops, Session) {
    (if s.lock.Some? && s.lock.value in drops then SetLock(drops, s.lock.value, false) else drops,
     s.(point := Ended, lock := None))
  }

  function OnAuthorization(drops: Drops, s: Session, command: Command): (Drops, Session) {
    match command
    case User(name) =>
      if s.user != "" then (drops, Write(s, Negative, Replying(Authorization)))
      else if name !in drops then (drops, Write(s, NoSuchUser, Replying(Authorization)))
      else (drops, Write(s.(user := name), Positive, Replying(Authorization)))
    case Pass =>
      if s.user == "" then (drops, Write(s, Negative, Replying(Authorization)))
      else if s.user !in drops then End(drops, s)
      else if drops[s.user].locked then (drops, Write(s, AlreadyLocked, Replying(Authorization)))
      else (SetLock(drops, s.user, true), Write(s.(lock := Some(s.user)), Positive, Replying(Transaction)))
    case Quit => (drops, Write(s, SigningOff, Replying(SignedOff)))
    case _ => (drops, Write(s, Negative, Replying(Authorization)))
  }

  function OnTransaction(drops: Drops, s: Session, command: Command): (Drops, Session) {
    match command
    case List(number) =>
      // Indexing makes a missing maildrop, and a missing INBOX is an exception.
      var drops := if s.user in drops then drops else drops[s.user := NO_MAILDROP];
      if INBOX !in drops[s.user].mails then End(drops, s)
      else
        var inbox := drops[s.user].mails[INBOX];
        if number.None? then (drops, Write(s, ListOk(|inbox|, Octets(inbox)), ListHeader))
        else if number.value > MAX_INT then End(drops, s)
        else if number.value < 1 || number.value > |inbox| % 0x1_0000_0000 then
          (drops, Write(s, Negative, Replying(Transaction)))
        else
          (drops, Write(s, ListOne(number.value, MessageSize(inbox[number.value - 1].message)), Replying(Transaction)))
    case Quit => (drops, Write(s, SigningOff, Replying(SignedOff)))
    case _ => (drops, Write(s, Negative, Replying(Transaction)))
  }

  // The loop test of LIST, made again on the inbox as it is now.
  function ListFrom(drops: Drops, s: Session, index: nat): (Drops, Session) {
    if s.user !in drops || INBOX !in drops[s.user].mails then End(drops, s)
    else
      var inbox := drops[s.user].mails[INBOX];
      if index < |inbox| then
        (drops, Write(s, ListEntry(index + 1, MessageSize(inbox[index].message)), ListLine(index)))
      else (drops, Write(s, ListEnd, Replying(Transaction)))
  }

  function Step(drops: Drops, s: Session, e: Event): (Drops, Session)
    requires Enabled(s, e)
  {
    match e
    case Broken => End(drops, s)
    case Line(command) =>
      if s.point.phase == Authorization then OnAuthorization(drops, s, command) else OnTransaction(drops, s, command)
    case Sent =>
      if s.point.ListHeader? then ListFrom(drops, s, 0)
      else if s.point.ListLine? then ListFrom(drops, s, s.point.index + 1)
      else if s.point.next == SignedOff then End(drops, s)
      else (drops, s.(point := Reading(s.point.next)))
  }

  method GetMessageSize(message: seq<string>) returns (size: nat)
    ensures size == MessageSize(message)
  {
    size := 0;
    for i := 0 to |message|
      invariant size == MessageSize(message[..i])
    {
      assert message[..i + 1][..i] == message[..i];
      size := size + |message[i]|;
    }
    assert message[..|message|] == message;
  }

  method AccumulateOctets(inbox: seq<Mail>) returns (octets: int)
    ensures octets == Octets(inbox)
  {
    octets := 0;
    for i := 0 to |inbox|
      invariant octets == Octets(inbox[..i])
    {
      assert inbox[..i + 1][..i] == inbox[..i];
      var size := GetMessageSize(inbox[i].message);
      octets := ToInt32(octets + size);
    }
    assert inbox[..|inbox|] == inbox;
  }

  /** The session object: its local variables, its lock object, and one method for what runs between two suspensions. */
  class Pop3Session {
    var point: Point
    var user: string
    var lock: Option<string>
    var out: seq<Reply>

    constructor ()
      ensures View() == START
    {
      point, user, lock, out := Replying(Authorization), "", None, [Greeting];
    }

    function View(): Session
      reads this
    {
      Session(point, user, lock, out)
    }

    method Respond(reply: Reply, next: Point)
      modifies this
      ensures View() == Write(old(View()), reply, next)
    {
      out := out + [reply];
      point := next;
    }

    method Finish(storage: Storage)
      modifies this, storage
      ensures (storage.maildrops, View()) == End(old(storage.maildrops), old(View()))
    {
      if lock.Some? && lock.value in storage.maildrops {
        storage.maildrops := SetLock(storage.maildrops, lock.value, false);
      }
      lock := None;
      point := Ended;
    }

    method Resume(storage: Storage, e: Event)
      requires Enabled(View(), e)
      modifies this, storage
      ensures (storage.maildrops, View()) == Step(old(storage.maildrops), old(View()), e)
    {
      match e {
        case Broken =>
          Finish(storage);
        case Line(command) =>
          if point.phase == Authorization {
            Authorize(storage, command);
          } else {
            Transact(storage, command);
          }
        case Sent =>
          if point.ListHeader? {
            ListNext(storage, 0);
          } else if point.ListLine? {
            ListNext(storage, point.index + 1);
          } else if point.next == SignedOff {
            Finish(storage);
          } else {
            point := Reading(point.next);
          }
      }
    }

    method Authorize(storage: Storage, command: Command)
      modifies this, storage
      ensures (storage.maildrops, View()) == OnAuthorization(old(storage.maildrops), old(View()), command)
    {
      match command {
        case User(name) =>
          if user != "" {
            Respond(Negative, Replying(Authorization));
          } else if name !in storage.maildrops {
            Respond(NoSuchUser, Replying(Authorization));
          } else {
            user := name;
            Respond(Positive, Replying(Authorization));
          }
        case Pass =>
          if user == "" {
            Respond(Negative, Replying(Authorization));
            return;
          }
          if user !in storage.maildrops {
            Finish(storage);
            return;
          }
          var hasTransaction := !storage.maildrops[user].locked;
          if !hasTransaction {
            Respond(AlreadyLocked, Replying(Authorization));
            return;
          }
          storage.maildrops := SetLock(storage.maildrops, user, true);
          lock := Some(user);
          Respond(Positive, Replying(Transaction));
        case Quit =>
          Respond(SigningOff, Replying(SignedOff));
        case List(_) =>
          Respond(Negative, Replying(Authorization));
        case Unknown =>
          Respond(Negative, Replying(Authorization));
      }
    }

    method Transact(storage: Storage, command: Command)
      modifies this, storage
      ensures (storage.maildrops, View()) == OnTransaction(old(storage.maildrops), old(View()), command)
    {
      match command {
        case List(number) =>
          if user !in storage.maildrops {
            storage.maildrops := storage.maildrops[user := NO_MAILDROP];
          }
          if INBOX !in storage.maildrops[user].mails {
            Finish(storage);
            return;
          }
          var inbox := storage.maildrops[user].mails[INBOX];
          if number.Some? {
            if number.value > MAX_INT {
              Finish(storage);
            } else if number.value < 1 || number.value > |inbox| % 0x1_0000_0000 {
              Respond(Negative, Replying(Transaction));
            } else {
              var size := GetMessageSize(inbox[number.value - 1].message);
              Respond(ListOne(number.value, size), Replying(Transaction));
            }
            return;
          }
          var octets := AccumulateOctets(inbox);
          Respond(ListOk(|inbox|, octets), ListHeader);
        case Quit =>
          Respond(SigningOff, Replying(SignedOff));
        case User(_) =>
          Respond(Negative, Replying(Transaction));
        case Pass =>
          Respond(Negative, Replying(Transaction));
        case Unknown =>
          Respond(Negative, Replying(Transaction));
      }
    }

    method ListNext(storage: Storage, index: nat)
      modifies this, storage
      ensures (storage.maildrops, View()) == ListFrom(old(storage.maildrops), old(View()), index)
    {
      if user !in storage.maildrops || INBOX !in storage.maildrops[user].mails {
        Finish(storage);
        return;
      }
      var inbox := storage.maildrops[user].mails[INBOX];
      if index < |inbox| {
        var size := GetMessageSize(inbox[index].message);
        Respond(ListEntry(index + 1, size), ListLine(index));
      } else {
        Respond(ListEnd, Replying(Transaction));
      }
    }
  }
}
