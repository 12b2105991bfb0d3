/**
  The whole mail server: any number of SMTP, POP3 and IMAP sessions that take turns on one storage. The single
  thread of the program runs one session from one suspension to the next before it looks at another, and any
  suspension may end in an exception.
 */
module MailServer {
  import opened Options
  import opened Maildrops
  import Smtp
  import Pop3
  import Imap

  datatype Session =
    | SmtpSide(smtpSession: Smtp.Session)
    | Pop3Side(pop3Session: Pop3.Session)
    | ImapSide(imapSession: Imap.Session)

  // `delivered` records which session delivered which mail, in order.
  datatype Server = Server(drops: Drops, sessions: map<nat, Session>, delivered: seq<(nat, Mail)>)

  datatype Protocol = SMTP | POP3 | IMAP

  datatype Action =
    | Accept(id: nat, protocol: Protocol)
    | ResumeSmtp(id: nat, smtpEvent: Smtp.Event)
    | ResumePop3(id: nat, pop3Event: Pop3.Event)
    | ResumeImap(id: nat, imapEvent: Imap.Event)

  const GREETINGS := Mail("test@localhost", {"test@localhost"},
                          ["Date: today", "To: liia@localhost", "From: test@localhost", "Subject: Greetings", "",
                           "Hello, from SMTP", "."])

  const INITIAL_DROPS: Drops :=
    map["liia@localhost" := Maildrop(map[INBOX := [GREETINGS], "Sent" := [NO_MAIL]], false),
        "test@localhost" := Maildrop(map[INBOX := [NO_MAIL]], false)]

  const START := Server(INITIAL_DROPS, map[], [])

  /** `main` fills the new storage before it listens. */
  method FillStorage(storage: Storage)
    requires storage.maildrops == map[]
    modifies storage
    ensures storage.maildrops == INITIAL_DROPS
  {
    var liia, test := "liia@localhost", "test@localhost";
    assert liia[0] != test[0] && |INBOX| != |"Sent"|;
    storage.PushBack(liia, INBOX, GREETINGS);
    assert storage.maildrops[liia].mails[INBOX] == [GREETINGS];
    storage.PushBack(liia, "Sent", NO_MAIL);
    assert storage.maildrops[liia].mails["Sent"] == [NO_MAIL];
    storage.PushBack(test, INBOX, NO_MAIL);
    assert storage.maildrops[test].mails[INBOX] == [NO_MAIL];
  }

  predicate Enabled(server: Server, action: Action) {
    match action
    case Accept(id, _) => id !in server.sessions
    case ResumeSmtp(id, e) =>
      id in server.sessions && server.sessions[id].SmtpSide? && Smtp.Enabled(server.sessions[id].smtpSession, e)
    case ResumePop3(id, e) =>
      id in server.sessions && server.sessions[id].Pop3Side? && Pop3.Enabled(server.sessions[id].pop3Session, e)
    case ResumeImap(id, e) =>
      && id in server.sessions && server.sessions[id].ImapSide?
      && Imap.Enabled(server.drops, server.sessions[id].imapSession, e)
  }

  function NewSession(protocol: Protocol): Session {
    match protocol
    case SMTP => SmtpSide(Smtp.START)
    case POP3 => Pop3Side(Pop3.START)
    case IMAP => ImapSide(Imap.START)
  }

  function Step(server: Server, action: Action): Server
    requires Enabled(server, action)
  {
    match action
    case Accept(id, protocol) => server.(sessions := server.sessions[id := NewSession(protocol)])
    case ResumeSmtp(id, e) =>
      var (s, mail) := Smtp.Step(server.sessions[id].smtpSession, e);
      Server(Smtp.Delivered(server.drops, mail), server.sessions[id := SmtpSide(s)],
             server.delivered + if mail.Some? then [(id, mail.value)] else [])
    case ResumePop3(id, e) =>
      var (drops, s) := Pop3.Step(server.drops, server.sessions[id].pop3Session, e);
      server.(drops := drops, sessions := server.sessions[id := Pop3Side(s)])
    case ResumeImap(id, e) =>
      server.(sessions := server.sessions[id := ImapSide(Imap.Step(server.drops, server.sessions[id].imapSession, e))])
  }

  function Run(actions: seq<Action>): Option<Server> {
    if actions == [] then Some(START) else
    var before := Run(actions[..|actions| - 1]);
    var last := actions[|actions| - 1];
    if before.Some? && Enabled(before.value, last) then Some(Step(before.value, last)) else None
  }

  lemma {:induction false} LastStep(actions: seq<Action>)
    requires actions != [] && Run(actions).Some?
    ensures var before, last := Run(actions[..|actions| - 1]), actions[|actions| - 1];
            before.Some? && Enabled(before.value, last) && Run(actions).value == Step(before.value, last)
  {
    hide Step, Enabled, START, INITIAL_DROPS, GREETINGS;
  }

  ghost predicate Reachable(server: Server) {
    exists actions :: Run(actions) == Some(server)
  }

  // ----- POP3 LIST -----

  // The replies from index h on are a LIST header and m entries that are right for the inbox.
  ghost predicate Listed(inbox: seq<Mail>, out: seq<Pop3.Reply>, h: nat, m: nat) {
    && h + m < |out| && out[h].ListOk?
    && out[h].count <= |inbox| && out[h].octets == Octets(inbox[..out[h].count])
    && m <= |inbox|
    && forall j | 0 <= j < m :: out[h + 1 + j] == Pop3.ListEntry(j + 1, MessageSize(inbox[j].message))
  }

  // A LIST that has been answered to its end at index e.
  ghost predicate ListedUpTo(inbox: seq<Mail>, out: seq<Pop3.Reply>, e: nat) {
    exists h: nat :: h < e && Listed(inbox, out, h, e - h - 1) && out[h].count <= e - h - 1
  }

  ghost predicate ListsAreRight(inbox: seq<Mail>, out: seq<Pop3.Reply>) {
    forall e: nat | e < |out| && out[e] == Pop3.ListEnd :: ListedUpTo(inbox, out, e)
  }

  // A LIST in progress.
  ghost predicate ListInProgress(inbox: seq<Mail>, s: Pop3.Session) {
    && (s.point.ListHeader? ==> |s.out| >= 1 && Listed(inbox, s.out, |s.out| - 1, 0))
    && (s.point.ListLine? ==>
          |s.out| >= s.point.index + 2 && Listed(inbox, s.out, |s.out| - s.point.index - 2, s.point.index + 1))
  }

  predicate InTransaction(point: Pop3.Point) {
    || point == Pop3.Reading(Pop3.Transaction) || point == Pop3.Replying(Pop3.Transaction)
    || point.ListHeader? || point.ListLine?
  }

  predicate BeforeTransaction(point: Pop3.Point) {
    point == Pop3.Reading(Pop3.Authorization) || point == Pop3.Replying(Pop3.Authorization)
  }

  ghost predicate Pop3Inv(drops: Drops, s: Pop3.Session) {
    && (s.user != "" ==> s.user in drops)
    && (s.user == "" ==> Pop3.ListEnd !in s.out)
    && (s.lock.Some? ==> s.lock.value == s.user != "")
    && (InTransaction(s.point) ==> s.lock.Some?)
    && (BeforeTransaction(s.point) || s.point.Ended? ==> s.lock.None?)
    && ListInProgress(Inbox(drops, s.user), s)
    && ListsAreRight(Inbox(drops, s.user), s.out)
  }

  lemma ListedStays(inbox: seq<Mail>, inbox': seq<Mail>, out: seq<Pop3.Reply>, more: seq<Pop3.Reply>, h: nat, m: nat)
    requires Listed(inbox, out, h, m) && inbox <= inbox'
    ensures Listed(inbox', out + more, h, m)
  {
    assert inbox'[..out[h].count] == inbox[..out[h].count];
  }

  lemma ListsStayRight(inbox: seq<Mail>, inbox': seq<Mail>, out: seq<Pop3.Reply>)
    requires ListsAreRight(inbox, out) && inbox <= inbox'
    ensures ListsAreRight(inbox', out)
  {
    forall e: nat | e < |out| && out[e] == Pop3.ListEnd
      ensures ListedUpTo(inbox', out, e)
    {
      var h: nat :| h < e && Listed(inbox, out, h, e - h - 1) && out[h].count <= e - h - 1;
      ListedStays(inbox, inbox', out, [], h, e - h - 1);
      assert out + [] == out;
    }
  }

  // One more reply keeps the answered lists right, if it is not an early end.
  lemma ReplyKeepsLists(inbox: seq<Mail>, out: seq<Pop3.Reply>, reply: Pop3.Reply)
    requires ListsAreRight(inbox, out)
    requires reply == Pop3.ListEnd ==> ListedUpTo(inbox, out + [reply], |out|)
    ensures ListsAreRight(inbox, out + [reply])
  {
    forall e: nat | e < |out + [reply]| && (out + [reply])[e] == Pop3.ListEnd
      ensures ListedUpTo(inbox, out + [reply], e)
    {
      if e < |out| {
        assert out[e] == Pop3.ListEnd;
        var h: nat :| h < e && Listed(inbox, out, h, e - h - 1) && out[h].count <= e - h - 1;
        ListedStays(inbox, inbox, out, [reply], h, e - h - 1);
      }
    }
  }

  lemma Pop3InvStays(drops: Drops, drops': Drops, s: Pop3.Session)
    requires Pop3Inv(drops, s) && Grows(drops, drops')
    ensures Pop3Inv(drops', s)
  {
    hide Listed, ListsAreRight, Grows;
    GrowsInbox(drops, drops', s.user);
    var inbox, inbox' := Inbox(drops, s.user), Inbox(drops', s.user);
    ListsStayRight(inbox, inbox', s.out);
    assert s.out + [] == s.out;
    if s.point.ListHeader? {
      ListedStays(inbox, inbox', s.out, [], |s.out| - 1, 0);
    } else if s.point.ListLine? {
      ListedStays(inbox, inbox', s.out, [], |s.out| - s.point.index - 2, s.point.index + 1);
    }
  }

  lemma GrowsInbox(drops: Drops, drops': Drops, user: string)
    requires Grows(drops, drops')
    ensures user in drops ==> user in drops'
    ensures Inbox(drops, user) <= Inbox(drops', user)
  {
  }

  // What a POP3 session does to the locks: nothing, or take its user's free lock, or release the one it holds.
  ghost predicate LockMoves(drops: Drops, drops': Drops, lock: Option<string>, lock': Option<string>) {
    || (drops' == drops && lock' == lock)
    || (lock.None? && lock'.Some? && lock'.value in drops && !drops[lock'.value].locked
        && drops' == SetLock(drops, lock'.value, true))
    || (lock.Some? && lock'.None? && lock.value in drops && drops' == SetLock(drops, lock.value, false))
  }

  lemma EndKeepsInv(drops: Drops, s: Pop3.Session)
    requires Pop3Inv(drops, s)
    ensures var (drops', s') := Pop3.End(drops, s);
            && Pop3Inv(drops', s') && LockMoves(drops, drops', s.lock, s'.lock)
  {
    hide Listed, ListsAreRight;
    if s.lock.Some? {
      LockGrows(drops, s.lock.value, false);
    }
  }

  lemma WriteKeepsInv(drops: Drops, s: Pop3.Session, reply: Pop3.Reply, point: Pop3.Point)
    requires Pop3Inv(drops, s) && !reply.ListEnd? && (point.Replying? || point.ListHeader?)
    requires (InTransaction(point) ==> s.lock.Some?) && (BeforeTransaction(point) ==> s.lock.None?)
    requires point.ListHeader? ==> Listed(Inbox(drops, s.user), s.out + [reply], |s.out|, 0)
    ensures Pop3Inv(drops, Pop3.Write(s, reply, point))
  {
    hide Listed, ListsAreRight;
    ReplyKeepsLists(Inbox(drops, s.user), s.out, reply);
  }

  lemma UserKeepsInv(drops: Drops, s: Pop3.Session, name: string)
    requires Pop3Inv(drops, s) && s.point == Pop3.Reading(Pop3.Authorization) && s.user == "" && name in drops
    ensures Pop3Inv(drops, Pop3.Write(s.(user := name), Pop3.Positive, Pop3.Replying(Pop3.Authorization)))
  {
    hide Listed;
    var s1 := s.(user := name);
    assert Pop3Inv(drops, s1);
    WriteKeepsInv(drops, s1, Pop3.Positive, Pop3.Replying(Pop3.Authorization));
  }

  lemma PassKeepsInv(drops: Drops, s: Pop3.Session)
    requires Pop3Inv(drops, s) && s.point == Pop3.Reading(Pop3.Authorization) && s.user != ""
    requires !drops[s.user].locked
    ensures Pop3Inv(SetLock(drops, s.user, true),
                    Pop3.Write(s.(lock := Some(s.user)), Pop3.Positive, Pop3.Replying(Pop3.Transaction)))
  {
    hide Listed, ListsAreRight;
    var drops' := SetLock(drops, s.user, true);
    LockGrows(drops, s.user, true);
    hide Grows;
    Pop3InvStays(drops, drops', s);
    var s1 := s.(lock := Some(s.user), point := Pop3.Reading(Pop3.Transaction));
    WriteKeepsInv(drops', s1, Pop3.Positive, Pop3.Replying(Pop3.Transaction));
  }

  lemma AuthorizationKeepsInv(drops: Drops, s: Pop3.Session, command: Pop3.Command)
    requires Pop3Inv(drops, s) && s.point == Pop3.Reading(Pop3.Authorization)
    ensures var (drops', s') := Pop3.OnAuthorization(drops, s, command);
            && Pop3Inv(drops', s') && LockMoves(drops, drops', s.lock, s'.lock)
  {
    hide Listed, ListsAreRight, ListInProgress;
    WriteKeepsInv(drops, s, Pop3.Negative, Pop3.Replying(Pop3.Authorization));
    match command
    case User(name) =>
      WriteKeepsInv(drops, s, Pop3.NoSuchUser, Pop3.Replying(Pop3.Authorization));
      if s.user == "" && name in drops {
        UserKeepsInv(drops, s, name);
      }
    case Pass =>
      WriteKeepsInv(drops, s, Pop3.AlreadyLocked, Pop3.Replying(Pop3.Authorization));
      if s.user != "" && !drops[s.user].locked {
        PassKeepsInv(drops, s);
      }
    case Quit => WriteKeepsInv(drops, s, Pop3.SigningOff, Pop3.Replying(Pop3.SignedOff));
    case _ =>
  }

  lemma TransactionKeepsInv(drops: Drops, s: Pop3.Session, command: Pop3.Command)
    requires Pop3Inv(drops, s) && EveryDropHasInbox(drops) && s.point == Pop3.Reading(Pop3.Transaction)
    ensures var (drops', s') := Pop3.OnTransaction(drops, s, command);
            && Pop3Inv(drops', s') && LockMoves(drops, drops', s.lock, s'.lock)
  {
    hide ListsAreRight;
    match command
    case List(number) =>
      EndKeepsInv(drops, s);
      WriteKeepsInv(drops, s, Pop3.Negative, Pop3.Replying(Pop3.Transaction));
      var inbox := Inbox(drops, s.user);
      if number.None? {
        assert inbox[..|inbox|] == inbox;
        WriteKeepsInv(drops, s, Pop3.ListOk(|inbox|, Octets(inbox)), Pop3.ListHeader);
      } else if 1 <= number.value <= |inbox| {
        WriteKeepsInv(drops, s, Pop3.ListOne(number.value, MessageSize(inbox[number.value - 1].message)),
                      Pop3.Replying(Pop3.Transaction));
      }
    case Quit => WriteKeepsInv(drops, s, Pop3.SigningOff, Pop3.Replying(Pop3.SignedOff));
    case _ => WriteKeepsInv(drops, s, Pop3.Negative, Pop3.Replying(Pop3.Transaction));
  }

  lemma EntryKeepsInv(drops: Drops, s: Pop3.Session, index: nat)
    requires Pop3Inv(drops, s) && s.user in drops && s.lock.Some? && index < |Inbox(drops, s.user)|
    requires index < |s.out| && Listed(Inbox(drops, s.user), s.out, |s.out| - index - 1, index)
    ensures Pop3Inv(drops, Pop3.Write(s, Pop3.ListEntry(index + 1, MessageSize(Inbox(drops, s.user)[index].message)),
                                      Pop3.ListLine(index)))
  {
    hide Octets, MessageSize, ListsAreRight;
    var inbox, h := Inbox(drops, s.user), |s.out| - index - 1;
    var reply := Pop3.ListEntry(index + 1, MessageSize(inbox[index].message));
    ListedStays(inbox, inbox, s.out, [reply], h, index);
    assert Listed(inbox, s.out + [reply], h, index + 1);
    ReplyKeepsLists(inbox, s.out, reply);
  }

  lemma ListEndKeepsInv(drops: Drops, s: Pop3.Session, index: nat)
    requires Pop3Inv(drops, s) && s.user in drops && s.lock.Some? && index == |Inbox(drops, s.user)|
    requires index < |s.out| && Listed(Inbox(drops, s.user), s.out, |s.out| - index - 1, index)
    ensures Pop3Inv(drops, Pop3.Write(s, Pop3.ListEnd, Pop3.Replying(Pop3.Transaction)))
  {
    hide Octets, MessageSize, ListsAreRight;
    var inbox, h := Inbox(drops, s.user), |s.out| - index - 1;
    ListedStays(inbox, inbox, s.out, [Pop3.ListEnd], h, index);
    assert ListedUpTo(inbox, s.out + [Pop3.ListEnd], |s.out|);
    ReplyKeepsLists(inbox, s.out, Pop3.ListEnd);
  }

  lemma ListKeepsInv(drops: Drops, s: Pop3.Session, index: nat)
    requires Pop3Inv(drops, s) && EveryDropHasInbox(drops)
    requires (s.point.ListHeader? && index == 0) || (s.point.ListLine? && index == s.point.index + 1)
    ensures var (drops', s') := Pop3.ListFrom(drops, s, index);
            && Pop3Inv(drops', s') && drops' == drops && s'.lock == s.lock
  {
    assert index <= |Inbox(drops, s.user)| && index < |s.out|;
    assert Listed(Inbox(drops, s.user), s.out, |s.out| - index - 1, index);
    assert s.user in drops && s.lock.Some?;
    hide Octets, MessageSize, ListsAreRight, Listed, Pop3Inv;
    if index < |Inbox(drops, s.user)| {
      EntryKeepsInv(drops, s, index);
    } else {
      ListEndKeepsInv(drops, s, index);
    }
  }

  lemma Pop3StepKeepsInv(drops: Drops, s: Pop3.Session, e: Pop3.Event)
    requires Pop3Inv(drops, s) && EveryDropHasInbox(drops) && Pop3.Enabled(s, e)
    ensures var (drops', s') := Pop3.Step(drops, s, e);
            && Pop3Inv(drops', s') && LockMoves(drops, drops', s.lock, s'.lock)
  {
    hide Listed, ListsAreRight;
    match e
    case Broken => EndKeepsInv(drops, s);
    case Line(command) =>
      if s.point.phase == Pop3.Authorization {
        AuthorizationKeepsInv(drops, s, command);
      } else {
        TransactionKeepsInv(drops, s, command);
      }
    case Sent =>
      if s.point.ListHeader? {
        ListKeepsInv(drops, s, 0);
      } else if s.point.ListLine? {
        ListKeepsInv(drops, s, s.point.index + 1);
      } else {
        EndKeepsInv(drops, s);
      }
  }

  lemma LockMovesGrow(drops: Drops, drops': Drops, lock: Option<string>, lock': Option<string>)
    requires LockMoves(drops, drops', lock, lock') && EveryDropHasInbox(drops)
    ensures Grows(drops, drops') && EveryDropHasInbox(drops') && drops'.Keys == drops.Keys
    ensures forall u :: Inbox(drops', u) == Inbox(drops, u)
  {
    if drops' != drops {
      var user := if lock'.Some? then lock'.value else lock.value;
      LockGrows(drops, user, lock'.Some?);
    }
  }

  // ----- IMAP LIST -----

  predicate LoggedIn(point: Imap.Point) {
    || point == Imap.Reading(Imap.Authenticated) || point == Imap.Replying(Imap.Authenticated)
    || (point.SayOk? && point.next == Imap.Authenticated) || point.Listing?
  }

  predicate BeforeLogin(point: Imap.Point) {
    point == Imap.Reading(Imap.Unauthenticated) || point == Imap.Replying(Imap.Unauthenticated)
  }

  // The lines for the first n names of the order stand before index e, and no line before them.
  ghost predicate LinesBefore(out: seq<Imap.Reply>, e: nat, order: seq<string>, n: nat) {
    && n <= |order| && n < e <= |out|
    && (forall i | 0 <= i < n :: out[e - n + i] == Imap.ListLine(order[i]))
    && !out[e - n - 1].ListLine?
  }

  // A LIST * that has been answered to its end at index e.
  ghost predicate ListedAll(names: set<string>, out: seq<Imap.Reply>, e: nat) {
    exists order :: Imap.IsOrder(order, names) && LinesBefore(out, e, order, |order|)
  }

  ghost predicate ListsAreComplete(names: set<string>, out: seq<Imap.Reply>) {
    forall e: nat | e < |out| && out[e] == Imap.Ok(Imap.LIST_ALL) :: ListedAll(names, out, e)
  }

  function Names(drops: Drops, user: string): set<string> {
    if user in drops then drops[user].mails.Keys else {}
  }

  ghost predicate ImapInv(drops: Drops, s: Imap.Session) {
    && s.out != []
    && (LoggedIn(s.point) ==> s.user in drops)
    && (Imap.Ok(Imap.LIST_ALL) in s.out ==> !BeforeLogin(s.point) && s.user in drops)
    && (s.point.Reading? || s.point.Replying? ==> !s.out[|s.out| - 1].ListLine?)
    && (s.point.SayOk? ==> s.point.to != Imap.LIST_ALL && s.point.next != Imap.Unauthenticated)
    && (s.point.Listing? ==>
          && Imap.IsOrder(s.point.order, Names(drops, s.user))
          && s.point.index < |s.point.order| && LinesBefore(s.out, |s.out|, s.point.order, s.point.index + 1))
    && ListsAreComplete(Names(drops, s.user), s.out)
  }

  lemma ImapReplyKeepsLists(names: set<string>, out: seq<Imap.Reply>, reply: Imap.Reply)
    requires ListsAreComplete(names, out)
    requires reply == Imap.Ok(Imap.LIST_ALL) ==> ListedAll(names, out, |out|)
    ensures ListsAreComplete(names, out + [reply])
  {
    hide Imap.IsOrder;
    forall e: nat | e < |out + [reply]| && (out + [reply])[e] == Imap.Ok(Imap.LIST_ALL)
      ensures ListedAll(names, out + [reply], e)
    {
      var order :| Imap.IsOrder(order, names) && LinesBefore(out, e, order, |order|);
      assert LinesBefore(out + [reply], e, order, |order|);
    }
  }

  lemma IterationKeepsInv(drops: Drops, s: Imap.Session, order: seq<string>, index: nat)
    requires ImapInv(drops, s) && s.user in drops && !BeforeLogin(s.point)
    requires Imap.IsOrder(order, Names(drops, s.user)) && LinesBefore(s.out, |s.out|, order, index)
    ensures ImapInv(drops, Imap.ListFrom(s, order, index))
  {
    hide Imap.IsOrder, ListsAreComplete;
    var reply := if index < |order| then Imap.ListLine(order[index]) else Imap.Ok(Imap.LIST_ALL);
    assert reply == Imap.Ok(Imap.LIST_ALL) ==> ListedAll(Names(drops, s.user), s.out, |s.out|);
    ImapReplyKeepsLists(Names(drops, s.user), s.out, reply);
  }

  lemma ImapWriteKeepsInv(drops: Drops, s: Imap.Session, reply: Imap.Reply, point: Imap.Point)
    requires ImapInv(drops, s) && reply != Imap.Ok(Imap.LIST_ALL) && (point.Replying? || point.SayOk?)
    requires LoggedIn(point) ==> s.user in drops
    requires point.SayOk? ==> point.to != Imap.LIST_ALL && point.next != Imap.Unauthenticated
    requires point.Replying? ==> !reply.ListLine?
    requires BeforeLogin(point) ==> BeforeLogin(s.point)
    ensures ImapInv(drops, Imap.Write(s, reply, point))
  {
    hide ListsAreComplete;
    ImapReplyKeepsLists(Names(drops, s.user), s.out, reply);
  }

  lemma LoginKeepsInv(drops: Drops, s: Imap.Session, name: string)
    requires ImapInv(drops, s) && s.point == Imap.Reading(Imap.Unauthenticated) && Imap.Qualified(name) in drops
    ensures ImapInv(drops, Imap.Write(s.(user := Imap.Qualified(name)), Imap.Ok(Imap.Login(name)),
                                      Imap.Replying(Imap.Authenticated)))
  {
    var s1 := s.(user := Imap.Qualified(name));
    assert ListsAreComplete(Names(drops, s1.user), s1.out);
    ImapWriteKeepsInv(drops, s1, Imap.Ok(Imap.Login(name)), Imap.Replying(Imap.Authenticated));
  }

  lemma ImapLineKeepsInv(drops: Drops, s: Imap.Session, command: Imap.Command, order: seq<string>)
    requires ImapInv(drops, s) && Imap.Enabled(drops, s, Imap.Line(command, order))
    ensures ImapInv(drops, Imap.OnLine(drops, s, command, order))
  {
    hide ListsAreComplete, Imap.IsOrder;
    var phase := s.point.phase;
    ImapWriteKeepsInv(drops, s, Imap.Bad, Imap.Replying(phase));
    match command
    case Login(name) =>
      ImapWriteKeepsInv(drops, s, Imap.No(command), Imap.Replying(phase));
      if phase == Imap.Unauthenticated && Imap.Qualified(name) in drops {
        LoginKeepsInv(drops, s, name);
      }
    case List(rootReference, mailbox) =>
      if phase == Imap.Authenticated {
        if command == Imap.LIST_ALL {
          IterationKeepsInv(drops, s, order, 0);
        } else {
          ImapWriteKeepsInv(drops, s, Imap.Ok(command), Imap.Replying(phase));
          ImapWriteKeepsInv(drops, s, Imap.ListLine(mailbox), Imap.SayOk(command, phase));
        }
      }
    case Logout => ImapWriteKeepsInv(drops, s, Imap.Bye, Imap.SayOk(command, Imap.LoggedOut));
    case TagUnknown => ImapWriteKeepsInv(drops, s, Imap.BadTag(command), Imap.Replying(phase));
    case Unknown =>
  }

  lemma ImapStepKeepsInv(drops: Drops, s: Imap.Session, e: Imap.Event)
    requires ImapInv(drops, s) && Imap.Enabled(drops, s, e)
    ensures ImapInv(drops, Imap.Step(drops, s, e))
  {
    hide ListsAreComplete, Imap.IsOrder;
    match e
    case Line(command, order) => ImapLineKeepsInv(drops, s, command, order);
    case Broken =>
    case Sent =>
      if s.point.Listing? {
        IterationKeepsInv(drops, s, s.point.order, s.point.index + 1);
      } else if s.point.SayOk? {
        ImapWriteKeepsInv(drops, s, Imap.Ok(s.point.to), Imap.Replying(s.point.next));
      }
  }

  lemma NothingListed(names: set<string>, out: seq<Imap.Reply>)
    requires Imap.Ok(Imap.LIST_ALL) !in out
    ensures ListsAreComplete(names, out)
  {
  }

  lemma ImapInvStays(drops: Drops, drops': Drops, s: Imap.Session)
    requires ImapInv(drops, s) && Grows(drops, drops')
    ensures ImapInv(drops', s)
  {
    hide ListsAreComplete, Imap.IsOrder;
    if s.user in drops {
      assert Names(drops', s.user) == Names(drops, s.user);
    } else {
      NothingListed(Names(drops', s.user), s.out);
    }
  }

  // ----- The invariant of the whole server -----

  ghost predicate SessionInv(drops: Drops, session: Session) {
    match session
    case SmtpSide(_) => true
    case Pop3Side(s) => Pop3Inv(drops, s)
    case ImapSide(s) => ImapInv(drops, s)
  }

  ghost predicate SessionsInv(drops: Drops, sessions: map<nat, Session>) {
    forall id | id in sessions :: SessionInv(drops, sessions[id])
  }

  predicate Holds(sessions: map<nat, Session>, id: nat, user: string) {
    id in sessions && sessions[id].Pop3Side? && sessions[id].pop3Session.lock == Some(user)
  }

  // A maildrop is locked exactly while some session's lock object holds it, and never two do.
  ghost predicate LocksAreHeld(drops: Drops, sessions: map<nat, Session>) {
    && (forall u | u in drops :: drops[u].locked <==> exists id :: Holds(sessions, id, u))
    && (forall id, u | Holds(sessions, id, u) :: u in drops)
    && (forall id, id', u | Holds(sessions, id, u) && Holds(sessions, id', u) :: id == id')
  }

  // The copies a user gets of the mails delivered.
  function MailsFor(delivered: seq<(nat, Mail)>, user: string): seq<Mail> {
    if delivered == [] then [] else
    var mail := delivered[|delivered| - 1].1;
    MailsFor(delivered[..|delivered| - 1], user) + if user in LocalRecipients(mail) then [mail] else []
  }

  ghost predicate InboxesMatch(drops: Drops, delivered: seq<(nat, Mail)>) {
    forall u :: Inbox(drops, u) == Inbox(INITIAL_DROPS, u) + MailsFor(delivered, u)
  }

  function InitialMails(user: string): map<string, seq<Mail>> {
    if user in INITIAL_DROPS then INITIAL_DROPS[user].mails else map[]
  }

  // Only a delivery makes a maildrop, and what is not an INBOX stays as it was at the start.
  ghost predicate BoxesMatch(drops: Drops, delivered: seq<(nat, Mail)>) {
    && (forall u :: u in drops <==> u in INITIAL_DROPS || MailsFor(delivered, u) != [])
    && (forall u | u in drops :: drops[u].mails - {INBOX} == InitialMails(u) - {INBOX})
  }

  ghost predicate Inv(server: Server) {
    && EveryDropHasInbox(server.drops)
    && BoxesMatch(server.drops, server.delivered)
    && SessionsInv(server.drops, server.sessions)
    && LocksAreHeld(server.drops, server.sessions)
    && InboxesMatch(server.drops, server.delivered)
  }

  lemma SessionsStay(drops: Drops, drops': Drops, sessions: map<nat, Session>, id: nat, session: Session)
    requires SessionsInv(drops, sessions)
    requires Grows(drops, drops') && SessionInv(drops', session)
    ensures SessionsInv(drops', sessions[id := session])
  {
    hide Pop3Inv, ImapInv, Grows;
    forall id' | id' in sessions
      ensures SessionInv(drops', sessions[id'])
    {
      match sessions[id']
      case SmtpSide(_) =>
      case Pop3Side(s) => Pop3InvStays(drops, drops', s);
      case ImapSide(s) => ImapInvStays(drops, drops', s);
    }
  }

  lemma GrowsReflexively(drops: Drops)
    ensures Grows(drops, drops)
  {
  }

  // A session that holds no lock before or after leaves the locks as they are.
  lemma LocksStay(drops: Drops, drops': Drops, sessions: map<nat, Session>, id: nat, session: Session)
    requires LocksAreHeld(drops, sessions) && drops.Keys <= drops'.Keys
    requires forall u | u in drops :: drops'[u].locked == drops[u].locked
    requires forall u | u in drops' && u !in drops :: !drops'[u].locked
    requires forall u :: Holds(sessions, id, u) <==> Holds(map[id := session], id, u)
    ensures LocksAreHeld(drops', sessions[id := session])
  {
    var sessions' := sessions[id := session];
    forall id', u
      ensures Holds(sessions', id', u) <==> Holds(sessions, id', u)
    {
      if id' == id {
        assert Holds(map[id := session], id, u) <==> Holds(sessions', id, u);
      }
    }
  }

  lemma LocksMove(drops: Drops, drops': Drops, sessions: map<nat, Session>, id: nat, s': Pop3.Session)
    requires LocksAreHeld(drops, sessions) && id in sessions && sessions[id].Pop3Side?
    requires LockMoves(drops, drops', sessions[id].pop3Session.lock, s'.lock)
    ensures LocksAreHeld(drops', sessions[id := Pop3Side(s')])
  {
    var sessions' := sessions[id := Pop3Side(s')];
    var lock := sessions[id].pop3Session.lock;
    forall id', u | id' != id
      ensures Holds(sessions', id', u) <==> Holds(sessions, id', u)
    {
    }
    assert forall u :: Holds(sessions, id, u) <==> lock == Some(u);
    assert forall u :: Holds(sessions', id, u) <==> s'.lock == Some(u);
  }

  lemma DeliveryMatches(drops: Drops, delivered: seq<(nat, Mail)>, id: nat, mail: Mail)
    requires InboxesMatch(drops, delivered)
    ensures InboxesMatch(DeliverTo(drops, LocalRecipients(mail), mail), delivered + [(id, mail)])
  {
    hide LocalRecipients, DeliverTo;
    DeliveryFillsInboxes(drops, LocalRecipients(mail), mail);
    assert (delivered + [(id, mail)])[..|delivered|] == delivered;
    hide Inbox;
    forall u
      ensures Inbox(DeliverTo(drops, LocalRecipients(mail), mail), u)
           == Inbox(INITIAL_DROPS, u) + MailsFor(delivered + [(id, mail)], u)
    {
      assert Inbox(drops, u) == Inbox(INITIAL_DROPS, u) + MailsFor(delivered, u);
    }
  }

  lemma DeliveryKeepsBoxes(drops: Drops, delivered: seq<(nat, Mail)>, id: nat, mail: Mail)
    requires BoxesMatch(drops, delivered)
    ensures BoxesMatch(DeliverTo(drops, LocalRecipients(mail), mail), delivered + [(id, mail)])
  {
    hide LocalRecipients;
    var locals := LocalRecipients(mail);
    var drops' := DeliverTo(drops, locals, mail);
    assert (delivered + [(id, mail)])[..|delivered|] == delivered;
    forall u | u in drops'
      ensures drops'[u].mails - {INBOX} == InitialMails(u) - {INBOX}
    {
      assert drops'[u].mails - {INBOX} == DropOf(drops, u).mails - {INBOX};
    }
  }

  lemma SameBoxesMatch(drops: Drops, drops': Drops, delivered: seq<(nat, Mail)>)
    requires BoxesMatch(drops, delivered) && Grows(drops, drops') && drops'.Keys == drops.Keys
    ensures BoxesMatch(drops', delivered)
  {
    forall u | u in drops'
      ensures drops'[u].mails - {INBOX} == drops[u].mails - {INBOX}
    {
      OtherBoxesStay(drops, drops', u);
    }
  }

  lemma OtherBoxesStay(drops: Drops, drops': Drops, user: string)
    requires Grows(drops, drops') && user in drops
    ensures drops'[user].mails - {INBOX} == drops[user].mails - {INBOX}
  {
    assert forall box | box in drops[user].mails && box != INBOX :: drops'[user].mails[box] == drops[user].mails[box];
  }

  lemma SmtpStepKeepsInv(server: Server, id: nat, e: Smtp.Event)
    requires Inv(server) && Enabled(server, ResumeSmtp(id, e))
    ensures var server' := Step(server, ResumeSmtp(id, e));
            Inv(server') && Grows(server.drops, server'.drops)
  {
    var (s, mail) := Smtp.Step(server.sessions[id].smtpSession, e);
    var drops := server.drops;
    var drops' := Smtp.Delivered(drops, mail);
    hide Grows, SessionInv, EveryDropHasInbox, InboxesMatch, BoxesMatch, Smtp.Step, LocalRecipients;
    if mail.Some? {
      DeliveryGrows(drops, LocalRecipients(mail.value), mail.value);
      DeliveryFillsInboxes(drops, LocalRecipients(mail.value), mail.value);
      DeliveryMatches(drops, server.delivered, id, mail.value);
      DeliveryKeepsBoxes(drops, server.delivered, id, mail.value);
    } else {
      GrowsReflexively(drops);
      assert server.delivered + [] == server.delivered;
    }
    assert SessionInv(drops', SmtpSide(s)) by { SmtpNeedsNothing(drops', s); }
    SessionsStay(drops, drops', server.sessions, id, SmtpSide(s));
    LocksStay(drops, drops', server.sessions, id, SmtpSide(s));
  }

  lemma SmtpNeedsNothing(drops: Drops, s: Smtp.Session)
    ensures SessionInv(drops, SmtpSide(s))
  {
  }

  lemma StepKeepsInv(server: Server, action: Action)
    requires Inv(server) && Enabled(server, action)
    ensures Inv(Step(server, action)) && Grows(server.drops, Step(server, action).drops)
  {
    hide Pop3Inv, ImapInv, Grows, EveryDropHasInbox, LockMoves, BoxesMatch;
    var drops := server.drops;
    GrowsReflexively(drops);
    match action
    case Accept(id, protocol) =>
      NewSessionInv(drops, protocol);
      SessionsStay(drops, drops, server.sessions, id, NewSession(protocol));
      LocksStay(drops, drops, server.sessions, id, NewSession(protocol));
    case ResumeSmtp(id, e) => SmtpStepKeepsInv(server, id, e);
    case ResumePop3(id, e) =>
      var s := server.sessions[id].pop3Session;
      assert SessionInv(drops, server.sessions[id]);
      Pop3StepKeepsInv(drops, s, e);
      var (drops', s') := Pop3.Step(drops, s, e);
      LockMovesGrow(drops, drops', s.lock, s'.lock);
      SameBoxesMatch(drops, drops', server.delivered);
      SessionsStay(drops, drops', server.sessions, id, Pop3Side(s'));
      LocksMove(drops, drops', server.sessions, id, s');
    case ResumeImap(id, e) =>
      var s := server.sessions[id].imapSession;
      assert SessionInv(drops, server.sessions[id]);
      ImapStepKeepsInv(drops, s, e);
      var s' := ImapSide(Imap.Step(drops, s, e));
      SessionsStay(drops, drops, server.sessions, id, s');
      LocksStay(drops, drops, server.sessions, id, s');
  }

  lemma NewSessionInv(drops: Drops, protocol: Protocol)
    ensures SessionInv(drops, NewSession(protocol))
  {
  }

  lemma StartInv()
    ensures Inv(START)
  {
    forall u
      ensures Inbox(INITIAL_DROPS, u) == Inbox(INITIAL_DROPS, u) + MailsFor([], u)
    {
    }
    assert BoxesMatch(INITIAL_DROPS, []) by {
      assert forall u :: MailsFor([], u) == [];
    }
    assert SessionsInv(INITIAL_DROPS, map[]);
    assert LocksAreHeld(INITIAL_DROPS, map[]);
  }

  lemma {:induction false} RunKeepsInv(actions: seq<Action>)
    requires Run(actions).Some?
    ensures Inv(Run(actions).value)
  {
    if actions == [] {
      StartInv();
    } else {
      hide Inv, Grows, Run;
      var earlier := actions[..|actions| - 1];
      LastStep(actions);
      RunKeepsInv(earlier);
      StepKeepsInv(Run(earlier).value, actions[|actions| - 1]);
    }
  }

  lemma ReachableInv(server: Server)
    requires Reachable(server)
    ensures Inv(server)
  {
    var actions :| Run(actions) == Some(server);
    RunKeepsInv(actions);
  }

  lemma ReachableSession(server: Server, id: nat)
    requires Reachable(server) && id in server.sessions
    ensures SessionInv(server.drops, server.sessions[id]) && EveryDropHasInbox(server.drops)
  {
    hide Reachable, SessionInv, LocksAreHeld, InboxesMatch, BoxesMatch, EveryDropHasInbox;
    ReachableInv(server);
  }
}
