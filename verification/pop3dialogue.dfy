/**
  A POP3 session as its dialogue alone determines it: its user, its replies, its lock and its end, read off the
  lines it got and the storage each of its resumptions found.
 */
module Pop3Dialogue {
  import opened Options
  import opened Maildrops
  import opened Pop3

  // What resumes the session, and the storage at that moment. Others may change the storage in between.
  datatype Moment = Moment(drops: Drops, event: Event)

  /** The session after these moments, if each of them was possible. */
  function Run(h: seq<Moment>): Option<Session> {
    if h == [] then Some(START) else
    var before, m := Run(h[..|h| - 1]), h[|h| - 1];
    if before.Some? && Enabled(before.value, m.event) then Some(Step(m.drops, before.value, m.event).1) else None
  }

  // As the mail server keeps its storage: nobody goes away, everybody has an INBOX and a name.
  ghost predicate Steady(h: seq<Moment>) {
    && (forall m | m in h :: EveryDropHasInbox(m.drops) && "" !in m.drops)
    && (forall i, j | 0 <= i <= j < |h| :: h[i].drops.Keys <= h[j].drops.Keys)
  }

  // ----- What the dialogue says -----

  predicate Names(m: Moment) {
    m.event.Line? && m.event.command.User? && m.event.command.name in m.drops
  }

  // The first name of a USER line that has a maildrop when it is read.
  function User(h: seq<Moment>): string {
    if h == [] then "" else
    var earlier, m := h[..|h| - 1], h[|h| - 1];
    if User(earlier) != "" then User(earlier) else if Names(m) then m.event.command.name else ""
  }

  // A PASS of a named user whose maildrop is free.
  predicate Opens(before: seq<Moment>, m: Moment) {
    && m.event == Line(Pass) && User(before) != ""
    && User(before) in m.drops && !m.drops[User(before)].locked
  }

  predicate Opened(h: seq<Moment>) {
    exists k | 0 <= k < |h| :: Opens(h[..k], h[k])
  }

  // A message number that does not fit an int is an exception.
  predicate Overflows(before: seq<Moment>, m: Moment) {
    Opened(before) && m.event.Line? && m.event.command.List? && m.event.command.number.Some?
    && m.event.command.number.value > 2147483647
  }

  // The connection is lost, a number does not fit, or QUIT has been read and its reply written.
  predicate EndsAt(h: seq<Moment>, k: nat) {
    k < |h| && (h[k].event == Broken || Overflows(h[..k], h[k]) || (h[k].event == Line(Quit) && k + 1 < |h|))
  }

  predicate Over(h: seq<Moment>) {
    exists k | 0 <= k < |h| :: EndsAt(h, k)
  }

  // The entries written by a LIST that has not ended.
  function Listing(h: seq<Moment>): Option<nat> {
    if h == [] then None else
    var earlier, m := h[..|h| - 1], h[|h| - 1];
    match m.event
    case Broken => None
    case Line(command) => if command == List(None) && Opened(earlier) then Some(0) else None
    case Sent =>
      var n := Listing(earlier);
      if n.Some? && n.value < |Inbox(m.drops, User(earlier))| then Some(n.value + 1) else None
  }

  function Count32(count: nat): (n: nat)
    ensures n <= count
  {
    count % 4294967296
  }

  function Answer(before: seq<Moment>, drops: Drops, command: Command): seq<Reply> {
    var user := User(before);
    var inbox := Inbox(drops, user);
    match command
    case Quit => [SigningOff]
    case Unknown => [Negative]
    case User(name) =>
      [if Opened(before) || user != "" then Negative else if name in drops then Positive else NoSuchUser]
    case Pass =>
      [if Opened(before) || user == "" then Negative
       else if user in drops && drops[user].locked then AlreadyLocked else Positive]
    case List(number) =>
      if !Opened(before) then [Negative]
      else if number.None? then [ListOk(|inbox|, ToInt32(TotalSize(inbox)))]
      else if number.value > 2147483647 then []
      else if 1 <= number.value <= Count32(|inbox|) then
        [ListOne(number.value, MessageSize(inbox[number.value - 1].message))]
      else [Negative]
  }

  // What one moment makes the session write.
  function Says(before: seq<Moment>, m: Moment): seq<Reply> {
    match m.event
    case Broken => []
    case Line(command) => Answer(before, m.drops, command)
    case Sent =>
      var n, inbox := Listing(before), Inbox(m.drops, User(before));
      if n.None? then []
      else if n.value < |inbox| then [ListEntry(n.value + 1, MessageSize(inbox[n.value].message))]
      else [ListEnd]
  }

  function Said(h: seq<Moment>): seq<Reply> {
    if h == [] then [Greeting] else Said(h[..|h| - 1]) + Says(h[..|h| - 1], h[|h| - 1])
  }

  function Lock(h: seq<Moment>): Option<string> {
    if Opened(h) && !Over(h) then Some(User(h)) else None
  }

  // Lines are read in turns with replies: the session reads when the reply before, and all of a list, is written.
  function Where(h: seq<Moment>): Point {
    var phase := if Opened(h) then Transaction else Authorization;
    if Over(h) then Ended
    else if h == [] then Replying(Authorization)
    else if Listing(h).Some? then if Listing(h).value == 0 then ListHeader else ListLine(Listing(h).value - 1)
    else if h[|h| - 1].event == Line(Quit) then Replying(SignedOff)
    else if h[|h| - 1].event == Sent && Listing(h[..|h| - 1]).None? then Reading(phase)
    else Replying(phase)
  }

  function Expected(h: seq<Moment>): Session {
    Session(Where(h), User(h), Lock(h), Said(h))
  }

  // The storage that one moment leaves.
  function Leaves(before: seq<Moment>, m: Moment): Drops {
    if Opens(before, m) && !Opened(before) then SetLock(m.drops, User(before), true)
    else if Opened(before) && !Over(before) && Over(before + [m]) && User(before) in m.drops then
      SetLock(m.drops, User(before), false)
    else m.drops
  }

  // ----- The session does just that -----

  lemma OpenedGrows(h: seq<Moment>, m: Moment)
    ensures Opened(h + [m]) <==> Opened(h) || Opens(h, m)
  {
    var more := h + [m];
    assert more[..|h|] == h;
    if Opened(h) {
      var k :| 0 <= k < |h| && Opens(h[..k], h[k]);
      assert more[..k] == h[..k] && more[k] == h[k];
    }
    if Opened(more) {
      var k :| 0 <= k < |more| && Opens(more[..k], more[k]);
      if k < |h| {
        assert more[..k] == h[..k] && more[k] == h[k];
      }
    }
    if Opens(h, m) {
      assert Opens(more[..|h|], more[|h|]);
    }
  }

  lemma EndsAtGrows(h: seq<Moment>, m: Moment, k: nat)
    ensures k + 1 < |h| ==> (EndsAt(h + [m], k) <==> EndsAt(h, k))
    ensures k == |h| ==> (EndsAt(h + [m], k) <==> m.event == Broken || Overflows(h, m))
    ensures k + 1 == |h| ==> (EndsAt(h + [m], k) <==> EndsAt(h, k) || h[k].event == Line(Quit))
  {
    hide Overflows;
    var more := h + [m];
    assert more[..|h|] == h;
    if k < |h| {
      assert more[..k] == h[..k] && more[k] == h[k];
    }
  }

  lemma OverGrows(h: seq<Moment>, m: Moment)
    ensures Over(h + [m]) <==>
              Over(h) || m.event == Broken || Overflows(h, m) || (h != [] && h[|h| - 1].event == Line(Quit))
  {
    hide Overflows;
    forall k: nat
      ensures k + 1 < |h| ==> (EndsAt(h + [m], k) <==> EndsAt(h, k))
      ensures k == |h| ==> (EndsAt(h + [m], k) <==> m.event == Broken || Overflows(h, m))
      ensures k + 1 == |h| ==> (EndsAt(h + [m], k) <==> EndsAt(h, k) || h[k].event == Line(Quit))
    {
      EndsAtGrows(h, m, k);
    }
    hide EndsAt;
    if Over(h) {
      var k :| 0 <= k < |h| && EndsAt(h, k);
      assert EndsAt(h + [m], k);
    }
    if h != [] && h[|h| - 1].event == Line(Quit) {
      assert EndsAt(h + [m], |h| - 1);
    }
    if m.event == Broken || Overflows(h, m) {
      assert EndsAt(h + [m], |h|);
    }
  }

  lemma {:induction false} UserKept(h: seq<Moment>, k: nat)
    requires k <= |h| && User(h[..k]) != ""
    ensures User(h) == User(h[..k])
    decreases |h|
  {
    if k == |h| {
      assert h[..k] == h;
    } else {
      assert h[..|h| - 1][..k] == h[..k];
      UserKept(h[..|h| - 1], k);
    }
  }

  lemma {:induction false} OpenedHasUser(h: seq<Moment>)
    requires Opened(h)
    ensures User(h) != ""
  {
    var k :| 0 <= k < |h| && Opens(h[..k], h[k]);
    UserKept(h, k);
  }

  lemma {:induction false} UserHasMaildrop(h: seq<Moment>, drops: Drops)
    requires User(h) != "" && forall i | 0 <= i < |h| :: h[i].drops.Keys <= drops.Keys
    ensures User(h) in drops
  {
    var earlier, m := h[..|h| - 1], h[|h| - 1];
    if User(earlier) != "" {
      UserHasMaildrop(earlier, drops);
    } else {
      assert User(h) in m.drops && m.drops.Keys <= drops.Keys;
    }
  }

  // What the storage offers a session at a moment.
  lemma {:induction false} StorageIsThere(h: seq<Moment>, m: Moment)
    requires Steady(h + [m])
    ensures EveryDropHasInbox(m.drops) && "" !in m.drops
    ensures User(h) != "" ==> User(h) in m.drops && INBOX in m.drops[User(h)].mails
    ensures Opened(h) ==> User(h) != ""
  {
    hide User, EveryDropHasInbox, Opened;
    var more := h + [m];
    assert more[|h|] == m && m in more;
    forall i | 0 <= i < |h|
      ensures h[i].drops.Keys <= m.drops.Keys
    {
      assert more[i] == h[i];
    }
    if User(h) != "" {
      UserHasMaildrop(h, m.drops);
      assert INBOX in m.drops[User(h)].mails by { HasInbox(m.drops, User(h)); }
    }
    if Opened(h) {
      OpenedHasUser(h);
    }
  }

  lemma HasInbox(drops: Drops, user: string)
    requires EveryDropHasInbox(drops) && user in drops
    ensures INBOX in drops[user].mails
  {
  }

  lemma {:induction false} OneMore(h: seq<Moment>, m: Moment)
    ensures (h + [m])[..|h|] == h && (h + [m])[|h|] == m
    ensures Said(h + [m]) == Said(h) + Says(h, m)
    ensures User(h + [m]) == if User(h) != "" then User(h) else if Names(m) then m.event.command.name else ""
    ensures Opened(h + [m]) <==> Opened(h) || Opens(h, m)
    ensures Over(h + [m]) <==>
              Over(h) || m.event == Broken || Overflows(h, m) || (h != [] && h[|h| - 1].event == Line(Quit))
  {
    hide Opened, Over;
    assert (h + [m])[..|h|] == h;
    OpenedGrows(h, m);
    OverGrows(h, m);
  }

  function Phase(h: seq<Moment>): Phase {
    if Opened(h) then Transaction else Authorization
  }

  lemma ReadsWhen(h: seq<Moment>)
    requires Where(h).Reading?
    ensures Where(h) == Reading(Phase(h)) && !Over(h) && (h != [] ==> h[|h| - 1].event != Line(Quit))
  {
    hide Opened, Over, Listing;
  }

  lemma WhereAfterLine(h: seq<Moment>, m: Moment)
    requires m.event.Line? && Where(h).Reading?
    ensures Over(h + [m]) <==> Overflows(h, m)
    ensures Where(h + [m])
         == if Overflows(h, m) then Ended
            else if m.event.command == List(None) && Opened(h) then ListHeader
            else if m.event.command == Quit then Replying(SignedOff)
            else Replying(Phase(h + [m]))
  {
    ReadsWhen(h);
    OneMore(h, m);
    hide Opened, Over, Overflows;
    assert Listing(h + [m]) == if m.event.command == List(None) && Opened(h) then Some(0) else None;
  }

  lemma UnauthorizedLine(h: seq<Moment>, m: Moment)
    requires Steady(h + [m]) && m.event.Line? && Where(h).Reading? && !Opened(h)
    ensures OnAuthorization(m.drops, Expected(h), m.event.command) == (Leaves(h, m), Expected(h + [m]))
  {
    ReadsWhen(h);
    WhereAfterLine(h, m);
    OneMore(h, m);
    StorageIsThere(h, m);
    hide Opened, Over, User, Said, Where, ToInt32, MessageSize, TotalSize, EveryDropHasInbox, SetLock, Steady;
  }

  // The answer in a transaction, when every look-up succeeds.
  lemma ListAnswer(drops: Drops, s: Session, number: Option<nat>)
    requires s.user in drops && INBOX in drops[s.user].mails
    ensures var inbox := Inbox(drops, s.user);
            OnTransaction(drops, s, List(number))
              == if number.None? then (drops, Write(s, ListOk(|inbox|, ToInt32(TotalSize(inbox))), ListHeader))
                 else if number.value > 2147483647 then End(drops, s)
                 else if 1 <= number.value <= Count32(|inbox|) then
                   (drops, Write(s, ListOne(number.value, MessageSize(inbox[number.value - 1].message)),
                                 Replying(Transaction)))
                 else (drops, Write(s, Negative, Replying(Transaction)))
  {
    OctetsWrapOnce(Inbox(drops, s.user));
    hide Octets, TotalSize, ToInt32, MessageSize;
  }

  lemma {:induction false} LeavesInTransaction(h: seq<Moment>, m: Moment)
    requires Opened(h) && !Over(h) && User(h) in m.drops
    ensures Leaves(h, m) == if Over(h + [m]) then SetLock(m.drops, User(h), false) else m.drops
    ensures Lock(h) == Some(User(h))
    ensures Lock(h + [m]) == if Over(h + [m]) then None else Some(User(h + [m]))
  {
    OneMore(h, m);
    hide Opened, Over, SetLock;
  }

  lemma TransactionOther(h: seq<Moment>, m: Moment)
    requires Steady(h + [m]) && m.event.Line? && Where(h).Reading? && Opened(h) && !m.event.command.List?
    ensures OnTransaction(m.drops, Expected(h), m.event.command) == (Leaves(h, m), Expected(h + [m]))
  {
    ReadsWhen(h);
    WhereAfterLine(h, m);
    OneMore(h, m);
    StorageIsThere(h, m);
    LeavesInTransaction(h, m);
    hide Opened, Over, User, Said, Where, Lock, Leaves, Inbox, EveryDropHasInbox, SetLock, Steady;
  }

  lemma TransactionList(h: seq<Moment>, m: Moment)
    requires Steady(h + [m]) && m.event.Line? && Where(h).Reading? && Opened(h) && m.event.command.List?
    ensures OnTransaction(m.drops, Expected(h), m.event.command) == (Leaves(h, m), Expected(h + [m]))
  {
    ReadsWhen(h);
    WhereAfterLine(h, m);
    OneMore(h, m);
    StorageIsThere(h, m);
    LeavesInTransaction(h, m);
    hide Opened, Over, User, Said, Where, Lock, Leaves, Inbox, ToInt32, MessageSize, TotalSize, EveryDropHasInbox;
    hide SetLock, Steady, OnTransaction, Count32, Listing, Names, Opens, OnAuthorization, Answer;
    var s, number := Expected(h), m.event.command.number;
    ListAnswer(m.drops, s, number);
    var answer := Answer(h, m.drops, m.event.command);
    assert answer == ListReply(Inbox(m.drops, s.user), number) by { ListIsAnswered(h, m.drops, number); }
    assert Said(h) + [] == Said(h);
  }

  function ListReply(inbox: seq<Mail>, number: Option<nat>): seq<Reply> {
    if number.None? then [ListOk(|inbox|, ToInt32(TotalSize(inbox)))]
    else if number.value > 2147483647 then []
    else if 1 <= number.value <= Count32(|inbox|) then
      [ListOne(number.value, MessageSize(inbox[number.value - 1].message))]
    else [Negative]
  }

  lemma {:induction false} ListIsAnswered(h: seq<Moment>, drops: Drops, number: Option<nat>)
    requires Opened(h)
    ensures Answer(h, drops, List(number)) == ListReply(Inbox(drops, User(h)), number)
  {
  }

  lemma {:induction false} ListingIsOpen(h: seq<Moment>)
    requires Listing(h).Some?
    ensures Opened(h)
  {
    hide Opened;
    var earlier, m := h[..|h| - 1], h[|h| - 1];
    assert earlier + [m] == h;
    OpenedGrows(earlier, m);
    if m.event == Sent {
      ListingIsOpen(earlier);
    }
  }

  predicate QuitRead(h: seq<Moment>) {
    h != [] && h[|h| - 1].event == Line(Quit)
  }

  lemma {:induction false} SentWhen(h: seq<Moment>)
    requires Enabled(Expected(h), Sent)
    ensures !Over(h) && (Listing(h).Some? ==> Opened(h) && !QuitRead(h))
    ensures Where(h) == if Listing(h).Some? then
                          if Listing(h).value == 0 then ListHeader else ListLine(Listing(h).value - 1)
                        else if QuitRead(h) then Replying(SignedOff)
                        else Replying(Phase(h))
  {
    if Listing(h).Some? {
      ListingIsOpen(h);
    }
    hide Over, Opened;
  }

  lemma {:induction false} WhereAfterSent(h: seq<Moment>, m: Moment)
    requires m.event == Sent && Enabled(Expected(h), Sent)
    ensures Over(h + [m]) <==> QuitRead(h)
    ensures Opened(h + [m]) <==> Opened(h)
    ensures User(h + [m]) == User(h)
    ensures Where(h + [m])
         == if QuitRead(h) then Ended
            else if Listing(h).None? then Reading(Phase(h))
            else if Listing(h).value < |Inbox(m.drops, User(h))| then ListLine(Listing(h).value)
            else Replying(Transaction)
  {
    SentWhen(h);
    OneMore(h, m);
    hide Opened, Over, User, Inbox;
    var n := Listing(h);
    assert Listing(h + [m]) == if n.Some? && n.value < |Inbox(m.drops, User(h))| then Some(n.value + 1) else None;
    hide Listing;
  }

  lemma StepsInList(drops: Drops, s: Session, n: nat)
    requires s.point == if n == 0 then ListHeader else ListLine(n - 1)
    requires s.user in drops && INBOX in drops[s.user].mails
    ensures var inbox := Inbox(drops, s.user);
            Step(drops, s, Sent)
              == (drops, Write(s, NextReply(inbox, n), if n < |inbox| then ListLine(n) else Replying(Transaction)))
  {
    hide MessageSize;
  }

  lemma {:induction false} ExpectedInList(h: seq<Moment>, m: Moment)
    requires m.event == Sent && Enabled(Expected(h), Sent) && Listing(h).Some?
    ensures var n, inbox := Listing(h).value, Inbox(m.drops, User(h));
            Expected(h + [m])
              == Write(Expected(h), NextReply(inbox, n), if n < |inbox| then ListLine(n) else Replying(Transaction))
  {
    SentWhen(h);
    WhereAfterSent(h, m);
    hide Enabled, Where, Opened, Over, User, Said, Inbox, NextReply, Listing, Names, Opens, Says, Overflows;
    OneMore(h, m);
    NextIsSaid(h, m);
  }

  lemma {:induction false} StorageInList(h: seq<Moment>, m: Moment)
    requires Steady(h + [m]) && m.event == Sent && Enabled(Expected(h), Sent) && Listing(h).Some?
    ensures User(h) in m.drops && INBOX in m.drops[User(h)].mails && Leaves(h, m) == m.drops
  {
    SentWhen(h);
    WhereAfterSent(h, m);
    hide Steady, Enabled, Listing, Opened, Over, User, SetLock, Leaves, EveryDropHasInbox;
    StorageIsThere(h, m);
    LeavesInTransaction(h, m);
  }

  lemma {:induction false} ListIsFollowed(h: seq<Moment>, m: Moment)
    requires Steady(h + [m]) && m.event == Sent && Enabled(Expected(h), Sent) && Listing(h).Some?
    ensures Step(m.drops, Expected(h), Sent) == (Leaves(h, m), Expected(h + [m]))
  {
    hide Steady, Enabled, Listing, Opened, Over, User, Said, Lock, Where, Leaves, Inbox, NextReply, Step, Write;
    SentWhen(h);
    ExpectedInList(h, m);
    StorageInList(h, m);
    StepsInList(m.drops, Expected(h), Listing(h).value);
  }

  function NextReply(inbox: seq<Mail>, n: nat): Reply {
    if n < |inbox| then ListEntry(n + 1, MessageSize(inbox[n].message)) else ListEnd
  }

  lemma {:induction false} NextIsSaid(h: seq<Moment>, m: Moment)
    requires m.event == Sent && Listing(h).Some?
    ensures Says(h, m) == [NextReply(Inbox(m.drops, User(h)), Listing(h).value)]
  {
  }

  lemma {:induction false} ReplyIsFollowed(h: seq<Moment>, m: Moment)
    requires Steady(h + [m]) && m.event == Sent && Enabled(Expected(h), Sent) && Listing(h).None?
    ensures Step(m.drops, Expected(h), Sent) == (Leaves(h, m), Expected(h + [m]))
  {
    SentWhen(h);
    WhereAfterSent(h, m);
    OneMore(h, m);
    StorageIsThere(h, m);
    hide Opened, Over, User, Said, Where, Inbox, EveryDropHasInbox, SetLock, Steady;
    hide OnAuthorization, OnTransaction, ListFrom, Listing, Names;
    assert Said(h) + [] == Said(h);
  }

  lemma BreakIsAnEnd(h: seq<Moment>, m: Moment)
    requires Steady(h + [m]) && m.event == Broken && Enabled(Expected(h), Broken)
    ensures Step(m.drops, Expected(h), Broken) == (Leaves(h, m), Expected(h + [m]))
  {
    LiveWhen(h);
    ExpectedAtBreak(h, m);
    hide Opened, Over, User, Said, Where, EveryDropHasInbox, SetLock, Steady;
    if Opened(h) {
      StorageIsThere(h, m);
      LeavesInTransaction(h, m);
      hide Leaves;
    }
  }

  lemma ExpectedAtBreak(h: seq<Moment>, m: Moment)
    requires m.event == Broken
    ensures Over(h + [m]) && !Opens(h, m)
    ensures Expected(h + [m]) == Expected(h).(point := Ended, lock := None)
  {
    OneMore(h, m);
    LiveWhen(h + [m]);
    hide Opened, Over, User, Said, Where;
    assert Said(h) + [] == Said(h);
  }

  lemma LiveWhen(h: seq<Moment>)
    ensures Where(h).Ended? <==> Over(h)
  {
    hide Over, Opened;
  }

  lemma StepIsExpected(h: seq<Moment>, m: Moment)
    requires Steady(h + [m]) && Enabled(Expected(h), m.event)
    ensures Step(m.drops, Expected(h), m.event) == (Leaves(h, m), Expected(h + [m]))
  {
    hide Leaves, Opened, Over, User, Said, OnAuthorization, OnTransaction, Steady, ListFrom, SetLock;
    match m.event
    case Broken => BreakIsAnEnd(h, m);
    case Sent =>
      if Listing(h).Some? {
        ListIsFollowed(h, m);
      } else {
        ReplyIsFollowed(h, m);
      }
    case Line(command) =>
      ReadsWhen(h);
      if !Opened(h) {
        UnauthorizedLine(h, m);
      } else if command.List? {
        TransactionList(h, m);
      } else {
        TransactionOther(h, m);
      }
  }

  lemma SteadyBefore(h: seq<Moment>)
    requires Steady(h) && h != []
    ensures Steady(h[..|h| - 1])
  {
    forall m | m in h[..|h| - 1]
      ensures m in h
    {
    }
  }

  /** Over every storage that is kept as the server keeps it, the session is what its dialogue says. */
  lemma {:induction false} RunIsExpected(h: seq<Moment>)
    requires Run(h).Some? && Steady(h)
    ensures Run(h).value == Expected(h)
  {
    hide Expected, Step, Enabled, Steady, Run;
    if h != [] {
      var earlier, m := h[..|h| - 1], h[|h| - 1];
      RunUnrolls(h);
      SteadyBefore(h);
      RunIsExpected(earlier);
      assert earlier + [m] == h;
      StepIsExpected(earlier, m);
    } else {
      NothingSaid();
    }
  }

  lemma {:induction false} RunUnrolls(h: seq<Moment>)
    requires h != [] && Run(h).Some?
    ensures var before, m := Run(h[..|h| - 1]), h[|h| - 1];
            && before.Some? && Enabled(before.value, m.event)
            && Run(h).value == Step(m.drops, before.value, m.event).1
  {
    hide Step, Enabled;
  }

  lemma NothingSaid()
    ensures Expected([]) == START && Run([]) == Some(START)
  {
    assert !Opened([]) && !Over([]);
  }

  // ----- What follows for a reader of the dialogue -----

  /** A session's user is the first name in a USER line that had a maildrop when it was read, if there is one. */
  lemma {:induction false} UserIsFirstNamed(h: seq<Moment>)
    requires Steady(h)
    ensures User(h) == "" <==> forall m | m in h :: !Names(m)
    ensures forall i | 0 <= i < |h| && Names(h[i]) && (forall j | 0 <= j < i :: !Names(h[j])) ::
              User(h) == h[i].event.command.name
  {
    if h != [] {
      var earlier, m := h[..|h| - 1], h[|h| - 1];
      SteadyBefore(h);
      assert Names(m) ==> m.event.command.name != "" by {
        assert m in h;
      }
      hide Steady;
      UserIsFirstNamed(earlier);
      assert forall x :: x in h <==> x in earlier || x == m;
      hide Names, User;
      FirstIsOfEarlier(h);
    }
  }

  lemma FirstIsOfEarlier(h: seq<Moment>)
    requires h != []
    ensures var earlier := h[..|h| - 1];
            forall i | 0 <= i < |h| && Names(h[i]) && (forall j | 0 <= j < i :: !Names(h[j])) ::
              if i < |earlier| then Names(earlier[i]) && (forall j | 0 <= j < i :: !Names(earlier[j]))
              else forall x | x in earlier :: !Names(x)
  {
    hide Names;
  }

  /**
    QUIT, in whatever phase, is the last line a session reads. When its reply has been written, or is lost, the
    session has ended and holds no lock; until then it reads nothing.
   */
  lemma {:induction false} QuitEnds(h: seq<Moment>, k: nat)
    requires Run(h).Some? && Steady(h) && k < |h| && h[k].event == Line(Quit)
    ensures k + 1 == |h| || k + 2 == |h|
    ensures var s := Run(h).value;
            if k + 1 == |h| then !s.point.Reading? && !s.point.Ended? && s.out[|s.out| - 1] == SigningOff
            else s.point == Ended && s.lock == None
  {
    hide Steady, Run, Expected, Over;
    if k + 1 == |h| {
      QuitIsPending(h);
    } else {
      QuitIsOver(h, k);
      EndIsFinal(h, k + 2);
    }
  }

  lemma QuitIsOver(h: seq<Moment>, k: nat)
    requires k + 2 <= |h| && h[k].event == Line(Quit)
    ensures Over(h[..k + 2])
  {
    assert h[..k + 2][k] == h[k] && EndsAt(h[..k + 2], k);
  }

  // A session that is over is not resumed.
  lemma {:induction false} EndIsFinal(h: seq<Moment>, t: nat)
    requires Run(h).Some? && Steady(h) && t <= |h| && Over(h[..t])
    ensures t == |h| && Run(h).value.point == Ended && Run(h).value.lock == None
  {
    hide Steady, Run, Over;
    RunBefore(h, t);
    RunIsExpected(h[..t]);
    LiveWhen(h[..t]);
    assert t == |h| ==> h[..t] == h;
  }

  lemma {:induction false} QuitIsPending(h: seq<Moment>)
    requires Run(h).Some? && Steady(h) && QuitRead(h)
    ensures var s := Run(h).value;
            s.point == Replying(SignedOff) && s.out != [] && s.out[|s.out| - 1] == SigningOff
  {
    var earlier, m := h[..|h| - 1], h[|h| - 1];
    SteadyBefore(h);
    RunIsExpected(earlier);
    RunIsExpected(h);
    assert earlier + [m] == h;
    hide Opened, Over, Steady;
    assert Where(earlier).Reading?;
    WhereAfterLine(earlier, m);
  }

  lemma {:induction false} RunBefore(h: seq<Moment>, t: nat)
    requires Run(h).Some? && t <= |h|
    ensures Run(h[..t]).Some? && (t < |h| ==> Enabled(Run(h[..t]).value, h[t].event))
    ensures Steady(h) ==> Steady(h[..t])
    decreases |h|
  {
    hide Step, Enabled;
    if t == |h| {
      assert h[..t] == h;
    } else {
      var earlier := h[..|h| - 1];
      assert earlier[..t] == h[..t];
      RunBefore(earlier, t);
      if Steady(h) {
        SteadyBefore(h);
      }
    }
  }
}
