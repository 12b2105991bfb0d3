/** What the storage holds in every reachable state: what it held at the start and what was delivered, no more. */
module Conservation {
  import opened Maildrops
  import opened Options
  import opened MailServer

  /**
    The storage is determined by the deliveries: its users are the initial ones and those who got a mail; an INBOX
    holds its initial content and then, in order, one copy of each mail delivered to its user; every other mailbox
    is an initial one and unchanged. So a user that a delivery made has an INBOX alone.
   */
  lemma {:induction false} StorageHoldsDeliveries(server: Server, user: string)
    requires Reachable(server)
    ensures user in server.drops <==> user in INITIAL_DROPS || MailsFor(server.delivered, user) != []
    ensures user in server.drops ==>
              server.drops[user].mails
                == InitialMails(user)[INBOX := Inbox(INITIAL_DROPS, user) + MailsFor(server.delivered, user)]
    ensures user in server.drops && user !in INITIAL_DROPS ==> server.drops[user].mails.Keys == {INBOX}
  {
    hide Reachable, MailsFor;
    ReachableInv(server);
    if user in server.drops {
      var mails, initial := server.drops[user].mails, InitialMails(user);
      assert mails[INBOX] == Inbox(INITIAL_DROPS, user) + MailsFor(server.delivered, user) by {
        assert Inbox(server.drops, user) == Inbox(INITIAL_DROPS, user) + MailsFor(server.delivered, user);
      }
      assert mails - {INBOX} == initial - {INBOX};
      SameButOne(mails, initial, INBOX);
    }
  }

  lemma SameButOne(mails: map<string, seq<Mail>>, other: map<string, seq<Mail>>, box: string)
    requires box in mails && mails - {box} == other - {box}
    ensures mails == other[box := mails[box]]
  {
    forall b | b in mails && b != box
      ensures b in other && other[b] == mails[b]
    {
      assert b in mails - {box} && (mails - {box})[b] == (other - {box})[b];
    }
    forall b | b in other && b != box
      ensures b in mails
    {
      assert b in other - {box};
    }
  }

  // ----- The number of mails -----

  // All mails of all mailboxes.
  ghost function BoxTotal(mails: map<string, seq<Mail>>): nat
    decreases |mails|
  {
    if mails == map[] then 0 else
    var box :| box in mails;
    |mails[box]| + BoxTotal(mails - {box})
  }

  // All mails of all users.
  ghost function MailTotal(drops: Drops): nat
    decreases |drops|
  {
    if drops == map[] then 0 else
    var user :| user in drops;
    BoxTotal(drops[user].mails) + MailTotal(drops - {user})
  }

  function Copies(delivered: seq<(nat, Mail)>): nat {
    if delivered == [] then 0 else
    Copies(delivered[..|delivered| - 1]) + |LocalRecipients(delivered[|delivered| - 1].1)|
  }

  lemma {:induction false} BoxTotalWithout(mails: map<string, seq<Mail>>, box: string)
    requires box in mails
    ensures BoxTotal(mails) == |mails[box]| + BoxTotal(mails - {box})
    decreases |mails|
  {
    var other :| other in mails && BoxTotal(mails) == |mails[other]| + BoxTotal(mails - {other});
    if other != box {
      BoxTotalWithout(mails - {other}, box);
      BoxTotalWithout(mails - {box}, other);
      assert mails - {other} - {box} == mails - {box} - {other};
    }
  }

  lemma {:induction false} MailTotalWithout(drops: Drops, user: string)
    requires user in drops
    ensures MailTotal(drops) == BoxTotal(drops[user].mails) + MailTotal(drops - {user})
    decreases |drops|
  {
    var other :| other in drops && MailTotal(drops) == BoxTotal(drops[other].mails) + MailTotal(drops - {other});
    if other != user {
      MailTotalWithout(drops - {other}, user);
      MailTotalWithout(drops - {user}, other);
      assert drops - {other} - {user} == drops - {user} - {other};
    }
  }

  lemma PushAddsOne(drop: Maildrop, box: string, mail: Mail)
    ensures BoxTotal(PushedTo(drop, box, mail).mails) == BoxTotal(drop.mails) + 1
  {
    var pushed := PushedTo(drop, box, mail).mails;
    BoxTotalWithout(pushed, box);
    assert pushed - {box} == drop.mails - {box};
    if box in drop.mails {
      BoxTotalWithout(drop.mails, box);
    } else {
      assert drop.mails - {box} == drop.mails;
    }
  }

  // Changing or adding the maildrop of one user.
  lemma OneDropChanges(drops: Drops, user: string, drop: Maildrop)
    ensures MailTotal(drops[user := drop]) + BoxTotal(DropOf(drops, user).mails)
         == MailTotal(drops) + BoxTotal(drop.mails)
  {
    MailTotalWithout(drops[user := drop], user);
    assert drops[user := drop] - {user} == drops - {user};
    if user in drops {
      MailTotalWithout(drops, user);
    } else {
      assert drops - {user} == drops;
    }
  }

  lemma OneMoreCopy(drops: Drops, others: set<string>, user: string, mail: Mail)
    requires user !in others
    ensures MailTotal(DeliverTo(drops, others + {user}, mail)) == MailTotal(DeliverTo(drops, others, mail)) + 1
  {
    hide DeliverTo, PushedTo, DropOf, MailTotal, BoxTotal;
    DeliverOneMore(drops, others, user, mail);
    var soFar := DeliverTo(drops, others, mail);
    PushAddsOne(DropOf(soFar, user), INBOX, mail);
    OneDropChanges(soFar, user, PushedTo(DropOf(soFar, user), INBOX, mail));
  }

  lemma {:induction false} DeliveryAddsCopies(drops: Drops, users: set<string>, mail: Mail)
    ensures MailTotal(DeliverTo(drops, users, mail)) == MailTotal(drops) + |users|
    decreases |users|
  {
    if users == {} {
      assert DeliverTo(drops, {}, mail) == drops;
    } else {
      hide DeliverTo, MailTotal;
      var user :| user in users;
      DeliveryAddsCopies(drops, users - {user}, mail);
      assert users - {user} + {user} == users;
      OneMoreCopy(drops, users - {user}, user, mail);
    }
  }

  lemma {:induction false} LockMovesNoMail(drops: Drops, drops': Drops, lock: Option<string>, lock': Option<string>)
    requires LockMoves(drops, drops', lock, lock')
    ensures MailTotal(drops') == MailTotal(drops)
  {
    if drops' != drops {
      var user := if lock'.Some? then lock'.value else lock.value;
      OneDropChanges(drops, user, drops'[user]);
    }
  }

  lemma {:induction false} Pop3AddsNoMail(drops: Drops, s: Pop3.Session, e: Pop3.Event)
    requires Pop3Inv(drops, s) && EveryDropHasInbox(drops) && Pop3.Enabled(s, e)
    ensures MailTotal(Pop3.Step(drops, s, e).0) == MailTotal(drops)
  {
    hide Pop3Inv, LockMoves, Pop3.Step, Pop3.Enabled, EveryDropHasInbox;
    Pop3StepKeepsInv(drops, s, e);
    var (drops', s') := Pop3.Step(drops, s, e);
    LockMovesNoMail(drops, drops', s.lock, s'.lock);
  }

  lemma {:induction false} SmtpAddsCopies(drops: Drops, delivered: seq<(nat, Mail)>, id: nat, mail: Mail)
    ensures MailTotal(DeliverTo(drops, LocalRecipients(mail), mail)) + Copies(delivered)
         == MailTotal(drops) + Copies(delivered + [(id, mail)])
  {
    hide LocalRecipients, DeliverTo;
    DeliveryAddsCopies(drops, LocalRecipients(mail), mail);
    assert (delivered + [(id, mail)])[..|delivered|] == delivered;
  }

  lemma StepAddsCopies(server: Server, action: Action)
    requires Inv(server) && Enabled(server, action)
    ensures var server' := Step(server, action);
            MailTotal(server'.drops) + Copies(server.delivered) == MailTotal(server.drops) + Copies(server'.delivered)
  {
    hide Smtp.Step, Pop3.Step, Imap.Step, Smtp.Enabled, Pop3.Enabled, Imap.Enabled, Pop3Inv, DeliverTo;
    hide LocksAreHeld, InboxesMatch, BoxesMatch, EveryDropHasInbox, MailTotal, Copies;
    match action
    case ResumeSmtp(id, e) =>
      var mail := Smtp.Step(server.sessions[id].smtpSession, e).1;
      if mail.Some? {
        SmtpAddsCopies(server.drops, server.delivered, id, mail.value);
      } else {
        assert server.delivered + [] == server.delivered;
      }
    case ResumePop3(id, e) =>
      assert SessionInv(server.drops, server.sessions[id]);
      Pop3AddsNoMail(server.drops, server.sessions[id].pop3Session, e);
    case _ =>
  }

  lemma {:induction false} RunAddsCopies(actions: seq<Action>)
    requires Run(actions).Some?
    ensures MailTotal(Run(actions).value.drops) == MailTotal(INITIAL_DROPS) + Copies(Run(actions).value.delivered)
  {
    if actions != [] {
      hide Inv, Step, Enabled, Run;
      LastStep(actions);
      var earlier := actions[..|actions| - 1];
      RunAddsCopies(earlier);
      RunKeepsInv(earlier);
      StepAddsCopies(Run(earlier).value, actions[|actions| - 1]);
    }
  }

  /** The mail in all mailboxes of all users is the initial mail and one copy per distinct local recipient. */
  lemma MailIsConserved(server: Server)
    requires Reachable(server)
    ensures MailTotal(server.drops) == MailTotal(INITIAL_DROPS) + Copies(server.delivered)
  {
    var actions :| Run(actions) == Some(server);
    RunAddsCopies(actions);
  }
}
