/** What holds in every reachable state of the mail server, over all interleavings and all exceptions. */
module Guarantees {
  import opened Maildrops
  import opened Options
  import opened MailServer

  // ----- Locks -----

  /**
    A maildrop is locked exactly while one live POP3 session is between its PASS and its end, and that session is
    the only one; a session that has ended, however it ended, holds nothing.
   */
  lemma LockHasOneHolder(server: Server, user: string)
    requires Reachable(server) && user in server.drops
    ensures server.drops[user].locked <==> exists id :: Holds(server.sessions, id, user)
    ensures forall id, id' | Holds(server.sessions, id, user) && Holds(server.sessions, id', user) :: id == id'
    ensures forall id | Holds(server.sessions, id, user) ::
              !server.sessions[id].pop3Session.point.Ended? && !BeforeTransaction(server.sessions[id].pop3Session.point)
    ensures forall id | id in server.sessions && server.sessions[id].Pop3Side? ::
              InTransaction(server.sessions[id].pop3Session.point) && server.sessions[id].pop3Session.user == user ==>
                Holds(server.sessions, id, user)
  {
    ReachableInv(server);
    forall id | id in server.sessions && server.sessions[id].Pop3Side?
      ensures Pop3Inv(server.drops, server.sessions[id].pop3Session)
    {
      assert SessionInv(server.drops, server.sessions[id]);
    }
  }

  lemma EnabledStepIsReachable(server: Server, action: Action)
    requires Reachable(server) && Enabled(server, action)
    ensures Reachable(Step(server, action))
  {
    hide Step, Enabled;
    var actions :| Run(actions) == Some(server);
    assert (actions + [action])[..|actions|] == actions;
    assert Run(actions + [action]) == Some(Step(server, action));
  }

  /** PASS opens the maildrop exactly when no session holds its lock. */
  lemma PassOpensExactlyIfFree(server: Server, id: nat)
    requires Reachable(server) && Enabled(server, ResumePop3(id, Pop3.Line(Pop3.Pass)))
    requires var s := server.sessions[id].pop3Session; s.point == Pop3.Reading(Pop3.Authorization) && s.user != ""
    ensures var s := server.sessions[id].pop3Session;
            InTransaction(Pop3.Step(server.drops, s, Pop3.Line(Pop3.Pass)).1.point)
            <==> !exists other :: Holds(server.sessions, other, s.user)
  {
    hide Reachable, ListsAreRight, ListInProgress;
    ReachableSession(server, id);
    LockHasOneHolder(server, server.sessions[id].pop3Session.user);
  }

  /** A session that ends, by QUIT or by an exception at any suspension, leaves the maildrop it held unlocked. */
  lemma EndingReleasesLock(server: Server, id: nat, e: Pop3.Event, user: string)
    requires Reachable(server) && Enabled(server, ResumePop3(id, e)) && Holds(server.sessions, id, user)
    ensures var server' := Step(server, ResumePop3(id, e));
            user in server'.drops
            && (server'.sessions[id].pop3Session.point.Ended? <==> !server'.drops[user].locked)
  {
    var action := ResumePop3(id, e);
    var server' := Step(server, action);
    EnabledStepIsReachable(server, action);
    ReachableSession(server, id);
    KeepsLockUntilEnd(server.drops, server.sessions[id].pop3Session, e);
    assert Grows(server.drops, server'.drops) by {
      ReachableInv(server);
      StepKeepsInv(server, action);
    }
    assert forall other | other != id :: Holds(server'.sessions, other, user) <==> Holds(server.sessions, other, user);
    hide Reachable, Step, Pop3.Step;
    LockHasOneHolder(server, user);
    LockHasOneHolder(server', user);
  }

  lemma KeepsLockUntilEnd(drops: Drops, s: Pop3.Session, e: Pop3.Event)
    requires Pop3Inv(drops, s) && EveryDropHasInbox(drops) && Pop3.Enabled(s, e) && s.lock.Some?
    ensures s.user in drops && s.lock.value == s.user
    ensures var s' := Pop3.Step(drops, s, e).1;
            if s'.point.Ended? then s'.lock.None? else s'.lock == s.lock
  {
    hide Octets, MessageSize, ListsAreRight, Listed;
  }

  // ----- Storage -----

  lemma {:induction false} RunPrefix(actions: seq<Action>, more: seq<Action>)
    requires Run(actions + more).Some?
    ensures Run(actions).Some?
    ensures Inv(Run(actions).value) && Inv(Run(actions + more).value)
    ensures Grows(Run(actions).value.drops, Run(actions + more).value.drops)
    decreases |more|
  {
    hide Inv, Grows, Step;
    if more == [] {
      assert actions + more == actions;
      RunKeepsInv(actions);
      GrowsReflexively(Run(actions).value.drops);
    } else {
      var earlier, last := more[..|more| - 1], more[|more| - 1];
      assert (actions + more)[..|actions + more| - 1] == actions + earlier;
      RunPrefix(actions, earlier);
      var before := Run(actions + earlier).value;
      StepKeepsInv(before, last);
      GrowsTransitively(Run(actions).value.drops, before.drops, Step(before, last).drops);
    }
  }

  /**
    Between any two moments of a run no user goes away, no mailbox name of a user changes, no mailbox but INBOX
    changes at all, and an INBOX only gets longer at its end; and every user has an INBOX.
   */
  lemma {:induction false} StorageOnlyGrows(actions: seq<Action>, more: seq<Action>, user: string)
    requires Run(actions + more).Some?
    ensures Run(actions).Some?
    ensures var (drops, drops') := (Run(actions).value.drops, Run(actions + more).value.drops);
            user in drops ==>
              && user in drops' && drops'[user].mails.Keys == drops[user].mails.Keys && INBOX in drops[user].mails
              && drops[user].mails[INBOX] <= drops'[user].mails[INBOX]
              && drops'[user].mails - {INBOX} == drops[user].mails - {INBOX}
  {
    RunPrefix(actions, more);
    hide Run;
    if user in Run(actions).value.drops {
      GrowsFor(Run(actions).value.drops, Run(actions + more).value.drops, user);
    }
  }

  lemma GrowsFor(drops: Drops, drops': Drops, user: string)
    requires Grows(drops, drops') && EveryDropHasInbox(drops) && user in drops
    ensures user in drops' && drops'[user].mails.Keys == drops[user].mails.Keys && INBOX in drops[user].mails
    ensures drops[user].mails[INBOX] <= drops'[user].mails[INBOX]
    ensures drops'[user].mails - {INBOX} == drops[user].mails - {INBOX}
  {
    assert Inbox(drops, user) <= Inbox(drops', user);
    OtherBoxesStay(drops, drops', user);
  }

  /**
    No look-up of a user or of INBOX ever fails: a POP3 session ends only by QUIT, a lost connection, or a LIST
    number beyond int.
   */
  lemma Pop3LookupsNeverFail(server: Server, id: nat, e: Pop3.Event)
    requires Reachable(server) && Enabled(server, ResumePop3(id, e))
    ensures var s := server.sessions[id].pop3Session;
            Pop3.Step(server.drops, s, e).1.point.Ended? <==>
              || e.Broken?
              || (e.Sent? && s.point == Pop3.Replying(Pop3.SignedOff))
              || (e.Line? && s.point == Pop3.Reading(Pop3.Transaction) && e.command.List?
                  && e.command.number.Some? && e.command.number.value > Pop3.MAX_INT)
  {
    hide Reachable, ListsAreRight, ListInProgress, Pop3.Step;
    ReachableSession(server, id);
    Pop3EndsOnlyBy(server.drops, server.sessions[id].pop3Session, e);
  }

  lemma Pop3EndsOnlyBy(drops: Drops, s: Pop3.Session, e: Pop3.Event)
    requires Pop3.Enabled(s, e) && EveryDropHasInbox(drops)
    requires s.user != "" ==> s.user in drops
    requires InTransaction(s.point) ==> s.user != ""
    ensures Pop3.Step(drops, s, e).1.point.Ended? <==>
              || e.Broken?
              || (e.Sent? && s.point == Pop3.Replying(Pop3.SignedOff))
              || (e.Line? && s.point == Pop3.Reading(Pop3.Transaction) && e.command.List?
                  && e.command.number.Some? && e.command.number.value > Pop3.MAX_INT)
  {
    hide Octets, MessageSize, SetLock;
  }

  /** An IMAP session ends only by LOGOUT or a lost connection. */
  lemma ImapLookupsNeverFail(server: Server, id: nat, e: Imap.Event)
    requires Reachable(server) && Enabled(server, ResumeImap(id, e))
    ensures var s := server.sessions[id].imapSession;
            Imap.Step(server.drops, s, e).point.Ended? <==>
              e.Broken? || (e.Sent? && s.point == Imap.Replying(Imap.LoggedOut))
  {
    hide Reachable, ListsAreComplete, Imap.IsOrder;
    ReachableSession(server, id);
  }

  // ----- LIST -----

  /**
    Every LIST * an IMAP session has answered to its end, whatever else happened between its lines and since: it
    is one line for each mailbox its user has, none twice, and nothing else.
   */
  lemma ImapListIsComplete(server: Server, id: nat, e: nat) returns (order: seq<string>)
    requires Reachable(server) && id in server.sessions && server.sessions[id].ImapSide?
    requires var out := server.sessions[id].imapSession.out; e < |out| && out[e] == Imap.Ok(Imap.LIST_ALL)
    ensures var s := server.sessions[id].imapSession;
            && s.user in server.drops && Imap.Elements(order) == server.drops[s.user].mails.Keys
            && |order| == |server.drops[s.user].mails| && |order| < e
            && (forall i | 0 <= i < |order| :: s.out[e - |order| + i] == Imap.ListLine(order[i]))
            && !s.out[e - |order| - 1].ListLine?
  {
    hide Reachable;
    ReachableSession(server, id);
    var s := server.sessions[id].imapSession;
    assert ListedAll(Names(server.drops, s.user), s.out, e);
    order :| Imap.IsOrder(order, Names(server.drops, s.user)) && LinesBefore(s.out, e, order, |order|);
    DistinctCount(order);
  }

  lemma {:induction false} DistinctCount(names: seq<string>)
    requires forall i, j | 0 <= i < j < |names| :: names[i] != names[j]
    ensures |Imap.Elements(names)| == |names|
  {
    if names != [] {
      var earlier, last := names[..|names| - 1], names[|names| - 1];
      DistinctCount(earlier);
      assert Imap.Elements(names) == Imap.Elements(earlier) + {last};
    }
  }

  // ----- Where deliveries come from -----

  function EventsOf(actions: seq<Action>, id: nat): seq<Smtp.Event> {
    if actions == [] then [] else
    var last := actions[|actions| - 1];
    EventsOf(actions[..|actions| - 1], id) + if last.ResumeSmtp? && last.id == id then [last.smtpEvent] else []
  }

  function MailsBy(delivered: seq<(nat, Mail)>, id: nat): seq<Mail> {
    if delivered == [] then [] else
    var last := delivered[|delivered| - 1];
    MailsBy(delivered[..|delivered| - 1], id) + if last.0 == id then [last.1] else []
  }

  ghost predicate RunsAlone(server: Server, actions: seq<Action>, id: nat) {
    if id in server.sessions && server.sessions[id].SmtpSide? then
      Smtp.Run(EventsOf(actions, id)) == Some((server.sessions[id].smtpSession, MailsBy(server.delivered, id)))
    else EventsOf(actions, id) == [] && MailsBy(server.delivered, id) == []
  }

  lemma SmtpRunsAlone(server: Server, earlier: seq<Action>, id: nat, e: Smtp.Event)
    requires RunsAlone(server, earlier, id) && Enabled(server, ResumeSmtp(id, e))
    ensures RunsAlone(Step(server, ResumeSmtp(id, e)), earlier + [ResumeSmtp(id, e)], id)
  {
    hide Smtp.Step, Smtp.Delivered;
    var last := ResumeSmtp(id, e);
    assert (earlier + [last])[..|earlier|] == earlier;
    var events := EventsOf(earlier, id);
    assert (events + [e])[..|events|] == events;
    var (s, mail) := Smtp.Step(server.sessions[id].smtpSession, e);
    if mail.Some? {
      assert (server.delivered + [(id, mail.value)])[..|server.delivered|] == server.delivered;
    } else {
      assert server.delivered + [] == server.delivered;
      assert MailsBy(server.delivered, id) + [] == MailsBy(server.delivered, id);
    }
  }

  lemma OthersRunAlone(server: Server, earlier: seq<Action>, id: nat, action: Action)
    requires RunsAlone(server, earlier, id) && Enabled(server, action)
    requires !(action.ResumeSmtp? && action.id == id)
    ensures RunsAlone(Step(server, action), earlier + [action], id)
  {
    hide Smtp.Step, Smtp.Delivered, Pop3.Step, Imap.Step, Smtp.Enabled, Pop3.Enabled, Imap.Enabled;
    assert (earlier + [action])[..|earlier|] == earlier;
    assert EventsOf(earlier + [action], id) == EventsOf(earlier, id);
    assert Smtp.Run([]) == Some((Smtp.START, []));
    if action.ResumeSmtp? {
      var mail := Smtp.Step(server.sessions[action.id].smtpSession, action.smtpEvent).1;
      if mail.Some? {
        assert (server.delivered + [(action.id, mail.value)])[..|server.delivered|] == server.delivered;
        assert MailsBy(server.delivered, id) + [] == MailsBy(server.delivered, id);
      } else {
        assert server.delivered + [] == server.delivered;
      }
    }
  }

  lemma RunsFromStart()
    ensures Run([]) == Some(START)
  {
  }

  lemma StartRunsAlone(id: nat)
    ensures RunsAlone(START, [], id)
  {
  }

  lemma {:induction false} SessionsRunAlone(actions: seq<Action>, id: nat)
    requires Run(actions).Some?
    ensures RunsAlone(Run(actions).value, actions, id)
  {
    hide RunsAlone, Step, Enabled, Run, START, INITIAL_DROPS, GREETINGS;
    if actions != [] {
      var earlier, last := actions[..|actions| - 1], actions[|actions| - 1];
      LastStep(actions);
      SessionsRunAlone(earlier, id);
      assert earlier + [last] == actions;
      if last.ResumeSmtp? && last.id == id {
        SmtpRunsAlone(Run(earlier).value, earlier, id, last.smtpEvent);
      } else {
        OthersRunAlone(Run(earlier).value, earlier, id, last);
      }
    } else {
      assert Run([]) == Some(START) by { RunsFromStart(); }
      StartRunsAlone(id);
    }
  }

  /**
    However the sessions interleave, the mails delivered by each session are, one for each body it has read and in
    that order, the outcomes of its own complete transactions, as its own input shows them; no body makes two.
   */
  lemma {:induction false} DeliveriesAreTransactions(actions: seq<Action>, id: nat)
    requires Run(actions).Some?
    ensures var delivered, inputs := Run(actions).value.delivered, Smtp.Inputs(EventsOf(actions, id));
            && Smtp.AllTransactions(inputs, MailsBy(delivered, id))
            && forall i, j | 0 <= i < j < |Smtp.Bodies(inputs)| :: Smtp.Bodies(inputs)[i] < Smtp.Bodies(inputs)[j]
  {
    hide Smtp.AllTransactions, Run;
    SessionsRunAlone(actions, id);
    var events := EventsOf(actions, id);
    if Smtp.Run(events).Some? {
      Smtp.DeliversTransactions(events);
    }
    assert Smtp.AllTransactions([], []) by { NoTransactions(); }
    Smtp.BodiesIncrease(Smtp.Inputs(events));
  }

  lemma NoTransactions()
    ensures Smtp.AllTransactions([], [])
  {
  }
}
