/**
  Over every run of the mail server each POP3 and IMAP session is what its own dialogue says, whatever the others do.
  So locks, lists and ends can be read off the lines the clients send.
 */
module Dialogues {
  import opened Maildrops
  import opened Options
  import opened MailServer
  import Guarantees
  import Listings
  import P = Pop3Dialogue
  import I = ImapDialogue

  function ProtocolOf(actions: seq<Action>, id: nat): Option<Protocol> {
    if actions == [] then None else
    var last := actions[|actions| - 1];
    if last.Accept? && last.id == id then Some(last.protocol) else ProtocolOf(actions[..|actions| - 1], id)
  }

  function DropsAfter(actions: seq<Action>): Drops {
    if Run(actions).Some? then Run(actions).value.drops else INITIAL_DROPS
  }

  // What resumed the session, and what the storage was then.
  function Pop3Moments(actions: seq<Action>, id: nat): seq<P.Moment> {
    if actions == [] then [] else
    var earlier, last := actions[..|actions| - 1], actions[|actions| - 1];
    Pop3Moments(earlier, id)
    + if last.ResumePop3? && last.id == id then [P.Moment(DropsAfter(earlier), last.pop3Event)] else []
  }

  function ImapMoments(actions: seq<Action>, id: nat): seq<I.Moment> {
    if actions == [] then [] else
    var earlier, last := actions[..|actions| - 1], actions[|actions| - 1];
    ImapMoments(earlier, id)
    + if last.ResumeImap? && last.id == id then [I.Moment(DropsAfter(earlier), last.imapEvent)] else []
  }

  ghost predicate IsItsDialogue(server: Server, actions: seq<Action>, id: nat) {
    && (id in server.sessions <==> ProtocolOf(actions, id).Some?)
    && match ProtocolOf(actions, id)
       case None => Pop3Moments(actions, id) == [] && ImapMoments(actions, id) == []
       case Some(SMTP) => server.sessions[id].SmtpSide?
       case Some(POP3) =>
         server.sessions[id].Pop3Side? && P.Run(Pop3Moments(actions, id)) == Some(server.sessions[id].pop3Session)
       case Some(IMAP) =>
         server.sessions[id].ImapSide? && I.Run(ImapMoments(actions, id)) == Some(server.sessions[id].imapSession)
  }

  lemma {:induction false} MomentsGrow(earlier: seq<Action>, action: Action, id: nat)
    ensures ProtocolOf(earlier + [action], id)
         == if action.Accept? && action.id == id then Some(action.protocol) else ProtocolOf(earlier, id)
    ensures Pop3Moments(earlier + [action], id)
         == if action.ResumePop3? && action.id == id then
              Pop3Moments(earlier, id) + [P.Moment(DropsAfter(earlier), action.pop3Event)]
            else Pop3Moments(earlier, id)
    ensures ImapMoments(earlier + [action], id)
         == if action.ResumeImap? && action.id == id then
              ImapMoments(earlier, id) + [I.Moment(DropsAfter(earlier), action.imapEvent)]
            else ImapMoments(earlier, id)
  {
    hide DropsAfter;
    assert (earlier + [action])[..|earlier|] == earlier;
    assert Pop3Moments(earlier, id) + [] == Pop3Moments(earlier, id);
    assert ImapMoments(earlier, id) + [] == ImapMoments(earlier, id);
  }

  lemma {:induction false} Pop3RunGrows(h: seq<P.Moment>, m: P.Moment)
    requires P.Run(h).Some? && Pop3.Enabled(P.Run(h).value, m.event)
    ensures P.Run(h + [m]) == Some(Pop3.Step(m.drops, P.Run(h).value, m.event).1)
  {
    hide Pop3.Step, Pop3.Enabled;
    assert (h + [m])[..|h|] == h;
  }

  lemma {:induction false} ImapRunGrows(h: seq<I.Moment>, m: I.Moment)
    requires I.Run(h).Some? && Imap.Enabled(m.drops, I.Run(h).value, m.event)
    ensures I.Run(h + [m]) == Some(Imap.Step(m.drops, I.Run(h).value, m.event))
  {
    hide Imap.Step, Imap.Enabled;
    assert (h + [m])[..|h|] == h;
  }

  lemma OwnStep(server: Server, action: Action)
    requires Enabled(server, action) && (action.ResumePop3? || action.ResumeImap?)
    ensures var sessions := Step(server, action).sessions;
            && action.id in sessions
            && sessions[action.id]
               == if action.ResumePop3? then
                    Pop3Side(Pop3.Step(server.drops, server.sessions[action.id].pop3Session, action.pop3Event).1)
                  else ImapSide(Imap.Step(server.drops, server.sessions[action.id].imapSession, action.imapEvent))
  {
    hide Pop3.Step, Imap.Step, Pop3.Enabled, Imap.Enabled;
  }

  lemma {:induction false} OwnPop3Step(server: Server, earlier: seq<Action>, id: nat, e: Pop3.Event)
    requires Run(earlier) == Some(server) && Enabled(server, ResumePop3(id, e)) && IsItsDialogue(server, earlier, id)
    ensures IsItsDialogue(Step(server, ResumePop3(id, e)), earlier + [ResumePop3(id, e)], id)
  {
    OwnStep(server, ResumePop3(id, e));
    assert DropsAfter(earlier) == server.drops;
    hide Run, P.Run, I.Run, Step, Pop3.Step, Pop3.Enabled, Pop3Moments, ImapMoments, ProtocolOf, DropsAfter;
    MomentsGrow(earlier, ResumePop3(id, e), id);
    Pop3RunGrows(Pop3Moments(earlier, id), P.Moment(server.drops, e));
  }

  lemma {:induction false} OwnImapStep(server: Server, earlier: seq<Action>, id: nat, e: Imap.Event)
    requires Run(earlier) == Some(server) && Enabled(server, ResumeImap(id, e)) && IsItsDialogue(server, earlier, id)
    ensures IsItsDialogue(Step(server, ResumeImap(id, e)), earlier + [ResumeImap(id, e)], id)
  {
    OwnStep(server, ResumeImap(id, e));
    assert DropsAfter(earlier) == server.drops;
    hide Run, P.Run, I.Run, Step, Imap.Step, Imap.Enabled, Pop3Moments, ImapMoments, ProtocolOf, DropsAfter;
    MomentsGrow(earlier, ResumeImap(id, e), id);
    ImapRunGrows(ImapMoments(earlier, id), I.Moment(server.drops, e));
  }

  lemma {:induction false} OtherStep(server: Server, earlier: seq<Action>, id: nat, action: Action)
    requires Run(earlier) == Some(server) && Enabled(server, action) && IsItsDialogue(server, earlier, id)
    requires !(action.ResumePop3? && action.id == id) && !(action.ResumeImap? && action.id == id)
    ensures IsItsDialogue(Step(server, action), earlier + [action], id)
  {
    MomentsGrow(earlier, action, id);
    assert P.Run([]) == Some(Pop3.START) && I.Run([]) == Some(Imap.START);
    if action.Accept? && action.id == id {
      hide Run, P.Run, I.Run, Pop3Moments, ImapMoments, ProtocolOf, Enabled, DropsAfter;
    } else {
      Unaffected(server, action, id);
      hide Run, P.Run, I.Run, Pop3Moments, ImapMoments, ProtocolOf, Enabled, DropsAfter, Step;
    }
  }

  lemma Unaffected(server: Server, action: Action, id: nat)
    requires Enabled(server, action) && (action.id != id || action.ResumeSmtp?)
    ensures var server' := Step(server, action);
            && (id in server'.sessions <==> id in server.sessions)
            && (id in server.sessions ==>
                  server'.sessions[id] == server.sessions[id]
                  || (server.sessions[id].SmtpSide? && server'.sessions[id].SmtpSide?))
  {
    hide Pop3.Step, Imap.Step, Smtp.Step, Pop3.Enabled, Imap.Enabled, Smtp.Enabled, Smtp.Delivered;
  }

  lemma StartsAlone(id: nat)
    ensures IsItsDialogue(START, [], id)
  {
  }

  lemma {:induction false} SessionsAreTheirDialogues(actions: seq<Action>, id: nat)
    requires Run(actions).Some?
    ensures IsItsDialogue(Run(actions).value, actions, id)
  {
    hide IsItsDialogue, Step, Enabled, Run, START, INITIAL_DROPS, GREETINGS;
    if actions == [] {
      assert Run([]) == Some(START) by { Guarantees.RunsFromStart(); }
      StartsAlone(id);
    } else {
      var earlier, last := actions[..|actions| - 1], actions[|actions| - 1];
      LastStep(actions);
      SessionsAreTheirDialogues(earlier, id);
      assert earlier + [last] == actions;
      if last.ResumePop3? && last.id == id {
        OwnPop3Step(Run(earlier).value, earlier, id, last.pop3Event);
      } else if last.ResumeImap? && last.id == id {
        OwnImapStep(Run(earlier).value, earlier, id, last.imapEvent);
      } else {
        OtherStep(Run(earlier).value, earlier, id, last);
      }
    }
  }

  // ----- The storage the sessions find -----

  lemma {:induction false} NoMailForNobody(delivered: seq<(nat, Mail)>)
    ensures MailsFor(delivered, "") == []
  {
    if delivered != [] {
      NoMailForNobody(delivered[..|delivered| - 1]);
      assert !IsLocal("");
    }
  }

  lemma {:induction false} StorageIsKept(actions: seq<Action>)
    requires Run(actions).Some?
    ensures EveryDropHasInbox(Run(actions).value.drops) && "" !in Run(actions).value.drops
  {
    RunKeepsInv(actions);
    var server := Run(actions).value;
    hide Run, SessionsInv, LocksAreHeld, InboxesMatch, EveryDropHasInbox;
    NoMailForNobody(server.delivered);
    assert "" !in INITIAL_DROPS;
  }

  lemma {:induction false} DropsGrow(actions: seq<Action>)
    requires Run(actions).Some? && actions != []
    ensures Run(actions[..|actions| - 1]).Some?
    ensures Run(actions[..|actions| - 1]).value.drops.Keys <= Run(actions).value.drops.Keys
  {
    hide Run, Inv, Step, Enabled;
    LastStep(actions);
    RunKeepsInv(actions[..|actions| - 1]);
    StepKeepsInv(Run(actions[..|actions| - 1]).value, actions[|actions| - 1]);
  }

  // Steady, and nobody has gone since.
  ghost predicate SteadyUpTo(h: seq<P.Moment>, i: seq<I.Moment>, drops: Drops) {
    && P.Steady(h) && (forall k | 0 <= k < |h| :: h[k].drops.Keys <= drops.Keys)
    && I.Steady(i) && (forall k | 0 <= k < |i| :: i[k].drops.Keys <= drops.Keys)
  }

  lemma SteadyGrows(h: seq<P.Moment>, i: seq<I.Moment>, drops: Drops, drops': Drops, e: Pop3.Event, f: Imap.Event)
    requires SteadyUpTo(h, i, drops) && drops.Keys <= drops'.Keys
    requires EveryDropHasInbox(drops) && "" !in drops
    ensures SteadyUpTo(h, i, drops') && SteadyUpTo(h + [P.Moment(drops, e)], i, drops')
    ensures SteadyUpTo(h, i + [I.Moment(drops, f)], drops')
  {
    hide EveryDropHasInbox;
    forall m | m in h + [P.Moment(drops, e)]
      ensures EveryDropHasInbox(m.drops) && "" !in m.drops
    {
      assert m in h || m == P.Moment(drops, e);
    }
  }

  lemma {:induction false} DialoguesAreSteady(actions: seq<Action>, id: nat)
    requires Run(actions).Some?
    ensures SteadyUpTo(Pop3Moments(actions, id), ImapMoments(actions, id), Run(actions).value.drops)
  {
    if actions != [] {
      hide SteadyUpTo, Run, EveryDropHasInbox;
      var earlier, last := actions[..|actions| - 1], actions[|actions| - 1];
      DropsGrow(actions);
      StorageIsKept(earlier);
      DialoguesAreSteady(earlier, id);
      assert earlier + [last] == actions;
      MomentsGrow(earlier, last, id);
      var drops, drops' := Run(earlier).value.drops, Run(actions).value.drops;
      SteadyGrows(Pop3Moments(earlier, id), ImapMoments(earlier, id), drops, drops',
                  if last.ResumePop3? then last.pop3Event else Pop3.Sent,
                  if last.ResumeImap? then last.imapEvent else Imap.Sent);
    }
  }

  // ----- What the clients get -----

  /** A POP3 session's user, replies, lock and point are those its dialogue says. */
  lemma {:induction false} Pop3SessionIsItsDialogue(actions: seq<Action>, id: nat)
    requires Run(actions).Some? && id in Run(actions).value.sessions && Run(actions).value.sessions[id].Pop3Side?
    ensures P.Steady(Pop3Moments(actions, id))
    ensures P.Run(Pop3Moments(actions, id)) == Some(Run(actions).value.sessions[id].pop3Session)
    ensures Run(actions).value.sessions[id].pop3Session == P.Expected(Pop3Moments(actions, id))
  {
    hide Run, P.Run, I.Run, P.Expected, P.Steady;
    SessionsAreTheirDialogues(actions, id);
    DialoguesAreSteady(actions, id);
    P.RunIsExpected(Pop3Moments(actions, id));
  }

  /** And so are an IMAP session's. */
  lemma {:induction false} ImapSessionIsItsDialogue(actions: seq<Action>, id: nat)
    requires Run(actions).Some? && id in Run(actions).value.sessions && Run(actions).value.sessions[id].ImapSide?
    ensures I.Steady(ImapMoments(actions, id))
    ensures I.Run(ImapMoments(actions, id)) == Some(Run(actions).value.sessions[id].imapSession)
    ensures Run(actions).value.sessions[id].imapSession == I.Expected(ImapMoments(actions, id))
  {
    hide Run, P.Run, I.Run, I.Expected, I.Steady;
    SessionsAreTheirDialogues(actions, id);
    DialoguesAreSteady(actions, id);
    I.RunIsExpected(ImapMoments(actions, id));
  }

  // By its dialogue, the session has opened the user's maildrop with PASS and has not ended.
  ghost predicate HasOpen(actions: seq<Action>, id: nat, user: string) {
    var h := Pop3Moments(actions, id);
    ProtocolOf(actions, id) == Some(POP3) && P.Opened(h) && !P.Over(h) && P.User(h) == user
  }

  lemma {:induction false} KindIsAccepted(actions: seq<Action>, id: nat)
    requires Run(actions).Some?
    ensures id in Run(actions).value.sessions && Run(actions).value.sessions[id].Pop3Side?
       <==> ProtocolOf(actions, id) == Some(POP3)
  {
    hide Run, P.Run, I.Run, Pop3Moments, ImapMoments, ProtocolOf;
    SessionsAreTheirDialogues(actions, id);
  }

  lemma {:induction false} HoldsWhenOpen(actions: seq<Action>, id: nat, user: string)
    requires Run(actions).Some?
    ensures Holds(Run(actions).value.sessions, id, user) <==> HasOpen(actions, id, user)
  {
    var server := Run(actions).value;
    hide Run, P.Run, P.Steady, P.Opened, P.Over, P.User, P.Said, P.Where, Pop3Moments, ProtocolOf;
    KindIsAccepted(actions, id);
    if id in server.sessions && server.sessions[id].Pop3Side? {
      Pop3SessionIsItsDialogue(actions, id);
    }
  }

  /**
    Whose maildrop is locked, by the dialogues: a maildrop is locked exactly while one session, and no other, has
    named its user in USER, opened it with PASS and has not ended.
   */
  lemma {:induction false} LocksFollowDialogues(actions: seq<Action>, user: string)
    requires Run(actions).Some? && user in Run(actions).value.drops
    ensures Run(actions).value.drops[user].locked <==> exists id :: HasOpen(actions, id, user)
    ensures forall id, id' | HasOpen(actions, id, user) && HasOpen(actions, id', user) :: id == id'
  {
    var server := Run(actions).value;
    assert Reachable(server);
    hide Run, HasOpen, Reachable;
    Guarantees.LockHasOneHolder(server, user);
    forall id
      ensures Holds(server.sessions, id, user) <==> HasOpen(actions, id, user)
    {
      HoldsWhenOpen(actions, id, user);
    }
  }

  /**
    QUIT ends a POP3 session: it is the last line the session reads, and the next thing that happens to it, the
    written reply or a lost connection, ends it. It then holds no maildrop, and the one it held is unlocked.
   */
  lemma {:induction false} QuitFreesMaildrop(actions: seq<Action>, id: nat, e: Pop3.Event)
    requires Run(actions).Some? && ProtocolOf(actions, id) == Some(POP3) && P.QuitRead(Pop3Moments(actions, id))
    requires Enabled(Run(actions).value, ResumePop3(id, e))
    ensures e == Pop3.Sent || e == Pop3.Broken
    ensures var server, server' := Run(actions).value, Step(Run(actions).value, ResumePop3(id, e));
            var user := P.User(Pop3Moments(actions, id));
            && id in server'.sessions && server'.sessions[id].Pop3Side?
            && server'.sessions[id].pop3Session.point == Pop3.Ended
            && (forall u :: !Holds(server'.sessions, id, u))
            && (P.Opened(Pop3Moments(actions, id)) ==>
                  && user in server.drops && server.drops[user].locked
                  && user in server'.drops && !server'.drops[user].locked)
  {
    hide Run, P.Opened, P.User, Step, Enabled, Holds, Pop3Moments, ProtocolOf, P.QuitRead;
    AfterQuit(actions, id, e);
    if P.Opened(Pop3Moments(actions, id)) {
      QuitUnlocks(actions, id, e);
    }
  }

  lemma {:induction false} AfterQuit(actions: seq<Action>, id: nat, e: Pop3.Event)
    requires Run(actions).Some? && ProtocolOf(actions, id) == Some(POP3) && P.QuitRead(Pop3Moments(actions, id))
    requires Enabled(Run(actions).value, ResumePop3(id, e))
    ensures e == Pop3.Sent || e == Pop3.Broken
    ensures id in Run(actions).value.sessions && Run(actions).value.sessions[id].Pop3Side?
    ensures !Run(actions).value.sessions[id].pop3Session.point.Ended?
    ensures var s' := Pop3.Step(Run(actions).value.drops, Run(actions).value.sessions[id].pop3Session, e).1;
            s'.point == Pop3.Ended && s'.lock == None
    ensures var sessions := Step(Run(actions).value, ResumePop3(id, e)).sessions;
            id in sessions && sessions[id].Pop3Side? && sessions[id].pop3Session.point == Pop3.Ended
    ensures forall u :: !Holds(Step(Run(actions).value, ResumePop3(id, e)).sessions, id, u)
  {
    var server, h := Run(actions).value, Pop3Moments(actions, id);
    var m := P.Moment(server.drops, e);
    KindIsAccepted(actions, id);
    Pop3SessionIsItsDialogue(actions, id);
    SteadyNow(actions, id, e);
    hide Run, P.Run, P.Steady, P.Expected, Pop3Moments, ProtocolOf, Pop3.Step;
    P.QuitEnds(h, |h| - 1);
    Pop3RunGrows(h, m);
    assert (h + [m])[|h| - 1] == h[|h| - 1];
    P.QuitEnds(h + [m], |h| - 1);
  }

  lemma {:induction false} SteadyNow(actions: seq<Action>, id: nat, e: Pop3.Event)
    requires Run(actions).Some?
    ensures P.Steady(Pop3Moments(actions, id) + [P.Moment(Run(actions).value.drops, e)])
  {
    hide Run, EveryDropHasInbox;
    DialoguesAreSteady(actions, id);
    StorageIsKept(actions);
    var drops := Run(actions).value.drops;
    SteadyGrows(Pop3Moments(actions, id), ImapMoments(actions, id), drops, drops, e, Imap.Sent);
  }

  lemma {:induction false} QuitUnlocks(actions: seq<Action>, id: nat, e: Pop3.Event)
    requires Run(actions).Some? && ProtocolOf(actions, id) == Some(POP3) && P.QuitRead(Pop3Moments(actions, id))
    requires Enabled(Run(actions).value, ResumePop3(id, e)) && P.Opened(Pop3Moments(actions, id))
    ensures var server, server' := Run(actions).value, Step(Run(actions).value, ResumePop3(id, e));
            var user := P.User(Pop3Moments(actions, id));
            && user in server.drops && user in server'.drops
            && server.drops[user].locked && !server'.drops[user].locked
  {
    var server, h := Run(actions).value, Pop3Moments(actions, id);
    AfterQuit(actions, id, e);
    Pop3SessionIsItsDialogue(actions, id);
    assert Reachable(server);
    hide Run, P.Run, P.Steady, P.Opened, P.Over, P.User, Reachable, Pop3Moments, ProtocolOf, Pop3.Step, P.Said;
    P.LiveWhen(h);
    assert Holds(server.sessions, id, P.User(h));
    ReachableInv(server);
    assert P.User(h) in server.drops;
    Guarantees.LockHasOneHolder(server, P.User(h));
    Guarantees.EndingReleasesLock(server, id, e, P.User(h));
  }

  lemma {:induction false} OneMoreAction(actions: seq<Action>, action: Action)
    requires Run(actions).Some? && Enabled(Run(actions).value, action)
    ensures Run(actions + [action]) == Some(Step(Run(actions).value, action))
  {
    hide Step, Enabled;
    assert (actions + [action])[..|actions|] == actions;
  }

  /**
    Every LIST answered to its end is about the INBOX of the user that the dialogue names; see
    `Listings.ListAnswersAreRight`.
   */
  lemma ListsAreForNamedUser(actions: seq<Action>, id: nat, e: nat) returns (h: nat, t0: nat, t1: nat)
    requires Run(actions).Some?
    requires var out := Listings.OutOf(Run(actions).value, id); e < |out| && out[e] == Pop3.ListEnd
    ensures h < e && t0 < t1 <= |actions|
    ensures Listings.JustWrote(actions[..t0], id, h) && Listings.JustWrote(actions[..t1], id, e)
    ensures Run(actions[..t0]).value.delivered <= Run(actions[..t1]).value.delivered
    ensures var server := Run(actions).value;
            var out, user := Listings.OutOf(server, id), P.User(Pop3Moments(actions, id));
            var inbox := Inbox(server.drops, user);
            var between := Listings.DeliveredBetween(Run(actions[..t0]).value, Run(actions[..t1]).value);
            && out[h].ListOk? && e - h - 1 == out[h].count + |MailsFor(between, user)| && e - h - 1 <= |inbox|
            && (forall j | 0 <= j < e - h - 1 ::
                  out[h + 1 + j] == Pop3.ListEntry(j + 1, MessageSize(inbox[j].message)))
  {
    h, t0, t1 := Listings.ListAnswersAreRight(actions, id, e);
    hide Run, Listings.JustWrote, Inbox, MailsFor, P.User, Pop3Moments, Listings.DeliveredBetween;
    Pop3SessionIsItsDialogue(actions, id);
  }

  /** Every LIST * answered to its end lists the mailboxes of the user that the dialogue logs in. */
  lemma ImapListsAreForLoggedIn(actions: seq<Action>, id: nat, e: nat) returns (order: seq<string>)
    requires Run(actions).Some? && id in Run(actions).value.sessions && Run(actions).value.sessions[id].ImapSide?
    requires var out := Run(actions).value.sessions[id].imapSession.out;
             e < |out| && out[e] == Imap.Ok(Imap.List(true, "*"))
    ensures var server, user := Run(actions).value, I.User(ImapMoments(actions, id));
            var out := server.sessions[id].imapSession.out;
            && user in server.drops && Imap.Elements(order) == server.drops[user].mails.Keys
            && |order| == |server.drops[user].mails| && |order| < e
            && (forall i | 0 <= i < |order| :: out[e - |order| + i] == Imap.ListLine(order[i]))
            && !out[e - |order| - 1].ListLine?
  {
    assert Reachable(Run(actions).value);
    hide Run, I.User, ImapMoments, Reachable;
    order := Guarantees.ImapListIsComplete(Run(actions).value, id, e);
    ImapSessionIsItsDialogue(actions, id);
  }

  /** LOGOUT ends an IMAP session, with its two replies or without. */
  lemma {:induction false} LogoutEndsSession(actions: seq<Action>, id: nat, k: nat)
    requires Run(actions).Some? && id in Run(actions).value.sessions && Run(actions).value.sessions[id].ImapSide?
    requires k < |ImapMoments(actions, id)| && I.IsLine(ImapMoments(actions, id)[k], Imap.Logout)
    ensures var h, s := ImapMoments(actions, id), Run(actions).value.sessions[id].imapSession;
            && |h| <= k + 3 && !s.point.Reading? && s.out != []
            && (s.point.Ended? <==> |h| == k + 3 || (|h| == k + 2 && h[k + 1].event == Imap.Broken))
            && (s.out[|s.out| - 1] == if |h| == k + 1 || h[k + 1].event == Imap.Broken then Imap.Bye
                                      else Imap.Ok(Imap.Logout))
  {
    hide Run, I.Run, I.Expected, ImapMoments, I.Steady;
    ImapSessionIsItsDialogue(actions, id);
    I.LogoutEnds(ImapMoments(actions, id), k);
  }
}
