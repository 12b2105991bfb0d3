/** POP3 LIST over whole runs: what is listed, how that differs from what was announced, and runs in which it does. */
module Listings {
  import opened Maildrops
  import opened Options
  import opened MailServer

  // ----- When a reply was written -----

  function OutOf(server: Server, id: nat): seq<Pop3.Reply> {
    if id in server.sessions && server.sessions[id].Pop3Side? then server.sessions[id].pop3Session.out else []
  }

  function UserOf(server: Server, id: nat): string {
    if id in server.sessions && server.sessions[id].Pop3Side? then server.sessions[id].pop3Session.user else ""
  }

  // The last action of the run wrote reply i of the session.
  predicate JustWrote(actions: seq<Action>, id: nat, i: nat) {
    && actions != [] && Run(actions).Some?
    && |OutOf(Run(actions[..|actions| - 1]).value, id)| == i
    && |OutOf(Run(actions).value, id)| == i + 1
  }

  // Later in a run nothing written or delivered is gone, and a session keeps its user.
  predicate Follows(server: Server, server': Server, id: nat) {
    && OutOf(server, id) <= OutOf(server', id)
    && server.delivered <= server'.delivered
    && (UserOf(server, id) != "" ==> UserOf(server', id) == UserOf(server, id))
  }

  lemma Pop3StepFollows(drops: Drops, s: Pop3.Session, e: Pop3.Event)
    requires Pop3.Enabled(s, e)
    ensures var s' := Pop3.Step(drops, s, e).1;
            && s.out <= s'.out && |s'.out| <= |s.out| + 1
            && (s.user != "" ==> s'.user == s.user)
  {
    hide Octets, MessageSize, SetLock;
  }

  lemma StepFollows(server: Server, action: Action, id: nat)
    requires Enabled(server, action)
    ensures Follows(server, Step(server, action), id)
    ensures |OutOf(Step(server, action), id)| <= |OutOf(server, id)| + 1
  {
    hide Smtp.Step, Pop3.Step, Imap.Step, Smtp.Enabled, Pop3.Enabled, Imap.Enabled, Smtp.Delivered;
    if action.ResumePop3? && action.id == id {
      Pop3StepFollows(server.drops, server.sessions[id].pop3Session, action.pop3Event);
    }
  }

  lemma {:induction false} RunFollows(actions: seq<Action>, t: nat, id: nat)
    requires Run(actions).Some? && t <= |actions|
    ensures Run(actions[..t]).Some? && Follows(Run(actions[..t]).value, Run(actions).value, id)
    decreases |actions|
  {
    if t == |actions| {
      assert actions[..t] == actions;
    } else {
      var earlier := actions[..|actions| - 1];
      assert earlier[..t] == actions[..t];
      hide Step, Enabled;
      RunFollows(earlier, t, id);
      StepFollows(Run(earlier).value, actions[|actions| - 1], id);
    }
  }

  lemma {:induction false} WhenWritten(actions: seq<Action>, id: nat, i: nat) returns (t: nat)
    requires Run(actions).Some? && i < |OutOf(Run(actions).value, id)|
    ensures t <= |actions| && JustWrote(actions[..t], id, i)
  {
    var earlier := actions[..|actions| - 1];
    hide Step, Enabled;
    StepFollows(Run(earlier).value, actions[|actions| - 1], id);
    if i < |OutOf(Run(earlier).value, id)| {
      t := WhenWritten(earlier, id, i);
      assert earlier[..t] == actions[..t];
    } else {
      t := |actions|;
      assert actions[..t] == actions;
    }
  }

  // ----- The inbox when the header and when the end are written -----

  lemma HeaderCountsInbox(drops: Drops, s: Pop3.Session, e: Pop3.Event)
    requires Pop3Inv(drops, s) && EveryDropHasInbox(drops) && Pop3.Enabled(s, e)
    ensures var (drops', s') := Pop3.Step(drops, s, e);
            |s'.out| == |s.out| + 1 && s'.out[|s.out|].ListOk? ==>
              s'.user != "" && s'.out[|s.out|].count == |Inbox(drops', s'.user)|
  {
    hide Octets, MessageSize, ListsAreRight, Listed;
  }

  // The number of entries written before a step from here ends the list.
  function EntriesWritten(point: Pop3.Point): nat {
    if point.ListLine? then point.index + 1 else 0
  }

  lemma EndFindsInbox(drops: Drops, s: Pop3.Session, e: Pop3.Event)
    requires Pop3Inv(drops, s) && EveryDropHasInbox(drops) && Pop3.Enabled(s, e)
    ensures var (drops', s') := Pop3.Step(drops, s, e);
            var m := EntriesWritten(s.point);
            |s'.out| == |s.out| + 1 && s'.out[|s.out|].ListEnd? ==>
              && s'.user != "" && m == |Inbox(drops', s'.user)|
              && m < |s.out| && s'.out[|s.out| - m - 1].ListOk?
              && forall j | |s.out| - m <= j < |s.out| :: s'.out[j].ListEntry?
  {
    hide Octets, MessageSize, ListsAreRight;
    if s.point.ListLine? {
      EntriesAreEntries(Inbox(drops, s.user), s.out, |s.out| - s.point.index - 2, s.point.index + 1);
    }
  }

  lemma EntriesAreEntries(inbox: seq<Mail>, out: seq<Pop3.Reply>, h: nat, m: nat)
    requires Listed(inbox, out, h, m)
    ensures out[h].ListOk? && forall j | h < j <= h + m :: out[j].ListEntry?
  {
    forall j | h < j <= h + m
      ensures out[j].ListEntry?
    {
      var i := j - h - 1;
      assert out[h + 1 + i] == Pop3.ListEntry(i + 1, MessageSize(inbox[i].message));
    }
  }

  // A reply other than a greeting comes from a step of the session itself.
  lemma OwnStepWrites(before: Server, action: Action, id: nat) returns (s: Pop3.Session, e: Pop3.Event)
    requires Inv(before) && Enabled(before, action)
    requires var out := OutOf(Step(before, action), id);
             |out| == |OutOf(before, id)| + 1 && !out[|out| - 1].Greeting?
    ensures Pop3Inv(before.drops, s) && Pop3.Enabled(s, e) && EveryDropHasInbox(before.drops)
    ensures OutOf(before, id) == s.out
    ensures var (drops', s') := Pop3.Step(before.drops, s, e);
            var after := Step(before, action);
            after.drops == drops' && OutOf(after, id) == s'.out && UserOf(after, id) == s'.user
  {
    hide Smtp.Step, Pop3.Step, Imap.Step, Smtp.Enabled, Pop3.Enabled, Imap.Enabled, Smtp.Delivered;
    hide Pop3Inv, EveryDropHasInbox, LocksAreHeld, InboxesMatch, BoxesMatch;
    s, e := before.sessions[id].pop3Session, action.pop3Event;
    assert SessionInv(before.drops, before.sessions[id]);
  }

  lemma {:induction false} HeaderWritten(actions: seq<Action>, id: nat, h: nat)
    requires JustWrote(actions, id, h) && OutOf(Run(actions).value, id)[h].ListOk?
    ensures var server := Run(actions).value;
            && UserOf(server, id) != ""
            && OutOf(server, id)[h].count == |Inbox(server.drops, UserOf(server, id))|
  {
    hide Inv, Step, Enabled, Inbox, OutOf, UserOf, Pop3Inv, EveryDropHasInbox, Pop3.Step, Pop3.Enabled;
    var before := Run(actions[..|actions| - 1]).value;
    RunKeepsInv(actions[..|actions| - 1]);
    var s, e := OwnStepWrites(before, actions[|actions| - 1], id);
    HeaderCountsInbox(before.drops, s, e);
  }

  lemma EndWritten(actions: seq<Action>, id: nat, e: nat) returns (h: nat)
    requires JustWrote(actions, id, e) && OutOf(Run(actions).value, id)[e].ListEnd?
    ensures var server := Run(actions).value;
            var out := OutOf(server, id);
            && UserOf(server, id) != ""
            && h < e && e - h - 1 == |Inbox(server.drops, UserOf(server, id))|
            && out[h].ListOk? && forall j | h < j < e :: out[j].ListEntry?
  {
    hide Inv, Step, Enabled, Inbox, OutOf, UserOf, Pop3Inv, EveryDropHasInbox, Pop3.Step, Pop3.Enabled;
    var before := Run(actions[..|actions| - 1]).value;
    RunKeepsInv(actions[..|actions| - 1]);
    var s, event := OwnStepWrites(before, actions[|actions| - 1], id);
    EndFindsInbox(before.drops, s, event);
    h := e - EntriesWritten(s.point) - 1;
  }

  // ----- How many messages are listed -----

  function DeliveredBetween(before: Server, after: Server): seq<(nat, Mail)>
    requires before.delivered <= after.delivered
  {
    after.delivered[|before.delivered|..]
  }

  lemma {:induction false} MailsForBoth(a: seq<(nat, Mail)>, b: seq<(nat, Mail)>, user: string)
    ensures MailsFor(a + b, user) == MailsFor(a, user) + MailsFor(b, user)
    decreases |b|
  {
    if b == [] {
      assert a + b == a;
    } else {
      assert (a + b)[..|a + b| - 1] == a + b[..|b| - 1];
      MailsForBoth(a, b[..|b| - 1], user);
    }
  }

  lemma {:induction false} InboxGrowsByDeliveries(before: Server, after: Server, user: string)
    requires InboxesMatch(before.drops, before.delivered) && InboxesMatch(after.drops, after.delivered)
    requires before.delivered <= after.delivered
    ensures Inbox(after.drops, user) == Inbox(before.drops, user) + MailsFor(DeliveredBetween(before, after), user)
  {
    var between := DeliveredBetween(before, after);
    assert after.delivered == before.delivered + between;
    MailsForBoth(before.delivered, between, user);
    hide MailsFor, Inbox;
    assert Inbox(before.drops, user) == Inbox(INITIAL_DROPS, user) + MailsFor(before.delivered, user);
    assert Inbox(after.drops, user) == Inbox(INITIAL_DROPS, user) + MailsFor(after.delivered, user);
  }

  lemma {:induction false} RunMatches(actions: seq<Action>)
    requires Run(actions).Some?
    ensures InboxesMatch(Run(actions).value.drops, Run(actions).value.delivered)
  {
    RunKeepsInv(actions);
  }

  /**
    Every LIST a POP3 session has answered to its end, over all runs. Its header was written by action t0, its end
    by action t1. It lists the announced number of messages and one more for each mail delivered to its user
    between the two, so the announced number is right exactly if there was none.
   */
  lemma ListCountIsExact(actions: seq<Action>, id: nat, e: nat) returns (h: nat, t0: nat, t1: nat)
    requires Run(actions).Some?
    requires var out := OutOf(Run(actions).value, id); e < |out| && out[e] == Pop3.ListEnd
    ensures h < e && t0 < t1 <= |actions|
    ensures JustWrote(actions[..t0], id, h) && JustWrote(actions[..t1], id, e)
    ensures Run(actions[..t0]).value.delivered <= Run(actions[..t1]).value.delivered
    ensures var server := Run(actions).value;
            var out := OutOf(server, id);
            var between := DeliveredBetween(Run(actions[..t0]).value, Run(actions[..t1]).value);
            && out[h].ListOk? && (forall j | h < j < e :: out[j].ListEntry?)
            && e - h - 1 == out[h].count + |MailsFor(between, UserOf(server, id))|
            && (e - h - 1 == out[h].count <==> MailsFor(between, UserOf(server, id)) == [])
  {
    hide Run, Inv, OutOf, UserOf, Inbox, MailsFor, InboxesMatch;
    t1 := WhenWritten(actions, id, e);
    RunFollows(actions, t1, id);
    var upTo := actions[..t1];
    h := EndWritten(upTo, id, e);
    t0 := WhenWritten(upTo, id, h);
    assert upTo[..t0] == actions[..t0];
    RunFollows(upTo, t0, id);
    HeaderWritten(actions[..t0], id, h);
    RunMatches(actions[..t0]);
    RunMatches(upTo);
    InboxGrowsByDeliveries(Run(actions[..t0]).value, Run(upTo).value, UserOf(Run(upTo).value, id));
  }

  // Between a header and an end there is only the one list.
  lemma EntriesAreRight(inbox: seq<Mail>, out: seq<Pop3.Reply>, h: nat, e: nat)
    requires ListsAreRight(inbox, out)
    requires h < e < |out| && out[h].ListOk? && out[e] == Pop3.ListEnd && forall j | h < j < e :: out[j].ListEntry?
    ensures out[h].count <= e - h - 1 <= |inbox|
    ensures forall j | 0 <= j < e - h - 1 ::
              out[h + 1 + j] == Pop3.ListEntry(j + 1, MessageSize(inbox[j].message))
    ensures out[h].octets == TotalSize(inbox[..out[h].count]) <==> TotalSize(inbox[..out[h].count]) < 0x8000_0000
  {
    hide MessageSize, TotalSize, Octets;
    assert ListedUpTo(inbox, out, e);
    var h': nat :| h' < e && Listed(inbox, out, h', e - h' - 1) && out[h'].count <= e - h' - 1;
    EntriesAreEntries(inbox, out, h', e - h' - 1);
    assert h' == h;
    OctetsAreTotal(inbox[..out[h].count]);
  }

  /**
    The whole answer of a completed LIST: entries 1 to m with the sizes of the first m messages, where m is exactly
    as `ListCountIsExact` says, and octets that are the total of the announced messages exactly if it fits an int.
   */
  lemma ListAnswersAreRight(actions: seq<Action>, id: nat, e: nat) returns (h: nat, t0: nat, t1: nat)
    requires Run(actions).Some?
    requires var out := OutOf(Run(actions).value, id); e < |out| && out[e] == Pop3.ListEnd
    ensures h < e && t0 < t1 <= |actions|
    ensures JustWrote(actions[..t0], id, h) && JustWrote(actions[..t1], id, e)
    ensures Run(actions[..t0]).value.delivered <= Run(actions[..t1]).value.delivered
    ensures var server := Run(actions).value;
            var out, user := OutOf(server, id), UserOf(server, id);
            var inbox := Inbox(server.drops, user);
            var between := DeliveredBetween(Run(actions[..t0]).value, Run(actions[..t1]).value);
            && out[h].ListOk? && e - h - 1 == out[h].count + |MailsFor(between, user)| && e - h - 1 <= |inbox|
            && (forall j | 0 <= j < e - h - 1 ::
                  out[h + 1 + j] == Pop3.ListEntry(j + 1, MessageSize(inbox[j].message)))
            && (out[h].octets == TotalSize(inbox[..out[h].count])
                <==> TotalSize(inbox[..out[h].count]) < 0x8000_0000)
  {
    h, t0, t1 := ListCountIsExact(actions, id, e);
    var server := Run(actions).value;
    assert Reachable(server);
    ReachableSession(server, id);
    hide Run, Reachable, Inbox, MailsFor, JustWrote, DeliveredBetween, ListsAreRight;
    EntriesAreRight(Inbox(server.drops, UserOf(server, id)), OutOf(server, id), h, e);
  }

  // ----- How long a list goes on -----

  predicate IsListing(server: Server, id: nat) {
    id in server.sessions && server.sessions[id].Pop3Side?
    && (server.sessions[id].pop3Session.point.ListHeader? || server.sessions[id].pop3Session.point.ListLine?)
  }

  // The entries a LIST in progress has written.
  function Written(server: Server, id: nat): nat
    requires IsListing(server, id)
  {
    EntriesWritten(server.sessions[id].pop3Session.point)
  }

  // How often the session has been resumed.
  function Resumed(actions: seq<Action>, id: nat): nat {
    if actions == [] then 0 else
    var last := actions[|actions| - 1];
    Resumed(actions[..|actions| - 1], id) + if last.ResumePop3? && last.id == id then 1 else 0
  }

  // The session is in its LIST at every moment of `more`.
  predicate KeepsListing(actions: seq<Action>, more: seq<Action>, id: nat) {
    forall t | 0 <= t <= |more| ::
      var moment := Run(actions + more[..t]);
      moment.Some? && IsListing(moment.value, id)
  }

  lemma ListingWrites(server: Server, action: Action, id: nat)
    requires Enabled(server, action) && IsListing(server, id) && IsListing(Step(server, action), id)
    ensures Written(Step(server, action), id)
         == Written(server, id) + (if action.ResumePop3? && action.id == id then 1 else 0)
    ensures UserOf(Step(server, action), id) == UserOf(server, id)
  {
    hide Smtp.Step, Imap.Step, Smtp.Delivered, SetLock, MessageSize;
  }

  lemma {:induction false} ListsAtEnds(actions: seq<Action>, more: seq<Action>, id: nat)
    requires KeepsListing(actions, more, id)
    ensures Run(actions).Some? && IsListing(Run(actions).value, id)
    ensures Run(actions + more).Some? && IsListing(Run(actions + more).value, id)
  {
    hide Run, IsListing;
    assert more[..0] == [] && actions + [] == actions && more[..|more|] == more;
  }

  lemma ListsBefore(actions: seq<Action>, more: seq<Action>, id: nat)
    requires KeepsListing(actions, more, id) && more != []
    ensures KeepsListing(actions, more[..|more| - 1], id)
  {
    hide Run, IsListing;
    var earlier := more[..|more| - 1];
    assert forall t | 0 <= t <= |earlier| :: earlier[..t] == more[..t];
  }

  lemma {:induction false} ListingRounds(actions: seq<Action>, more: seq<Action>, id: nat)
    requires KeepsListing(actions, more, id)
    ensures Run(actions).Some? && IsListing(Run(actions).value, id)
    ensures Run(actions + more).Some? && IsListing(Run(actions + more).value, id)
    ensures Written(Run(actions + more).value, id) == Written(Run(actions).value, id) + Resumed(more, id)
    ensures UserOf(Run(actions + more).value, id) == UserOf(Run(actions).value, id)
    decreases |more|
  {
    hide Step, Enabled, Written, IsListing, UserOf, KeepsListing;
    ListsAtEnds(actions, more, id);
    if more == [] {
      assert actions + more == actions;
    } else {
      var earlier, last := more[..|more| - 1], more[|more| - 1];
      ListsBefore(actions, more, id);
      ListingRounds(actions, earlier, id);
      assert (actions + more)[..|actions + more| - 1] == actions + earlier;
      ListingWrites(Run(actions + earlier).value, last, id);
    }
  }

  lemma WrittenIsInInbox(server: Server, id: nat)
    requires Inv(server) && IsListing(server, id)
    ensures Written(server, id) <= |Inbox(server.drops, UserOf(server, id))|
  {
    assert SessionInv(server.drops, server.sessions[id]);
  }

  /**
    A LIST ends. As long as it goes on, its session is resumed at most as often as there are messages in the inbox
    that are not yet listed and mails that are delivered to the user meanwhile. So if there are none of these any
    more, it is over when the session has been resumed once more than there are messages left.
   */
  lemma {:induction false} ListEndsInTime(actions: seq<Action>, more: seq<Action>, id: nat)
    requires KeepsListing(actions, more, id)
    ensures Run(actions).Some? && IsListing(Run(actions).value, id)
    ensures Run(actions + more).Some? && Run(actions).value.delivered <= Run(actions + more).value.delivered
    ensures var before := Run(actions).value;
            var user := UserOf(before, id);
            Written(before, id) + Resumed(more, id)
              <= |Inbox(before.drops, user)| + |MailsFor(DeliveredBetween(before, Run(actions + more).value), user)|
  {
    hide Run, Inv, KeepsListing, Inbox, MailsFor, Written, IsListing, InboxesMatch;
    ListingRounds(actions, more, id);
    assert (actions + more)[..|actions|] == actions;
    RunFollows(actions + more, |actions|, id);
    RunKeepsInv(actions + more);
    WrittenIsInInbox(Run(actions + more).value, id);
    RunMatches(actions);
    RunMatches(actions + more);
    InboxGrowsByDeliveries(Run(actions).value, Run(actions + more).value, UserOf(Run(actions).value, id));
  }

  // ----- Runs in which the announced numbers are wrong -----

  const TEST := "test@localhost"

  lemma Take(server: Server, action: Action) returns (server': Server)
    requires Reachable(server) && Enabled(server, action)
    ensures Reachable(server') && server' == Step(server, action)
  {
    hide Step, Enabled;
    var actions :| Run(actions) == Some(server);
    assert (actions + [action])[..|actions|] == actions;
    server' := Step(server, action);
    assert Run(actions + [action]) == Some(server');
  }

  // One move of a POP3 session that leaves the storage as it is.
  lemma TakePop3(server: Server, id: nat, e: Pop3.Event, s': Pop3.Session) returns (server': Server)
    requires Reachable(server) && Enabled(server, ResumePop3(id, e))
    requires Pop3.Step(server.drops, server.sessions[id].pop3Session, e) == (server.drops, s')
    ensures Reachable(server') && server' == server.(sessions := server.sessions[id := Pop3Side(s')])
  {
    hide Reachable, Pop3.Step, Pop3.Enabled;
    server' := Take(server, ResumePop3(id, e));
  }

  lemma TakeSmtp(server: Server, id: nat, e: Smtp.Event, s': Smtp.Session) returns (server': Server)
    requires Reachable(server) && Enabled(server, ResumeSmtp(id, e))
    requires Smtp.Step(server.sessions[id].smtpSession, e) == (s', None)
    ensures Reachable(server') && server' == server.(sessions := server.sessions[id := SmtpSide(s')])
  {
    hide Reachable, Smtp.Step, Smtp.Enabled;
    server' := Take(server, ResumeSmtp(id, e));
    assert server.delivered + [] == server.delivered;
  }

  const GREETED := Smtp.Session(Smtp.Reading(Smtp.InitTransaction), NO_MAIL, [220, 250])

  lemma CanGreet(server: Server, id: nat) returns (server': Server)
    requires Reachable(server) && id !in server.sessions
    ensures Reachable(server') && server' == server.(sessions := server.sessions[id := SmtpSide(GREETED)])
  {
    hide Reachable;
    var s := Smtp.START;
    server' := Take(server, Accept(id, SMTP));
    s := s.(point := Smtp.Reading(Smtp.WaitHelo));
    server' := TakeSmtp(server', id, Smtp.Sent, s);
    s := Smtp.Reply(s, 250, Smtp.Replying(Smtp.InitTransaction));
    server' := TakeSmtp(server', id, Smtp.Line(Smtp.Helo(true)), s);
    s := s.(point := Smtp.Reading(Smtp.InitTransaction));
    server' := TakeSmtp(server', id, Smtp.Sent, s);
    assert s == GREETED;
  }

  lemma CanAddress(server: Server, id: nat, user: string) returns (server': Server)
    requires Reachable(server) && id in server.sessions && server.sessions[id] == SmtpSide(GREETED)
    ensures Reachable(server')
    ensures server' == server.(sessions := server.sessions[id :=
              SmtpSide(Smtp.Session(Smtp.AskingBody, Mail(TEST, {user}, []), [220, 250, 250, 250, 354]))])
  {
    hide Reachable;
    var s := Smtp.Reply(GREETED, 250, Smtp.ReplyingFrom(TEST));
    server' := TakeSmtp(server, id, Smtp.Line(Smtp.MailFrom(true, TEST)), s);
    s := s.(point := Smtp.Reading(Smtp.Recipients), mail := NO_MAIL.(from := TEST));
    server' := TakeSmtp(server', id, Smtp.Sent, s);
    s := Smtp.Reply(s, 250, Smtp.ReplyingRcpt(user));
    server' := TakeSmtp(server', id, Smtp.Line(Smtp.RcptTo(true, user)), s);
    assert s.mail.recipients + {user} == {user};
    s := s.(point := Smtp.Reading(Smtp.Recipients), mail := Mail(TEST, {user}, []));
    server' := TakeSmtp(server', id, Smtp.Sent, s);
    s := Smtp.Reply(s, 354, Smtp.AskingBody);
    server' := TakeSmtp(server', id, Smtp.Line(Smtp.Data), s);
    assert s.replies == [220, 250, 250, 250, 354];
  }

  /** From any reachable state a new SMTP session can deliver a body to a local address that RCPT takes as valid. */
  lemma CanDeliver(server: Server, id: nat, user: string, lines: seq<string>) returns (server': Server)
    requires Reachable(server) && id !in server.sessions && IsLocal(user) && Smtp.IsBody(lines)
    ensures Reachable(server')
    ensures var mail := Mail(TEST, {user}, lines);
            && server'.drops == DeliverTo(server.drops, {user}, mail)
            && server'.delivered == server.delivered + [(id, mail)]
    ensures server'.sessions - {id} == server.sessions
  {
    hide Reachable, IsLocal, Smtp.IsBody, DeliverTo;
    server' := CanGreet(server, id);
    server' := CanAddress(server', id, user);
    server' := Take(server', ResumeSmtp(id, Smtp.Body(lines)));
    assert LocalRecipients(Mail(TEST, {user}, lines)) == {user};
  }

  // A POP3 session that has opened the maildrop of TEST.
  const OPENED := Pop3.Session(Pop3.Reading(Pop3.Transaction), TEST, Some(TEST),
                               [Pop3.Greeting, Pop3.Positive, Pop3.Positive])

  const NAMED := Pop3.Session(Pop3.Reading(Pop3.Authorization), TEST, None, [Pop3.Greeting, Pop3.Positive])

  lemma CanName() returns (server: Server)
    ensures Reachable(server) && server.sessions == map[0 := Pop3Side(NAMED)] && server.drops == INITIAL_DROPS
  {
    assert Run([]) == Some(START);
    hide Reachable, Run;
    var s := Pop3.START;
    server := Take(START, Accept(0, POP3));
    s := s.(point := Pop3.Reading(Pop3.Authorization));
    server := TakePop3(server, 0, Pop3.Sent, s);
    s := Pop3.Write(s.(user := TEST), Pop3.Positive, Pop3.Replying(Pop3.Authorization));
    server := TakePop3(server, 0, Pop3.Line(Pop3.User(TEST)), s);
    s := s.(point := Pop3.Reading(Pop3.Authorization));
    server := TakePop3(server, 0, Pop3.Sent, s);
    assert s == NAMED;
  }

  lemma CanOpen() returns (server: Server)
    ensures Reachable(server) && server.sessions.Keys == {0} && server.sessions[0] == Pop3Side(OPENED)
    ensures TEST in server.drops && INBOX in server.drops[TEST].mails && Inbox(server.drops, TEST) == [NO_MAIL]
  {
    hide Reachable;
    server := CanName();
    server := Take(server, ResumePop3(0, Pop3.Line(Pop3.Pass)));
    assert NAMED.out + [Pop3.Positive] == OPENED.out;
    server := TakePop3(server, 0, Pop3.Sent, OPENED);
  }

  lemma TestIsLocal()
    ensures IsLocal(TEST)
  {
    assert TEST[4..] == "@" + HOST_NAME;
    assert LocalAt(TEST[4..]);
  }

  // The entries for the initial message of TEST and for n - 1 mails of one octet.
  function Entries(n: nat): seq<Pop3.Reply> {
    if n == 0 then [] else Entries(n - 1) + [Pop3.ListEntry(n, if n == 1 then 0 else 1)]
  }

  function Mails(n: nat): seq<Mail> {
    if n == 0 then [] else Mails(n - 1) + [if n == 1 then NO_MAIL else Mail(TEST, {TEST}, ["."])]
  }

  // A LIST that announced one message and has listed n, with sessions 0 to n - 1 in use.
  function HasListed(n: nat): Pop3.Session {
    Pop3.Session(if n == 0 then Pop3.ListHeader else Pop3.ListLine(n - 1), TEST, Some(TEST),
                 OPENED.out + [Pop3.ListOk(1, 0)] + Entries(n))
  }

  // Session 0 is there, the inbox holds n messages, and no session from m on is in use.
  predicate At(server: Server, s: Pop3.Session, n: nat, m: nat) {
    && 0 in server.sessions && server.sessions[0] == Pop3Side(s)
    && TEST in server.drops && INBOX in server.drops[TEST].mails && server.drops[TEST].mails[INBOX] == Mails(n)
    && forall id | id in server.sessions :: id < m
  }

  lemma CanAnnounce() returns (server: Server)
    ensures Reachable(server) && At(server, HasListed(0), 1, 1)
  {
    server := CanOpen();
    hide Reachable;
    assert MessageSize(NO_MAIL.message) == 0 && Octets([NO_MAIL]) == 0;
    assert Inbox(server.drops, TEST) == Mails(1) == [NO_MAIL];
    var s := HasListed(0);
    assert s.out == OPENED.out + [Pop3.ListOk(1, 0)];
    server := TakePop3(server, 0, Pop3.Line(Pop3.List(None)), s);
  }

  lemma CanSurprise(server: Server, s: Pop3.Session, n: nat, m: nat) returns (server': Server)
    requires Reachable(server) && At(server, s, n, m) && n >= 1 && m >= 1
    ensures Reachable(server') && At(server', s, n + 1, m + 1)
  {
    TestIsLocal();
    hide Reachable, IsLocal;
    server' := CanDeliver(server, m, TEST, ["."]);
    forall id | id in server'.sessions
      ensures id < m + 1
    {
      assert id == m || id in server'.sessions - {m};
    }
    assert server'.sessions[0] == (server'.sessions - {m})[0];
  }

  lemma CanListNext(server: Server, n: nat, m: nat) returns (server': Server)
    requires Reachable(server) && At(server, HasListed(n), n + 1, m) && m >= 1
    ensures Reachable(server') && At(server', HasListed(n + 1), n + 1, m)
  {
    hide Reachable;
    var inbox := Mails(n + 1);
    MailsCount(n + 1);
    assert MessageSize(["."]) == 1 && MessageSize([]) == 0;
    assert inbox[n].message == if n == 0 then [] else ["."];
    assert HasListed(n).out + [Pop3.ListEntry(n + 1, MessageSize(inbox[n].message))] == HasListed(n + 1).out;
    server' := TakePop3(server, 0, Pop3.Sent, HasListed(n + 1));
  }

  lemma {:induction false} MailsCount(n: nat)
    ensures |Mails(n)| == n
  {
    if n > 0 {
      MailsCount(n - 1);
    }
  }

  /** Nor is there a bound: with a mail arriving before each line, a LIST that announced one message goes on. */
  lemma {:induction false} ListCanGoOn(n: nat) returns (server: Server)
    requires n >= 1
    ensures Reachable(server) && At(server, HasListed(n), n, n)
  {
    hide Reachable, At;
    if n == 1 {
      server := CanAnnounce();
      server := CanListNext(server, 0, 1);
    } else {
      server := ListCanGoOn(n - 1);
      server := CanSurprise(server, HasListed(n - 1), n - 1, n - 1);
      server := CanListNext(server, n - 1, n);
    }
  }

  /** For every n from 1 there is a run in which a LIST announces one message and lists n. */
  lemma ListCanListMore(n: nat) returns (server: Server)
    requires n >= 1
    ensures Reachable(server) && 0 in server.sessions && server.sessions[0].Pop3Side?
    ensures server.sessions[0].pop3Session.out == OPENED.out + [Pop3.ListOk(1, 0)] + Entries(n) + [Pop3.ListEnd]
  {
    hide Reachable;
    server := ListCanGoOn(n);
    MailsCount(n);
    var s := Pop3.Write(HasListed(n), Pop3.ListEnd, Pop3.Replying(Pop3.Transaction));
    server := TakePop3(server, 0, Pop3.Sent, s);
  }

  /** A run in which LIST announces a negative number of octets, after a mail with a line of 2^31 characters. */
  lemma OctetsCanBeNegative() returns (server: Server)
    ensures Reachable(server) && 0 in server.sessions && server.sessions[0].Pop3Side?
    ensures server.sessions[0].pop3Session.out == OPENED.out + [Pop3.ListOk(2, 1 - 0x8000_0000)]
    ensures TotalSize(Inbox(server.drops, TEST)) == 0x8000_0001
  {
    TestIsLocal();
    server := CanOpen();
    hide Reachable, IsLocal;
    var line := seq(0x8000_0000, _ => 'x');
    assert Smtp.IsBody([line, "."]);
    var mail := Mail(TEST, {TEST}, [line, "."]);
    hide Octets, TotalSize, Smtp.IsBody;
    server := CanDeliver(server, 1, TEST, [line, "."]);
    assert Inbox(server.drops, TEST) == [NO_MAIL, mail];
    assert server.sessions[0] == (server.sessions - {1})[0];
    SizeOfTwo(mail, line);
    var s := Pop3.Write(OPENED, Pop3.ListOk(2, 1 - 0x8000_0000), Pop3.ListHeader);
    server := TakePop3(server, 0, Pop3.Line(Pop3.List(None)), s);
  }

  lemma SizeOfTwo(mail: Mail, line: string)
    requires mail.message == [line, "."] && |line| == 0x8000_0000
    ensures TotalSize([NO_MAIL, mail]) == 0x8000_0001 && Octets([NO_MAIL, mail]) == 1 - 0x8000_0000
  {
    assert [NO_MAIL, mail][..1] == [NO_MAIL] && mail.message[..1] == [line];
    assert MessageSize([line]) == |line|;
    assert TotalSize([NO_MAIL]) == 0;
    OctetsWrapOnce([NO_MAIL, mail]);
  }
}
