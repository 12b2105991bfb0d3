/** The storage that all mail sessions share: a maildrop of named mailboxes for each user, and a lock on each. */
module Maildrops {

  datatype Mail = Mail(from: string, recipients: set<string>, message: seq<string>)

  datatype Maildrop = Maildrop(mails: map<string, seq<Mail>>, locked: bool)

  type Drops = map<string, Maildrop>

  const INBOX := "INBOX"
  const HOST_NAME := "localhost"
  const NO_MAIL := Mail("", {}, [])
  const NO_MAILDROP := Maildrop(map[], false)

  // ----- Sizes -----

  function MessageSize(message: seq<string>): nat {
    if message == [] then 0 else MessageSize(message[..|message| - 1]) + |message[|message| - 1]|
  }

  function TotalSize(inbox: seq<Mail>): nat {
    if inbox == [] then 0
    else TotalSize(inbox[..|inbox| - 1]) + MessageSize(inbox[|inbox| - 1].message)
  }

  /** The size of a message is the number of characters in its lines. */
  lemma {:induction false} MessageSizeAdds(a: seq<string>, b: seq<string>)
    ensures MessageSize(a + b) == MessageSize(a) + MessageSize(b)
    ensures |b| == 1 ==> MessageSize(b) == |b[0]|
    decreases |b|
  {
    if b == [] {
      assert a + b == a;
    } else {
      var earlier := b[..|b| - 1];
      assert (a + b)[..|a + b| - 1] == a + earlier;
      MessageSizeAdds(a, earlier);
    }
  }

  // Conversion to a 32-bit int.
  function ToInt32(x: int): int {
    (x + 0x8000_0000) % 0x1_0000_0000 - 0x8000_0000
  }

  // The octet count of LIST: an accumulation that starts from an int, so every partial sum is stored as one.
  function Octets(inbox: seq<Mail>): int {
    if inbox == [] then 0
    else ToInt32(Octets(inbox[..|inbox| - 1]) + MessageSize(inbox[|inbox| - 1].message))
  }

  lemma ToInt32Adds(x: int, y: int)
    ensures ToInt32(ToInt32(x) + y) == ToInt32(x + y)
  {
  }

  lemma {:induction false} OctetsWrapOnce(inbox: seq<Mail>)
    ensures Octets(inbox) == ToInt32(TotalSize(inbox))
  {
    if inbox != [] {
      var earlier := inbox[..|inbox| - 1];
      OctetsWrapOnce(earlier);
      ToInt32Adds(TotalSize(earlier), MessageSize(inbox[|inbox| - 1].message));
    }
  }

  /** The announced octets are the true total exactly while it fits an int. */
  lemma {:induction false} OctetsAreTotal(inbox: seq<Mail>)
    ensures Octets(inbox) == TotalSize(inbox) <==> TotalSize(inbox) < 0x8000_0000
  {
    OctetsWrapOnce(inbox);
  }

  // ----- Local recipients -----

  function Lower(c: char): char {
    if 'A' <= c <= 'Z' then (c as int + 32) as char else c
  }

  predicate SameIgnoringCase(a: string, b: string) {
    |a| == |b| && forall i | 0 <= i < |a| :: Lower(a[i]) == Lower(b[i])
  }

  // "@localhost" occurs somewhere in the address.
  predicate IsLocal(recipient: string) {
    exists i | 0 <= i <= |recipient| :: LocalAt(recipient[i..])
  }

  predicate LocalAt(rest: string) {
    var pattern := "@" + HOST_NAME;
    |rest| >= |pattern| && SameIgnoringCase(rest[..|pattern|], pattern)
  }

  function LocalRecipients(mail: Mail): set<string> {
    set r | r in mail.recipients && IsLocal(r)
  }

  predicate IsEither(c: char, lower: char, upper: char) {
    c == lower || c == upper
  }

  /** An address is local exactly if it has "@localhost", in letters of either case, somewhere in it. */
  lemma LocalExactly(recipient: string)
    ensures IsLocal(recipient) <==>
              exists i | 0 <= i <= |recipient| - 10 :: recipient[i] == '@' && LocalHostAt(recipient, i)
  {
    forall i | 0 <= i <= |recipient|
      ensures LocalAt(recipient[i..])
         <==> i <= |recipient| - 10 && recipient[i] == '@' && LocalHostAt(recipient, i)
    {
      LocalAtExactly(recipient, i);
    }
  }

  // The nine characters behind index i.
  predicate LocalHostAt(recipient: string, i: nat) {
    && i + 10 <= |recipient|
    && forall j | 0 <= j < 9 :: IsEither(recipient[i + 1 + j], "localhost"[j], "LOCALHOST"[j])
  }

  lemma LocalAtExactly(recipient: string, i: nat)
    requires i <= |recipient|
    ensures LocalAt(recipient[i..])
       <==> i <= |recipient| - 10 && recipient[i] == '@' && LocalHostAt(recipient, i)
  {
    var pattern := "@" + HOST_NAME;
    var rest := recipient[i..];
    assert |pattern| == 10 && pattern[0] == '@' && forall j | 0 <= j < 9 :: pattern[j + 1] == "localhost"[j];
    if i <= |recipient| - 10 {
      var head := rest[..10];
      assert head[0] == recipient[i] && (Lower(head[0]) == Lower(pattern[0]) <==> head[0] == '@');
      forall j | 0 <= j < 9
        ensures head[j + 1] == recipient[i + 1 + j]
        ensures Lower(head[j + 1]) == Lower(pattern[j + 1])
           <==> IsEither(recipient[i + 1 + j], "localhost"[j], "LOCALHOST"[j])
      {
        OneLetter(recipient[i + 1 + j], j);
      }
      hide Lower, IsEither;
      if LocalHostAt(recipient, i) && recipient[i] == '@' {
        forall k | 0 <= k < 10
          ensures Lower(head[k]) == Lower(pattern[k])
        {
          if k > 0 {
            var j := k - 1;
            assert Lower(head[j + 1]) == Lower(pattern[j + 1]);
          }
        }
      }
      if SameIgnoringCase(head, pattern) {
        forall j | 0 <= j < 9
          ensures IsEither(recipient[i + 1 + j], "localhost"[j], "LOCALHOST"[j])
        {
          assert Lower(head[j + 1]) == Lower(pattern[j + 1]);
        }
      }
    }
  }

  lemma OneLetter(c: char, j: nat)
    requires j < 9
    ensures Lower(c) == Lower("localhost"[j]) <==> IsEither(c, "localhost"[j], "LOCALHOST"[j])
  {
    var lower, upper := "localhost", "LOCALHOST";
    assert 'a' <= lower[j] <= 'z' && lower[j] as int == upper[j] as int + 32;
  }

  // ----- Delivery -----

  function Inbox(drops: Drops, user: string): seq<Mail> {
    if user in drops && INBOX in drops[user].mails then drops[user].mails[INBOX] else []
  }

  // Indexing a map that lacks the key makes a default entry first.
  function PushedTo(drop: Maildrop, box: string, mail: Mail): Maildrop {
    drop.(mails := drop.mails[box := (if box in drop.mails then drop.mails[box] else []) + [mail]])
  }

  function DropOf(drops: Drops, user: string): Maildrop {
    if user in drops then drops[user] else NO_MAILDROP
  }

  function DeliverTo(drops: Drops, users: set<string>, mail: Mail): Drops {
    map u | u in drops.Keys + users :: if u in users then PushedTo(DropOf(drops, u), INBOX, mail) else drops[u]
  }

  function SetLock(drops: Drops, user: string, locked: bool): Drops
    requires user in drops
  {
    drops[user := drops[user].(locked := locked)]
  }

  class Storage {
    var maildrops: Drops

    constructor ()
      ensures maildrops == map[]
    {
      maildrops := map[];
    }

    // maildrops[user].mails[mailbox].push_back(mail)
    method PushBack(user: string, mailbox: string, mail: Mail)
      modifies this
      ensures maildrops == old(maildrops)[user := PushedTo(DropOf(old(maildrops), user), mailbox, mail)]
    {
      if user !in maildrops {
        maildrops := maildrops[user := NO_MAILDROP];
      }
      var drop := maildrops[user];
      if mailbox !in drop.mails {
        drop := drop.(mails := drop.mails[mailbox := []]);
      }
      var pushed := drop.mails[mailbox := drop.mails[mailbox] + [mail]];
      assert pushed == PushedTo(DropOf(old(maildrops), user), mailbox, mail).mails;
      maildrops := maildrops[user := drop.(mails := pushed)];
    }

    /** The delivery loop: in whatever order the set gives them, every local recipient gets one copy. */
    method Deliver(mail: Mail)
      modifies this
      ensures maildrops == DeliverTo(old(maildrops), LocalRecipients(mail), mail)
    {
      DeliverNothing(maildrops, mail);
      hide DeliverTo, IsLocal, PushedTo, LocalRecipients, DropOf;
      var rest := mail.recipients;
      while rest != {}
        invariant rest <= mail.recipients
        invariant maildrops == DeliverTo(old(maildrops), LocalRecipients(mail) - rest, mail)
        decreases |rest|
      {
        var recipient :| recipient in rest;
        DeliverStep(old(maildrops), rest, recipient, mail);
        rest := rest - {recipient};
        if IsLocal(recipient) {
          PushBack(recipient, INBOX, mail);
        }
      }
      assert LocalRecipients(mail) - {} == LocalRecipients(mail);
    }
  }

  lemma DeliverNothing(drops: Drops, mail: Mail)
    ensures DeliverTo(drops, LocalRecipients(mail) - mail.recipients, mail) == drops
  {
    assert LocalRecipients(mail) - mail.recipients == {};
  }

  // One round of the delivery loop.
  lemma DeliverStep(drops: Drops, rest: set<string>, recipient: string, mail: Mail)
    requires rest <= mail.recipients && recipient in rest
    ensures var soFar := DeliverTo(drops, LocalRecipients(mail) - rest, mail);
            DeliverTo(drops, LocalRecipients(mail) - (rest - {recipient}), mail)
              == if IsLocal(recipient) then soFar[recipient := PushedTo(DropOf(soFar, recipient), INBOX, mail)]
                 else soFar
  {
    hide DeliverTo, PushedTo, DropOf;
    var locals := LocalRecipients(mail);
    if IsLocal(recipient) {
      assert locals - (rest - {recipient}) == (locals - rest) + {recipient};
      DeliverOneMore(drops, locals - rest, recipient, mail);
    } else {
      assert locals - (rest - {recipient}) == locals - rest;
    }
  }

  lemma DeliverOneMore(drops: Drops, done: set<string>, user: string, mail: Mail)
    requires user !in done
    ensures DeliverTo(drops, done + {user}, mail)
         == DeliverTo(drops, done, mail)[user := PushedTo(DropOf(DeliverTo(drops, done, mail), user), INBOX, mail)]
  {
  }

  // ----- What a change of the storage may do -----

  // Users stay, mailbox names of a user stay, and an inbox only grows at its end.
  ghost predicate Grows(drops: Drops, drops': Drops) {
    && drops.Keys <= drops'.Keys
    && (forall u | u in drops :: drops'[u].mails.Keys == drops[u].mails.Keys)
    && (forall u, box | u in drops && box in drops[u].mails && box != INBOX ::
          drops'[u].mails[box] == drops[u].mails[box])
    && (forall u | u in drops :: Inbox(drops, u) <= Inbox(drops', u))
  }

  ghost predicate EveryDropHasInbox(drops: Drops) {
    forall u | u in drops :: INBOX in drops[u].mails
  }

  lemma GrowsTransitively(a: Drops, b: Drops, c: Drops)
    requires Grows(a, b) && Grows(b, c)
    ensures Grows(a, c)
  {
    forall u, box | u in a && box in a[u].mails && box != INBOX
      ensures c[u].mails[box] == a[u].mails[box]
    {
      assert b[u].mails[box] == a[u].mails[box];
    }
  }

  lemma DeliveryFillsInboxes(drops: Drops, users: set<string>, mail: Mail)
    ensures var drops' := DeliverTo(drops, users, mail);
            && (forall u :: Inbox(drops', u) == if u in users then Inbox(drops, u) + [mail] else Inbox(drops, u))
            && (forall u | u in drops :: drops'[u].locked == drops[u].locked)
            && (forall u | u in drops' && u !in drops :: !drops'[u].locked)
  {
  }

  lemma DeliveryGrows(drops: Drops, users: set<string>, mail: Mail)
    requires EveryDropHasInbox(drops)
    ensures var drops' := DeliverTo(drops, users, mail);
            Grows(drops, drops') && EveryDropHasInbox(drops')
  {
    DeliveryFillsInboxes(drops, users, mail);
    hide Inbox;
  }

  lemma LockGrows(drops: Drops, user: string, locked: bool)
    requires user in drops
    ensures var drops' := SetLock(drops, user, locked);
            && Grows(drops, drops') && (EveryDropHasInbox(drops) ==> EveryDropHasInbox(drops'))
            && drops'.Keys == drops.Keys && (forall u :: Inbox(drops', u) == Inbox(drops, u))
  {
  }

}
