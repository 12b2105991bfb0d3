/** An IMAP session as its dialogue alone determines it: its user, its replies and its end. */
module ImapDialogue {
  import opened Options
  import opened Maildrops
  import opened Imap

  // What resumes the session, and the storage at that moment. Others may change the storage in between.
  datatype Moment = Moment(drops: Drops, event: Event)

  /** The session after these moments, if each of them was possible. */
  function Run(h: seq<Moment>): Option<Session> {
    if h == [] then Some(START) else
    var before, m := Run(h[..|h| - 1]), h[|h| - 1];
    if before.Some? && Enabled(m.drops, before.value, m.event) then Some(Step(m.drops, before.value, m.event)) else None
  }

  // Nobody goes away.
  ghost predicate Steady(h: seq<Moment>) {
    forall i, j | 0 <= i <= j < |h| :: h[i].drops.Keys <= h[j].drops.Keys
  }

  // ----- What the dialogue says -----

  // The name with the server's host added exactly if it names none.
  function FullName(name: string): string {
    if exists i | 0 <= i < |name| :: name[i] == '@' then name else name + "@localhost"
  }

  predicate IsLine(m: Moment, command: Command) {
    m.event.Line? && m.event.command == command
  }

  predicate LogsIn(m: Moment) {
    m.event.Line? && m.event.command.Login? && FullName(m.event.command.name) in m.drops
  }

  // The first full name of a LOGIN line that has a maildrop when it is read.
  function User(h: seq<Moment>): string {
    if h == [] then "" else
    var earlier, m := h[..|h| - 1], h[|h| - 1];
    if User(earlier) != "" then User(earlier) else if LogsIn(m) then FullName(m.event.command.name) else ""
  }

  predicate LoggedIn(h: seq<Moment>) {
    User(h) != ""
  }

  // The connection is lost, or LOGOUT has been read and both its replies written.
  predicate EndsAt(h: seq<Moment>, k: nat) {
    k < |h| && (h[k].event == Broken || (IsLine(h[k], Logout) && k + 2 < |h|))
  }

  predicate Over(h: seq<Moment>) {
    exists k | 0 <= k < |h| :: EndsAt(h, k)
  }

  // An iteration over all mailboxes: its order, and how many have been listed.
  datatype Iteration = Iteration(order: seq<string>, listed: nat)

  function Iterating(h: seq<Moment>): Option<Iteration> {
    if h == [] then None else
    var earlier, m := h[..|h| - 1], h[|h| - 1];
    match m.event
    case Broken => None
    case Line(command, order) =>
      if command == List(true, "*") && LoggedIn(earlier) && order != [] then Some(Iteration(order, 1)) else None
    case Sent =>
      var before := Iterating(earlier);
      if before.Some? && before.value.listed < |before.value.order| then
        Some(Iteration(before.value.order, before.value.listed + 1))
      else None
  }

  predicate HasBox(drops: Drops, user: string, box: string) {
    user in drops && box in drops[user].mails
  }

  // The command whose tagged OK is still to come after the line that has just been answered.
  function Owes(h: seq<Moment>): Option<Command> {
    if h == [] then None else
    var earlier, m := h[..|h| - 1], h[|h| - 1];
    if !m.event.Line? then None else
    match m.event.command
    case Logout => Some(Logout)
    case List(rootReference, box) =>
      if rootReference && box != "*" && LoggedIn(earlier) && HasBox(m.drops, User(earlier), box) then
        Some(m.event.command)
      else None
    case _ => None
  }

  function Answer(before: seq<Moment>, drops: Drops, command: Command, order: seq<string>): Reply {
    match command
    case Logout => Bye
    case TagUnknown => BadTag(command)
    case Unknown => Bad
    case Login(name) =>
      if LoggedIn(before) then Bad else if FullName(name) in drops then Ok(command) else No(command)
    case List(rootReference, box) =>
      if !LoggedIn(before) then Bad
      else if !rootReference then Ok(command)
      else if box == "*" then if order == [] then Ok(command) else ListLine(order[0])
      else if HasBox(drops, User(before), box) then ListLine(box)
      else Ok(command)
  }

  // What a written reply is followed by.
  function Next(before: seq<Moment>): seq<Reply> {
    var iteration, owed := Iterating(before), Owes(before);
    if iteration.Some? then
      if iteration.value.listed < |iteration.value.order| then [ListLine(iteration.value.order[iteration.value.listed])]
      else [Ok(List(true, "*"))]
    else if owed.Some? then [Ok(owed.value)]
    else []
  }

  function Says(before: seq<Moment>, m: Moment): seq<Reply> {
    match m.event
    case Broken => []
    case Line(command, order) => [Answer(before, m.drops, command, order)]
    case Sent => Next(before)
  }

  function Said(h: seq<Moment>): seq<Reply> {
    if h == [] then [Greeting] else Said(h[..|h| - 1]) + Says(h[..|h| - 1], h[|h| - 1])
  }

  function Phase(h: seq<Moment>): Phase {
    if LoggedIn(h) then Authenticated else Unauthenticated
  }

  predicate LogoutAnswered(h: seq<Moment>) {
    |h| >= 2 && IsLine(h[|h| - 2], Logout)
  }

  // The session reads when all replies to the line before are written, until LOGOUT.
  function Where(h: seq<Moment>): Point {
    var iteration, owed := Iterating(h), Owes(h);
    if Over(h) then Ended
    else if h == [] then Replying(Unauthenticated)
    else if iteration.Some? && iteration.value.listed > 0 then
      Listing(iteration.value.order, iteration.value.listed - 1)
    else if owed.Some? then SayOk(owed.value, if owed.value == Logout then LoggedOut else Authenticated)
    else if LogoutAnswered(h) then Replying(LoggedOut)
    else if h[|h| - 1].event == Sent && Next(h[..|h| - 1]) == [] then Reading(Phase(h))
    else Replying(Phase(h))
  }

  function Expected(h: seq<Moment>): Session {
    Session(Where(h), User(h), Said(h))
  }

  // ----- The session does just that -----

  lemma QualifiedIsFullName(name: string)
    ensures Qualified(name) == FullName(name) && FullName(name) != ""
  {
  }

  lemma {:induction false} UserHasMaildrop(h: seq<Moment>, drops: Drops)
    requires User(h) != "" && forall i | 0 <= i < |h| :: h[i].drops.Keys <= drops.Keys
    ensures User(h) in drops
  {
    var earlier, m := h[..|h| - 1], h[|h| - 1];
    if User(earlier) != "" {
      UserHasMaildrop(earlier, drops);
    } else {
      assert User(h) in m.drops && m.drops.Keys <= drops.Keys;
    }
  }

  lemma {:induction false} StorageIsThere(h: seq<Moment>, m: Moment)
    requires Steady(h + [m]) && LoggedIn(h)
    ensures User(h) in m.drops
  {
    hide User;
    var more := h + [m];
    assert more[|h|] == m;
    forall i | 0 <= i < |h|
      ensures h[i].drops.Keys <= m.drops.Keys
    {
      assert more[i] == h[i];
    }
    UserHasMaildrop(h, m.drops);
  }

  lemma EndsAtGrows(h: seq<Moment>, m: Moment, k: nat)
    ensures k + 2 < |h| ==> (EndsAt(h + [m], k) <==> EndsAt(h, k))
    ensures k + 2 == |h| ==> (EndsAt(h + [m], k) <==> EndsAt(h, k) || IsLine(h[k], Logout))
    ensures k + 1 == |h| ==> (EndsAt(h + [m], k) <==> EndsAt(h, k))
    ensures k == |h| ==> (EndsAt(h + [m], k) <==> m.event == Broken)
  {
    var more := h + [m];
    if k < |h| {
      assert more[k] == h[k];
    }
  }

  lemma OverGrows(h: seq<Moment>, m: Moment)
    ensures Over(h + [m]) <==> Over(h) || m.event == Broken || LogoutAnswered(h)
  {
    forall k: nat
      ensures k + 2 < |h| ==> (EndsAt(h + [m], k) <==> EndsAt(h, k))
      ensures k + 2 == |h| ==> (EndsAt(h + [m], k) <==> EndsAt(h, k) || IsLine(h[k], Logout))
      ensures k + 1 == |h| ==> (EndsAt(h + [m], k) <==> EndsAt(h, k))
      ensures k == |h| ==> (EndsAt(h + [m], k) <==> m.event == Broken)
    {
      EndsAtGrows(h, m, k);
    }
    hide EndsAt;
    if Over(h) {
      var k :| 0 <= k < |h| && EndsAt(h, k);
      assert EndsAt(h + [m], k);
    }
    if LogoutAnswered(h) {
      assert EndsAt(h + [m], |h| - 2);
    }
    if m.event == Broken {
      assert EndsAt(h + [m], |h|);
    }
  }

  lemma {:induction false} OneMore(h: seq<Moment>, m: Moment)
    ensures (h + [m])[..|h|] == h && (h + [m])[|h|] == m
    ensures Said(h + [m]) == Said(h) + Says(h, m)
    ensures User(h + [m]) == if LoggedIn(h) then User(h) else if LogsIn(m) then FullName(m.event.command.name) else ""
    ensures Over(h + [m]) <==> Over(h) || m.event == Broken || LogoutAnswered(h)
  {
    hide Over, LogsIn;
    assert (h + [m])[..|h|] == h;
    OverGrows(h, m);
  }

  lemma LiveWhen(h: seq<Moment>)
    ensures Where(h).Ended? <==> Over(h)
  {
    hide Over, User, Iterating, Owes;
  }

  lemma ReadsWhen(h: seq<Moment>)
    requires Where(h).Reading?
    ensures Where(h) == Reading(Phase(h)) && !Over(h) && !LogoutAnswered(h) && h != [] && h[|h| - 1].event == Sent
  {
    hide Over, User, Iterating, Owes;
  }

  // Where a line that is answered leads.
  lemma {:induction false} WhereAfterLine(h: seq<Moment>, m: Moment)
    requires m.event.Line? && Where(h).Reading?
    ensures !Over(h + [m])
    ensures var command, order := m.event.command, m.event.order;
            Where(h + [m])
              == if command == Logout then SayOk(Logout, LoggedOut)
                 else if LoggedIn(h) && command == List(true, "*") && order != [] then Listing(order, 0)
                 else if LoggedIn(h) && command.List? && command.rootReference && command.mailbox != "*"
                         && HasBox(m.drops, User(h), command.mailbox) then SayOk(command, Authenticated)
                 else Replying(Phase(h + [m]))
  {
    ReadsWhen(h);
    OneMore(h, m);
    assert (h + [m])[|h + [m]| - 2] == h[|h| - 1];
    hide Over, User, LogsIn;
  }

  lemma LineIsAnswered(h: seq<Moment>, m: Moment)
    requires Steady(h + [m]) && m.event.Line? && Where(h).Reading?
    requires Enabled(m.drops, Expected(h), m.event)
    ensures OnLine(m.drops, Expected(h), m.event.command, m.event.order) == Expected(h + [m])
  {
    ReadsWhen(h);
    WhereAfterLine(h, m);
    OneMore(h, m);
    if LoggedIn(h) {
      StorageIsThere(h, m);
    }
    if m.event.command.Login? {
      QualifiedIsFullName(m.event.command.name);
    }
    hide Over, User, Said, Where, Steady, FullName, Qualified, Iterating, Owes, Enabled;
  }

  predicate LogoutRead(h: seq<Moment>) {
    h != [] && IsLine(h[|h| - 1], Logout)
  }

  // Nothing is read between LOGOUT and its last reply.
  predicate Turns(h: seq<Moment>) {
    LogoutAnswered(h) && !Over(h) ==> h[|h| - 1].event == Sent
  }

  lemma {:induction false} IteratesLoggedIn(h: seq<Moment>)
    requires Iterating(h).Some?
    ensures LoggedIn(h) && !LogoutRead(h) && 0 < Iterating(h).value.listed <= |Iterating(h).value.order|
    ensures h[|h| - 1].event == Sent ==> !LogoutAnswered(h)
  {
    hide User;
    var earlier, m := h[..|h| - 1], h[|h| - 1];
    assert earlier + [m] == h;
    OneMore(earlier, m);
    if m.event == Sent {
      IteratesLoggedIn(earlier);
    }
  }

  lemma OwesLoggedIn(h: seq<Moment>)
    requires Owes(h).Some?
    ensures LogoutRead(h) <==> Owes(h).value == Logout
    ensures !LogoutRead(h) ==> LoggedIn(h)
    ensures h[|h| - 1].event.Line?
  {
    hide User;
    assert h[..|h| - 1] + [h[|h| - 1]] == h;
    OneMore(h[..|h| - 1], h[|h| - 1]);
  }

  lemma {:induction false} SentWhen(h: seq<Moment>, m: Moment)
    requires Turns(h) && m.event == Sent && Enabled(m.drops, Expected(h), Sent)
    ensures !Over(h)
    ensures Iterating(h).Some? ==> Owes(h).None? && LoggedIn(h) && !LogoutRead(h) && !LogoutAnswered(h)
    ensures Iterating(h).Some? ==> 0 < Iterating(h).value.listed <= |Iterating(h).value.order|
    ensures Owes(h).Some? ==> !LogoutAnswered(h) && (if LogoutRead(h) then Owes(h).value == Logout else LoggedIn(h))
    ensures LogoutRead(h) ==> Owes(h) == Some(Logout)
  {
    hide User, Over;
    if Iterating(h).Some? {
      IteratesLoggedIn(h);
    }
    if Owes(h).Some? {
      OwesLoggedIn(h);
    }
  }

  lemma {:induction false} WhereAfterSent(h: seq<Moment>, m: Moment)
    requires Turns(h) && m.event == Sent && Enabled(m.drops, Expected(h), Sent)
    ensures User(h + [m]) == User(h)
    ensures Where(h + [m])
         == if LogoutAnswered(h) then Ended
            else if Iterating(h).Some? then
              if Iterating(h).value.listed < |Iterating(h).value.order| then
                Listing(Iterating(h).value.order, Iterating(h).value.listed)
              else Replying(Authenticated)
            else if Owes(h).Some? then Replying(if LogoutRead(h) then LoggedOut else Authenticated)
            else Reading(Phase(h))
  {
    SentWhen(h, m);
    OneMore(h, m);
    var more := h + [m];
    assert LogoutAnswered(more) <==> LogoutRead(h) by {
      if h != [] {
        assert more[|more| - 2] == h[|h| - 1];
      }
    }
    assert Owes(more) == None;
    hide Over, User, Owes, LogsIn, LogoutRead, LogoutAnswered;
    assert Iterating(more) ==
      if Iterating(h).Some? && Iterating(h).value.listed < |Iterating(h).value.order| then
        Some(Iteration(Iterating(h).value.order, Iterating(h).value.listed + 1))
      else None;
    hide Iterating;
  }

  lemma ReplyIsFollowed(h: seq<Moment>, m: Moment)
    requires Turns(h) && m.event == Sent && Enabled(m.drops, Expected(h), Sent)
    ensures Step(m.drops, Expected(h), Sent) == Expected(h + [m])
  {
    SentWhen(h, m);
    WhereAfterSent(h, m);
    OneMore(h, m);
    assert Said(h) + [] == Said(h);
    hide Over, User, Said, Owes, Iterating, LogsIn, LogoutRead, OnLine;
  }

  lemma StepIsExpected(h: seq<Moment>, m: Moment)
    requires Steady(h + [m]) && Turns(h) && Enabled(m.drops, Expected(h), m.event)
    ensures Step(m.drops, Expected(h), m.event) == Expected(h + [m]) && Turns(h + [m])
  {
    TurnsStay(h, m);
    match m.event
    case Broken => BreakIsAnEnd(h, m);
    case Sent => ReplyIsFollowed(h, m);
    case Line(_, _) =>
      hide Over, User, Said, Owes, Iterating;
      LineIsAnswered(h, m);
  }

  lemma BreakIsAnEnd(h: seq<Moment>, m: Moment)
    requires m.event == Broken && Enabled(m.drops, Expected(h), Broken)
    ensures Step(m.drops, Expected(h), Broken) == Expected(h + [m])
  {
    OneMore(h, m);
    LiveWhen(h + [m]);
    hide Over, User, Said, Where;
    assert Said(h) + [] == Said(h);
  }

  lemma TurnsStay(h: seq<Moment>, m: Moment)
    requires Turns(h) && Enabled(m.drops, Expected(h), m.event)
    ensures Turns(h + [m])
  {
    OneMore(h, m);
    var more := h + [m];
    hide Over, User, Iterating;
    if LogoutAnswered(more) {
      assert more[|more| - 2] == h[|h| - 1];
      if m.event.Line? {
        ReadsWhen(h);
      }
    }
  }

  lemma SteadyBefore(h: seq<Moment>)
    requires Steady(h) && h != []
    ensures Steady(h[..|h| - 1])
  {
  }

  /** Over every storage in which nobody goes away, the session is what its dialogue says. */
  lemma {:induction false} RunIsExpected(h: seq<Moment>)
    requires Run(h).Some? && Steady(h)
    ensures Run(h).value == Expected(h) && Turns(h)
  {
    if h != [] {
      hide Expected, Step, Enabled, Steady, Turns;
      var earlier, m := h[..|h| - 1], h[|h| - 1];
      SteadyBefore(h);
      RunIsExpected(earlier);
      assert earlier + [m] == h;
      StepIsExpected(earlier, m);
    } else {
      assert !Over([]);
    }
  }

  // ----- What follows for a reader of the dialogue -----

  /**
    A session's user is the full name in the first LOGIN line whose user had a maildrop when it was read, if there is
    one: the name as given if it has an '@', and otherwise with "@localhost" behind it.
   */
  lemma {:induction false} UserIsFirstLogin(h: seq<Moment>)
    ensures User(h) == "" <==> forall m | m in h :: !LogsIn(m)
    ensures forall i | 0 <= i < |h| && LogsIn(h[i]) && (forall j | 0 <= j < i :: !LogsIn(h[j])) ::
              User(h) == FullName(h[i].event.command.name)
  {
    if h != [] {
      var earlier, m := h[..|h| - 1], h[|h| - 1];
      assert LogsIn(m) ==> FullName(m.event.command.name) != "" by {
        if LogsIn(m) {
          QualifiedIsFullName(m.event.command.name);
        }
      }
      UserIsFirstLogin(earlier);
      assert forall x :: x in h <==> x in earlier || x == m;
      hide LogsIn, User, FullName;
      FirstIsOfEarlier(h);
    }
  }

  lemma FirstIsOfEarlier(h: seq<Moment>)
    requires h != []
    ensures var earlier := h[..|h| - 1];
            forall i | 0 <= i < |h| && LogsIn(h[i]) && (forall j | 0 <= j < i :: !LogsIn(h[j])) ::
              if i < |earlier| then LogsIn(earlier[i]) && (forall j | 0 <= j < i :: !LogsIn(earlier[j]))
              else forall x | x in earlier :: !LogsIn(x)
  {
    hide LogsIn;
  }

  lemma {:induction false} RunBefore(h: seq<Moment>, t: nat)
    requires Run(h).Some? && t <= |h|
    ensures Run(h[..t]).Some? && (t < |h| ==> Enabled(h[t].drops, Run(h[..t]).value, h[t].event))
    ensures Steady(h) ==> Steady(h[..t])
    decreases |h|
  {
    hide Step, Enabled;
    if t == |h| {
      assert h[..t] == h;
    } else {
      var earlier := h[..|h| - 1];
      assert earlier[..t] == h[..t];
      RunBefore(earlier, t);
    }
  }

  // A session that is over is not resumed.
  lemma {:induction false} EndIsFinal(h: seq<Moment>, t: nat)
    requires Run(h).Some? && Steady(h) && t <= |h| && Over(h[..t])
    ensures t == |h| && Run(h).value.point == Ended
  {
    hide Steady, Run, Over;
    RunBefore(h, t);
    RunIsExpected(h[..t]);
    LiveWhen(h[..t]);
    assert t == |h| ==> h[..t] == h;
  }

  /**
    LOGOUT, logged in or not, is the last line a session reads. Its two replies are BYE and the tagged OK; when they
    have been written, or the connection is lost, the session has ended.
   */
  lemma {:induction false} LogoutEnds(h: seq<Moment>, k: nat)
    requires Run(h).Some? && Steady(h) && k < |h| && IsLine(h[k], Logout)
    ensures |h| <= k + 3 && !Run(h).value.point.Reading? && Run(h[..k]).Some?
    ensures var s, before := Run(h).value, Run(h[..k]).value.out;
            if |h| == k + 1 then !s.point.Ended? && s.out == before + [Bye]
            else if h[k + 1].event == Broken then |h| == k + 2 && s.point == Ended && s.out == before + [Bye]
            else s.out == before + [Bye] + [Ok(Logout)] && (s.point.Ended? <==> |h| == k + 3)
  {
    hide Steady, Run, Over, Expected, OnLine;
    LogoutRuns(h, k);
    if |h| >= k + 3 {
      LogoutRunsOut(h, k);
      assert h[..k + 3][k] == h[k];
      OverWhen(h[..k + 3], k);
      EndIsFinal(h, k + 3);
      assert h[..k + 3] == h;
    } else if |h| >= k + 2 {
      LogoutRunsOn(h, k);
      assert h[..k + 2] == h;
    } else {
      assert h[..k + 1] == h;
    }
  }

  lemma {:induction false} LastStep(h: seq<Moment>, t: nat)
    requires Run(h).Some? && t < |h|
    ensures Run(h[..t]).Some? && Run(h[..t + 1]).Some? && Enabled(h[t].drops, Run(h[..t]).value, h[t].event)
    ensures Run(h[..t + 1]).value == Step(h[t].drops, Run(h[..t]).value, h[t].event)
  {
    hide Step, Enabled, Run;
    RunBefore(h, t);
    RunBefore(h, t + 1);
    assert h[..t + 1][..t] == h[..t];
    RunUnrolls(h[..t + 1]);
  }

  lemma {:induction false} RunUnrolls(h: seq<Moment>)
    requires h != [] && Run(h).Some?
    ensures var before, m := Run(h[..|h| - 1]), h[|h| - 1];
            && before.Some? && Enabled(m.drops, before.value, m.event)
            && Run(h).value == Step(m.drops, before.value, m.event)
  {
    hide Step, Enabled;
  }

  // The session step by step from LOGOUT on.
  lemma StepsAtLogout(drops: Drops, s: Session, e: Event)
    requires Enabled(drops, s, e)
    ensures e.Line? && e.command == Logout ==> Step(drops, s, e) == Write(s, Bye, SayOk(Logout, LoggedOut))
    ensures s.point == SayOk(Logout, LoggedOut) ==>
              Step(drops, s, e)
                == if e == Broken then s.(point := Ended) else Write(s, Ok(Logout), Replying(LoggedOut))
    ensures s.point == Replying(LoggedOut) ==> Step(drops, s, e) == s.(point := Ended)
  {
  }

  lemma {:induction false} LogoutRuns(h: seq<Moment>, k: nat)
    requires Run(h).Some? && k < |h| && IsLine(h[k], Logout)
    ensures Run(h[..k]).Some? && Run(h[..k + 1]).Some?
    ensures Run(h[..k + 1]).value == Write(Run(h[..k]).value, Bye, SayOk(Logout, LoggedOut))
  {
    hide Run, Step, Enabled, Write;
    LastStep(h, k);
    StepsAtLogout(h[k].drops, Run(h[..k]).value, h[k].event);
  }

  lemma {:induction false} LogoutRunsOn(h: seq<Moment>, k: nat)
    requires Run(h).Some? && k + 1 < |h| && IsLine(h[k], Logout)
    ensures Run(h[..k]).Some? && Run(h[..k + 2]).Some?
    ensures var s, s' := Write(Run(h[..k]).value, Bye, SayOk(Logout, LoggedOut)), Run(h[..k + 2]).value;
            s' == if h[k + 1].event == Broken then s.(point := Ended) else Write(s, Ok(Logout), Replying(LoggedOut))
  {
    hide Run, Step, Enabled;
    LogoutRuns(h, k);
    LastStep(h, k + 1);
    StepsAtLogout(h[k + 1].drops, Run(h[..k + 1]).value, h[k + 1].event);
  }

  lemma {:induction false} LogoutRunsOut(h: seq<Moment>, k: nat)
    requires Run(h).Some? && k + 2 < |h| && IsLine(h[k], Logout)
    ensures Run(h[..k]).Some? && Run(h[..k + 3]).Some? && h[k + 1].event != Broken
    ensures var s, s' := Run(h[..k]).value, Run(h[..k + 3]).value;
            s'.point == Ended && s'.out == s.out + [Bye] + [Ok(Logout)]
  {
    hide Run, Step;
    LogoutRunsOn(h, k);
    LastStep(h, k + 2);
    StepsAtLogout(h[k + 2].drops, Run(h[..k + 2]).value, h[k + 2].event);
  }

  lemma OverWhen(h: seq<Moment>, k: nat)
    requires EndsAt(h, k)
    ensures Over(h)
  {
  }
}
