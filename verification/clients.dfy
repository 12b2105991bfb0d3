/**
  The client's two requests from the handshake on, and what they achieve over the network: one side's waits in a
  run of the whole system are exactly what its loop sees.
 */
module Clients {
  import opened Packet
  import opened Chunks
  import opened Machine
  import opened Loops
  import opened Network
  import opened Delivery

  // ----- One side of a run -----

  // A side's completed waits, and how long the current one has lasted.
  function SenderWaits(actions: seq<Action>): (seq<Wait>, nat) {
    if actions == [] then ([], 0) else
    var (waits, ms) := SenderWaits(actions[..|actions| - 1]);
    match actions[|actions| - 1]
    case Pass(more) => (waits, ms + more)
    case SenderWakes(arrival, sendOk) => (waits + [Wait(ms, arrival, sendOk)], 0)
    case ReceiverWakes(_, _) => (waits, ms)
  }

  function ReceiverWaits(actions: seq<Action>): (seq<Wait>, nat) {
    if actions == [] then ([], 0) else
    var (waits, ms) := ReceiverWaits(actions[..|actions| - 1]);
    match actions[|actions| - 1]
    case Pass(more) => (waits, ms + more)
    case SenderWakes(_, _) => (waits, ms)
    case ReceiverWakes(arrival, sendOk) => (waits + [Wait(ms, arrival, sendOk)], 0)
  }

  function SenderInit(mode: Mode, file: Bytes, firstOk: bool): (start: (Sender, seq<Datagram>))
    ensures start.0.k >= 1
  {
    if mode == Reading then SenderTop(file, 1, START, firstOk) else (REQUESTING_SENDER, [])
  }

  function ReceiverInit(mode: Mode, firstOk: bool): (Receiver, seq<Datagram>) {
    if mode == Reading then (REQUESTING_RECEIVER, []) else ReceiverTop(FRESH_RECEIVER, firstOk)
  }

  lemma ToPeerAppend(a: seq<Datagram>, b: seq<Datagram>)
    ensures ToPeer(a + b) == ToPeer(a) + ToPeer(b)
  {
    forall bytes
      ensures bytes in ToPeer(a + b) <==> bytes in ToPeer(a) || bytes in ToPeer(b)
    {
      if bytes in ToPeer(a + b) {
        var d :| d in a + b && d.to == Peer && d.bytes == bytes;
        assert d in a || d in b;
      }
    }
  }

  // The watchdog's flag is raised as soon as its time is up.
  predicate Coherent(clock: Clock) {
    clock.sinceReset >= MAX_WAIT_TIME ==> clock.expired
  }

  lemma WaitsKeepCoherence(role: Role, file: Bytes, s: Sender, r: Receiver, w: Wait)
    requires s.k >= 1 && Coherent(s.clock) && Coherent(r.clock)
    ensures Coherent(SenderWait(role, file, s, w).0.clock)
    ensures Coherent(ReceiverWait(role, r, w).0.clock)
  {
    hide Received, GetOpcode, GetBlockNumber, GetError, GetData, NumChunks, DataPacket;
  }

  ghost predicate SenderSees(mode: Mode, file: Bytes, firstOk: bool, net: Net, waits: seq<Wait>, ms: nat) {
    var (s, log) := SenderRun(SenderRole(mode), file, SenderInit(mode, file, firstOk), waits);
    net.sender == PassSender(s, ms) && net.dataSent == ToPeer(log) && Coherent(s.clock)
  }

  ghost predicate ReceiverSees(mode: Mode, firstOk: bool, net: Net, waits: seq<Wait>, ms: nat) {
    var (r, log) := ReceiverRun(ReceiverRole(mode), ReceiverInit(mode, firstOk), waits);
    net.receiver == PassReceiver(r, ms) && net.ackSent == ToPeer(log) && Coherent(r.clock)
  }

  lemma SenderSeesWake(mode: Mode, file: Bytes, firstOk: bool, net: Net, waits: seq<Wait>, ms: nat,
                       arrival: Arrival, sendOk: bool)
    requires SenderSees(mode, file, firstOk, net, waits, ms) && net.sender.k >= 1
    requires Enabled(net, SenderWakes(arrival, sendOk))
    ensures SenderSees(mode, file, firstOk, Step(mode, file, net, SenderWakes(arrival, sendOk)),
                       waits + [Wait(ms, arrival, sendOk)], 0)
  {
    hide SenderWake, SenderInit, ToPeer;
    var w := Wait(ms, arrival, sendOk);
    assert (waits + [w])[..|waits|] == waits;
    var (s, log) := SenderRun(SenderRole(mode), file, SenderInit(mode, file, firstOk), waits);
    var (s', sent) := SenderWait(SenderRole(mode), file, s, w);
    ToPeerAppend(log, sent);
    WaitsKeepCoherence(SenderRole(mode), file, s, FRESH_RECEIVER, w);
  }

  lemma ReceiverSeesWake(mode: Mode, file: Bytes, firstOk: bool, net: Net, waits: seq<Wait>, ms: nat,
                         arrival: Arrival, sendOk: bool)
    requires ReceiverSees(mode, firstOk, net, waits, ms) && net.sender.k >= 1
    requires Enabled(net, ReceiverWakes(arrival, sendOk))
    ensures ReceiverSees(mode, firstOk, Step(mode, file, net, ReceiverWakes(arrival, sendOk)),
                         waits + [Wait(ms, arrival, sendOk)], 0)
  {
    hide ReceiverWake, ReceiverInit, ToPeer;
    var w := Wait(ms, arrival, sendOk);
    assert (waits + [w])[..|waits|] == waits;
    var (r, log) := ReceiverRun(ReceiverRole(mode), ReceiverInit(mode, firstOk), waits);
    var (r', sent) := ReceiverWait(ReceiverRole(mode), r, w);
    ToPeerAppend(log, sent);
    WaitsKeepCoherence(ReceiverRole(mode), file, REQUESTING_SENDER, r, w);
  }

  lemma SenderSeesStart(mode: Mode, file: Bytes, firstOk: bool)
    ensures SenderSees(mode, file, firstOk, Init(mode, file, firstOk), [], 0)
  {
  }

  // The sender's wait goes on while others act.
  lemma SenderSeesOthers(mode: Mode, file: Bytes, firstOk: bool, net: Net, waits: seq<Wait>, ms: nat, action: Action)
    requires SenderSees(mode, file, firstOk, net, waits, ms)
    requires net.sender.k >= 1 && Enabled(net, action) && !action.SenderWakes?
    ensures SenderSees(mode, file, firstOk, Step(mode, file, net, action), waits,
                       ms + if action.Pass? then action.ms else 0)
  {
    hide SenderWake, ReceiverWake, SenderInit, SenderRun, ToPeer;
  }

  lemma ReceiverSeesStart(mode: Mode, file: Bytes, firstOk: bool)
    ensures ReceiverSees(mode, firstOk, Init(mode, file, firstOk), [], 0)
  {
  }

  lemma ReceiverSeesOthers(mode: Mode, file: Bytes, firstOk: bool, net: Net, waits: seq<Wait>, ms: nat, action: Action)
    requires ReceiverSees(mode, firstOk, net, waits, ms)
    requires net.sender.k >= 1 && Enabled(net, action) && !action.ReceiverWakes?
    ensures ReceiverSees(mode, firstOk, Step(mode, file, net, action), waits,
                         ms + if action.Pass? then action.ms else 0)
  {
    hide SenderWake, ReceiverWake, ReceiverInit, ReceiverRun, ToPeer;
  }

  /** In every run of the system the sender does what its loop does with its own waits, packet by packet. */
  lemma {:induction false} SenderRunsItsLoop(mode: Mode, file: Bytes, firstOk: bool, actions: seq<Action>)
    requires Run(mode, file, Init(mode, file, firstOk), actions).Some?
    ensures SenderSees(mode, file, firstOk, Run(mode, file, Init(mode, file, firstOk), actions).value,
                       SenderWaits(actions).0, SenderWaits(actions).1)
  {
    if actions != [] {
      hide SenderSees, Step, Init, Enabled, Run;
      var earlier, last := actions[..|actions| - 1], actions[|actions| - 1];
      LastStep(mode, file, Init(mode, file, firstOk), actions);
      SenderRunsItsLoop(mode, file, firstOk, earlier);
      var net := Run(mode, file, Init(mode, file, firstOk), earlier).value;
      var waits, ms := SenderWaits(earlier).0, SenderWaits(earlier).1;
      if last.SenderWakes? {
        SenderSeesWake(mode, file, firstOk, net, waits, ms, last.arrival, last.sendOk);
      } else {
        SenderSeesOthers(mode, file, firstOk, net, waits, ms, last);
      }
    } else {
      SenderSeesStart(mode, file, firstOk);
    }
  }

  /** And so does the receiver. */
  lemma {:induction false} ReceiverRunsItsLoop(mode: Mode, file: Bytes, firstOk: bool, actions: seq<Action>)
    requires Run(mode, file, Init(mode, file, firstOk), actions).Some?
    ensures ReceiverSees(mode, firstOk, Run(mode, file, Init(mode, file, firstOk), actions).value,
                         ReceiverWaits(actions).0, ReceiverWaits(actions).1)
  {
    if actions != [] {
      hide ReceiverSees, Step, Init, Enabled, Run;
      var earlier, last := actions[..|actions| - 1], actions[|actions| - 1];
      LastStep(mode, file, Init(mode, file, firstOk), actions);
      ReceiverRunsItsLoop(mode, file, firstOk, earlier);
      var net := Run(mode, file, Init(mode, file, firstOk), earlier).value;
      var waits, ms := ReceiverWaits(earlier).0, ReceiverWaits(earlier).1;
      if last.ReceiverWakes? {
        ReceiverSeesWake(mode, file, firstOk, net, waits, ms, last.arrival, last.sendOk);
      } else {
        ReceiverSeesOthers(mode, file, firstOk, net, waits, ms, last);
      }
    } else {
      ReceiverSeesStart(mode, file, firstOk);
    }
  }

  // ----- The requests -----

  // Some run of an honest read, or write, of the file shows the client these waits.
  ghost predicate SeenReading(file: Bytes, firstOk: bool, actions: seq<Action>, waits: seq<Wait>) {
    Run(Reading, file, Init(Reading, file, firstOk), actions).Some? && ReceiverWaits(actions).0 == waits
  }

  ghost predicate SeenWriting(file: Bytes, firstOk: bool, actions: seq<Action>, waits: seq<Wait>) {
    Run(Writing, file, Init(Writing, file, firstOk), actions).Some? && SenderWaits(actions).0 == waits
  }

  lemma {:induction false} ReceiverRunSplits(role: Role, start: (Receiver, seq<Datagram>), w: Wait, rest: seq<Wait>)
    ensures ReceiverRun(role, start, [w] + rest) == ReceiverRun(role, ReceiverRun(role, start, [w]), rest)
  {
    if rest == [] {
      assert [w] + rest == [w];
    } else {
      ReceiverRunSplits(role, start, w, rest[..|rest| - 1]);
      assert ([w] + rest)[..|rest|] == [w] + rest[..|rest| - 1];
    }
  }

  lemma {:induction false} SenderRunSplits(role: Role, file: Bytes, start: (Sender, seq<Datagram>), w: Wait,
                                           rest: seq<Wait>)
    requires start.0.k >= 1
    ensures SenderRun(role, file, start, [w] + rest) == SenderRun(role, file, SenderRun(role, file, start, [w]), rest)
  {
    if rest == [] {
      assert [w] + rest == [w];
    } else {
      SenderRunSplits(role, file, start, w, rest[..|rest| - 1]);
      assert ([w] + rest)[..|rest|] == [w] + rest[..|rest| - 1];
    }
  }

  // The run of a read whose handshake is over.
  lemma {:induction false} ReadAfterHandshake(waits: seq<Wait>)
    requires waits != []
    ensures var w := waits[0];
            var (r, log) := ReceiverWait(Client, REQUESTING_RECEIVER, w);
            && ReceiverRun(Client, (REQUESTING_RECEIVER, []), waits) == ReceiverRun(Client, (r, log), waits[1..])
            && (r.status.Ended? ==> ReceiverRun(Client, (REQUESTING_RECEIVER, []), waits) == (r, log))
  {
    var w := waits[0];
    var start: (Receiver, seq<Datagram>) := (REQUESTING_RECEIVER, []);
    assert waits == [w] + waits[1..] && [w][..0] == [];
    ReceiverRunSplits(Client, start, w, waits[1..]);
    var (r, log) := ReceiverWait(Client, REQUESTING_RECEIVER, w);
    assert [] + log == log;
    if r.status.Ended? {
      assert waits[1..][..0] == [];
      ReceiverStaysEnded(Client, (r, log), waits[1..], 0);
    }
  }

  lemma {:induction false} WriteAfterHandshake(file: Bytes, waits: seq<Wait>)
    requires waits != []
    ensures var w := waits[0];
            var (s, log) := SenderWait(Client, file, REQUESTING_SENDER, w);
            && s.k >= 1
            && SenderRun(Client, file, (REQUESTING_SENDER, []), waits) == SenderRun(Client, file, (s, log), waits[1..])
            && (s.status.Ended? ==> SenderRun(Client, file, (REQUESTING_SENDER, []), waits) == (s, log))
  {
    var w := waits[0];
    var start: (Sender, seq<Datagram>) := (REQUESTING_SENDER, []);
    assert waits == [w] + waits[1..] && [w][..0] == [];
    SenderRunSplits(Client, file, start, w, waits[1..]);
    var (s, log) := SenderWait(Client, file, REQUESTING_SENDER, w);
    assert [] + log == log;
    if s.status.Ended? {
      assert waits[1..][..0] == [];
      SenderStaysEnded(Client, file, (s, log), waits[1..], 0);
    }
  }

  lemma {:induction false} HonestReadIsExact(file: Bytes, firstOk: bool, actions: seq<Action>, waits: seq<Wait>)
    requires SeenReading(file, firstOk, actions, waits)
    ensures var r := ReceiverRun(Client, (REQUESTING_RECEIVER, []), waits).0;
            r.status == Ended(Success) ==> r.written == file
  {
    ReceiverRunsItsLoop(Reading, file, firstOk, actions);
    var net := Run(Reading, file, Init(Reading, file, firstOk), actions).value;
    assert Reachable(Reading, file, net);
    if net.receiver.status == Ended(Success) {
      ReceiverSuccessIsExact(Reading, file, net);
    }
  }

  // The first response is DATA 1 and not an ERROR.
  predicate BringsFirstBlock(arrival: Arrival) {
    && arrival.Packet? && GetError(Received(arrival.bytes)).0 != Error
    && GetOpcode(Received(arrival.bytes)) == Data && GetBlockNumber(Received(arrival.bytes)) == 1
  }

  /**
    `read_client`. Over an honest network, success leaves a target equal to the source. A request that is not
    answered by block 1 leaves the target as it was, and any error after that answer leaves no target.
   */
  method ReadClient(target: TargetFile, waits: seq<Wait>) returns (status: Status, sent: seq<Datagram>)
    modifies target
    ensures var (r, log) := ReceiverRun(Client, (REQUESTING_RECEIVER, []), waits);
            && status == r.status && sent == log
            && (status == Ended(Success) ==> target.present && target.content == r.written)
    ensures waits != [] && BringsFirstBlock(waits[0].arrival) ==>
              (status.Ended? && status != Ended(Success) ==> !target.present)
    ensures !(waits != [] && BringsFirstBlock(waits[0].arrival)) ==> unchanged(target)
    ensures forall file, firstOk, actions :: SeenReading(file, firstOk, actions, waits) && status == Ended(Success) ==>
              target.present && target.content == file
  {
    forall file, firstOk, actions | SeenReading(file, firstOk, actions, waits)
      ensures var r := ReceiverRun(Client, (REQUESTING_RECEIVER, []), waits).0;
              r.status == Ended(Success) ==> r.written == file
    {
      HonestReadIsExact(file, firstOk, actions, waits);
    }
    hide SeenReading, ReceiverRun, GetOpcode, GetBlockNumber, GetError, GetData, ReceiverTop;
    if waits == [] {
      ReadNotAnswered();
      return Handshake, [];
    }
    ReadAfterHandshake(waits);
    var w := waits[0];
    if !w.arrival.Packet? {
      return Ended(TimedOut), [];
    }
    var buffer := Received(w.arrival.bytes);
    if GetError(buffer).0 == Error {
      return Ended(Refused), [];
    }
    if GetOpcode(buffer) != Data || GetBlockNumber(buffer) != 1 {
      return Ended(Aborted), [];
    }
    target.Open();
    status, sent := ClientReceiveLoop(target, buffer, w.sendOk, waits[1..]);
    if status.Ended? && status != Ended(Success) {
      target.Remove();
    }
  }

  lemma ReadNotAnswered()
    ensures ReceiverRun(Client, (REQUESTING_RECEIVER, []), []) == (REQUESTING_RECEIVER, [])
  {
  }

  lemma {:induction false} WriteNotAnswered(file: Bytes)
    ensures SenderRun(Client, file, (REQUESTING_SENDER, []), []) == (REQUESTING_SENDER, [])
  {
  }

  lemma {:induction false} HonestWriteIsSound(file: Bytes, firstOk: bool, actions: seq<Action>, waits: seq<Wait>)
    requires SeenWriting(file, firstOk, actions, waits) && |file| <= CAPACITY
    ensures SenderRun(Client, file, (REQUESTING_SENDER, []), waits).0.status == Ended(Success) ==>
              Run(Writing, file, Init(Writing, file, firstOk), actions).value.receiver.written == file
  {
    SenderRunsItsLoop(Writing, file, firstOk, actions);
    var net := Run(Writing, file, Init(Writing, file, firstOk), actions).value;
    assert Reachable(Writing, file, net);
    if net.sender.status == Ended(Success) {
      SenderSuccessIsSound(Writing, file, net);
    }
  }

  /**
    `write_client`. Over an honest network, success for a file that fits the block numbers means that the server
    has already written all of it.
   */
  method WriteClient(source: InputStream, waits: seq<Wait>) returns (status: Status, sent: seq<Datagram>)
    requires source.pos == 0 && !source.eof
    modifies source
    ensures var (s, log) := SenderRun(Client, source.content, (REQUESTING_SENDER, []), waits);
            status == s.status && sent == log
    ensures status == Ended(Success) && |source.content| <= CAPACITY ==>
              forall firstOk, actions | SeenWriting(source.content, firstOk, actions, waits) ::
                Run(Writing, source.content, Init(Writing, source.content, firstOk), actions).value.receiver.written
                  == source.content
  {
    ghost var file := source.content;
    forall firstOk, actions | SeenWriting(file, firstOk, actions, waits) && |file| <= CAPACITY
      ensures SenderRun(Client, file, (REQUESTING_SENDER, []), waits).0.status == Ended(Success) ==>
                Run(Writing, file, Init(Writing, file, firstOk), actions).value.receiver.written == file
    {
      HonestWriteIsSound(file, firstOk, actions, waits);
    }
    hide SenderRun, GetOpcode, GetBlockNumber, GetError, SenderTop, Init;
    if waits == [] {
      WriteNotAnswered(file);
      return Handshake, [];
    }
    WriteAfterHandshake(file, waits);
    var w := waits[0];
    if !w.arrival.Packet? {
      return Ended(TimedOut), [];
    }
    var buffer := Received(w.arrival.bytes);
    if GetError(buffer).0 == Error {
      return Ended(Refused), [];
    }
    if GetOpcode(buffer) != Ack || GetBlockNumber(buffer) != 0 {
      return Ended(Aborted), [];
    }
    status, sent := SendLoop(Client, source, w.sendOk, waits[1..]);
  }
}
