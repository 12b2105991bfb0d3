/** A transfer that fits the block numbers can always be finished, and no other transfer can. */
module Progress {
  import opened Options
  import opened Packet
  import opened Chunks
  import opened Machine
  import opened Network
  import opened Delivery

  // Nothing goes wrong in a clean action: a genuine datagram arrives, or a wait runs its full time.
  predicate Clean(action: Action) {
    match action
    case Pass(_) => true
    case SenderWakes(arrival, sendOk) => sendOk && !arrival.SocketError? && (arrival.Packet? ==> arrival.from == Peer)
    case ReceiverWakes(arrival, sendOk) => sendOk && !arrival.SocketError? && (arrival.Packet? ==> arrival.from == Peer)
  }

  predicate AllClean(actions: seq<Action>) {
    forall a | a in actions :: Clean(a)
  }

  predicate Complete(file: Bytes, net: Net) {
    net.sender.status == Ended(Success) && net.receiver.status == Ended(Success) && net.receiver.written == file
  }

  // Some clean continuation ends with both sides successful and the file complete.
  ghost predicate CanComplete(mode: Mode, file: Bytes, net: Net) {
    exists actions :: AllClean(actions) &&
      Run(mode, file, net, actions).Some? && Complete(file, Run(mode, file, net, actions).value)
  }

  // A side has neither failed nor been marked by its watchdog.
  predicate Alive(status: Status, clock: Clock) {
    status == Handshake || (status == Waiting && !clock.expired) || status == Ended(Success)
  }

  predicate BothAlive(net: Net) {
    Alive(net.sender.status, net.sender.clock) && Alive(net.receiver.status, net.receiver.clock)
  }

  lemma {:induction false} RunAppend(mode: Mode, file: Bytes, net: Net, a: seq<Action>, b: seq<Action>)
    requires Run(mode, file, net, a).Some?
    ensures Run(mode, file, net, a + b) == Run(mode, file, Run(mode, file, net, a).value, b)
  {
    if b == [] {
      assert a + b == a;
    } else {
      var b' := b[..|b| - 1];
      assert (a + b)[..|a + b| - 1] == a + b';
      RunAppend(mode, file, net, a, b');
    }
  }

  lemma {:induction false} RunOne(mode: Mode, file: Bytes, net: Net, action: Action)
    requires net.sender.k >= 1 && Enabled(net, action)
    ensures Run(mode, file, net, [action]) == Some(Step(mode, file, net, action))
  {
    assert [action][..0] == [];
  }

  lemma FirstStep(mode: Mode, file: Bytes, net: Net, action: Action)
    requires net.sender.k >= 1 && Enabled(net, action) && Clean(action)
    requires CanComplete(mode, file, Step(mode, file, net, action))
    ensures CanComplete(mode, file, net)
  {
    var next := Step(mode, file, net, action);
    var rest :| AllClean(rest) && Run(mode, file, next, rest).Some?
                && Complete(file, Run(mode, file, next, rest).value);
    RunOne(mode, file, net, action);
    RunAppend(mode, file, net, [action], rest);
    assert AllClean([action] + rest);
  }

  // The sender's current block arrives and is the receiver's next one.
  lemma DataArrives(mode: Mode, file: Bytes, net: Net) returns (action: Action)
    requires Inv(mode, file, net) && net.sender.status == Waiting
    requires net.receiver.status == Handshake || (net.receiver.status == Waiting && !net.receiver.clock.expired)
    requires net.sender.k == net.receiver.c as nat + 1 <= 65535
    ensures Enabled(net, action) && Clean(action) && Inv(mode, file, Step(mode, file, net, action))
    ensures var net' := Step(mode, file, net, action);
            && net'.sender == net.sender && net'.receiver.status == Waiting && !net'.receiver.clock.expired
            && net'.receiver.c == net.receiver.c + 1
            && net.ackSent <= net'.ackSent
            && (net.receiver.clock == START ==> net'.receiver.clock == START)
  {
    hide LockStep, NumChunks, Chunk, GetOpcode, GetBlockNumber, GetData, GetError, AckIsGenuine, Prefix;
    var bytes := DataPacket(file, net.sender.k);
    action := ReceiverWakes(Packet(Peer, bytes), true);
    DataPacketArrives(file, net.sender.k);
    StepKeepsInv(mode, file, net, action);
  }

  // The acknowledgement of block `number` arrives and is the one the sender waits for.
  lemma AckArrives(mode: Mode, file: Bytes, net: Net, number: u16) returns (action: Action)
    requires Inv(mode, file, net) && EncodeAck(number) in net.ackSent
    requires (net.sender.status == Handshake && number == 0)
          || (net.sender.status == Waiting && !net.sender.clock.expired && number == net.sender.k % 65536)
    ensures Enabled(net, action) && Clean(action) && Inv(mode, file, Step(mode, file, net, action))
    ensures var net' := Step(mode, file, net, action);
            && net'.receiver == net.receiver && net'.ackSent == net.ackSent
            && net'.sender.k == (if net.sender.status == Handshake then 1 else net.sender.k + 1)
            && net'.sender.status == (if net'.sender.k <= NumChunks(file) then Waiting else Ended(Success))
            && !net'.sender.clock.expired && (net.sender.clock == START ==> net'.sender.clock == START)
  {
    hide LockStep, NumChunks, GetOpcode, GetBlockNumber, GetError, DataIsGenuine, Prefix, DataPacket, EncodeAck;
    action := SenderWakes(Packet(Peer, EncodeAck(number)), true);
    AckNamesItsBlock(mode, net.receiver.c, EncodeAck(number));
    AckRoundTrip(number);
    StepKeepsInv(mode, file, net, action);
  }

  // Everything is across and acknowledged; the receiver sees silence for one full wait.
  lemma ReceiverFallsSilent(mode: Mode, file: Bytes, net: Net)
    requires Inv(mode, file, net) && net.sender.status == Ended(Success)
    requires net.receiver.status == Waiting && net.receiver.c == NumChunks(file) > 0
    ensures CanComplete(mode, file, net)
  {
    hide LockStep, NumChunks, DataIsGenuine, AckIsGenuine, Prefix;
    var pass := Pass(MAX_RECEIVE_WAIT_TIME - net.receiver.clock.waited);
    var wake := ReceiverWakes(WaitOver, true);
    var net1 := Step(mode, file, net, pass);
    var net2 := Step(mode, file, net1, wake);
    PrefixComplete(file, net.receiver.c);
    AlreadyComplete(mode, file, net2);
    FirstStep(mode, file, net1, wake);
    FirstStep(mode, file, net, pass);
  }

  lemma AlreadyComplete(mode: Mode, file: Bytes, net: Net)
    requires net.sender.k >= 1 && Complete(file, net)
    ensures CanComplete(mode, file, net)
  {
    assert Run(mode, file, net, []) == Some(net) && AllClean([]);
  }

  // Steps still to go.
  function Distance(file: Bytes, net: Net): int {
    2 * NumChunks(file) + 1 - net.sender.k - net.receiver.c + if net.sender.status == Handshake then 1 else 0
  }

  predicate AtStart(net: Net) {
    net.sender.clock == START && net.receiver.clock == START
  }

  // One step nearer to the end, with nothing gone wrong.
  ghost predicate Nearer(mode: Mode, file: Bytes, net: Net, net': Net) {
    && Inv(mode, file, net') && BothAlive(net') && 0 <= Distance(file, net') == Distance(file, net) - 1
    && (!net.receiver.status.Ended? ==> !net'.receiver.status.Ended?)
    && (AtStart(net) ==> AtStart(net'))
  }

  lemma AckBringsNearer(mode: Mode, file: Bytes, net: Net, number: u16) returns (action: Action)
    requires Inv(mode, file, net) && BothAlive(net) && net.sender.status != Ended(Success)
    requires NumChunks(file) <= 65535 && EncodeAck(number) in net.ackSent
    requires if net.sender.status == Handshake then number == 0 else number == net.sender.k
    ensures Enabled(net, action) && Clean(action) && Nearer(mode, file, net, Step(mode, file, net, action))
  {
    hide NumChunks, DataIsGenuine, AckIsGenuine, Prefix, DataPacket, EncodeAck, Step, Enabled;
    action := AckArrives(mode, file, net, number);
  }

  lemma DataBringsNearer(mode: Mode, file: Bytes, net: Net) returns (action: Action)
    requires Inv(mode, file, net) && BothAlive(net) && net.sender.status == Waiting
    requires NumChunks(file) <= 65535 && net.sender.k == net.receiver.c as nat + 1
    ensures Enabled(net, action) && Clean(action) && Nearer(mode, file, net, Step(mode, file, net, action))
  {
    hide NumChunks, DataIsGenuine, AckIsGenuine, Prefix, DataPacket, EncodeAck, Step, Enabled;
    action := DataArrives(mode, file, net);
  }

  // Some genuine delivery brings the transfer nearer to its end.
  lemma Advance(mode: Mode, file: Bytes, net: Net) returns (action: Action)
    requires Inv(mode, file, net) && BothAlive(net) && 1 <= |file| <= CAPACITY
    requires net.sender.status != Ended(Success)
    ensures Enabled(net, action) && Clean(action) && Nearer(mode, file, net, Step(mode, file, net, action))
  {
    CapacityIsLastBlock(file);
    assert NumChunks(file) > 0;
    hide NumChunks, DataIsGenuine, AckIsGenuine, Prefix, DataPacket, EncodeAck, Step, Enabled, Nearer;
    if net.sender.status == Handshake {
      action := AckBringsNearer(mode, file, net, 0);
    } else if net.sender.k == net.receiver.c as nat + 1 {
      action := DataBringsNearer(mode, file, net);
    } else {
      action := AckBringsNearer(mode, file, net, net.receiver.c);
    }
  }

  lemma {:induction false} AliveCanComplete(mode: Mode, file: Bytes, net: Net)
    requires Inv(mode, file, net) && BothAlive(net) && 1 <= |file| <= CAPACITY
    ensures CanComplete(mode, file, net)
    decreases Distance(file, net)
  {
    assert NumChunks(file) > 0;
    hide NumChunks, DataIsGenuine, AckIsGenuine, Prefix, DataPacket, Step, CanComplete, Enabled, Distance;
    if net.sender.status == Ended(Success) {
      if net.receiver.status == Ended(Success) {
        PrefixComplete(file, net.receiver.c);
        AlreadyComplete(mode, file, net);
      } else {
        ReceiverFallsSilent(mode, file, net);
      }
    } else {
      var action := Advance(mode, file, net);
      AliveCanComplete(mode, file, Step(mode, file, net, action));
      FirstStep(mode, file, net, action);
    }
  }

  /**
    No stuck state: as long as no side has failed and no watchdog has fired, some sequence of genuine deliveries
    and full waits finishes the transfer.
   */
  lemma NeverStuck(mode: Mode, file: Bytes, net: Net)
    requires 1 <= |file| <= CAPACITY
    ensures Reachable(mode, file, net) && BothAlive(net) ==> CanComplete(mode, file, net)
  {
    if Reachable(mode, file, net) && BothAlive(net) {
      ReachableKeepsInv(mode, file, net);
      AliveCanComplete(mode, file, net);
    }
  }

  /** Exactly the files of 1 to CAPACITY bytes can be transferred, in either direction. */
  lemma ExactCapacity(mode: Mode, file: Bytes)
    ensures (exists net :: Reachable(mode, file, net) && Complete(file, net)) <==> 1 <= |file| <= CAPACITY
    ensures (exists net :: Reachable(mode, file, net) && net.receiver.status == Ended(Success))
       <==> 1 <= |file| <= CAPACITY
  {
    var init := Init(mode, file, true);
    if 1 <= |file| <= CAPACITY {
      assert Run(mode, file, init, []) == Some(init);
      NeverStuck(mode, file, init);
      var actions :| AllClean(actions) && Run(mode, file, init, actions).Some?
                     && Complete(file, Run(mode, file, init, actions).value);
      var end := Run(mode, file, init, actions).value;
      assert Reachable(mode, file, end);
    }
    forall net | Reachable(mode, file, net) && net.receiver.status == Ended(Success)
      ensures 1 <= |file| <= CAPACITY
    {
      ReceiverSuccessIsExact(mode, file, net);
    }
  }
}
