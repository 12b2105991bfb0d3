/**
  One sender and one receiver over a network that may lose, duplicate, delay and reorder datagrams: every datagram
  ever sent to a side can arrive at any later wait, any number of times, or never. Packets from other endpoints
  arrive at will once a transfer has begun. Time passes for both sides at once.
 */
module Network {
  import opened Options
  import opened Packet
  import opened Chunks
  import opened Machine

  // Reading sends the server's file to the client, writing sends the client's file to the server.
  datatype Mode = Reading | Writing

  function SenderRole(mode: Mode): Role {
    if mode == Reading then Server else Client
  }

  function ReceiverRole(mode: Mode): Role {
    if mode == Reading then Client else Server
  }

  // `dataSent` and `ackSent` hold every datagram ever sent to the receiver and to the sender.
  datatype Net = Net(sender: Sender, receiver: Receiver, dataSent: set<Bytes>, ackSent: set<Bytes>)

  function ToPeer(log: seq<Datagram>): set<Bytes> {
    set d | d in log && d.to == Peer :: d.bytes
  }

  // The request has been accepted and the server has tried its first send.
  function Init(mode: Mode, file: Bytes, firstOk: bool): Net {
    if mode == Reading then
      var (s, sent) := SenderTop(file, 1, START, firstOk);
      Net(s, REQUESTING_RECEIVER, ToPeer(sent), {})
    else
      var (r, sent) := ReceiverTop(FRESH_RECEIVER, firstOk);
      Net(REQUESTING_SENDER, r, {}, ToPeer(sent))
  }

  datatype Action =
    | Pass(ms: nat)
    | SenderWakes(arrival: Arrival, sendOk: bool)
    | ReceiverWakes(arrival: Arrival, sendOk: bool)

  predicate CanPass(status: Status, clock: Clock, ms: nat) {
    status.Ended? || clock.waited + ms <= MAX_RECEIVE_WAIT_TIME
  }

  // The first response is taken to come from the true peer, whose endpoint the client then keeps to.
  predicate CanArrive(status: Status, clock: Clock, arrival: Arrival, sent: set<Bytes>) {
    match arrival
    case WaitOver => clock.waited == MAX_RECEIVE_WAIT_TIME
    case SocketError => true
    case Packet(from, bytes) => if from == Peer then bytes in sent else status != Handshake
  }

  predicate Enabled(net: Net, action: Action) {
    match action
    case Pass(ms) =>
      && CanPass(net.sender.status, net.sender.clock, ms)
      && CanPass(net.receiver.status, net.receiver.clock, ms)
    case SenderWakes(arrival, _) =>
      !net.sender.status.Ended? && CanArrive(net.sender.status, net.sender.clock, arrival, net.ackSent)
    case ReceiverWakes(arrival, _) =>
      !net.receiver.status.Ended? && CanArrive(net.receiver.status, net.receiver.clock, arrival, net.dataSent)
  }

  function PassSender(s: Sender, ms: nat): Sender {
    if s.status.Ended? then s else s.(clock := Elapse(s.clock, ms))
  }

  function PassReceiver(r: Receiver, ms: nat): Receiver {
    if r.status.Ended? then r else r.(clock := Elapse(r.clock, ms))
  }

  function Step(mode: Mode, file: Bytes, net: Net, action: Action): Net
    requires net.sender.k >= 1
  {
    match action
    case Pass(ms) =>
      net.(sender := PassSender(net.sender, ms), receiver := PassReceiver(net.receiver, ms))
    case SenderWakes(arrival, sendOk) =>
      var (s, sent) := SenderWake(SenderRole(mode), file, net.sender, arrival, sendOk);
      net.(sender := s, dataSent := net.dataSent + ToPeer(sent))
    case ReceiverWakes(arrival, sendOk) =>
      var (r, sent) := ReceiverWake(ReceiverRole(mode), net.receiver, arrival, sendOk);
      net.(receiver := r, ackSent := net.ackSent + ToPeer(sent))
  }

  /** The state after the given actions, if each of them was possible when it was taken. */
  function Run(mode: Mode, file: Bytes, net: Net, actions: seq<Action>): (end: Option<Net>)
    ensures end.Some? && net.sender.k >= 1 ==> end.value.sender.k >= 1
  {
    if net.sender.k < 1 then None
    else if actions == [] then Some(net)
    else
      var last := actions[|actions| - 1];
      var before := Run(mode, file, net, actions[..|actions| - 1]);
      if before.Some? && Enabled(before.value, last) then Some(Step(mode, file, before.value, last)) else None
  }

  lemma {:induction false} LastStep(mode: Mode, file: Bytes, net: Net, actions: seq<Action>)
    requires actions != [] && Run(mode, file, net, actions).Some?
    ensures var before, last := Run(mode, file, net, actions[..|actions| - 1]), actions[|actions| - 1];
            && before.Some? && before.value.sender.k >= 1 && Enabled(before.value, last)
            && Run(mode, file, net, actions) == Some(Step(mode, file, before.value, last))
  {
    hide Step, Enabled;
  }

  ghost predicate Reachable(mode: Mode, file: Bytes, net: Net) {
    exists firstOk, actions :: Run(mode, file, Init(mode, file, firstOk), actions) == Some(net)
  }

  // ----- The invariant of every reachable state -----

  ghost predicate DataIsGenuine(file: Bytes, k: nat, bytes: Bytes) {
    exists j :: 1 <= j <= k && j <= NumChunks(file) && bytes == DataPacket(file, j)
  }

  ghost predicate AckIsGenuine(mode: Mode, c: u16, bytes: Bytes) {
    exists i: u16 :: (if mode == Writing then 0 else 1) <= i <= c && bytes == EncodeAck(i)
  }

  ghost predicate SenderInv(mode: Mode, file: Bytes, s: Sender, dataSent: set<Bytes>) {
    var n := NumChunks(file);
    && 1 <= s.k <= n + 1
    && (s.status == Handshake ==> mode == Writing && s.k == 1 && dataSent == {})
    && (s.status == Waiting ==> s.k <= n && DataPacket(file, s.k) in dataSent)
    && (s.status == Ended(Success) ==> s.k == n + 1)
    && (s.status.Ended? || s.clock.waited <= MAX_RECEIVE_WAIT_TIME)
    && (forall bytes | bytes in dataSent :: DataIsGenuine(file, s.k, bytes))
  }

  ghost predicate ReceiverInv(mode: Mode, file: Bytes, r: Receiver, ackSent: set<Bytes>) {
    var n := NumChunks(file);
    && r.c <= n
    && r.written == Prefix(file, r.c)
    && (r.everShort <==> r.c == n && n > 0)
    && (r.lastSize < CHUNK <==> r.c == n && n > 0)
    && (r.status == Handshake ==> mode == Reading && r.c == 0 && ackSent == {})
    && (mode == Reading && r.status == Waiting ==> r.c >= 1)
    && (r.status == Waiting || r.status == Ended(Success) ==> EncodeAck(r.c) in ackSent)
    && (r.status == Ended(Success) ==> r.c == n && n > 0)
    && (r.status.Ended? || r.clock.waited <= MAX_RECEIVE_WAIT_TIME)
    && (forall bytes | bytes in ackSent :: AckIsGenuine(mode, r.c, bytes))
  }

  // While the sender is at or before block 65535 the two counts move in lock step; past it the receiver is stuck.
  ghost predicate LockStep(mode: Mode, k: nat, c: u16) {
    && (k <= 65535 ==> c <= k <= c + 1)
    && (k > 65535 ==> c == 65535)
    && (mode == Reading ==> k <= 65536)
  }

  ghost predicate Inv(mode: Mode, file: Bytes, net: Net) {
    && SenderInv(mode, file, net.sender, net.dataSent)
    && ReceiverInv(mode, file, net.receiver, net.ackSent)
    && LockStep(mode, net.sender.k, net.receiver.c)
    && (net.sender.status == Handshake ==> net.receiver.c == 0)
  }

  lemma InitKeepsInv(mode: Mode, file: Bytes, firstOk: bool)
    ensures Inv(mode, file, Init(mode, file, firstOk))
  {
    if mode == Reading && NumChunks(file) > 0 {
      assert DataIsGenuine(file, 1, DataPacket(file, 1));
    }
    assert mode == Writing ==> AckIsGenuine(mode, 0, EncodeAck(0));
  }

  // What the sender sends from the top of its loop.
  lemma SenderTopKeepsInv(mode: Mode, file: Bytes, k: nat, clock: Clock, sendOk: bool, dataSent: set<Bytes>)
    requires 1 <= k <= NumChunks(file) + 1
    requires forall bytes | bytes in dataSent :: DataIsGenuine(file, k, bytes)
    ensures var (s, sent) := SenderTop(file, k, clock, sendOk);
            SenderInv(mode, file, s, dataSent + ToPeer(sent))
  {
    var (s, sent) := SenderTop(file, k, clock, sendOk);
    if sent != [] {
      assert DataIsGenuine(file, k, DataPacket(file, k));
      assert sent[0] in sent;
    }
  }

  lemma AckNamesItsBlock(mode: Mode, c: u16, bytes: Bytes)
    requires AckIsGenuine(mode, c, bytes)
    ensures GetOpcode(Received(bytes)) == Ack
    ensures (if mode == Writing then 0 else 1) <= GetBlockNumber(Received(bytes)) <= c
    ensures GetError(Received(bytes)).0 != Error
    ensures Received(bytes) == bytes && |bytes| == 4
  {
    var i: u16 :| (if mode == Writing then 0 else 1) <= i <= c && bytes == EncodeAck(i);
    AckRoundTrip(i);
  }

  lemma StraysAreNotToPeer(stray: Datagram, sent: seq<Datagram>)
    requires stray.to != Peer
    ensures ToPeer([stray] + sent) == ToPeer(sent)
  {
  }

  lemma GenuineDataStays(file: Bytes, k: nat, dataSent: set<Bytes>)
    requires forall bytes | bytes in dataSent :: DataIsGenuine(file, k, bytes)
    ensures forall bytes | bytes in dataSent :: DataIsGenuine(file, k + 1, bytes)
  {
    forall bytes | bytes in dataSent
      ensures DataIsGenuine(file, k + 1, bytes)
    {
      var j :| 1 <= j <= k && j <= NumChunks(file) && bytes == DataPacket(file, j);
    }
  }

  // A genuine acknowledgement moves the sender on only when it may move on.
  lemma AcknowledgedInStep(mode: Mode, k: nat, c: u16, bytes: Bytes)
    requires LockStep(mode, k, c) && k >= 1
    ensures AckIsGenuine(mode, c, bytes) && Acknowledges(k, Received(bytes)) ==> LockStep(mode, k + 1, c)
  {
    hide AckIsGenuine, Received, GetOpcode, GetBlockNumber, GetError;
    if AckIsGenuine(mode, c, bytes) {
      AckNamesItsBlock(mode, c, bytes);
    }
  }

  lemma SenderWakeKeepsInv(mode: Mode, file: Bytes, s: Sender, c: u16, dataSent: set<Bytes>, arrival: Arrival,
                           sendOk: bool)
    requires SenderInv(mode, file, s, dataSent) && LockStep(mode, s.k, c) && !s.status.Ended?
    requires s.status == Handshake ==> c == 0
    requires arrival.Packet? && arrival.from == Peer ==> AckIsGenuine(mode, c, arrival.bytes)
    ensures var (s', sent) := SenderWake(SenderRole(mode), file, s, arrival, sendOk);
            && SenderInv(mode, file, s', dataSent + ToPeer(sent))
            && LockStep(mode, s'.k, c) && s'.status != Handshake
  {
    hide DataIsGenuine, AckIsGenuine, Received, GetOpcode, GetBlockNumber, GetError, NumChunks,
      DataPacket, UnknownTransfer;
    if s.status == Handshake {
      SenderTopKeepsInv(mode, file, 1, START, sendOk, dataSent);
    } else if arrival.Packet? && arrival.from == Peer && Acknowledges(s.k, Received(arrival.bytes)) {
      AcknowledgedInStep(mode, s.k, c, arrival.bytes);
      GenuineDataStays(file, s.k, dataSent);
      SenderTopKeepsInv(mode, file, s.k + 1, Rewind(s.clock), sendOk, dataSent);
    } else {
      SenderTopKeepsInv(mode, file, s.k, s.clock, sendOk, dataSent);
      if arrival.Packet? && arrival.from != Peer {
        StraysAreNotToPeer(Datagram(arrival.from, UnknownTransfer(SenderRole(mode) == Server)),
                           SenderTop(file, s.k, s.clock, sendOk).1);
      }
    }
  }

  lemma ReceiverTopKeepsInv(mode: Mode, file: Bytes, r: Receiver, sendOk: bool, ackSent: set<Bytes>)
    requires ReceiverInv(mode, file, r.(status := Ended(TimedOut)), ackSent)
    requires mode == Reading ==> r.c >= 1
    ensures var (r', sent) := ReceiverTop(r, sendOk);
            && ReceiverInv(mode, file, r', ackSent + ToPeer(sent)) && r'.status != Handshake && r'.c == r.c
  {
    var (r', sent) := ReceiverTop(r, sendOk);
    if sent != [] {
      assert AckIsGenuine(mode, r.c, EncodeAck(r.c));
      assert sent[0] in sent;
    }
  }

  lemma DataPacketArrives(file: Bytes, k: nat)
    requires 1 <= k <= NumChunks(file)
    ensures var buffer := Received(DataPacket(file, k));
            && GetOpcode(buffer) == Data && GetError(buffer).0 != Error
            && GetBlockNumber(buffer) == k % 65536 && GetData(buffer) == Chunk(file, k)
  {
    ChunkLength(file, k);
    DataRoundTrip(k % 65536, Chunk(file, k));
  }

  // The next block is exactly the next chunk: an alias of its number exists only once the receiver is stuck.
  lemma NextBlockIsNextChunk(mode: Mode, file: Bytes, k: nat, c: u16, bytes: Bytes)
    requires LockStep(mode, k, c) && DataIsGenuine(file, k, bytes)
    ensures GetOpcode(Received(bytes)) == Data && GetError(Received(bytes)).0 != Error
    ensures IsNextBlock(c, Received(bytes)) ==>
              c < k && c as nat < NumChunks(file) && GetData(Received(bytes)) == Chunk(file, c + 1)
    ensures k == c as nat + 1 && k <= 65535 && k <= NumChunks(file) && bytes == DataPacket(file, k) ==>
              IsNextBlock(c, Received(bytes))
  {
    hide NumChunks, Chunk, GetOpcode, GetBlockNumber, GetData, GetError;
    var j :| 1 <= j <= k && j <= NumChunks(file) && bytes == DataPacket(file, j);
    DataPacketArrives(file, j);
    if 1 <= k <= NumChunks(file) {
      DataPacketArrives(file, k);
    }
  }

  lemma GenuineAcksStay(mode: Mode, c: u16, ackSent: set<Bytes>)
    requires c < 65535
    requires forall bytes | bytes in ackSent :: AckIsGenuine(mode, c, bytes)
    ensures forall bytes | bytes in ackSent :: AckIsGenuine(mode, c + 1, bytes)
  {
    forall bytes | bytes in ackSent
      ensures AckIsGenuine(mode, c + 1, bytes)
    {
      var i: u16 :| (if mode == Writing then 0 else 1) <= i <= c && bytes == EncodeAck(i);
    }
  }

  lemma AcceptKeepsInv(mode: Mode, file: Bytes, r: Receiver, ackSent: set<Bytes>, buffer: Bytes)
    requires ReceiverInv(mode, file, r, ackSent) && !r.status.Ended?
    requires IsNextBlock(r.c, buffer) && r.c < NumChunks(file) && GetData(buffer) == Chunk(file, r.c + 1)
    ensures ReceiverInv(mode, file, Accept(r, buffer).(status := Ended(TimedOut)), ackSent)
  {
    PrefixGrows(file, r.c);
    ChunkLength(file, r.c + 1);
    GenuineAcksStay(mode, r.c, ackSent);
  }

  lemma ReceiverWakeKeepsInv(mode: Mode, file: Bytes, r: Receiver, k: nat, ackSent: set<Bytes>, arrival: Arrival,
                             sendOk: bool)
    requires ReceiverInv(mode, file, r, ackSent) && LockStep(mode, k, r.c) && !r.status.Ended?
    requires arrival.Packet? && arrival.from == Peer ==> DataIsGenuine(file, k, arrival.bytes)
    requires r.status == Handshake && arrival.Packet? ==> arrival.from == Peer
    ensures var (r', sent) := ReceiverWake(ReceiverRole(mode), r, arrival, sendOk);
            && ReceiverInv(mode, file, r', ackSent + ToPeer(sent))
            && LockStep(mode, k, r'.c) && r'.status != Handshake
            && (r'.c != r.c ==> arrival.Packet? && arrival.from == Peer)
  {
    hide DataIsGenuine, AckIsGenuine, Received, GetOpcode, GetBlockNumber, GetError, GetData, NumChunks,
      Chunk, UnknownTransfer;
    if arrival.Packet? && arrival.from == Peer {
      var buffer := Received(arrival.bytes);
      NextBlockIsNextChunk(mode, file, k, r.c, arrival.bytes);
      if IsNextBlock(r.c, buffer) {
        AcceptKeepsInv(mode, file, r, ackSent, buffer);
        ReceiverTopKeepsInv(mode, file, Accept(r, buffer), sendOk, ackSent);
        if r.status == Handshake {
          assert r.written + GetData(buffer) == GetData(buffer);
          ReceiverTopKeepsInv(mode, file, Accept(r, buffer).(status := Waiting, clock := START), sendOk, ackSent);
        }
      } else if r.status == Waiting {
        ReceiverTopKeepsInv(mode, file, r, sendOk, ackSent);
      }
    } else if r.status == Waiting {
      ReceiverTopKeepsInv(mode, file, r, sendOk, ackSent);
      if arrival.Packet? {
        StraysAreNotToPeer(Datagram(arrival.from, UnknownTransfer(false)), ReceiverTop(r, sendOk).1);
      }
    }
  }

  lemma StepKeepsInv(mode: Mode, file: Bytes, net: Net, action: Action)
    requires Inv(mode, file, net) && Enabled(net, action)
    ensures Inv(mode, file, Step(mode, file, net, action))
  {
    hide DataIsGenuine, AckIsGenuine, LockStep, NumChunks, Prefix, DataPacket;
    match action
    case Pass(_) =>
    case SenderWakes(arrival, sendOk) =>
      SenderWakeKeepsInv(mode, file, net.sender, net.receiver.c, net.dataSent, arrival, sendOk);
    case ReceiverWakes(arrival, sendOk) =>
      ReceiverWakeKeepsInv(mode, file, net.receiver, net.sender.k, net.ackSent, arrival, sendOk);
  }

  lemma {:induction false} RunKeepsInv(mode: Mode, file: Bytes, net: Net, actions: seq<Action>)
    requires Inv(mode, file, net) && Run(mode, file, net, actions).Some?
    ensures Inv(mode, file, Run(mode, file, net, actions).value)
  {
    if actions != [] {
      hide Inv, Run, Step, Enabled;
      var earlier := actions[..|actions| - 1];
      LastStep(mode, file, net, actions);
      RunKeepsInv(mode, file, net, earlier);
      StepKeepsInv(mode, file, Run(mode, file, net, earlier).value, actions[|actions| - 1]);
    }
  }

  lemma ReachableKeepsInv(mode: Mode, file: Bytes, net: Net)
    requires Reachable(mode, file, net)
    ensures Inv(mode, file, net)
  {
    var firstOk, actions :| Run(mode, file, Init(mode, file, firstOk), actions) == Some(net);
    InitKeepsInv(mode, file, firstOk);
    RunKeepsInv(mode, file, Init(mode, file, firstOk), actions);
  }
}
