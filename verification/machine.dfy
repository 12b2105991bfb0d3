/**
  One sending loop and one receiving loop as state machines over their waits. A wait is one call of
  `receive_packet`; the machine moves from a wait to the next one. The sender counts chunks without bound
  where the program keeps a 16-bit block number, a buffer and a file position.
 */
module Machine {
  import opened Packet
  import opened Chunks

  const MAX_RECEIVE_SIZE := 1024
  const MAX_RECEIVE_WAIT_TIME := 2000
  const MAX_WAIT_TIME := 10000

  datatype Role = Client | Server

  datatype Endpoint = Peer | Foreign(id: nat)

  datatype Datagram = Datagram(to: Endpoint, bytes: Bytes)

  // How a wait ends. A socket error is reported as a time-out, however little time has passed.
  datatype Arrival = WaitOver | SocketError | Packet(from: Endpoint, bytes: Bytes)

  datatype Outcome = Success | TimedOut | SendFailed | Fault | Refused | Aborted

  // Handshake is the client's wait for the first response to its request.
  datatype Status = Handshake | Waiting | Ended(outcome: Outcome)

  // Milliseconds: of the current wait, since the watchdog was last reset, and since the loop began.
  // The watchdog's flag is never cleared.
  datatype Clock = Clock(waited: nat, sinceReset: nat, expired: bool, total: nat)

  const START := Clock(0, 0, false, 0)

  function Elapse(clock: Clock, ms: nat): Clock {
    Clock(clock.waited + ms, clock.sinceReset + ms,
          clock.expired || clock.sinceReset + ms >= MAX_WAIT_TIME, clock.total + ms)
  }

  function Rewind(clock: Clock): Clock {
    clock.(sinceReset := 0)
  }

  function Received(datagram: Bytes): Bytes {
    if |datagram| > MAX_RECEIVE_SIZE then datagram[..MAX_RECEIVE_SIZE] else datagram
  }

  // "Unknown transfer ID", with a full stop everywhere except in the server's sending loop.
  function UnknownTransfer(sendingServer: bool): Bytes {
    EncodeError(5, [85, 110, 107, 110, 111, 119, 110, 32, 116, 114, 97, 110, 115, 102, 101, 114, 32, 73, 68]
                   + if sendingServer then [] else [46])
  }

  // ----- Sender -----

  datatype Sender = Sender(k: nat, status: Status, clock: Clock)

  /** From the top of the sending loop, about to send chunk k, to its next wait or its end. */
  function SenderTop(file: Bytes, k: nat, clock: Clock, sendOk: bool)
    : (next: (Sender, seq<Datagram>))
    requires k >= 1
    ensures next.0.k == k
  {
    if k > NumChunks(file) then (Sender(k, Ended(Success), clock), [])
    else if clock.expired then (Sender(k, Ended(TimedOut), clock), [])
    else if !sendOk then (Sender(k, Ended(SendFailed), clock), [])
    else (Sender(k, Waiting, clock.(waited := 0)), [Datagram(Peer, DataPacket(file, k))])
  }

  predicate Acknowledges(k: nat, buffer: Bytes) {
    GetOpcode(buffer) == Ack && GetBlockNumber(buffer) == k % 65536
  }

  function SenderWake(role: Role, file: Bytes, s: Sender, arrival: Arrival, sendOk: bool): (Sender, seq<Datagram>)
    requires s.k >= 1
  {
    match s.status
    case Ended(_) => (s, [])
    case Handshake =>
      if !arrival.Packet? then (s.(status := Ended(TimedOut)), []) else
      var buffer := Received(arrival.bytes);
      if GetError(buffer).0 == Error then (s.(status := Ended(Refused)), [])
      else if GetOpcode(buffer) != Ack || GetBlockNumber(buffer) != 0 then (s.(status := Ended(Aborted)), [])
      else SenderTop(file, 1, START, sendOk)
    case Waiting =>
      if !arrival.Packet? then SenderTop(file, s.k, s.clock, sendOk)
      else if arrival.from != Peer then
        var (s', sent) := SenderTop(file, s.k, s.clock, sendOk);
        (s', [Datagram(arrival.from, UnknownTransfer(role == Server))] + sent)
      else if Acknowledges(s.k, Received(arrival.bytes)) then
        SenderTop(file, s.k + 1, Rewind(s.clock), sendOk)
      else SenderTop(file, s.k, s.clock, sendOk)
  }

  // ----- Receiver -----

  // `everShort` is the server's flag for a last block; the client looks at the size of the last block instead.
  datatype Receiver = Receiver(c: u16, written: Bytes, everShort: bool, lastSize: nat, status: Status, clock: Clock)

  predicate LastBlockSeen(role: Role, r: Receiver) {
    if role == Server then r.everShort else r.lastSize < CHUNK
  }

  /** From the top of the receiving loop, about to acknowledge block c, to its next wait or its end. */
  function ReceiverTop(r: Receiver, sendOk: bool): (Receiver, seq<Datagram>) {
    if r.clock.expired then (r.(status := Ended(TimedOut)), [])
    else if !sendOk then (r.(status := Ended(SendFailed)), [])
    else (r.(status := Waiting, clock := r.clock.(waited := 0)), [Datagram(Peer, EncodeAck(r.c))])
  }

  // The comparison is made in int, so the successor of block 65535 is 65536 and no packet carries it.
  predicate IsNextBlock(c: u16, buffer: Bytes) {
    GetOpcode(buffer) == Data && GetBlockNumber(buffer) == c as int + 1
  }

  function Accept(r: Receiver, buffer: Bytes): Receiver
    requires IsNextBlock(r.c, buffer)
  {
    var data := GetData(buffer);
    r.(c := r.c + 1, written := r.written + data, everShort := r.everShort || |data| < CHUNK,
       lastSize := |data|, clock := Rewind(r.clock))
  }

  // What the client holds when its receiving loop starts: the first response, accepted as block 1.
  function Accepted1(buffer: Bytes): Receiver {
    var data := GetData(buffer);
    Receiver(1, data, |data| < CHUNK, |data|, Waiting, START)
  }

  function ReceiverWake(role: Role, r: Receiver, arrival: Arrival, sendOk: bool): (Receiver, seq<Datagram>) {
    match r.status
    case Ended(_) => (r, [])
    case Handshake =>
      if !arrival.Packet? then (r.(status := Ended(TimedOut)), []) else
      var buffer := Received(arrival.bytes);
      if GetError(buffer).0 == Error then (r.(status := Ended(Refused)), [])
      else if GetOpcode(buffer) != Data || GetBlockNumber(buffer) != 1 then (r.(status := Ended(Aborted)), [])
      else ReceiverTop(Accepted1(buffer), sendOk)
    case Waiting =>
      if !arrival.Packet? then
        if LastBlockSeen(role, r) then (r.(status := Ended(Success)), []) else ReceiverTop(r, sendOk)
      else if arrival.from != Peer then
        var (r', sent) := ReceiverTop(r, sendOk);
        (r', [Datagram(arrival.from, UnknownTransfer(false))] + sent)
      else if IsNextBlock(r.c, Received(arrival.bytes)) then
        ReceiverTop(Accept(r, Received(arrival.bytes)), sendOk)
      else ReceiverTop(r, sendOk)
  }

  const REQUESTING_SENDER := Sender(1, Handshake, START)
  const REQUESTING_RECEIVER := Receiver(0, [], false, CHUNK, Handshake, START)
  // The server's receiving loop before its first acknowledgement.
  const FRESH_RECEIVER := Receiver(0, [], false, CHUNK, Waiting, START)

  // ----- Runs of one side against an arbitrary environment -----

  // One wait: how long it lasts, how it ends, and whether the next send succeeds.
  datatype Wait = Wait(ms: nat, arrival: Arrival, sendOk: bool)

  function SenderWait(role: Role, file: Bytes, s: Sender, w: Wait): (Sender, seq<Datagram>)
    requires s.k >= 1
  {
    if s.status.Ended? then (s, [])
    else SenderWake(role, file, s.(clock := Elapse(s.clock, w.ms)), w.arrival, w.sendOk)
  }

  /** The state after the given waits, and everything sent so far. */
  function SenderRun(role: Role, file: Bytes, start: (Sender, seq<Datagram>), waits: seq<Wait>)
    : (end: (Sender, seq<Datagram>))
    requires start.0.k >= 1
    ensures end.0.k >= 1
  {
    if waits == [] then start else
    var (s, log) := SenderRun(role, file, start, waits[..|waits| - 1]);
    var (s', sent) := SenderWait(role, file, s, waits[|waits| - 1]);
    (s', log + sent)
  }

  function ReceiverWait(role: Role, r: Receiver, w: Wait): (Receiver, seq<Datagram>) {
    if r.status.Ended? then (r, [])
    else ReceiverWake(role, r.(clock := Elapse(r.clock, w.ms)), w.arrival, w.sendOk)
  }

  function ReceiverRun(role: Role, start: (Receiver, seq<Datagram>), waits: seq<Wait>): (Receiver, seq<Datagram>) {
    if waits == [] then start else
    var (r, log) := ReceiverRun(role, start, waits[..|waits| - 1]);
    var (r', sent) := ReceiverWait(role, r, waits[|waits| - 1]);
    (r', log + sent)
  }

  // ----- What the loops accept -----

  /** A receiver accepts exactly the whole DATA packets of its next block, and none at all after block 65535. */
  lemma AcceptedBlocks(c: u16, buffer: Bytes)
    ensures IsNextBlock(c, buffer) <==> c < 65535 && buffer == EncodeData(c + 1, GetData(buffer))
  {
    DataReencodes(buffer);
    if c < 65535 {
      DataRoundTrip(c + 1, GetData(buffer));
    }
  }

  /**
    A sender at chunk k accepts exactly the packets that begin with the encoding of its acknowledgement; once its
    block number has wrapped to 0, it also takes an ACK too short to hold a block number.
   */
  lemma AcceptedAcks(k: nat, buffer: Bytes)
    ensures Acknowledges(k, buffer) <==>
              (|buffer| >= 4 && buffer[..4] == EncodeAck(k % 65536))
              || (2 <= |buffer| < 4 && k % 65536 == 0 && GetOpcode(buffer) == Ack)
  {
    AckRoundTrip(k % 65536);
    if |buffer| >= 4 {
      AckPrefix(buffer, k % 65536);
    }
  }

  lemma AckPrefix(buffer: Bytes, block: u16)
    requires |buffer| >= 4
    ensures GetOpcode(buffer) == Ack && GetBlockNumber(buffer) == block <==> buffer[..4] == EncodeAck(block)
  {
    WordIsBigEndian(buffer[0], buffer[1], OpcodeValue(Ack));
    WordIsBigEndian(buffer[2], buffer[3], block);
    assert buffer[..4] == [buffer[0], buffer[1]] + [buffer[2], buffer[3]];
    hide BigEndian, Word;
    assert GetOpcode(buffer) == Ack <==> Word(buffer[0], buffer[1]) == 4;
    if buffer[..4] == EncodeAck(block) {
      assert buffer[..4][..2] == [buffer[0], buffer[1]] && EncodeAck(block)[..2] == BigEndian(OpcodeValue(Ack));
      assert buffer[..4][2..] == [buffer[2], buffer[3]] && EncodeAck(block)[2..] == BigEndian(block);
    }
  }
}
