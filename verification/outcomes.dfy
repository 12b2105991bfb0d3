/**
  How a loop ends and what it says, exactly and against any peer: from the waits alone, its progress and the ten
  seconds of `Watch`.
 */
module Outcomes {
  import opened Packet
  import opened Chunks
  import opened Machine
  import opened Runs
  import opened Watch
  import Strays

  predicate AllSent(firstOk: bool, waits: seq<Wait>) {
    firstOk && forall w | w in waits :: w.sendOk
  }

  lemma AllSentGrows(firstOk: bool, waits: seq<Wait>, w: Wait)
    ensures AllSent(firstOk, waits + [w]) <==> AllSent(firstOk, waits) && w.sendOk
  {
    assert forall v :: v in waits + [w] <==> v in waits || v == w;
  }

  // ----- The sending loop -----

  lemma SenderWaitEnds(role: Role, file: Bytes, s: Sender, w: Wait)
    requires 1 <= s.k <= NumChunks(file) + 1 && s.status == Waiting && s.k <= NumChunks(file)
    ensures var s' := SenderWait(role, file, s, w).0;
            && (s'.status == Ended(Success) <==> s'.k == NumChunks(file) + 1)
            && (s'.status == Ended(TimedOut) <==> s'.k <= NumChunks(file) && s'.clock.expired)
            && (s'.status == Ended(SendFailed) <==> s'.k <= NumChunks(file) && !s'.clock.expired && !w.sendOk)
            && (s'.status == Waiting <==> s'.k <= NumChunks(file) && !s'.clock.expired && w.sendOk)
            && s'.k <= NumChunks(file) + 1
  {
    hide NumChunks, Received, GetOpcode, GetBlockNumber, DataPacket, UnknownTransfer;
  }

  // What the run has come to, with the flag of the watchdog.
  ghost predicate SenderIsWhere(file: Bytes, s: Sender, allSent: bool) {
    && 1 <= s.k <= NumChunks(file) + 1
    && (s.status == Ended(Success) <==> s.k == NumChunks(file) + 1)
    && (s.status == Ended(TimedOut) <==> s.k <= NumChunks(file) && s.clock.expired)
    && (s.status == Ended(SendFailed) ==> s.k <= NumChunks(file) && !s.clock.expired && !allSent)
    && (s.status == Waiting ==> s.k <= NumChunks(file) && !s.clock.expired && allSent)
    && s.status in {Ended(Success), Ended(TimedOut), Ended(SendFailed), Waiting}
  }

  lemma {:induction false} SenderRunIsWhere(role: Role, file: Bytes, firstOk: bool, waits: seq<Wait>)
    ensures SenderIsWhere(file, SenderFrom(role, file, firstOk, waits).0, AllSent(firstOk, waits))
  {
    if waits != [] {
      hide NumChunks, SenderWake, AllSent;
      var earlier, w := waits[..|waits| - 1], waits[|waits| - 1];
      SenderRunIsWhere(role, file, firstOk, earlier);
      AllSentGrows(firstOk, earlier, w);
      assert earlier + [w] == waits;
      var s := SenderFrom(role, file, firstOk, earlier).0;
      if s.status == Waiting {
        SenderWaitEnds(role, file, s, w);
      }
    }
  }

  lemma SenderFlag(role: Role, file: Bytes, firstOk: bool, waits: seq<Wait>)
    ensures SenderFrom(role, file, firstOk, waits).0.clock.expired
       <==> HasQuiet(SenderSamples(role, file, firstOk, waits), waits)
  {
    hide Follows, HasQuiet, SenderFrom;
    var samples := SenderSamples(role, file, firstOk, waits);
    forall m | 0 <= m < |waits|
      ensures Follows(samples[m], waits[m], samples[m + 1])
    {
      SenderTraces(role, file, firstOk, waits, m);
    }
    SenderSampleStarts(role, file, firstOk, waits);
    ExpiredExactlyAfterQuiet(samples, waits);
    assert waits[..|waits|] == waits;
  }

  /**
    The outcome of a sending loop, whatever comes. It has succeeded exactly if every block has been acknowledged,
    even if that was late. Otherwise it has timed out exactly if ten seconds went by without an acknowledged block;
    otherwise a send has failed, or it waits.
   */
  lemma SenderOutcomeIsExact(role: Role, file: Bytes, firstOk: bool, waits: seq<Wait>)
    ensures var s := SenderFrom(role, file, firstOk, waits).0;
            var quiet := HasQuiet(SenderSamples(role, file, firstOk, waits), waits);
            && s.k <= NumChunks(file) + 1
            && s.status == if s.k == NumChunks(file) + 1 then Ended(Success)
                           else if quiet then Ended(TimedOut)
                           else if !AllSent(firstOk, waits) then Ended(SendFailed) else Waiting
  {
    hide HasQuiet, NumChunks, SenderFrom, AllSent;
    SenderRunIsWhere(role, file, firstOk, waits);
    SenderFlag(role, file, firstOk, waits);
  }

  function BlockDue(file: Bytes, s: Sender): seq<Datagram> {
    if s.status == Waiting && 1 <= s.k <= NumChunks(file) then [Datagram(Peer, DataPacket(file, s.k))] else []
  }

  function AckDue(r: Receiver): seq<Datagram> {
    if r.status == Waiting then [Datagram(Peer, EncodeAck(r.c))] else []
  }

  /**
    What a sending loop says in a wait it gets to see: first the ERROR, if the packet is a stranger's, and then, if
    the loop goes on, the block that is due.
   */
  lemma SenderSaysExactly(role: Role, file: Bytes, firstOk: bool, waits: seq<Wait>, w: Wait)
    ensures var (s, log) := SenderFrom(role, file, firstOk, waits);
            var (s', log') := SenderFrom(role, file, firstOk, waits + [w]);
            log' == log + if s.status.Ended? then [] else
                    Strays.Reply(w, UnknownTransfer(role == Server))
                    + BlockDue(file, s')
  {
    SenderRunIsWhere(role, file, firstOk, waits);
    hide NumChunks, Received, GetOpcode, GetBlockNumber, DataPacket, UnknownTransfer;
    assert (waits + [w])[..|waits|] == waits;
  }

  // ----- The receiving loops -----

  // A wait without a packet after a short block.
  predicate SilenceAtEnd(role: Role, r: Receiver, w: Wait) {
    r.status == Waiting && LastBlockSeen(role, r) && !w.arrival.Packet?
  }

  predicate Done(role: Role, r: Receiver, firstOk: bool, waits: seq<Wait>)
    decreases |waits|
  {
    waits != [] &&
    var earlier := waits[..|waits| - 1];
    Done(role, r, firstOk, earlier)
    || SilenceAtEnd(role, ReceiverFrom(role, r, firstOk, earlier).0, waits[|waits| - 1])
  }

  ghost predicate ReceiverIsWhere(r: Receiver, done: bool, allSent: bool) {
    && (r.status == Ended(Success) <==> done)
    && (r.status == Ended(TimedOut) <==> !done && r.clock.expired)
    && (r.status == Ended(SendFailed) ==> !done && !r.clock.expired && !allSent)
    && (r.status == Waiting ==> !done && !r.clock.expired && allSent)
    && r.status in {Ended(Success), Ended(TimedOut), Ended(SendFailed), Waiting}
  }

  lemma ReceiverWaitEnds(role: Role, r: Receiver, w: Wait)
    requires r.status == Waiting
    ensures var r' := ReceiverWait(role, r, w).0;
            ReceiverIsWhere(r', SilenceAtEnd(role, r, w), w.sendOk)
  {
    hide Received, GetOpcode, GetBlockNumber, GetData, UnknownTransfer;
  }

  lemma {:induction false} ReceiverRunIsWhere(role: Role, r: Receiver, firstOk: bool, waits: seq<Wait>)
    requires r.status == Waiting && r.clock == START
    ensures ReceiverIsWhere(ReceiverFrom(role, r, firstOk, waits).0, Done(role, r, firstOk, waits),
                            AllSent(firstOk, waits))
  {
    if waits != [] {
      hide ReceiverWake, AllSent, LastBlockSeen;
      var earlier, w := waits[..|waits| - 1], waits[|waits| - 1];
      ReceiverRunIsWhere(role, r, firstOk, earlier);
      AllSentGrows(firstOk, earlier, w);
      assert earlier + [w] == waits;
      var before := ReceiverFrom(role, r, firstOk, earlier).0;
      if before.status == Waiting {
        ReceiverWaitEnds(role, before, w);
      }
    }
  }

  lemma ReceiverFlag(role: Role, r: Receiver, firstOk: bool, waits: seq<Wait>)
    requires r.status == Waiting && r.clock == START
    ensures ReceiverFrom(role, r, firstOk, waits).0.clock.expired
       <==> HasQuiet(ReceiverSamples(role, r, firstOk, waits), waits)
  {
    hide Follows, HasQuiet, ReceiverFrom;
    var samples := ReceiverSamples(role, r, firstOk, waits);
    forall m | 0 <= m < |waits|
      ensures Follows(samples[m], waits[m], samples[m + 1])
    {
      ReceiverTraces(role, r, firstOk, waits, m);
    }
    ReceiverSampleStarts(role, r, firstOk, waits);
    ExpiredExactlyAfterQuiet(samples, waits);
    assert waits[..|waits|] == waits;
  }

  /**
    The outcome of a receiving loop. It has succeeded exactly if a wait brought no packet after its last block, even
    if that was late. Otherwise it has timed out exactly if ten seconds went by without an accepted block; otherwise
    a send has failed, or it waits.
   */
  lemma {:induction false} ReceiverOutcomeIsExact(role: Role, r: Receiver, firstOk: bool, waits: seq<Wait>)
    requires r.status == Waiting && r.clock == START
    ensures var quiet := HasQuiet(ReceiverSamples(role, r, firstOk, waits), waits);
            ReceiverFrom(role, r, firstOk, waits).0.status
              == if Done(role, r, firstOk, waits) then Ended(Success)
                 else if quiet then Ended(TimedOut)
                 else if !AllSent(firstOk, waits) then Ended(SendFailed) else Waiting
  {
    hide HasQuiet, ReceiverFrom, AllSent, Done;
    ReceiverRunIsWhere(role, r, firstOk, waits);
    ReceiverFlag(role, r, firstOk, waits);
  }

  lemma ReceiverWaitSays(role: Role, r: Receiver, w: Wait)
    requires r.status == Waiting
    ensures var (r', sent) := ReceiverWait(role, r, w);
            sent == Strays.Reply(w, UnknownTransfer(false)) + AckDue(r')
  {
    hide Received, GetOpcode, GetBlockNumber, GetData, UnknownTransfer, EncodeAck, LastBlockSeen;
  }

  /** What a receiving loop says: the ERROR to a stranger first, then the acknowledgement of its last block. */
  lemma ReceiverSaysExactly(role: Role, r: Receiver, firstOk: bool, waits: seq<Wait>, w: Wait)
    requires r.status == Waiting && r.clock == START
    ensures var (s, log) := ReceiverFrom(role, r, firstOk, waits);
            var (s', log') := ReceiverFrom(role, r, firstOk, waits + [w]);
            log' == log + if s.status.Ended? then [] else
                    Strays.Reply(w, UnknownTransfer(false))
                    + AckDue(s')
  {
    ReceiverRunIsWhere(role, r, firstOk, waits);
    assert (waits + [w])[..|waits|] == waits;
    var (s, log) := ReceiverFrom(role, r, firstOk, waits);
    assert log + [] == log;
    if s.status == Waiting {
      ReceiverWaitSays(role, s, w);
    }
  }

  /** A block of any length is accepted, but what is longer than 1024 bytes as a packet is cut there. */
  lemma LongBlockIsCut(role: Role, r: Receiver, data: Bytes, ms: nat, sendOk: bool)
    requires r.status == Waiting && r.c < 65535
    ensures var r' := ReceiverWait(role, r, Wait(ms, Packet(Peer, EncodeData(r.c + 1, data)), sendOk)).0;
            && r'.c == r.c + 1
            && r'.written == r.written + if |data| <= 1020 then data else data[..1020]
  {
    var kept := if |data| <= 1020 then data else data[..1020];
    assert Received(EncodeData(r.c + 1, data)) == EncodeData(r.c + 1, kept);
    DataRoundTrip(r.c + 1, kept);
    hide EncodeData, GetOpcode, GetBlockNumber, GetData, Received;
  }

  // ----- What moves a loop on -----

  // What a wait sees of the packet it gets.
  function Seen(arrival: Arrival): Bytes
    requires arrival.Packet?
  {
    if |arrival.bytes| > 1024 then arrival.bytes[..1024] else arrival.bytes
  }

  predicate IsAckFor(k: nat, buffer: Bytes) {
    && |buffer| >= 2 && buffer[0] == 0 && buffer[1] == 4
    && (if |buffer| >= 4 then 256 * (buffer[2] as int) + buffer[3] as int else 0) == k % 65536
  }

  predicate IsBlock(number: nat, buffer: Bytes) {
    |buffer| >= 4 && buffer[0] == 0 && buffer[1] == 3 && 256 * (buffer[2] as int) + buffer[3] as int == number
  }

  predicate BringsAck(s: Sender, w: Wait) {
    s.status == Waiting && w.arrival.Packet? && w.arrival.from == Peer && IsAckFor(s.k, Seen(w.arrival))
  }

  predicate BringsBlock(r: Receiver, w: Wait) {
    r.status == Waiting && w.arrival.Packet? && w.arrival.from == Peer && IsBlock(r.c + 1, Seen(w.arrival))
  }

  /** A sending loop moves on by one block exactly when the peer's ACK for it comes. */
  lemma SenderMovesExactly(role: Role, file: Bytes, firstOk: bool, waits: seq<Wait>, w: Wait)
    ensures var s := SenderFrom(role, file, firstOk, waits).0;
            SenderFrom(role, file, firstOk, waits + [w]).0.k == s.k + if BringsAck(s, w) then 1 else 0
    ensures SenderFrom(role, file, firstOk, []).0.k == 1
  {
    SenderRunIsWhere(role, file, firstOk, waits);
    assert (waits + [w])[..|waits|] == waits;
    hide NumChunks, DataPacket, UnknownTransfer;
  }

  lemma NextBlockSeen(c: u16, arrival: Arrival)
    requires arrival.Packet?
    ensures IsNextBlock(c, Received(arrival.bytes)) <==> IsBlock(c + 1, Seen(arrival))
    ensures IsBlock(c + 1, Seen(arrival)) ==>
              c < 65535 && |Seen(arrival)| >= 4 && GetData(Received(arrival.bytes)) == Seen(arrival)[4..]
  {
  }

  lemma ReceiverWaitMoves(role: Role, r: Receiver, w: Wait)
    requires r.status == Waiting
    ensures var r' := ReceiverWait(role, r, w).0;
            if BringsBlock(r, w) then
              && r.c < 65535 && r'.c == r.c + 1 && r'.written == r.written + Seen(w.arrival)[4..]
              && (r'.everShort <==> r.everShort || |Seen(w.arrival)| < 516) && r'.lastSize == |Seen(w.arrival)| - 4
            else r'.c == r.c && r'.written == r.written && r'.everShort == r.everShort && r'.lastSize == r.lastSize
  {
    if w.arrival.Packet? {
      NextBlockSeen(r.c, w.arrival);
    }
    hide UnknownTransfer, EncodeAck, Received, GetOpcode, GetBlockNumber, GetData, IsNextBlock, IsBlock, Seen;
  }

  /**
    A receiving loop moves on by one block and writes its bytes exactly when the peer's DATA for the next number
    comes; it remembers whether any block, and how long the last one, has been short.
   */
  lemma ReceiverMovesExactly(role: Role, start: Receiver, firstOk: bool, waits: seq<Wait>, w: Wait)
    requires start.status == Waiting && start.clock == START
    ensures var r := ReceiverFrom(role, start, firstOk, waits).0;
            var r' := ReceiverFrom(role, start, firstOk, waits + [w]).0;
            if BringsBlock(r, w) then
              && r.c < 65535 && r'.c == r.c + 1 && r'.written == r.written + Seen(w.arrival)[4..]
              && (r'.everShort <==> r.everShort || |Seen(w.arrival)| < 516) && r'.lastSize == |Seen(w.arrival)| - 4
            else r'.c == r.c && r'.written == r.written && r'.everShort == r.everShort && r'.lastSize == r.lastSize
  {
    ReceiverRunIsWhere(role, start, firstOk, waits);
    assert (waits + [w])[..|waits|] == waits;
    var r := ReceiverFrom(role, start, firstOk, waits).0;
    hide ReceiverTop, ReceiverWake;
    if r.status == Waiting {
      ReceiverWaitMoves(role, r, w);
    }
  }

  // ----- The first response -----

  predicate SaysError(buffer: Bytes) {
    |buffer| >= 6 && buffer[0] == 0 && buffer[1] == 5
  }

  /** What becomes of a write request: no response, an ERROR, ACK 0, and anything else are told apart. */
  lemma WriteRequestOutcome(file: Bytes, w: Wait)
    ensures var (s, log) := SenderWait(Client, file, REQUESTING_SENDER, w);
            if !w.arrival.Packet? then s.status == Ended(TimedOut) && log == []
            else if SaysError(Seen(w.arrival)) then s.status == Ended(Refused) && log == []
            else if IsAckFor(0, Seen(w.arrival)) then (s, log) == SenderFrom(Client, file, w.sendOk, [])
            else s.status == Ended(Aborted) && log == []
  {
    hide NumChunks, DataPacket;
  }

  /** And of a read request, with DATA 1 for the response that starts the transfer. */
  lemma ReadRequestOutcome(w: Wait)
    ensures var (r, log) := ReceiverWait(Client, REQUESTING_RECEIVER, w);
            if !w.arrival.Packet? then r.status == Ended(TimedOut) && log == []
            else if SaysError(Seen(w.arrival)) then r.status == Ended(Refused) && log == []
            else if IsBlock(1, Seen(w.arrival)) then
              && (r, log) == ReceiverFrom(Client, Accepted1(Seen(w.arrival)), w.sendOk, [])
              && r.c == 1 && r.written == Seen(w.arrival)[4..]
            else r.status == Ended(Aborted) && log == []
  {
  }
}
