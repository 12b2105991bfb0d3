/** What one side does against any peer at all: how long it runs, what it emits, and how it treats strangers. */
module Runs {
  import opened Packet
  import opened Chunks
  import opened Machine

  function SenderFrom(role: Role, file: Bytes, firstOk: bool, waits: seq<Wait>): (Sender, seq<Datagram>) {
    SenderRun(role, file, SenderTop(file, 1, START, firstOk), waits)
  }

  function ReceiverFrom(role: Role, r: Receiver, firstOk: bool, waits: seq<Wait>): (Receiver, seq<Datagram>) {
    ReceiverRun(role, ReceiverTop(r, firstOk), waits)
  }

  // ----- Time -----

  // No wait takes longer than the time-out, and none is instantaneous when `least` is 1.
  predicate Timely(waits: seq<Wait>, least: nat) {
    forall w | w in waits :: least <= w.ms <= MAX_RECEIVE_WAIT_TIME
  }

  // Between two accepted blocks less than 10000 ms pass up to the last loop top, and at most 2000 ms after it.
  const BLOCK_TIME := MAX_WAIT_TIME + MAX_RECEIVE_WAIT_TIME

  // After `progress` blocks of at most `blocks`.
  predicate OnTime(status: Status, clock: Clock, progress: nat, blocks: nat) {
    && (!clock.expired ==> clock.sinceReset < MAX_WAIT_TIME)
    && (if status.Ended? then clock.total < BLOCK_TIME * blocks
        else !clock.expired && progress < blocks && clock.total - clock.sinceReset <= BLOCK_TIME * progress)
  }

  lemma SenderTopOnTime(file: Bytes, k: nat, clock: Clock, sendOk: bool)
    requires 1 <= k <= NumChunks(file) + 1 && NumChunks(file) >= 1
    requires !clock.expired ==> clock.sinceReset < MAX_WAIT_TIME
    requires clock.total - clock.sinceReset <= BLOCK_TIME * (k - 1)
    requires clock.total < BLOCK_TIME * k && clock.total < BLOCK_TIME * NumChunks(file)
    ensures var s := SenderTop(file, k, clock, sendOk).0;
            OnTime(s.status, s.clock, s.k - 1, NumChunks(file)) && s.clock.total == clock.total
  {
  }

  lemma SenderWaitOnTime(role: Role, file: Bytes, s: Sender, w: Wait)
    requires s.k >= 1 && NumChunks(file) >= 1 && s.status != Handshake && w.ms <= MAX_RECEIVE_WAIT_TIME
    requires OnTime(s.status, s.clock, s.k - 1, NumChunks(file))
    ensures var s' := SenderWait(role, file, s, w).0;
            && OnTime(s'.status, s'.clock, s'.k - 1, NumChunks(file)) && s'.status != Handshake && s'.k >= 1
            && (s.status.Ended? || s'.clock.total == s.clock.total + w.ms)
  {
    hide NumChunks, Received, GetOpcode, GetBlockNumber;
    if s.status == Waiting {
      var clock := Elapse(s.clock, w.ms);
      SenderTopOnTime(file, s.k, clock, w.sendOk);
      SenderTopOnTime(file, s.k + 1, Rewind(clock), w.sendOk);
    }
  }

  lemma {:induction false} SenderRunOnTime(role: Role, file: Bytes, firstOk: bool, waits: seq<Wait>, least: nat)
    requires NumChunks(file) >= 1 && Timely(waits, least) && least <= 1
    ensures var s := SenderFrom(role, file, firstOk, waits).0;
            && s.status != Handshake && OnTime(s.status, s.clock, s.k - 1, NumChunks(file))
            && (s.status.Ended? || s.clock.total >= least * |waits|)
  {
    hide NumChunks;
    if waits != [] {
      var earlier := waits[..|waits| - 1];
      SenderRunOnTime(role, file, firstOk, earlier, least);
      SenderWaitOnTime(role, file, SenderFrom(role, file, firstOk, earlier).0, waits[|waits| - 1]);
    }
  }

  /**
    Against any peer, sending n >= 1 blocks takes less than 12000 * n ms, so with waits of at least 1 ms the loop
    ends within 12000 * n of them; an empty file ends at once, having sent nothing.
   */
  lemma SendLoopEndsInTime(role: Role, file: Bytes, firstOk: bool, waits: seq<Wait>)
    requires Timely(waits, 0)
    ensures var (s, log) := SenderFrom(role, file, firstOk, waits);
            && (file != [] ==> s.clock.total < 12000 * (|file| / 512 + 1))
            && (file != [] && Timely(waits, 1) && |waits| >= 12000 * (|file| / 512 + 1) ==> s.status.Ended?)
            && (file == [] ==> s.status == Ended(Success) && log == [] && s.clock.total == 0)
  {
    if file != [] {
      SenderRunOnTime(role, file, firstOk, waits, 0);
      if Timely(waits, 1) {
        SenderRunOnTime(role, file, firstOk, waits, 1);
      }
    } else {
      EmptyFileSendsNothing(role, file, firstOk, waits);
    }
  }

  lemma {:induction false} EmptyFileSendsNothing(role: Role, file: Bytes, firstOk: bool, waits: seq<Wait>)
    requires file == []
    ensures SenderFrom(role, file, firstOk, waits) == (Sender(1, Ended(Success), START), [])
  {
    if waits != [] {
      EmptyFileSendsNothing(role, file, firstOk, waits[..|waits| - 1]);
      var none: seq<Datagram> := [];
      assert none + none == none;
    }
  }

  lemma ReceiverTopOnTime(r: Receiver, sendOk: bool, progress: nat, blocks: nat)
    requires !r.clock.expired ==> r.clock.sinceReset < MAX_WAIT_TIME
    requires progress < blocks && r.clock.total - r.clock.sinceReset <= BLOCK_TIME * progress
    requires r.clock.total < BLOCK_TIME * (progress + 1)
    ensures var r' := ReceiverTop(r, sendOk).0;
            && OnTime(r'.status, r'.clock, progress, blocks) && r'.status != Handshake
            && r'.clock.total == r.clock.total && r'.c == r.c
  {
  }

  lemma ReceiverWaitOnTime(role: Role, first: u16, r: Receiver, w: Wait)
    requires first <= r.c && r.status != Handshake && w.ms <= MAX_RECEIVE_WAIT_TIME
    requires OnTime(r.status, r.clock, r.c - first, 65536 - first)
    ensures var r' := ReceiverWait(role, r, w).0;
            && first <= r'.c && OnTime(r'.status, r'.clock, r'.c - first, 65536 - first) && r'.status != Handshake
            && (r.status.Ended? || r'.clock.total == r.clock.total + w.ms)
  {
    hide Received, GetOpcode, GetBlockNumber, GetData, UnknownTransfer, ReceiverTop, LastBlockSeen;
    if r.status == Waiting {
      var later := r.(clock := Elapse(r.clock, w.ms));
      ReceiverTopOnTime(later, w.sendOk, r.c - first, 65536 - first);
      if w.arrival.Packet? && IsNextBlock(r.c, Received(w.arrival.bytes)) {
        ReceiverTopOnTime(Accept(later, Received(w.arrival.bytes)), w.sendOk, r.c + 1 - first, 65536 - first);
      }
    }
  }

  lemma {:induction false} ReceiverRunOnTime(role: Role, r: Receiver, firstOk: bool, waits: seq<Wait>, least: nat)
    requires r.status == Waiting && r.clock == START && Timely(waits, least) && least <= 1
    ensures var r' := ReceiverFrom(role, r, firstOk, waits).0;
            && r.c <= r'.c && r'.status != Handshake && OnTime(r'.status, r'.clock, r'.c - r.c, 65536 - r.c)
            && (r'.status.Ended? || r'.clock.total >= least * |waits|)
  {
    if waits != [] {
      hide ReceiverWait, OnTime;
      var earlier := waits[..|waits| - 1];
      ReceiverRunOnTime(role, r, firstOk, earlier, least);
      ReceiverWaitOnTime(role, r.c, ReceiverFrom(role, r, firstOk, earlier).0, waits[|waits| - 1]);
    }
  }

  /** Against any peer, a receiving loop that starts at block c runs for less than 12000 * (65536 - c) ms. */
  lemma ReceiveLoopEndsInTime(role: Role, r: Receiver, firstOk: bool, waits: seq<Wait>)
    requires r.status == Waiting && r.clock == START && Timely(waits, 0)
    ensures var r' := ReceiverFrom(role, r, firstOk, waits).0;
            && r'.clock.total < 12000 * (65536 - r.c)
            && (Timely(waits, 1) && |waits| >= 12000 * (65536 - r.c) ==> r'.status.Ended?)
  {
    ReceiverRunOnTime(role, r, firstOk, waits, 0);
    if Timely(waits, 1) {
      ReceiverRunOnTime(role, r, firstOk, waits, 1);
    }
  }

  // ----- What the sender emits -----

  function PeerBytes(log: seq<Datagram>): seq<Bytes> {
    if log == [] then []
    else PeerBytes(log[..|log| - 1]) + if log[|log| - 1].to == Peer then [log[|log| - 1].bytes] else []
  }

  lemma {:induction false} PeerBytesAppend(log: seq<Datagram>, d: Datagram)
    ensures PeerBytes(log + [d]) == PeerBytes(log) + if d.to == Peer then [d.bytes] else []
  {
    assert (log + [d])[..|log|] == log;
  }

  // Repetitions of the same packet in a row count once.
  function Distinct(packets: seq<Bytes>): seq<Bytes> {
    if |packets| <= 1 then packets else
    var earlier := packets[..|packets| - 1];
    if packets[|packets| - 1] == earlier[|earlier| - 1] then Distinct(earlier)
    else Distinct(earlier) + [packets[|packets| - 1]]
  }

  function DataPackets(file: Bytes, count: nat): seq<Bytes>
    requires count <= NumChunks(file)
  {
    if count == 0 then [] else DataPackets(file, count - 1) + [DataPacket(file, count)]
  }

  // Blocks 1 to m have been emitted, the last of them last.
  ghost predicate Emitted(file: Bytes, m: nat, log: seq<Datagram>) {
    && m <= NumChunks(file)
    && Distinct(PeerBytes(log)) == DataPackets(file, m)
    && (if m == 0 then PeerBytes(log) == []
        else PeerBytes(log) != [] && PeerBytes(log)[|PeerBytes(log)| - 1] == DataPacket(file, m))
  }

  lemma ConsecutiveBlocksDiffer(file: Bytes, m: nat)
    requires 1 <= m < NumChunks(file)
    ensures DataPacket(file, m) != DataPacket(file, m + 1)
  {
    hide NumChunks, Chunk, EncodeData;
    DataRoundTrip(m % 65536, Chunk(file, m));
    DataRoundTrip((m + 1) % 65536, Chunk(file, m + 1));
  }

  lemma EmitsNext(file: Bytes, m: nat, k: nat, log: seq<Datagram>)
    requires Emitted(file, m, log) && 1 <= k <= NumChunks(file) && (m == k || m == k - 1)
    ensures Emitted(file, k, log + [Datagram(Peer, DataPacket(file, k))])
  {
    hide NumChunks, DataPacket;
    PeerBytesAppend(log, Datagram(Peer, DataPacket(file, k)));
    var packets := PeerBytes(log) + [DataPacket(file, k)];
    assert packets[..|packets| - 1] == PeerBytes(log);
    if 1 <= m && m == k - 1 {
      ConsecutiveBlocksDiffer(file, m);
    }
  }

  ghost predicate EmittedSoFar(file: Bytes, s: Sender, log: seq<Datagram>) {
    && s.status != Handshake && 1 <= s.k <= NumChunks(file) + 1
    && (Emitted(file, s.k, log) || Emitted(file, s.k - 1, log))
    && (s.status == Waiting ==> s.k <= NumChunks(file) && Emitted(file, s.k, log))
    && (s.status == Ended(Success) ==> s.k == NumChunks(file) + 1)
  }

  lemma TopEmits(file: Bytes, k: nat, clock: Clock, sendOk: bool, log: seq<Datagram>)
    requires 1 <= k <= NumChunks(file) + 1
    requires Emitted(file, k, log) || Emitted(file, k - 1, log)
    ensures var (s, sent) := SenderTop(file, k, clock, sendOk);
            EmittedSoFar(file, s, log + sent)
  {
    hide NumChunks, Emitted, DataPacket;
    assert log + [] == log;
    if k <= NumChunks(file) {
      EmitsNext(file, if Emitted(file, k, log) then k else k - 1, k, log);
    }
  }

  lemma StrayEmitsNothing(file: Bytes, m: nat, log: seq<Datagram>, stray: Datagram)
    requires Emitted(file, m, log) && stray.to != Peer
    ensures Emitted(file, m, log + [stray])
  {
    PeerBytesAppend(log, stray);
    assert PeerBytes(log) + [] == PeerBytes(log);
  }

  lemma WaitEmits(role: Role, file: Bytes, s: Sender, log: seq<Datagram>, w: Wait)
    requires EmittedSoFar(file, s, log)
    ensures var (s', sent) := SenderWait(role, file, s, w);
            EmittedSoFar(file, s', log + sent)
  {
    hide NumChunks, Emitted, Received, GetOpcode, GetBlockNumber, SenderTop;
    assert log + [] == log;
    if s.status == Waiting {
      var clock := Elapse(s.clock, w.ms);
      if w.arrival.Packet? && w.arrival.from != Peer {
        var stray := Datagram(w.arrival.from, UnknownTransfer(role == Server));
        var sent := SenderTop(file, s.k, clock, w.sendOk).1;
        StrayEmitsNothing(file, s.k, log, stray);
        TopEmits(file, s.k, clock, w.sendOk, log + [stray]);
        assert log + ([stray] + sent) == log + [stray] + sent;
      } else {
        TopEmits(file, s.k, clock, w.sendOk, log);
        TopEmits(file, s.k + 1, Rewind(clock), w.sendOk, log);
      }
    }
  }

  lemma {:induction false} RunEmits(role: Role, file: Bytes, firstOk: bool, waits: seq<Wait>)
    ensures var (s, log) := SenderFrom(role, file, firstOk, waits);
            EmittedSoFar(file, s, log)
  {
    if waits == [] {
      assert Emitted(file, 0, []);
      TopEmits(file, 1, START, firstOk, []);
      assert [] + SenderTop(file, 1, START, firstOk).1 == SenderTop(file, 1, START, firstOk).1;
    } else {
      hide EmittedSoFar;
      var earlier := waits[..|waits| - 1];
      RunEmits(role, file, firstOk, earlier);
      var (s, log) := SenderFrom(role, file, firstOk, earlier);
      WaitEmits(role, file, s, log, waits[|waits| - 1]);
    }
  }

  lemma {:induction false} DataPacketsCarryPayloads(file: Bytes, count: nat)
    requires count <= NumChunks(file)
    ensures |DataPackets(file, count)| == count
    ensures forall i | 0 <= i < count ::
              DataPackets(file, count)[i] == EncodeData((i + 1) % 65536, Payloads(file, count)[i])
  {
    if count > 0 {
      DataPacketsCarryPayloads(file, count - 1);
    }
  }

  /**
    Against any peer, a sender that reports success has emitted, repetitions aside, block after block of the file,
    and the payloads of these blocks concatenate to it.
   */
  lemma {:induction false} SuccessEmitsWholeFile(role: Role, file: Bytes, firstOk: bool, waits: seq<Wait>)
    requires SenderFrom(role, file, firstOk, waits).0.status == Ended(Success)
    ensures var emitted := Distinct(PeerBytes(SenderFrom(role, file, firstOk, waits).1));
            && |emitted| == NumChunks(file)
            && (forall i | 0 <= i < |emitted| ::
                  emitted[i] == EncodeData((i + 1) % 65536, Payloads(file, NumChunks(file))[i]))
            && Concat(Payloads(file, NumChunks(file))) == file
  {
    hide EncodeData, Chunk;
    RunEmits(role, file, firstOk, waits);
    DataPacketsCarryPayloads(file, NumChunks(file));
    ChunkingIsExact(file);
  }

  /** At any wait the blocks emitted so far are exactly those up to the current one. */
  lemma {:induction false} WaitingHasEmittedPrefix(role: Role, file: Bytes, firstOk: bool, waits: seq<Wait>)
    ensures var (s, log) := SenderFrom(role, file, firstOk, waits);
            s.status == Waiting ==> s.k <= NumChunks(file) && Distinct(PeerBytes(log)) == DataPackets(file, s.k)
  {
    RunEmits(role, file, firstOk, waits);
  }
}
