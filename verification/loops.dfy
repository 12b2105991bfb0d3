/**
  The sending and receiving loops as the program runs them: 16-bit block numbers, one buffer whose size is also
  the next read size, a stream with an end-of-file flag, and a watchdog object. The environment is a sequence of
  waits; a loop that runs out of waits is still suspended in its last one. Each loop is proved to take exactly
  the steps of the abstract machine, packet by packet.
 */
module Loops {
  import opened Packet
  import opened Chunks
  import opened Machine

  class Watchdog {
    const timeout: nat
    var sinceReset: nat
    var hasExpired: bool

    constructor (timeout: nat)
      ensures this.timeout == timeout && sinceReset == 0 && !hasExpired
    {
      this.timeout := timeout;
      sinceReset := 0;
      hasExpired := false;
    }

    // The timer is armed again; a flag that is already set stays set.
    method Reset()
      modifies this
      ensures sinceReset == 0 && hasExpired == old(hasExpired)
    {
      sinceReset := 0;
    }

    // Time passes while the loop is suspended.
    method Elapse(ms: nat)
      modifies this
      ensures sinceReset == old(sinceReset) + ms
      ensures hasExpired == (old(hasExpired) || sinceReset >= timeout)
    {
      sinceReset := sinceReset + ms;
      if sinceReset >= timeout {
        hasExpired := true;
      }
    }
  }

  class InputStream {
    const content: Bytes
    var pos: nat
    var eof: bool

    constructor (content: Bytes)
      ensures this.content == content && pos == 0 && !eof
    {
      this.content := content;
      pos := 0;
      eof := false;
    }

    predicate Valid()
      reads this
    {
      pos <= |content|
    }

    // Fills the buffer from its front and says how many bytes it got; a stream at end of file gives none.
    method Read(buffer: Bytes) returns (filled: Bytes, count: nat)
      requires Valid()
      modifies this
      ensures Valid()
      ensures count == if old(eof) then 0 else Min(|buffer|, |content| - old(pos))
      ensures filled == content[old(pos)..old(pos) + count] + buffer[count..]
      ensures pos == old(pos) + count
      ensures eof == (old(eof) || count < |buffer|)
    {
      count := if eof then 0 else Min(|buffer|, |content| - pos);
      filled := content[pos..pos + count] + buffer[count..];
      pos := pos + count;
      if count < |buffer| {
        eof := true;
      }
    }
  }

  function Resize(buffer: Bytes, size: nat): (resized: Bytes)
    ensures |resized| == size
  {
    if size <= |buffer| then buffer[..size] else buffer + seq(size - |buffer|, _ => 0)
  }

  // What the sending loop knows when it is about to send chunk k.
  ghost predicate Loaded(stream: InputStream, k: nat, block: u16, data: Bytes, fileBytesRead: nat, lastDataSize: nat)
    reads stream
  {
    var n := NumChunks(stream.content);
    && 1 <= k <= n + 1
    && block == k % 65536
    && stream.pos == Min(CHUNK * k, |stream.content|)
    && stream.eof == (CHUNK * k > |stream.content|)
    && fileBytesRead <= |data|
    && fileBytesRead == (if k <= n then |Chunk(stream.content, k)| else 0)
    && (k <= n ==> data[..fileBytesRead] == Chunk(stream.content, k))
    && lastDataSize == (if k == 1 then 0 else |Chunk(stream.content, k - 1)|)
  }

  lemma LoadedGuard(stream: InputStream, k: nat, block: u16, data: Bytes, fileBytesRead: nat, lastDataSize: nat)
    requires Loaded(stream, k, block, data, fileBytesRead, lastDataSize)
    ensures (fileBytesRead > 0 || lastDataSize == CHUNK) <==> k <= NumChunks(stream.content)
    ensures k > NumChunks(stream.content) ==> stream.eof
  {
    var n := NumChunks(stream.content);
    if 1 <= k <= n {
      ChunkLength(stream.content, k);
    }
    if 1 < k {
      ChunkLength(stream.content, k - 1);
    }
  }

  method FirstBlock(stream: InputStream) returns (data: Bytes, fileBytesRead: nat)
    requires stream.pos == 0 && !stream.eof
    modifies stream
    ensures stream.Valid() && Loaded(stream, 1, 1, data, fileBytesRead, 0)
  {
    data := seq(CHUNK, _ => 0);
    data, fileBytesRead := stream.Read(data);
  }

  // Acknowledged: read as many bytes as the last read gave, and go on to the next block number.
  method NextBlock(stream: InputStream, data: Bytes, block: u16, lastDataSize: nat, ghost k: nat)
    returns (data': Bytes, block': u16, fileBytesRead: nat)
    requires stream.Valid() && k <= NumChunks(stream.content)
    requires Loaded(stream, k, block, data, |data|, lastDataSize)
    modifies stream
    ensures stream.Valid() && Loaded(stream, k + 1, block', data', fileBytesRead, |data|)
  {
    ChunkLength(stream.content, k);
    data', fileBytesRead := stream.Read(data);
    block' := if block == 65535 then 0 else block + 1;
  }

  lemma {:induction false} SenderStaysEnded(role: Role, file: Bytes, start: (Sender, seq<Datagram>),
                                            waits: seq<Wait>, i: nat)
    requires start.0.k >= 1 && i <= |waits|
    requires SenderRun(role, file, start, waits[..i]).0.status.Ended?
    ensures SenderRun(role, file, start, waits) == SenderRun(role, file, start, waits[..i])
  {
    if i < |waits| {
      var shorter := waits[..|waits| - 1];
      assert shorter[..i] == waits[..i];
      SenderStaysEnded(role, file, start, shorter, i);
      var (s, log) := SenderRun(role, file, start, shorter);
      assert log + [] == log;
    } else {
      assert waits[..i] == waits;
    }
  }

  lemma {:induction false} ReceiverStaysEnded(role: Role, start: (Receiver, seq<Datagram>), waits: seq<Wait>, i: nat)
    requires i <= |waits|
    requires ReceiverRun(role, start, waits[..i]).0.status.Ended?
    ensures ReceiverRun(role, start, waits) == ReceiverRun(role, start, waits[..i])
  {
    if i < |waits| {
      var shorter := waits[..|waits| - 1];
      assert shorter[..i] == waits[..i];
      ReceiverStaysEnded(role, start, shorter, i);
      var (r, log) := ReceiverRun(role, start, shorter);
      assert log + [] == log;
    } else {
      assert waits[..i] == waits;
    }
  }

  // The run so far has brought the loop to its top, where it is about to send chunk k.
  ghost predicate SenderAtTop(role: Role, file: Bytes, start: (Sender, seq<Datagram>), waits: seq<Wait>,
                              k: nat, clock: Clock, sendOk: bool, sent: seq<Datagram>)
    requires start.0.k >= 1 && k >= 1
  {
    var (s, more) := SenderTop(file, k, clock, sendOk);
    SenderRun(role, file, start, waits) == (s, sent + more)
  }

  lemma SenderStarts(role: Role, file: Bytes, sendOk: bool, waits: seq<Wait>)
    ensures SenderAtTop(role, file, SenderTop(file, 1, START, sendOk), waits[..0], 1, START, sendOk, [])
  {
    var more := SenderTop(file, 1, START, sendOk).1;
    assert waits[..0] == [] && [] + more == more;
  }

  lemma {:induction false} SenderTopStops(role: Role, file: Bytes, start: (Sender, seq<Datagram>),
                                          waits: seq<Wait>, i: nat, k: nat, clock: Clock, sendOk: bool,
                                          sent: seq<Datagram>)
    requires start.0.k >= 1 && k >= 1 && i <= |waits|
    requires SenderAtTop(role, file, start, waits[..i], k, clock, sendOk, sent)
    requires k > NumChunks(file) || clock.expired || !sendOk
    ensures var o := if k > NumChunks(file) then Success else if clock.expired then TimedOut else SendFailed;
            SenderRun(role, file, start, waits) == (Sender(k, Ended(o), clock), sent)
  {
    assert sent + [] == sent;
    SenderStaysEnded(role, file, start, waits, i);
  }

  lemma {:induction false} SenderTopSends(role: Role, file: Bytes, start: (Sender, seq<Datagram>), waits: seq<Wait>,
                       k: nat, clock: Clock, sent: seq<Datagram>)
    requires start.0.k >= 1 && 1 <= k <= NumChunks(file) && !clock.expired
    requires SenderAtTop(role, file, start, waits, k, clock, true, sent)
    ensures SenderRun(role, file, start, waits)
         == (Sender(k, Waiting, clock.(waited := 0)), sent + [Datagram(Peer, DataPacket(file, k))])
  {
  }

  // One wait of the sending loop, case by case.
  lemma {:induction false} SenderLoops(role: Role, file: Bytes, start: (Sender, seq<Datagram>),
                                       waits: seq<Wait>, i: nat, k: nat, clock: Clock, sent: seq<Datagram>)
    requires start.0.k >= 1 && k >= 1 && i < |waits|
    requires SenderRun(role, file, start, waits[..i]) == (Sender(k, Waiting, clock), sent)
    ensures var w := waits[i];
            var later := Elapse(clock, w.ms);
            if !w.arrival.Packet? then SenderAtTop(role, file, start, waits[..i + 1], k, later, w.sendOk, sent)
            else if w.arrival.from != Peer then
              SenderAtTop(role, file, start, waits[..i + 1], k, later, w.sendOk,
                          sent + [Datagram(w.arrival.from, UnknownTransfer(role == Server))])
            else if Acknowledges(k, Received(w.arrival.bytes)) then
              SenderAtTop(role, file, start, waits[..i + 1], k + 1, Rewind(later), w.sendOk, sent)
            else SenderAtTop(role, file, start, waits[..i + 1], k, later, w.sendOk, sent)
  {
    assert waits[..i + 1][..i] == waits[..i];
    var w := waits[i];
    if w.arrival.Packet? && w.arrival.from != Peer {
      var stray := [Datagram(w.arrival.from, UnknownTransfer(role == Server))];
      var more := SenderTop(file, k, Elapse(clock, w.ms), w.sendOk).1;
      assert sent + (stray + more) == (sent + stray) + more;
    }
  }

  // The run so far has brought the loop to its top, where it is about to acknowledge block r.c.
  ghost predicate ReceiverAtTop(role: Role, start: (Receiver, seq<Datagram>), waits: seq<Wait>,
                                r: Receiver, sendOk: bool, sent: seq<Datagram>)
  {
    var (r', more) := ReceiverTop(r, sendOk);
    ReceiverRun(role, start, waits) == (r', sent + more)
  }

  lemma ReceiverStarts(role: Role, r: Receiver, sendOk: bool, waits: seq<Wait>)
    ensures ReceiverAtTop(role, ReceiverTop(r, sendOk), waits[..0], r, sendOk, [])
  {
    var more := ReceiverTop(r, sendOk).1;
    assert waits[..0] == [] && [] + more == more;
  }

  lemma {:induction false} ReceiverTopStops(role: Role, start: (Receiver, seq<Datagram>), waits: seq<Wait>, i: nat,
                         r: Receiver, sendOk: bool, sent: seq<Datagram>)
    requires i <= |waits|
    requires ReceiverAtTop(role, start, waits[..i], r, sendOk, sent)
    requires r.clock.expired || !sendOk
    ensures var o := if r.clock.expired then TimedOut else SendFailed;
            ReceiverRun(role, start, waits) == (r.(status := Ended(o)), sent)
  {
    assert sent + [] == sent;
    ReceiverStaysEnded(role, start, waits, i);
  }

  lemma {:induction false} ReceiverTopSends(role: Role, start: (Receiver, seq<Datagram>), waits: seq<Wait>,
                         r: Receiver, sent: seq<Datagram>)
    requires r.status == Waiting && !r.clock.expired
    requires ReceiverAtTop(role, start, waits, r, true, sent)
    ensures ReceiverRun(role, start, waits)
         == (r.(clock := r.clock.(waited := 0)), sent + [Datagram(Peer, EncodeAck(r.c))])
  {
  }

  // One wait of the receiving loop, case by case.
  lemma {:induction false} ReceiverLoops(role: Role, start: (Receiver, seq<Datagram>), waits: seq<Wait>, i: nat,
                      r: Receiver, sent: seq<Datagram>)
    requires i < |waits| && r.status == Waiting
    requires ReceiverRun(role, start, waits[..i]) == (r, sent)
    ensures var w := waits[i];
            var later := r.(clock := Elapse(r.clock, w.ms));
            if !w.arrival.Packet? && LastBlockSeen(role, r) then
              ReceiverRun(role, start, waits) == (later.(status := Ended(Success)), sent)
            else if !w.arrival.Packet? then ReceiverAtTop(role, start, waits[..i + 1], later, w.sendOk, sent)
            else if w.arrival.from != Peer then
              ReceiverAtTop(role, start, waits[..i + 1], later, w.sendOk,
                            sent + [Datagram(w.arrival.from, UnknownTransfer(false))])
            else if IsNextBlock(r.c, Received(w.arrival.bytes)) then
              ReceiverAtTop(role, start, waits[..i + 1], Accept(later, Received(w.arrival.bytes)), w.sendOk, sent)
            else ReceiverAtTop(role, start, waits[..i + 1], later, w.sendOk, sent)
  {
    assert waits[..i + 1][..i] == waits[..i];
    var w := waits[i];
    if w.arrival.Packet? && w.arrival.from != Peer {
      var stray := [Datagram(w.arrival.from, UnknownTransfer(false))];
      var more := ReceiverTop(r.(clock := Elapse(r.clock, w.ms)), w.sendOk).1;
      assert sent + (stray + more) == (sent + stray) + more;
    }
    if !w.arrival.Packet? && LastBlockSeen(role, r) {
      assert sent + [] == sent;
      ReceiverStaysEnded(role, start, waits, i + 1);
    }
  }

  /** `send_loop`, on either side; the sides differ in the text of one error message. */
  method SendLoop(role: Role, stream: InputStream, firstOk: bool, waits: seq<Wait>)
    returns (status: Status, sent: seq<Datagram>)
    requires stream.pos == 0 && !stream.eof
    modifies stream
    ensures var (s, log) := SenderRun(role, stream.content, SenderTop(stream.content, 1, START, firstOk), waits);
            status == s.status && sent == log
    ensures status != Ended(Fault)
  {
    hide SenderAtTop, SenderRun, SenderTop, Chunk, EncodeData, GetOpcode, GetBlockNumber, Received, UnknownTransfer;
    ghost var file := stream.content;
    ghost var start := SenderTop(file, 1, START, firstOk);
    ghost var k: nat, clock := 1, START;

    var data, fileBytesRead := FirstBlock(stream);
    var block: u16, lastDataSize := 1, 0;
    var watchdog := new Watchdog(MAX_WAIT_TIME);
    var i, sendOk := 0, firstOk;
    sent := [];
    SenderStarts(role, file, firstOk, waits);

    while fileBytesRead > 0 || lastDataSize == CHUNK
      invariant i <= |waits| && stream.Valid()
      invariant Loaded(stream, k, block, data, fileBytesRead, lastDataSize)
      invariant fresh(watchdog) && watchdog.timeout == MAX_WAIT_TIME
      invariant watchdog.sinceReset == clock.sinceReset && watchdog.hasExpired == clock.expired
      invariant SenderAtTop(role, file, start, waits[..i], k, clock, sendOk, sent)
      decreases |waits| - i
    {
      LoadedGuard(stream, k, block, data, fileBytesRead, lastDataSize);
      if watchdog.hasExpired {
        SenderTopStops(role, file, start, waits, i, k, clock, sendOk, sent);
        return Ended(TimedOut), sent;
      }
      data := Resize(data, fileBytesRead);
      var packet := DataToBuffer(block, data);
      if !sendOk {
        SenderTopStops(role, file, start, waits, i, k, clock, sendOk, sent);
        return Ended(SendFailed), sent;
      }
      SenderTopSends(role, file, start, waits[..i], k, clock, sent);
      sent := sent + [Datagram(Peer, packet)];
      if i == |waits| {
        assert waits[..i] == waits;
        return Waiting, sent;
      }
      SenderLoops(role, file, start, waits, i, k, clock.(waited := 0), sent);
      var w := waits[i];
      i := i + 1;
      watchdog.Elapse(w.ms);
      clock := Elapse(clock.(waited := 0), w.ms);
      sendOk := w.sendOk;

      // No acknowledgement: send the block again.
      if !w.arrival.Packet? {
        continue;
      }
      // Somebody else's packet: tell them so, and send the block again.
      if w.arrival.from != Peer {
        sent := sent + [Datagram(w.arrival.from, UnknownTransfer(role == Server))];
        continue;
      }
      var buffer := Received(w.arrival.bytes);
      if GetOpcode(buffer) != Ack || GetBlockNumber(buffer) != block {
        continue;
      }
      watchdog.Reset();
      clock := Rewind(clock);
      var acknowledged := fileBytesRead;
      data, block, fileBytesRead := NextBlock(stream, data, block, lastDataSize, k);
      lastDataSize := acknowledged;
      k := k + 1;
    }
    LoadedGuard(stream, k, block, data, fileBytesRead, lastDataSize);
    SenderTopStops(role, file, start, waits, i, k, clock, sendOk, sent);
    if !stream.eof {
      return Ended(Fault), sent;
    }
    return Ended(Success), sent;
  }

  // The file a receiving loop writes into.
  class TargetFile {
    var present: bool
    var content: Bytes

    constructor ()
      ensures !present && content == []
    {
      present, content := false, [];
    }

    // Opening for output creates the file or empties it.
    method Open()
      modifies this
      ensures present && content == []
    {
      present, content := true, [];
    }

    method Write(data: Bytes)
      modifies this
      ensures present == old(present) && content == old(content) + data
    {
      content := content + data;
    }

    method Remove()
      modifies this
      ensures !present && content == []
    {
      present, content := false, [];
    }
  }

  /** The server's `receive_loop`, which acknowledges block 0 first and keeps a flag for the last block. */
  method ServerReceiveLoop(target: TargetFile, firstOk: bool, waits: seq<Wait>)
    returns (status: Status, sent: seq<Datagram>)
    requires target.content == []
    modifies target
    ensures var (r, log) := ReceiverRun(Server, ReceiverTop(FRESH_RECEIVER, firstOk), waits);
            status == r.status && sent == log && target.content == r.written
    ensures target.present == old(target.present)
  {
    hide ReceiverAtTop, ReceiverRun, ReceiverTop, EncodeAck, GetOpcode, GetBlockNumber, GetData,
      Received, UnknownTransfer;
    ghost var start := ReceiverTop(FRESH_RECEIVER, firstOk);
    ghost var r := FRESH_RECEIVER;

    var currentBlock: u16 := 0;
    var watchdog := new Watchdog(MAX_WAIT_TIME);
    var isLastReceived := false;
    var i, sendOk := 0, firstOk;
    sent := [];
    ReceiverStarts(Server, r, firstOk, waits);

    while true
      invariant i <= |waits|
      invariant r.c == currentBlock && r.written == target.content && r.everShort == isLastReceived
      invariant fresh(watchdog) && watchdog.timeout == MAX_WAIT_TIME
      invariant watchdog.sinceReset == r.clock.sinceReset && watchdog.hasExpired == r.clock.expired
      invariant r.status == Waiting
      invariant target.present == old(target.present)
      invariant ReceiverAtTop(Server, start, waits[..i], r, sendOk, sent)
      decreases |waits| - i
    {
      if watchdog.hasExpired {
        ReceiverTopStops(Server, start, waits, i, r, sendOk, sent);
        return Ended(TimedOut), sent;
      }
      var ack := AckToBuffer(currentBlock);
      if !sendOk {
        ReceiverTopStops(Server, start, waits, i, r, sendOk, sent);
        return Ended(SendFailed), sent;
      }
      ReceiverTopSends(Server, start, waits[..i], r, sent);
      r := r.(clock := r.clock.(waited := 0));
      sent := sent + [Datagram(Peer, ack)];
      if i == |waits| {
        assert waits[..i] == waits;
        return Waiting, sent;
      }
      ReceiverLoops(Server, start, waits, i, r, sent);
      var w := waits[i];
      i := i + 1;
      watchdog.Elapse(w.ms);
      r := r.(clock := Elapse(r.clock, w.ms));
      sendOk := w.sendOk;

      if !w.arrival.Packet? && isLastReceived {
        return Ended(Success), sent;
      }
      if !w.arrival.Packet? {
        continue;
      }
      if w.arrival.from != Peer {
        sent := sent + [Datagram(w.arrival.from, UnknownTransfer(false))];
        continue;
      }
      var buffer := Received(w.arrival.bytes);
      if GetOpcode(buffer) != Data || GetBlockNumber(buffer) != currentBlock as int + 1 {
        continue;
      }
      watchdog.Reset();
      var data := GetData(buffer);
      target.Write(data);
      if |data| < CHUNK {
        isLastReceived := true;
      }
      currentBlock := currentBlock + 1;
      r := Accept(r, buffer);
    }
  }

  /** The client's `receive_loop`, which starts from the first response and looks at the last block's size. */
  method ClientReceiveLoop(target: TargetFile, firstResponse: Bytes, firstOk: bool, waits: seq<Wait>)
    returns (status: Status, sent: seq<Datagram>)
    requires target.content == []
    modifies target
    ensures var (r, log) := ReceiverRun(Client, ReceiverTop(Accepted1(firstResponse), firstOk), waits);
            status == r.status && sent == log && target.content == r.written
    ensures target.present == old(target.present)
  {
    hide ReceiverAtTop, ReceiverRun, ReceiverTop, EncodeAck, GetOpcode, GetBlockNumber, GetData,
      Received, UnknownTransfer;
    ghost var start := ReceiverTop(Accepted1(firstResponse), firstOk);
    ghost var r := Accepted1(firstResponse);

    var currentBlock: u16 := 1;
    var dataFromCurrentResponse := GetData(firstResponse);
    target.Write(dataFromCurrentResponse);
    var watchdog := new Watchdog(MAX_WAIT_TIME);
    var i, sendOk := 0, firstOk;
    sent := [];
    ReceiverStarts(Client, r, firstOk, waits);

    while true
      invariant i <= |waits|
      invariant r.c == currentBlock && r.written == target.content && r.lastSize == |dataFromCurrentResponse|
      invariant fresh(watchdog) && watchdog.timeout == MAX_WAIT_TIME
      invariant watchdog.sinceReset == r.clock.sinceReset && watchdog.hasExpired == r.clock.expired
      invariant r.status == Waiting
      invariant target.present == old(target.present)
      invariant ReceiverAtTop(Client, start, waits[..i], r, sendOk, sent)
      decreases |waits| - i
    {
      if watchdog.hasExpired {
        ReceiverTopStops(Client, start, waits, i, r, sendOk, sent);
        return Ended(TimedOut), sent;
      }
      var ack := AckToBuffer(currentBlock);
      if !sendOk {
        ReceiverTopStops(Client, start, waits, i, r, sendOk, sent);
        return Ended(SendFailed), sent;
      }
      ReceiverTopSends(Client, start, waits[..i], r, sent);
      r := r.(clock := r.clock.(waited := 0));
      sent := sent + [Datagram(Peer, ack)];
      if i == |waits| {
        assert waits[..i] == waits;
        return Waiting, sent;
      }
      ReceiverLoops(Client, start, waits, i, r, sent);
      var w := waits[i];
      i := i + 1;
      watchdog.Elapse(w.ms);
      r := r.(clock := Elapse(r.clock, w.ms));
      sendOk := w.sendOk;

      if !w.arrival.Packet? && |dataFromCurrentResponse| < CHUNK {
        return Ended(Success), sent;
      }
      if !w.arrival.Packet? {
        continue;
      }
      if w.arrival.from != Peer {
        sent := sent + [Datagram(w.arrival.from, UnknownTransfer(false))];
        continue;
      }
      var buffer := Received(w.arrival.bytes);
      if GetOpcode(buffer) != Data || GetBlockNumber(buffer) != currentBlock as int + 1 {
        continue;
      }
      watchdog.Reset();
      dataFromCurrentResponse := GetData(buffer);
      target.Write(dataFromCurrentResponse);
      currentBlock := currentBlock + 1;
      r := Accept(r, buffer);
    }
  }
}
