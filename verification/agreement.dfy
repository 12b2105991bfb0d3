/** The two receiving loops, which differ only in how they remember that the last block has come. */
module Agreement {
  import opened Packet
  import opened Chunks
  import opened Machine
  import opened Runs

  // A wait without a packet, although a short block and then a full one have been accepted.
  predicate SilenceAfterLate(r: Receiver, w: Wait) {
    r.status == Waiting && r.everShort && r.lastSize >= CHUNK && !w.arrival.Packet?
  }

  predicate NoSilenceAfterLate(firstResponse: Bytes, firstOk: bool, waits: seq<Wait>)
    decreases |waits|
  {
    waits == [] ||
    var earlier := waits[..|waits| - 1];
    NoSilenceAfterLate(firstResponse, firstOk, earlier)
    && !SilenceAfterLate(ReceiverFrom(Server, Accepted1(firstResponse), firstOk, earlier).0, waits[|waits| - 1])
  }

  predicate Remembers(r: Receiver) {
    (r.lastSize < CHUNK ==> r.everShort) && r.status != Handshake
  }

  // The server is done while the client went on: it has sent more, or has ended in another way.
  predicate Split(client: (Receiver, seq<Datagram>), server: (Receiver, seq<Datagram>)) {
    && server.0.status == Ended(Success)
    && (|client.1| > |server.1| || (client.0.status.Ended? && client.0.status != Ended(Success)))
  }

  lemma OneWaitAgrees(r: Receiver, w: Wait)
    requires Remembers(r) && !SilenceAfterLate(r, w)
    ensures ReceiverWait(Client, r, w) == ReceiverWait(Server, r, w) && Remembers(ReceiverWait(Server, r, w).0)
  {
    hide Received, GetOpcode, GetBlockNumber, GetData, UnknownTransfer;
  }

  lemma OneWaitSplits(r: Receiver, log: seq<Datagram>, w: Wait)
    requires SilenceAfterLate(r, w)
    ensures var (client, sent) := ReceiverWait(Client, r, w);
            var (server, sent') := ReceiverWait(Server, r, w);
            Split((client, log + sent), (server, log + sent'))
  {
  }

  lemma {:induction false} AgreeOrSplit(firstResponse: Bytes, firstOk: bool, waits: seq<Wait>)
    ensures var client := ReceiverFrom(Client, Accepted1(firstResponse), firstOk, waits);
            var server := ReceiverFrom(Server, Accepted1(firstResponse), firstOk, waits);
            if NoSilenceAfterLate(firstResponse, firstOk, waits) then client == server && Remembers(server.0)
            else Split(client, server)
  {
    if waits != [] {
      hide ReceiverWake;
      var earlier, w := waits[..|waits| - 1], waits[|waits| - 1];
      AgreeOrSplit(firstResponse, firstOk, earlier);
      var (r, log) := ReceiverFrom(Server, Accepted1(firstResponse), firstOk, earlier);
      if NoSilenceAfterLate(firstResponse, firstOk, waits) {
        OneWaitAgrees(r, w);
      } else if NoSilenceAfterLate(firstResponse, firstOk, earlier) {
        OneWaitSplits(r, log, w);
      }
    }
  }

  /**
    Started from the same first block and fed the same events, the client's and the server's loop send the same
    packets, write the same bytes and return the same result exactly if no wait brings silence after a full block
    was accepted behind a short one.
   */
  lemma {:induction false} ReceiveLoopsAgree(firstResponse: Bytes, firstOk: bool, waits: seq<Wait>)
    ensures ReceiverFrom(Client, Accepted1(firstResponse), firstOk, waits)
            == ReceiverFrom(Server, Accepted1(firstResponse), firstOk, waits)
            <==> NoSilenceAfterLate(firstResponse, firstOk, waits)
  {
    AgreeOrSplit(firstResponse, firstOk, waits);
  }

  lemma TwoWaits(role: Role, r: Receiver, a: Wait, b: Wait)
    ensures var (r0, sent0) := ReceiverTop(r, true);
            var (r1, sent1) := ReceiverWait(role, r0, a);
            var (r2, sent2) := ReceiverWait(role, r1, b);
            ReceiverFrom(role, r, true, [a, b]) == (r2, sent0 + sent1 + sent2)
  {
    hide ReceiverTop, ReceiverWait;
    var start := ReceiverTop(r, true);
    assert [a, b][..1] == [a] && [a][..0] == [];
    assert ReceiverRun(role, start, []) == start;
    var (r1, sent1) := ReceiverWait(role, start.0, a);
    assert ReceiverRun(role, start, [a]) == (r1, start.1 + sent1);
    var (r2, sent2) := ReceiverWait(role, r1, b);
    assert ReceiverRun(role, start, [a, b]) == (r2, start.1 + sent1 + sent2);
  }

  // The receiver that waits after block 2.
  function AtBlockTwo(data: Bytes): Receiver {
    Receiver(2, data, true, CHUNK, Waiting, START)
  }

  lemma BlockTwoArrives(role: Role, data: Bytes)
    requires |data| == CHUNK
    ensures ReceiverWait(role, ReceiverTop(Accepted1(EncodeData(1, [])), true).0,
                         Wait(0, Packet(Peer, EncodeData(2, data)), true))
         == (AtBlockTwo(data), [Datagram(Peer, EncodeAck(2))])
  {
    DataRoundTrip(1, []);
    DataRoundTrip(2, data);
    FullPacketFits(data);
    hide EncodeData, EncodeAck, GetOpcode, GetBlockNumber, GetData, Received;
    assert [] + data == data;
  }

  lemma FullPacketFits(data: Bytes)
    requires |data| == CHUNK
    ensures Received(EncodeData(2, data)) == EncodeData(2, data)
  {
  }

  /**
    An empty block 1, a full block 2 and a silent wait: the server's loop ends with success, while the client's
    acknowledges block 2 again and waits.
   */
  lemma LateFullBlockSplitsLoops(data: Bytes)
    requires |data| == CHUNK
    ensures var first := Accepted1(EncodeData(1, []));
            var waits := [Wait(0, Packet(Peer, EncodeData(2, data)), true),
                          Wait(MAX_RECEIVE_WAIT_TIME, WaitOver, true)];
            var (server, serverLog) := ReceiverFrom(Server, first, true, waits);
            var (client, clientLog) := ReceiverFrom(Client, first, true, waits);
            && server.status == Ended(Success) && client.status == Waiting
            && clientLog == serverLog + [Datagram(Peer, EncodeAck(2))]
            && server.written == data && client.written == data
  {
    hide ReceiverFrom, EncodeData, EncodeAck, Accepted1, Received;
    var first := Accepted1(EncodeData(1, []));
    var arrival, silence := Wait(0, Packet(Peer, EncodeData(2, data)), true),
                            Wait(MAX_RECEIVE_WAIT_TIME, WaitOver, true);
    TwoWaits(Server, first, arrival, silence);
    TwoWaits(Client, first, arrival, silence);
    BlockTwoArrives(Server, data);
    BlockTwoArrives(Client, data);
    SilenceAtBlockTwo(data, silence);
  }

  lemma SilenceAtBlockTwo(data: Bytes, silence: Wait)
    requires silence == Wait(MAX_RECEIVE_WAIT_TIME, WaitOver, true)
    ensures var (server, sent) := ReceiverWait(Server, AtBlockTwo(data), silence);
            server.status == Ended(Success) && server.written == data && sent == []
    ensures var (client, sent) := ReceiverWait(Client, AtBlockTwo(data), silence);
            client.status == Waiting && client.written == data && sent == [Datagram(Peer, EncodeAck(2))]
  {
  }
}
