/** What every reachable state of a transfer satisfies, whatever the network, the clocks and strangers do. */
module Delivery {
  import opened Packet
  import opened Chunks
  import opened Machine
  import opened Network

  // The longest file whose last block still has a 16-bit number of its own.
  const CAPACITY := 65534 * 512 + 511

  lemma CapacityIsLastBlock(file: Bytes)
    ensures |file| <= CAPACITY <==> NumChunks(file) <= 65535
  {
  }

  /** The receiver has written exactly the first chunks of the source, whatever block numbers have wrapped. */
  lemma WrittenIsPrefix(mode: Mode, file: Bytes, net: Net)
    requires Reachable(mode, file, net)
    ensures net.receiver.written == file[..Min(512 * net.receiver.c, |file|)]
  {
    ReachableKeepsInv(mode, file, net);
  }

  /** A receiver that reports success has written the source file, byte for byte. */
  lemma ReceiverSuccessIsExact(mode: Mode, file: Bytes, net: Net)
    requires Reachable(mode, file, net) && net.receiver.status == Ended(Success)
    ensures net.receiver.written == file
    ensures 1 <= |file| <= CAPACITY
  {
    ReachableKeepsInv(mode, file, net);
    PrefixComplete(file, net.receiver.c);
    CapacityIsLastBlock(file);
  }

  /** No run writes more than 65535 full blocks. */
  lemma WrittenIsBounded(mode: Mode, file: Bytes, net: Net)
    requires Reachable(mode, file, net)
    ensures |net.receiver.written| <= 65535 * 512
  {
    WrittenIsPrefix(mode, file, net);
  }

  lemma GenuineDataIsLabelled(file: Bytes, k: nat, bytes: Bytes)
    requires DataIsGenuine(file, k, bytes) && k <= 65535
    ensures GetOpcode(bytes) == Data && 1 <= GetBlockNumber(bytes) <= NumChunks(file) && GetBlockNumber(bytes) <= k
    ensures GetData(bytes) == Chunk(file, GetBlockNumber(bytes))
  {
    hide NumChunks, Chunk, GetOpcode, GetBlockNumber, GetData;
    var j :| 1 <= j <= k && j <= NumChunks(file) && bytes == DataPacket(file, j);
    DataRoundTrip(j % 65536, Chunk(file, j));
  }

  /** Up to block 65535 the sender is level with the receiver or one block ahead, and no packet is mislabelled. */
  lemma SidesMoveInLockStep(mode: Mode, file: Bytes, net: Net)
    requires Reachable(mode, file, net) && net.sender.k <= 65535
    ensures net.receiver.c <= net.sender.k <= net.receiver.c + 1
    ensures forall bytes | bytes in net.ackSent ::
              GetOpcode(bytes) == Ack && |bytes| == 4 && GetBlockNumber(bytes) <= net.receiver.c
    ensures forall bytes | bytes in net.dataSent ::
              && GetOpcode(bytes) == Data && 1 <= GetBlockNumber(bytes) <= NumChunks(file)
              && GetBlockNumber(bytes) <= net.sender.k && GetData(bytes) == Chunk(file, GetBlockNumber(bytes))
  {
    hide NumChunks, Chunk, GetOpcode, GetBlockNumber, GetData, DataIsGenuine;
    ReachableKeepsInv(mode, file, net);
    forall bytes | bytes in net.dataSent
      ensures GetOpcode(bytes) == Data && 1 <= GetBlockNumber(bytes) <= NumChunks(file)
      ensures GetBlockNumber(bytes) <= net.sender.k && GetData(bytes) == Chunk(file, GetBlockNumber(bytes))
    {
      GenuineDataIsLabelled(file, net.sender.k, bytes);
    }
    forall bytes | bytes in net.ackSent
      ensures GetOpcode(bytes) == Ack && |bytes| == 4 && GetBlockNumber(bytes) <= net.receiver.c
    {
      AckNamesItsBlock(mode, net.receiver.c, bytes);
    }
  }

  /**
    A sender that reports success for a file that is not empty has got the whole file across: every byte is written,
    and the receiver has accepted the short block that ends it. In a read this holds for every length, in a write
    up to CAPACITY bytes.
   */
  lemma SenderSuccessIsSound(mode: Mode, file: Bytes, net: Net)
    requires Reachable(mode, file, net) && net.sender.status == Ended(Success)
    requires mode == Reading || |file| <= CAPACITY
    ensures net.receiver.c == NumChunks(file) && net.receiver.written == file
    ensures net.receiver.everShort <==> file != []
  {
    ReachableKeepsInv(mode, file, net);
    PrefixComplete(file, net.receiver.c);
    CapacityIsLastBlock(file);
  }

  /**
    With an empty file the sender can succeed while the receiver has accepted nothing: it never succeeds, and the
    client of a read is still in its handshake or has failed.
   */
  lemma EmptyFileNeverArrives(mode: Mode, net: Net)
    requires Reachable(mode, [], net)
    ensures net.receiver.c == 0 && !net.receiver.everShort && net.receiver.status != Ended(Success)
    ensures mode == Reading ==> net.receiver.status == Handshake || net.receiver.status.Ended?
  {
    ReachableKeepsInv(mode, [], net);
  }
}
