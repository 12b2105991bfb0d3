/** The receiver's success says nothing about the sender's: the last acknowledgement may get lost. */
module OneWay {
  import opened Options
  import opened Packet
  import opened Chunks
  import opened Machine
  import opened Network
  import opened Delivery
  import opened Progress

  // The last block has been accepted, its acknowledgement has not arrived, and no time has passed.
  predicate LastAckUnderway(file: Bytes, net: Net) {
    && net.sender == Sender(NumChunks(file), Waiting, START)
    && net.receiver.c == NumChunks(file) && net.receiver.status == Waiting && net.receiver.clock == START
  }

  lemma EnabledIsReachable(mode: Mode, file: Bytes, net: Net, action: Action)
    requires Reachable(mode, file, net) && net.sender.k >= 1 && Enabled(net, action)
    ensures Reachable(mode, file, Step(mode, file, net, action))
  {
    hide Enabled, Step, Init;
    var firstOk, actions :| Run(mode, file, Init(mode, file, firstOk), actions) == Some(net);
    assert (actions + [action])[..|actions|] == actions;
    assert Run(mode, file, Init(mode, file, firstOk), actions + [action]) == Some(Step(mode, file, net, action));
  }

  lemma DistanceOne(mode: Mode, file: Bytes, net: Net)
    requires Inv(mode, file, net) && BothAlive(net) && AtStart(net) && !net.receiver.status.Ended?
    requires 1 <= |file| <= CAPACITY && Distance(file, net) <= 1 && net.sender.status != Ended(Success)
    ensures LastAckUnderway(file, net)
  {
    CapacityIsLastBlock(file);
    hide NumChunks, Prefix, DataIsGenuine, AckIsGenuine;
    assert NumChunks(file) > 0 by { NotEmpty(file); }
  }

  lemma NotEmpty(file: Bytes)
    ensures NumChunks(file) > 0 <==> file != []
  {
  }

  lemma {:induction false} ReachesLastAck(mode: Mode, file: Bytes, net: Net) returns (last: Net)
    requires Reachable(mode, file, net) && Inv(mode, file, net)
    requires BothAlive(net) && AtStart(net) && !net.receiver.status.Ended? && net.sender.status != Ended(Success)
    requires 1 <= |file| <= CAPACITY && Distance(file, net) >= 1
    ensures Reachable(mode, file, last) && LastAckUnderway(file, last)
    decreases Distance(file, net)
  {
    hide Reachable, Inv, Step, Enabled;
    if Distance(file, net) <= 1 {
      DistanceOne(mode, file, net);
      last := net;
    } else {
      var action := Advance(mode, file, net);
      assert net.sender.k >= 1 by { SenderIsPositive(mode, file, net); }
      EnabledIsReachable(mode, file, net, action);
      var next := Step(mode, file, net, action);
      NotYetDone(mode, file, next);
      last := ReachesLastAck(mode, file, next);
    }
  }

  lemma SenderIsPositive(mode: Mode, file: Bytes, net: Net)
    requires Inv(mode, file, net)
    ensures net.sender.k >= 1
  {
  }

  lemma NotYetDone(mode: Mode, file: Bytes, net: Net)
    requires Inv(mode, file, net) && Distance(file, net) >= 1 && |file| <= CAPACITY
    ensures net.sender.status != Ended(Success)
  {
    CapacityIsLastBlock(file);
  }

  // The sender's clock after i silent waits, with its last block sent again after each.
  function SilentFor(i: nat): Clock {
    Clock(0, 2000 * i, false, 2000 * i)
  }

  lemma SilentWait(mode: Mode, file: Bytes, net: Net, i: nat) returns (next: Net)
    requires Reachable(mode, file, net) && file != [] && i < 5
    requires net.sender == Sender(NumChunks(file), Waiting, SilentFor(i)) && net.receiver.status.Ended?
    ensures Reachable(mode, file, next) && next.receiver == net.receiver
    ensures if i < 4 then next.sender == Sender(NumChunks(file), Waiting, SilentFor(i + 1))
            else next.sender.status == Ended(TimedOut)
  {
    NotEmpty(file);
    hide Reachable, NumChunks, DataPacket;
    EnabledIsReachable(mode, file, net, Pass(2000));
    var later := Step(mode, file, net, Pass(2000));
    EnabledIsReachable(mode, file, later, SenderWakes(WaitOver, true));
    next := Step(mode, file, later, SenderWakes(WaitOver, true));
  }

  lemma LastBlockHasCome(mode: Mode, file: Bytes, net: Net)
    requires Inv(mode, file, net) && file != [] && LastAckUnderway(file, net)
    ensures LastBlockSeen(ReceiverRole(mode), net.receiver)
  {
    NotEmpty(file);
    hide NumChunks, DataPacket, Prefix, DataIsGenuine, AckIsGenuine, SenderInv, LockStep;
  }

  // Two seconds pass for both sides.
  lemma BothWait(mode: Mode, file: Bytes, net: Net) returns (next: Net)
    requires Reachable(mode, file, net) && net.sender.k >= 1
    requires net.sender.status == Waiting && net.sender.clock == START
    requires net.receiver.status == Waiting && net.receiver.clock == START
    ensures Reachable(mode, file, next)
    ensures next == net.(sender := net.sender.(clock := Clock(2000, 2000, false, 2000)),
                         receiver := net.receiver.(clock := Clock(2000, 2000, false, 2000)))
  {
    hide Reachable;
    EnabledIsReachable(mode, file, net, Pass(2000));
    next := Step(mode, file, net, Pass(2000));
  }

  lemma ReceiverHearsSilence(mode: Mode, file: Bytes, net: Net) returns (next: Net)
    requires Reachable(mode, file, net) && net.sender.k >= 1
    requires net.receiver.status == Waiting && net.receiver.clock.waited == 2000
    requires LastBlockSeen(ReceiverRole(mode), net.receiver)
    ensures Reachable(mode, file, next)
    ensures next.sender == net.sender && next.receiver == net.receiver.(status := Ended(Success))
  {
    hide Reachable;
    EnabledIsReachable(mode, file, net, ReceiverWakes(WaitOver, true));
    next := Step(mode, file, net, ReceiverWakes(WaitOver, true));
  }

  // The first of the silent waits lets the receiver end.
  lemma FirstSilence(mode: Mode, file: Bytes, net: Net) returns (next: Net)
    requires Reachable(mode, file, net) && Inv(mode, file, net) && file != [] && LastAckUnderway(file, net)
    ensures Reachable(mode, file, next) && next.receiver.status == Ended(Success)
    ensures next.sender == Sender(NumChunks(file), Waiting, SilentFor(1))
  {
    NotEmpty(file);
    LastBlockHasCome(mode, file, net);
    hide Reachable, NumChunks, Inv;
    next := BothWait(mode, file, net);
    next := ReceiverHearsSilence(mode, file, next);
    next := SenderHearsSilence(mode, file, next);
  }

  lemma SenderHearsSilence(mode: Mode, file: Bytes, net: Net) returns (next: Net)
    requires Reachable(mode, file, net) && file != []
    requires net.sender == Sender(NumChunks(file), Waiting, Clock(2000, 2000, false, 2000))
    ensures Reachable(mode, file, next) && next.receiver == net.receiver
    ensures next.sender == Sender(NumChunks(file), Waiting, SilentFor(1))
  {
    NotEmpty(file);
    hide Reachable, NumChunks, DataPacket;
    EnabledIsReachable(mode, file, net, SenderWakes(WaitOver, true));
    next := Step(mode, file, net, SenderWakes(WaitOver, true));
  }

  /**
    For every file that can be transferred, in either direction, there is a run in which the receiver succeeds with
    all of it and the sender times out, because the last acknowledgement is lost.
   */
  lemma ReceiverCanSucceedAlone(mode: Mode, file: Bytes)
    ensures (exists net :: Reachable(mode, file, net) && net.receiver.status == Ended(Success)
                        && net.receiver.written == file && net.sender.status == Ended(TimedOut))
       <==> 1 <= |file| <= CAPACITY
  {
    forall net | Reachable(mode, file, net) && net.receiver.status == Ended(Success)
      ensures 1 <= |file| <= CAPACITY
    {
      ReceiverSuccessIsExact(mode, file, net);
    }
    if 1 <= |file| <= CAPACITY {
      var net := StartIsReachable(mode, file);
      hide Reachable, Init, Inv, NumChunks;
      net := ReachesLastAck(mode, file, net);
      ReachableKeepsInv(mode, file, net);
      net := FirstSilence(mode, file, net);
      net := SilentWait(mode, file, net, 1);
      net := SilentWait(mode, file, net, 2);
      net := SilentWait(mode, file, net, 3);
      net := SilentWait(mode, file, net, 4);
      ReceiverSuccessIsExact(mode, file, net);
    }
  }

  lemma StartIsReachable(mode: Mode, file: Bytes) returns (net: Net)
    requires 1 <= |file| <= CAPACITY
    ensures Reachable(mode, file, net) && Inv(mode, file, net) && BothAlive(net) && AtStart(net)
    ensures !net.receiver.status.Ended? && net.sender.status != Ended(Success) && Distance(file, net) >= 1
  {
    NotEmpty(file);
    net := Init(mode, file, true);
    InitKeepsInv(mode, file, true);
    assert Run(mode, file, net, []) == Some(net);
    assert Reachable(mode, file, net);
  }
}
