/**
  What becomes of the sender's success when its block number wraps. Only a write has an ACK 0, and the wrapped
  sender takes the old ones for new.
 */
module Wraparound {
  import opened Options
  import opened Packet
  import opened Chunks
  import opened Machine
  import opened Network
  import opened Delivery
  import opened Progress

  ghost predicate AllAcksSent(net: Net) {
    forall i: u16 | i <= net.receiver.c :: EncodeAck(i) in net.ackSent
  }

  // The sender has got to chunk k with genuine packets alone, while the receiver stopped at block 65535.
  ghost predicate Outrun(file: Bytes, k: nat, net: Net) {
    && Inv(Writing, file, net)
    && net.sender.k == k && !net.sender.clock.expired
    && net.sender.status == (if k <= NumChunks(file) then Waiting else Ended(Success))
    && net.receiver.status == Waiting && !net.receiver.clock.expired
    && net.receiver.c == Min(k - 1, 65535)
    && AllAcksSent(net)
  }

  lemma {:induction false} Extend(mode: Mode, file: Bytes, net: Net, actions: seq<Action>, action: Action)
    requires net.sender.k >= 1 && AllClean(actions) && Run(mode, file, net, actions).Some? && Clean(action)
    requires Enabled(Run(mode, file, net, actions).value, action)
    ensures AllClean(actions + [action])
    ensures Run(mode, file, net, actions + [action])
         == Some(Step(mode, file, Run(mode, file, net, actions).value, action))
  {
    assert (actions + [action])[..|actions|] == actions;
  }

  lemma OldAckAccepted(file: Bytes, k: nat, net: Net) returns (action: Action)
    requires k >= 1 && Outrun(file, k, net) && 65535 < k <= NumChunks(file)
    ensures Enabled(net, action) && Clean(action)
    ensures Outrun(file, k + 1, Step(Writing, file, net, action))
  {
    hide NumChunks, EncodeAck, LockStep, SenderInv, ReceiverInv;
    action := AckArrives(Writing, file, net, k % 65536);
  }

  lemma BlockAccepted(file: Bytes, k: nat, net: Net) returns (first: Action, second: Action)
    requires Outrun(file, k, net) && 1 <= k <= NumChunks(file) && k <= 65535
    ensures Enabled(net, first) && Clean(first)
    ensures var net1 := Step(Writing, file, net, first);
            && Enabled(net1, second) && Clean(second)
            && Outrun(file, k + 1, Step(Writing, file, net1, second))
  {
    hide NumChunks, EncodeAck, LockStep, Step, Enabled, DataIsGenuine, AckIsGenuine, DataPacket, Prefix;
    first := DataArrives(Writing, file, net);
    var net1 := Step(Writing, file, net, first);
    assert AllAcksSent(net1);
    second := AckArrives(Writing, file, net1, k);
  }

  lemma SenderStarts(file: Bytes) returns (action: Action)
    ensures Enabled(Init(Writing, file, true), action) && Clean(action)
    ensures Outrun(file, 1, Step(Writing, file, Init(Writing, file, true), action))
  {
    hide NumChunks, LockStep;
    InitKeepsInv(Writing, file, true);
    assert AllAcksSent(Init(Writing, file, true));
    action := AckArrives(Writing, file, Init(Writing, file, true), 0);
  }

  lemma FirstOutrun(file: Bytes) returns (actions: seq<Action>)
    ensures AllClean(actions) && Run(Writing, file, Init(Writing, file, true), actions).Some?
    ensures Outrun(file, 1, Run(Writing, file, Init(Writing, file, true), actions).value)
  {
    var init := Init(Writing, file, true);
    assert Run(Writing, file, init, []) == Some(init);
    hide Step, Enabled, Init, Outrun, Run;
    var action := SenderStarts(file);
    Extend(Writing, file, init, [], action);
    actions := [] + [action];
  }

  lemma NextOutrun(file: Bytes, k: nat, earlier: seq<Action>) returns (actions: seq<Action>)
    requires 1 <= k <= NumChunks(file)
    requires AllClean(earlier) && Run(Writing, file, Init(Writing, file, true), earlier).Some?
    requires Outrun(file, k, Run(Writing, file, Init(Writing, file, true), earlier).value)
    ensures AllClean(actions) && Run(Writing, file, Init(Writing, file, true), actions).Some?
    ensures Outrun(file, k + 1, Run(Writing, file, Init(Writing, file, true), actions).value)
  {
    var init := Init(Writing, file, true);
    assert init.sender.k >= 1;
    hide NumChunks, Step, Enabled, Init, Outrun, Run;
    var net := Run(Writing, file, init, earlier).value;
    if k <= 65535 {
      var first, second := BlockAccepted(file, k, net);
      Extend(Writing, file, init, earlier, first);
      Extend(Writing, file, init, earlier + [first], second);
      actions := earlier + [first] + [second];
    } else {
      var action := OldAckAccepted(file, k, net);
      Extend(Writing, file, init, earlier, action);
      actions := earlier + [action];
    }
  }

  lemma {:induction false} SenderOutruns(file: Bytes, k: nat) returns (actions: seq<Action>)
    requires 1 <= k <= NumChunks(file) + 1
    ensures AllClean(actions) && Run(Writing, file, Init(Writing, file, true), actions).Some?
    ensures Outrun(file, k, Run(Writing, file, Init(Writing, file, true), actions).value)
  {
    if k == 1 {
      actions := FirstOutrun(file);
    } else {
      hide NumChunks, Init, Outrun, Run;
      actions := SenderOutruns(file, k - 1);
      actions := NextOutrun(file, k - 1, actions);
    }
  }

  /**
    In a write, the sender's success means that every byte has been written exactly for files of at most
    65535 * 512 bytes, and that the receiver has accepted the short block that ends the file exactly for files of 1
    to CAPACITY bytes: the empty file has no such block, and a longer file's has no number of its own.
   */
  lemma WriteSuccessIsSoundIff(file: Bytes)
    ensures (forall net | Reachable(Writing, file, net) && net.sender.status == Ended(Success) ::
               net.receiver.written == file)
       <==> |file| <= 65535 * 512
    ensures (forall net | Reachable(Writing, file, net) && net.sender.status == Ended(Success) ::
               net.receiver.everShort)
       <==> 1 <= |file| <= CAPACITY
  {
    CapacityIsLastBlock(file);
    forall net | Reachable(Writing, file, net) && net.sender.status == Ended(Success) && |file| <= 65535 * 512
      ensures net.receiver.written == file
      ensures 1 <= |file| <= CAPACITY ==> net.receiver.everShort
    {
      ReachableKeepsInv(Writing, file, net);
      PrefixComplete(file, net.receiver.c);
    }
    var actions := SenderOutruns(file, NumChunks(file) + 1);
    var net := Run(Writing, file, Init(Writing, file, true), actions).value;
    assert Reachable(Writing, file, net) && net.sender.status == Ended(Success);
    if |file| > CAPACITY {
      assert net.receiver.c == 65535 && net.receiver.written == Prefix(file, 65535);
      PrefixComplete(file, 65535);
    }
  }

  /** In a read the sender's success means that the receiver has accepted the short block exactly if there is one. */
  lemma ReadSuccessIsSoundIff(file: Bytes)
    ensures (forall net | Reachable(Reading, file, net) && net.sender.status == Ended(Success) ::
               net.receiver.written == file)
    ensures (forall net | Reachable(Reading, file, net) && net.sender.status == Ended(Success) ::
               net.receiver.everShort)
       <==> file != []
  {
    forall net | Reachable(Reading, file, net) && net.sender.status == Ended(Success)
      ensures net.receiver.written == file && (net.receiver.everShort <==> file != [])
    {
      SenderSuccessIsSound(Reading, file, net);
    }
    if file == [] {
      var net := Init(Reading, [], true);
      assert Run(Reading, [], net, []) == Some(net);
      assert Reachable(Reading, [], net) && net.sender.status == Ended(Success) && !net.receiver.everShort;
    }
  }

  // ----- Acknowledgements that never go back -----

  // The number of the last packet of the receiver that has reached the sender.
  function LastAck(actions: seq<Action>): nat {
    if actions == [] then 0 else
    var last := actions[|actions| - 1];
    if last.SenderWakes? && last.arrival.Packet? && last.arrival.from == Peer then
      GetBlockNumber(Received(last.arrival.bytes))
    else LastAck(actions[..|actions| - 1])
  }

  // Every such packet has at least the number of the one before. Loss and repetition of the newest are allowed.
  predicate AcksInOrder(actions: seq<Action>)
    decreases |actions|
  {
    actions == [] || (AcksInOrder(actions[..|actions| - 1]) && LastAck(actions[..|actions| - 1]) <= LastAck(actions))
  }

  // The sender has moved past no block whose acknowledgement, or a later one, has not reached it.
  lemma {:induction false} OrderedStep(file: Bytes, net: Net, earlier: seq<Action>, action: Action)
    requires Enabled(net, action)
    requires 1 <= net.sender.k <= 65536 && net.sender.k <= LastAck(earlier) + 1
    requires AcksInOrder(earlier + [action])
    ensures var net' := Step(Writing, file, net, action);
            net'.sender.k <= 65536 && net'.sender.k <= LastAck(earlier + [action]) + 1
  {
    hide GetOpcode, GetBlockNumber, GetError, NumChunks, DataPacket, Received, UnknownTransfer;
    assert (earlier + [action])[..|earlier|] == earlier;
  }

  lemma {:induction false} OrderedPrefix(actions: seq<Action>)
    requires AcksInOrder(actions) && actions != []
    ensures AcksInOrder(actions[..|actions| - 1])
  {
  }

  lemma {:induction false} StartsAtOne(file: Bytes, firstOk: bool)
    ensures Run(Writing, file, Init(Writing, file, firstOk), []).value.sender.k == 1
  {
    hide NumChunks, EncodeAck;
  }

  lemma {:induction false} OrderedAcksBoundSender(file: Bytes, firstOk: bool, actions: seq<Action>)
    requires Run(Writing, file, Init(Writing, file, firstOk), actions).Some? && AcksInOrder(actions)
    ensures var net := Run(Writing, file, Init(Writing, file, firstOk), actions).value;
            net.sender.k <= 65536 && net.sender.k <= LastAck(actions) + 1
  {
    hide Step, Enabled, Init, AcksInOrder, Run;
    if actions == [] {
      StartsAtOne(file, firstOk);
    } else {
      hide LastAck;
      OrderedPrefix(actions);
      LastStep(Writing, file, Init(Writing, file, firstOk), actions);
      var init := Init(Writing, file, firstOk);
      var earlier, last := actions[..|actions| - 1], actions[|actions| - 1];
      OrderedAcksBoundSender(file, firstOk, earlier);
      assert earlier + [last] == actions;
      OrderedStep(file, Run(Writing, file, init, earlier).value, earlier, last);
    }
  }

  /**
    What makes the unsound success is acknowledgements that come again behind later ones. In every run of a write in
    which their numbers never go back, whatever else is lost, repeated or late, the sender's success means that every
    byte is written and, unless the file is empty, the last block accepted. So no longer file succeeds at all.
   */
  lemma {:induction false} OrderedAcksAreSound(file: Bytes, firstOk: bool, actions: seq<Action>)
    requires Run(Writing, file, Init(Writing, file, firstOk), actions).Some? && AcksInOrder(actions)
    ensures var net := Run(Writing, file, Init(Writing, file, firstOk), actions).value;
            net.sender.status == Ended(Success) ==>
              && |file| <= CAPACITY && net.receiver.c == NumChunks(file) && net.receiver.written == file
              && (net.receiver.everShort <==> file != [])
  {
    var net := Run(Writing, file, Init(Writing, file, firstOk), actions).value;
    assert Reachable(Writing, file, net);
    if net.sender.status == Ended(Success) {
      ReachableKeepsInv(Writing, file, net);
      OrderedAcksBoundSender(file, firstOk, actions);
      CapacityIsLastBlock(file);
      SenderSuccessIsSound(Writing, file, net);
    }
  }

  /**
    Such a repetition is all it takes: with genuine packets alone, no wait cut short and every send successful, a
    longer write has a run in which the sender succeeds too early. In it the ACKs do go back.
   */
  lemma {:induction false} OverlongWriteSucceedsEarly(file: Bytes)
    requires |file| > 65535 * 512
    ensures exists actions :: AllClean(actions) && Run(Writing, file, Init(Writing, file, true), actions).Some?
              && var net := Run(Writing, file, Init(Writing, file, true), actions).value;
                 net.sender.status == Ended(Success) && net.receiver.written == file[..65535 * 512]
                 && !AcksInOrder(actions)
  {
    var actions := SenderOutruns(file, NumChunks(file) + 1);
    var net := Run(Writing, file, Init(Writing, file, true), actions).value;
    assert net.receiver.written == Prefix(file, 65535);
    if AcksInOrder(actions) {
      OrderedAcksAreSound(file, true, actions);
    }
  }
}
