/** Packets from other endpoints cost a loop its wait and an ERROR in reply, and nothing else. */
module Strays {
  import opened Packet
  import opened Machine
  import opened Runs

  predicate IsStray(arrival: Arrival) {
    arrival.Packet? && arrival.from != Peer
  }

  function Text(bytes: Bytes): string {
    seq(|bytes|, i requires 0 <= i < |bytes| => bytes[i] as char)
  }

  // What a stray gets reads as ERROR 5 on the other side.
  lemma ReplyIsError5(sendingServer: bool)
    ensures var (opcode, code, message) := GetError(UnknownTransfer(sendingServer));
            && opcode == Error && code == 5
            && Text(message) == if sendingServer then "Unknown transfer ID" else "Unknown transfer ID."
  {
    var message: Bytes := [85, 110, 107, 110, 111, 119, 110, 32, 116, 114, 97, 110, 115, 102, 101, 114, 32, 73, 68]
                          + if sendingServer then [] else [46];
    ErrorRoundTrip(5, message);
    assert UnknownTransfer(sendingServer) == EncodeError(5, message);
  }

  // The wait after its stray, if it is one, has been replaced.
  function ReplaceOne(w: Wait, ignored: Bytes): Wait {
    if IsStray(w.arrival) then w.(arrival := Packet(Peer, ignored)) else w
  }

  function Reply(w: Wait, error: Bytes): seq<Datagram> {
    if IsStray(w.arrival) then [Datagram(w.arrival.from, error)] else []
  }

  // The same waits, with every stray replaced by one packet from the peer.
  function Replace(waits: seq<Wait>, ignored: Bytes): (replaced: seq<Wait>)
    ensures |replaced| == |waits|
  {
    if waits == [] then [] else
    var w := waits[|waits| - 1];
    Replace(waits[..|waits| - 1], ignored) + [ReplaceOne(w, ignored)]
  }

  // One ERROR per stray, to its origin, in the order of arrival.
  function Replies(waits: seq<Wait>, error: Bytes): seq<Datagram> {
    if waits == [] then [] else
    var w := waits[|waits| - 1];
    Replies(waits[..|waits| - 1], error) + Reply(w, error)
  }

  // How many of the waits the loop gets to see: those before it ends.
  function SenderWaitsSeen(role: Role, file: Bytes, firstOk: bool, waits: seq<Wait>): (n: nat)
    ensures n <= |waits|
  {
    if waits == [] then 0 else
    var earlier := waits[..|waits| - 1];
    if SenderFrom(role, file, firstOk, earlier).0.status.Ended? then SenderWaitsSeen(role, file, firstOk, earlier)
    else |waits|
  }

  function ReceiverWaitsSeen(role: Role, r: Receiver, firstOk: bool, waits: seq<Wait>): (n: nat)
    ensures n <= |waits|
  {
    if waits == [] then 0 else
    var earlier := waits[..|waits| - 1];
    if ReceiverFrom(role, r, firstOk, earlier).0.status.Ended? then ReceiverWaitsSeen(role, r, firstOk, earlier)
    else |waits|
  }

  function ToPeerOnly(log: seq<Datagram>): seq<Datagram> {
    if log == [] then [] else
    ToPeerOnly(log[..|log| - 1]) + if log[|log| - 1].to == Peer then [log[|log| - 1]] else []
  }

  function ToForeignOnly(log: seq<Datagram>): seq<Datagram> {
    if log == [] then [] else
    ToForeignOnly(log[..|log| - 1]) + if log[|log| - 1].to != Peer then [log[|log| - 1]] else []
  }

  lemma {:induction false} PeerLogsAppend(a: seq<Datagram>, b: seq<Datagram>)
    ensures ToPeerOnly(a + b) == ToPeerOnly(a) + ToPeerOnly(b)
  {
    if b == [] {
      assert a + b == a;
    } else {
      var earlier := b[..|b| - 1];
      PeerLogsAppend(a, earlier);
      assert (a + b)[..|a + b| - 1] == a + earlier;
      assert (a + b)[|a + b| - 1] == b[|b| - 1];
    }
  }

  lemma {:induction false} ForeignLogsAppend(a: seq<Datagram>, b: seq<Datagram>)
    ensures ToForeignOnly(a + b) == ToForeignOnly(a) + ToForeignOnly(b)
  {
    if b == [] {
      assert a + b == a;
    } else {
      var earlier := b[..|b| - 1];
      ForeignLogsAppend(a, earlier);
      assert (a + b)[..|a + b| - 1] == a + earlier;
      assert (a + b)[|a + b| - 1] == b[|b| - 1];
    }
  }

  lemma {:induction false} LogsAppend(a: seq<Datagram>, b: seq<Datagram>)
    ensures ToPeerOnly(a + b) == ToPeerOnly(a) + ToPeerOnly(b)
    ensures ToForeignOnly(a + b) == ToForeignOnly(a) + ToForeignOnly(b)
  {
    PeerLogsAppend(a, b);
    ForeignLogsAppend(a, b);
  }

  // At most one datagram, and that to the peer.
  predicate ForPeer(sent: seq<Datagram>) {
    sent == [] || (|sent| == 1 && sent[0].to == Peer)
  }

  lemma {:induction false} ForPeerLogs(sent: seq<Datagram>, stray: Datagram)
    requires ForPeer(sent) && stray.to != Peer
    ensures ToPeerOnly(sent) == sent && ToForeignOnly(sent) == []
    ensures ToPeerOnly([stray] + sent) == sent && ToForeignOnly([stray] + sent) == [stray]
  {
    LogsAppend([stray], sent);
    assert [stray][..0] == [] && sent[..0] == [];
  }

  // What a wait does with a stray, compared with what it does with a packet the loop ignores.
  predicate Indifferent(withStray: seq<Datagram>, without: seq<Datagram>, replies: seq<Datagram>) {
    ToPeerOnly(withStray) == without && ToPeerOnly(without) == without
    && ToForeignOnly(without) == [] && ToForeignOnly(withStray) == replies
  }

  lemma IndifferentLogs(log: seq<Datagram>, log': seq<Datagram>, sent: seq<Datagram>, sent': seq<Datagram>,
                        replies: seq<Datagram>, more: seq<Datagram>)
    requires Indifferent(log, log', replies) && Indifferent(sent, sent', more)
    ensures Indifferent(log + sent, log' + sent', replies + more)
  {
    LogsAppend(log, sent);
    LogsAppend(log', sent');
  }

  lemma SenderTopForPeer(file: Bytes, k: nat, clock: Clock, sendOk: bool, stray: Datagram)
    requires k >= 1 && stray.to != Peer
    ensures var (s, sent) := SenderTop(file, k, clock, sendOk);
            s.status != Handshake && Indifferent(sent, sent, []) && Indifferent([stray] + sent, sent, [stray])
  {
    ForPeerLogs(SenderTop(file, k, clock, sendOk).1, stray);
  }

  lemma SenderIsDeaf(role: Role, file: Bytes, s: Sender, w: Wait)
    requires s.k >= 1 && s.status.Ended?
    ensures SenderWait(role, file, s, w) == (s, [])
  {
  }

  lemma ReceiverIsDeaf(role: Role, r: Receiver, w: Wait)
    requires r.status.Ended?
    ensures ReceiverWait(role, r, w) == (r, [])
  {
  }

  lemma SenderIgnoresStray(role: Role, file: Bytes, s: Sender, w: Wait, ignored: Bytes)
    requires s.k >= 1 && s.status == Waiting && GetOpcode(Received(ignored)) != Ack
    ensures var (s1, sent1) := SenderWait(role, file, s, w);
            var (s2, sent2) := SenderWait(role, file, s, ReplaceOne(w, ignored));
            s1 == s2 && s1.status != Handshake && Indifferent(sent1, sent2, Reply(w, UnknownTransfer(role == Server)))
  {
    hide UnknownTransfer, GetOpcode, GetBlockNumber, Received, SenderTop, Indifferent;
    var clock := Elapse(s.clock, w.ms);
    var stray := if IsStray(w.arrival) then Datagram(w.arrival.from, UnknownTransfer(role == Server))
                 else Datagram(Foreign(0), []);
    SenderTopForPeer(file, s.k, clock, w.sendOk, stray);
    SenderTopForPeer(file, s.k + 1, Rewind(clock), w.sendOk, stray);
  }

  /**
    Replacing every stray by a wrong-opcode packet from the peer, with the same timing, leaves the sender in the
    same state after every wait and what it sends to the peer unchanged; what goes to others is exactly one ERROR 5
    for each stray that comes before the loop ends, to its origin.
   */
  lemma {:induction false} StraysDoNotTouchSender(role: Role, file: Bytes, firstOk: bool, waits: seq<Wait>,
                                                  ignored: Bytes)
    requires GetOpcode(Received(ignored)) != Ack
    ensures var (s1, log1) := SenderFrom(role, file, firstOk, waits);
            var (s2, log2) := SenderFrom(role, file, firstOk, Replace(waits, ignored));
            var seen := SenderWaitsSeen(role, file, firstOk, waits);
            && s1 == s2 && s1.status != Handshake && Indifferent(log1, log2, ToForeignOnly(log1))
            && (!s1.status.Ended? ==> seen == |waits|)
            && ToForeignOnly(log1) == Replies(waits[..seen], UnknownTransfer(role == Server))
  {
    if waits == [] {
      SenderTopForPeer(file, 1, START, firstOk, Datagram(Foreign(0), []));
    } else {
      hide UnknownTransfer, GetOpcode, Received, SenderWait, SenderTop, ToPeerOnly, ToForeignOnly, Reply, ReplaceOne;
      var earlier := waits[..|waits| - 1];
      var w := waits[|waits| - 1];
      StraysDoNotTouchSender(role, file, firstOk, earlier, ignored);
      assert Replace(waits, ignored)[..|waits| - 1] == Replace(earlier, ignored);
      var seen := SenderWaitsSeen(role, file, firstOk, earlier);
      var (s, log1) := SenderFrom(role, file, firstOk, earlier);
      var log2 := SenderFrom(role, file, firstOk, Replace(earlier, ignored)).1;
      if s.status.Ended? {
        SenderIsDeaf(role, file, s, w);
        SenderIsDeaf(role, file, s, ReplaceOne(w, ignored));
        assert log1 + [] == log1 && log2 + [] == log2;
        assert waits[..seen] == earlier[..seen];
      } else {
        assert earlier[..seen] == earlier && waits[..|waits|] == waits;
        SenderIgnoresStray(role, file, s, w, ignored);
        IndifferentLogs(log1, log2, SenderWait(role, file, s, w).1,
                        SenderWait(role, file, s, ReplaceOne(w, ignored)).1,
                        ToForeignOnly(log1), Reply(w, UnknownTransfer(role == Server)));
      }
    }
  }

  lemma ReceiverTopForPeer(r: Receiver, sendOk: bool, stray: Datagram)
    requires stray.to != Peer
    ensures var (r', sent) := ReceiverTop(r, sendOk);
            r'.status != Handshake && Indifferent(sent, sent, []) && Indifferent([stray] + sent, sent, [stray])
  {
    ForPeerLogs(ReceiverTop(r, sendOk).1, stray);
  }

  lemma NothingIsIndifferent()
    ensures Indifferent([], [], [])
  {
  }

  lemma ReceiverHearsPeer(role: Role, r: Receiver, w: Wait)
    requires r.status == Waiting && !IsStray(w.arrival)
    ensures var (r', sent) := ReceiverWait(role, r, w);
            r'.status != Handshake && Indifferent(sent, sent, [])
  {
    NothingIsIndifferent();
    hide UnknownTransfer, GetOpcode, GetBlockNumber, GetData, Received, ReceiverTop, Indifferent;
    hide IsNextBlock, Accept, LastBlockSeen;
    var later := r.(clock := Elapse(r.clock, w.ms));
    ReceiverTopForPeer(later, w.sendOk, Datagram(Foreign(0), []));
    if w.arrival.Packet? && IsNextBlock(r.c, Received(w.arrival.bytes)) {
      ReceiverTopForPeer(Accept(later, Received(w.arrival.bytes)), w.sendOk, Datagram(Foreign(0), []));
    }
  }

  lemma ReceiverIgnoresStray(role: Role, r: Receiver, w: Wait, ignored: Bytes)
    requires r.status == Waiting && GetOpcode(Received(ignored)) != Data
    ensures var (r1, sent1) := ReceiverWait(role, r, w);
            var (r2, sent2) := ReceiverWait(role, r, ReplaceOne(w, ignored));
            r1 == r2 && r1.status != Handshake && Indifferent(sent1, sent2, Reply(w, UnknownTransfer(false)))
  {
    if IsStray(w.arrival) {
      hide UnknownTransfer, GetOpcode, GetBlockNumber, GetData, Received, ReceiverTop, Indifferent;
      var later := r.(clock := Elapse(r.clock, w.ms));
      ReceiverTopForPeer(later, w.sendOk, Datagram(w.arrival.from, UnknownTransfer(false)));
    } else {
      ReceiverHearsPeer(role, r, w);
    }
  }

  /** The same for either receiving loop and any packet that is not DATA. */
  lemma {:induction false} StraysDoNotTouchReceiver(role: Role, r: Receiver, firstOk: bool, waits: seq<Wait>,
                                                    ignored: Bytes)
    requires GetOpcode(Received(ignored)) != Data && r.status == Waiting
    ensures var (r1, log1) := ReceiverFrom(role, r, firstOk, waits);
            var (r2, log2) := ReceiverFrom(role, r, firstOk, Replace(waits, ignored));
            var seen := ReceiverWaitsSeen(role, r, firstOk, waits);
            && r1 == r2 && r1.status != Handshake && Indifferent(log1, log2, ToForeignOnly(log1))
            && (!r1.status.Ended? ==> seen == |waits|)
            && ToForeignOnly(log1) == Replies(waits[..seen], UnknownTransfer(false))
  {
    if waits == [] {
      ReceiverTopForPeer(r, firstOk, Datagram(Foreign(0), []));
    } else {
      hide UnknownTransfer, GetOpcode, Received, ReceiverWait, ReceiverTop, ToPeerOnly, ToForeignOnly, Reply;
      hide ReplaceOne;
      var earlier := waits[..|waits| - 1];
      var w := waits[|waits| - 1];
      StraysDoNotTouchReceiver(role, r, firstOk, earlier, ignored);
      assert Replace(waits, ignored)[..|waits| - 1] == Replace(earlier, ignored);
      var seen := ReceiverWaitsSeen(role, r, firstOk, earlier);
      var (r1, log1) := ReceiverFrom(role, r, firstOk, earlier);
      var log2 := ReceiverFrom(role, r, firstOk, Replace(earlier, ignored)).1;
      if r1.status.Ended? {
        ReceiverIsDeaf(role, r1, w);
        ReceiverIsDeaf(role, r1, ReplaceOne(w, ignored));
        assert log1 + [] == log1 && log2 + [] == log2;
        assert waits[..seen] == earlier[..seen];
      } else {
        assert earlier[..seen] == earlier && waits[..|waits|] == waits;
        ReceiverIgnoresStray(role, r1, w, ignored);
        IndifferentLogs(log1, log2, ReceiverWait(role, r1, w).1, ReceiverWait(role, r1, ReplaceOne(w, ignored)).1,
                        ToForeignOnly(log1), Reply(w, UnknownTransfer(false)));
      }
    }
  }
}
