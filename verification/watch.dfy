/** When the watchdog ends a loop: exactly when ten seconds have passed without an accepted packet. */
module Watch {
  import opened Packet
  import opened Chunks
  import opened Machine
  import opened Runs

  // What a loop shows after each wait: how many blocks it has got through, whether it has ended, and its clock.
  datatype Sample = Sample(progress: nat, ended: bool, clock: Clock)

  predicate Follows(a: Sample, w: Wait, b: Sample) {
    if a.ended then b == a else
    var clock := Elapse(a.clock, w.ms);
    && b.clock.expired == clock.expired
    && ((b.progress == a.progress && b.clock.sinceReset == clock.sinceReset)
        || (b.progress == a.progress + 1 && b.clock.sinceReset == 0))
  }

  ghost predicate IsTrace(samples: seq<Sample>, waits: seq<Wait>) {
    && |samples| == |waits| + 1
    && !samples[0].clock.expired && samples[0].clock.sinceReset == 0
    && forall i | 0 <= i < |waits| :: Follows(samples[i], waits[i], samples[i + 1])
  }

  function Time(waits: seq<Wait>): nat {
    if waits == [] then 0 else Time(waits[..|waits| - 1]) + waits[|waits| - 1].ms
  }

  // Waits i to j - 1 take at least ten seconds, and none before the last of them brings progress.
  predicate Quiet(samples: seq<Sample>, waits: seq<Wait>, i: nat, j: nat)
    requires |samples| == |waits| + 1
  {
    && i < j <= |waits| && !samples[j - 1].ended
    && samples[i].progress == samples[j - 1].progress
    && Time(waits[i..j]) >= 10000
  }

  ghost predicate HasQuiet(samples: seq<Sample>, waits: seq<Wait>)
    requires |samples| == |waits| + 1
  {
    exists i: nat, j: nat :: Quiet(samples, waits, i, j)
  }

  lemma TimeGrows(waits: seq<Wait>, i: nat, m: nat)
    requires i <= m < |waits|
    ensures Time(waits[i..m + 1]) == Time(waits[i..m]) + waits[m].ms
  {
    assert waits[i..m + 1][..m - i] == waits[i..m];
  }

  lemma {:induction false} ProgressNeverFalls(samples: seq<Sample>, waits: seq<Wait>, i: nat, m: nat)
    requires IsTrace(samples, waits) && i <= m <= |waits|
    ensures samples[i].progress <= samples[m].progress
    ensures samples[i].ended ==> samples[m].ended
    ensures samples[i].clock.expired ==> samples[m].clock.expired
  {
    if i < m {
      ProgressNeverFalls(samples, waits, i, m - 1);
      assert Follows(samples[m - 1], waits[m - 1], samples[m]);
    }
  }

  // The time since the last reset is at least the time of any stretch without progress that ends now.
  lemma {:induction false} ResetIsOlder(samples: seq<Sample>, waits: seq<Wait>, i: nat, m: nat)
    requires IsTrace(samples, waits) && i <= m <= |waits|
    requires !samples[m].ended && samples[i].progress == samples[m].progress
    ensures Time(waits[i..m]) <= samples[m].clock.sinceReset
  {
    if i < m {
      assert Follows(samples[m - 1], waits[m - 1], samples[m]);
      ProgressNeverFalls(samples, waits, i, m - 1);
      ProgressNeverFalls(samples, waits, m - 1, m);
      ResetIsOlder(samples, waits, i, m - 1);
      TimeGrows(waits, i, m - 1);
    } else {
      assert waits[i..m] == [];
    }
  }

  // And for one such stretch it is exactly that time.
  lemma {:induction false} LastReset(samples: seq<Sample>, waits: seq<Wait>, m: nat) returns (i: nat)
    requires IsTrace(samples, waits) && m <= |waits| && !samples[m].ended
    ensures i <= m && samples[i].progress == samples[m].progress
    ensures Time(waits[i..m]) == samples[m].clock.sinceReset
  {
    i := m;
    assert waits[i..m] == [];
    if m > 0 {
      assert Follows(samples[m - 1], waits[m - 1], samples[m]);
      ProgressNeverFalls(samples, waits, m - 1, m);
      if samples[m].progress == samples[m - 1].progress {
        i := LastReset(samples, waits, m - 1);
        TimeGrows(waits, i, m - 1);
      }
    }
  }

  lemma {:induction false} ExpiryHasQuiet(samples: seq<Sample>, waits: seq<Wait>, m: nat)
    requires IsTrace(samples, waits) && m <= |waits| && samples[m].clock.expired
    ensures HasQuiet(samples, waits)
  {
    assert m > 0;
    assert Follows(samples[m - 1], waits[m - 1], samples[m]);
    if samples[m - 1].clock.expired {
      ExpiryHasQuiet(samples, waits, m - 1);
    } else {
      var i := LastReset(samples, waits, m - 1);
      TimeGrows(waits, i, m - 1);
      assert Quiet(samples, waits, i, m);
    }
  }

  /** The flag is up exactly if some ten seconds went by without progress. */
  lemma ExpiredExactlyAfterQuiet(samples: seq<Sample>, waits: seq<Wait>)
    requires IsTrace(samples, waits)
    ensures samples[|waits|].clock.expired <==> HasQuiet(samples, waits)
  {
    if samples[|waits|].clock.expired {
      ExpiryHasQuiet(samples, waits, |waits|);
    }
    forall i: nat, j: nat | Quiet(samples, waits, i, j)
      ensures samples[|waits|].clock.expired
    {
      ResetIsOlder(samples, waits, i, j - 1);
      TimeGrows(waits, i, j - 1);
      assert Follows(samples[j - 1], waits[j - 1], samples[j]);
      ProgressNeverFalls(samples, waits, j, |waits|);
    }
  }

  // ----- The two kinds of loop -----

  function SenderSamples(role: Role, file: Bytes, firstOk: bool, waits: seq<Wait>): seq<Sample> {
    seq(|waits| + 1, i requires 0 <= i <= |waits| =>
      var s := SenderFrom(role, file, firstOk, waits[..i]).0; Sample(s.k, s.status.Ended?, s.clock))
  }

  function ReceiverSamples(role: Role, r: Receiver, firstOk: bool, waits: seq<Wait>): seq<Sample> {
    seq(|waits| + 1, i requires 0 <= i <= |waits| =>
      var s := ReceiverFrom(role, r, firstOk, waits[..i]).0; Sample(s.c, s.status.Ended?, s.clock))
  }

  // A loop that waits has just seen the flag down, and one that timed out has seen it up.
  predicate FlagSeen(status: Status, clock: Clock) {
    && status != Handshake
    && (status == Waiting ==> !clock.expired)
    && (status == Ended(TimedOut) ==> clock.expired)
  }

  lemma SenderWaitFollows(role: Role, file: Bytes, s: Sender, w: Wait)
    requires s.k >= 1 && FlagSeen(s.status, s.clock)
    ensures var s' := SenderWait(role, file, s, w).0;
            && Follows(Sample(s.k, s.status.Ended?, s.clock), w, Sample(s'.k, s'.status.Ended?, s'.clock))
            && FlagSeen(s'.status, s'.clock) && s'.k >= 1
  {
    hide Received, GetOpcode, GetBlockNumber, NumChunks, DataPacket, UnknownTransfer;
  }

  lemma {:induction false} SenderTraces(role: Role, file: Bytes, firstOk: bool, waits: seq<Wait>, m: nat)
    requires m <= |waits|
    ensures var s := SenderFrom(role, file, firstOk, waits[..m]).0; FlagSeen(s.status, s.clock)
    ensures m < |waits| ==>
              var samples := SenderSamples(role, file, firstOk, waits); Follows(samples[m], waits[m], samples[m + 1])
  {
    if m > 0 {
      SenderTraces(role, file, firstOk, waits, m - 1);
      assert waits[..m][..m - 1] == waits[..m - 1];
      SenderWaitFollows(role, file, SenderFrom(role, file, firstOk, waits[..m - 1]).0, waits[m - 1]);
    }
    if m < |waits| {
      assert waits[..m + 1][..m] == waits[..m];
      SenderWaitFollows(role, file, SenderFrom(role, file, firstOk, waits[..m]).0, waits[m]);
    }
  }

  /**
    A sending loop that timed out went through ten seconds without an acknowledged block, and one that still waits
    did not.
   */
  lemma SenderTimesOutAfterQuiet(role: Role, file: Bytes, firstOk: bool, waits: seq<Wait>)
    ensures var status := SenderFrom(role, file, firstOk, waits).0.status;
            var samples := SenderSamples(role, file, firstOk, waits);
            && (status == Ended(TimedOut) ==> HasQuiet(samples, waits))
            && (status == Waiting ==> !HasQuiet(samples, waits))
  {
    hide Follows, HasQuiet, SenderFrom;
    var samples := SenderSamples(role, file, firstOk, waits);
    forall m | 0 <= m < |waits|
      ensures Follows(samples[m], waits[m], samples[m + 1])
    {
      SenderTraces(role, file, firstOk, waits, m);
    }
    SenderTraces(role, file, firstOk, waits, |waits|);
    SenderSampleStarts(role, file, firstOk, waits);
    ExpiredExactlyAfterQuiet(samples, waits);
    assert waits[..|waits|] == waits;
  }

  lemma SenderSampleStarts(role: Role, file: Bytes, firstOk: bool, waits: seq<Wait>)
    ensures var samples := SenderSamples(role, file, firstOk, waits);
            !samples[0].clock.expired && samples[0].clock.sinceReset == 0
  {
    assert waits[..0] == [];
  }

  lemma ReceiverWaitFollows(role: Role, r: Receiver, w: Wait)
    requires FlagSeen(r.status, r.clock)
    ensures var r' := ReceiverWait(role, r, w).0;
            && Follows(Sample(r.c, r.status.Ended?, r.clock), w, Sample(r'.c, r'.status.Ended?, r'.clock))
            && FlagSeen(r'.status, r'.clock)
  {
    hide Received, GetOpcode, GetBlockNumber, GetData, UnknownTransfer;
  }

  lemma {:induction false} ReceiverTraces(role: Role, r: Receiver, firstOk: bool, waits: seq<Wait>, m: nat)
    requires m <= |waits| && r.status == Waiting && r.clock == START
    ensures var s := ReceiverFrom(role, r, firstOk, waits[..m]).0; FlagSeen(s.status, s.clock)
    ensures m < |waits| ==>
              var samples := ReceiverSamples(role, r, firstOk, waits); Follows(samples[m], waits[m], samples[m + 1])
  {
    if m > 0 {
      ReceiverTraces(role, r, firstOk, waits, m - 1);
      assert waits[..m][..m - 1] == waits[..m - 1];
      ReceiverWaitFollows(role, ReceiverFrom(role, r, firstOk, waits[..m - 1]).0, waits[m - 1]);
    }
    if m < |waits| {
      assert waits[..m + 1][..m] == waits[..m];
      ReceiverWaitFollows(role, ReceiverFrom(role, r, firstOk, waits[..m]).0, waits[m]);
    }
  }

  lemma ReceiverSampleStarts(role: Role, r: Receiver, firstOk: bool, waits: seq<Wait>)
    requires r.clock == START
    ensures var samples := ReceiverSamples(role, r, firstOk, waits);
            !samples[0].clock.expired && samples[0].clock.sinceReset == 0
  {
    assert waits[..0] == [];
  }

  /** The same for either receiving loop and ten seconds without an accepted block. */
  lemma ReceiverTimesOutAfterQuiet(role: Role, r: Receiver, firstOk: bool, waits: seq<Wait>)
    requires r.status == Waiting && r.clock == START
    ensures var status := ReceiverFrom(role, r, firstOk, waits).0.status;
            var samples := ReceiverSamples(role, r, firstOk, waits);
            && (status == Ended(TimedOut) ==> HasQuiet(samples, waits))
            && (status == Waiting ==> !HasQuiet(samples, waits))
  {
    hide Follows, HasQuiet, ReceiverFrom;
    var samples := ReceiverSamples(role, r, firstOk, waits);
    forall m | 0 <= m < |waits|
      ensures Follows(samples[m], waits[m], samples[m + 1])
    {
      ReceiverTraces(role, r, firstOk, waits, m);
    }
    ReceiverTraces(role, r, firstOk, waits, |waits|);
    ReceiverSampleStarts(role, r, firstOk, waits);
    ExpiredExactlyAfterQuiet(samples, waits);
    assert waits[..|waits|] == waits;
  }
}
