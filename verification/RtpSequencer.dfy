/** Sequence numbers and timestamps of the video packets: `broadcast_frame` and
    `send_optimized_packets` of `server/src/webrtc/transport.rs`, fed by the
    `pts` stepping of `h264_hardware_loop` in `server/src/main.rs`. */
module RtpSequencer {
  import opened RtpPacketizer

  type ConnectionId = string

  const SEQ_MOD := 0x1_0000
  const TS_MOD := 0x1_0000_0000
  const PTS_MOD := 0x1_0000_0000_0000_0000

  /** A packet `write_rtp` accepted, with the number of the frame it belongs to. */
  datatype Sent = Sent(sequenceNumber: nat, timestamp: nat, shared: SharedPacket, frame: nat)

  // ---- timestamps ----

  function PtsStep(fps: nat): (step: nat)
    ensures 1 <= step <= 90_000
  {
    var perSecond := if fps >= 1 then fps else 1;
    DivBounds(90_000, perSecond);
    if 90_000 / perSecond >= 1 then 90_000 / perSecond else 1
  }

  lemma {:induction false} DivBounds(a: nat, b: nat)
    requires b >= 1
    ensures 0 <= a / b <= a
  {}

  /** The sum of the steps of the first n frames, whose rates `fps` lists. */
  function Elapsed(fps: seq<nat>, n: nat): nat
    requires n <= |fps|
  {
    if n == 0 then 0 else Elapsed(fps, n - 1) + PtsStep(fps[n - 1])
  }

  /** The step is 90 kHz over the rate, rounded down, but never 0: 90000 when no
      rate is set, and 1 above 90000 frames per second. */
  lemma {:induction false} StepIsRate(fps: nat)
    ensures 1 <= fps <= 90_000 ==> fps * PtsStep(fps) <= 90_000 < fps * (PtsStep(fps) + 1)
    ensures fps == 0 ==> PtsStep(fps) == 90_000
    ensures fps > 90_000 ==> PtsStep(fps) == 1
  {
    if fps > 0 {
      var q := 90_000 / fps;
      assert fps * q <= 90_000 < fps * (q + 1);
    }
  }

  lemma {:induction false} ConstantRate(fps: seq<nat>, rate: nat, n: nat, k: nat)
    requires n + k <= |fps| && forall i :: n <= i < n + k ==> fps[i] == rate
    ensures Elapsed(fps, n + k) == Elapsed(fps, n) + k * PtsStep(rate)
  {
    hide PtsStep;
    if k == 0 {
    } else {
      ConstantRate(fps, rate, n, k - 1);
      assert fps[n + k - 1] == rate;
      assert k * PtsStep(rate) == (k - 1) * PtsStep(rate) + PtsStep(rate);
    }
  }

  /** As many frames as the rate says, wherever in the stream, take a second of
      the 90 kHz clock, less than one tick per frame short. */
  lemma {:induction false} SecondOfFrames(fps: seq<nat>, rate: nat, n: nat)
    requires 1 <= rate <= 90_000 && n + rate <= |fps| && forall i :: n <= i < n + rate ==> fps[i] == rate
    ensures 90_000 - rate < Elapsed(fps, n + rate) - Elapsed(fps, n) <= 90_000
  {
    ConstantRate(fps, rate, n, rate);
    StepIsRate(rate);
    hide *;
    OneMoreStep(rate, PtsStep(rate));
  }

  lemma {:induction false} OneMoreStep(rate: nat, step: nat)
    ensures rate * (step + 1) == rate * step + rate
  {}

  /** The RTP timestamp of frame n. */
  function FrameTimestamp(fps: seq<nat>, n: nat): nat
    requires n <= |fps|
  {
    Elapsed(fps, n) % TS_MOD
  }

  lemma {:induction false} ElapsedExtends(fps: seq<nat>, more: seq<nat>, n: nat)
    requires n <= |fps|
    ensures Elapsed(fps + more, n) == Elapsed(fps, n)
  {
    if n == 0 {
    } else {
      ElapsedExtends(fps, more, n - 1);
    }
  }

  lemma {:induction false} ElapsedGap(fps: seq<nat>, n: nat, m: nat)
    requires n <= m <= |fps|
    ensures m - n <= Elapsed(fps, m) - Elapsed(fps, n) <= 90_000 * (m - n)
    decreases m
  {
    if n < m { ElapsedGap(fps, n, m - 1); }
  }

  /** Frames less than 47722 apart never share a timestamp, despite the wrap. */
  lemma {:induction false} NearbyFramesDiffer(fps: seq<nat>, n: nat, m: nat)
    requires n < m <= |fps| && m - n <= 47_721
    ensures FrameTimestamp(fps, n) != FrameTimestamp(fps, m)
  {
    ElapsedGap(fps, n, m);
  }

  // ---- sequence numbers ----

  /** The packets that get through when the writes end as `outcomes` says. */
  function Stamp(next: nat, timestamp: nat, frame: nat, packets: seq<SharedPacket>, outcomes: seq<bool>): seq<Sent>
    requires |packets| == |outcomes|
    decreases |packets|
  {
    if packets == [] then []
    else if outcomes[0] then
      [Sent(next, timestamp, packets[0], frame)]
      + Stamp((next + 1) % SEQ_MOD, timestamp, frame, packets[1..], outcomes[1..])
    else Stamp(next, timestamp, frame, packets[1..], outcomes[1..])
  }

  /** Consecutive numbers from 0 without gap or repeat, modulo 2^16. */
  ghost predicate Consecutive(wire: seq<Sent>) {
    forall k :: 0 <= k < |wire| ==> wire[k].sequenceNumber == k % SEQ_MOD
  }

  /** Every packet carries the timestamp of its frame, and frames do not go back. */
  ghost predicate Timed(wire: seq<Sent>, fps: seq<nat>) {
    && (forall k :: 0 <= k < |wire| ==> wire[k].frame <= |fps| && wire[k].timestamp == FrameTimestamp(fps, wire[k].frame))
    && (forall j, k :: 0 <= j < k < |wire| ==> wire[j].frame <= wire[k].frame)
  }

  lemma {:induction false} StampKeepsConsecutive(
    wire: seq<Sent>, timestamp: nat, frame: nat, packets: seq<SharedPacket>, outcomes: seq<bool>)
    requires Consecutive(wire) && |packets| == |outcomes|
    ensures Consecutive(wire + Stamp(|wire| % SEQ_MOD, timestamp, frame, packets, outcomes))
    decreases |packets|
  {
    var next := |wire| % SEQ_MOD;
    if packets == [] {
      assert wire + [] == wire;
    } else if outcomes[0] {
      var wire' := wire + [Sent(next, timestamp, packets[0], frame)];
      StampKeepsConsecutive(wire', timestamp, frame, packets[1..], outcomes[1..]);
      assert |wire'| % SEQ_MOD == (next + 1) % SEQ_MOD;
      assert wire + Stamp(next, timestamp, frame, packets, outcomes)
          == wire' + Stamp((next + 1) % SEQ_MOD, timestamp, frame, packets[1..], outcomes[1..]);
    } else {
      StampKeepsConsecutive(wire, timestamp, frame, packets[1..], outcomes[1..]);
    }
  }

  lemma {:induction false} StampedAlike(next: nat, timestamp: nat, frame: nat, packets: seq<SharedPacket>, outcomes: seq<bool>)
    requires |packets| == |outcomes|
    ensures forall k :: 0 <= k < |Stamp(next, timestamp, frame, packets, outcomes)| ==>
              Stamp(next, timestamp, frame, packets, outcomes)[k].timestamp == timestamp
              && Stamp(next, timestamp, frame, packets, outcomes)[k].frame == frame
    decreases |packets|
  {
    if packets == [] {
    } else {
      StampedAlike(if outcomes[0] then (next + 1) % SEQ_MOD else next, timestamp, frame, packets[1..], outcomes[1..]);
    }
  }

  lemma {:induction false} StampKeepsTimed(
    wire: seq<Sent>, fps: seq<nat>, next: nat, packets: seq<SharedPacket>, outcomes: seq<bool>)
    requires Timed(wire, fps) && |packets| == |outcomes|
    ensures Timed(wire + Stamp(next, FrameTimestamp(fps, |fps|), |fps|, packets, outcomes), fps)
  {
    StampedAlike(next, FrameTimestamp(fps, |fps|), |fps|, packets, outcomes);
    hide Stamp, FrameTimestamp;
  }

  lemma {:induction false} TimedExtends(wire: seq<Sent>, fps: seq<nat>, next: nat)
    requires Timed(wire, fps)
    ensures Timed(wire, fps + [next])
  {
    forall k | 0 <= k < |wire|
      ensures FrameTimestamp(fps + [next], wire[k].frame) == FrameTimestamp(fps, wire[k].frame)
    {
      ElapsedExtends(fps, [next], wire[k].frame);
    }
  }

  /** The write loop, one packet at a time: the loop has sent the first n. */
  lemma {:induction false} StampStep(
    next: nat, timestamp: nat, frame: nat, packets: seq<SharedPacket>, outcomes: seq<bool>, n: nat)
    requires |packets| == |outcomes| && n < |packets|
    ensures var done := Stamp(next, timestamp, frame, packets[..n], outcomes[..n]);
            var cur := (next + |done|) % SEQ_MOD;
            next < SEQ_MOD ==>
              Stamp(next, timestamp, frame, packets[..n + 1], outcomes[..n + 1])
              == if outcomes[n] then done + [Sent(cur, timestamp, packets[n], frame)] else done
    decreases n
  {
    hide Stamp;
    if next < SEQ_MOD {
      var rest := if outcomes[0] then (next + 1) % SEQ_MOD else next;
      StampHead(next, timestamp, frame, packets, outcomes, n + 1);
      if n == 0 {
        StampNone(rest, timestamp, frame, packets[1..], outcomes[1..]);
        StampNone(next, timestamp, frame, packets, outcomes);
      } else {
        StampHead(next, timestamp, frame, packets, outcomes, n);
        StampStep(rest, timestamp, frame, packets[1..], outcomes[1..], n - 1);
        var done := Stamp(rest, timestamp, frame, packets[1..][..n - 1], outcomes[1..][..n - 1]);
        CountsOn(next, |done|);
        assert packets[1..][n - 1] == packets[n] && outcomes[1..][n - 1] == outcomes[n];
      }
    }
  }

  lemma {:induction false} CountsOn(next: nat, k: nat)
    ensures ((next + 1) % SEQ_MOD + k) % SEQ_MOD == (next + 1 + k) % SEQ_MOD
  {}

  /** The first of n packets. */
  lemma {:induction false} StampHead(
    next: nat, timestamp: nat, frame: nat, packets: seq<SharedPacket>, outcomes: seq<bool>, n: nat)
    requires 0 < n <= |packets| == |outcomes|
    ensures Stamp(next, timestamp, frame, packets[..n], outcomes[..n])
         == (if outcomes[0] then [Sent(next, timestamp, packets[0], frame)] else [])
            + Stamp(if outcomes[0] then (next + 1) % SEQ_MOD else next, timestamp, frame, packets[1..][..n - 1], outcomes[1..][..n - 1])
  {
    assert packets[..n][1..] == packets[1..][..n - 1] && outcomes[..n][1..] == outcomes[1..][..n - 1];
  }

  /** The write loop of `send_optimized_packets`. */
  method WritePackets(next: nat, timestamp: nat, packets: seq<SharedPacket>, outcomes: seq<bool>, ghost frame: nat)
    returns (ghost written: seq<Sent>, sequenceNumber: nat)
    requires |packets| == |outcomes| && next < SEQ_MOD
    ensures written == Stamp(next, timestamp, frame, packets, outcomes)
    ensures sequenceNumber == (next + |Stamp(next, timestamp, frame, packets, outcomes)|) % SEQ_MOD
  {
    hide Stamp;
    written := [];
    sequenceNumber := next;
    StampNone(next, timestamp, frame, packets, outcomes);
    for n := 0 to |packets|
      invariant written == Stamp(next, timestamp, frame, packets[..n], outcomes[..n])
      invariant sequenceNumber == (next + |written|) % SEQ_MOD
    {
      StampStep(next, timestamp, frame, packets, outcomes, n);
      if outcomes[n] {
        written := written + [Sent(sequenceNumber, timestamp, packets[n], frame)];
        sequenceNumber := (sequenceNumber + 1) % SEQ_MOD;
      }
    }
    assert packets[..|packets|] == packets && outcomes[..|packets|] == outcomes;
  }

  lemma {:induction false} StampNone(next: nat, timestamp: nat, frame: nat, packets: seq<SharedPacket>, outcomes: seq<bool>)
    requires |packets| == |outcomes|
    ensures Stamp(next, timestamp, frame, packets[..0], outcomes[..0]) == []
  {}

  /** How many of the first n writes got through. */
  function Through(outcomes: seq<bool>, n: nat): (k: nat)
    requires n <= |outcomes|
    ensures k <= n
  {
    if n == 0 then 0 else Through(outcomes, n - 1) + if outcomes[n - 1] then 1 else 0
  }

  /** Exactly the packets whose write got through are on the track, in order, the
      k-th of them with the k-th number from `next` on, modulo 2^16. */
  lemma {:induction false} StampDelivers(
    next: nat, timestamp: nat, frame: nat, packets: seq<SharedPacket>, outcomes: seq<bool>, n: nat)
    requires |packets| == |outcomes| && n <= |packets| && next < SEQ_MOD
    ensures var sent := Stamp(next, timestamp, frame, packets[..n], outcomes[..n]);
            && |sent| == Through(outcomes, n)
            && forall i :: 0 <= i < n && outcomes[i] ==>
                 Through(outcomes, i) < |sent|
                 && sent[Through(outcomes, i)] == Sent((next + Through(outcomes, i)) % 65_536, timestamp, packets[i], frame)
  {
    hide Stamp;
    if n == 0 {
      StampNone(next, timestamp, frame, packets, outcomes);
    } else {
      StampDelivers(next, timestamp, frame, packets, outcomes, n - 1);
      StampStep(next, timestamp, frame, packets, outcomes, n - 1);
      hide Through;
      assert Through(outcomes, n) == Through(outcomes, n - 1) + if outcomes[n - 1] then 1 else 0 by { ThroughStep(outcomes, n); }
    }
  }

  lemma {:induction false} ThroughStep(outcomes: seq<bool>, n: nat)
    requires 0 < n <= |outcomes|
    ensures Through(outcomes, n) == Through(outcomes, n - 1) + if outcomes[n - 1] then 1 else 0
  {}

  /** A track: what it has taken, and the number its connection goes on from. */
  ghost predicate GoodTrack(wire: seq<Sent>, fps: seq<nat>) {
    Consecutive(wire) && Timed(wire, fps)
  }

  lemma {:induction false} StampKeepsGoodTrack(wire: seq<Sent>, fps: seq<nat>, packets: seq<SharedPacket>, outcomes: seq<bool>)
    requires GoodTrack(wire, fps) && |packets| == |outcomes|
    ensures var more := Stamp(|wire| % SEQ_MOD, FrameTimestamp(fps, |fps|), |fps|, packets, outcomes);
            GoodTrack(wire + more, fps) && |wire + more| % SEQ_MOD == (|wire| % SEQ_MOD + |more|) % SEQ_MOD
  {
    StampKeepsConsecutive(wire, FrameTimestamp(fps, |fps|), |fps|, packets, outcomes);
    StampKeepsTimed(wire, fps, |wire| % SEQ_MOD, packets, outcomes);
  }

  lemma {:induction false} GoodTrackExtends(wire: seq<Sent>, fps: seq<nat>, next: nat)
    requires GoodTrack(wire, fps)
    ensures GoodTrack(wire, fps + [next])
  {
    TimedExtends(wire, fps, next);
  }

  lemma {:induction false} PtsAdvances(fps: seq<nat>, next: nat)
    ensures (Elapsed(fps, |fps|) % PTS_MOD + PtsStep(next)) % PTS_MOD
            == Elapsed(fps + [next], |fps| + 1) % PTS_MOD
    ensures Elapsed(fps, |fps|) % PTS_MOD % 4_294_967_296 == FrameTimestamp(fps, |fps|)
    ensures FrameTimestamp(fps, 0) == 0
  {
    ElapsedExtends(fps, [next], |fps|);
    var total, step := Elapsed(fps, |fps|), PtsStep(next);
    assert Elapsed(fps + [next], |fps| + 1) == total + step;
    hide Elapsed, PtsStep;
    WrappedSum(total, step);
    TimestampOfPts(total);
  }

  lemma {:induction false} WrappedSum(a: nat, b: nat)
    ensures (a % PTS_MOD + b) % PTS_MOD == (a + b) % PTS_MOD
  {}

  lemma {:induction false} TimestampOfPts(a: nat)
    ensures a % PTS_MOD % TS_MOD == a % TS_MOD
  {
    assert a == a / PTS_MOD * PTS_MOD + a % PTS_MOD;
    assert a / PTS_MOD * PTS_MOD == a / PTS_MOD * TS_MOD * TS_MOD;
  }

  // ---- connections and their tracks ----

  /** The sequence number of each registered connection, and what each track,
      of a connection registered now or earlier, has taken. */
  datatype Links = Links(connections: map<ConnectionId, nat>, wire: map<ConnectionId, seq<Sent>>)

  /** Every track has taken consecutive numbers, and every registered connection
      goes on from there. */
  ghost predicate GoodLinks(l: Links, fps: seq<nat>) {
    && (forall id <- l.connections :: id in l.wire && l.connections[id] == |l.wire[id]| % SEQ_MOD)
    && (forall id <- l.wire :: GoodTrack(l.wire[id], fps))
  }

  /** Every registered connection has a track and a 16-bit number. */
  predicate SoundLinks(l: Links) {
    forall id <- l.connections :: id in l.wire && l.connections[id] < SEQ_MOD
  }

  /** How the writes to one connection end, and who is removed meanwhile. */
  datatype Delivery = Delivery(outcomes: seq<bool>, departed: set<ConnectionId>)

  /** A frame to one connection. Its number is written back only when it is
      still registered after the writes. */
  function SentTo(l: Links, id: ConnectionId, frame: Frame, d: Delivery): Links
    requires |d.outcomes| == |frame.packets|
  {
    if id !in l.connections || id !in l.wire then l
    else
      var next := l.connections[id];
      var more := Stamp(next, frame.timestamp, frame.number, frame.packets, d.outcomes);
      var left := l.connections - d.departed;
      Links(if id in left then left[id := (next + |more|) % SEQ_MOD] else left, l.wire[id := l.wire[id] + more])
  }

  datatype Frame = Frame(number: nat, timestamp: nat, packets: seq<SharedPacket>)

  predicate Answers(frame: Frame, ids: seq<ConnectionId>, ds: seq<Delivery>) {
    |ids| == |ds| && forall k :: 0 <= k < |ds| ==> |ds[k].outcomes| == |frame.packets|
  }

  /** A frame to the first n connections of a list, one after the other. */
  function Broadcast(l: Links, ids: seq<ConnectionId>, frame: Frame, ds: seq<Delivery>, n: nat): Links
    requires Answers(frame, ids, ds) && n <= |ids|
  {
    if n == 0 then l else SentTo(Broadcast(l, ids, frame, ds, n - 1), ids[n - 1], frame, ds[n - 1])
  }

  /** How many of them are registered when their turn comes. */
  function Reached(l: Links, ids: seq<ConnectionId>, frame: Frame, ds: seq<Delivery>, n: nat): nat
    requires Answers(frame, ids, ds) && n <= |ids|
  {
    if n == 0 then 0
    else Reached(l, ids, frame, ds, n - 1) + if ids[n - 1] in Broadcast(l, ids, frame, ds, n - 1).connections then 1 else 0
  }

  lemma {:induction false} SentToIs(l: Links, id: ConnectionId, frame: Frame, d: Delivery)
    requires |d.outcomes| == |frame.packets| && (id in l.connections ==> id in l.wire)
    ensures id !in l.connections ==> SentTo(l, id, frame, d) == l
    ensures id in l.connections ==>
              var more := Stamp(l.connections[id], frame.timestamp, frame.number, frame.packets, d.outcomes);
              var left := l.connections - d.departed;
              var after := SentTo(l, id, frame, d);
              && after.wire == l.wire[id := l.wire[id] + more]
              && (id in left ==> after.connections == left[id := (l.connections[id] + |more|) % SEQ_MOD])
              && (id !in left ==> after.connections == left)
  {
    hide Stamp;
  }

  lemma {:induction false} SentToKeepsSound(l: Links, id: ConnectionId, frame: Frame, d: Delivery)
    requires SoundLinks(l) && |d.outcomes| == |frame.packets|
    ensures SoundLinks(SentTo(l, id, frame, d))
    ensures id in l.connections ==> id in l.wire && l.connections[id] < SEQ_MOD
  {
    hide Stamp;
  }

  lemma {:induction false} SentToKeepsGood(l: Links, fps: seq<nat>, id: ConnectionId, frame: Frame, d: Delivery)
    requires GoodLinks(l, fps) && |d.outcomes| == |frame.packets|
    requires frame.number == |fps| && frame.timestamp == FrameTimestamp(fps, |fps|)
    ensures GoodLinks(SentTo(l, id, frame, d), fps)
  {
    if id in l.connections {
      StampKeepsGoodTrack(l.wire[id], fps, frame.packets, d.outcomes);
    }
    hide Stamp, GoodTrack, FrameTimestamp;
  }

  lemma {:induction false} GoodLinksExtend(l: Links, fps: seq<nat>, next: nat)
    requires GoodLinks(l, fps)
    ensures GoodLinks(l, fps + [next])
  {
    hide GoodTrack;
    forall id | id in l.wire ensures GoodTrack(l.wire[id], fps + [next]) {
      GoodTrackExtends(l.wire[id], fps, next);
    }
  }

  /** A track's log after one frame: what it had, then packets of that frame only. */
  ghost predicate GrewBy(before: seq<Sent>, after: seq<Sent>, frame: Frame) {
    before <= after
    && forall k :: |before| <= k < |after| ==> after[k].frame == frame.number && after[k].timestamp == frame.timestamp
  }

  /** During a broadcast tracks only grow, by packets of this frame, and only
      those of the connections named. */
  lemma {:induction false} BroadcastOnlyAdds(
    l: Links, ids: seq<ConnectionId>, frame: Frame, ds: seq<Delivery>, n: nat, id: ConnectionId)
    requires Answers(frame, ids, ds) && n <= |ids| && id in l.wire
    ensures var after := Broadcast(l, ids, frame, ds, n);
            && after.wire.Keys == l.wire.Keys && after.connections.Keys <= l.connections.Keys
            && GrewBy(l.wire[id], after.wire[id], frame)
            && (id !in ids[..n] ==> after.wire[id] == l.wire[id])
  {
    if n == 0 {
    } else {
      BroadcastOnlyAdds(l, ids, frame, ds, n - 1, id);
      var before := Broadcast(l, ids, frame, ds, n - 1);
      if ids[n - 1] in before.connections {
        StampedAlike(before.connections[ids[n - 1]], frame.timestamp, frame.number, frame.packets, ds[n - 1].outcomes);
      }
      assert ids[..n] == ids[..n - 1] + [ids[n - 1]];
      hide Stamp, Broadcast;
    }
  }

  /** A registered connection named once, and not removed before its turn, is
      sent every packet of the frame, numbered on from where it stood. */
  lemma {:induction false} BroadcastReaches(
    l: Links, ids: seq<ConnectionId>, frame: Frame, ds: seq<Delivery>, k: nat, n: nat)
    requires Answers(frame, ids, ds) && k < n <= |ids| && ids[k] in l.connections && ids[k] in l.wire
    requires forall j :: 0 <= j < n && j != k ==> ids[j] != ids[k]
    requires forall j :: 0 <= j < k ==> ids[k] !in ds[j].departed
    ensures ids[k] in Broadcast(l, ids, frame, ds, n).wire
    ensures Broadcast(l, ids, frame, ds, n).wire[ids[k]]
         == l.wire[ids[k]] + Stamp(l.connections[ids[k]], frame.timestamp, frame.number, frame.packets, ds[k].outcomes)
    decreases n
  {
    if k < n - 1 {
      BroadcastReaches(l, ids, frame, ds, k, n - 1);
    } else {
      StaysUntilItsTurn(l, ids, frame, ds, k, k);
    }
    hide Stamp;
  }

  lemma {:induction false} StaysUntilItsTurn(
    l: Links, ids: seq<ConnectionId>, frame: Frame, ds: seq<Delivery>, k: nat, n: nat)
    requires Answers(frame, ids, ds) && n <= k < |ids| && ids[k] in l.connections && ids[k] in l.wire
    requires forall j :: 0 <= j < n ==> ids[j] != ids[k] && ids[k] !in ds[j].departed
    ensures var before := Broadcast(l, ids, frame, ds, n);
            && ids[k] in before.connections && before.connections[ids[k]] == l.connections[ids[k]]
            && ids[k] in before.wire && before.wire[ids[k]] == l.wire[ids[k]]
  {
    if n == 0 {
    } else {
      StaysUntilItsTurn(l, ids, frame, ds, k, n - 1);
      hide Stamp;
    }
  }

  /** The k-th connection of the list is registered when its turn comes. */
  predicate Served(l: Links, ids: seq<ConnectionId>, frame: Frame, ds: seq<Delivery>, k: int)
    requires Answers(frame, ids, ds)
  {
    0 <= k < |ids| && ids[k] in Broadcast(l, ids, frame, ds, k).connections
  }

  ghost function ServedOf(l: Links, ids: seq<ConnectionId>, frame: Frame, ds: seq<Delivery>, n: nat): set<int>
    requires Answers(frame, ids, ds)
  {
    set k | 0 <= k < n && Served(l, ids, frame, ds, k)
  }

  lemma {:induction false} ServedStep(l: Links, ids: seq<ConnectionId>, frame: Frame, ds: seq<Delivery>, n: nat)
    requires Answers(frame, ids, ds) && n < |ids|
    ensures |ServedOf(l, ids, frame, ds, n + 1)| == |ServedOf(l, ids, frame, ds, n)| + if Served(l, ids, frame, ds, n) then 1 else 0
    ensures ServedOf(l, ids, frame, ds, 0) == {}
  {
    hide Served;
    var before, after := ServedOf(l, ids, frame, ds, n), ServedOf(l, ids, frame, ds, n + 1);
    assert after == if Served(l, ids, frame, ds, n) then before + {n as int} else before;
  }

  lemma {:induction false} ReachedStep(l: Links, ids: seq<ConnectionId>, frame: Frame, ds: seq<Delivery>, n: nat)
    requires Answers(frame, ids, ds) && n < |ids|
    ensures Reached(l, ids, frame, ds, n + 1) == Reached(l, ids, frame, ds, n) + if Served(l, ids, frame, ds, n) then 1 else 0
    ensures Reached(l, ids, frame, ds, 0) == 0
  {
    hide Broadcast;
  }

  /** The count is that of the positions served; it is the length of the list
      exactly when every connection named is registered at its turn. */
  lemma {:induction false} ReachedExactly(l: Links, ids: seq<ConnectionId>, frame: Frame, ds: seq<Delivery>, n: nat)
    requires Answers(frame, ids, ds) && n <= |ids|
    ensures Reached(l, ids, frame, ds, n) == |ServedOf(l, ids, frame, ds, n)|
    ensures Reached(l, ids, frame, ds, n) == n <==> forall k :: 0 <= k < n ==> Served(l, ids, frame, ds, k)
    ensures Reached(l, ids, frame, ds, n) <= n
  {
    if n == 0 {
      assert ServedOf(l, ids, frame, ds, 0) == {};
    } else {
      hide Reached, Served, ServedOf;
      ReachedExactly(l, ids, frame, ds, n - 1);
      ServedStep(l, ids, frame, ds, n - 1);
      ReachedStep(l, ids, frame, ds, n - 1);
    }
  }

  /** A connection is registered after a broadcast exactly when it was before and
      was not removed while one was served: none is brought back. Those that
      were not named keep their number. */
  lemma {:induction false} RegisteredAfterwards(
    l: Links, ids: seq<ConnectionId>, frame: Frame, ds: seq<Delivery>, n: nat, id: ConnectionId)
    requires Answers(frame, ids, ds) && n <= |ids| && SoundLinks(l)
    ensures var after := Broadcast(l, ids, frame, ds, n);
            && SoundLinks(after)
            && (id in after.connections <==>
                  id in l.connections && forall k :: 0 <= k < n && Served(l, ids, frame, ds, k) ==> id !in ds[k].departed)
            && (id in after.connections && id !in ids[..n] ==> after.connections[id] == l.connections[id])
  {
    if n == 0 {
    } else {
      RegisteredAfterwards(l, ids, frame, ds, n - 1, id);
      var before := Broadcast(l, ids, frame, ds, n - 1);
      SentToKeepsSound(before, ids[n - 1], frame, ds[n - 1]);
      SentToIs(before, ids[n - 1], frame, ds[n - 1]);
      assert Broadcast(l, ids, frame, ds, n) == SentTo(before, ids[n - 1], frame, ds[n - 1]);
      assert Served(l, ids, frame, ds, n - 1) <==> ids[n - 1] in before.connections;
      assert ids[..n] == ids[..n - 1] + [ids[n - 1]];
      hide Stamp, Broadcast, SentTo, SoundLinks, Served;
    }
  }

  // ---- runs ----

  datatype Event =
    | Registered(id: ConnectionId)
    | Removed(id: ConnectionId)
    | FrameSent(fps: nat, ids: seq<ConnectionId>, packets: seq<SharedPacket>, ds: seq<Delivery>)

  /** The links, and the rates of the frames sent so far. */
  datatype World = World(links: Links, fps: seq<nat>)

  function NextFrame(w: World, packets: seq<SharedPacket>): Frame {
    Frame(|w.fps|, FrameTimestamp(w.fps, |w.fps|), packets)
  }

  /** Ids are never used again. */
  predicate Possible(w: World, e: Event) {
    match e
    case Registered(id) => id !in w.links.wire
    case Removed(_) => true
    case FrameSent(_, ids, packets, ds) => Answers(NextFrame(w, packets), ids, ds)
  }

  function After(w: World, e: Event): World
    requires Possible(w, e)
  {
    match e
    case Registered(id) => w.(links := Links(w.links.connections[id := 0], w.links.wire[id := []]))
    case Removed(id) => w.(links := w.links.(connections := w.links.connections - {id}))
    case FrameSent(fps, ids, packets, ds) =>
      World(Broadcast(w.links, ids, NextFrame(w, packets), ds, |ids|), w.fps + [fps])
  }

  ghost predicate IsRun(worlds: seq<World>, events: seq<Event>) {
    && |worlds| == |events| + 1 && worlds[0] == World(Links(map[], map[]), [])
    && forall i :: 0 <= i < |events| ==> Possible(worlds[i], events[i]) && worlds[i + 1] == After(worlds[i], events[i])
  }

  lemma {:induction false} BroadcastKeepsGood(l: Links, fps: seq<nat>, ids: seq<ConnectionId>, frame: Frame, ds: seq<Delivery>, n: nat)
    requires GoodLinks(l, fps) && Answers(frame, ids, ds) && n <= |ids|
    requires frame.number == |fps| && frame.timestamp == FrameTimestamp(fps, |fps|)
    ensures GoodLinks(Broadcast(l, ids, frame, ds, n), fps)
  {
    if n == 0 {
    } else {
      BroadcastKeepsGood(l, fps, ids, frame, ds, n - 1);
      SentToKeepsGood(Broadcast(l, ids, frame, ds, n - 1), fps, ids[n - 1], frame, ds[n - 1]);
    }
    hide GoodLinks, SentTo, FrameTimestamp;
  }

  lemma {:induction false} EventKeepsGood(w: World, e: Event)
    requires GoodLinks(w.links, w.fps) && Possible(w, e)
    ensures GoodLinks(After(w, e).links, After(w, e).fps)
  {
    match e {
      case Registered(id) =>
        assert GoodTrack([], w.fps);
        hide GoodTrack;
      case Removed(_) =>
      case FrameSent(fps, ids, packets, ds) =>
        BroadcastKeepsGood(w.links, w.fps, ids, NextFrame(w, packets), ds, |ids|);
        GoodLinksExtend(Broadcast(w.links, ids, NextFrame(w, packets), ds, |ids|), w.fps, fps);
        hide GoodLinks;
    }
  }

  lemma {:induction false} LinksAlongRun(worlds: seq<World>, events: seq<Event>, n: nat)
    requires IsRun(worlds, events) && n <= |events|
    ensures GoodLinks(worlds[n].links, worlds[n].fps)
  {
    if n == 0 {
    } else {
      LinksAlongRun(worlds, events, n - 1);
      assert Possible(worlds[n - 1], events[n - 1]) && worlds[n] == After(worlds[n - 1], events[n - 1]);
      hide GoodLinks, After, Possible;
      EventKeepsGood(worlds[n - 1], events[n - 1]);
    }
  }

  /** In every run, whatever writes fail and whoever comes and goes: what a track
      has taken is numbered from 0 without gap or repeat, and each packet carries
      the sum of the steps of the frames before its own. */
  lemma {:induction false} TracksAreConsecutive(worlds: seq<World>, events: seq<Event>, n: nat, id: ConnectionId)
    requires IsRun(worlds, events) && n <= |events| && id in worlds[n].links.wire
    ensures Consecutive(worlds[n].links.wire[id]) && Timed(worlds[n].links.wire[id], worlds[n].fps)
    ensures id in worlds[n].links.connections ==>
              worlds[n].links.connections[id] == |worlds[n].links.wire[id]| % SEQ_MOD
  {
    LinksAlongRun(worlds, events, n);
    hide Consecutive, Timed;
  }

  /** A connection that is not registered takes no part in a step, and stays so. */
  lemma {:induction false} StepLeavesOut(w: World, e: Event, id: ConnectionId)
    requires GoodLinks(w.links, w.fps) && Possible(w, e) && id in w.links.wire && id !in w.links.connections
    ensures var l := After(w, e).links;
            id in l.wire && id !in l.connections && l.wire[id] == w.links.wire[id]
  {
    match e {
      case Registered(_) =>
      case Removed(_) =>
      case FrameSent(_, ids, packets, ds) =>
        hide GoodTrack;
        BroadcastLeavesOut(w.links, ids, NextFrame(w, packets), ds, |ids|, id);
        hide Broadcast;
    }
  }

  lemma {:induction false} BroadcastLeavesOut(
    l: Links, ids: seq<ConnectionId>, frame: Frame, ds: seq<Delivery>, n: nat, id: ConnectionId)
    requires Answers(frame, ids, ds) && n <= |ids| && id in l.wire && id !in l.connections
    ensures var after := Broadcast(l, ids, frame, ds, n);
            id in after.wire && id !in after.connections && after.wire[id] == l.wire[id]
  {
    if n == 0 {
    } else {
      BroadcastLeavesOut(l, ids, frame, ds, n - 1, id);
      hide Stamp;
    }
  }

  /** Once removed, a connection is sent nothing more, in the whole rest of the run. */
  lemma {:induction false} RemovedIsLeftOut(worlds: seq<World>, events: seq<Event>, n: nat, m: nat, id: ConnectionId)
    requires IsRun(worlds, events) && n < m <= |events| && events[n] == Removed(id) && id in worlds[n].links.wire
    ensures var l := worlds[m].links;
            id in l.wire && id !in l.connections && l.wire[id] == worlds[n].links.wire[id]
    decreases m
  {
    assert Possible(worlds[m - 1], events[m - 1]) && worlds[m] == After(worlds[m - 1], events[m - 1]);
    if m == n + 1 {
      hide IsRun;
    } else {
      LinksAlongRun(worlds, events, m - 1);
      RemovedIsLeftOut(worlds, events, n, m - 1, id);
      hide IsRun, After, Possible, GoodLinks;
      StepLeavesOut(worlds[m - 1], events[m - 1], id);
    }
  }

  /** A connection that registers gets every packet of the next frame sent to it whose
      write gets through, numbered from 0. */
  lemma {:induction false} FirstFrameIsWhole(
    w: World, id: ConnectionId, fps: nat, ids: seq<ConnectionId>, packets: seq<SharedPacket>, ds: seq<Delivery>, k: nat)
    requires Possible(w, Registered(id)) && Answers(NextFrame(w, packets), ids, ds) && k < |ids| && ids[k] == id
    requires forall j :: 0 <= j < |ids| && j != k ==> ids[j] != id && (j < k ==> id !in ds[j].departed)
    ensures var w1 := After(w, Registered(id)); var w2 := After(w1, FrameSent(fps, ids, packets, ds));
            && id in w1.links.connections && id in w2.links.wire
            && w2.links.wire[id] == Stamp(0, FrameTimestamp(w.fps, |w.fps|), |w.fps|, packets, ds[k].outcomes)
  {
    var w1 := After(w, Registered(id));
    BroadcastReaches(w1.links, ids, NextFrame(w1, packets), ds, k, |ids|);
    hide Broadcast, Stamp;
  }

  // ---- the sender, as the source runs it ----

  /** `PeerConnectionManager` as far as video goes, and the frame clock. */
  class VideoSender {
    var connections: map<ConnectionId, nat>
    ghost var wire: map<ConnectionId, seq<Sent>>
    ghost var fpsLog: seq<nat>
    var pts: nat

    ghost function View(): Links
      reads this
    {
      Links(connections, wire)
    }

    ghost predicate Sound()
      reads this
    {
      SoundLinks(View())
    }

    /** And the numbers and timestamps so far are right: `pts` is the sum of the
        steps of the frames sent. */
    ghost predicate Valid()
      reads this
    {
      GoodLinks(View(), fpsLog) && pts == Elapsed(fpsLog, |fpsLog|) % PTS_MOD && Sound()
    }

    /** The timestamp the clock gives the next frame. */
    ghost predicate OnTime(timestamp: nat)
      reads this
    {
      timestamp == FrameTimestamp(fpsLog, |fpsLog|)
    }

    constructor ()
      ensures Valid() && View() == Links(map[], map[]) && fpsLog == []
    {
      connections, wire, fpsLog, pts := map[], map[], [], 0;
    }

    /** Registration, under an id that was never used before (a version-4 UUID). */
    method Register(id: ConnectionId)
      requires Valid() && id !in wire
      modifies this`connections, this`wire
      ensures Valid() && View() == Links(old(connections)[id := 0], old(wire)[id := []])
    {
      connections, wire := connections[id := 0], wire[id := []];
    }

    method Remove(id: ConnectionId)
      requires Valid()
      modifies this`connections
      ensures Valid() && connections == old(connections) - {id}
    {
      connections := connections - {id};
    }

    /** The connections in `d.departed` are removed by other tasks while this one
        awaits its writes; their tracks still take the remaining packets. */
    method SendOptimizedPackets(id: ConnectionId, timestamp: nat, packets: seq<SharedPacket>, d: Delivery) returns (sent: bool)
      requires Sound() && |d.outcomes| == |packets|
      modifies this`connections, this`wire
      ensures Sound() && (old(Valid()) && OnTime(timestamp) ==> Valid())
      ensures sent == (id in old(connections))
      ensures View() == SentTo(old(View()), id, Frame(|fpsLog|, timestamp, packets), d)
    {
      ghost var l, frame := View(), Frame(|fpsLog|, timestamp, packets);
      if GoodLinks(l, fpsLog) && OnTime(timestamp) {
        SentToKeepsGood(l, fpsLog, id, frame, d);
      }
      SentToKeepsSound(l, id, frame, d);
      SentToIs(l, id, frame, d);
      hide Stamp, GoodLinks, SoundLinks, SentTo, FrameTimestamp, Elapsed;
      if id !in connections {
        return false;
      }
      var sequenceNumber := connections[id];
      ghost var written: seq<Sent>;
      written, sequenceNumber := WritePackets(sequenceNumber, timestamp, packets, d.outcomes, |fpsLog|);
      var left := connections - d.departed;
      if id in left {
        left := left[id := sequenceNumber];
      }
      assert Links(left, wire[id := wire[id] + written]) == SentTo(l, id, frame, d);
      connections, wire := left, wire[id := wire[id] + written];
      return true;
    }

    /** One frame to a list of connections; the k-th is served as ds[k] says. */
    method BroadcastFrame(ids: seq<ConnectionId>, timestamp: nat, packets: seq<SharedPacket>, ds: seq<Delivery>)
      returns (sentCount: nat)
      requires Sound() && Answers(Frame(|fpsLog|, timestamp, packets), ids, ds)
      modifies this`connections, this`wire
      ensures Sound() && (old(Valid()) && OnTime(timestamp) ==> Valid())
      ensures View() == Broadcast(old(View()), ids, Frame(|fpsLog|, timestamp, packets), ds, |ids|)
      ensures sentCount == Reached(old(View()), ids, Frame(|fpsLog|, timestamp, packets), ds, |ids|)
    {
      hide GoodLinks, SoundLinks, SentTo, FrameTimestamp, Elapsed;
      sentCount := 0;
      if ids == [] {
        return;
      }
      for k := 0 to |ids|
        invariant Sound() && (old(Valid()) && OnTime(timestamp) ==> Valid())
        invariant View() == Broadcast(old(View()), ids, Frame(|fpsLog|, timestamp, packets), ds, k)
        invariant sentCount == Reached(old(View()), ids, Frame(|fpsLog|, timestamp, packets), ds, k)
      {
        var sent := SendOptimizedPackets(ids[k], timestamp, packets, ds[k]);
        if sent {
          sentCount := sentCount + 1;
        }
      }
    }

    /** One captured frame of `h264_hardware_loop`: broadcast, then step the clock. */
    method SendFrame(fps: nat, ids: seq<ConnectionId>, packets: seq<SharedPacket>, ds: seq<Delivery>)
      requires Valid() && Answers(Frame(|fpsLog|, FrameTimestamp(fpsLog, |fpsLog|), packets), ids, ds)
      modifies this
      ensures Valid() && fpsLog == old(fpsLog) + [fps]
      ensures View() == Broadcast(old(View()), ids,
                                  Frame(|old(fpsLog)|, FrameTimestamp(old(fpsLog), |old(fpsLog)|), packets), ds, |ids|)
    {
      PtsAdvances(fpsLog, fps);
      hide GoodLinks, SoundLinks, FrameTimestamp, Elapsed, PtsStep;
      if ids != [] {
        var _ := BroadcastFrame(ids, pts % TS_MOD, packets, ds);
      }
      GoodLinksExtend(View(), fpsLog, fps);
      fpsLog := fpsLog + [fps];
      pts := (pts + PtsStep(fps)) % PTS_MOD;
    }
  }
}
