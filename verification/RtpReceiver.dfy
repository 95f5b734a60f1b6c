/** An RFC 6184 receiver (single NAL unit packets, section 5.6; FU-A, section
    5.8; no aggregation packets) applied to the packets of module RtpPacketizer,
    and their shape. */
module RtpReceiver {
  import opened Wrappers
  import opened Bytes
  import opened AnnexB
  import opened AnnexBStream
  import opened RtpPacketizer

  /** Units delivered so far, and the unit being reassembled. */
  datatype Receiver = Receiver(units: seq<seq<byte>>, pending: Option<seq<byte>>)

  function PayloadType(payload: seq<byte>): nat
    requires payload != []
  {
    payload[0] % 32
  }

  predicate IsStart(payload: seq<byte>)
    requires |payload| >= 2
  {
    payload[1] / 128 == 1
  }

  predicate IsEnd(payload: seq<byte>)
    requires |payload| >= 2
  {
    payload[1] / 64 % 2 == 1
  }

  /** The unit header rebuilt from the FU indicator (F, NRI) and FU header (type). */
  function RebuiltHeader(payload: seq<byte>): byte
    requires |payload| >= 2
  {
    payload[0] / 32 * 32 + payload[1] % 32
  }

  /** One packet; None is a packet the receiver has to reject. */
  function Receive(rx: Receiver, payload: seq<byte>): Option<Receiver> {
    if payload == [] then None
    else if 1 <= PayloadType(payload) <= 23 then
      if rx.pending.Some? then None else Some(Receiver(rx.units + [payload], None))
    else if PayloadType(payload) != FU_A || |payload| < 2 then None
    else if IsStart(payload) then
      if IsEnd(payload) || rx.pending.Some? then None
      else Some(Receiver(rx.units, Some([RebuiltHeader(payload)] + payload[2..])))
    else if rx.pending.None? then None
    else if IsEnd(payload) then Some(Receiver(rx.units + [rx.pending.value + payload[2..]], None))
    else Some(Receiver(rx.units, Some(rx.pending.value + payload[2..])))
  }

  function ReceiveAll(rx: Option<Receiver>, packets: seq<SharedPacket>): Option<Receiver>
    decreases |packets|
  {
    if rx.None? || packets == [] then rx
    else ReceiveAll(Receive(rx.value, packets[0].payload), packets[1..])
  }

  const START := Some(Receiver([], None))

  /** The units of a complete transmission. */
  function Depacketize(packets: seq<SharedPacket>): Option<seq<seq<byte>>> {
    match ReceiveAll(START, packets)
    case Some(Receiver(units, None)) => Some(units)
    case _ => None
  }

  /** The units this packetisation can carry: a unit sent alone needs a type of
      1..23, a fragmented unit a cleared forbidden bit. */
  predicate Carried(u: seq<byte>)
    requires u != []
  {
    if |u| <= MAX_RTP_PAYLOAD_SIZE then 1 <= NalType(u) <= 23 else u[0] < 128
  }

  ghost predicate AllNonEmpty(units: seq<seq<byte>>) {
    forall i :: 0 <= i < |units| ==> units[i] != []
  }

  ghost predicate AllCarried(units: seq<seq<byte>>, n: nat)
    requires n <= |units|
  {
    forall i :: 0 <= i < n ==> units[i] != [] && Carried(units[i])
  }

  // ---- fragments ----

  /** The header a fragmented unit arrives with: the forbidden bit is lost. */
  function SentHeader(u: seq<byte>): byte
    requires u != []
  {
    u[0] % 128
  }

  lemma {:induction false} FragmentBits(u: seq<byte>, offset: nat)
    requires offset < |u| - 1
    ensures var f := Fragment(u, offset);
            && |f| == 2 + ChunkSize(u, offset) && PayloadType(f) == FU_A
            && f[2..] == u[1 + offset..1 + offset + ChunkSize(u, offset)]
            && (IsStart(f) <==> offset == 0)
            && (IsEnd(f) <==> offset > 0 && offset + ChunkSize(u, offset) == |u| - 1)
            && RebuiltHeader(f) == SentHeader(u)
  {
    var f := Fragment(u, offset);
    assert f[0] == FuIndicator(u[0]) && f[1] == FuHeader(u[0], offset == 0, offset + ChunkSize(u, offset) >= |u| - 1);
    HeaderBits(u[0], offset == 0, offset + ChunkSize(u, offset) >= |u| - 1);
  }

  lemma {:induction false} HeaderBits(h: byte, first: bool, last: bool)
    ensures FuIndicator(h) % 32 == FU_A && FuIndicator(h) / 32 * 32 == h / 32 % 4 * 32
    ensures FuHeader(h, first, last) % 32 == h % 32
    ensures FuHeader(h, first, last) / 128 == 1 <==> first
    ensures FuHeader(h, first, last) / 64 % 2 == 1 <==> !first && last
    ensures h / 32 % 4 * 32 + h % 32 == h % 128
  {}

  /** From the second fragment on: the receiver ends up with the whole unit. */
  lemma {:induction false} FragmentsDelivered(units: seq<seq<byte>>, u: seq<byte>, offset: nat, isLastNal: bool)
    requires 0 < offset < |u| - 1
    ensures ReceiveAll(Some(Receiver(units, Some([SentHeader(u)] + u[1..1 + offset]))),
                       Fragments(u, offset, isLastNal))
            == Some(Receiver(units + [[SentHeader(u)] + u[1..]], None))
    decreases |u| - offset
  {
    var f, size := Fragment(u, offset), ChunkSize(u, offset);
    var rx := Receiver(units, Some([SentHeader(u)] + u[1..1 + offset]));
    FragmentBits(u, offset);
    FragmentsHead(u, offset, isLastNal);
    hide Fragments, Fragment, RebuiltHeader, SentHeader, PayloadType, IsStart, IsEnd, ChunkSize;
    assert rx.pending.value + f[2..] == [SentHeader(u)] + u[1..1 + offset + size];
    if offset + size == |u| - 1 {
      assert u[1..1 + offset + size] == u[1..];
    } else {
      FragmentsDelivered(units, u, offset + size, isLastNal);
    }
  }

  lemma {:induction false} FragmentsHead(u: seq<byte>, offset: nat, isLastNal: bool)
    requires offset < |u| - 1
    ensures var size, fs := ChunkSize(u, offset), Fragments(u, offset, isLastNal);
            && 0 < size && offset + size <= |u| - 1
            && fs != [] && fs[0].payload == Fragment(u, offset)
            && fs[1..] == Fragments(u, offset + size, isLastNal)
            && (offset + size == |u| - 1 ==> fs[1..] == [])
  {
    hide Fragment;
  }

  lemma {:induction false} LargeUnitDelivered(units: seq<seq<byte>>, u: seq<byte>, isLastNal: bool)
    requires |u| > MAX_RTP_PAYLOAD_SIZE
    ensures ReceiveAll(Some(Receiver(units, None)), Fragments(u, 0, isLastNal))
            == Some(Receiver(units + [[SentHeader(u)] + u[1..]], None))
  {
    var f, size := Fragment(u, 0), ChunkSize(u, 0);
    FragmentBits(u, 0);
    FragmentsHead(u, 0, isLastNal);
    FragmentsDelivered(units, u, size, isLastNal);
    hide Fragments, Fragment, RebuiltHeader, SentHeader, PayloadType, IsStart, IsEnd;
    assert Receive(Receiver(units, None), f) == Some(Receiver(units, Some([SentHeader(u)] + u[1..1 + size])));
  }

  /** A fragmented unit that arrives while another is pending is rejected. */
  lemma {:induction false} LargeUnitRejected(rx: Receiver, u: seq<byte>, isLastNal: bool)
    requires |u| > MAX_RTP_PAYLOAD_SIZE && rx.pending.Some?
    ensures ReceiveAll(Some(rx), Fragments(u, 0, isLastNal)) == None
  {
    FragmentBits(u, 0);
    FragmentsHead(u, 0, isLastNal);
  }

  // ---- whole frames ----

  lemma {:induction false} ReceiveConcat(rx: Option<Receiver>, a: seq<SharedPacket>, b: seq<SharedPacket>)
    ensures ReceiveAll(rx, a + b) == ReceiveAll(ReceiveAll(rx, a), b)
    decreases |a|
  {
    if rx.None? {
    } else if a == [] {
      assert a + b == b;
    } else {
      assert (a + b)[0] == a[0] && (a + b)[1..] == a[1..] + b;
      ReceiveConcat(Receive(rx.value, a[0].payload), a[1..], b);
    }
  }

  /** What one unit's packets do to a receiver that has nothing pending. */
  lemma {:induction false} UnitDelivered(units: seq<seq<byte>>, u: seq<byte>, isLastNal: bool)
    requires u != [] && Carried(u)
    ensures ReceiveAll(Some(Receiver(units, None)), UnitPackets(u, isLastNal)) == Some(Receiver(units + [u], None))
  {
    var rx := Receiver(units, None);
    if |u| <= MAX_RTP_PAYLOAD_SIZE {
      OnePacket(rx, u, isLastNal);
    } else {
      LargeUnitDelivered(units, u, isLastNal);
      assert [SentHeader(u)] + u[1..] == u;
    }
  }

  lemma {:induction false} OnePacket(rx: Receiver, u: seq<byte>, isLastNal: bool)
    ensures ReceiveAll(Some(rx), [SharedPacket(u, isLastNal)]) == Receive(rx, u)
  {
    hide Receive;
  }

  /** One unit's packets never remove or change delivered units, and deliver at most one more. */
  lemma {:induction false} UnitAddsAtMostOne(rx: Receiver, u: seq<byte>, isLastNal: bool)
    requires u != []
    ensures var rx' := ReceiveAll(Some(rx), UnitPackets(u, isLastNal));
            rx'.Some? ==> rx.units <= rx'.value.units && |rx'.value.units| <= |rx.units| + 1
  {
    if |u| <= MAX_RTP_PAYLOAD_SIZE {
      OnePacket(rx, u, isLastNal);
    } else if rx.pending.Some? {
      LargeUnitRejected(rx, u, isLastNal);
    } else {
      LargeUnitDelivered(rx.units, u, isLastNal);
    }
  }

  /** A unit outside the carried class is not delivered in its place. */
  lemma {:induction false} UnitSpoiled(units: seq<seq<byte>>, u: seq<byte>, isLastNal: bool)
    requires u != [] && !Carried(u)
    ensures Spoiled(ReceiveAll(Some(Receiver(units, None)), UnitPackets(u, isLastNal)), units + [u])
  {
    var rx := Receiver(units, None);
    if |u| <= MAX_RTP_PAYLOAD_SIZE {
      OnePacket(rx, u, isLastNal);
    } else {
      LargeUnitDelivered(units, u, isLastNal);
      assert ([SentHeader(u)] + u[1..])[0] != u[0];
      assert DiffersAt(units + [[SentHeader(u)] + u[1..]], units + [u], |units|);
    }
  }

  /** The receiver has rejected a packet, or is a unit short, or holds a wrong unit. */
  ghost predicate Spoiled(rx: Option<Receiver>, units: seq<seq<byte>>) {
    rx.Some? ==> |rx.value.units| < |units| || exists i :: DiffersAt(rx.value.units, units, i)
  }

  ghost predicate DiffersAt(got: seq<seq<byte>>, units: seq<seq<byte>>, i: int) {
    0 <= i < |got| && i < |units| && got[i] != units[i]
  }

  lemma {:induction false} SpoiledStays(rx: Option<Receiver>, units: seq<seq<byte>>, u: seq<byte>, isLastNal: bool)
    requires Spoiled(rx, units) && u != []
    ensures Spoiled(ReceiveAll(rx, UnitPackets(u, isLastNal)), units + [u])
  {
    if rx.Some? {
      UnitAddsAtMostOne(rx.value, u, isLastNal);
      hide UnitPackets, ReceiveAll;
      var rx' := ReceiveAll(rx, UnitPackets(u, isLastNal));
      if rx'.Some? && |rx.value.units| >= |units| {
        var i :| DiffersAt(rx.value.units, units, i);
        assert DiffersAt(rx'.value.units, units + [u], i);
      }
    }
  }

  lemma {:induction false} AfterUnits(units: seq<seq<byte>>, n: nat)
    requires n <= |units| && AllNonEmpty(units)
    ensures AllCarried(units, n) ==> ReceiveAll(START, PacketsUpTo(units, n)) == Some(Receiver(units[..n], None))
    ensures !AllCarried(units, n) ==> Spoiled(ReceiveAll(START, PacketsUpTo(units, n)), units[..n])
  {
    if n == 0 {
      return;
    }
    var before, u, isLastNal := PacketsUpTo(units, n - 1), units[n - 1], n == |units|;
    AllCarriedStep(units, n);
    assert PacketsUpTo(units, n) == before + UnitPackets(u, isLastNal) && u != [];
    hide *;
    AfterUnits(units, n - 1);
    ReceiveConcat(START, before, UnitPackets(u, isLastNal));
    assert units[..n] == units[..n - 1] + [u];
    if !AllCarried(units, n - 1) {
      SpoiledStays(ReceiveAll(START, before), units[..n - 1], u, isLastNal);
    } else if Carried(u) {
      UnitDelivered(units[..n - 1], u, isLastNal);
    } else {
      UnitSpoiled(units[..n - 1], u, isLastNal);
    }
  }

  lemma {:induction false} AllCarriedStep(units: seq<seq<byte>>, n: nat)
    requires 0 < n <= |units| && AllNonEmpty(units)
    ensures units[n - 1] != []
    ensures AllCarried(units, n) <==> AllCarried(units, n - 1) && Carried(units[n - 1])
  {
    hide Carried;
    var u := units[n - 1];
    assert u != [];
    assert AllCarried(units, n) ==> Carried(u);
  }

  /** An RFC 6184 receiver gets back exactly the units of the frame, if and only
      if every unit is of the carried class. */
  lemma {:induction false} DepacketizeInvertsPacketize(units: seq<seq<byte>>)
    requires AllNonEmpty(units)
    ensures Depacketize(PacketsOf(units)) == Some(units) <==> AllCarried(units, |units|)
  {
    AfterUnits(units, |units|);
    hide ReceiveAll, PacketsUpTo, AllCarried;
    assert units[..|units|] == units;
    assert Spoiled(Some(Receiver(units, None)), units) ==> false;
  }

  /** The same for what `packetize_h264_optimized` makes of any data. */
  lemma {:induction false} FrameSurvivesTransport(d: seq<byte>)
    ensures Depacketize(PacketsOf(NalUnits(d))) == Some(NalUnits(d))
            <==> AllCarried(NalUnits(d), |NalUnits(d)|)
  {
    NalUnitsNonEmpty(d);
    DepacketizeInvertsPacketize(NalUnits(d));
  }

  lemma {:induction false} NalUnitsNonEmpty(d: seq<byte>)
    ensures AllNonEmpty(NalUnits(d))
    ensures d == [] <==> NalUnits(d) == []
  {
    NalUnitsAre(d);
    NalSpansWithin(d);
    if d == [] {
      assert ReferenceSpans(d, 0) == [] by { assert NextMark(d, 0) == 0; }
    }
    hide NalSpans, NalUnits;
    forall i | 0 <= i < |NalUnits(d)| ensures NalUnits(d)[i] != [] {
      NalUnitsAt(d, i);
    }
  }

  // ---- units that do not survive ----

  lemma {:induction false} LoneUnit(u: seq<byte>, long: bool)
    requires LegalUnit(u)
    ensures NalUnits(Serialize([u], [long])) == [u]
    ensures PacketsOf([u]) == UnitPackets(u, true)
  {
    RoundTrip([u], [long]);
    assert PacketsUpTo([u], 0) == [];
    assert PacketsUpTo([u], 1) == [] + UnitPackets(u, true);
    hide NalUnits, Serialize, UnitPackets;
  }

  /** A frame of one large unit with the forbidden bit set: the bit is lost. */
  lemma {:induction false} ForbiddenBitIsLost(u: seq<byte>, long: bool)
    requires LegalUnit(u) && |u| > MAX_RTP_PAYLOAD_SIZE && u[0] >= 128
    ensures var units := NalUnits(Serialize([u], [long]));
            units == [u] && Depacketize(PacketsOf(units)) == Some([[u[0] - 128] + u[1..]]) && [u[0] - 128] + u[1..] != u
  {
    LoneUnit(u, long);
    LargeUnitDelivered([], u, true);
    assert UnitPackets(u, true) == Fragments(u, 0, true);
    hide NalUnits, Serialize, LegalUnit, PacketsOf, ReceiveAll, Fragments, UnitPackets;
    HeaderOfLost(u);
    var sent := [SentHeader(u)] + u[1..];
    hide SentHeader;
    assert [] + [sent] == [sent];
  }

  lemma {:induction false} HeaderOfLost(u: seq<byte>)
    requires u != [] && u[0] >= 128
    ensures [SentHeader(u)] + u[1..] == [u[0] - 128] + u[1..] != u
  {
    assert ([u[0] - 128] + u[1..])[0] != u[0];
  }

  /** A frame of one small unit of type 0 or 24 to 31: this receiver has to reject it. */
  lemma {:induction false} OddTypeIsRejected(u: seq<byte>, long: bool)
    requires LegalUnit(u) && |u| <= MAX_RTP_PAYLOAD_SIZE && !(1 <= NalType(u) <= 23)
    ensures var units := NalUnits(Serialize([u], [long]));
            units == [u] && Depacketize(PacketsOf(units)) == None
  {
    LoneUnit(u, long);
    OnePacket(Receiver([], None), u, true);
    hide NalUnits, Serialize, LegalUnit, PacketsOf, ReceiveAll;
  }

  // ---- the shape of a frame's packets ----

  /** Every unit over 1200 bytes yields ceil((len - 1) / 1198) >= 2 fragments. */
  lemma {:induction false} FragmentCount(u: seq<byte>, offset: nat, isLastNal: bool)
    requires offset <= |u| - 1
    ensures |Fragments(u, offset, isLastNal)| == (|u| - 1 - offset + 1197) / 1198
    ensures offset == 0 && |u| > MAX_RTP_PAYLOAD_SIZE ==> |Fragments(u, offset, isLastNal)| >= 2
    decreases |u| - offset
  {
    if offset == |u| - 1 {
    } else {
      FragmentsHead(u, offset, isLastNal);
      FragmentCount(u, offset + ChunkSize(u, offset), isLastNal);
    }
  }

  /** The octets of section 5.8: the indicator has F cleared, NRI of the unit and
      type 28; the header has its reserved bit cleared and the type of the unit. */
  predicate IsFuA(f: seq<byte>, h: byte)
    requires |f| >= 2
  {
    f[0] / 128 == 0 && f[0] / 32 % 4 == h / 32 % 4 && f[0] % 32 == 28 && f[1] / 32 % 2 == 0 && f[1] % 32 == h % 32
  }

  lemma {:induction false} FuOctets(u: seq<byte>, offset: nat)
    requires offset < |u| - 1
    ensures |Fragment(u, offset)| >= 2 && IsFuA(Fragment(u, offset), u[0])
  {
    var first, last := offset == 0, offset + ChunkSize(u, offset) >= |u| - 1;
    assert Fragment(u, offset)[0] == FuIndicator(u[0]) && Fragment(u, offset)[1] == FuHeader(u[0], first, last);
    FuBits(u[0], first, last);
    hide FuIndicator, FuHeader, ChunkSize;
  }

  lemma {:induction false} FuBits(h: byte, first: bool, last: bool)
    ensures FuIndicator(h) / 128 == 0 && FuIndicator(h) / 32 % 4 == h / 32 % 4 && FuIndicator(h) % 32 == 28
    ensures FuHeader(h, first, last) / 32 % 2 == 0 && FuHeader(h, first, last) % 32 == h % 32
  {}

  /** S is set on only the first fragment and E on only the last; each carries
      at most 1200 bytes and the marker stands on the last of the last unit. */
  lemma {:induction false} FragmentShape(u: seq<byte>, offset: nat, isLastNal: bool, k: nat)
    requires |u| > MAX_RTP_PAYLOAD_SIZE && offset < |u| - 1 && k < |Fragments(u, offset, isLastNal)|
    ensures var fs := Fragments(u, offset, isLastNal); var f := fs[k].payload;
            && 2 < |f| <= 1200 && IsFuA(f, u[0])
            && (IsStart(f) <==> offset == 0 && k == 0)
            && (IsEnd(f) <==> k == |fs| - 1)
            && (fs[k].marker <==> k == |fs| - 1 && isLastNal)
    decreases k
  {
    FragmentBits(u, offset);
    FragmentsHead(u, offset, isLastNal);
    FuOctets(u, offset);
    hide IsFuA;
    var size, fs := ChunkSize(u, offset), Fragments(u, offset, isLastNal);
    assert fs[0].marker == (offset + size >= |u| - 1 && isLastNal);
    if k > 0 {
      FragmentShape(u, offset + size, isLastNal, k - 1);
    } else if offset + size < |u| - 1 {
      FragmentCount(u, offset + size, isLastNal);
    }
  }

  ghost predicate GoodPacket(p: SharedPacket) {
    1 <= |p.payload| <= 1200
  }

  lemma {:induction false} UnitPacketsShape(u: seq<byte>, isLastNal: bool)
    requires u != []
    ensures var ps := UnitPackets(u, isLastNal);
            ps != [] && forall k :: 0 <= k < |ps| ==> GoodPacket(ps[k]) && (ps[k].marker <==> k == |ps| - 1 && isLastNal)
  {
    if |u| > MAX_RTP_PAYLOAD_SIZE {
      FragmentCount(u, 0, isLastNal);
      forall k | 0 <= k < |Fragments(u, 0, isLastNal)|
        ensures GoodPacket(Fragments(u, 0, isLastNal)[k])
        ensures Fragments(u, 0, isLastNal)[k].marker <==> k == |Fragments(u, 0, isLastNal)| - 1 && isLastNal
      {
        FragmentShape(u, 0, isLastNal, k);
      }
    }
  }

  lemma {:induction false} PacketsShape(units: seq<seq<byte>>, n: nat)
    requires n <= |units| && AllNonEmpty(units)
    ensures var ps := PacketsUpTo(units, n);
            && (n > 0 ==> ps != [])
            && forall k :: 0 <= k < |ps| ==> GoodPacket(ps[k]) && (ps[k].marker <==> k == |ps| - 1 && n == |units|)
  {
    if n == 0 {
    } else {
      PacketsShape(units, n - 1);
      UnitPacketsShape(units[n - 1], n == |units|);
      hide UnitPackets, GoodPacket;
    }
  }

  /** Every payload of a non-empty frame is 1..1200 bytes long and the marker
      stands on exactly the frame's last packet. */
  lemma {:induction false} FrameShape(d: seq<byte>)
    requires d != []
    ensures var ps := PacketsOf(NalUnits(d));
            ps != [] && forall k :: 0 <= k < |ps| ==> GoodPacket(ps[k]) && (ps[k].marker <==> k == |ps| - 1)
  {
    NalUnitsNonEmpty(d);
    PacketsShape(NalUnits(d), |NalUnits(d)|);
  }
}
