/** `packetize_h264_optimized` of `server/src/webrtc/transport.rs`. */
module RtpPacketizer {
  import opened Bytes
  import opened AnnexB
  import opened AnnexBStream

  const MAX_RTP_PAYLOAD_SIZE := 1200
  const FU_A := 28

  datatype SharedPacket = SharedPacket(payload: seq<byte>, marker: bool)

  function Min(a: nat, b: nat): nat { if a <= b then a else b }

  // ---- what is sent ----

  /** FU-A indicator `nri | 28`: forbidden bit cleared, NRI kept. */
  function FuIndicator(header: byte): byte { header / 32 % 4 * 32 + FU_A }

  function FuHeader(header: byte, first: bool, last: bool): byte {
    (if first then 128 else if last then 64 else 0) + header % 32
  }

  function ChunkSize(u: seq<byte>, offset: nat): nat
    requires offset < |u| - 1
  {
    Min(|u| - 1 - offset, MAX_RTP_PAYLOAD_SIZE - 2)
  }

  /** The fragment that carries the unit's bytes from `offset` on, the header byte not counted. */
  function Fragment(u: seq<byte>, offset: nat): seq<byte>
    requires offset < |u| - 1
  {
    var size := ChunkSize(u, offset);
    [FuIndicator(u[0]), FuHeader(u[0], offset == 0, offset + size >= |u| - 1)]
    + u[1 + offset..1 + offset + size]
  }

  function Fragments(u: seq<byte>, offset: nat, isLastNal: bool): seq<SharedPacket>
    requires u != []
    decreases |u| - offset
  {
    if offset >= |u| - 1 then []
    else
      var size := ChunkSize(u, offset);
      [SharedPacket(Fragment(u, offset), offset + size >= |u| - 1 && isLastNal)]
      + Fragments(u, offset + size, isLastNal)
  }

  function UnitPackets(u: seq<byte>, isLastNal: bool): seq<SharedPacket> {
    if |u| <= MAX_RTP_PAYLOAD_SIZE then [SharedPacket(u, isLastNal)] else Fragments(u, 0, isLastNal)
  }

  /** The packets of the first `n` units of a frame. */
  function PacketsUpTo(units: seq<seq<byte>>, n: nat): seq<SharedPacket>
    requires n <= |units|
  {
    if n == 0 then [] else PacketsUpTo(units, n - 1) + UnitPackets(units[n - 1], n == |units|)
  }

  function PacketsOf(units: seq<seq<byte>>): seq<SharedPacket> {
    PacketsUpTo(units, |units|)
  }

  // ---- the packetiser ----

  method PacketizeH264(data: seq<byte>) returns (packets: seq<SharedPacket>)
    ensures packets == PacketsOf(NalUnits(data))
  {
    hide *;
    var nalUnits := FindNalUnits(data);
    NalUnitsAre(data);
    ghost var units := NalUnits(data);
    packets := [];
    PacketsStep(units, 0);
    for nalIndex := 0 to |nalUnits|
      invariant packets == PacketsUpTo(units, nalIndex)
    {
      NalUnitsAt(data, nalIndex);
      var nal := data[nalUnits[nalIndex].start..nalUnits[nalIndex].end];
      var isLastNal := nalIndex + 1 == |nalUnits|;
      PacketsStep(units, nalIndex);
      if |nal| <= MAX_RTP_PAYLOAD_SIZE {
        packets := packets + [SharedPacket(nal, isLastNal)];
      } else {
        var fragments := FragmentNal(nal, isLastNal);
        packets := packets + fragments;
      }
    }
    PacketsWhole(units);
  }

  /** The inner loop of `packetize_h264_optimized`. */
  method FragmentNal(nal: seq<byte>, isLastNal: bool) returns (packets: seq<SharedPacket>)
    requires |nal| > MAX_RTP_PAYLOAD_SIZE
    ensures packets == Fragments(nal, 0, isLastNal)
  {
    var nalHeader := nal[0];
    var nalType, nri := nalHeader % 32, nalHeader / 32 % 4 * 32;
    var payload := nal[1..];
    var offset := 0;
    var first := true;
    packets := [];
    while offset < |payload|
      invariant 0 <= offset <= |payload| && first == (offset == 0)
      invariant Sent(packets, nal, offset, isLastNal)
      decreases |payload| - offset
    {
      var chunkSize := Min(|payload| - offset, MAX_RTP_PAYLOAD_SIZE - 2);
      var last := offset + chunkSize >= |payload|;
      var fragment: seq<byte> := [nri + 28];
      fragment := fragment + [if first then 0x80 + nalType else if last then 0x40 + nalType else nalType];
      fragment := fragment + payload[offset..offset + chunkSize];
      assert fragment == Fragment(nal, offset) by {
        assert payload[offset..offset + chunkSize] == nal[1 + offset..1 + offset + chunkSize];
      }
      SentStep(packets, nal, offset, isLastNal);
      packets := packets + [SharedPacket(fragment, last && isLastNal)];
      offset := offset + chunkSize;
      first := false;
    }
    assert Fragments(nal, offset, isLastNal) == [];
  }

  ghost predicate Sent(packets: seq<SharedPacket>, nal: seq<byte>, offset: nat, isLastNal: bool) {
    nal != [] && Fragments(nal, 0, isLastNal) == packets + Fragments(nal, offset, isLastNal)
  }

  lemma {:induction false} SentStep(packets: seq<SharedPacket>, nal: seq<byte>, offset: nat, isLastNal: bool)
    requires Sent(packets, nal, offset, isLastNal) && offset < |nal| - 1
    ensures var size := ChunkSize(nal, offset);
            Sent(packets + [SharedPacket(Fragment(nal, offset), offset + size >= |nal| - 1 && isLastNal)],
                 nal, offset + size, isLastNal)
  {
    hide Fragment;
  }

  lemma {:induction false} PacketsStep(units: seq<seq<byte>>, n: nat)
    requires n <= |units|
    ensures PacketsUpTo(units, 0) == []
    ensures n < |units| ==> PacketsUpTo(units, n + 1)
                            == PacketsUpTo(units, n)
                             + (if |units[n]| <= MAX_RTP_PAYLOAD_SIZE
                                then [SharedPacket(units[n], n + 1 == |units|)]
                                else Fragments(units[n], 0, n + 1 == |units|))
  {}

  lemma {:induction false} PacketsWhole(units: seq<seq<byte>>)
    ensures PacketsUpTo(units, |units|) == PacketsOf(units)
  {}

  lemma {:induction false} NalUnitsAre(d: seq<byte>)
    ensures |NalSpans(d)| == |NalUnits(d)|
    ensures forall i :: 0 <= i < |NalSpans(d)| ==> NalSpans(d)[i].start <= NalSpans(d)[i].end <= |d|
  {
    NalSpansWithin(d);
  }

  lemma {:induction false} NalUnitsAt(d: seq<byte>, i: nat)
    requires i < |NalSpans(d)|
    ensures NalSpans(d)[i].start <= NalSpans(d)[i].end <= |d|
    ensures i < |NalUnits(d)| && NalUnits(d)[i] == d[NalSpans(d)[i].start..NalSpans(d)[i].end]
  {
    NalSpansWithin(d);
    SlicesAt(d, NalSpans(d), i);
  }
}
