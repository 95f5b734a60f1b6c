/** The Annex B splitter and the parameter-set scan of
    `server/src/webrtc/transport.rs`, against a reference splitter that cuts
    the byte stream at every start code (ITU-T H.264, section B.1.1). */
module AnnexB {
  import opened Bytes

  /** A unit as a half-open range of the frame. */
  datatype Span = Span(start: nat, end: nat)

  // ---- start codes ----

  /** Position p holds the 0x01 that closes a start code 00 00 01. */
  predicate IsMark(d: seq<byte>, p: int) {
    2 <= p < |d| && d[p] == 1 && d[p - 1] == 0 && d[p - 2] == 0
  }

  function NextMark(d: seq<byte>, from: nat): (p: nat)
    requires from <= |d|
    ensures from <= p <= |d|
    ensures p < |d| ==> IsMark(d, p)
    decreases |d| - from
  {
    if from == |d| || IsMark(d, from) then from else NextMark(d, from + 1)
  }

  function NextOne(d: seq<byte>, from: nat): (p: nat)
    requires from <= |d|
    ensures from <= p <= |d|
    ensures p < |d| ==> d[p] == 1
    decreases |d| - from
  {
    if from == |d| || d[from] == 1 then from else NextOne(d, from + 1)
  }

  /** Where the unit before the start code closed at q ends: before the 3-byte
      code, or before the 4-byte code when a further zero precedes it. */
  function UnitEnd(d: seq<byte>, q: nat): nat
    requires q == |d| || IsMark(d, q)
  {
    if q == |d| then |d| else if q >= 3 && d[q - 3] == 0 then q - 3 else q - 2
  }

  lemma {:induction false} NextMarkIsFirst(d: seq<byte>, from: nat, q: nat)
    requires from <= q && IsMark(d, q)
    ensures NextMark(d, from) <= q
    decreases q - from
  {
    if from < q && !IsMark(d, from) {
      NextMarkIsFirst(d, from + 1, q);
    }
  }

  lemma {:induction false} NextOneIsFirst(d: seq<byte>, from: nat, q: nat)
    requires from <= q < |d| && d[q] == 1
    ensures NextOne(d, from) <= q
    decreases q - from
  {
    if from < q && d[from] != 1 {
      NextOneIsFirst(d, from + 1, q);
    }
  }

  /** Two start codes never overlap, so a unit never ends before it starts. */
  lemma {:induction false} UnitEndBounds(d: seq<byte>, p: nat, q: nat)
    requires IsMark(d, p) && p < q && (q == |d| || IsMark(d, q))
    ensures p + 1 <= UnitEnd(d, q) <= q
  {}

  lemma {:induction false} NextMarkFromOne(d: seq<byte>, i: nat)
    requires i <= |d|
    ensures NextMark(d, i) == NextMark(d, NextOne(d, i))
    decreases |d| - i
  {
    if i < |d| && d[i] != 1 {
      NextMarkFromOne(d, i + 1);
    }
  }

  lemma {:induction false} NextMarkInZeros(d: seq<byte>, i: nat, q: nat)
    requires i <= q && IsMark(d, q) && forall j :: i <= j < q ==> d[j] == 0
    ensures NextMark(d, i) == q
    decreases q - i
  {
    if i < q {
      NextMarkInZeros(d, i + 1, q);
    }
  }

  // ---- the reference splitter ----

  /** One span per start code, up to the next start code. */
  function ReferenceSpans(d: seq<byte>, from: nat): (spans: seq<Span>)
    requires from <= |d|
    ensures Within(d, spans)
    decreases |d| - from
  {
    var p := NextMark(d, from);
    if p == |d| then []
    else
      var q := NextMark(d, p + 1);
      UnitEndBounds(d, p, q);
      [Span(p + 1, UnitEnd(d, q))] + ReferenceSpans(d, q)
  }

  predicate Within(d: seq<byte>, spans: seq<Span>) {
    forall i :: 0 <= i < |spans| ==> spans[i].start <= spans[i].end <= |d|
  }

  predicate HasOne(d: seq<byte>, s: Span)
    requires s.start <= s.end <= |d|
  {
    exists j :: s.start <= j < s.end && d[j] == 1
  }

  function NonEmpty(s: Span): seq<Span> {
    if s.start < s.end then [s] else []
  }

  /** The non-empty spans up to the first non-final one that holds a 0x01 byte,
      which then runs on to the end of the data. */
  function Overrun(d: seq<byte>, spans: seq<Span>): seq<Span>
    requires Within(d, spans)
  {
    if spans == [] then []
    else if |spans| == 1 || HasOne(d, spans[0]) then NonEmpty(Span(spans[0].start, |d|))
    else NonEmpty(spans[0]) + Overrun(d, spans[1..])
  }

  /** What `find_nal_units` returns, stated against the reference splitter. */
  function NalSpans(d: seq<byte>): seq<Span> {
    var spans := Overrun(d, ReferenceSpans(d, 0));
    if spans == [] && d != [] then [Span(0, |d|)] else spans
  }

  // ---- the scan ----

  /** The end the scan gives the unit after the mark at p: it looks at one
      0x01 byte after the mark, never further. */
  function ScanEnd(d: seq<byte>, p: nat): (end: nat)
    requires IsMark(d, p)
    ensures p + 1 <= end <= |d|
  {
    var o := NextOne(d, p + 1);
    if IsMark(d, o) then UnitEnd(d, o) else |d|
  }

  /** The spans the scan holds at the end of the data, when it holds `spans`
      on its way and looks for the next mark from `from` on. */
  function ScanSpans(d: seq<byte>, from: nat, spans: seq<Span>): seq<Span>
    requires from <= |d|
    decreases |d| - from
  {
    var p := NextMark(d, from);
    if p == |d| then spans
    else ScanSpans(d, ScanEnd(d, p), spans + NonEmpty(Span(p + 1, ScanEnd(d, p))))
  }

  /** The first 0x01 after a mark is the next mark, or else lies inside the
      unit that the reference cuts there unless that unit is the last. */
  lemma {:induction false} FirstOneAfterMark(d: seq<byte>, p: nat, q: nat, o: nat)
    requires IsMark(d, p) && q == NextMark(d, p + 1) && o == NextOne(d, p + 1)
    ensures IsMark(d, o) ==> o == q
    ensures !IsMark(d, o) && q < |d| ==> o < UnitEnd(d, q)
  {
    if IsMark(d, o) { NextMarkIsFirst(d, p + 1, o); }
    if q < |d| { NextOneIsFirst(d, p + 1, q); }
    if !IsMark(d, o) && q < |d| {
      assert d[o] != d[q - 1] && d[o] != d[q - 2];
      assert o < q - 2;
      assert d[q - 3] == 0 ==> o != q - 3;
    }
  }

  lemma {:induction false} NoOneBefore(d: seq<byte>, from: nat, end: nat)
    requires from <= |d| && from <= end <= NextOne(d, from)
    ensures forall j :: from <= j < end ==> d[j] != 1
  {
    forall j | from <= j < end ensures d[j] != 1 {
      if d[j] == 1 { NextOneIsFirst(d, from, j); }
    }
  }

  lemma {:induction false} ReferenceStep(d: seq<byte>, from: nat, p: nat, q: nat)
    requires from <= |d| && p == NextMark(d, from) < |d| && q == NextMark(d, p + 1)
    ensures var spans := ReferenceSpans(d, from);
            spans != [] && spans[0] == Span(p + 1, UnitEnd(d, q)) && spans[1..] == ReferenceSpans(d, q)
    ensures q == |d| ==> |ReferenceSpans(d, from)| == 1
    ensures q < |d| ==> |ReferenceSpans(d, from)| > 1
  {
    assert q < |d| ==> NextMark(d, q) == q;
  }

  /** One step of the reference, cut short the way the scan cuts it. */
  lemma {:induction false} OverrunStep(d: seq<byte>, from: nat, p: nat)
    requires from <= |d| && p == NextMark(d, from) < |d|
    ensures Overrun(d, ReferenceSpans(d, from))
            == NonEmpty(Span(p + 1, ScanEnd(d, p))) + Overrun(d, ReferenceSpans(d, ScanEnd(d, p)))
  {
    hide NextMark, NextOne, ReferenceSpans;
    var q, o, end := NextMark(d, p + 1), NextOne(d, p + 1), ScanEnd(d, p);
    var spans := ReferenceSpans(d, from);
    ReferenceStep(d, from, p, q);
    FirstOneAfterMark(d, p, q, o);
    if IsMark(d, o) {
      assert !HasOne(d, spans[0]) by { NoOneBefore(d, p + 1, spans[0].end); }
      NextMarkInZeros(d, end, q);
      ReferenceFromSameMark(d, end, q);
    } else {
      assert q == |d| || HasOne(d, spans[0]);
      ReferenceAtEnd(d);
    }
  }

  lemma {:induction false} ReferenceAtEnd(d: seq<byte>)
    ensures ReferenceSpans(d, |d|) == []
  {}

  lemma {:induction false} ReferenceFromSameMark(d: seq<byte>, end: nat, q: nat)
    requires end <= q && IsMark(d, q) && NextMark(d, end) == q
    ensures ReferenceSpans(d, end) == ReferenceSpans(d, q)
  {}

  lemma {:induction false} ScanIsOverrun(d: seq<byte>, from: nat, spans: seq<Span>)
    requires from <= |d|
    ensures ScanSpans(d, from, spans) == spans + Overrun(d, ReferenceSpans(d, from))
    decreases |d| - from
  {
    hide *;
    ScanUnfolds(d, from, spans);
    var p := NextMark(d, from);
    if p < |d| {
      var end := ScanEnd(d, p);
      var unit := NonEmpty(Span(p + 1, end));
      OverrunStep(d, from, p);
      ScanIsOverrun(d, end, spans + unit);
    }
  }

  lemma {:induction false} ScanUnfolds(d: seq<byte>, from: nat, spans: seq<Span>)
    requires from <= |d|
    ensures var p := NextMark(d, from);
            if p == |d| then ScanSpans(d, from, spans) == spans == spans + Overrun(d, ReferenceSpans(d, from))
            else ScanSpans(d, from, spans) == ScanSpans(d, ScanEnd(d, p), spans + NonEmpty(Span(p + 1, ScanEnd(d, p))))
  {
    hide NextMark, ScanEnd, NonEmpty;
  }

  /** One turn of the scan: skip a stray 0x01, or emit the unit after a mark. */
  lemma {:induction false} ScanTurn(d: seq<byte>, i: nat, p: nat, spans: seq<Span>)
    requires i <= |d| && p == NextOne(d, i)
    ensures p == |d| ==> ScanSpans(d, i, spans) == spans
    ensures p < |d| && !IsMark(d, p) ==> ScanSpans(d, i, spans) == ScanSpans(d, p + 1, spans)
    ensures IsMark(d, p) ==>
              ScanSpans(d, i, spans) == ScanSpans(d, ScanEnd(d, p), spans + NonEmpty(Span(p + 1, ScanEnd(d, p))))
  {
    NextMarkFromOne(d, i);
  }

  /** `memchr::memchr(0x01, &data[from..])`, as an absolute position. */
  method Memchr(d: seq<byte>, from: nat) returns (p: nat)
    requires from <= |d|
    ensures p == NextOne(d, from)
  {
    p := from;
    while p < |d| && d[p] != 1
      invariant from <= p <= |d|
      invariant NextOne(d, from) == NextOne(d, p)
    {
      p := p + 1;
    }
  }

  method FindUnitEnd(data: seq<byte>, start: nat) returns (end: nat)
    requires IsMark(data, start - 1)
    ensures end == ScanEnd(data, start - 1)
  {
    end := |data|;
    var absNext := Memchr(data, start);
    if absNext < |data| && absNext >= 2 && data[absNext - 1] == 0x00 && data[absNext - 2] == 0x00 {
      end := absNext - 2;
      if end > 0 && data[end - 1] == 0x00 {
        end := end - 1;
      }
    }
  }

  /** A `&data[start..end]` that the source pushes is the span (start, end). */
  method FindNalUnits(data: seq<byte>) returns (units: seq<Span>)
    ensures units == NalSpans(data)
  {
    hide NextMark, NextOne, ScanSpans, Overrun, ReferenceSpans;
    units := [];
    var i := 0;
    var absPos := Memchr(data, i);
    while absPos < |data|
      invariant i <= |data| && absPos == NextOne(data, i)
      invariant ScanSpans(data, 0, []) == ScanSpans(data, i, units)
      decreases |data| - i
    {
      ScanTurn(data, i, absPos, units);
      if absPos >= 2 && data[absPos - 1] == 0x00 && data[absPos - 2] == 0x00 {
        var start := absPos + 1;
        var end := FindUnitEnd(data, start);
        assert units + NonEmpty(Span(start, end)) == if start < end then units + [Span(start, end)] else units;
        if start < end {
          units := units + [Span(start, end)];
        }
        i := end;
      } else {
        i := absPos + 1;
      }
      absPos := Memchr(data, i);
    }
    ScanTurn(data, i, absPos, units);
    ScanIsOverrun(data, 0, []);
    if units == [] && data != [] {
      units := [Span(0, |data|)];
    }
  }
}
