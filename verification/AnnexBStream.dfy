/** What the splitter of module AnnexB means for whole byte streams: how far it
    agrees with the reference, the Annex B round trip, and the parameter sets. */
module AnnexBStream {
  import opened Wrappers
  import opened Bytes
  import opened AnnexB

  function Slices(d: seq<byte>, spans: seq<Span>): (units: seq<seq<byte>>)
    requires Within(d, spans)
    ensures |units| == |spans|
  {
    if spans == [] then [] else [d[spans[0].start..spans[0].end]] + Slices(d, spans[1..])
  }

  /** The byte strings `find_nal_units` yields. */
  function NalUnits(d: seq<byte>): seq<seq<byte>> {
    NalSpansWithin(d);
    Slices(d, NalSpans(d))
  }

  lemma {:induction false} NalSpansWithin(d: seq<byte>)
    ensures Within(d, NalSpans(d))
    ensures forall i :: 0 <= i < |NalSpans(d)| && d != [] ==> NalSpans(d)[i].start < NalSpans(d)[i].end
  {
    OverrunWithin(d, ReferenceSpans(d, 0));
  }

  lemma {:induction false} OverrunWithin(d: seq<byte>, spans: seq<Span>)
    requires Within(d, spans)
    ensures Within(d, Overrun(d, spans))
    ensures forall i :: 0 <= i < |Overrun(d, spans)| ==> Overrun(d, spans)[i].start < Overrun(d, spans)[i].end
  {
    if |spans| > 1 && !HasOne(d, spans[0]) {
      OverrunWithin(d, spans[1..]);
    }
  }

  // ---- the reference is the reference ----

  /** `spans` cut after every start code from `from` on and nowhere else, and
      each of them ends at the next start code or at the end of the data. */
  ghost predicate CutsEveryStartCode(d: seq<byte>, from: nat, spans: seq<Span>) {
    && StartAfterMarks(d, from, spans)
    && MarksStart(d, from, spans)
    && EndAtNextMarks(d, spans)
  }

  ghost predicate MarksStart(d: seq<byte>, from: nat, spans: seq<Span>) {
    forall p :: from <= p && IsMark(d, p) ==> StartsAt(spans, p + 1)
  }

  ghost predicate StartAfterMarks(d: seq<byte>, from: nat, spans: seq<Span>) {
    forall i :: 0 <= i < |spans| ==> from < spans[i].start && IsMark(d, spans[i].start - 1)
  }

  ghost predicate EndAtNextMarks(d: seq<byte>, spans: seq<Span>) {
    && (forall i :: 0 < i < |spans| ==> EndsAtNext(d, spans[i - 1], spans[i]))
    && (spans != [] ==> spans[|spans| - 1].end == |d|)
  }

  ghost predicate StartsAt(spans: seq<Span>, start: int) {
    exists i :: 0 <= i < |spans| && spans[i].start == start
  }

  ghost predicate EndsAtNext(d: seq<byte>, s: Span, next: Span) {
    s.start < next.start && IsMark(d, next.start - 1) && s.end == UnitEnd(d, next.start - 1)
  }

  lemma {:induction false} ReferenceCutsEveryStartCode(d: seq<byte>, from: nat)
    requires from <= |d|
    ensures CutsEveryStartCode(d, from, ReferenceSpans(d, from))
    decreases |d| - from
  {
    var p := NextMark(d, from);
    if p < |d| {
      var q := NextMark(d, p + 1);
      ReferenceStep(d, from, p, q);
      ReferenceCutsEveryStartCode(d, q);
      if q < |d| { ReferenceStep(d, q, q, NextMark(d, q + 1)); }
      CutsCons(d, from, p, q, ReferenceSpans(d, from));
    } else {
      forall m | from <= m && IsMark(d, m) ensures false {
        NextMarkIsFirst(d, from, m);
      }
    }
  }

  lemma {:induction false} CutsCons(d: seq<byte>, from: nat, p: nat, q: nat, spans: seq<Span>)
    requires from <= p && IsMark(d, p) && p < q <= |d| && (q == |d| || IsMark(d, q))
    requires NextMark(d, from) == p && NextMark(d, p + 1) == q
    requires spans != [] && spans[0] == Span(p + 1, UnitEnd(d, q))
    requires CutsEveryStartCode(d, q, spans[1..])
    requires q < |d| ==> |spans| > 1 && spans[1].start == q + 1
    requires q == |d| ==> |spans| == 1
    ensures CutsEveryStartCode(d, from, spans)
  {
    FirstSpanEnds(d, p, q, spans);
    hide NextMark, UnitEnd, IsMark, EndsAtNext, StartAfterMarks, EndAtNextMarks, MarksStart;
    MarksStartSpans(d, from, p, q, spans);
    StartAfterMarksCons(d, from, q, spans);
    EndAtNextMarksCons(d, spans);
  }

  lemma {:induction false} FirstSpanEnds(d: seq<byte>, p: nat, q: nat, spans: seq<Span>)
    requires p < q <= |d| && (q == |d| || IsMark(d, q))
    requires spans != [] && spans[0] == Span(p + 1, UnitEnd(d, q))
    requires if q == |d| then |spans| == 1 else |spans| > 1 && spans[1].start == q + 1
    ensures if |spans| == 1 then spans[0].end == |d| else EndsAtNext(d, spans[0], spans[1])
  {}

  lemma {:induction false} MarksStartSpans(d: seq<byte>, from: nat, p: nat, q: nat, spans: seq<Span>)
    requires from <= p < |d| && NextMark(d, from) == p && NextMark(d, p + 1) == q
    requires spans != [] && spans[0].start == p + 1 && MarksStart(d, q, spans[1..])
    ensures MarksStart(d, from, spans)
  {
    hide NextMark, IsMark, StartsAt;
    forall m | from <= m && IsMark(d, m) ensures StartsAt(spans, m + 1) {
      MarkIsFirstOrLater(d, from, p, q, m);
      StartsAtCons(spans, m + 1);
    }
  }

  lemma {:induction false} MarkIsFirstOrLater(d: seq<byte>, from: nat, p: nat, q: nat, m: nat)
    requires from <= p < |d| && NextMark(d, from) == p && NextMark(d, p + 1) == q
    requires from <= m && IsMark(d, m)
    ensures m == p || q <= m
  {
    NextMarkIsFirst(d, from, m);
    if m > p { NextMarkIsFirst(d, p + 1, m); }
  }

  lemma {:induction false} StartAfterMarksCons(d: seq<byte>, from: nat, q: nat, spans: seq<Span>)
    requires spans != [] && from < spans[0].start <= q && IsMark(d, spans[0].start - 1)
    requires StartAfterMarks(d, q, spans[1..])
    ensures StartAfterMarks(d, from, spans)
  {
    hide IsMark;
    forall i | 0 < i < |spans| ensures from < spans[i].start && IsMark(d, spans[i].start - 1) {
      assert spans[i] == spans[1..][i - 1];
    }
  }

  lemma {:induction false} EndAtNextMarksCons(d: seq<byte>, spans: seq<Span>)
    requires spans != [] && EndAtNextMarks(d, spans[1..])
    requires if |spans| == 1 then spans[0].end == |d| else EndsAtNext(d, spans[0], spans[1])
    ensures EndAtNextMarks(d, spans)
  {
    var rest := spans[1..];
    hide EndsAtNext;
    assert forall i :: 0 < i < |spans| ==> spans[i] == rest[i - 1];
    forall i | 0 < i < |spans| ensures EndsAtNext(d, spans[i - 1], spans[i]) {
      if i > 1 { assert EndsAtNext(d, rest[i - 2], rest[i - 1]); }
    }
  }

  lemma {:induction false} StartsAtCons(spans: seq<Span>, start: int)
    requires spans != []
    ensures StartsAt(spans[1..], start) || spans[0].start == start ==> StartsAt(spans, start)
  {
    if StartsAt(spans[1..], start) {
      var i :| 0 <= i < |spans[1..]| && spans[1..][i].start == start;
      assert spans[i + 1].start == start;
    }
  }

  // ---- where the code and the reference agree ----

  function NonEmptySpans(spans: seq<Span>): seq<Span> {
    if spans == [] then [] else NonEmpty(spans[0]) + NonEmptySpans(spans[1..])
  }

  /** The first non-final span that holds a 0x01 byte; the final one if none does. */
  function FirstOverrun(d: seq<byte>, spans: seq<Span>): (k: nat)
    requires spans != [] && Within(d, spans)
    ensures k < |spans|
    ensures k < |spans| - 1 ==> HasOne(d, spans[k])
    ensures forall i :: 0 <= i < k ==> !HasOne(d, spans[i])
  {
    if |spans| == 1 || HasOne(d, spans[0]) then 0 else 1 + FirstOverrun(d, spans[1..])
  }

  /** The code's units: the reference's non-empty units before the first
      overrun, then one unit from the overrun's start to the end of the data. */
  lemma {:induction false} UnitsUpToFirstOverrun(d: seq<byte>, spans: seq<Span>)
    requires spans != [] && Within(d, spans)
    ensures var k := FirstOverrun(d, spans);
            Overrun(d, spans) == NonEmptySpans(spans[..k]) + NonEmpty(Span(spans[k].start, |d|))
  {
    hide FirstOverrun, HasOne, NonEmpty, Within, Overrun;
    var k := FirstOverrun(d, spans);
    FirstOverrunStep(d, spans);
    if k == 0 {
      assert NonEmptySpans(spans[..0]) == [];
    } else {
      UnitsUpToFirstOverrun(d, spans[1..]);
      assert spans[..k][1..] == spans[1..][..k - 1] && spans[..k][0] == spans[0];
      assert NonEmptySpans(spans[..k]) == NonEmpty(spans[0]) + NonEmptySpans(spans[1..][..k - 1]);
      hide NonEmptySpans;
    }
  }

  lemma {:induction false} FirstOverrunStep(d: seq<byte>, spans: seq<Span>)
    requires spans != [] && Within(d, spans)
    ensures FirstOverrun(d, spans) == 0 ==> Overrun(d, spans) == NonEmpty(Span(spans[0].start, |d|))
    ensures FirstOverrun(d, spans) > 0 ==>
              && |spans| > 1 && Within(d, spans[1..]) && FirstOverrun(d, spans[1..]) == FirstOverrun(d, spans) - 1
              && Overrun(d, spans) == NonEmpty(spans[0]) + Overrun(d, spans[1..])
  {
    hide HasOne, NonEmpty;
  }

  ghost predicate NoOverrun(d: seq<byte>, spans: seq<Span>)
    requires Within(d, spans)
  {
    forall i :: 0 <= i < |spans| - 1 ==> !HasOne(d, spans[i])
  }

  lemma {:induction false} OverrunAgrees(d: seq<byte>, spans: seq<Span>)
    requires Within(d, spans)
    requires forall i :: 0 <= i < |spans| ==> (spans[i].end == |d| <==> i == |spans| - 1)
    ensures Overrun(d, spans) == NonEmptySpans(spans) <==> NoOverrun(d, spans)
  {
    if spans == [] {
    } else if |spans| == 1 {
      assert NonEmptySpans(spans[1..]) == [];
    } else if HasOne(d, spans[0]) {
      assert NonEmptySpans(spans)[0] == spans[0];
    } else {
      OverrunAgrees(d, spans[1..]);
      var a, b := Overrun(d, spans[1..]), NonEmptySpans(spans[1..]);
      assert (NonEmpty(spans[0]) + a)[|NonEmpty(spans[0])|..] == a;
      assert (NonEmpty(spans[0]) + b)[|NonEmpty(spans[0])|..] == b;
      assert NoOverrun(d, spans) <==> NoOverrun(d, spans[1..]) by {
        assert forall i :: 0 < i < |spans| ==> spans[i] == spans[1..][i - 1];
      }
    }
  }

  lemma {:induction false} OnlyTheLastReachesTheEnd(d: seq<byte>, spans: seq<Span>)
    requires CutsEveryStartCode(d, 0, spans)
    ensures forall i :: 0 <= i < |spans| ==> (spans[i].end == |d| <==> i == |spans| - 1)
  {
    forall i | 0 <= i < |spans| - 1 ensures spans[i].end < |d| {
      assert EndsAtNext(d, spans[(i + 1) - 1], spans[i + 1]);
    }
  }

  /** The splitter returns the reference's non-empty units exactly when there is
      one (or there is no data) and no unit but the last holds a 0x01 byte. */
  lemma {:induction false} SplitterAgreesWithReference(d: seq<byte>)
    ensures var spans := ReferenceSpans(d, 0);
            NalSpans(d) == NonEmptySpans(spans)
            <==> NoOverrun(d, spans) && (d == [] || NonEmptySpans(spans) != [])
  {
    var spans := ReferenceSpans(d, 0);
    ReferenceCutsEveryStartCode(d, 0);
    var o := Overrun(d, spans);
    assert NalSpans(d) == if o == [] && d != [] then [Span(0, |d|)] else o;
    hide *;
    OnlyTheLastReachesTheEnd(d, spans);
    OverrunAgrees(d, spans);
    OverrunEmpty(d, spans);
  }

  lemma {:induction false} OverrunEmpty(d: seq<byte>, spans: seq<Span>)
    requires Within(d, spans)
    ensures Overrun(d, spans) == [] ==> NonEmptySpans(spans) == []
  {
    if spans == [] {
    } else {
      OverrunEmpty(d, spans[1..]);
      if |spans| == 1 { assert NonEmptySpans(spans[1..]) == []; }
    }
  }

  /** A two-unit stream whose first unit holds a 0x01: the code returns one unit. */
  lemma {:induction false} SplitterCanDisagree()
    ensures var d := [0, 0, 1, 9, 1, 0, 0, 1, 5];
            && ReferenceSpans(d, 0) == [Span(3, 5), Span(8, 9)]
            && NalSpans(d) == [Span(3, 9)]
  {
    var d: seq<byte> := [0, 0, 1, 9, 1, 0, 0, 1, 5];
    assert NextMark(d, 0) == 2 by { assert NextMark(d, 1) == 2; }
    assert NextMark(d, 3) == 7 by { assert NextMark(d, 5) == 7 by { assert NextMark(d, 6) == 7; } assert NextMark(d, 4) == 7; }
    assert NextMark(d, 8) == 9 by { assert NextMark(d, 9) == 9; }
    assert NextMark(d, 7) == 7;
    assert UnitEnd(d, 7) == 5 && UnitEnd(d, 9) == 9;
    hide NextMark, UnitEnd, IsMark;
    assert ReferenceSpans(d, 9) == [];
    assert ReferenceSpans(d, 7) == [Span(8, 9)];
    assert ReferenceSpans(d, 0) == [Span(3, 5), Span(8, 9)];
    assert HasOne(d, Span(3, 5)) by { assert d[4] == 1; }
  }

  /** Data in which the reference finds no unit with a byte in it, such as data
      without a start code, comes back as one unit. */
  lemma {:induction false} WholeWithoutUnits(d: seq<byte>)
    requires NonEmptySpans(ReferenceSpans(d, 0)) == []
    ensures NalUnits(d) == if d == [] then [] else [d]
  {
    NalSpansWithin(d);
    assert NalSpans(d) == if d == [] then [] else [Span(0, |d|)] by {
      ReferenceCutsEveryStartCode(d, 0);
      hide CutsEveryStartCode, ReferenceSpans, Overrun, NonEmptySpans;
      OnlyTheLastReachesTheEnd(d, ReferenceSpans(d, 0));
      OverrunNothing(d, ReferenceSpans(d, 0));
    }
    hide NalSpans, NonEmptySpans, ReferenceSpans;
    if d != [] {
      SliceOfAll(d);
    }
  }

  lemma {:induction false} SliceOfAll(d: seq<byte>)
    ensures Within(d, [Span(0, |d|)]) && Slices(d, [Span(0, |d|)]) == [d]
  {
    assert d[0..|d|] == d && [Span(0, |d|)][1..] == [];
    assert Slices(d, []) == [];
  }

  lemma {:induction false} OverrunNothing(d: seq<byte>, spans: seq<Span>)
    requires Within(d, spans) && NonEmptySpans(spans) == [] && (forall i :: 0 <= i < |spans| ==> (spans[i].end == |d| <==> i == |spans| - 1))
    ensures Overrun(d, spans) == []
  {
    if spans == [] {
    } else {
      assert NonEmpty(spans[0]) == [] && NonEmptySpans(spans[1..]) == [];
      if |spans| > 1 { OverrunNothing(d, spans[1..]); }
    }
  }

  /** No start code is needed for that. */
  lemma {:induction false} NoStartCodeIsWhole(d: seq<byte>)
    requires d != [] && forall p :: 0 <= p < |d| ==> !IsMark(d, p)
    ensures NalUnits(d) == [d]
  {
    hide *;
    NoMarkNoSpans(d);
    WholeWithoutUnits(d);
  }

  lemma {:induction false} NoMarkNoSpans(d: seq<byte>)
    requires forall p :: 0 <= p < |d| ==> !IsMark(d, p)
    ensures NonEmptySpans(ReferenceSpans(d, 0)) == []
  {
    var p := NextMark(d, 0);
    assert p < |d| ==> IsMark(d, p);
  }

  // ---- the Annex B round trip ----

  /** A NAL unit as ITU-T H.264 section 7.4.1 allows it in a byte stream. */
  predicate LegalUnit(u: seq<byte>) {
    u != [] && u[|u| - 1] != 0 && forall j :: 0 <= j < |u| ==> !IsMark(u, j)
  }

  function StartCode(long: bool): seq<byte> {
    if long then [0, 0, 0, 1] else [0, 0, 1]
  }

  /** Byte stream of section B.1.1: a 3- or 4-byte start code before each unit. */
  function Serialize(units: seq<seq<byte>>, long: seq<bool>): seq<byte>
    requires |units| == |long|
  {
    if units == [] then [] else StartCode(long[0]) + units[0] + Serialize(units[1..], long[1..])
  }

  ghost predicate OnlyLastHoldsOne(units: seq<seq<byte>>) {
    forall i :: 0 <= i < |units| - 1 ==> !HoldsOne(units[i])
  }

  /** Legal units survive serialisation and splitting, whatever the mix of
      start codes, exactly when no unit but the last holds a 0x01 byte. */
  lemma {:induction false} RoundTrip(units: seq<seq<byte>>, long: seq<bool>)
    requires |units| == |long| && forall u <- units :: LegalUnit(u)
    ensures NalUnits(Serialize(units, long)) == units <==> OnlyLastHoldsOne(units)
  {
    var d := Serialize(units, long);
    NalSpansWithin(d);
    if units != [] {
      RoundTripFrom(d, 0, units, long);
      assert Overrun(d, ReferenceSpans(d, 0)) != [];
    } else {
      assert d == [];
      assert ReferenceSpans(d, 0) == [] by { assert NextMark(d, 0) == 0; }
    }
  }

  ghost predicate Tail(d: seq<byte>, start: nat, t: seq<byte>) {
    start <= |d| && d[start..] == t
  }

  ghost predicate Range(d: seq<byte>, start: nat, end: nat, t: seq<byte>) {
    start <= end <= |d| && d[start..end] == t
  }

  ghost predicate HoldsOne(u: seq<byte>) {
    exists j :: 0 <= j < |u| && u[j] == 1
  }

  /** What the splitter makes of the data from `from` on, when it serialises `units`. */
  ghost predicate Recovered(d: seq<byte>, from: nat, units: seq<seq<byte>>) {
    from <= |d| && RecoveredAs(d, Overrun(d, ReferenceSpans(d, from)), units)
  }

  ghost predicate RecoveredAs(d: seq<byte>, spans: seq<Span>, units: seq<seq<byte>>) {
    && Within(d, spans) && spans != []
    && (if OnlyLastHoldsOne(units) then Slices(d, spans) == units else |spans| < |units|)
  }

  lemma {:induction false} RoundTripFrom(d: seq<byte>, from: nat, units: seq<seq<byte>>, long: seq<bool>)
    requires |units| == |long| > 0 && forall u <- units :: LegalUnit(u)
    requires Tail(d, from, Serialize(units, long))
    ensures Recovered(d, from, units)
    decreases |units|
  {
    var u, rest := units[0], Serialize(units[1..], long[1..]);
    assert LegalUnit(u) && u != [];
    hide *;
    var p := NextMark(d, from);
    StreamHead(d, from, units, long);
    if |units| == 1 {
      LastUnitEnd(d, p, u);
      LastUnitRecovered(d, from, p, units);
    } else {
      InnerUnitEnd(d, p, u, long[1], rest);
      if HoldsOne(u) {
        OverrunRecovered(d, from, p, units);
      } else {
        RoundTripFrom(d, ScanEnd(d, p), units[1..], long[1..]);
        RecoveredCons(d, from, p, units);
      }
    }
  }

  /** The first unit of a stream stands between its start code and the next one. */
  lemma {:induction false} StreamHead(d: seq<byte>, from: nat, units: seq<seq<byte>>, long: seq<bool>)
    requires |units| == |long| > 0 && units[0] != []
    requires Tail(d, from, Serialize(units, long))
    ensures var p := NextMark(d, from);
            && p < |d| - 1 && Tail(d, p + 1, units[0] + Serialize(units[1..], long[1..]))
            && (|units| == 1 ==> Tail(d, p + 1, units[0]))
            && (|units| > 1 ==>
                  StartCode(long[1]) <= Serialize(units[1..], long[1..]))
  {
    AtStartCode(d, from, long[0], units[0], Serialize(units[1..], long[1..]));
    hide NextMark, StartCode;
  }

  lemma {:induction false} UnitThenRest(d: seq<byte>, start: nat, u: seq<byte>, rest: seq<byte>)
    requires Tail(d, start, u + rest)
    ensures Range(d, start, start + |u|, u) && Tail(d, start + |u|, rest)
  {
    assert d[start..start + |u|] == d[start..][..|u|];
    assert d[start + |u|..] == d[start..][|u|..];
  }

  lemma {:induction false} RecoveredCons(d: seq<byte>, from: nat, p: nat, units: seq<seq<byte>>)
    requires from <= |d| && p == NextMark(d, from) < |d| && |units| > 1 && units[0] != [] && !HoldsOne(units[0])
    requires Range(d, p + 1, ScanEnd(d, p), units[0])
    requires Recovered(d, ScanEnd(d, p), units[1..])
    ensures Recovered(d, from, units)
  {
    var s := Span(p + 1, ScanEnd(d, p));
    assert NonEmpty(s) == [s];
    OverrunStep(d, from, p);
    hide NextMark, ScanEnd, ReferenceSpans, Overrun, NonEmpty, RecoveredAs;
    RecoveredAsCons(d, s, Overrun(d, ReferenceSpans(d, s.end)), units);
  }

  lemma {:induction false} RecoveredAsCons(d: seq<byte>, s: Span, spans: seq<Span>, units: seq<seq<byte>>)
    requires |units| > 1 && !HoldsOne(units[0])
    requires s.start <= s.end <= |d| && d[s.start..s.end] == units[0]
    requires RecoveredAs(d, spans, units[1..])
    ensures RecoveredAs(d, [s] + spans, units)
  {
    ConsUnit(units);
    SlicesCons(d, s, spans);
    hide Slices, Within, OnlyLastHoldsOne;
  }

  lemma {:induction false} ToTheEnd(d: seq<byte>, from: nat, p: nat)
    requires from <= |d| && p == NextMark(d, from) < |d| - 1 && ScanEnd(d, p) == |d|
    ensures Overrun(d, ReferenceSpans(d, from)) == [Span(p + 1, |d|)]
  {
    OverrunStep(d, from, p);
    ReferenceAtEnd(d);
  }

  lemma {:induction false} LastUnitRecovered(d: seq<byte>, from: nat, p: nat, units: seq<seq<byte>>)
    requires from <= |d| && p == NextMark(d, from) < |d| - 1 && ScanEnd(d, p) == |d|
    requires |units| == 1 && Tail(d, p + 1, units[0])
    ensures Recovered(d, from, units)
  {
    ToTheEnd(d, from, p);
    hide NextMark, ScanEnd, ReferenceSpans, Overrun;
    SlicesCons(d, Span(p + 1, |d|), []);
    assert d[p + 1..|d|] == d[p + 1..];
  }

  lemma {:induction false} OverrunRecovered(d: seq<byte>, from: nat, p: nat, units: seq<seq<byte>>)
    requires from <= |d| && p == NextMark(d, from) < |d| - 1 && ScanEnd(d, p) == |d|
    requires |units| > 1 && HoldsOne(units[0])
    ensures Recovered(d, from, units)
  {
    ToTheEnd(d, from, p);
    hide NextMark, ScanEnd, ReferenceSpans, Overrun;
    assert !OnlyLastHoldsOne(units);
  }

  lemma {:induction false} ConsUnit(units: seq<seq<byte>>)
    requires |units| > 1 && !HoldsOne(units[0])
    ensures OnlyLastHoldsOne(units) <==> OnlyLastHoldsOne(units[1..])
    ensures units == [units[0]] + units[1..]
  {
    assert forall i :: 0 < i < |units| ==> units[i] == units[1..][i - 1];
  }

  lemma {:induction false} SlicesCons(d: seq<byte>, s: Span, spans: seq<Span>)
    requires s.start <= s.end <= |d| && Within(d, spans)
    ensures Within(d, [s] + spans) && Slices(d, [s] + spans) == [d[s.start..s.end]] + Slices(d, spans)
  {
    assert ([s] + spans)[1..] == spans;
  }

  /** The start code at `from` is the first mark, and the unit's bytes follow it. */
  lemma {:induction false} AtStartCode(d: seq<byte>, from: nat, long: bool, u: seq<byte>, rest: seq<byte>)
    requires Tail(d, from, StartCode(long) + u + rest)
    ensures var p := from + |StartCode(long)| - 1;
            NextMark(d, from) == p < |d| && Tail(d, p + 1, u + rest)
  {
    var p, t := from + |StartCode(long)| - 1, d[from..];
    assert d[from] == t[0] && d[from + 1] == t[1] && d[from + 2] == t[2];
    assert long ==> d[from + 3] == t[3];
    NextMarkInZeros(d, from, p);
    assert d[p + 1..] == t[|StartCode(long)|..];
  }

  /** A mark inside the bytes of a unit is a mark of the unit itself. */
  lemma {:induction false} MarkInside(d: seq<byte>, p: nat, u: seq<byte>, o: nat)
    requires IsMark(d, p) && p < o <= p + |u| < |d| && Range(d, p + 1, p + 1 + |u|, u) && IsMark(d, o)
    ensures IsMark(u, o - p - 1)
  {
    assert forall j :: 0 <= j < |u| ==> d[p + 1 + j] == u[j];
  }

  lemma {:induction false} LastUnitEnd(d: seq<byte>, p: nat, u: seq<byte>)
    requires IsMark(d, p) && LegalUnit(u) && Tail(d, p + 1, u)
    ensures ScanEnd(d, p) == |d|
  {
    var o := NextOne(d, p + 1);
    if IsMark(d, o) {
      assert Range(d, p + 1, p + 1 + |u|, u);
      MarkInside(d, p, u, o);
    }
  }

  lemma {:induction false} InnerUnitEnd(d: seq<byte>, p: nat, u: seq<byte>, long: bool, rest: seq<byte>)
    requires IsMark(d, p) && LegalUnit(u) && Tail(d, p + 1, u + rest) && StartCode(long) <= rest
    ensures HoldsOne(u) ==> ScanEnd(d, p) == |d|
    ensures !HoldsOne(u) ==> Range(d, p + 1, ScanEnd(d, p), u) && Tail(d, ScanEnd(d, p), rest)
  {
    UnitThenRest(d, p + 1, u, rest);
    if HoldsOne(u) {
      InnerUnitOverruns(d, p, u);
    } else {
      ZerosThenOne(d, p + 1 + |u|, long, rest);
      hide *;
      InnerUnitStops(d, p, u, if long then 4 else 3);
    }
  }

  lemma {:induction false} ZerosThenOne(d: seq<byte>, e: nat, long: bool, rest: seq<byte>)
    requires Tail(d, e, rest) && StartCode(long) <= rest
    ensures var c := if long then 4 else 3;
            e + c <= |d| && d[e + c - 1] == 1 && forall j :: e <= j < e + c - 1 ==> d[j] == 0
  {
    var c := |StartCode(long)|;
    forall j | e <= j < e + c ensures d[j] == StartCode(long)[j - e] {
      assert d[j] == rest[j - e] == StartCode(long)[j - e];
    }
  }

  lemma {:induction false} InnerUnitOverruns(d: seq<byte>, p: nat, u: seq<byte>)
    requires IsMark(d, p) && LegalUnit(u) && p + |u| < |d| && Range(d, p + 1, p + 1 + |u|, u) && HoldsOne(u)
    ensures ScanEnd(d, p) == |d|
  {
    var o := NextOne(d, p + 1);
    var j :| 0 <= j < |u| && u[j] == 1;
    assert d[p + 1 + j] == d[p + 1..p + 1 + |u|][j];
    NextOneIsFirst(d, p + 1, p + 1 + j);
    if IsMark(d, o) {
      MarkInside(d, p, u, o);
    }
  }

  lemma {:induction false} InnerUnitStops(d: seq<byte>, p: nat, u: seq<byte>, c: nat)
    requires IsMark(d, p) && LegalUnit(u) && 3 <= c <= 4 && p + |u| + c < |d|
    requires Range(d, p + 1, p + 1 + |u|, u) && !HoldsOne(u)
    requires d[p + |u| + c] == 1 && forall j :: p + 1 + |u| <= j < p + |u| + c ==> d[j] == 0
    ensures ScanEnd(d, p) == p + 1 + |u|
  {
    forall j | p < j < p + |u| + c ensures d[j] != 1 {
      if j <= p + |u| { assert d[j] == u[j - p - 1] != 1; }
    }
    assert d[p + |u|] == u[|u| - 1];
    NextOneIs(d, p + 1, p + |u| + c);
  }

  lemma {:induction false} NextOneIs(d: seq<byte>, from: nat, o: nat)
    requires from <= o < |d| && d[o] == 1 && forall j :: from <= j < o ==> d[j] != 1
    ensures NextOne(d, from) == o
  {
    NextOneIsFirst(d, from, o);
  }

  // ---- parameter sets ----

  function NalType(u: seq<byte>): nat {
    if u == [] then 0 else u[0] % 32
  }

  ghost predicate Holds(units: seq<seq<byte>>, t: nat) {
    exists i :: 0 <= i < |units| && units[i] != [] && NalType(units[i]) == t
  }

  /** The last unit of the given type. */
  function LastOfType(units: seq<seq<byte>>, t: nat): (u: Option<seq<byte>>)
    ensures u.Some? <==> Holds(units, t)
  {
    if units == [] then None
    else
      var last := units[|units| - 1];
      if last != [] && NalType(last) == t then Some(last) else LastOfType(units[..|units| - 1], t)
  }

  /** It has that type, and no later unit has. */
  lemma {:induction false} LastOfTypeIs(units: seq<seq<byte>>, t: nat) returns (i: nat)
    requires LastOfType(units, t).Some?
    ensures i < |units| && units[i] != [] && LastOfType(units, t) == Some(units[i]) && units[i][0] % 32 == t
    ensures forall j :: i < j < |units| ==> units[j] == [] || units[j][0] % 32 != t
  {
    var last := units[|units| - 1];
    if last != [] && NalType(last) == t {
      i := |units| - 1;
    } else {
      i := LastOfTypeIs(units[..|units| - 1], t);
    }
  }

  predicate HoldsBoth(units: seq<seq<byte>>) {
    LastOfType(units, 7).Some? && LastOfType(units, 8).Some?
  }

  /** The length of the shortest prefix, of at least `from` units, that holds
      both an SPS and a PPS; the whole length when no prefix does. */
  function SetsPrefix(units: seq<seq<byte>>, from: nat): (k: nat)
    requires from <= |units|
    ensures from <= k <= |units|
    ensures k < |units| ==> HoldsBoth(units[..k])
    ensures forall j :: from <= j < k ==> !HoldsBoth(units[..j])
    decreases |units| - from
  {
    if from == |units| || HoldsBoth(units[..from]) then from else SetsPrefix(units, from + 1)
  }

  lemma {:induction false} LastOfTypeStep(units: seq<seq<byte>>, i: nat, t: nat)
    requires i <= |units|
    ensures i == 0 ==> LastOfType(units[..i], t) == None
    ensures i < |units| ==> LastOfType(units[..i + 1], t)
                            == if units[i] != [] && NalType(units[i]) == t then Some(units[i])
                               else LastOfType(units[..i], t)
  {
    assert i < |units| ==> units[..i + 1][..i] == units[..i];
  }

  /** The prefix in which the parameter sets are sought: as soon as it holds a unit of
      type 7 and one of type 8 it ends, and without both it is all units. */
  lemma {:induction false} SetsPrefixExactly(units: seq<seq<byte>>)
    ensures var k := SetsPrefix(units, 0);
            && (k < |units| ==> Holds(units[..k], 7) && Holds(units[..k], 8))
            && (forall j :: 0 <= j < k ==> !(Holds(units[..j], 7) && Holds(units[..j], 8)))
  {
    var k := SetsPrefix(units, 0);
    assert k < |units| ==> HoldsBoth(units[..k]);
    forall j | 0 <= j < k ensures !(Holds(units[..j], 7) && Holds(units[..j], 8)) {
      assert !HoldsBoth(units[..j]);
    }
  }

  lemma {:induction false} SetsPrefixStep(units: seq<seq<byte>>, i: nat)
    requires i <= |units|
    ensures i == |units| || HoldsBoth(units[..i]) ==> SetsPrefix(units, i) == i
    ensures i < |units| && !HoldsBoth(units[..i]) ==> SetsPrefix(units, i) == SetsPrefix(units, i + 1)
  {}

  /** `extract_h264_parameter_sets`: the last SPS and the last PPS of the
      shortest prefix of the units that holds both. */
  method ExtractParameterSets(data: seq<byte>) returns (sps: Option<seq<byte>>, pps: Option<seq<byte>>)
    ensures var units := NalUnits(data);
            var k := SetsPrefix(units, 0);
            sps == LastOfType(units[..k], 7) && pps == LastOfType(units[..k], 8)
  {
    hide NalSpans, Slices, Within, SetsPrefix, LastOfType, ReferenceSpans;
    var spans := FindNalUnits(data);
    NalSpansWithin(data);
    SetsPrefixStep(NalUnits(data), 0);
    LastOfTypeStep(NalUnits(data), 0, 7);
    LastOfTypeStep(NalUnits(data), 0, 8);
    ghost var units := Slices(data, spans);
    sps, pps := None, None;
    var i := 0;
    while i < |spans|
      invariant 0 <= i <= |spans| && SetsPrefix(units, 0) == SetsPrefix(units, i)
      invariant sps == LastOfType(units[..i], 7) && pps == LastOfType(units[..i], 8)
      invariant !(sps.Some? && pps.Some?)
    {
      SlicesAt(data, spans, i);
      var unit := data[spans[i].start..spans[i].end];
      LastOfTypeStep(units, i, 7);
      LastOfTypeStep(units, i, 8);
      SetsPrefixStep(units, i);
      i := i + 1;
      if unit == [] {
        continue;
      }
      match unit[0] % 32 {
        case 7 => sps := Some(unit);
        case 8 => pps := Some(unit);
        case _ =>
      }
      if sps.Some? && pps.Some? {
        break;
      }
    }
  }

  lemma {:induction false} SlicesAt(d: seq<byte>, spans: seq<Span>, i: nat)
    requires Within(d, spans) && i < |spans|
    ensures Slices(d, spans)[i] == d[spans[i].start..spans[i].end]
  {
    if i == 0 {
    } else {
      SlicesAt(d, spans[1..], i - 1);
    }
  }
}
