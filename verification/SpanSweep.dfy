/** Whether a selected interval is recorded: one sweep over the recording spans in start order. */
module SpanSweep {

  /** Times in seconds; recorders leave up to a millisecond between segments. */
  const TOLERANCE: real := 0.001

  datatype Span = Span(started: real, duration: real)
  {
    function End(): real {
      started + duration
    }

    predicate Covers(t: real) {
      started <= t < End()
    }
  }

  ghost predicate Covered(spans: seq<Span>, t: real) {
    exists span :: span in spans && span.Covers(t)
  }

  /** Nothing inside the open interval (a, b) is recorded. */
  ghost predicate Unrecorded(spans: seq<Span>, a: real, b: real) {
    forall t: real | a < t < b :: !Covered(spans, t)
  }

  /** An unrecorded stretch of the selection too long to ignore. */
  ghost predicate Gap(spans: seq<Span>, start: real, end: real, a: real, b: real) {
    start <= a && b <= end && b - a > TOLERANCE && Unrecorded(spans, a, b)
  }

  ghost predicate HasGap(spans: seq<Span>, start: real, end: real) {
    exists a, b :: Gap(spans, start, end, a, b)
  }

  lemma GapsInline(spans: seq<Span>, start: real, end: real)
    ensures HasGap(spans, start, end) <==>
            exists a, b :: start <= a && b <= end && b - a > 0.001 && Unrecorded(spans, a, b)
  {
    if HasGap(spans, start, end) {
      var a, b :| Gap(spans, start, end, a, b);
      assert Unrecorded(spans, a, b);
    }
    if a, b :| start <= a && b <= end && b - a > 0.001 && Unrecorded(spans, a, b) {
      assert Gap(spans, start, end, a, b);
    }
  }

  // ---------------------------------------------------------------- in start order

  ghost predicate Ordered(spans: seq<Span>) {
    forall i, j | 0 <= i <= j < |spans| :: spans[i].started <= spans[j].started
  }

  function Inserted(spans: seq<Span>, span: Span): seq<Span> {
    if spans == [] || span.started < spans[0].started then [span] + spans
    else [spans[0]] + Inserted(spans[1..], span)
  }

  function SortedByStart(spans: seq<Span>): seq<Span> {
    if spans == [] then []
    else Inserted(SortedByStart(spans[..|spans| - 1]), spans[|spans| - 1])
  }

  lemma {:induction false} InsertedPermutes(spans: seq<Span>, span: Span)
    ensures multiset(Inserted(spans, span)) == multiset(spans) + multiset{span}
  {
    if spans == [] || span.started < spans[0].started {
      assert multiset([span] + spans) == multiset([span]) + multiset(spans);
    } else {
      InsertedPermutes(spans[1..], span);
      assert spans == [spans[0]] + spans[1..];
    }
  }

  lemma {:induction false} InsertedOrdered(spans: seq<Span>, span: Span)
    requires Ordered(spans)
    ensures Ordered(Inserted(spans, span))
    ensures forall i | 0 <= i < |Inserted(spans, span)| ::
              Inserted(spans, span)[i] == span || Inserted(spans, span)[i] in spans
  {
    if spans != [] && span.started >= spans[0].started {
      InsertedOrdered(spans[1..], span);
      assert spans == [spans[0]] + spans[1..];
    }
  }

  lemma {:induction false} SortedFacts(spans: seq<Span>)
    ensures Ordered(SortedByStart(spans)) && multiset(SortedByStart(spans)) == multiset(spans)
  {
    if spans != [] {
      var init, last := spans[..|spans| - 1], spans[|spans| - 1];
      SortedFacts(init);
      InsertedPermutes(SortedByStart(init), last);
      InsertedOrdered(SortedByStart(init), last);
      assert spans == init + [last];
    }
  }

  /** Order does not matter to what is recorded. */
  lemma SortingKeepsCoverage(spans: seq<Span>)
    ensures forall span :: span in SortedByStart(spans) <==> span in spans
    ensures forall start, end :: HasGap(SortedByStart(spans), start, end) <==> HasGap(spans, start, end)
  {
    var sorted := SortedByStart(spans);
    SortedFacts(spans);
    forall span
      ensures span in sorted <==> span in spans
    {
      assert span in sorted <==> span in multiset(sorted);
    }
    assert forall t :: Covered(sorted, t) <==> Covered(spans, t);
    assert forall a, b :: Unrecorded(sorted, a, b) <==> Unrecorded(spans, a, b);
    forall start, end
      ensures HasGap(sorted, start, end) <==> HasGap(spans, start, end)
    {
      assert forall a, b :: Gap(sorted, start, end, a, b) <==> Gap(spans, start, end, a, b);
    }
  }

  // ---------------------------------------------------------------- the sweep

  /** The cursor rests on the selection's start or on the end of a span already seen. */
  ghost predicate Rests(spans: seq<Span>, start: real, cursor: real) {
    cursor == start || exists span :: span in spans && span.End() == cursor && span.started < cursor
  }

  /** No long unrecorded stretch lies between the start and the cursor. */
  ghost predicate SweptTo(spans: seq<Span>, start: real, cursor: real) {
    cursor >= start && Rests(spans, start, cursor) && !HasGap(spans, start, cursor)
  }

  /** A span that reaches into an interval records some moment of it. */
  lemma Touched(spans: seq<Span>, span: Span, a: real, b: real) returns (t: real)
    requires span in spans && span.started < span.End() && span.started < b && a < span.End() && a < b
    ensures a < t < b && Covered(spans, t)
  {
    var from := if a < span.started then span.started else a;
    var past := if b < span.End() then b else span.End();
    t := (from + past) / 2.0;
    assert span.Covers(t);
  }

  /** An unrecorded stretch of the selection cannot straddle the cursor. */
  lemma NoStraddling(spans: seq<Span>, start: real, cursor: real, a: real, b: real)
    requires Rests(spans, start, cursor) && start <= a && b > cursor && Unrecorded(spans, a, b)
    ensures a >= cursor
  {
    if a < cursor {
      var span :| span in spans && span.End() == cursor && span.started < cursor;
      var t := Touched(spans, span, a, b);
    }
  }

  /** Any gap of a longer selection starts at the cursor or later. */
  lemma GapIsAhead(spans: seq<Span>, start: real, cursor: real, end: real, a: real, b: real)
    requires SweptTo(spans, start, cursor) && Gap(spans, start, end, a, b)
    ensures a >= cursor
  {
    assert !Gap(spans, start, cursor, a, b);
    NoStraddling(spans, start, cursor, a, b);
  }

  lemma SpanReached(spans: seq<Span>, start: real, cursor: real, span: Span)
    requires SweptTo(spans, start, cursor)
    requires span in spans && span.duration > 0.0 && span.started <= cursor + TOLERANCE
    ensures SweptTo(spans, start, if span.End() > cursor then span.End() else cursor)
  {
    if span.End() > cursor {
      forall a, b | Gap(spans, start, span.End(), a, b)
        ensures false
      {
        GapIsAhead(spans, start, cursor, span.End(), a, b);
        var t := Touched(spans, span, a, b);
      }
    }
  }

  /** Where the sweep ends it has the answer: what is left of the selection is short, or a gap starts at the cursor. */
  lemma SweepDecides(spans: seq<Span>, start: real, end: real, cursor: real, next: real)
    requires SweptTo(spans, start, cursor)
    requires forall span | span in spans :: span.End() <= cursor || span.started >= next
    requires next > cursor + TOLERANCE || cursor >= end - TOLERANCE
    ensures cursor >= end - TOLERANCE <==> !HasGap(spans, start, end)
  {
    if cursor >= end - TOLERANCE {
      forall a, b | Gap(spans, start, end, a, b)
        ensures false
      {
        GapIsAhead(spans, start, cursor, end, a, b);
      }
    } else {
      var b := if next < end then next else end;
      assert Gap(spans, start, end, cursor, b);
    }
  }

  /**
   The check `create` makes before it reserves anything: accepted exactly when no unrecorded stretch
   longer than a millisecond lies inside the selection. Recorded spans have positive length.
   */
  method Recorded(spans: seq<Span>, start: real, end: real) returns (accepted: bool)
    requires forall span | span in spans :: span.duration > 0.0
    ensures accepted <==> !exists a, b :: start <= a && b <= end && b - a > 0.001 && Unrecorded(spans, a, b)
  {
    SortingKeepsCoverage(spans);
    SortedFacts(spans);
    var sorted := SortedByStart(spans);
    var cursor := start;
    var i := 0;
    while i < |sorted|
      invariant 0 <= i <= |sorted|
      invariant SweptTo(sorted, start, cursor)
      invariant forall k | 0 <= k < i :: sorted[k].End() <= cursor
    {
      var span := sorted[i];
      if span.started > cursor + TOLERANCE {
        break;
      }
      SpanReached(sorted, start, cursor, span);
      if span.End() > cursor {
        cursor := span.End();
      }
      i := i + 1;
    }
    accepted := !(cursor < end - TOLERANCE);
    GapsInline(spans, start, end);
    SweepDecides(sorted, start, end, cursor, if i < |sorted| then sorted[i].started else cursor + 2.0 * TOLERANCE + (end - cursor));
  }
}
