/**
 The leading video offset: the first presented sample after an edit, found by walking the two
 run-length timing tables of ISO/IEC 14496-12 (`stts`, section 8.6.1.2, and `ctts`, section
 8.6.1.3) in lock step, against the meaning "expand every sample and take the minimum".
 */
module VideoOffset {
  import opened Prelude

  /** `samples` consecutive samples sharing one delta or one composition offset. */
  datatype Run = Run(samples: nat, value: int)

  function Total(runs: seq<Run>): nat {
    if runs == [] then 0 else runs[0].samples + Total(runs[1..])
  }

  function Repeated(value: int, n: nat): (all: seq<int>)
    ensures |all| == n && forall i :: 0 <= i < n ==> all[i] == value
  {
    if n == 0 then [] else Repeated(value, n - 1) + [value]
  }

  /** One value per sample. */
  function Expanded(runs: seq<Run>): (all: seq<int>)
    ensures |all| == Total(runs)
  {
    if runs == [] then [] else Repeated(runs[0].value, runs[0].samples) + Expanded(runs[1..])
  }

  /** Decode time of sample `k`: the sum of the deltas before it. */
  function DecodeTime(timing: seq<Run>, k: nat): int
    requires k <= Total(timing)
  {
    if k == 0 then 0 else DecodeTime(timing, k - 1) + Expanded(timing)[k - 1]
  }

  /** Presentation time of sample `k`. */
  function Presented(timing: seq<Run>, composition: seq<Run>, k: nat): int
    requires k < Total(timing) && Total(composition) == Total(timing)
  {
    DecodeTime(timing, k) + Expanded(composition)[k]
  }

  /** `first` is the least presentation time at or after `cutoff` among the first `n` samples. */
  ghost predicate Least(timing: seq<Run>, composition: seq<Run>, cutoff: int, n: nat, first: Option<int>)
    requires n <= Total(timing) == Total(composition)
  {
    match first
    case None => forall k | 0 <= k < n :: Presented(timing, composition, k) < cutoff
    case Some(least) =>
      && least >= cutoff
      && (exists k :: 0 <= k < n && Presented(timing, composition, k) == least)
      && (forall k | 0 <= k < n :: Presented(timing, composition, k) < cutoff || Presented(timing, composition, k) >= least)
  }

  // ---------------------------------------------------------------- positions in a table

  lemma {:induction false} TotalSplit(runs: seq<Run>, i: nat)
    requires i < |runs|
    ensures Total(runs[..i]) + runs[i].samples == Total(runs[..i + 1]) <= Total(runs)
  {
    if i > 0 {
      TotalSplit(runs[1..], i - 1);
      assert runs[..i][1..] == runs[1..][..i - 1] && runs[..i + 1][1..] == runs[1..][..i];
    } else {
      assert runs[..1][1..] == [] && runs[..0] == [];
    }
  }

  lemma {:induction false} ExpandedAt(runs: seq<Run>, i: nat, j: nat)
    requires i < |runs| && j < runs[i].samples
    ensures Total(runs[..i]) + j < Total(runs)
    ensures Expanded(runs)[Total(runs[..i]) + j] == runs[i].value
  {
    if i > 0 {
      ExpandedAt(runs[1..], i - 1, j);
      assert runs[..i][1..] == runs[1..][..i - 1];
    }
  }

  lemma {:induction false} DecodeTimeInRun(timing: seq<Run>, from: nat, delta: int, j: nat)
    requires from + j <= Total(timing)
    requires forall l | from <= l < from + j :: Expanded(timing)[l] == delta
    ensures DecodeTime(timing, from + j) == DecodeTime(timing, from) + j * delta
  {
    if j > 0 {
      DecodeTimeInRun(timing, from, delta, j - 1);
      assert j * delta == (j - 1) * delta + delta;
    }
  }

  /** `left` samples of run `i` are still ahead of sample `done`. */
  ghost predicate Stands(runs: seq<Run>, i: nat, left: nat, done: nat) {
    && i < |runs| && left <= runs[i].samples
    && done == Total(runs[..i]) + runs[i].samples - left
  }

  lemma StandsInside(runs: seq<Run>, i: nat, left: nat, done: nat)
    requires Stands(runs, i, left, done)
    ensures done + left == Total(runs[..i + 1]) <= Total(runs)
    ensures forall j | done <= j < done + left :: Expanded(runs)[j] == runs[i].value
    ensures i + 1 == |runs| ==> done + left == Total(runs)
    ensures i + 1 < |runs| ==> Stands(runs, i + 1, runs[i + 1].samples, done + left)
  {
    TotalSplit(runs, i);
    if i + 1 == |runs| {
      assert runs[..i + 1] == runs;
    }
    forall j | done <= j < done + left
      ensures Expanded(runs)[j] == runs[i].value
    {
      ExpandedAt(runs, i, j - Total(runs[..i]));
    }
  }

  lemma StandsLater(runs: seq<Run>, i: nat, left: nat, done: nat, take: nat)
    requires Stands(runs, i, left, done) && take <= left
    ensures Stands(runs, i, left - take, done + take)
  {
  }

  /** Samples `done` up to `past` are presented `delta` apart, the first of them at `pts`. */
  ghost predicate EvenlySpaced(timing: seq<Run>, composition: seq<Run>, done: nat, past: nat, pts: int, delta: int)
    requires past <= Total(timing) == Total(composition)
  {
    forall k | done <= k < past :: Presented(timing, composition, k) == pts + (k - done) * delta
  }

  /** The samples from `done` on that share a delta and an offset are evenly spaced. */
  lemma SharedRuns(
      timing: seq<Run>, i: nat, samples: nat, composition: seq<Run>, index: nat, remaining: nat, done: nat, take: nat)
    requires Total(timing) == Total(composition)
    requires Stands(timing, i, samples, done) && Stands(composition, index, remaining, done)
    requires take <= samples && take <= remaining
    ensures done + take <= Total(timing)
    ensures DecodeTime(timing, done + take) == DecodeTime(timing, done) + take * timing[i].value
    ensures EvenlySpaced(
              timing, composition, done, done + take, DecodeTime(timing, done) + composition[index].value, timing[i].value)
  {
    hide Total, Expanded, DecodeTime;
    StandsInside(timing, i, samples, done);
    StandsInside(composition, index, remaining, done);
    DecodeTimeInRun(timing, done, timing[i].value, take);
    forall k | done <= k < done + take
      ensures Presented(timing, composition, k)
              == DecodeTime(timing, done) + composition[index].value + (k - done) * timing[i].value
    {
      DecodeTimeInRun(timing, done, timing[i].value, k - done);
    }
  }

  // ---------------------------------------------------------------- the closed form

  /** Samples of an evenly spaced run before the first one at or after `cutoff`. */
  function Skipped(cutoff: int, pts: int, delta: int): int
    requires delta >= 1
  {
    var step := (cutoff - pts + delta - 1) / delta;
    if step > 0 then step else 0
  }

  lemma Scaled(a: int, b: int, delta: int)
    requires a <= b && delta >= 1
    ensures a * delta <= b * delta
  {
  }

  /** The ceiling division is exact: the run reaches the cutoff at that sample and not before. */
  lemma SkippedExact(cutoff: int, pts: int, delta: int, j: nat)
    requires delta >= 1
    ensures var step := Skipped(cutoff, pts, delta);
            && step >= 0
            && (j < step <==> pts + j * delta < cutoff)
            && (j >= step ==> pts + j * delta >= pts + step * delta)
  {
    var step := Skipped(cutoff, pts, delta);
    var raw := (cutoff - pts + delta - 1) / delta;
    assert raw * delta <= cutoff - pts + delta - 1 < raw * delta + delta;
    if j < raw {
      Scaled(j + 1, raw, delta);
    } else {
      Scaled(raw, j, delta);
      Scaled(step, j, delta);
    }
  }

  function Smaller(best: Option<int>, candidate: int): int {
    if best.Some? && best.value < candidate then best.value else candidate
  }

  /** Taking one evenly spaced stretch into account. */
  lemma StretchTaken(
      timing: seq<Run>, composition: seq<Run>, cutoff: int, done: nat, take: nat, pts: int, delta: int, best: Option<int>)
    requires delta >= 1 && done + take <= Total(timing) == Total(composition)
    requires EvenlySpaced(timing, composition, done, done + take, pts, delta)
    requires Least(timing, composition, cutoff, done, best)
    ensures var step := Skipped(cutoff, pts, delta);
            Least(timing, composition, cutoff, done + take,
                  if step < take then Some(Smaller(best, pts + step * delta)) else best)
  {
    hide Presented, Total, Skipped;
    var step := Skipped(cutoff, pts, delta);
    SkippedExact(cutoff, pts, delta, 0);
    forall k | done <= k < done + take
      ensures Presented(timing, composition, k) < cutoff || Presented(timing, composition, k) >= pts + step * delta
      ensures step >= take ==> Presented(timing, composition, k) < cutoff
    {
      SkippedExact(cutoff, pts, delta, k - done);
    }
    if step < take {
      SkippedExact(cutoff, pts, delta, step);
      assert Presented(timing, composition, done + step) == pts + step * delta;
    }
  }

  // ---------------------------------------------------------------- the walk

  /** What `_runs` admits of a composition table. */
  predicate NoEmptyRun(runs: seq<Run>) {
    runs != [] && forall i | 0 <= i < |runs| :: runs[i].samples >= 1
  }

  /** What `_runs` admits of a timing table: decode time never stands still. */
  predicate Advancing(runs: seq<Run>) {
    NoEmptyRun(runs) && forall i | 0 <= i < |runs| :: runs[i].value >= 1
  }

  /** Both tables stand before sample `done`; the composition table moves on as soon as a run is used up. */
  ghost predicate InStep(
      timing: seq<Run>, i: nat, samples: nat, composition: seq<Run>, index: nat, remaining: nat, done: nat, dts: int)
  {
    && i < |timing| && Stands(timing, i, samples, done)
    && index < |composition| && Stands(composition, index, remaining, done)
    && (remaining == 0 ==> index + 1 == |composition|)
    && done <= Total(timing) && dts == DecodeTime(timing, done)
  }

  /** Equal totals keep the walk moving: while the timing run has samples left, so has the composition run. */
  lemma NeverStuck(
      timing: seq<Run>, i: nat, samples: nat, composition: seq<Run>, index: nat, remaining: nat, done: nat, dts: int)
    requires Total(timing) == Total(composition) && samples > 0
    requires InStep(timing, i, samples, composition, index, remaining, done, dts)
    ensures remaining > 0
  {
    StandsInside(timing, i, samples, done);
    StandsInside(composition, index, remaining, done);
  }

  lemma OneTake(
      timing: seq<Run>, i: nat, samples: nat, composition: seq<Run>, index: nat, remaining: nat, done: nat, dts: int,
      cutoff: int, best: Option<int>, take: nat)
    requires Total(timing) == Total(composition) && Advancing(timing) && NoEmptyRun(composition)
    requires InStep(timing, i, samples, composition, index, remaining, done, dts)
    requires take == (if samples < remaining then samples else remaining)
    requires Least(timing, composition, cutoff, done, best)
    ensures done + take <= Total(timing)
    ensures var pts, delta := dts + composition[index].value, timing[i].value;
            var step := Skipped(cutoff, pts, delta);
            Least(timing, composition, cutoff, done + take,
                  if step < take then Some(Smaller(best, pts + step * delta)) else best)
    ensures var next := remaining == take && index + 1 < |composition|;
            InStep(timing, i, samples - take, composition, if next then index + 1 else index,
                   if next then composition[index + 1].samples else remaining - take, done + take,
                   dts + take * timing[i].value)
  {
    hide Least, EvenlySpaced, Presented, DecodeTime, Total, Skipped, Smaller, Stands;
    SharedRuns(timing, i, samples, composition, index, remaining, done, take);
    StretchTaken(timing, composition, cutoff, done, take, dts + composition[index].value, timing[i].value, best);
    StandsInside(timing, i, samples, done);
    StandsInside(composition, index, remaining, done);
    StandsLater(timing, i, samples, done, take);
    StandsLater(composition, index, remaining, done, take);
  }

  lemma StandsAtStart(runs: seq<Run>)
    requires runs != []
    ensures Stands(runs, 0, runs[0].samples, 0)
  {
  }

  lemma NothingSeen(timing: seq<Run>, composition: seq<Run>, cutoff: int)
    requires Total(timing) == Total(composition)
    ensures Least(timing, composition, cutoff, 0, None) && DecodeTime(timing, 0) == 0
  {
  }

  /** The first retained presentation time, in one pass over the runs. */
  method FirstPresented(timing: seq<Run>, composition: seq<Run>, cutoff: int) returns (first: Option<int>)
    requires Advancing(timing) && NoEmptyRun(composition) && Total(timing) == Total(composition)
    ensures Least(timing, composition, cutoff, Total(timing), first)
  {
    hide Least, Stands, Skipped, Smaller, DecodeTime, Total;
    StandsAtStart(timing);
    StandsAtStart(composition);
    NothingSeen(timing, composition, cutoff);
    var index: nat, remaining: nat, dts: int := 0, composition[0].samples, 0;
    ghost var done: nat := 0;
    first := None;
    var i: nat := 0;
    while i < |timing|
      invariant 0 <= i <= |timing|
      invariant done <= Total(timing) && Least(timing, composition, cutoff, done, first)
      invariant i == |timing| ==> done == Total(timing)
      invariant i < |timing| ==> InStep(timing, i, timing[i].samples, composition, index, remaining, done, dts)
    {
      var samples: nat, delta: int := timing[i].samples, timing[i].value;
      while samples > 0
        invariant samples <= timing[i].samples
        invariant done <= Total(timing) && Least(timing, composition, cutoff, done, first)
        invariant InStep(timing, i, samples, composition, index, remaining, done, dts)
        decreases samples
      {
        NeverStuck(timing, i, samples, composition, index, remaining, done, dts);
        var take := if samples < remaining then samples else remaining;
        OneTake(timing, i, samples, composition, index, remaining, done, dts, cutoff, first, take);
        var pts := dts + composition[index].value;
        var step := Skipped(cutoff, pts, delta);
        if step < take {
          first := Some(Smaller(first, pts + step * delta));
        }
        dts := dts + take * delta;
        samples := samples - take;
        remaining := remaining - take;
        done := done + take;
        if remaining == 0 && index + 1 < |composition| {
          index := index + 1;
          remaining := composition[index].samples;
        }
      }
      StandsInside(timing, i, samples, done);
      i := i + 1;
    }
  }

  // ---------------------------------------------------------------- the edit list

  /** One entry of an edit list (`elst`, section 8.6.6); the media rate is split into its two halves. */
  datatype Edit = Edit(length: nat, at: int, rate: int, fraction: int)

  predicate Plain(e: Edit) {
    e.rate == 1 && e.fraction == 0
  }

  /** The delay an empty edit makes and the media time the presentation starts at. */
  method ReadEdits(edits: seq<Edit>, movieScale: nat) returns (r: Option<(real, nat)>)
    requires movieScale >= 1
    ensures r.Some? <==>
              && 1 <= |edits| <= 2
              && (forall i | 0 <= i < |edits| :: edits[i].rate == 1 && edits[i].fraction == 0)
              && edits[|edits| - 1].at >= 0
              && (|edits| == 2 ==> edits[0].at == -1)
    ensures r.Some? ==>
              && r.value.1 == edits[|edits| - 1].at
              && r.value.0 == if |edits| == 2 then edits[0].length as real / movieScale as real else 0.0
  {
    if !(1 <= |edits| <= 2) {
      return None;
    }
    var empty, cutoff := 0.0, None;
    var i := 0;
    while i < |edits|
      invariant 0 <= i <= |edits|
      invariant forall k | 0 <= k < i :: Plain(edits[k])
      invariant i >= 1 && |edits| == 2 ==> edits[0].at == -1
      invariant empty == if i >= 1 && |edits| == 2 then edits[0].length as real / movieScale as real else 0.0
      invariant cutoff == if i == |edits| then Some(edits[i - 1].at) else None
      invariant cutoff.Some? ==> cutoff.value >= 0
    {
      if !Plain(edits[i]) {
        return None;
      }
      if i == 0 && edits[i].at == -1 && |edits| == 2 {
        empty := edits[i].length as real / movieScale as real;
      } else if edits[i].at >= 0 && i == |edits| - 1 {
        cutoff := Some(edits[i].at);
      } else {
        return None;
      }
      i := i + 1;
    }
    return Some((empty, cutoff.value));
  }

  // ---------------------------------------------------------------- the offset

  /** Without a composition table every sample is presented when it is decoded. */
  function Composition(timing: seq<Run>, offsets: Option<seq<Run>>): seq<Run> {
    if offsets.Some? then offsets.value else [Run(Total(timing), 0)]
  }

  /** When sample `k` is shown: its decode time, moved by its composition offset if there are any. */
  function Shown(timing: seq<Run>, offsets: Option<seq<Run>>, k: nat): int
    requires k < Total(timing) && (offsets.Some? ==> Total(offsets.value) == Total(timing))
  {
    DecodeTime(timing, k) + if offsets.Some? then Expanded(offsets.value)[k] else 0
  }

  /** Taking no composition table for one that moves nothing changes no presentation time. */
  lemma ShownIsPresented(timing: seq<Run>, offsets: Option<seq<Run>>)
    requires Total(timing) == Total(Composition(timing, offsets))
    ensures offsets.Some? ==> Total(offsets.value) == Total(timing)
    ensures forall k | 0 <= k < Total(timing) ::
              Presented(timing, Composition(timing, offsets), k) == Shown(timing, offsets, k)
  {
    if offsets.None? {
      UnmovedSamples(Total(timing));
    }
  }

  lemma UnmovedSamples(n: nat)
    ensures Total([Run(n, 0)]) == n && forall k | 0 <= k < n :: Expanded([Run(n, 0)])[k] == 0
  {
    var one := [Run(n, 0)];
    assert one[1..] == [] && Expanded(one) == Repeated(0, n) + Expanded([]);
  }

  lemma CompositionAdmitted(timing: seq<Run>, offsets: Option<seq<Run>>)
    requires Advancing(timing) && (offsets.Some? ==> NoEmptyRun(offsets.value))
    ensures NoEmptyRun(Composition(timing, offsets))
  {
    assert Total(timing) >= timing[0].samples;
  }

  lemma NoTableNoDifference(timing: seq<Run>)
    ensures Total(Composition(timing, None)) == Total(timing)
  {
  }

  /**
   `_leading_video_offset` on the tables of the video track. A track without an edit list is not
   shifted. Otherwise it answers exactly when the edit list is one plain edit or an empty and a plain
   one, the tables have no empty run, decode time advances, both count the same samples, and some
   sample is shown at or after the edit. The answer is how long after the edit the first such sample
   is shown, plus the length of the empty edit, and never negative.
   */
  method LeadingOffset(
      edits: Option<seq<Edit>>, movieScale: nat, timing: seq<Run>, offsets: Option<seq<Run>>, scale: nat)
    returns (r: Option<real>)
    requires movieScale >= 1 && scale >= 1
    ensures edits.None? ==> r == Some(0.0)
    ensures edits.Some? ==>
              (r.Some? <==>
                 && 1 <= |edits.value| <= 2
                 && (forall i | 0 <= i < |edits.value| :: edits.value[i].rate == 1 && edits.value[i].fraction == 0)
                 && edits.value[|edits.value| - 1].at >= 0
                 && (|edits.value| == 2 ==> edits.value[0].at == -1)
                 && timing != [] && (forall i | 0 <= i < |timing| :: timing[i].samples >= 1 && timing[i].value >= 1)
                 && (offsets.Some? ==>
                       && offsets.value != [] && (forall i | 0 <= i < |offsets.value| :: offsets.value[i].samples >= 1)
                       && Total(offsets.value) == Total(timing))
                 && exists k :: 0 <= k < Total(timing)
                                && Shown(timing, offsets, k) >= edits.value[|edits.value| - 1].at)
    ensures edits.Some? && r.Some? ==>
              var cutoff := edits.value[|edits.value| - 1].at;
              exists k :: 0 <= k < Total(timing) && Shown(timing, offsets, k) >= cutoff
                && (forall l | 0 <= l < Total(timing) ::
                      Shown(timing, offsets, l) < cutoff || Shown(timing, offsets, l) >= Shown(timing, offsets, k))
                && r.value == (if |edits.value| == 2 then edits.value[0].length as real / movieScale as real else 0.0)
                              + (Shown(timing, offsets, k) - cutoff) as real / scale as real
    ensures r.Some? ==> r.value >= 0.0
  {
    hide Total, DecodeTime, Expanded, Presented, Shown;
    if edits.None? {
      return Some(0.0);
    }
    var read := ReadEdits(edits.value, movieScale);
    if read.None? || !Advancing(timing) || (offsets.Some? && !NoEmptyRun(offsets.value)) {
      return None;
    }
    var (empty, cutoff) := read.value;
    var composition := Composition(timing, offsets);
    if Total(timing) != Total(composition) {
      NoTableNoDifference(timing);
      return None;
    }
    ShownIsPresented(timing, offsets);
    CompositionAdmitted(timing, offsets);
    var first := FirstPresented(timing, composition, cutoff);
    if first.None? {
      return None;
    }
    r := Some(empty + (first.value - cutoff) as real / scale as real);
  }
}
