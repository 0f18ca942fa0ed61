/** `processComputationRange`: sampling range outputs at a block step or a time step. */
module Sampling {
  import opened Options
  import opened Events
  import opened Formulas
  import opened ComputeRange

  datatype Sample = Sample(at: Option<int>, value: Result, blockHeight: int, blockTime: int)

  /** The time of each block. */
  type Clock = nat -> nat

  /** Where an output lies: a height or a time, -1 for one without a block. */
  type Scale = Output -> int

  function ByHeight(): Scale {
    (out: Output) => Height(out.block)
  }

  function TimeOf(clock: Clock, block: Option<nat>): int {
    if block.None? then -1 else clock(block.value)
  }

  function ByTime(clock: Clock): Scale {
    (out: Output) => TimeOf(clock, out.block)
  }

  /** The sampled points: every `step`, and always the last. */
  function Grid(b: int, end: int, step: int): seq<int>
    requires step >= 1 && b <= end
    decreases end - b
  {
    if b == end then [b]
    else [b] + Grid(if b + step > end then end else b + step, end, step)
  }

  /** ceil(n / step). */
  function Ceil(n: int, step: int): int
    requires step >= 1 && n >= 0
  {
    (n + step - 1) / step
  }

  lemma TimesMonotone(x: int, y: int, b: int)
    requires x <= y && b >= 1
    ensures x * b <= y * b
  {
    assert (y - x) * b >= 0;
  }

  lemma QuotientIs(a: int, b: int, q: int)
    requires b >= 1 && q * b <= a < q * b + b
    ensures a / b == q
  {
    var p := a / b;
    assert p * b <= a < p * b + b;
    if p < q { TimesMonotone(p + 1, q, b); } else if q < p { TimesMonotone(q + 1, p, b); }
  }

  lemma CeilStep(n: int, step: int)
    requires step >= 1 && n >= step
    ensures Ceil(n, step) == Ceil(n - step, step) + 1
  {
    var q := (n - 1) / step;
    assert q * step <= n - 1 < q * step + step;
    assert (q + 1) * step == q * step + step;
    QuotientIs(n + step - 1, step, q + 1);
  }

  lemma CeilEnds(n: int, step: int)
    requires step >= 1 && 0 < n <= step
    ensures Ceil(0, step) == 0 && Ceil(n, step) == 1
  {
    QuotientIs(step - 1, step, 0);
    QuotientIs(n + step - 1, step, 1);
  }

  /** Both ends are sampled, all but the last sample lie on the step, and the count is ceil((end - b) / step) + 1. */
  lemma {:induction false} GridShape(b: int, end: int, step: int)
    requires step >= 1 && b <= end
    ensures var g := Grid(b, end, step);
            && |g| == Ceil(end - b, step) + 1
            && g[0] == b && g[|g| - 1] == end
            && (forall i :: 0 <= i < |g| - 1 ==> g[i] == b + i * step)
            && (forall i, j :: 0 <= i < j < |g| ==> g[i] < g[j])
    decreases end - b
  {
    var g := Grid(b, end, step);
    CeilEnds(1, step);
    if b != end {
      var next := if b + step > end then end else b + step;
      GridShape(next, end, step);
      var rest := Grid(next, end, step);
      assert forall i :: 0 < i < |g| ==> g[i] == rest[i - 1];
      if b + step <= end {
        CeilStep(end - b, step);
        forall i | 0 < i < |g| - 1
          ensures g[i] == b + i * step
        {
          assert rest[i - 1] == next + (i - 1) * step;
          assert (i - 1) * step == i * step - step;
        }
      } else {
        CeilEnds(end - b, step);
        assert |rest| == 1;
      }
    }
  }

  /** The loop's increment walks the grid. */
  lemma {:induction false} GridNext(b: int, end: int, step: int, i: nat)
    requires step >= 1 && b <= end && i < |Grid(b, end, step)|
    ensures var g := Grid(b, end, step);
            && b <= g[i] <= end && (g[i] == end <==> i == |g| - 1)
            && (g[i] < end ==> g[i + 1] == if g[i] + step > end then end else g[i] + step)
    decreases end - b
  {
    if b < end && i > 0 {
      GridNext(if b + step > end then end else b + step, end, step, i - 1);
    }
  }

  /** The points the loop visits: none if the range is empty. */
  function Points(start: int, end: int, step: int): seq<int>
    requires step >= 1
  {
    if start <= end then Grid(start, end, step) else []
  }

  function SampleOf(out: Output, clock: Clock, at: Option<int>): Sample {
    Sample(at, out.value, Height(out.block), TimeOf(clock, out.block))
  }

  ghost predicate Sorted(outs: seq<Output>, scale: Scale) {
    forall i, j :: 0 <= i < j < |outs| ==> scale(outs[i]) <= scale(outs[j])
  }

  /** The last output at or below a point, or -1. */
  function PickBy(outs: seq<Output>, scale: Scale, p: int): (i: int)
    ensures -1 <= i < |outs| && (i >= 0 ==> scale(outs[i]) <= p)
    ensures forall j :: i < j < |outs| ==> scale(outs[j]) > p
  {
    if outs == [] then -1
    else if scale(outs[|outs| - 1]) <= p then |outs| - 1
    else PickBy(outs[..|outs| - 1], scale, p)
  }

  /** `findIndex` of the first output above a point, or the length when there is none. */
  function FirstAbove(outs: seq<Output>, scale: Scale, p: int): (i: nat)
    ensures i <= |outs| && (forall j :: 0 <= j < i ==> scale(outs[j]) <= p)
    ensures i < |outs| ==> scale(outs[i]) > p
  {
    if outs == [] || scale(outs[0]) > p then 0 else 1 + FirstAbove(outs[1..], scale, p)
  }

  lemma PickIs(outs: seq<Output>, scale: Scale, p: int, i: int)
    requires -1 <= i < |outs| && (i >= 0 ==> scale(outs[i]) <= p)
    requires forall j :: i < j < |outs| ==> scale(outs[j]) > p
    ensures PickBy(outs, scale, p) == i
  {
    assert i >= 0 ==> scale(outs[i]) <= p;
  }

  /** The outputs left after a splice are searched as if none had been dropped. */
  lemma SplicedPick(outs: seq<Output>, scale: Scale, k: nat, p: int)
    requires Sorted(outs, scale) && k <= |outs| && (k > 0 ==> k < |outs| && scale(outs[k]) <= p)
    ensures FirstAbove(outs[k..], scale, p) + k == PickBy(outs, scale, p) + 1
  {
    var rest, n := outs[k..], FirstAbove(outs[k..], scale, p);
    if k > 0 { assert rest[0] == outs[k]; }
    if n > 0 { assert rest[n - 1] == outs[k + n - 1]; }
    forall j | k + n <= j < |outs| ensures scale(outs[j]) > p {
      assert rest[n] == outs[k + n];
      if k + n < j { assert scale(outs[k + n]) <= scale(outs[j]); }
    }
    PickIs(outs, scale, p, k + n - 1);
  }

  /** The samples due for a list of points: the picked output where there is one, nothing otherwise. */
  function Samples(outs: seq<Output>, scale: Scale, clock: Clock, points: seq<int>): seq<Sample> {
    if points == [] then []
    else
      var rest, p := Samples(outs, scale, clock, points[..|points| - 1]), points[|points| - 1];
      rest + SampleAt(outs, scale, clock, p)
  }

  function SampleAt(outs: seq<Output>, scale: Scale, clock: Clock, p: int): seq<Sample> {
    var i := PickBy(outs, scale, p);
    if i >= 0 then [SampleOf(outs[i], clock, Some(p))] else []
  }

  /** What is left after dropping the first `k` outputs, all of them older than the current one at `p`. */
  ghost predicate Spliced(outs: seq<Output>, left: seq<Output>, scale: Scale, k: nat, p: int) {
    k <= |outs| && left == outs[k..] && (k > 0 ==> k < |outs| && scale(outs[k]) <= p)
  }

  method TakeSample(left: seq<Output>, scale: Scale, clock: Clock, p: int, ghost outs: seq<Output>, ghost k: nat)
    returns (sample: seq<Sample>, left': seq<Output>, ghost k': nat)
    requires Sorted(outs, scale) && Spliced(outs, left, scale, k, p)
    ensures sample == SampleAt(outs, scale, clock, p)
    ensures forall p' :: p <= p' ==> Spliced(outs, left', scale, k', p')
  {
    SplicedPick(outs, scale, k, p);
    sample, left', k' := [], left, k;
    var index := FirstAbove(left, scale, p);
    if index > 0 {
      sample := [SampleOf(left[index - 1], clock, Some(p))];
      left', k' := left[index - 1..], k + (index - 1);
      assert left' == outs[k'..];
    }
  }

  /** The stepping loop, which splices the outputs it has passed. */
  method ProcessByStep(outs: seq<Output>, scale: Scale, clock: Clock, start: int, end: int, step: int)
    returns (processed: seq<Sample>)
    requires step >= 1 && Sorted(outs, scale)
    ensures processed == Samples(outs, scale, clock, Points(start, end, step))
  {
    processed := [];
    var left, p := outs, start;
    ghost var g := Points(start, end, step);
    ghost var k, i := 0, 0;
    while p <= end
      invariant 0 <= i <= |g| && if p <= end then i < |g| && g[i] == p else i == |g|
      invariant Spliced(outs, left, scale, k, p)
      invariant processed == Samples(outs, scale, clock, g[..i])
      decreases end + 1 - p
    {
      GridNext(start, end, step, i);
      assert g[..i + 1][..i] == g[..i] && g[..i + 1][i] == g[i];
      var sample;
      sample, left, k := TakeSample(left, scale, clock, p, outs, k);
      processed := processed + sample;
      i := i + 1;
      p := if p == end then p + 1 else if p + step > end then end else p + step;
    }
    assert g[..|g|] == g;
  }

  predicate NoStep(step: Option<nat>) {
    step.None? || step.value == 1
  }

  /** All branches; a step of 0 counts as none, and a time step needs times. */
  method ProcessRange(outs: seq<Output>, clock: Clock, blockStep: Option<nat>, timeStep: Option<nat>,
      b0: nat, b1: nat, times: Option<(int, Option<int>)>)
    returns (processed: seq<Sample>)
    requires Sorted(outs, ByHeight()) && Sorted(outs, ByTime(clock))
    ensures blockStep in {None, Some(1)} && timeStep in {None, Some(1)} ==>
              processed == seq(|outs|, i requires 0 <= i < |outs| => SampleOf(outs[i], clock, None))
    ensures !(blockStep in {None, Some(1)} && timeStep in {None, Some(1)}) && blockStep.Some? && blockStep.value > 0 ==>
              processed == Samples(outs, ByHeight(), clock, Points(b0, b1, blockStep.value))
    ensures !(blockStep in {None, Some(1)} && timeStep in {None, Some(1)}) && blockStep in {None, Some(0)} ==>
              if times.Some? && timeStep.Some? && timeStep.value > 0 then
                && (times.value.1.Some? ==>
                      processed ==
                        Samples(outs, ByTime(clock), clock, Points(times.value.0, times.value.1.value, timeStep.value)))
                && (times.value.1.None? ==>
                      processed ==
                        Samples(outs, ByTime(clock), clock, Points(times.value.0, clock(b1), timeStep.value)))
              else processed == []
  {
    processed := [];
    if NoStep(blockStep) && NoStep(timeStep) {
      processed := seq(|outs|, i requires 0 <= i < |outs| => SampleOf(outs[i], clock, None));
    } else if blockStep.Some? && blockStep.value > 0 {
      processed := ProcessByStep(outs, ByHeight(), clock, b0, b1, blockStep.value);
    } else if times.Some? && timeStep.Some? && timeStep.value > 0 {
      var end := if times.value.1.Some? then times.value.1.value else clock(b1);
      processed := ProcessByStep(outs, ByTime(clock), clock, times.value.0, end, timeStep.value);
    }
  }

  lemma {:induction false} SamplesFull(outs: seq<Output>, scale: Scale, clock: Clock, points: seq<int>)
    requires forall i :: 0 <= i < |points| ==> PickBy(outs, scale, points[i]) >= 0
    ensures |Samples(outs, scale, clock, points)| == |points|
    ensures forall i :: 0 <= i < |points| ==>
              Samples(outs, scale, clock, points)[i] ==
              SampleOf(outs[PickBy(outs, scale, points[i])], clock, Some(points[i]))
  {
    if points != [] {
      SamplesFull(outs, scale, clock, points[..|points| - 1]);
    }
  }

  lemma PickByHeight(outs: seq<Output>, h: int)
    ensures PickBy(outs, ByHeight(), h) == Pick(outs, h)
  {
    var i, j := PickBy(outs, ByHeight(), h), Pick(outs, h);
    assert i >= 0 ==> ByHeight()(outs[i]) == Height(outs[i].block);
    assert forall x :: 0 <= x < |outs| ==> ByHeight()(outs[x]) == Height(outs[x].block);
  }

  /** A sample is what `compute` gives at height `h`. */
  ghost predicate IsComputed(s: Sample, f: Formula, db: Db, clock: Clock, h: nat) {
    && Halts(f, db, h) && s.blockHeight == Compute(f, db, h).block
    && (!Compute(f, db, h).value.Undefined? ==> s.value == Compute(f, db, h).value)
    && (Compute(f, db, h).value.Undefined? ==> s.value == Null)
    && s.blockTime == if s.blockHeight < 0 then -1 else clock(s.blockHeight)
  }

  lemma ComputedSample(outs: seq<Output>, f: Formula, db: Db, clock: Clock, lo: nat, hi: nat, h: nat, at: Option<int>)
    requires Settled(outs, f, db, lo, hi) && lo <= h < hi
    ensures Pick(outs, h) >= 0 && IsComputed(SampleOf(outs[Pick(outs, h)], clock, at), f, db, clock, h)
  {
    assert Halts(f, db, h);
    MatchedSample(outs[Pick(outs, h)], f, db, clock, h, at);
  }

  lemma MatchedSample(out: Output, f: Formula, db: Db, clock: Clock, h: nat, at: Option<int>)
    requires Halts(f, db, h) && Matches(out, Compute(f, db, h))
    ensures IsComputed(SampleOf(out, clock, at), f, db, clock, h)
  {
  }

  /** Fed by the range computation, every sample is what `compute` gives at its own height. */
  method SampleRange(f: Formula, db: Db, clock: Clock, b0: nat, b1: nat, step: int) returns (processed: seq<Sample>)
    requires step >= 1 && b0 <= b1
    requires PlainReads(f) && forall h: nat :: b0 <= h <= b1 ==> Halts(f, db, h)
    ensures |processed| == |Grid(b0, b1, step)| == Ceil(b1 - b0, step) + 1
    ensures forall i :: 0 <= i < |processed| ==>
              var h := Grid(b0, b1, step)[i];
              b0 <= h <= b1 && processed[i].at == Some(h) && IsComputed(processed[i], f, db, clock, h)
  {
    var outs := ComputeOverRange(f, db, b0, b1);
    assert Sorted(outs, ByHeight());
    processed := ProcessByStep(outs, ByHeight(), clock, b0, b1, step);
    HeightSamples(outs, f, db, clock, b0, b1, step);
  }

  lemma HeightSamples(outs: seq<Output>, f: Formula, db: Db, clock: Clock, b0: nat, b1: nat, step: int)
    requires step >= 1 && b0 <= b1 && Settled(outs, f, db, b0, b1 + 1)
    ensures var g := Grid(b0, b1, step);
            var samples := Samples(outs, ByHeight(), clock, g);
            && |samples| == |g| == Ceil(b1 - b0, step) + 1
            && forall i :: 0 <= i < |g| ==>
                 b0 <= g[i] <= b1 && samples[i].at == Some(g[i]) && IsComputed(samples[i], f, db, clock, g[i])
  {
    var g := Grid(b0, b1, step);
    GridShape(b0, b1, step);
    GridWithin(b0, b1, step);
    forall i | 0 <= i < |g|
      ensures PickBy(outs, ByHeight(), g[i]) >= 0
      ensures IsComputed(SampleOf(outs[PickBy(outs, ByHeight(), g[i])], clock, Some(g[i])), f, db, clock, g[i])
    {
      PickByHeight(outs, g[i]);
      ComputedSample(outs, f, db, clock, b0, b1 + 1, g[i], Some(g[i]));
    }
    SamplesFull(outs, ByHeight(), clock, g);
  }

  lemma GridWithin(b: int, end: int, step: int)
    requires step >= 1 && b <= end
    ensures forall i :: 0 <= i < |Grid(b, end, step)| ==> b <= Grid(b, end, step)[i] <= end
  {
    forall i | 0 <= i < |Grid(b, end, step)| ensures b <= Grid(b, end, step)[i] <= end { GridNext(b, end, step, i); }
  }

  // ---- by time ----

  /** Block times do not decrease. */
  ghost predicate Monotone(clock: Clock) {
    forall a: nat, b: nat :: a <= b ==> clock(a) <= clock(b)
  }

  /** The last block of the range at or before a time. */
  function BlockAt(clock: Clock, b0: nat, b1: nat, t: int): (h: nat)
    requires b0 <= b1 && clock(b0) <= t
    ensures b0 <= h <= b1 && clock(h) <= t && (h < b1 ==> clock(h + 1) > t)
    decreases b1
  {
    if clock(b1) <= t then b1 else BlockAt(clock, b0, b1 - 1, t)
  }

  lemma TimesSorted(outs: seq<Output>, clock: Clock)
    requires Monotone(clock) && Chained(outs)
    ensures Sorted(outs, ByTime(clock)) && Sorted(outs, ByHeight())
  {
    forall i, j | 0 <= i < j < |outs|
      ensures ByTime(clock)(outs[i]) <= ByTime(clock)(outs[j]) && ByHeight()(outs[i]) <= ByHeight()(outs[j])
    {
      assert Height(outs[i].block) < Height(outs[j].block);
    }
  }

  /** Picking by time is picking by the height of the last block at that time. */
  lemma PickByTime(outs: seq<Output>, clock: Clock, b0: nat, b1: nat, t: int)
    requires Monotone(clock) && Chained(outs) && b0 <= b1 && clock(b0) <= t
    requires forall i :: 0 <= i < |outs| ==> Height(outs[i].block) <= b1
    ensures PickBy(outs, ByTime(clock), t) == Pick(outs, BlockAt(clock, b0, b1, t))
  {
    var h := BlockAt(clock, b0, b1, t);
    forall i | 0 <= i < |outs|
      ensures ByTime(clock)(outs[i]) <= t <==> Height(outs[i].block) <= h
    {
      if outs[i].block.Some? && outs[i].block.value > h { assert clock(h + 1) <= clock(outs[i].block.value); }
    }
    var i, j := PickBy(outs, ByTime(clock), t), Pick(outs, h);
    assert i >= 0 ==> Height(outs[i].block) <= h;
    assert j >= 0 ==> ByTime(clock)(outs[j]) <= t;
  }

  /** Every sample by time, from the first block's time on, is what `compute` gives at the last block at that time. */
  method SampleRangeByTime(f: Formula, db: Db, clock: Clock, b0: nat, b1: nat, t0: int, t1: int, step: int)
    returns (processed: seq<Sample>)
    requires step >= 1 && b0 <= b1 && t0 <= t1 && clock(b0) <= t0 && Monotone(clock)
    requires PlainReads(f) && forall h: nat :: b0 <= h <= b1 ==> Halts(f, db, h)
    ensures |processed| == |Grid(t0, t1, step)| == Ceil(t1 - t0, step) + 1
    ensures forall i :: 0 <= i < |processed| ==>
              var t := Grid(t0, t1, step)[i];
              t >= t0 && processed[i].at == Some(t) && IsComputed(processed[i], f, db, clock, BlockAt(clock, b0, b1, t))
  {
    var outs := ComputeOverRange(f, db, b0, b1);
    TimesSorted(outs, clock);
    processed := ProcessByStep(outs, ByTime(clock), clock, t0, t1, step);
    TimeSamples(outs, f, db, clock, b0, b1, t0, t1, step);
  }

  lemma TimeSamples(outs: seq<Output>, f: Formula, db: Db, clock: Clock, b0: nat, b1: nat, t0: int, t1: int, step: int)
    requires step >= 1 && b0 <= b1 && t0 <= t1 && clock(b0) <= t0 && Monotone(clock)
    requires Progress(outs, f, db, b0, b1 + 1)
    ensures var g := Grid(t0, t1, step);
            var samples := Samples(outs, ByTime(clock), clock, g);
            && |samples| == |g| == Ceil(t1 - t0, step) + 1
            && forall i :: 0 <= i < |g| ==>
                 t0 <= g[i] && samples[i].at == Some(g[i]) &&
                 IsComputed(samples[i], f, db, clock, BlockAt(clock, b0, b1, g[i]))
  {
    var g := Grid(t0, t1, step);
    GridShape(t0, t1, step);
    GridWithin(t0, t1, step);
    OutputsWithin(outs, f, db, b0, b1);
    forall i | 0 <= i < |g|
      ensures PickBy(outs, ByTime(clock), g[i]) >= 0
      ensures IsComputed(SampleOf(outs[PickBy(outs, ByTime(clock), g[i])], clock, Some(g[i])), f, db, clock,
                         BlockAt(clock, b0, b1, g[i]))
    {
      PickByTime(outs, clock, b0, b1, g[i]);
      ComputedSample(outs, f, db, clock, b0, b1 + 1, BlockAt(clock, b0, b1, g[i]), Some(g[i]));
    }
    SamplesFull(outs, ByTime(clock), clock, g);
  }

  lemma OutputsWithin(outs: seq<Output>, f: Formula, db: Db, b0: nat, b1: nat)
    requires b0 <= b1 && Progress(outs, f, db, b0, b1 + 1)
    ensures forall i :: 0 <= i < |outs| ==> Height(outs[i].block) <= b1
  {
    forall i | 0 <= i < |outs| ensures Height(outs[i].block) <= b1 {
      if i < |outs| - 1 { assert Height(outs[i].block) < Height(outs[|outs| - 1].block); }
    }
  }
}
