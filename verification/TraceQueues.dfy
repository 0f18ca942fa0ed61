/** The tracer's two queues: an inbound queue that cannot be paused, feeding a bounded outbound queue. */
module TraceQueues {
  function Min(a: int, b: int): int {
    if a <= b then a else b
  }

  /** The queues between two steps; `exported` is what the worker has taken, `resumers` the running resume intervals. */
  datatype State<T> = State(inbound: seq<T>, outbound: seq<T>, exported: seq<T>, paused: bool, resumers: nat)

  /** Move as much as fits; a full outbound queue pauses and starts a resume interval. */
  function Processed<T>(s: State<T>, max: nat): State<T>
    requires |s.outbound| < max
  {
    var n := Min(|s.inbound|, max - |s.outbound|);
    var full := |s.outbound| + n >= max;
    s.(inbound := s.inbound[n..], outbound := s.outbound + s.inbound[..n], paused := full || s.paused,
       resumers := if full then s.resumers + 1 else s.resumers)
  }

  /** Trace queue state the source keeps at every step. */
  ghost predicate Inv<T>(s: State<T>, max: nat) {
    && max >= 1 && |s.outbound| <= max
    && (!s.paused ==> s.inbound == [] && |s.outbound| < max)
    && s.resumers == if s.paused then 1 else 0
  }

  class TracerManager<T(==)> {
    var inboundQueue: seq<T>
    var outboundQueue: seq<T>
    var exported: seq<T>
    var paused: bool
    var resumers: nat
    const maxOutboundQueueSize: nat

    ghost function Abs(): State<T>
      reads this
    {
      State(inboundQueue, outboundQueue, exported, paused, resumers)
    }

    ghost predicate Valid()
      reads this
    {
      Inv(Abs(), maxOutboundQueueSize)
    }

    constructor (max: nat)
      requires max >= 1
      ensures Valid() && Abs() == State([], [], [], false, 0) && maxOutboundQueueSize == max
    {
      inboundQueue, outboundQueue, exported, paused, resumers := [], [], [], false, 0;
      maxOutboundQueueSize := max;
    }

    /** Called only while not paused and with room in the outbound queue. */
    method ProcessInboundQueue()
      requires maxOutboundQueueSize >= 1 && |outboundQueue| < maxOutboundQueueSize && !paused && resumers == 0
      modifies this
      ensures Abs() == Processed(old(Abs()), maxOutboundQueueSize)
    {
      ghost var s := Abs();
      ghost var n: nat := 0;
      while |inboundQueue| > 0
        invariant n <= |s.inbound| && |s.outbound| + n < maxOutboundQueueSize
        invariant inboundQueue == s.inbound[n..] && outboundQueue == s.outbound + s.inbound[..n]
        invariant exported == s.exported && !paused && resumers == 0
        decreases |inboundQueue|
      {
        assert s.inbound[..n + 1] == s.inbound[..n] + [s.inbound[n]];
        var trace := inboundQueue[0];
        inboundQueue := inboundQueue[1..];
        outboundQueue := outboundQueue + [trace];
        n := n + 1;
        if |outboundQueue| >= maxOutboundQueueSize {
          paused := true;
          resumers := resumers + 1;
          break;
        }
      }
      assert n == Min(|s.inbound|, maxOutboundQueueSize - |s.outbound|);
    }

    method Enqueue(trace: T)
      requires Valid()
      modifies this
      ensures Valid() && Abs() == Next(old(Abs()), Step.Enqueue(trace), maxOutboundQueueSize)
    {
      StepKeeps(Abs(), Step.Enqueue(trace), maxOutboundQueueSize);
      inboundQueue := inboundQueue + [trace];
      if paused { return; }
      ProcessInboundQueue();
    }

    /** The resume interval fires: once the outbound queue is below a fifth of its maximum, move on. */
    method Tick()
      requires Valid() && resumers > 0
      modifies this
      ensures Valid() && Abs() == Next(old(Abs()), Step.Tick, maxOutboundQueueSize)
    {
      StepKeeps(Abs(), Step.Tick, maxOutboundQueueSize);
      if 5 * |outboundQueue| < maxOutboundQueueSize {
        paused := false;
        resumers := resumers - 1;
        ProcessInboundQueue();
      }
    }

    /** The worker takes the next trace, if there is one. */
    method TakeNext()
      requires Valid()
      modifies this
      ensures Valid() && Abs() == Next(old(Abs()), Step.Take, maxOutboundQueueSize)
    {
      if |outboundQueue| > 0 {
        exported := exported + [outboundQueue[0]];
        outboundQueue := outboundQueue[1..];
      }
    }
  }

  // ---- every run ----

  datatype Step<T> = Enqueue(trace: T) | Tick | Take

  function Next<T>(s: State<T>, step: Step<T>, max: nat): State<T> {
    match step
    case Enqueue(trace) =>
      var more := s.(inbound := s.inbound + [trace]);
      if s.paused || |s.outbound| >= max then more else Processed(more, max)
    case Tick =>
      if s.resumers > 0 && 5 * |s.outbound| < max then Processed(s.(paused := false, resumers := s.resumers - 1), max)
      else s
    case Take =>
      if s.outbound == [] then s else s.(exported := s.exported + [s.outbound[0]], outbound := s.outbound[1..])
  }

  function Run<T>(steps: seq<Step<T>>, max: nat): State<T> {
    if steps == [] then State([], [], [], false, 0) else Next(Run(steps[..|steps| - 1], max), steps[|steps| - 1], max)
  }

  function Brought<T>(step: Step<T>): seq<T> {
    match step case Enqueue(trace) => [trace] case _ => []
  }

  function Enqueued<T>(steps: seq<Step<T>>): seq<T> {
    if steps == [] then [] else Enqueued(steps[..|steps| - 1]) + Brought(steps[|steps| - 1])
  }

  /** Everything in the system, oldest first. */
  function Whole<T>(s: State<T>): seq<T> {
    s.exported + (s.outbound + s.inbound)
  }

  lemma ProcessedKeeps<T>(s: State<T>, max: nat)
    requires max >= 1 && |s.outbound| < max && !s.paused && s.resumers == 0
    ensures Inv(Processed(s, max), max) && Whole(Processed(s, max)) == Whole(s)
  {
    var n := Min(|s.inbound|, max - |s.outbound|);
    assert s.inbound[..n] + s.inbound[n..] == s.inbound;
    assert s.outbound + s.inbound[..n] + s.inbound[n..] == s.outbound + (s.inbound[..n] + s.inbound[n..]);
  }

  lemma PushKeeps<T>(s: State<T>, trace: T)
    ensures Whole(s.(inbound := s.inbound + [trace])) == Whole(s) + [trace]
  {
  }

  lemma TakeKeeps<T>(s: State<T>)
    requires s.outbound != []
    ensures Whole(s.(exported := s.exported + [s.outbound[0]], outbound := s.outbound[1..])) == Whole(s)
  {
    assert s.outbound == [s.outbound[0]] + s.outbound[1..];
  }

  lemma StepKeeps<T>(s: State<T>, step: Step<T>, max: nat)
    requires Inv(s, max)
    ensures Inv(Next(s, step, max), max) && Whole(Next(s, step, max)) == Whole(s) + Brought(step)
  {
    match step
    case Enqueue(trace) =>
      var more := s.(inbound := s.inbound + [trace]);
      PushKeeps(s, trace);
      if !s.paused { ProcessedKeeps(more, max); }
    case Tick =>
      if s.resumers > 0 && 5 * |s.outbound| < max {
        ProcessedKeeps(s.(paused := false, resumers := s.resumers - 1), max);
      }
    case Take =>
      if s.outbound != [] { TakeKeeps(s); }
  }

  /**
   * At every point of every run nothing is lost, duplicated or reordered, the outbound queue is within its
   * maximum, and traces wait inbound only while paused, with one resume interval running.
   */
  lemma {:induction false} QueuesKeepOrder<T>(steps: seq<Step<T>>, max: nat)
    requires max >= 1
    ensures var s := Run(steps, max); Inv(s, max) && s.exported + (s.outbound + s.inbound) == Enqueued(steps)
  {
    if steps != [] {
      QueuesKeepOrder(steps[..|steps| - 1], max);
      StepKeeps(Run(steps[..|steps| - 1], max), steps[|steps| - 1], max);
    }
  }

  /** Once the worker has emptied the outbound queue, the next tick resumes and moves a waiting trace out. */
  lemma DrainedResumes<T>(s: State<T>, max: nat)
    requires Inv(s, max) && s.outbound == [] && s.inbound != []
    ensures var p := Next(s, Tick, max); |p.inbound| < |s.inbound| && p.outbound != [] && p.outbound[0] == s.inbound[0]
  {
    assert s.paused;
  }

  /** A trace arriving while not paused goes straight out, and pauses exactly if that fills the outbound queue. */
  lemma EnqueuePauses<T>(s: State<T>, trace: T, max: nat)
    requires Inv(s, max)
    ensures var p := Next(s, Enqueue(trace), max);
            if s.paused then p == s.(inbound := s.inbound + [trace])
            else p.outbound == s.outbound + [trace] && p.inbound == [] && (p.paused <==> |s.outbound| + 1 >= max)
  {
  }

  /**
   * A tick while paused resumes exactly once less than a fifth of the maximum is outbound, and moves out as much as
   * fits.
   */
  lemma TickResumes<T>(s: State<T>, max: nat)
    requires Inv(s, max) && s.paused
    ensures 5 * |s.outbound| >= max ==> Next(s, Tick, max) == s
    ensures 5 * |s.outbound| < max ==>
              var p := Next(s, Tick, max);
              var n := if |s.inbound| < max - |s.outbound| then |s.inbound| else max - |s.outbound|;
              && p.outbound == s.outbound + s.inbound[..n] && p.inbound == s.inbound[n..]
              && (p.paused <==> |p.outbound| >= max)
  {
  }

  /** The worker takes the oldest outbound trace, and nothing else changes; with none it does nothing. */
  lemma TakeExports<T>(s: State<T>, max: nat)
    ensures s.outbound == [] ==> Next(s, Take, max) == s
    ensures s.outbound != [] ==>
              Next(s, Take, max) == s.(exported := s.exported + [s.outbound[0]], outbound := s.outbound[1..])
  {
  }
}
