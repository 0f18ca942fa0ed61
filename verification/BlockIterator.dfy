/** The parallel block fetcher and its sequential consumer, interleaved at every await. */
module BlockIterator {
  import opened Options

  /** A fetched block, possibly with a transaction that failed to load, or the error that replaces it. */
  datatype Item = Block(badTx: bool) | Failed

  /** An end height of 0 counts as none. */
  datatype Config = Config(start: nat, end: Option<nat>, bufferSize: nat, throwBlock: bool, throwTx: bool)

  ghost predicate HasEnd(c: Config) {
    c.end.Some? && c.end.value > 0
  }

  ghost predicate ConfigOk(c: Config) {
    c.bufferSize >= 1 && (HasEnd(c) ==> c.start <= c.end.value)
  }

  /**
   * Where `startFetching` is: awaiting the first height, at the loop head, awaiting a full batch, awaiting the rest,
   * done.
   */
  datatype FetcherAt = Tracking | Looping | Batching | Draining | Stopped

  /** Where `iterate` is: at its loop head, inside the callbacks for an item, returned, or thrown. */
  datatype ConsumerAt = Polling | Processing(item: Item) | Returned | Threw

  datatype State = State(
    fetching: bool, fetchHeight: nat, current: nat, buffer: map<nat, Item>, latest: nat,
    inFlight: set<nat>,      // fetches not yet settled
    batch: set<nat>,         // heights launched since `fetchingBlocks` was last emptied
    fetcher: FetcherAt, consumer: ConsumerAt,
    processed: seq<nat>,     // heights taken from the buffer, in order
    halted: bool)            // `stopFetching` was called from outside

  function Init(c: Config): State {
    State(true, c.start, c.start, map[], 0, {}, {}, Tracking, Polling, [], false)
  }

  datatype Action =
    | Tracked                      // the first height is known
    | NewHeight(height: nat)       // the chain head moves
    | LeaveLoop                    // the fetch loop's condition fails
    | Launch                       // one fetch is started
    | BatchSettled                 // a full batch has settled
    | Fetched(height: nat, item: Item)
    | Drained                      // the last fetches have settled
    | Take                         // the consumer takes its next item
    | Finish                       // its callbacks are done
    | Throw                        // an error is thrown out of the loop
    | Return                       // the consumer's loop condition fails
    | Halt                         // someone calls `stopFetching`

  predicate WantsMore(c: Config, s: State) {
    s.fetching && (c.end.None? || c.end.value == 0 || s.fetchHeight <= c.end.value)
  }

  predicate MustThrow(c: Config, item: Item) {
    (item.Failed? && c.throwBlock) || (item.Block? && item.badTx && c.throwTx)
  }

  predicate Enabled(c: Config, s: State, a: Action) {
    match a
    case Tracked => s.fetcher.Tracking?
    case NewHeight(_) => true
    case LeaveLoop => s.fetcher.Looping? && !WantsMore(c, s)
    case Launch => s.fetcher.Looping? && WantsMore(c, s) && |s.buffer| < c.bufferSize && s.latest >= s.fetchHeight
    case BatchSettled => s.fetcher.Batching? && s.batch * s.inFlight == {}
    case Fetched(h, _) => h in s.inFlight
    case Drained => s.fetcher.Draining? && s.batch * s.inFlight == {}
    case Take => s.consumer.Polling? && s.current in s.buffer
    case Finish => s.consumer.Processing? && !MustThrow(c, s.consumer.item)
    case Throw => s.consumer.Processing?
    case Return => s.consumer.Polling? && !s.fetching && s.buffer == map[]
    case Halt => true
  }

  function Apply(c: Config, s: State, a: Action): State
    requires Enabled(c, s, a)
  {
    match a
    case Tracked => s.(fetcher := Looping)
    case NewHeight(height) => s.(latest := height)
    case LeaveLoop => s.(fetcher := Draining)
    case Launch =>
      var s1 := s.(inFlight := s.inFlight + {s.fetchHeight}, batch := s.batch + {s.fetchHeight});
      // The height advances only after the batch has settled.
      if |s1.batch| >= c.bufferSize then s1.(fetcher := Batching) else s1.(fetchHeight := s.fetchHeight + 1)
    case BatchSettled => s.(batch := {}, fetchHeight := s.fetchHeight + 1, fetcher := Looping)
    case Fetched(h, item) => s.(inFlight := s.inFlight - {h}, buffer := s.buffer[h := item])
    case Drained => s.(fetching := false, fetcher := Stopped)
    case Take =>
      s.(buffer := s.buffer - {s.current}, consumer := Processing(s.buffer[s.current]),
         processed := s.processed + [s.current])
    case Finish => s.(consumer := Polling, current := s.current + 1)
    case Throw => s.(consumer := Threw, fetching := false)
    case Return => s.(consumer := Returned, fetching := false)
    case Halt => s.(fetching := false, halted := true)
  }

  // ---- the invariant ----

  /** The next height the consumer has not taken. */
  function Next(s: State): nat {
    if s.consumer.Processing? || s.consumer.Threw? then s.current + 1 else s.current
  }

  /** The first height not launched. */
  function Top(s: State): nat {
    if s.fetcher.Batching? then s.fetchHeight + 1 else s.fetchHeight
  }

  function UpFrom(start: nat, n: nat): seq<nat> {
    seq(n, i requires 0 <= i => start + i)
  }

  /** Taken so far: the heights from the start, in order, each once. */
  ghost predicate InOrder(c: Config, s: State) {
    c.start <= s.current && s.processed == UpFrom(c.start, Next(s) - c.start)
  }

  /** Launched but not taken: exactly the buffered and the in-flight heights, disjointly. */
  ghost predicate Partitioned(s: State) {
    && Next(s) <= Top(s)
    && (forall h: nat :: h in s.buffer || h in s.inFlight <==> Next(s) <= h < Top(s))
    && (forall h: nat :: h in s.buffer ==> h !in s.inFlight)
  }

  ghost predicate Bounded(c: Config, s: State) {
    && s.inFlight <= s.batch
    && |s.batch| <= c.bufferSize
    && (s.fetcher.Tracking? || s.fetcher.Looping? ==> |s.batch| < c.bufferSize)
    && |s.buffer| + |s.inFlight| <= 2 * c.bufferSize - 1
  }

  /** Who may have cleared `fetching`, and what the fetcher has done by then. */
  ghost predicate Phased(c: Config, s: State) {
    && (HasEnd(c) ==> Top(s) <= c.end.value + 1)
    && (s.fetcher.Stopped? ==> s.inFlight == {} && !s.fetching)
    && (!s.halted && !s.consumer.Threw? ==>
          && (!s.fetching ==> s.fetcher.Stopped?)
          && (s.fetcher.Draining? || s.fetcher.Stopped? ==> HasEnd(c) && s.fetchHeight == c.end.value + 1)
          && (s.consumer.Returned? ==> s.fetcher.Stopped? && s.buffer == map[]))
  }

  ghost predicate Inv(c: Config, s: State) {
    InOrder(c, s) && Partitioned(s) && Bounded(c, s) && Phased(c, s)
  }

  lemma InitInv(c: Config)
    requires ConfigOk(c)
    ensures Inv(c, Init(c))
  {
  }

  lemma SubsetSize(a: set<nat>, b: set<nat>)
    requires a <= b
    ensures |a| <= |b|
  {
    assert b == a + (b - a);
  }

  lemma Added(a: set<nat>, h: nat)
    requires h !in a
    ensures |a + {h}| == |a| + 1
  {
  }

  lemma BufferGains(s: State, h: nat, item: Item)
    requires h !in s.buffer
    ensures |s.buffer[h := item]| == |s.buffer| + 1
  {
    assert s.buffer[h := item].Keys == s.buffer.Keys + {h};
  }

  lemma BufferLoses(s: State, h: nat)
    requires h in s.buffer
    ensures |s.buffer - {h}| == |s.buffer| - 1
  {
    assert (s.buffer - {h}).Keys == s.buffer.Keys - {h};
  }

  lemma LaunchBounded(c: Config, s: State)
    requires ConfigOk(c) && Inv(c, s) && Enabled(c, s, Launch)
    ensures Bounded(c, Apply(c, s, Launch))
  {
    var h := s.fetchHeight;
    if h !in s.batch { Added(s.batch, h); } else { assert s.batch + {h} == s.batch; }
    SubsetSize(s.inFlight + {h}, s.batch + {h});
  }

  lemma LaunchPartitioned(c: Config, s: State)
    requires Partitioned(s) && Enabled(c, s, Launch)
    ensures Partitioned(Apply(c, s, Launch))
  {
    var s' := Apply(c, s, Launch);
    assert Next(s') == Next(s) && Top(s') == Top(s) + 1 == s.fetchHeight + 1;
    forall h: nat
      ensures h in s'.buffer || h in s'.inFlight <==> Next(s') <= h < Top(s')
      ensures h in s'.buffer ==> h !in s'.inFlight
    {
      assert h in s'.inFlight <==> h in s.inFlight || h == s.fetchHeight;
    }
  }

  lemma LaunchInv(c: Config, s: State)
    requires ConfigOk(c) && Inv(c, s) && Enabled(c, s, Launch)
    ensures Inv(c, Apply(c, s, Launch))
  {
    LaunchBounded(c, s);
    LaunchPartitioned(c, s);
  }

  lemma FetchedInv(c: Config, s: State, h: nat, item: Item)
    requires Inv(c, s) && h in s.inFlight
    ensures Inv(c, Apply(c, s, Fetched(h, item)))
  {
    var s' := Apply(c, s, Fetched(h, item));
    BufferGains(s, h, item);
    assert |s'.inFlight| == |s.inFlight| - 1;
    assert Bounded(c, s');
    assert Partitioned(s');
  }

  lemma TakeInv(c: Config, s: State)
    requires Inv(c, s) && Enabled(c, s, Take)
    ensures Inv(c, Apply(c, s, Take))
  {
    var s' := Apply(c, s, Take);
    BufferLoses(s, s.current);
    assert Bounded(c, s');
    assert Partitioned(s');
    assert s'.processed == UpFrom(c.start, Next(s') - c.start);
  }

  /** The fetch loop moves without launching. */
  lemma FetcherInv(c: Config, s: State, a: Action)
    requires Inv(c, s) && Enabled(c, s, a) && (a.Tracked? || a.LeaveLoop? || a.BatchSettled? || a.Drained?)
    ensures Inv(c, Apply(c, s, a))
  {
    if a.BatchSettled? || a.Drained? { assert s.inFlight == s.batch * s.inFlight; }
  }

  /** The consumer moves without taking. */
  lemma ConsumerInv(c: Config, s: State, a: Action)
    requires Inv(c, s) && Enabled(c, s, a) && (a.Finish? || a.Throw? || a.Return?)
    ensures Inv(c, Apply(c, s, a))
  {
  }

  lemma StepInv(c: Config, s: State, a: Action)
    requires ConfigOk(c) && Inv(c, s) && Enabled(c, s, a)
    ensures Inv(c, Apply(c, s, a))
  {
    if a.Launch? {
      LaunchInv(c, s);
    } else if a.Fetched? {
      FetchedInv(c, s, a.height, a.item);
    } else if a.Take? {
      TakeInv(c, s);
    } else if a.Finish? || a.Throw? || a.Return? {
      ConsumerInv(c, s, a);
    } else if !a.NewHeight? && !a.Halt? {
      FetcherInv(c, s, a);
    }
  }

  // ---- whole runs ----

  ghost predicate IsRun(c: Config, states: seq<State>, actions: seq<Action>) {
    && |states| == |actions| + 1 && states[0] == Init(c)
    && forall i :: 0 <= i < |actions| ==>
        Enabled(c, states[i], actions[i]) && states[i + 1] == Apply(c, states[i], actions[i])
  }

  lemma {:induction false} RunInv(c: Config, states: seq<State>, actions: seq<Action>, i: nat)
    requires ConfigOk(c) && IsRun(c, states, actions) && i < |states|
    ensures Inv(c, states[i])
  {
    if i == 0 {
      InitInv(c);
    } else {
      RunInv(c, states, actions, i - 1);
      StepInv(c, states[i - 1], actions[i - 1]);
    }
  }

  /** Over every interleaving, the heights processed are start, start + 1, ... with no gap and no repetition. */
  lemma ProcessedInOrder(c: Config, states: seq<State>, actions: seq<Action>, i: nat, j: nat)
    requires ConfigOk(c) && IsRun(c, states, actions) && i < |states| && j < |states[i].processed|
    ensures states[i].processed[j] == c.start + j
  {
    RunInv(c, states, actions, i);
  }

  /** Only a call of `stopFetching`, possible at any time, counts as an outside stop. */
  lemma {:induction false} HaltedIff(c: Config, states: seq<State>, actions: seq<Action>, i: nat)
    requires IsRun(c, states, actions) && i < |states|
    ensures states[i].halted <==> exists j :: 0 <= j < i && actions[j] == Halt
    ensures Enabled(c, states[i], Halt)
  {
    if i > 0 {
      HaltedIff(c, states, actions, i - 1);
      assert actions[i - 1] == Halt ==> exists j :: 0 <= j < i && actions[j] == Halt;
    }
  }

  /** Returning with an end height, no error thrown and no outside stop means start..end were all processed. */
  lemma ProcessedAll(c: Config, states: seq<State>, actions: seq<Action>, i: nat)
    requires ConfigOk(c) && IsRun(c, states, actions) && i < |states|
    requires states[i].consumer.Returned? && forall j :: 0 <= j < i ==> actions[j] != Halt
    ensures HasEnd(c) && states[i].processed == UpFrom(c.start, c.end.value + 1 - c.start)
  {
    RunInv(c, states, actions, i);
    HaltedIff(c, states, actions, i);
    var s := states[i];
    assert Next(s) !in s.buffer && Next(s) !in s.inFlight;
  }

  /** However the consumer ends, fetching is stopped. */
  lemma {:induction false} EndStopsFetching(c: Config, states: seq<State>, actions: seq<Action>, i: nat)
    requires IsRun(c, states, actions) && i < |states|
    ensures states[i].consumer.Returned? || states[i].consumer.Threw? ==> !states[i].fetching
  {
    if i > 0 { EndStopsFetching(c, states, actions, i - 1); }
  }

  /** Fetches run side by side: the loop goes on launching until a full batch is, and only then waits. */
  lemma LaunchesABatch(c: Config, s: State)
    requires Enabled(c, s, Launch)
    ensures var s' := Apply(c, s, Launch);
            && s'.batch == s.batch + {s.fetchHeight} && s'.inFlight == s.inFlight + {s.fetchHeight}
            && if |s'.batch| < c.bufferSize then s'.fetcher.Looping? && s'.fetchHeight == s.fetchHeight + 1
               else s'.fetcher.Batching?
  {
  }

  /** A consumer that finds its height missing while others are buffered is waiting for a fetch in progress. */
  lemma NeverStranded(c: Config, states: seq<State>, actions: seq<Action>, i: nat)
    requires ConfigOk(c) && IsRun(c, states, actions) && i < |states|
    requires states[i].consumer.Polling? && states[i].buffer != map[]
    ensures states[i].current in states[i].buffer || states[i].current in states[i].inFlight
  {
    RunInv(c, states, actions, i);
    var s := states[i];
    var h :| h in s.buffer;
    assert Next(s) <= h < Top(s);
  }

  /** Back-pressure: buffered and in-flight blocks never exceed 2 * bufferSize - 1. */
  lemma BackPressure(c: Config, states: seq<State>, actions: seq<Action>, i: nat)
    requires ConfigOk(c) && IsRun(c, states, actions) && i < |states|
    ensures |states[i].buffer| + |states[i].inFlight| <= 2 * c.bufferSize - 1
    ensures forall h: nat :: h in states[i].buffer || h in states[i].inFlight <==> Next(states[i]) <= h < Top(states[i])
    ensures forall h: nat :: !(h in states[i].buffer && h in states[i].inFlight)
  {
    RunInv(c, states, actions, i);
  }

  // ---- progress ----

  function FetcherRank(f: FetcherAt): nat {
    match f
    case Tracking => 3
    case Looping => 2
    case Batching => 3
    case Draining => 1
    case Stopped => 0
  }

  function ConsumerRank(k: ConsumerAt): nat {
    match k
    case Polling => 1
    case Processing(_) => 2
    case Returned => 0
    case Threw => 0
  }

  /** Work left: heights to launch, to fetch, to take, and the two loops' own positions. */
  function Work(c: Config, s: State): int
    requires HasEnd(c)
  {
    5 * (c.end.value + 1 - Top(s)) + 3 * |s.inFlight| + 2 * |s.buffer| +
    FetcherRank(s.fetcher) + ConsumerRank(s.consumer)
  }

  predicate Working(a: Action) {
    !a.NewHeight? && !a.Halt?
  }

  lemma WorkLaunched(c: Config, s: State)
    requires HasEnd(c) && Partitioned(s) && Enabled(c, s, Launch)
    ensures Work(c, Apply(c, s, Launch)) < Work(c, s)
  {
    var s' := Apply(c, s, Launch);
    Added(s.inFlight, s.fetchHeight);
    assert Top(s') == Top(s) + 1 && |s'.inFlight| == |s.inFlight| + 1 && s'.buffer == s.buffer;
  }

  lemma WorkFetched(c: Config, s: State, h: nat, item: Item)
    requires HasEnd(c) && Partitioned(s) && h in s.inFlight
    ensures Work(c, Apply(c, s, Fetched(h, item))) < Work(c, s)
  {
    BufferGains(s, h, item);
    var inFlight := s.inFlight - {h};
    assert |inFlight| == |s.inFlight| - 1;
  }

  lemma WorkTaken(c: Config, s: State)
    requires HasEnd(c) && Enabled(c, s, Take)
    ensures Work(c, Apply(c, s, Take)) < Work(c, s)
  {
    BufferLoses(s, s.current);
  }

  lemma WorkUsed(c: Config, s: State, a: Action)
    requires HasEnd(c) && Partitioned(s) && Enabled(c, s, a) && Working(a)
    ensures Work(c, Apply(c, s, a)) < Work(c, s)
  {
    if a.Launch? {
      WorkLaunched(c, s);
    } else if a.Fetched? {
      WorkFetched(c, s, a.height, a.item);
    } else if a.Take? {
      WorkTaken(c, s);
    } else {
      assert Apply(c, s, a).buffer == s.buffer && Apply(c, s, a).inFlight == s.inFlight;
    }
  }

  /** Every step of the two loops and of a fetch uses up work, so only finitely many can happen. */
  lemma WorkDecreases(c: Config, s: State, a: Action)
    requires ConfigOk(c) && HasEnd(c) && Inv(c, s) && Enabled(c, s, a) && Working(a)
    ensures 0 <= Work(c, Apply(c, s, a)) < Work(c, s)
  {
    WorkUsed(c, s, a);
    StepInv(c, s, a);
  }

  /** A working step that does not give up: an error is thrown only where the options ask for it. */
  predicate Useful(c: Config, s: State, a: Action) {
    Working(a) && Enabled(c, s, a) && (a.Throw? ==> s.consumer.Processing? && MustThrow(c, s.consumer.item))
  }

  /** Once the chain has reached the end height, a consumer that has not finished can always be advanced. */
  lemma NeverStuck(c: Config, s: State, chain: nat -> Item) returns (a: Action)
    requires ConfigOk(c) && HasEnd(c) && Inv(c, s) && s.latest >= c.end.value
    requires s.consumer.Polling? || s.consumer.Processing?
    ensures Useful(c, s, a) && (a.Fetched? ==> a.item == chain(a.height))
  {
    if s.consumer.Processing? {
      a := if MustThrow(c, s.consumer.item) then Throw else Finish;
    } else if s.current in s.buffer {
      a := Take;
    } else if s.inFlight != {} {
      var h :| h in s.inFlight;
      a := Fetched(h, chain(h));
    } else {
      assert Next(s) == Top(s);
      assert forall h: nat :: h !in s.buffer;
      assert s.buffer == map[];
      match s.fetcher
      case Tracking => a := Tracked;
      case Looping => a := if WantsMore(c, s) then Launch else LeaveLoop;
      case Batching => a := BatchSettled;
      case Draining => a := Drained;
      case Stopped => a := Return;
    }
  }

  function WorkingSteps(actions: seq<Action>, i: nat): nat
    requires i <= |actions|
  {
    if i == 0 then 0 else WorkingSteps(actions, i - 1) + if Working(actions[i - 1]) then 1 else 0
  }

  lemma {:induction false} WorkingStepsCount(actions: seq<Action>, n: nat)
    requires n <= |actions|
    ensures WorkingSteps(actions, n) == |set i | 0 <= i < n && Working(actions[i])|
  {
    var all := set i | 0 <= i < n && Working(actions[i]);
    if n > 0 {
      WorkingStepsCount(actions, n - 1);
      var front := set i | 0 <= i < n - 1 && Working(actions[i]);
      assert all == if Working(actions[n - 1]) then front + {n - 1} else front;
    } else {
      assert all == {};
    }
  }

  lemma WorkStep(c: Config, s: State, a: Action)
    requires ConfigOk(c) && HasEnd(c) && Inv(c, s) && Enabled(c, s, a) && Work(c, s) >= 0
    ensures 0 <= Work(c, Apply(c, s, a)) <= Work(c, s) - if Working(a) then 1 else 0
  {
    if Working(a) { WorkDecreases(c, s, a); }
  }

  lemma {:induction false} WorkSpent(c: Config, states: seq<State>, actions: seq<Action>, i: nat)
    requires ConfigOk(c) && HasEnd(c) && IsRun(c, states, actions) && i < |states|
    ensures WorkingSteps(actions, i) + Work(c, states[i]) <= Work(c, Init(c)) && Work(c, states[i]) >= 0
  {
    if i > 0 {
      RunInv(c, states, actions, i - 1);
      WorkSpent(c, states, actions, i - 1);
      WorkStep(c, states[i - 1], actions[i - 1]);
    }
  }

  /**
   * Every run makes at most 5 * (end + 1 - start) + 4 working steps. When none is left to make, the chain
   * has reached the end height, nobody stopped the iterator and nothing was thrown, `iterate` has returned
   * with start..end processed.
   */
  lemma RunsToTheEnd(c: Config, states: seq<State>, actions: seq<Action>)
    requires ConfigOk(c) && HasEnd(c) && IsRun(c, states, actions)
    ensures |set i | 0 <= i < |actions| && Working(actions[i])| <= 5 * (c.end.value + 1 - c.start) + 4
    ensures var s := states[|actions|];
            (forall j :: 0 <= j < |actions| ==> actions[j] != Halt) && !s.consumer.Threw? &&
            s.latest >= c.end.value && (forall a :: !Useful(c, s, a)) ==>
              s.consumer.Returned? && s.processed == UpFrom(c.start, c.end.value + 1 - c.start)
  {
    WorkSpent(c, states, actions, |actions|);
    WorkingStepsCount(actions, |actions|);
    var s := states[|actions|];
    if (forall j :: 0 <= j < |actions| ==> actions[j] != Halt) && !s.consumer.Threw? && s.latest >= c.end.value {
      RunInv(c, states, actions, |actions|);
      if s.consumer.Returned? {
        ProcessedAll(c, states, actions, |actions|);
      } else {
        var a := NeverStuck(c, s, h => Failed);
      }
    }
  }

  // ---- the right item at each height ----

  /** How many of the first `n` steps deliver the block of height `h`. */
  function Deliveries(actions: seq<Action>, n: nat, h: nat): nat
    requires n <= |actions|
  {
    if n == 0 then 0 else Deliveries(actions, n - 1, h) + if IsDelivery(actions[n - 1], h) then 1 else 0
  }

  predicate IsDelivery(a: Action, h: nat) {
    a.Fetched? && a.height == h
  }

  /** The item of the latest delivery of `h`. */
  function Delivered(actions: seq<Action>, n: nat, h: nat): Option<Item>
    requires n <= |actions|
  {
    if n == 0 then None
    else if IsDelivery(actions[n - 1], h) then Some(actions[n - 1].item)
    else Delivered(actions, n - 1, h)
  }

  /** Each height launched and not in flight has been delivered once. */
  ghost predicate Counted(start: nat, top: nat, inFlight: set<nat>, actions: seq<Action>, n: nat)
    requires n <= |actions|
  {
    forall h: nat :: Deliveries(actions, n, h) == if start <= h < top && h !in inFlight then 1 else 0
  }

  /** What is buffered or processed is what was delivered. */
  ghost predicate Right(c: Config, s: State, actions: seq<Action>, n: nat)
    requires n <= |actions|
  {
    && (forall h: nat :: h in s.buffer ==> Delivered(actions, n, h) == Some(s.buffer[h]))
    && (s.consumer.Processing? ==> Delivered(actions, n, s.current) == Some(s.consumer.item))
  }

  lemma CountStep(start: nat, top: nat, inFlight: set<nat>, actions: seq<Action>, n: nat)
    requires n < |actions| && start <= top && Counted(start, top, inFlight, actions, n)
    ensures !actions[n].Fetched? ==> Counted(start, top, inFlight, actions, n + 1)
    ensures !actions[n].Fetched? ==> Counted(start, top + 1, inFlight + {top}, actions, n + 1)
    ensures actions[n].Fetched? && actions[n].height in inFlight && start <= actions[n].height < top ==>
              Counted(start, top, inFlight - {actions[n].height}, actions, n + 1)
  {
    forall h: nat
      ensures Deliveries(actions, n + 1, h) == Deliveries(actions, n, h) + if IsDelivery(actions[n], h) then 1 else 0
    {
    }
  }

  /** Only a launch moves the first height not launched, and only launches and deliveries change what is in flight. */
  lemma TopMoves(c: Config, s: State, a: Action)
    requires Enabled(c, s, a)
    ensures var s' := Apply(c, s, a);
            && Top(s') == (if a.Launch? then Top(s) + 1 else Top(s))
            && s'.inFlight ==
               if a.Launch? then s.inFlight + {Top(s)} else if a.Fetched? then s.inFlight - {a.height} else s.inFlight
  {
  }

  lemma StepCounted(c: Config, s: State, actions: seq<Action>, n: nat)
    requires n < |actions| && InOrder(c, s) && Partitioned(s) && Enabled(c, s, actions[n])
    requires Counted(c.start, Top(s), s.inFlight, actions, n)
    ensures var s' := Apply(c, s, actions[n]); Counted(c.start, Top(s'), s'.inFlight, actions, n + 1)
  {
    var a := actions[n];
    if a.Fetched? { assert c.start <= Next(s) <= a.height < Top(s); }
    CountStep(c.start, Top(s), s.inFlight, actions, n);
    TopMoves(c, s, a);
  }

  lemma StepRight(c: Config, s: State, actions: seq<Action>, n: nat)
    requires ConfigOk(c) && n < |actions| && Inv(c, s) && Enabled(c, s, actions[n]) && Right(c, s, actions, n)
    ensures Right(c, Apply(c, s, actions[n]), actions, n + 1)
  {
    var a, s' := actions[n], Apply(c, s, actions[n]);
    if a.Fetched? {
      assert s'.buffer == s.buffer[a.height := a.item] && s'.consumer == s.consumer;
      assert s.consumer.Processing? ==> s.current < Next(s) <= a.height;
    } else if a.Take? {
      assert s'.consumer == Processing(s.buffer[s.current]) && s'.current == s.current;
    } else {
      assert s'.buffer == s.buffer;
    }
  }

  lemma {:induction false} RunRight(c: Config, states: seq<State>, actions: seq<Action>, i: nat)
    requires ConfigOk(c) && IsRun(c, states, actions) && i < |states|
    ensures Right(c, states[i], actions, i) && Counted(c.start, Top(states[i]), states[i].inFlight, actions, i)
  {
    if i > 0 {
      RunInv(c, states, actions, i - 1);
      RunRight(c, states, actions, i - 1);
      StepCounted(c, states[i - 1], actions, i - 1);
      StepRight(c, states[i - 1], actions, i - 1);
    }
  }

  lemma {:induction false} DeliveredAt(actions: seq<Action>, n: nat, h: nat) returns (j: nat)
    requires n <= |actions| && Delivered(actions, n, h).Some?
    ensures j < n && actions[j] == Fetched(h, Delivered(actions, n, h).value)
  {
    if IsDelivery(actions[n - 1], h) { j := n - 1; } else { j := DeliveredAt(actions, n - 1, h); }
  }

  lemma {:induction false} NoMoreDeliveries(actions: seq<Action>, n: nat, h: nat, j: nat)
    requires n <= |actions| && j < n && IsDelivery(actions[j], h)
    ensures Deliveries(actions, n, h) >= 1
    ensures Deliveries(actions, n, h) == 1 ==> forall x :: 0 <= x < n && IsDelivery(actions[x], h) ==> x == j
    decreases n
  {
    if j == n - 1 {
      if Deliveries(actions, n - 1, h) == 0 { NoDelivery(actions, n - 1, h); }
    } else {
      NoMoreDeliveries(actions, n - 1, h, j);
    }
  }

  lemma {:induction false} NoDelivery(actions: seq<Action>, n: nat, h: nat)
    requires n <= |actions| && Deliveries(actions, n, h) == 0
    ensures forall x :: 0 <= x < n ==> !IsDelivery(actions[x], h)
  {
    if n > 0 { NoDelivery(actions, n - 1, h); }
  }

  /**
   * Over every run: the item being processed at a height is the one fetched for it, by the only fetch that delivered
   * that height.
   */
  lemma ProcessesWhatWasFetched(c: Config, states: seq<State>, actions: seq<Action>, i: nat) returns (j: nat)
    requires ConfigOk(c) && IsRun(c, states, actions) && i < |states| && states[i].consumer.Processing?
    ensures j < i && actions[j] == Fetched(states[i].current, states[i].consumer.item)
    ensures forall x :: 0 <= x < i && actions[x].Fetched? && actions[x].height == states[i].current ==> x == j
  {
    var h := states[i].current;
    RunInv(c, states, actions, i);
    RunRight(c, states, actions, i);
    j := DeliveredAt(actions, i, h);
    NoMoreDeliveries(actions, i, h, j);
    assert forall x :: 0 <= x < i && actions[x].Fetched? && actions[x].height == h ==> IsDelivery(actions[x], h);
  }

  /**
   * A block that failed to load, if block errors are to be thrown, or one with a transaction that did, if those
   * are, is never finished; any other item may be.
   */
  lemma ThrowsAsAsked(c: Config, states: seq<State>, actions: seq<Action>, i: nat, item: Item)
    requires IsRun(c, states, actions) && i < |states| && states[i].consumer == Processing(item)
    ensures i < |actions| && ((item.Failed? && c.throwBlock) || (item.Block? && item.badTx && c.throwTx)) ==>
            actions[i] != Finish
    ensures (item.Failed? && !c.throwBlock) || (item.Block? && !(item.badTx && c.throwTx)) ==>
              Enabled(c, states[i], Finish) &&
              Apply(c, states[i], Finish).consumer.Polling? &&
              Apply(c, states[i], Finish).current == states[i].current + 1
  {
  }

  // ---- stopping and finishing ----

  /** Once fetching has stopped, by itself, by an error or from outside, nothing more is launched. */
  lemma {:induction false} StoppedStays(c: Config, states: seq<State>, actions: seq<Action>, i: nat, j: nat)
    requires IsRun(c, states, actions) && i <= j < |states| && !states[i].fetching
    ensures !states[j].fetching && (j < |actions| ==> actions[j] != Launch)
  {
    if i < j { StoppedStays(c, states, actions, i, j - 1); }
  }

  /** `stopFetching` from outside: nothing is launched any more, and what is buffered in order is still processed. */
  lemma HaltDrains(c: Config, states: seq<State>, actions: seq<Action>, i: nat, j: nat)
    requires ConfigOk(c) && IsRun(c, states, actions) && i < j < |states| && actions[i] == Halt
    ensures j < |actions| ==> actions[j] != Launch
    ensures states[j].consumer.Polling? && states[j].current in states[j].buffer ==> Useful(c, states[j], Take)
    ensures states[j].consumer.Polling? && states[j].buffer == map[] ==> Useful(c, states[j], Return)
    ensures states[j].consumer.Polling? && states[j].buffer != map[] && states[j].current !in states[j].buffer ==>
              Useful(c, states[j], Fetched(states[j].current, Failed))
  {
    assert !states[i + 1].fetching;
    StoppedStays(c, states, actions, i + 1, j);
    RunInv(c, states, actions, j);
    if states[j].consumer.Polling? && states[j].buffer != map[] { NeverStranded(c, states, actions, j); }
  }

  /** A sequence of steps from one state to another. */
  ghost predicate Path(c: Config, s: State, actions: seq<Action>, t: State)
    decreases |actions|
  {
    if actions == [] then s == t
    else Enabled(c, s, actions[0]) && Path(c, Apply(c, s, actions[0]), actions[1..], t)
  }

  /** Whatever is fetched is what the chain has at that height. */
  ghost predicate FetchesFrom(actions: seq<Action>, chain: nat -> Item) {
    forall i :: 0 <= i < |actions| && actions[i].Fetched? ==> actions[i].item == chain(actions[i].height)
  }

  /** Nothing the consumer holds or will find in the buffer is to be thrown. */
  ghost predicate Harmless(c: Config, s: State) {
    && (s.consumer.Processing? ==> !MustThrow(c, s.consumer.item))
    && (forall h :: h in s.buffer ==> !MustThrow(c, s.buffer[h]))
  }

  ghost predicate ChainHarmless(c: Config, chain: nat -> Item) {
    forall h :: !MustThrow(c, chain(h))
  }

  /** With an end height, not stopped from outside, not failed, and with nothing to throw. */
  ghost predicate OnTrack(c: Config, s: State) {
    ConfigOk(c) && HasEnd(c) && Inv(c, s) && Harmless(c, s) && !s.halted && !s.consumer.Threw?
  }

  /**
   * Whatever blocks a chain without errors to throw holds, the iterator can return with start..end processed: from
   * the start, and from every state in which nothing to be thrown was fetched before. The fetches deliver that
   * chain's blocks.
   */
  lemma CanFinish(c: Config, s: State, chain: nat -> Item) returns (actions: seq<Action>, t: State)
    requires OnTrack(c, s) && ChainHarmless(c, chain)
    ensures Path(c, s, actions, t) && FetchesFrom(actions, chain)
    ensures t.consumer.Returned? && t.processed == UpFrom(c.start, c.end.value + 1 - c.start)
  {
    var head := NewHeight(c.end.value);
    StepInv(c, s, head);
    actions, t := FinishFrom(c, Apply(c, s, head), chain);
    PathFrom(c, s, head, actions, t, chain);
    actions := [head] + actions;
  }

  lemma StartsOnTrack(c: Config)
    requires ConfigOk(c) && HasEnd(c)
    ensures OnTrack(c, Init(c))
  {
    InitInv(c);
  }

  lemma PathFrom(c: Config, s: State, a: Action, actions: seq<Action>, t: State, chain: nat -> Item)
    requires Enabled(c, s, a) && Path(c, Apply(c, s, a), actions, t)
    requires FetchesFrom(actions, chain) && (a.Fetched? ==> a.item == chain(a.height))
    ensures Path(c, s, [a] + actions, t) && FetchesFrom([a] + actions, chain)
  {
    assert ([a] + actions)[1..] == actions;
  }

  lemma UsefulHarmless(c: Config, s: State, a: Action)
    requires Useful(c, s, a) && Harmless(c, s) && (a.Fetched? ==> !MustThrow(c, a.item))
    ensures var s' := Apply(c, s, a);
            && Harmless(c, s') && s'.halted == s.halted && s'.latest == s.latest
            && (s'.consumer.Threw? ==> s.consumer.Threw?)
  {
    assert !a.Throw? && !a.Halt? && !a.NewHeight?;
    var s' := Apply(c, s, a);
    if a.Fetched? {
      assert s'.buffer == s.buffer[a.height := a.item];
    } else if a.Take? {
      assert s'.buffer == s.buffer - {s.current};
    } else {
      assert s'.buffer == s.buffer;
    }
  }

  lemma UsefulKeepsGoing(c: Config, s: State, chain: nat -> Item) returns (a: Action, s': State)
    requires OnTrack(c, s) && ChainHarmless(c, chain) && !s.consumer.Returned? && s.latest >= c.end.value
    ensures Enabled(c, s, a) && s' == Apply(c, s, a) && (a.Fetched? ==> a.item == chain(a.height))
    ensures OnTrack(c, s') && s'.latest >= c.end.value && 0 <= Work(c, s') < Work(c, s)
  {
    a := NeverStuck(c, s, chain);
    s' := Apply(c, s, a);
    UsefulHarmless(c, s, a);
    WorkDecreases(c, s, a);
    StepInv(c, s, a);
  }

  lemma FinishFrom(c: Config, s: State, chain: nat -> Item) returns (actions: seq<Action>, t: State)
    requires OnTrack(c, s) && ChainHarmless(c, chain) && s.latest >= c.end.value
    ensures Path(c, s, actions, t) && FetchesFrom(actions, chain)
    ensures t.consumer.Returned? && t.processed == UpFrom(c.start, c.end.value + 1 - c.start)
    decreases Work(c, s)
  {
    if s.consumer.Returned? {
      actions, t := [], s;
      assert Next(s) !in s.buffer && Next(s) !in s.inFlight;
    } else {
      var a, s' := UsefulKeepsGoing(c, s, chain);
      actions, t := FinishFrom(c, s', chain);
      PathFrom(c, s, a, actions, t, chain);
      actions := [a] + actions;
    }
  }
}
