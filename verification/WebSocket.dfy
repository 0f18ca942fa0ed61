/** The chain WebSocket listener: generations, cancellable attempts and retry waits guarding one owned socket. */
module WebSocket {
  import opened Options

  datatype Status = Pending | Resolved | Rejected

  /** `Closed` once handed to `_closeSocket`. */
  datatype Sock = NoSocket | Unclosed | Closed

  /**
   * One `_singleConnectionAttempt`: the generation it captured, the one socket it may create, and its promise.
   * A socket is identified by the attempt that created it.
   */
  datatype Attempt = Attempt(gen: nat, sock: Sock, status: Status)

  /** The await an `_attemptConnection` loop is suspended at. */
  datatype At =
    | EmitConnecting
    | Awaiting(attempt: nat)
    | EmitFatal
    | Reporting
    | EmitError
    | Waiting(timer: nat)
    | Done

  datatype Loop = Loop(gen: nat, at: At, skipWait: bool)

  /** The continuation registered by a lost connection. */
  datatype Reconnect = Reconnect(gen: nat, timer: nat, skipWait: bool, done: bool)

  datatype State = State(
    webSocket: Option<nat>, connected: bool, connecting: bool, shouldReconnect: bool, tries: nat,
    generation: nat, cancelAttempt: Option<nat>, cancelRetry: Option<nat>,
    attempts: seq<Attempt>, loops: seq<Loop>,
    timers: seq<bool>,  // retry waits; true once settled
    reconnects: seq<Reconnect>,
    delivered: nat,     // block and transaction callbacks started
    down: bool)         // `disconnect` was called and `connect` has not been called since

  const INIT := State(None, false, false, true, 0, 0, None, None, [], [], [], [], 0, false)

  // ---- the pieces ----

  /** `fail`: settle the attempt, forget its cancel hook, and close its socket. */
  function Fail(s: State, a: nat): (s': State)
    requires a < |s.attempts|
    ensures s'.delivered == s.delivered
  {
    if !s.attempts[a].status.Pending? then s
    else if s.attempts[a].sock.NoSocket? then
      s.(attempts := s.attempts[a := s.attempts[a].(status := Rejected)],
         cancelAttempt := if s.cancelAttempt == Some(a) then None else s.cancelAttempt)
    else
      s.(attempts := s.attempts[a := s.attempts[a].(status := Rejected, sock := Closed)],
         cancelAttempt := if s.cancelAttempt == Some(a) then None else s.cancelAttempt,
         webSocket := if s.webSocket == Some(a) then None else s.webSocket)
  }

  function CancelAttempt(s: State): (s': State)
    requires s.cancelAttempt.Some? ==> s.cancelAttempt.value < |s.attempts|
    ensures s'.delivered == s.delivered
  {
    if s.cancelAttempt.Some? then Fail(s, s.cancelAttempt.value) else s
  }

  /** The timer's own callback, also used to cancel it. */
  function SettleTimer(s: State, t: nat): (s': State)
    requires t < |s.timers|
    ensures s'.delivered == s.delivered
  {
    s.(timers := s.timers[t := true], cancelRetry := if s.cancelRetry == Some(t) then None else s.cancelRetry)
  }

  function CancelRetry(s: State): (s': State)
    requires s.cancelRetry.Some? ==> s.cancelRetry.value < |s.timers|
    ensures s'.delivered == s.delivered
  {
    if s.cancelRetry.Some? then SettleTimer(s, s.cancelRetry.value) else s
  }

  /** `_waitBeforeRetry`: the new timer is the last one. */
  function WaitBeforeRetry(s: State): (s': State)
    requires s.cancelRetry.Some? ==> s.cancelRetry.value < |s.timers|
    ensures s'.delivered == s.delivered
  {
    var s1 := CancelRetry(s);
    s1.(timers := s1.timers + [false], cancelRetry := Some(|s.timers|))
  }

  /** `createSocket`; `ok` tells whether the constructor succeeds. */
  function CreateSocket(s: State, a: nat, ok: bool): (s': State)
    requires a < |s.attempts|
    ensures s'.delivered == s.delivered
  {
    if !s.attempts[a].status.Pending? || !s.attempts[a].sock.NoSocket? || s.attempts[a].gen != s.generation then s
    else if !ok then Fail(s, a)
    else s.(attempts := s.attempts[a := s.attempts[a].(sock := Unclosed)], webSocket := Some(a))
  }

  /** `_singleConnectionAttempt`: the new attempt is the last one; without a port wait its socket is created at once. */
  function StartAttempt(s: State, skipWait: bool, ok: bool): (s': State)
    requires s.cancelAttempt.Some? ==> s.cancelAttempt.value < |s.attempts|
    ensures s'.delivered == s.delivered
  {
    var s1 := CancelAttempt(s);
    var s2 := s1.(attempts := s1.attempts + [Attempt(s1.generation, NoSocket, Pending)],
                  cancelAttempt := Some(|s1.attempts|));
    if skipWait then CreateSocket(s2, |s1.attempts|, ok) else s2
  }

  /** References point at existing attempts and timers. */
  ghost predicate InRange(s: State) {
    && (s.webSocket.Some? ==> s.webSocket.value < |s.attempts|)
    && (s.cancelAttempt.Some? ==> s.cancelAttempt.value < |s.attempts|)
    && (s.cancelRetry.Some? ==> s.cancelRetry.value < |s.timers|)
    && (forall l :: 0 <= l < |s.loops| ==>
          (s.loops[l].at.Awaiting? ==> s.loops[l].at.attempt < |s.attempts|) &&
              (s.loops[l].at.Waiting? ==> s.loops[l].at.timer < |s.timers|))
    && (forall r :: 0 <= r < |s.reconnects| ==> s.reconnects[r].timer < |s.timers|)
  }

  /** `_attemptConnection` up to its first await. */
  ghost function AttemptConnection(s: State, skipWait: bool): (s': State)
    requires InRange(s)
    ensures s'.delivered == s.delivered
  {
    if s.webSocket.Some? || s.connecting then s
    else
      var s1 := CancelAttempt(CancelRetry(s));
      s1.(generation := s1.generation + 1, connecting := true,
          loops := s1.loops + [Loop(s1.generation + 1, EmitConnecting, skipWait)])
  }

  /** The attempt's generation is current and it owns the shared socket field (null while it has no socket). */
  predicate Active(s: State, a: nat)
    requires a < |s.attempts|
  {
    s.attempts[a].gen == s.generation && s.webSocket == if s.attempts[a].sock.NoSocket? then None else Some(a)
  }

  function MoveLoop(s: State, l: nat, at: At): State
    requires l < |s.loops|
  {
    s.(loops := s.loops[l := s.loops[l].(at := at)])
  }

  /** The `while` head: another attempt, or the end of the loop. */
  ghost function LoopHead(s: State, l: nat, ok: bool): (s': State)
    requires InRange(s) && l < |s.loops|
    ensures s'.delivered == s.delivered
    ensures s.loops[l].gen != s.generation ==> s' == MoveLoop(s, l, Done)
  {
    if s.connecting && s.loops[l].gen == s.generation then
      MoveLoop(StartAttempt(s, s.loops[l].skipWait, ok), l, Awaiting(|s.attempts|))
    else
      MoveLoop(s.(connecting := if s.loops[l].gen == s.generation then false else s.connecting), l, Done)
  }

  // ---- the steps ----

  datatype Action =
    | Connect(skipWait: bool, continuous: bool)
    | Disconnect
    | Resume(loop: nat, ok: bool)       // an awaited promise of a connection loop has settled
    | ResumeReconnect(index: nat)       // the wait after a lost connection has settled
    | TimerFires(timer: nat)
    | AttemptFails(attempt: nat)        // timeout, or an error of the port probe
    | PortOpens(attempt: nat, ok: bool)
    | SocketOpens(socket: nat, sent: bool)
    | SocketLost(socket: nat, skipWait: bool)  // error or close event
    | SocketMessage(socket: nat)

  predicate HasSocket(s: State, a: nat) {
    a < |s.attempts| && !s.attempts[a].sock.NoSocket?
  }

  /** Callbacks of any attempt or socket ever created may still run; only awaits gate a loop. */
  ghost predicate Enabled(s: State, a: Action)
    requires InRange(s)
  {
    match a
    case Connect(_, _) => true
    case Disconnect => true
    case Resume(l, _) =>
      && l < |s.loops| && !s.loops[l].at.Done?
      && (s.loops[l].at.Awaiting? ==> !s.attempts[s.loops[l].at.attempt].status.Pending?)
      && (s.loops[l].at.Waiting? ==> s.timers[s.loops[l].at.timer])
    case ResumeReconnect(r) => r < |s.reconnects| && !s.reconnects[r].done && s.timers[s.reconnects[r].timer]
    case TimerFires(t) => t < |s.timers| && !s.timers[t]
    case AttemptFails(i) => i < |s.attempts|
    case PortOpens(i, _) => i < |s.attempts|
    case SocketOpens(i, _) => HasSocket(s, i)
    case SocketLost(i, _) => HasSocket(s, i)
    case SocketMessage(i) => HasSocket(s, i)
  }

  /** One resumed segment of a connection loop. */
  ghost function ResumeLoop(s: State, l: nat, ok: bool): (s': State)
    requires InRange(s) && Enabled(s, Resume(l, ok))
    ensures s'.delivered == s.delivered
    ensures s.loops[l].gen != s.generation ==> s' == MoveLoop(s, l, Done)
  {
    var current := s.loops[l].gen == s.generation;
    match s.loops[l].at
    case EmitConnecting => LoopHead(s, l, ok)
    case Awaiting(a) =>
      if !current then MoveLoop(s, l, Done)
      else if s.attempts[a].status.Resolved? then MoveLoop(s.(tries := 0, connecting := false), l, Done)
      else if !s.shouldReconnect then MoveLoop(s, l, EmitFatal)
      else MoveLoop(s.(tries := s.tries + 1), l, Reporting)
    case EmitFatal => MoveLoop(if current then s.(connecting := false) else s, l, Done)
    case Reporting => MoveLoop(s, l, if current then EmitError else Done)
    case EmitError =>
      if current then MoveLoop(WaitBeforeRetry(s), l, Waiting(|s.timers|)) else MoveLoop(s, l, Done)
    case Waiting(_) => LoopHead(s, l, ok)
  }

  /** `lostConnection` of the attempt owning the socket. */
  ghost function LostConnection(s: State, a: nat, skipWait: bool): (s': State)
    requires InRange(s) && HasSocket(s, a)
    ensures s'.delivered == s.delivered
  {
    if !Active(s, a) then s
    else if s.attempts[a].status.Pending? then Fail(s, a)
    else
      var s1 := s.(generation := s.generation + 1, connected := false, connecting := false, webSocket := None,
                   attempts := s.attempts[a := s.attempts[a].(sock := Closed)]);
      if s.shouldReconnect then
        var s2 := WaitBeforeRetry(s1.(tries := s1.tries + 1));
        s2.(reconnects := s2.reconnects + [Reconnect(s2.generation, |s.timers|, skipWait, false)])
      else s1
  }

  ghost function Disconnected(s: State): (s': State)
    requires InRange(s)
    ensures s'.delivered == s.delivered
  {
    var s1 := s.(shouldReconnect := false, generation := s.generation + 1, connecting := false, connected := false,
                 down := true);
    var s2 := CancelAttempt(CancelRetry(s1));
    if s.webSocket.Some? && s2.webSocket == s.webSocket then
      var a := s.webSocket.value;
      s2.(webSocket := None, attempts := s2.attempts[a := s2.attempts[a].(sock := Closed)])
    else s2
  }

  ghost function Opened(s: State, a: nat, sent: bool): (s': State)
    requires HasSocket(s, a)
    ensures s'.delivered == s.delivered
  {
    if !s.attempts[a].status.Pending? || !Active(s, a) || s.attempts[a].sock.Closed? then s
    else if !sent then Fail(s, a)
    else s.(attempts := s.attempts[a := s.attempts[a].(status := Resolved)],
            cancelAttempt := if s.cancelAttempt == Some(a) then None else s.cancelAttempt, connected := true)
  }

  ghost function Apply(s: State, a: Action): State
    requires InRange(s) && Enabled(s, a)
  {
    match a
    case Connect(skipWait, continuous) =>
      if s.webSocket.Some? || s.connecting then s.(down := false)
      else AttemptConnection(s.(shouldReconnect := continuous, down := false), skipWait)
    case Disconnect => Disconnected(s)
    case Resume(l, ok) => ResumeLoop(s, l, ok)
    case ResumeReconnect(r) =>
      var s1 := s.(reconnects := s.reconnects[r := s.reconnects[r].(done := true)]);
      if s.reconnects[r].gen == s.generation && s.shouldReconnect then AttemptConnection(s1, s.reconnects[r].skipWait)
      else s1
    case TimerFires(t) => SettleTimer(s, t)
    case AttemptFails(i) => Fail(s, i)
    case PortOpens(i, ok) => CreateSocket(s, i, ok)
    case SocketOpens(i, sent) => Opened(s, i, sent)
    case SocketLost(i, skipWait) => LostConnection(s, i, skipWait)
    case SocketMessage(i) => if Active(s, i) && s.connected then s.(delivered := s.delivered + 1) else s
  }

  // ---- the invariant ----

  /** The unsettled attempt is the one `_cancelAttempt` cancels, and belongs to the current generation. */
  ghost predicate AttemptsOk(s: State) {
    && (forall a :: 0 <= a < |s.attempts| ==> (s.attempts[a].status.Pending? <==> s.cancelAttempt == Some(a)))
    && (s.cancelAttempt.Some? ==>
          s.cancelAttempt.value < |s.attempts| && Active(s, s.cancelAttempt.value) && s.connecting && !s.connected)
  }

  /** The unclosed socket is the one in `webSocket`; `_connected` means its attempt succeeded. */
  ghost predicate SocketsOk(s: State) {
    && (forall a :: 0 <= a < |s.attempts| ==> (s.attempts[a].sock.Unclosed? <==> s.webSocket == Some(a)))
    && (s.connected ==> s.webSocket.Some?)
    && (s.webSocket.Some? ==>
          && s.webSocket.value < |s.attempts|
          && var a := s.attempts[s.webSocket.value];
          a.gen == s.generation && !a.status.Rejected? && (a.status.Resolved? <==> s.connected))
  }

  /** The unsettled retry wait is the one `_cancelRetry` cancels. */
  ghost predicate TimersOk(s: State) {
    forall t :: 0 <= t < |s.timers| ==> (!s.timers[t] <==> s.cancelRetry == Some(t))
  }

  ghost predicate Live(loops: seq<Loop>, generation: nat, l: int) {
    0 <= l < |loops| && !loops[l].at.Done? && loops[l].gen == generation
  }

  ghost predicate Idle(s: State) {
    s.webSocket.None? && s.cancelAttempt.None?
  }

  /** The live loop of the current generation and what it is waiting for. */
  ghost predicate LoopsOk(s: State) {
    && (forall l :: 0 <= l < |s.loops| ==> s.loops[l].gen <= s.generation)
    && (forall l, m :: Live(s.loops, s.generation, l) && Live(s.loops, s.generation, m) ==> l == m)
    && (s.connecting <==> exists l :: Live(s.loops, s.generation, l))
    && (forall l :: Live(s.loops, s.generation, l) ==> Expects(s, s.loops[l].at))
  }

  ghost predicate Expects(s: State, at: At) {
    if at.Awaiting? then
      && at.attempt < |s.attempts| && s.attempts[at.attempt].gen == s.generation
      && (s.attempts[at.attempt].status.Rejected? ==> Idle(s))
      && (s.attempts[at.attempt].status.Resolved? ==> s.connected && s.cancelAttempt.None?)
    else Idle(s)
  }

  ghost predicate DownOk(s: State) {
    s.down ==> Idle(s) && !s.connected && !s.connecting && !s.shouldReconnect && s.cancelRetry.None?
  }

  ghost predicate Inv(s: State) {
    InRange(s) && AttemptsOk(s) && SocketsOk(s) && TimersOk(s) && LoopsOk(s) && DownOk(s)
  }

  lemma InitInv()
    ensures Inv(INIT)
  {
  }

  lemma FailInv(s: State, a: nat)
    requires Inv(s) && a < |s.attempts|
    ensures Inv(Fail(s, a))
    ensures s.attempts[a].status.Pending? ==> Idle(Fail(s, a))
  {
  }

  lemma SettleTimerInv(s: State, t: nat)
    requires Inv(s) && t < |s.timers| && !s.timers[t]
    ensures Inv(SettleTimer(s, t))
  {
  }

  lemma AttemptConnectionInv(s: State, skipWait: bool)
    requires Inv(s) && !s.down
    ensures Inv(AttemptConnection(s, skipWait))
  {
    if !s.webSocket.Some? && !s.connecting {
      var s' := AttemptConnection(s, skipWait);
      assert Live(s'.loops, s'.generation, |s.loops|);
    }
  }

  lemma CreateSocketInv(s: State, a: nat, ok: bool)
    requires Inv(s) && a < |s.attempts|
    ensures Inv(CreateSocket(s, a, ok))
  {
    if s.attempts[a].status.Pending? && s.attempts[a].sock.NoSocket? && s.attempts[a].gen == s.generation && !ok {
      FailInv(s, a);
    }
  }

  lemma DisconnectSockets(s: State)
    requires Inv(s)
    ensures InRange(Disconnected(s)) && AttemptsOk(Disconnected(s)) && SocketsOk(Disconnected(s))
  {
    var s' := Disconnected(s);
    if s.cancelAttempt.Some? {
      assert s'.attempts[..] == Fail(s, s.cancelAttempt.value).attempts;
    } else if s.webSocket.Some? {
      assert s'.attempts == s.attempts[s.webSocket.value := s.attempts[s.webSocket.value].(sock := Closed)];
    } else {
      assert s'.attempts == s.attempts;
    }
  }

  lemma DisconnectInv(s: State)
    requires Inv(s)
    ensures Inv(Disconnected(s))
  {
    var s' := Disconnected(s);
    DisconnectSockets(s);
    assert TimersOk(s');
    assert forall l :: !Live(s'.loops, s'.generation, l);
  }

  lemma LostConnectionInv(s: State, a: nat, skipWait: bool)
    requires Inv(s) && HasSocket(s, a)
    ensures Inv(LostConnection(s, a, skipWait))
  {
    if Active(s, a) && s.attempts[a].status.Pending? { FailInv(s, a); }
  }

  lemma OpenedInv(s: State, a: nat, sent: bool)
    requires Inv(s) && HasSocket(s, a)
    ensures Inv(Opened(s, a, sent))
  {
    FailInv(s, a);
  }

  lemma MoveLive(loops: seq<Loop>, generation: nat, l: nat, at: At, m: int)
    requires l < |loops|
    ensures Live(loops[l := loops[l].(at := at)], generation, m) <==>
            if m == l then !at.Done? && loops[l].gen == generation else Live(loops, generation, m)
  {
  }

  /** The live loop moves on to another await. */
  lemma MoveOn(s: State, l: nat, at: At)
    requires Inv(s) && Live(s.loops, s.generation, l)
    requires !at.Done? && Expects(s, at) && (at.Waiting? ==> at.timer < |s.timers|)
    ensures Inv(MoveLoop(s, l, at))
  {
    forall m ensures Live(MoveLoop(s, l, at).loops, s.generation, m) <==> Live(s.loops, s.generation, m) {
      MoveLive(s.loops, s.generation, l, at, m);
    }
  }

  /** The live loop finishes and clears `_connecting`. */
  lemma FinishCurrent(s: State, l: nat)
    requires Inv(s) && Live(s.loops, s.generation, l) && s.cancelAttempt.None?
    ensures Inv(MoveLoop(s.(connecting := false), l, Done))
  {
    var s' := MoveLoop(s.(connecting := false), l, Done);
    forall m ensures !Live(s'.loops, s'.generation, m) {
      MoveLive(s.loops, s.generation, l, Done, m);
    }
  }

  /** A loop of an older generation only finishes. */
  lemma FinishStale(s: State, l: nat)
    requires Inv(s) && l < |s.loops| && s.loops[l].gen != s.generation
    ensures Inv(MoveLoop(s, l, Done))
  {
    forall m ensures Live(MoveLoop(s, l, Done).loops, s.generation, m) <==> Live(s.loops, s.generation, m) {
      MoveLive(s.loops, s.generation, l, Done, m);
    }
    if s.connecting {
      var m :| Live(s.loops, s.generation, m);
      assert Live(MoveLoop(s, l, Done).loops, s.generation, m);
    }
  }

  lemma StartAttemptInv(s: State, l: nat, ok: bool)
    requires Inv(s) && Live(s.loops, s.generation, l) && Idle(s)
    ensures Inv(LoopHead(s, l, ok))
  {
    var a := |s.attempts|;
    assert s.connecting;
    var s1 := s.(attempts := s.attempts + [Attempt(s.generation, NoSocket, Pending)], cancelAttempt := Some(a));
    var s2 := MoveLoop(s1, l, Awaiting(a));
    forall m ensures Live(s2.loops, s.generation, m) <==> Live(s.loops, s.generation, m) {
      MoveLive(s.loops, s.generation, l, Awaiting(a), m);
    }
    assert Inv(s2);
    CreateSocketInv(s2, a, ok);
    assert MoveLoop(CreateSocket(s1, a, ok), l, Awaiting(a)) == CreateSocket(s2, a, ok);
  }

  lemma WaitInv(s: State)
    requires Inv(s) && !s.down
    ensures Inv(WaitBeforeRetry(s))
  {
    var s' := WaitBeforeRetry(s);
    assert s'.attempts == s.attempts && s'.loops == s.loops && s'.generation == s.generation;
    assert TimersOk(s');
  }

  lemma ResumeAwaitingInv(s: State, l: nat, ok: bool)
    requires Inv(s) && Enabled(s, Resume(l, ok)) && Live(s.loops, s.generation, l) && s.loops[l].at.Awaiting?
    ensures Inv(ResumeLoop(s, l, ok))
  {
    if s.attempts[s.loops[l].at.attempt].status.Resolved? {
      FinishCurrent(s.(tries := 0), l);
    } else if !s.shouldReconnect {
      MoveOn(s, l, EmitFatal);
    } else {
      MoveOn(s.(tries := s.tries + 1), l, Reporting);
    }
  }

  lemma ResumeIdleInv(s: State, l: nat, ok: bool)
    requires Inv(s) && Enabled(s, Resume(l, ok)) && Live(s.loops, s.generation, l) && !s.loops[l].at.Awaiting?
    ensures Inv(ResumeLoop(s, l, ok))
  {
    assert Idle(s);
    match s.loops[l].at
    case EmitFatal => FinishCurrent(s, l);
    case Reporting => MoveOn(s, l, EmitError);
    case EmitError =>
      WaitInv(s);
      MoveOn(WaitBeforeRetry(s), l, Waiting(|s.timers|));
    case _ => StartAttemptInv(s, l, ok);
  }

  lemma ResumeInv(s: State, l: nat, ok: bool)
    requires Inv(s) && Enabled(s, Resume(l, ok))
    ensures Inv(ResumeLoop(s, l, ok))
  {
    if !Live(s.loops, s.generation, l) {
      FinishStale(s, l);
    } else if s.loops[l].at.Awaiting? {
      ResumeAwaitingInv(s, l, ok);
    } else {
      ResumeIdleInv(s, l, ok);
    }
  }

  lemma ConnectInv(s: State, skipWait: bool, continuous: bool)
    requires Inv(s)
    ensures Inv(Apply(s, Connect(skipWait, continuous)))
  {
    if !s.webSocket.Some? && !s.connecting {
      AttemptConnectionInv(s.(shouldReconnect := continuous, down := false), skipWait);
    }
  }

  lemma ReconnectDoneInv(s: State, r: nat)
    requires Inv(s) && r < |s.reconnects|
    ensures Inv(s.(reconnects := s.reconnects[r := s.reconnects[r].(done := true)]))
  {
  }

  lemma ReconnectInv(s: State, r: nat)
    requires Inv(s) && Enabled(s, ResumeReconnect(r))
    ensures Inv(Apply(s, ResumeReconnect(r)))
  {
    var s1 := s.(reconnects := s.reconnects[r := s.reconnects[r].(done := true)]);
    ReconnectDoneInv(s, r);
    if s.reconnects[r].gen == s.generation && s.shouldReconnect { AttemptConnectionInv(s1, s.reconnects[r].skipWait); }
  }

  lemma SocketStepInv(s: State, a: Action)
    requires Inv(s) && Enabled(s, a) && (a.SocketOpens? || a.SocketLost? || a.SocketMessage?)
    ensures Inv(Apply(s, a))
  {
    if a.SocketOpens? {
      OpenedInv(s, a.socket, a.sent);
    } else if a.SocketLost? {
      LostConnectionInv(s, a.socket, a.skipWait);
    }
  }

  lemma StepInv(s: State, a: Action)
    requires Inv(s) && Enabled(s, a)
    ensures Inv(Apply(s, a))
  {
    if a.Connect? {
      ConnectInv(s, a.skipWait, a.continuous);
    } else if a.Disconnect? {
      DisconnectInv(s);
    } else if a.Resume? {
      ResumeInv(s, a.loop, a.ok);
    } else if a.ResumeReconnect? {
      ReconnectInv(s, a.index);
    } else if a.TimerFires? {
      SettleTimerInv(s, a.timer);
    } else if a.AttemptFails? {
      FailInv(s, a.attempt);
    } else if a.PortOpens? {
      CreateSocketInv(s, a.attempt, a.ok);
    } else {
      SocketStepInv(s, a);
    }
  }

  // ---- whole runs ----

  /** A step; `RunInv` shows that references are in range in every reachable state. */
  ghost predicate Step(s: State, a: Action, s': State) {
    InRange(s) && Enabled(s, a) && s' == Apply(s, a)
  }

  ghost predicate IsRun(states: seq<State>, actions: seq<Action>) {
    && |states| == |actions| + 1 && states[0] == INIT
    && forall i :: 0 <= i < |actions| ==> StepAt(states, actions, i)
  }

  ghost predicate StepAt(states: seq<State>, actions: seq<Action>, i: nat)
    requires i < |actions| && |states| == |actions| + 1
  {
    Step(states[i], actions[i], states[i + 1])
  }

  lemma {:induction false} RunInv(states: seq<State>, actions: seq<Action>, i: nat)
    requires IsRun(states, actions) && i < |states|
    ensures Inv(states[i])
  {
    if i == 0 {
      InitInv();
    } else {
      RunInv(states, actions, i - 1);
      assert StepAt(states, actions, i - 1);
      StepInv(states[i - 1], actions[i - 1]);
    }
  }

  /** Over every interleaving: one unclosed socket at most, and it is the shared field. */
  lemma OneSocket(states: seq<State>, actions: seq<Action>, i: nat, a: nat)
    requires IsRun(states, actions) && i < |states| && a < |states[i].attempts|
    ensures states[i].attempts[a].sock.Unclosed? <==> states[i].webSocket == Some(a)
    ensures states[i].connected ==> states[i].webSocket.Some? && states[i].webSocket.value < |states[i].attempts|
    ensures states[i].connected ==> states[i].attempts[states[i].webSocket.value].status.Resolved?
  {
    RunInv(states, actions, i);
  }

  /** At most one attempt is unsettled: the current generation's, which `_cancelAttempt` cancels. */
  lemma OneAttempt(states: seq<State>, actions: seq<Action>, i: nat, a: nat)
    requires IsRun(states, actions) && i < |states| && a < |states[i].attempts|
    ensures states[i].attempts[a].status.Pending? <==> states[i].cancelAttempt == Some(a)
    ensures states[i].attempts[a].status.Pending? ==>
              states[i].attempts[a].gen == states[i].generation && states[i].connecting && !states[i].connected
  {
    RunInv(states, actions, i);
  }

  /** A message is handed to a callback only for the socket in use. */
  lemma DeliveredOnlyInUse(states: seq<State>, actions: seq<Action>, i: nat)
    requires IsRun(states, actions) && i < |actions| && states[i + 1].delivered != states[i].delivered
    ensures actions[i].SocketMessage? && states[i].webSocket == Some(actions[i].socket) && states[i].connected
  {
    RunInv(states, actions, i);
    assert StepAt(states, actions, i);
    if !actions[i].SocketMessage? { DeliversNothing(states[i], actions[i]); }
  }

  lemma DeliversNothing(s: State, a: Action)
    requires InRange(s) && Enabled(s, a) && !a.SocketMessage?
    ensures Apply(s, a).delivered == s.delivered
  {
  }

  /** The listener's own fields. */
  ghost predicate SameFields(s: State, s': State) {
    && s'.webSocket == s.webSocket && s'.connected == s.connected && s'.connecting == s.connecting
    && s'.shouldReconnect == s.shouldReconnect && s'.tries == s.tries && s'.generation == s.generation
    && s'.cancelAttempt == s.cancelAttempt && s'.cancelRetry == s.cancelRetry
  }

  /** A resumed loop of an older generation changes no field, creates nothing and starts no callback. */
  lemma StaleLoopHarmless(s: State, l: nat, ok: bool)
    requires InRange(s) && Enabled(s, Resume(l, ok)) && s.loops[l].gen != s.generation
    ensures SameFields(s, Apply(s, Resume(l, ok)))
    ensures Apply(s, Resume(l, ok)) == MoveLoop(s, l, Done)
  {
  }

  /** Everything outstanding has settled, and nothing is owned. */
  ghost predicate Quiescent(s: State) {
    && s.webSocket.None? && !s.connected && !s.connecting && !s.shouldReconnect
    && (forall a :: 0 <= a < |s.attempts| ==> !s.attempts[a].status.Pending? && !s.attempts[a].sock.Unclosed?)
    && (forall t :: 0 <= t < |s.timers| ==> s.timers[t])
  }

  lemma QuiescentWhenDown(s: State)
    requires Inv(s) && s.down
    ensures Quiescent(s)
  {
  }

  /** While down, nothing but `connect` changes a field, creates anything or starts a callback. */
  lemma DownStep(s: State, a: Action)
    requires Inv(s) && s.down && Enabled(s, a) && !a.Connect? && !a.Disconnect?
    ensures SameFields(s, Apply(s, a)) && Apply(s, a).down
    ensures Apply(s, a).attempts == s.attempts && Apply(s, a).timers == s.timers && Apply(s, a).delivered == s.delivered
  {
    if a.Resume? {
      assert !Live(s.loops, s.generation, a.loop);
      StaleLoopHarmless(s, a.loop, a.ok);
    }
  }

  lemma DownAgain(s: State)
    requires Inv(s) && s.down
    ensures Disconnected(s).down && Disconnected(s).attempts == s.attempts && Disconnected(s).timers == s.timers
  {
  }

  /** `disconnect` settles every attempt and wait at once. */
  lemma DisconnectSettles(states: seq<State>, actions: seq<Action>, i: nat)
    requires IsRun(states, actions) && i < |actions| && actions[i].Disconnect?
    ensures states[i + 1].down && Quiescent(states[i + 1]) && states[i + 1].delivered == states[i].delivered
  {
    assert StepAt(states, actions, i);
    RunInv(states, actions, i + 1);
    assert states[i + 1].down;
    QuiescentWhenDown(states[i + 1]);
  }

  lemma SilentStep(s: State, a: Action, s': State)
    requires Inv(s) && s.down && Step(s, a, s') && !a.Connect?
    ensures s'.down && s'.attempts == s.attempts && s'.timers == s.timers && s'.delivered == s.delivered
  {
    if a.Disconnect? { DownAgain(s); } else { DownStep(s, a); }
  }

  lemma SilentStepAt(states: seq<State>, actions: seq<Action>, i: nat)
    requires IsRun(states, actions) && i < |actions| && states[i].down && !actions[i].Connect?
    ensures states[i + 1].down && Quiescent(states[i + 1])
    ensures states[i + 1].attempts == states[i].attempts && states[i + 1].timers == states[i].timers
    ensures states[i + 1].delivered == states[i].delivered
  {
    RunInv(states, actions, i);
    assert StepAt(states, actions, i);
    SilentStep(states[i], actions[i], states[i + 1]);
    RunInv(states, actions, i + 1);
    QuiescentWhenDown(states[i + 1]);
  }

  /**
   * From a `disconnect` until the next `connect`, whatever timers, sockets, probes and suspended loops still do:
   * no socket is created, no attempt or wait is started, no callback runs, and everything stays settled.
   */
  lemma {:induction false} SilentAfterDisconnect(states: seq<State>, actions: seq<Action>, i: nat, j: nat)
    requires IsRun(states, actions) && i < j < |states| && actions[i].Disconnect?
    requires forall k :: i < k < j ==> !actions[k].Connect?
    ensures states[j].down && Quiescent(states[j])
    ensures states[j].attempts == states[i + 1].attempts && states[j].timers == states[i + 1].timers
    ensures states[j].delivered == states[i].delivered
    decreases j
  {
    if j == i + 1 {
      DisconnectSettles(states, actions, i);
    } else {
      SilentAfterDisconnect(states, actions, i, j - 1);
      SilentStepAt(states, actions, j - 1);
    }
  }

  // ---- connections are made ----

  /** `connect` when idle starts a loop of a new generation. */
  lemma ConnectStarts(s: State, skipWait: bool, continuous: bool)
    requires Inv(s) && s.webSocket.None? && !s.connecting
    ensures var s' := Apply(s, Connect(skipWait, continuous));
            && s'.connecting && s'.shouldReconnect == continuous && s'.generation > s.generation
            && |s'.loops| == |s.loops| + 1 && s'.loops[|s.loops|] == Loop(s'.generation, EmitConnecting, skipWait)
            && Live(s'.loops, s'.generation, |s.loops|)
  {
    ConnectInv(s, skipWait, continuous);
  }

  /**
   * A live loop that announced itself, or waited, makes an attempt; without a port wait its socket is created at once.
   */
  lemma LoopAttempts(s: State, l: nat, ok: bool)
    requires Inv(s) && Live(s.loops, s.generation, l) && Enabled(s, Resume(l, ok))
    requires s.loops[l].at.EmitConnecting? || s.loops[l].at.Waiting?
    ensures var s', a := Apply(s, Resume(l, ok)), |s.attempts|;
            && |s'.attempts| == a + 1 && s'.attempts[a].gen == s'.generation == s.generation
            && s'.loops[l].at == Awaiting(a) && s'.connecting
            && (!s.loops[l].skipWait ==> s'.attempts[a].status.Pending? && s'.attempts[a].sock.NoSocket?)
            && (s.loops[l].skipWait && ok ==>
                  s'.attempts[a].status.Pending? && s'.attempts[a].sock.Unclosed? && s'.webSocket == Some(a))
            && (s.loops[l].skipWait && !ok ==> s'.attempts[a].status.Rejected?)
  {
    assert s.connecting;
    assert Expects(s, s.loops[l].at);
  }

  /** Once the port is open, a pending attempt creates its socket. */
  lemma PortCreatesSocket(s: State, a: nat)
    requires Inv(s) && a < |s.attempts| && s.attempts[a].status.Pending? && s.attempts[a].sock.NoSocket?
    ensures var s' := Apply(s, PortOpens(a, true));
            s'.attempts[a].status.Pending? && s'.attempts[a].sock.Unclosed? && s'.webSocket == Some(a)
    ensures Apply(s, PortOpens(a, false)).attempts[a].status.Rejected?
  {
  }

  /**
   * A socket that opens and takes its subscriptions settles its attempt: connected. One that does not take them is
   * closed.
   */
  lemma OpenConnects(states: seq<State>, actions: seq<Action>, i: nat, a: nat, sent: bool)
    requires IsRun(states, actions) && i < |actions| && actions[i] == SocketOpens(a, sent) && a < |states[i].attempts|
    requires states[i].webSocket == Some(a) && states[i].attempts[a].status.Pending?
    ensures var s, s' := states[i], states[i + 1];
            && |s'.attempts| == |s.attempts| && s'.attempts[a].gen == s.attempts[a].gen && s'.cancelAttempt.None?
            && if sent then
                 && s'.connected && s'.webSocket == Some(a)
                 && s'.attempts[a].status.Resolved? && s'.attempts[a].sock.Unclosed?
               else
                 && !s'.connected && s'.webSocket.None?
                 && s'.attempts[a].status.Rejected? && s'.attempts[a].sock.Closed?
  {
    RunInv(states, actions, i);
    assert StepAt(states, actions, i);
  }

  /**
   * The loop awaiting a resolved attempt ends, clears `_connecting` and resets the count of tries; the connection
   * stays.
   */
  lemma ResolvedEnds(s: State, l: nat, ok: bool)
    requires Inv(s) && Live(s.loops, s.generation, l) && s.loops[l].at.Awaiting?
    requires s.attempts[s.loops[l].at.attempt].status.Resolved?
    ensures var s' := Apply(s, Resume(l, ok));
            && s.connected && s'.connected && s'.webSocket == s.webSocket && s'.attempts == s.attempts
            && !s'.connecting && s'.tries == 0 && s'.loops[l].at.Done?
  {
    assert Expects(s, s.loops[l].at);
  }

  /** A pending attempt that fails or is timed out is rejected and its socket closed. */
  lemma FailureRejects(s: State, a: nat)
    requires Inv(s) && a < |s.attempts| && s.attempts[a].status.Pending?
    ensures var s' := Apply(s, AttemptFails(a));
            s'.attempts[a].status.Rejected? && !s'.attempts[a].sock.Unclosed? && s'.webSocket.None? &&
            s'.cancelAttempt.None?
  {
    FailInv(s, a);
  }

  /**
   * After a rejected attempt the loop of a listener that reconnects counts the try, reports, and waits on a new
   * timer; one that does not reports and ends.
   */
  lemma RejectedRetries(s: State, l: nat, ok: bool)
    requires Inv(s) && Live(s.loops, s.generation, l) && Enabled(s, Resume(l, ok))
    ensures s.loops[l].at.Awaiting? && s.attempts[s.loops[l].at.attempt].status.Rejected? ==>
              Apply(s, Resume(l, ok)) ==
              if s.shouldReconnect then s.(tries := s.tries + 1, loops := s.loops[l := s.loops[l].(at := Reporting)])
              else s.(loops := s.loops[l := s.loops[l].(at := EmitFatal)])
    ensures s.loops[l].at.Reporting? ==>
        Apply(s, Resume(l, ok)) == s.(loops := s.loops[l := s.loops[l].(at := EmitError)])
    ensures s.loops[l].at.EmitError? ==>
              var s', t := Apply(s, Resume(l, ok)), |s.timers|;
              && |s'.timers| == t + 1 && !s'.timers[t] && s'.cancelRetry == Some(t)
              && s'.loops[l] == s.loops[l].(at := Waiting(t)) && s'.connecting
    ensures s.loops[l].at.EmitFatal? ==>
              var s' := Apply(s, Resume(l, ok)); !s'.connecting && s'.loops[l].at.Done?
  {
  }

  /** A message on the connected socket starts exactly one callback and changes nothing else; any other starts none. */
  lemma MessageDelivers(s: State, a: nat)
    requires Inv(s) && HasSocket(s, a)
    ensures Apply(s, SocketMessage(a)) ==
            if s.connected && s.webSocket == Some(a) then s.(delivered := s.delivered + 1) else s
  {
  }

  /**
   * Losing the connected socket closes it; a listener that reconnects then has a wait and a continuation of a newer
   * generation.
   */
  lemma LossIsFollowedUp(s: State, a: nat, skipWait: bool)
    requires Inv(s) && a < |s.attempts| && s.connected && s.webSocket == Some(a)
    ensures var s1, t, r := Apply(s, SocketLost(a, skipWait)), |s.timers|, |s.reconnects|;
            && !s1.connected && !s1.connecting && s1.webSocket.None? && s1.attempts[a].sock.Closed?
            && s1.generation > s.generation
            && if s.shouldReconnect then
                 && s1.shouldReconnect && s1.tries == s.tries + 1
                 && |s1.timers| == t + 1 && !s1.timers[t] && s1.cancelRetry == Some(t)
                 && s1.reconnects == s.reconnects + [Reconnect(s1.generation, t, skipWait, false)]
               else s1.reconnects == s.reconnects && s1.timers == s.timers
  {
  }

  /** Its timer and its continuation, with nothing in between, leave a live loop of a still newer generation. */
  lemma LossReconnects(states: seq<State>, actions: seq<Action>, i: nat, a: nat, skipWait: bool)
    requires IsRun(states, actions) && i + 2 < |actions| && a < |states[i].attempts|
    requires states[i].connected && states[i].webSocket == Some(a) && states[i].shouldReconnect
    requires actions[i] == SocketLost(a, skipWait) && actions[i + 1] == TimerFires(|states[i].timers|)
    requires actions[i + 2] == ResumeReconnect(|states[i].reconnects|)
    ensures var s, s3 := states[i], states[i + 3];
            && s3.connecting && s3.generation > states[i + 1].generation > s.generation
            && Live(s3.loops, s3.generation, |s.loops|)
            && s3.loops[|s.loops|] == Loop(s3.generation, EmitConnecting, skipWait)
  {
    var s, s1, s2 := states[i], states[i + 1], states[i + 2];
    RunInv(states, actions, i);
    RunInv(states, actions, i + 1);
    RunInv(states, actions, i + 2);
    assert StepAt(states, actions, i) && StepAt(states, actions, i + 1) && StepAt(states, actions, i + 2);
    LossIsFollowedUp(s, a, skipWait);
    assert s1.loops == s.loops;
    TimerSettles(s1, |s.timers|);
    ContinuationConnects(s2, |s.reconnects|);
  }

  /** After the loss both can happen: the timer is running, and once it has fired the continuation is due. */
  lemma LossCanReconnect(s: State, a: nat, skipWait: bool)
    requires Inv(s) && a < |s.attempts| && s.connected && s.webSocket == Some(a) && s.shouldReconnect
    ensures var s1 := Apply(s, SocketLost(a, skipWait));
            && Inv(s1) && Enabled(s1, TimerFires(|s.timers|))
            && Inv(Apply(s1, TimerFires(|s.timers|)))
            && Enabled(Apply(s1, TimerFires(|s.timers|)), ResumeReconnect(|s.reconnects|))
  {
    LossIsFollowedUp(s, a, skipWait);
    StepInv(s, SocketLost(a, skipWait));
    TimerSettles(Apply(s, SocketLost(a, skipWait)), |s.timers|);
  }

  lemma TimerSettles(s: State, t: nat)
    requires Inv(s) && t < |s.timers| && !s.timers[t]
    ensures var s' := Apply(s, TimerFires(t));
            Inv(s') && s' == s.(timers := s.timers[t := true], cancelRetry := None)
  {
    StepInv(s, TimerFires(t));
  }

  lemma ContinuationConnects(s: State, r: nat)
    requires Inv(s) && r < |s.reconnects| && !s.reconnects[r].done && s.timers[s.reconnects[r].timer]
    requires s.reconnects[r].gen == s.generation && s.shouldReconnect && !s.connecting && s.webSocket.None?
    ensures var s' := Apply(s, ResumeReconnect(r));
            && s'.connecting && s'.generation > s.generation && |s'.loops| == |s.loops| + 1
            && s'.loops[|s.loops|] == Loop(s'.generation, EmitConnecting, s.reconnects[r].skipWait)
            && Live(s'.loops, s'.generation, |s.loops|)
  {
  }

  // ---- a listener that reconnects never gives up ----

  /** Connected, connecting, or with a continuation of the current generation still to run. */
  ghost predicate Trying(s: State) {
    s.connected || s.connecting || exists r :: ToRun(s.reconnects, s.generation, r)
  }

  ghost predicate ToRun(reconnects: seq<Reconnect>, generation: nat, r: int) {
    0 <= r < |reconnects| && !reconnects[r].done && reconnects[r].gen == generation
  }

  ghost predicate Persistent(s: State) {
    && (s.shouldReconnect && s.generation > 0 ==> Trying(s))
    && (forall l :: Live(s.loops, s.generation, l) && s.loops[l].at.EmitFatal? ==> !s.shouldReconnect)
    && (s.generation == 0 ==> s.webSocket.None? && !s.connecting && s.cancelAttempt.None?)
    && (forall r :: 0 <= r < |s.reconnects| ==> s.reconnects[r].gen <= s.generation)
  }

  lemma AttemptFrame(s: State, skipWait: bool, ok: bool)
    requires s.cancelAttempt.Some? ==> s.cancelAttempt.value < |s.attempts|
    ensures var s' := StartAttempt(s, skipWait, ok);
            && s'.reconnects == s.reconnects && s'.generation == s.generation && s'.loops == s.loops
            && s'.shouldReconnect == s.shouldReconnect && s'.connected == s.connected
  {
  }

  /** Only loop `l` may have moved, and these fields are as they were. */
  ghost predicate OnlyLoop(s: State, s': State, l: nat)
    requires l < |s.loops|
  {
    && s'.reconnects == s.reconnects && s'.generation == s.generation
    && s'.shouldReconnect == s.shouldReconnect && s'.connected == s.connected
    && |s'.loops| == |s.loops| && s'.loops == s.loops[l := s.loops[l].(at := s'.loops[l].at)]
  }

  lemma LoopHeadFrame(s: State, l: nat, ok: bool)
    requires InRange(s) && l < |s.loops|
    ensures OnlyLoop(s, LoopHead(s, l, ok), l)
  {
    AttemptFrame(s, s.loops[l].skipWait, ok);
  }

  lemma WaitFrame(s: State)
    requires s.cancelRetry.Some? ==> s.cancelRetry.value < |s.timers|
    ensures var s' := WaitBeforeRetry(s);
            && s'.reconnects == s.reconnects && s'.generation == s.generation && s'.loops == s.loops
            && s'.shouldReconnect == s.shouldReconnect && s'.connected == s.connected
  {
  }

  lemma MoveFrame(s: State, s1: State, l: nat, at: At)
    requires l < |s.loops| && s1.loops == s.loops && s1.reconnects == s.reconnects && s1.generation == s.generation
    requires s1.shouldReconnect == s.shouldReconnect && s1.connected == s.connected
    ensures OnlyLoop(s, MoveLoop(s1, l, at), l)
  {
  }

  lemma AwaitedFrame(s: State, l: nat, ok: bool)
    requires InRange(s) && Enabled(s, Resume(l, ok)) && s.loops[l].at.Awaiting?
    ensures OnlyLoop(s, ResumeLoop(s, l, ok), l)
  {
    MoveFrame(s, s, l, Done);
    MoveFrame(s, s.(tries := 0, connecting := false), l, Done);
    MoveFrame(s, s, l, EmitFatal);
    MoveFrame(s, s.(tries := s.tries + 1), l, Reporting);
  }

  lemma ErrorFrame(s: State, l: nat, ok: bool)
    requires InRange(s) && Enabled(s, Resume(l, ok)) && s.loops[l].at.EmitError?
    ensures OnlyLoop(s, ResumeLoop(s, l, ok), l)
  {
    WaitFrame(s);
    MoveFrame(s, WaitBeforeRetry(s), l, Waiting(|s.timers|));
    MoveFrame(s, s, l, Done);
  }

  lemma ReportFrame(s: State, l: nat, ok: bool)
    requires InRange(s) && Enabled(s, Resume(l, ok)) && (s.loops[l].at.EmitFatal? || s.loops[l].at.Reporting?)
    ensures OnlyLoop(s, ResumeLoop(s, l, ok), l)
  {
    MoveFrame(s, s, l, Done);
    MoveFrame(s, s.(connecting := false), l, Done);
    MoveFrame(s, s, l, EmitError);
  }

  lemma HeadFrame(s: State, l: nat, ok: bool)
    requires InRange(s) && Enabled(s, Resume(l, ok)) && (s.loops[l].at.EmitConnecting? || s.loops[l].at.Waiting?)
    ensures OnlyLoop(s, ResumeLoop(s, l, ok), l)
  {
    LoopHeadFrame(s, l, ok);
    assert ResumeLoop(s, l, ok) == LoopHead(s, l, ok);
  }

  /** What resuming a loop leaves alone. */
  lemma ResumeFrame(s: State, l: nat, ok: bool)
    requires InRange(s) && Enabled(s, Resume(l, ok))
    ensures OnlyLoop(s, ResumeLoop(s, l, ok), l)
  {
    match s.loops[l].at
    case EmitConnecting => HeadFrame(s, l, ok);
    case Waiting(_) => HeadFrame(s, l, ok);
    case Awaiting(_) => AwaitedFrame(s, l, ok);
    case EmitError => ErrorFrame(s, l, ok);
    case EmitFatal => ReportFrame(s, l, ok);
    case Reporting => ReportFrame(s, l, ok);
  }

  lemma ResumeKeepsConnecting(s: State, l: nat, ok: bool)
    requires Inv(s) && Enabled(s, Resume(l, ok)) && Live(s.loops, s.generation, l)
    ensures var s' := ResumeLoop(s, l, ok);
            && (s'.connecting || s'.connected || (s.loops[l].at.EmitFatal? && !s'.connecting))
            && (s'.loops[l].at.EmitFatal? ==> !s.shouldReconnect)
  {
    assert s.connecting;
    assert Expects(s, s.loops[l].at);
  }

  lemma ResumePersists(s: State, l: nat, ok: bool)
    requires Inv(s) && Persistent(s) && Enabled(s, Resume(l, ok))
    ensures Persistent(Apply(s, Resume(l, ok)))
  {
    ResumeFrame(s, l, ok);
    ResumeInv(s, l, ok);
    if Live(s.loops, s.generation, l) { ResumeKeepsConnecting(s, l, ok); }
  }

  lemma LostPersists(s: State, a: nat, skipWait: bool)
    requires Inv(s) && Persistent(s) && HasSocket(s, a)
    ensures Persistent(Apply(s, SocketLost(a, skipWait)))
  {
    var s' := Apply(s, SocketLost(a, skipWait));
    if s.connected && s.webSocket == Some(a) {
      LossIsFollowedUp(s, a, skipWait);
      if s.shouldReconnect { assert ToRun(s'.reconnects, s'.generation, |s.reconnects|); }
    }
  }

  lemma ReconnectPersists(s: State, r: nat)
    requires Inv(s) && Persistent(s) && Enabled(s, ResumeReconnect(r))
    ensures Persistent(Apply(s, ResumeReconnect(r)))
  {
    var s' := Apply(s, ResumeReconnect(r));
    StepInv(s, ResumeReconnect(r));
    if s'.generation == s.generation {
      if x :| ToRun(s.reconnects, s.generation, x) && x != r { assert ToRun(s'.reconnects, s'.generation, x); }
    }
  }

  lemma CallPersists(s: State, a: Action)
    requires Inv(s) && Persistent(s) && (a.Connect? || a.Disconnect?)
    ensures Persistent(Apply(s, a))
  {
    if a.Connect? { ConnectInv(s, a.skipWait, a.continuous); }
  }

  lemma StepPersists(s: State, a: Action)
    requires Inv(s) && Persistent(s) && Enabled(s, a)
    ensures Persistent(Apply(s, a))
  {
    match a
    case Resume(l, ok) => ResumePersists(s, l, ok);
    case SocketLost(i, skipWait) => LostPersists(s, i, skipWait);
    case ResumeReconnect(r) => ReconnectPersists(s, r);
    case Connect(_, _) => CallPersists(s, a);
    case Disconnect => CallPersists(s, a);
    case TimerFires(_) =>
    case AttemptFails(_) =>
    case PortOpens(_, _) =>
    case SocketOpens(_, _) =>
    case SocketMessage(_) =>
  }

  /**
   * Over every run, once the listener has been started and as long as it is to reconnect, it is connected, or
   * connecting, or has the continuation of its last connection still to run.
   */
  lemma {:induction false} NeverGivesUp(states: seq<State>, actions: seq<Action>, i: nat)
    requires IsRun(states, actions) && i < |states|
    ensures Persistent(states[i])
    ensures states[i].shouldReconnect && states[i].generation > 0 ==> Trying(states[i])
  {
    if i > 0 {
      NeverGivesUp(states, actions, i - 1);
      RunInv(states, actions, i - 1);
      assert StepAt(states, actions, i - 1);
      StepPersists(states[i - 1], actions[i - 1]);
    }
  }

  /**
   * Until it is connected, such a listener is never stuck: a loop, a wait, an attempt's timeout or its continuation is
   * due.
   */
  lemma CanMove(s: State) returns (a: Action)
    requires Inv(s) && Persistent(s) && s.shouldReconnect && s.generation > 0 && !s.connected
    ensures Enabled(s, a)
    ensures a.Resume? || a.TimerFires? || a.ResumeReconnect? ||
        (a.AttemptFails? && s.attempts[a.attempt].status.Pending?)
  {
    if s.connecting {
      var l :| Live(s.loops, s.generation, l);
      var at := s.loops[l].at;
      if at.Awaiting? && s.attempts[at.attempt].status.Pending? {
        a := AttemptFails(at.attempt);
      } else if at.Waiting? && !s.timers[at.timer] {
        a := TimerFires(at.timer);
      } else {
        a := Resume(l, true);
      }
    } else {
      var r :| ToRun(s.reconnects, s.generation, r);
      var t := s.reconnects[r].timer;
      a := if s.timers[t] then ResumeReconnect(r) else TimerFires(t);
    }
  }

  // ---- and can always connect ----

  /** Steps from one state to another, none of them a call of `connect` or `disconnect`. */
  ghost predicate Unaided(s: State, actions: seq<Action>, t: State)
    decreases |actions|
  {
    if actions == [] then s == t
    else
      && InRange(s) && Enabled(s, actions[0]) && !actions[0].Connect? && !actions[0].Disconnect?
      && Unaided(Apply(s, actions[0]), actions[1..], t)
  }

  /** The live loop of a listener that reconnects. */
  ghost predicate Looping(s: State, l: nat) {
    Inv(s) && Live(s.loops, s.generation, l) && s.shouldReconnect
  }

  lemma After(s: State, a: Action, actions: seq<Action>, t: State)
    requires InRange(s) && Enabled(s, a) && !a.Connect? && !a.Disconnect? && Unaided(Apply(s, a), actions, t)
    ensures Unaided(s, [a] + actions, t)
  {
    assert ([a] + actions)[1..] == actions;
  }

  lemma FromSocket(s: State, a: nat) returns (actions: seq<Action>, t: State)
    requires Inv(s) && a < |s.attempts| && s.attempts[a].status.Pending? && s.webSocket == Some(a)
    ensures Unaided(s, actions, t) && t.connected
  {
    t := Apply(s, SocketOpens(a, true));
    After(s, SocketOpens(a, true), [], t);
    actions := [SocketOpens(a, true)];
  }

  lemma FromAttempt(s: State, a: nat) returns (actions: seq<Action>, t: State)
    requires Inv(s) && a < |s.attempts| && s.attempts[a].status.Pending?
    ensures Unaided(s, actions, t) && t.connected
  {
    if s.attempts[a].sock.NoSocket? {
      PortCreatesSocket(s, a);
      StepInv(s, PortOpens(a, true));
      actions, t := FromSocket(Apply(s, PortOpens(a, true)), a);
      After(s, PortOpens(a, true), actions, t);
      actions := [PortOpens(a, true)] + actions;
    } else {
      actions, t := FromSocket(s, a);
    }
  }

  lemma FromHead(s: State, l: nat) returns (actions: seq<Action>, t: State)
    requires Looping(s, l)
    requires s.loops[l].at.EmitConnecting? || (s.loops[l].at.Waiting? && s.timers[s.loops[l].at.timer])
    ensures Unaided(s, actions, t) && t.connected
  {
    LoopAttempts(s, l, true);
    StepInv(s, Resume(l, true));
    actions, t := FromAttempt(Apply(s, Resume(l, true)), |s.attempts|);
    After(s, Resume(l, true), actions, t);
    actions := [Resume(l, true)] + actions;
  }

  lemma FromWait(s: State, l: nat) returns (actions: seq<Action>, t: State)
    requires Looping(s, l) && s.loops[l].at.Waiting?
    ensures Unaided(s, actions, t) && t.connected
  {
    var timer := s.loops[l].at.timer;
    if s.timers[timer] {
      actions, t := FromHead(s, l);
    } else {
      TimerSettles(s, timer);
      actions, t := FromHead(Apply(s, TimerFires(timer)), l);
      After(s, TimerFires(timer), actions, t);
      actions := [TimerFires(timer)] + actions;
    }
  }

  lemma FromReport(s: State, l: nat) returns (actions: seq<Action>, t: State)
    requires Looping(s, l) && (s.loops[l].at.Reporting? || s.loops[l].at.EmitError?)
    ensures Unaided(s, actions, t) && t.connected
    decreases s.loops[l].at.Reporting?
  {
    var s' := Apply(s, Resume(l, true));
    RejectedRetries(s, l, true);
    ResumeFrame(s, l, true);
    StepInv(s, Resume(l, true));
    if s.loops[l].at.EmitError? {
      actions, t := FromWait(s', l);
    } else {
      actions, t := FromReport(s', l);
    }
    After(s, Resume(l, true), actions, t);
    actions := [Resume(l, true)] + actions;
  }

  lemma FromAwaited(s: State, l: nat) returns (actions: seq<Action>, t: State)
    requires Looping(s, l) && s.loops[l].at.Awaiting?
    ensures Unaided(s, actions, t) && t.connected
  {
    var a := s.loops[l].at.attempt;
    if s.attempts[a].status.Pending? {
      actions, t := FromAttempt(s, a);
    } else if s.attempts[a].status.Resolved? {
      actions, t := [], s;
      assert Expects(s, s.loops[l].at);
    } else {
      RejectedRetries(s, l, true);
      ResumeFrame(s, l, true);
      StepInv(s, Resume(l, true));
      actions, t := FromReport(Apply(s, Resume(l, true)), l);
      After(s, Resume(l, true), actions, t);
      actions := [Resume(l, true)] + actions;
    }
  }

  lemma FromContinuation(s: State, r: nat) returns (actions: seq<Action>, t: State)
    requires Inv(s) && ToRun(s.reconnects, s.generation, r) && s.shouldReconnect && !s.connecting && !s.connected
    requires s.timers[s.reconnects[r].timer]
    ensures Unaided(s, actions, t) && t.connected
  {
    var s' := Apply(s, ResumeReconnect(r));
    ContinuationConnects(s, r);
    StepInv(s, ResumeReconnect(r));
    actions, t := FromHead(s', |s.loops|);
    After(s, ResumeReconnect(r), actions, t);
    actions := [ResumeReconnect(r)] + actions;
  }

  /**
   * From every state of every run in which a started listener is to reconnect, there are steps, without any
   * further call of its methods, after which it is connected.
   */
  lemma CanConnect(states: seq<State>, actions: seq<Action>, i: nat) returns (more: seq<Action>, t: State)
    requires IsRun(states, actions) && i < |states| && states[i].shouldReconnect && states[i].generation > 0
    ensures Unaided(states[i], more, t) && t.connected
  {
    var s := states[i];
    RunInv(states, actions, i);
    NeverGivesUp(states, actions, i);
    if s.connected {
      more, t := [], s;
    } else if s.connecting {
      var l :| Live(s.loops, s.generation, l);
      match s.loops[l].at
      case EmitConnecting => more, t := FromHead(s, l);
      case Waiting(_) => more, t := FromWait(s, l);
      case Awaiting(_) => more, t := FromAwaited(s, l);
      case Reporting => more, t := FromReport(s, l);
      case EmitError => more, t := FromReport(s, l);
    } else {
      var r :| ToRun(s.reconnects, s.generation, r);
      var timer := s.reconnects[r].timer;
      if s.timers[timer] {
        more, t := FromContinuation(s, r);
      } else {
        TimerSettles(s, timer);
        more, t := FromContinuation(Apply(s, TimerFires(timer)), r);
        After(s, TimerFires(timer), more, t);
        more := [TimerFires(timer)] + more;
      }
    }
  }
}
