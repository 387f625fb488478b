/** All websocket connections of src/osc-ws.cpp at once: publisher threads, serving threads and
    `shutdown_all` interleave step by step. A `send_frame` is several steps under its connection's write
    mutex, one per call of `send`; the other critical sections are one step each. Tokens are never used
    twice. Any thread may still hold a connection that has left the registry. */
module WsConnections {
  import opened Bytes
  import opened WsFrame
  import opened Subscriptions
  import Runs

  type Token = nat

  /** The write mutex: free, or held by a sender that has written `n` bytes of its frame. */
  datatype Lock = Free | Held(frame: Outgoing, n: nat)

  /** How far the serving thread is: before the map knows the connection, in the loop, after its last
      `osc_listen_remove_peer`, after the erase, after `close_conn`. */
  datatype Phase = Starting | Serving | Left | Erased | Done

  /** A frame of which only the first `n` bytes were written. */
  datatype Cut = Whole | Cut(frame: Outgoing, n: nat)

  datatype Conn = Conn(
    phase: Phase, open: bool, fdValid: bool, lock: Lock,
    begun: seq<Outgoing>,    // for which the lock was taken on an open connection, in that order
    written: seq<byte>,      // after the handshake
    frames: seq<Outgoing>,   // sent completely, in the order of the lock
    cut: Cut, closes: nat, sendFailed: bool)

  datatype State = State(
    conns: map<Token, Conn>, registry: set<Token>, listeners: seq<Listener>,
    dying: set<Token>, closing: set<Token>)  // what `shutdown_all` has still to do

  const INITIAL: State := State(map[], {}, [], {}, {})
  const FRESH: Conn := Conn(Starting, true, true, Free, [], [], [], Whole, 0, false)

  datatype Action =
    | Accept | Register
    | Listen(path: string) | Ignore(path: string)
    | Leave | Erase | CloseAtEnd
    | SendBegin(frame: Outgoing) | SendSome(k: nat) | SendDone | SendFail
    | ShutdownSwap | ShutdownRemove | ShutdownClose

  datatype Step = Step(token: Token, action: Action)

  function FrameBytes(c: Conn): seq<byte> {
    if c.lock.Held? then Wire(c.lock.frame) else []
  }

  predicate ConnEnabled(c: Conn, a: Action) {
    match a
    case Register => c.phase == Starting
    case Listen(_) => c.phase == Serving
    case Ignore(_) => c.phase == Serving
    case Leave => c.phase == Serving
    case Erase => c.phase == Left
    case CloseAtEnd => c.phase == Erased && c.lock == Free
    case SendBegin(f) => c.phase != Starting && c.lock == Free && f.opcode < 16
    case SendSome(k) => c.lock.Held? && 1 <= k && c.lock.n + k <= |FrameBytes(c)|
    case SendDone => c.lock.Held? && c.lock.n == |FrameBytes(c)|
    case SendFail => c.lock.Held? && c.lock.n < |FrameBytes(c)|
    case ShutdownClose => c.lock == Free
    case _ => true
  }

  predicate Enabled(s: State, step: Step) {
    var t, a := step.token, step.action;
    if a == Accept then t !in s.conns
    else
      || a == ShutdownSwap
      || (&& t in s.conns && ConnEnabled(s.conns[t], a)
          && (a == ShutdownRemove ==> t in s.dying) && (a == ShutdownClose ==> t in s.closing))
  }

  /** `close_conn`: only the one that finds the connection open closes the socket. */
  function Closed(c: Conn): Conn {
    if c.open then c.(open := false, fdValid := false, closes := c.closes + 1) else c
  }

  /** What a step does to its own connection. */
  function ConnNext(c: Conn, a: Action): Conn
    requires ConnEnabled(c, a)
  {
    match a
    case Register => c.(phase := Serving)
    case Leave => c.(phase := Left)
    case Erase => c.(phase := Erased)
    case CloseAtEnd => Closed(c).(phase := Done)
    case ShutdownClose => Closed(c)
    case SendBegin(f) => if c.open then c.(lock := Held(f, 0), begun := c.begun + [f]) else c
    case SendSome(k) =>
      c.(written := c.written + FrameBytes(c)[c.lock.n..c.lock.n + k], lock := Held(c.lock.frame, c.lock.n + k))
    case SendDone => c.(frames := c.frames + [c.lock.frame], lock := Free)
    case SendFail => c.(open := false, sendFailed := true, cut := Cut(c.lock.frame, c.lock.n), lock := Free)
    case _ => c
  }

  function Next(s: State, step: Step): State
    requires Enabled(s, step)
  {
    var t := step.token;
    if step.action == ShutdownSwap then s.(dying := s.dying + s.registry, registry := {})
    else if step.action == Accept then s.(conns := s.conns[t := FRESH])
    else
      var s' := s.(conns := s.conns[t := ConnNext(s.conns[t], step.action)]);
      match step.action
      case Register => s'.(registry := s.registry + {t})
      case Listen(path) => s'.(listeners := ListenAdded(s.listeners, t, path))
      case Ignore(path) => s'.(listeners := ListenRemoved(s.listeners, t, path))
      case Leave => s'.(listeners := WithoutPeer(s.listeners, t))
      case Erase => s'.(registry := s.registry - {t})
      case ShutdownRemove =>
        s'.(listeners := WithoutPeer(s.listeners, t), dying := s.dying - {t}, closing := s.closing + {t})
      case ShutdownClose => s'.(closing := s.closing - {t})
      case _ => s'
  }

  // ---- one connection --------------------------------------------------------

  /** The bytes after the whole frames: part of the frame being written, or of the one that failed. */
  function Tail(c: Conn): seq<byte> {
    if c.lock.Held? && c.lock.n <= |Wire(c.lock.frame)| then Wire(c.lock.frame)[..c.lock.n]
    else if c.cut.Cut? && c.cut.n <= |Wire(c.cut.frame)| then Wire(c.cut.frame)[..c.cut.n]
    else []
  }

  /** The frame begun last, unless it has been sent completely. */
  function Pending(c: Conn): seq<Outgoing> {
    if c.lock.Held? then [c.lock.frame] else if c.cut.Cut? then [c.cut.frame] else []
  }

  /** Every frame begun has been sent completely, but for the last one while it is being written or
      when it was cut off. */
  predicate AllBegunSent(c: Conn) {
    && c.begun == c.frames + Pending(c)
    && (c.lock.Held? ==> c.open) && (c.cut.Cut? ==> !c.open)
  }

  lemma ConnStepKeepsBegun(c: Conn, a: Action)
    requires AllBegunSent(c) && ConnEnabled(c, a)
    ensures AllBegunSent(ConnNext(c, a))
  {
    if a.SendDone? {
      assert !c.cut.Cut? && c.begun == c.frames + [c.lock.frame];
    } else if a.SendBegin? && c.open {
      assert c.frames + [] == c.frames;
    }
  }

  predicate ConnInv(c: Conn) {
    && c.written == Concat(c.frames) + Tail(c)
    && (c.lock.Held? ==> c.open && c.lock.n <= |Wire(c.lock.frame)|)
    && (c.cut.Cut? <==> c.sendFailed) && (c.cut.Cut? ==> c.cut.n < |Wire(c.cut.frame)|)
    && c.fdValid == (c.closes == 0)
    && (c.open ==> c.closes == 0 && !c.sendFailed)
    && (!c.open ==> c.closes == if c.sendFailed then 0 else 1)
    && (c.phase == Done ==> !c.open)
  }

  predicate ConnGood(c: Conn) {
    ConnInv(c) && AllBegunSent(c)
  }

  lemma ConnStepKeeps(c: Conn, a: Action)
    requires ConnInv(c) && ConnEnabled(c, a)
    ensures ConnInv(ConnNext(c, a))
  {
    if a.SendSome? {
      WriteKeeps(c, a.k);
    } else if a.SendDone? {
      ConcatGrows(c.frames, c.lock.frame);
      assert Wire(c.lock.frame)[..c.lock.n] == Wire(c.lock.frame);
      assert ConnNext(c, a).written == Concat(ConnNext(c, a).frames) + [];
    } else if a.SendBegin? {
      assert Wire(a.frame)[..0] == [];
    }
  }

  lemma WriteKeeps(c: Conn, k: nat)
    requires ConnInv(c) && ConnEnabled(c, SendSome(k))
    ensures ConnInv(ConnNext(c, SendSome(k)))
  {
    PrefixGrows(Concat(c.frames), Wire(c.lock.frame), c.lock.n, k);
  }

  /** All of `send_frame`: nothing when the connection is closed; else `n` bytes are written, and it
      fails when that is not the whole frame. */
  function SendNext(c: Conn, f: Outgoing, n: nat): Conn
    requires n <= |Wire(f)|
  {
    if !c.open then c
    else if n == |Wire(f)| then
      c.(begun := c.begun + [f], written := c.written + Wire(f), frames := c.frames + [f])
    else
      c.(begun := c.begun + [f], written := c.written + Wire(f)[..n], open := false, sendFailed := true,
         cut := Cut(f, n))
  }

  /** It holds the lock from its first byte to its last, so its steps come one after the other. */
  lemma SendNextIsSteps(c: Conn, f: Outgoing, n: nat)
    requires c.lock == Free && c.phase != Starting && f.opcode < 16 && n <= |Wire(f)| && c.open
    ensures var begun := ConnNext(c, SendBegin(f));
            && (n > 0 ==> ConnEnabled(begun, SendSome(n)))
            && var some := if n == 0 then begun else ConnNext(begun, SendSome(n));
               SendNext(c, f, n) == if n == |Wire(f)| then ConnNext(some, SendDone) else ConnNext(some, SendFail)
  {
    WireNotEmpty(f);
    assert Wire(f)[0..n] == Wire(f)[..n] && Wire(f)[..|Wire(f)|] == Wire(f);
    assert n == 0 ==> c.written + Wire(f)[..n] == c.written;
  }

  lemma SendNextKeeps(c: Conn, f: Outgoing, n: nat)
    requires ConnGood(c) && c.lock == Free && c.phase != Starting && f.opcode < 16 && n <= |Wire(f)|
    ensures ConnGood(SendNext(c, f, n))
  {
    if c.open {
      var begun := ConnNext(c, SendBegin(f));
      SendNextIsSteps(c, f, n);
      GoodStep(c, SendBegin(f));
      if n > 0 {
        GoodStep(begun, SendSome(n));
      }
      GoodStep(if n == 0 then begun else ConnNext(begun, SendSome(n)), if n == |Wire(f)| then SendDone else SendFail);
    }
  }

  lemma GoodStep(c: Conn, a: Action)
    requires ConnGood(c) && ConnEnabled(c, a)
    ensures ConnGood(ConnNext(c, a))
  {
    ConnStepKeeps(c, a);
    ConnStepKeepsBegun(c, a);
  }

  // ---- the system ------------------------------------------------------------

  predicate ConnsGood(s: State) {
    forall t :: t in s.conns ==> ConnGood(s.conns[t])
  }

  /** Every registration belongs to a serving thread that has not yet run its final removal. */
  predicate ListenersServed(s: State) {
    && (forall l :: l in s.listeners ==> l.peer in s.conns && s.conns[l.peer].phase == Serving)
    && ListenersBounded(s.listeners)
  }

  /** The map and `shutdown_all` know only connections that were accepted. */
  predicate TokensKnown(s: State) {
    s.registry <= s.conns.Keys && s.dying <= s.conns.Keys && s.closing <= s.conns.Keys
  }

  predicate Inv(s: State) {
    ConnsGood(s) && ListenersServed(s) && TokensKnown(s)
  }

  lemma StepKeepsTokens(s: State, step: Step)
    requires TokensKnown(s) && Enabled(s, step)
    ensures TokensKnown(Next(s, step))
  {
  }

  lemma StepKeepsConns(s: State, step: Step)
    requires ConnsGood(s) && Enabled(s, step)
    ensures ConnsGood(Next(s, step))
  {
    var t, s' := step.token, Next(s, step);
    forall u | u in s'.conns ensures ConnGood(s'.conns[u]) {
      if u != t || step.action == ShutdownSwap {
        assert s'.conns[u] == s.conns[u];
      } else if step.action == Accept {
        assert s'.conns[u] == FRESH;
      } else {
        GoodStep(s.conns[t], step.action);
        assert s'.conns[u] == ConnNext(s.conns[t], step.action);
      }
    }
  }

  lemma StepKeepsInv(s: State, step: Step)
    requires Inv(s) && Enabled(s, step)
    ensures Inv(Next(s, step))
  {
    StepKeepsConns(s, step);
    StepKeepsListeners(s, step);
    StepKeepsTokens(s, step);
  }

  lemma StepKeepsListeners(s: State, step: Step)
    requires ListenersServed(s) && Enabled(s, step)
    ensures ListenersServed(Next(s, step))
  {
    var t, s' := step.token, Next(s, step);
    match step.action
    case Listen(path) => ListenAddedIff(s.listeners, t, path);
    case Ignore(path) => ListenRemovedIff(s.listeners, t, path, 0);
    case Leave => WithoutPeerKeepsBounds(s.listeners, t, 0);
    case ShutdownRemove => WithoutPeerKeepsBounds(s.listeners, t, 0);
    case _ =>
  }

  function Stepped(s: State, step: Step): State {
    if Enabled(s, step) then Next(s, step) else s
  }

  predicate CanRun(steps: seq<Step>, n: nat)
    requires n <= |steps|
  {
    Runs.AllAllowed(INITIAL, Stepped, steps, n, Enabled)
  }

  function After(steps: seq<Step>, n: nat): State
    requires n <= |steps|
  {
    Runs.After(INITIAL, Stepped, steps, n)
  }

  lemma EveryRunIsSafe(steps: seq<Step>, n: nat)
    requires n <= |steps| && CanRun(steps, n)
    ensures ConnsGood(After(steps, n)) && ListenersServed(After(steps, n)) && TokensKnown(After(steps, n))
  {
    StepsKeepInv();
    Runs.EveryRunKeeps(INITIAL, Stepped, steps, n, Inv, Enabled);
  }

  lemma StepsKeepInv()
    ensures Inv(INITIAL) && Runs.Keeps(Stepped, Inv, Enabled)
  {
    forall s: State, step | Inv(s) && Enabled(s, step) ensures Inv(Stepped(s, step)) {
      StepKeepsInv(s, step);
    }
  }

  /** At most one close on every run; when the serving thread is done, one close exactly if no send
      failed: a failed send clears `open`, and then nobody closes the socket. */
  lemma ClosedOnceIffNoSendFailed(steps: seq<Step>, n: nat, t: Token)
    requires n <= |steps| && CanRun(steps, n) && t in After(steps, n).conns
    ensures var c := After(steps, n).conns[t];
            c.closes <= 1 && (c.phase == Done ==> (c.closes == 1 <==> !c.sendFailed))
  {
    EveryRunIsSafe(steps, n);
    assert ConnInv(After(steps, n).conns[t]);
  }

  /** The bytes written are whole frames back to back and then at most part of one more. */
  lemma WholeFramesThenPartOfOne(steps: seq<Step>, n: nat, t: Token)
    requires n <= |steps| && CanRun(steps, n) && t in After(steps, n).conns
    ensures var c := After(steps, n).conns[t];
            exists f: Outgoing, k: nat :: k <= |Wire(f)| && c.written == Concat(c.frames) + Wire(f)[..k]
  {
    EveryRunIsSafe(steps, n);
    var c := After(steps, n).conns[t];
    assert ConnInv(c);
    if c.lock.Held? {
      assert c.written == Concat(c.frames) + Wire(c.lock.frame)[..c.lock.n];
    } else if c.cut.Cut? {
      assert c.written == Concat(c.frames) + Wire(c.cut.frame)[..c.cut.n];
    } else {
      var f := Outgoing(OP_PING, []);
      assert c.written == Concat(c.frames) + Wire(f)[..0];
    }
  }

  /** Nothing more was written or closed on the way from `c` to `c'`. */
  predicate NothingMore(c: Conn, c': Conn) {
    && !c'.open && c'.written == c.written && c'.frames == c.frames
    && c'.closes == c.closes && c'.sendFailed == c.sendFailed
  }

  lemma ClosedConnStays(c: Conn, a: Action)
    requires ConnInv(c) && ConnEnabled(c, a) && !c.open
    ensures NothingMore(c, ConnNext(c, a))
  {
  }

  lemma ClosedStays(s: State, step: Step, t: Token)
    requires ConnsGood(s) && Enabled(s, step) && t in s.conns && !s.conns[t].open
    ensures t in Next(s, step).conns && NothingMore(s.conns[t], Next(s, step).conns[t])
  {
    if t == step.token && step.action != ShutdownSwap {
      ClosedConnStays(s.conns[t], step.action);
    }
  }

  /** All is well, and since `c` nothing more happened to the connection `t`. */
  predicate Ended(s: State, t: Token, c: Conn) {
    Inv(s) && t in s.conns && NothingMore(c, s.conns[t])
  }

  /** Once a send has failed or the connection was closed, nothing is ever written to it or closed again,
      whatever runs afterwards. */
  lemma NothingAfterTheEnd(steps: seq<Step>, n: nat, m: nat, t: Token)
    requires n <= m <= |steps| && CanRun(steps, n) && CanRun(steps, m)
    requires t in After(steps, n).conns && !After(steps, n).conns[t].open
    ensures t in After(steps, m).conns && NothingMore(After(steps, n).conns[t], After(steps, m).conns[t])
  {
    EveryRunIsSafe(steps, n);
    var c := After(steps, n).conns[t];
    var ended := (s: State) => Ended(s, t, c);
    forall s: State, step | ended(s) && Enabled(s, step) ensures ended(Stepped(s, step)) {
      StepKeepsInv(s, step);
      ClosedStays(s, step, t);
    }
    Runs.LaterKeeps(INITIAL, Stepped, steps, n, m, ended, Enabled);
  }

  // ---- a run that never closes -----------------------------------------------

  /** A client connects, the server fails to send it a frame, and it is served to the end. */
  function FailingRun(t: Token, f: Outgoing): seq<Step> {
    [Step(t, Accept), Step(t, Register), Step(t, SendBegin(f)), Step(t, SendFail),
     Step(t, Leave), Step(t, Erase), Step(t, CloseAtEnd)]
  }

  /** The first `n` steps can be taken and lead to `s`. */
  predicate LeadsTo(steps: seq<Step>, n: nat, s: State) {
    n <= |steps| && CanRun(steps, n) && After(steps, n) == s
  }

  lemma OneMore(steps: seq<Step>, n: nat, s: State, s': State)
    requires n < |steps| && LeadsTo(steps, n, s) && Enabled(s, steps[n]) && Next(s, steps[n]) == s'
    ensures LeadsTo(steps, n + 1, s')
  {
    Runs.OneMore(INITIAL, Stepped, steps, n, Enabled);
  }

  /** The state when only `t` has ever connected. */
  function Alone(t: Token, c: Conn, registry: set<Token>, listeners: seq<Listener> := []): State {
    State(map[t := c], registry, listeners, {}, {})
  }

  /** What an action of `t` makes of the LISTEN table. */
  function ListenersBy(listeners: seq<Listener>, t: Token, a: Action): seq<Listener> {
    match a
    case Listen(path) => ListenAdded(listeners, t, path)
    case Ignore(path) => ListenRemoved(listeners, t, path)
    case Leave => WithoutPeer(listeners, t)
    case _ => listeners
  }

  lemma OneMoreAlone(steps: seq<Step>, n: nat, t: Token, a: Action, c: Conn, registry: set<Token>,
                     registry': set<Token>, listeners: seq<Listener> := [], listeners': seq<Listener> := [])
    requires n < |steps| && steps[n] == Step(t, a) && ConnEnabled(c, a)
    requires !a.Accept? && !a.ShutdownSwap? && !a.ShutdownRemove? && !a.ShutdownClose?
    requires LeadsTo(steps, n, Alone(t, c, registry, listeners))
    requires registry' == if a.Register? then registry + {t} else if a.Erase? then registry - {t} else registry
    requires listeners' == ListenersBy(listeners, t, a)
    ensures LeadsTo(steps, n + 1, Alone(t, ConnNext(c, a), registry', listeners'))
  {
    var s := Alone(t, c, registry, listeners);
    assert s.conns[t := ConnNext(c, a)] == map[t := ConnNext(c, a)];
    OneMore(steps, n, s, Alone(t, ConnNext(c, a), registry', listeners'));
  }

  lemma AcceptAlone(steps: seq<Step>, t: Token)
    requires steps != [] && steps[0] == Step(t, Accept)
    ensures LeadsTo(steps, 1, Alone(t, FRESH, {}))
  {
    assert INITIAL.conns[t := FRESH] == map[t := FRESH];
    OneMore(steps, 0, INITIAL, Alone(t, FRESH, {}));
  }

  lemma ServingAlone(t: Token, f: Outgoing)
    ensures LeadsTo(FailingRun(t, f), 2, Alone(t, FRESH.(phase := Serving), {t}))
  {
    AcceptAlone(FailingRun(t, f), t);
    OneMoreAlone(FailingRun(t, f), 1, t, Register, FRESH, {}, {t});
  }

  /** The state of a connection whose first frame was not accepted at all. */
  function Failed(f: Outgoing, phase: Phase): Conn {
    Conn(phase, false, true, Free, [f], [], [], Cut(f, 0), 0, true)
  }

  lemma FailingSend(t: Token, f: Outgoing)
    requires f.opcode < 16
    ensures LeadsTo(FailingRun(t, f), 4, Alone(t, Failed(f, Serving), {t}))
  {
    var serving := FRESH.(phase := Serving);
    var sending := ConnNext(serving, SendBegin(f));
    ServingAlone(t, f);
    OneMoreAlone(FailingRun(t, f), 2, t, SendBegin(f), serving, {t}, {t});
    WireNotEmpty(f);
    assert [] + [f] == [f];
    OneMoreAlone(FailingRun(t, f), 3, t, SendFail, sending, {t}, {t});
  }

  /** "Exactly once" is false: on this run the serving thread comes to its end and the socket has never
      been closed. */
  lemma FailedSendLeavesSocketOpen(t: Token, f: Outgoing)
    requires f.opcode < 16
    ensures var steps := FailingRun(t, f);
            && CanRun(steps, |steps|) && t in After(steps, |steps|).conns
            && var c := After(steps, |steps|).conns[t];
               c.phase == Done && c.closes == 0 && c.fdValid
  {
    var steps := FailingRun(t, f);
    FailingSend(t, f);
    OneMoreAlone(steps, 4, t, Leave, Failed(f, Serving), {t}, {t});
    OneMoreAlone(steps, 5, t, Erase, Failed(f, Left), {t}, {});
    OneMoreAlone(steps, 6, t, CloseAtEnd, Failed(f, Erased), {}, {});
    assert LeadsTo(steps, 7, Alone(t, Failed(f, Done), {}));
  }

  // ---- an ordinary life ------------------------------------------------------

  /** A client connects and listens, gets a frame, stops listening and listens again, and leaves. */
  predicate OrdinaryLife(steps: seq<Step>, t: Token, path: string, f: Outgoing) {
    && |steps| == 11 && steps[0] == Step(t, Accept) && steps[1] == Step(t, Register)
    && steps[2] == Step(t, Listen(path)) && steps[3] == Step(t, SendBegin(f))
    && steps[4] == Step(t, SendSome(|Wire(f)|)) && steps[5] == Step(t, SendDone)
    && steps[6] == Step(t, Ignore(path)) && steps[7] == Step(t, Listen(path))
    && steps[8] == Step(t, Leave) && steps[9] == Step(t, Erase) && steps[10] == Step(t, CloseAtEnd)
  }

  /** A connection in its loop that has sent these frames. */
  function Sent(frames: seq<Outgoing>, written: seq<byte>): Conn {
    Conn(Serving, true, true, Free, frames, written, frames, Whole, 0, false)
  }

  lemma LifeListens(steps: seq<Step>, t: Token, path: string, f: Outgoing)
    requires OrdinaryLife(steps, t, path, f) && ValidPattern(path)
    ensures LeadsTo(steps, 3, Alone(t, Sent([], []), {t}, [Listener(t, path)]))
  {
    AcceptAlone(steps, t);
    OneMoreAlone(steps, 1, t, Register, FRESH, {}, {t});
    OneMoreAlone(steps, 2, t, Listen(path), Sent([], []), {t}, {t}, [], [Listener(t, path)]);
  }

  lemma LifeGets(steps: seq<Step>, t: Token, path: string, f: Outgoing)
    requires OrdinaryLife(steps, t, path, f) && f.opcode < 16
    requires LeadsTo(steps, 3, Alone(t, Sent([], []), {t}, [Listener(t, path)]))
    ensures LeadsTo(steps, 6, Alone(t, Sent([f], Wire(f)), {t}, [Listener(t, path)]))
  {
    var ls := [Listener(t, path)];
    var begun := Sent([], []).(lock := Held(f, 0), begun := [f]);
    var written := begun.(lock := Held(f, |Wire(f)|), written := Wire(f));
    WireNotEmpty(f);
    SendsWhole(f, begun, written);
    OneMoreAlone(steps, 3, t, SendBegin(f), Sent([], []), {t}, {t}, ls, ls);
    OneMoreAlone(steps, 4, t, SendSome(|Wire(f)|), begun, {t}, {t}, ls, ls);
    OneMoreAlone(steps, 5, t, SendDone, written, {t}, {t}, ls, ls);
  }

  lemma SendsWhole(f: Outgoing, begun: Conn, written: Conn)
    requires f.opcode < 16 && begun == Sent([], []).(lock := Held(f, 0), begun := [f])
    requires written == begun.(lock := Held(f, |Wire(f)|), written := Wire(f))
    ensures ConnNext(Sent([], []), SendBegin(f)) == begun
    ensures ConnEnabled(begun, SendSome(|Wire(f)|)) && ConnNext(begun, SendSome(|Wire(f)|)) == written
    ensures ConnNext(written, SendDone) == Sent([f], Wire(f))
  {
    WireNotEmpty(f);
    assert [] + [f] == [f] && [] + Wire(f)[0..0 + |Wire(f)|] == Wire(f);
  }

  lemma LifeEnds(steps: seq<Step>, t: Token, path: string, f: Outgoing)
    requires OrdinaryLife(steps, t, path, f) && ValidPattern(path)
    requires LeadsTo(steps, 6, Alone(t, Sent([f], Wire(f)), {t}, [Listener(t, path)]))
    ensures LeadsTo(steps, 9, Alone(t, Sent([f], Wire(f)).(phase := Left), {t}))
  {
    var ls, c := [Listener(t, path)], Sent([f], Wire(f));
    OneMoreAlone(steps, 6, t, Ignore(path), c, {t}, {t}, ls, []);
    OneMoreAlone(steps, 7, t, Listen(path), c, {t}, {t}, [], ls);
    OneMoreAlone(steps, 8, t, Leave, c, {t}, {t}, ls, []);
  }

  lemma LifeIsOver(steps: seq<Step>, t: Token, path: string, f: Outgoing)
    requires OrdinaryLife(steps, t, path, f)
    requires LeadsTo(steps, 9, Alone(t, Sent([f], Wire(f)).(phase := Left), {t}))
    ensures LeadsTo(steps, 11, Alone(t, Closed(Sent([f], Wire(f))).(phase := Done), {}))
  {
    var c := Sent([f], Wire(f));
    OneMoreAlone(steps, 9, t, Erase, c.(phase := Left), {t}, {});
    OneMoreAlone(steps, 10, t, CloseAtEnd, c.(phase := Erased), {}, {});
  }

  /** This is a run, for every client, path and frame: the client is registered for the path while it
      listens, has been sent exactly the frame, and is closed once in the end. */
  lemma LifeIsARun(steps: seq<Step>, t: Token, path: string, f: Outgoing)
    requires OrdinaryLife(steps, t, path, f) && ValidPattern(path) && f.opcode < 16
    ensures CanRun(steps, 11)
    ensures After(steps, 3).listeners == [Listener(t, path)] && After(steps, 11).listeners == []
    ensures t in After(steps, 11).conns
    ensures var c := After(steps, 11).conns[t];
            c.phase == Done && c.closes == 1 && !c.fdValid && c.written == Wire(f) && c.frames == [f]
  {
    LifeListens(steps, t, path, f);
    LifeGets(steps, t, path, f);
    LifeEnds(steps, t, path, f);
    LifeIsOver(steps, t, path, f);
  }

  /** A serving thread goes on from wherever it has got to: it can listen, ignore and leave at any time in its
      loop, and when it has left it comes to its end as soon as nobody holds the write mutex. */
  lemma ServingThreadGoesOn(c: Conn, path: string)
    ensures c.phase == Starting ==> ConnEnabled(c, Register) && ConnNext(c, Register).phase == Serving
    ensures c.phase == Serving ==> ConnEnabled(c, Listen(path)) && ConnEnabled(c, Ignore(path))
    ensures c.phase == Serving ==> ConnEnabled(c, Leave) && ConnNext(c, Leave).phase == Left
    ensures c.phase == Left ==> ConnEnabled(c, Erase) && ConnNext(c, Erase).phase == Erased
    ensures c.phase == Erased && c.lock == Free ==> ConnEnabled(c, CloseAtEnd) && ConnNext(c, CloseAtEnd).phase == Done
  {
  }

  /** Connections do not get in each other's way: what a step of `t` may do and does to `t` does not depend
      on the other connections. */
  lemma OthersDoNotMatter(s: State, s': State, t: Token, a: Action)
    requires (t in s.conns <==> t in s'.conns) && (t in s.conns ==> s.conns[t] == s'.conns[t])
    requires (t in s.dying <==> t in s'.dying) && (t in s.closing <==> t in s'.closing)
    ensures Enabled(s, Step(t, a)) <==> Enabled(s', Step(t, a))
    ensures Enabled(s, Step(t, a)) ==>
              var n, n' := Next(s, Step(t, a)).conns, Next(s', Step(t, a)).conns;
              (t in n <==> t in n') && (t in n ==> n[t] == n'[t])
  {
  }

  /** No registration outlives the serving thread's final removal, `shutdown_all` or not. */
  lemma NoListenerSurvives(steps: seq<Step>, n: nat, t: Token, path: string)
    requires n <= |steps| && CanRun(steps, n) && t in After(steps, n).conns
    requires After(steps, n).conns[t].phase != Serving
    ensures Listener(t, path) !in After(steps, n).listeners
  {
    EveryRunIsSafe(steps, n);
  }

  // ---- who is registered -----------------------------------------------------

  /** Whether a registration ought to be there after `n` steps: its LISTEN came when there was room, and no
      IGNORE of it and no removal of its peer came since. */
  predicate Live(steps: seq<Step>, n: nat, l: Listener)
    requires n <= |steps|
  {
    n > 0 &&
    var t := steps[n - 1].token;
    match steps[n - 1].action
    case Listen(path) =>
      || (l == Listener(t, path) && 1 <= |path| <= 256 && |After(steps, n - 1).listeners| < 256)
      || Live(steps, n - 1, l)
    case Ignore(path) => l != Listener(t, path) && Live(steps, n - 1, l)
    case Leave => l.peer != t && Live(steps, n - 1, l)
    case ShutdownRemove => l.peer != t && Live(steps, n - 1, l)
    case _ => Live(steps, n - 1, l)
  }

  lemma ListenersNext(s: State, step: Step, l: Listener)
    requires ListenersBounded(s.listeners) && Enabled(s, step)
    ensures l in Next(s, step).listeners <==>
            match step.action
            case Listen(path) => l in s.listeners || (l == Listener(step.token, path) && ValidPattern(path)
                                                      && |s.listeners| < MAX_LISTENERS)
            case Ignore(path) => l in s.listeners && l != Listener(step.token, path)
            case Leave => l in s.listeners && l.peer != step.token
            case ShutdownRemove => l in s.listeners && l.peer != step.token
            case _ => l in s.listeners
  {
    var t := step.token;
    assert s.listeners[0..] == s.listeners;
    match step.action
    case Listen(path) => ListenAddedIff(s.listeners, t, path);
    case Ignore(path) => ListenRemovedIff(s.listeners, t, path, 0);
    case Leave => WithoutPeerKeepsBounds(s.listeners, t, 0);
    case ShutdownRemove => WithoutPeerKeepsBounds(s.listeners, t, 0);
    case _ =>
  }

  /** The state in front of the last of `n` steps. */
  lemma Before(steps: seq<Step>, n: nat) returns (s: State, s': State)
    requires 0 < n <= |steps| && CanRun(steps, n)
    ensures s == After(steps, n - 1) && CanRun(steps, n - 1) && Inv(s) && Enabled(s, steps[n - 1])
    ensures s' == After(steps, n) == Next(s, steps[n - 1])
  {
    Runs.AllowedBefore(INITIAL, Stepped, steps, n - 1, n, Enabled);
    EveryRunIsSafe(steps, n - 1);
    s, s' := After(steps, n - 1), After(steps, n);
  }

  /** In every interleaving, exactly the registrations that ought to be there are there. */
  lemma {:induction false} ListenersAreTheLive(steps: seq<Step>, n: nat, l: Listener)
    requires n <= |steps| && CanRun(steps, n)
    ensures l in After(steps, n).listeners <==> Live(steps, n, l)
    decreases n
  {
    if n > 0 {
      var s, s' := Before(steps, n);
      ListenersAreTheLive(steps, n - 1, l);
      ListenersNext(s, steps[n - 1], l);
    }
  }

  /** Whether `shutdown_all` and `send_binary` can find a connection after `n` steps: it has been registered
      and not erased since, and no `shutdown_all` has emptied the map. */
  predicate Registered(steps: seq<Step>, n: nat, t: Token)
    requires n <= |steps|
  {
    n > 0 && RegisteredBy(steps[n - 1], t, Registered(steps, n - 1, t))
  }

  predicate RegisteredBy(step: Step, t: Token, before: bool) {
    && step.action != ShutdownSwap
    && if step.token != t then before else step.action == Register || (step.action != Erase && before)
  }

  lemma {:induction false} RegistryIsRegistered(steps: seq<Step>, n: nat, t: Token)
    requires n <= |steps| && CanRun(steps, n)
    ensures t in After(steps, n).registry <==> Registered(steps, n, t)
    decreases n
  {
    if n > 0 {
      var s, s' := Before(steps, n);
      RegistryIsRegistered(steps, n - 1, t);
      RegistryNext(s, steps[n - 1], s', t);
    }
  }

  lemma RegistryNext(s: State, step: Step, s': State, t: Token)
    requires Enabled(s, step) && s' == Next(s, step)
    ensures t in s'.registry <==> RegisteredBy(step, t, t in s.registry)
  {
  }

  // ---- shutting down ---------------------------------------------------------

  /** `shutdown_all` has still to do with the connection, or it is no longer open. */
  predicate BeingClosed(s: State, t: Token) {
    t in s.conns && (t in s.dying || t in s.closing || !s.conns[t].open)
  }

  lemma SwapStarts(steps: seq<Step>, n: nat, m: nat, t: Token) returns (s': State)
    requires n < m <= |steps| && CanRun(steps, m) && steps[n].action == ShutdownSwap
    requires t in After(steps, n).registry
    ensures s' == After(steps, n + 1) && BeingClosed(s', t)
  {
    Runs.AllowedBefore(INITIAL, Stepped, steps, n, m, Enabled);
    EveryRunIsSafe(steps, n);
    SwapTakes(After(steps, n), steps[n], t);
    s' := After(steps, n + 1);
  }

  lemma SwapTakes(s: State, step: Step, t: Token)
    requires TokensKnown(s) && t in s.registry && step.action == ShutdownSwap
    ensures BeingClosed(Next(s, step), t)
  {
  }

  lemma ClosingGoesOn(s: State, step: Step, t: Token)
    requires Inv(s) && BeingClosed(s, t) && Enabled(s, step)
    ensures BeingClosed(Next(s, step), t)
  {
    if !s.conns[t].open {
      ClosedStays(s, step, t);
    }
  }

  /** `shutdown_all` closes what it found in the map: once it has nothing left to do with a connection that
      was registered when it emptied the map, that connection is no longer open. */
  lemma ShutdownCloses(steps: seq<Step>, n: nat, m: nat, t: Token)
    requires n < m <= |steps| && CanRun(steps, m) && steps[n].action == ShutdownSwap
    requires t in After(steps, n).registry
    ensures var s := After(steps, m);
            t in s.conns && (t in s.dying || t in s.closing || !s.conns[t].open)
  {
    var s := SwapStarts(steps, n, m, t);
    s := StaysBeingClosed(steps, n + 1, m, s, t);
  }

  lemma StaysBeingClosed(steps: seq<Step>, n: nat, m: nat, s: State, t: Token) returns (s': State)
    requires n <= m <= |steps| && CanRun(steps, m) && s == After(steps, n) && BeingClosed(s, t)
    ensures s' == After(steps, m) && BeingClosed(s', t)
  {
    s' := After(steps, m);
    Runs.AllowedBefore(INITIAL, Stepped, steps, n, m, Enabled);
    EveryRunIsSafe(steps, n);
    var closing := (s: State) => Inv(s) && BeingClosed(s, t);
    forall s: State, step | closing(s) && Enabled(s, step) ensures closing(Stepped(s, step)) {
      StepKeepsInv(s, step);
      ClosingGoesOn(s, step, t);
    }
    Runs.LaterKeeps(INITIAL, Stepped, steps, n, m, closing, Enabled);
  }

  /** And it can go on: each connection it took out of the map it first removes from the listeners and then
      closes, as soon as nobody holds its write mutex; nobody holds that for ever. */
  lemma ShutdownGoesOn(s: State, t: Token)
    requires Inv(s) && t in s.conns
    ensures t in s.dying ==> Enabled(s, Step(t, ShutdownRemove)) && t in Next(s, Step(t, ShutdownRemove)).closing
    ensures t in s.closing && s.conns[t].lock == Free ==>
              Enabled(s, Step(t, ShutdownClose)) && !Next(s, Step(t, ShutdownClose)).conns[t].open
    ensures s.conns[t].lock.Held? ==>
              Enabled(s, Step(t, SendDone)) || (exists k: nat :: Enabled(s, Step(t, SendSome(k))))
  {
    if s.conns[t].lock.Held? {
      SendGoesOn(s, t);
    }
  }

  lemma SendGoesOn(s: State, t: Token)
    requires ConnsGood(s) && t in s.conns && s.conns[t].lock.Held?
    ensures Enabled(s, Step(t, SendDone)) || (exists k: nat :: Enabled(s, Step(t, SendSome(k))))
  {
    var c := s.conns[t];
    assert ConnInv(c);
    if c.lock.n < |FrameBytes(c)| {
      assert Enabled(s, Step(t, SendSome(|FrameBytes(c)| - c.lock.n)));
    }
  }

  // ---- what the peer reads ---------------------------------------------------

  /** A reader that starts at `pos` gets exactly the frames from the `k`-th on, and then no more. */
  predicate Reads(read: Reader, pos: nat, frames: seq<Outgoing>, k: nat)
    requires k <= |frames|
    decreases |frames| - k
  {
    match read(pos)
    case NoFrame => k == |frames|
    case GotFrame(h, payload, next) =>
      k < |frames| && frames[k] == Outgoing(h.opcode, payload) && Reads(read, next, frames, k + 1)
  }

  predicate Readable(o: Outgoing) {
    o.opcode < 16 && |o.payload| <= 8192
  }

  predicate AllReadable(frames: seq<Outgoing>) {
    forall i :: 0 <= i < |frames| ==> Readable(frames[i])
  }

  lemma ServerFrameReads(d: seq<byte>, pos: nat, o: Outgoing)
    requires Readable(o) && Holds(d, pos, Wire(o))
    ensures ParseFrame(d, pos) ==
            GotFrame(Header(o.opcode, true, false, |o.payload|), o.payload, pos + |Wire(o)|)
  {
    FrameReads(d, pos, ServerFrame(o.opcode, o.payload));
  }

  /** A frame that was cut off is not taken for a frame. */
  lemma CutServerFrame(d: seq<byte>, pos: nat, o: Outgoing, n: nat)
    requires Readable(o) && n < |Wire(o)| && Holds(d, pos, Wire(o)[..n]) && pos + n == |d|
    ensures ParseFrame(d, pos).NoFrame?
  {
    CutFrameIsNoFrame(d, pos, ServerFrame(o.opcode, o.payload), n);
  }

  /** Wherever the `i`-th part lies, the `i`-th frame is read. */
  ghost predicate EachReads(read: Reader, d: seq<byte>, parts: seq<seq<byte>>, frames: seq<Outgoing>) {
    && |parts| == |frames|
    && forall i, pos: nat :: 0 <= i < |frames| && Holds(d, pos, parts[i]) ==>
         ReadsAs(read, pos, frames[i], pos + |parts[i]|)
  }

  predicate ReadsAs(read: Reader, pos: nat, o: Outgoing, next: nat) {
    match read(pos)
    case NoFrame => false
    case GotFrame(h, payload, end) => o == Outgoing(h.opcode, payload) && end == next
  }

  lemma WiresRead(d: seq<byte>, frames: seq<Outgoing>)
    requires AllReadable(frames)
    ensures EachReads(ReaderOf(d), d, Wires(frames), frames)
  {
    forall i, pos: nat | 0 <= i < |frames| && Holds(d, pos, Wires(frames)[i])
      ensures ReadsAs(ReaderOf(d), pos, frames[i], pos + |Wires(frames)[i]|)
    {
      ServerFrameReads(d, pos, frames[i]);
    }
  }

  /** Whole frames are read in the order they were sent, up to where nothing more can be read. */
  lemma {:induction false} FramesRead(d: seq<byte>, read: Reader, pos: nat, parts: seq<seq<byte>>,
                                      frames: seq<Outgoing>, k: nat, end: nat)
    requires k <= |frames| && EachReads(read, d, parts, frames)
    requires Chained(d, pos, parts, k, end) && read(end).NoFrame?
    ensures Reads(read, pos, frames, k)
    decreases |frames| - k
  {
    if k < |frames| {
      assert ReadsAs(read, pos, frames[k], pos + |parts[k]|);
      FramesRead(d, read, pos + |parts[k]|, parts, frames, k + 1, end);
    }
  }

  lemma NothingBehind(whole: seq<byte>, o: Outgoing, n: nat)
    requires Readable(o) && n < |Wire(o)|
    ensures var d := whole + Wire(o)[..n];
            Holds(d, 0, whole) && ParseFrame(d, |whole|).NoFrame?
  {
    HoldsThree(whole + Wire(o)[..n], [], whole, Wire(o)[..n]);
    CutServerFrame(whole + Wire(o)[..n], |whole|, o, n);
  }

  lemma BytesRead(frames: seq<Outgoing>, o: Outgoing, n: nat)
    requires AllReadable(frames) && Readable(o) && n < |Wire(o)|
    ensures Reads(ReaderOf(Concat(frames) + Wire(o)[..n]), 0, frames, 0)
  {
    NothingBehind(Concat(frames), o, n);
    FlatIsChained(Concat(frames) + Wire(o)[..n], 0, Wires(frames), 0);
    WiresRead(Concat(frames) + Wire(o)[..n], frames);
    FramesRead(Concat(frames) + Wire(o)[..n], ReaderOf(Concat(frames) + Wire(o)[..n]), 0, Wires(frames), frames, 0,
               |Concat(frames)|);
  }

  /** The frames all of whose bytes have been written. */
  function Complete(c: Conn): seq<Outgoing> {
    if c.lock.Held? && c.lock.n == |Wire(c.lock.frame)| then c.frames + [c.lock.frame] else c.frames
  }

  /** In every interleaving, with any partial writes and failures: what the peer reads from the bytes
      written so far is exactly the completely written frames, and these are the frames begun, in the
      order the mutex was taken, but for one that is being written or was cut off. */
  lemma PeerReadsWholeFrames(steps: seq<Step>, n: nat, t: Token)
    requires n <= |steps| && CanRun(steps, n) && t in After(steps, n).conns
    requires AllReadable(After(steps, n).conns[t].begun)
    ensures var c := After(steps, n).conns[t];
            && Reads(ReaderOf(c.written), 0, Complete(c), 0)
            && Complete(c) <= c.begun
            && (Complete(c) == c.begun || (|c.begun| == |Complete(c)| + 1 && (c.lock.Held? || c.sendFailed)))
  {
    EveryRunIsSafe(steps, n);
    var c := After(steps, n).conns[t];
    BegunReadable(c);
    WrittenReads(c);
  }

  lemma BegunReadable(c: Conn)
    requires AllBegunSent(c) && AllReadable(c.begun)
    ensures AllReadable(c.frames)
    ensures (c.cut.Cut? ==> Readable(c.cut.frame)) && (c.lock.Held? ==> Readable(c.lock.frame))
  {
    assert forall i :: 0 <= i < |c.frames| ==> c.frames[i] == c.begun[i];
    if Pending(c) != [] {
      assert c.begun[|c.frames|] == Pending(c)[0];
    }
  }

  lemma WrittenReads(c: Conn)
    requires ConnInv(c) && AllReadable(c.frames)
    requires (c.cut.Cut? ==> Readable(c.cut.frame)) && (c.lock.Held? ==> Readable(c.lock.frame))
    ensures Reads(ReaderOf(c.written), 0, Complete(c), 0)
  {
    if c.lock.Held? && c.lock.n < |Wire(c.lock.frame)| {
      BytesRead(c.frames, c.lock.frame, c.lock.n);
    } else if c.lock.Held? {
      ConcatGrows(c.frames, c.lock.frame);
      NothingCut(Complete(c), c.written);
    } else if c.cut.Cut? {
      BytesRead(c.frames, c.cut.frame, c.cut.n);
    } else {
      NothingCut(c.frames, c.written);
    }
  }

  lemma NothingCut(frames: seq<Outgoing>, d: seq<byte>)
    requires d == Concat(frames) && AllReadable(frames)
    ensures Reads(ReaderOf(d), 0, frames, 0)
  {
    var ping := Outgoing(OP_PING, []);
    BytesRead(frames, ping, 0);
    assert d + Wire(ping)[..0] == d;
  }
}
