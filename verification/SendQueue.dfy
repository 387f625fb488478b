/** The bounded send queue of src/osc-server.cpp as a protocol: producers, the sender thread and the
    control thread that starts and stops them interleave step by step. Every critical section under
    `send_mutex` is one step, except the sender's, which reads the socket in a step of its own while it
    still holds the lock; `target_mutex` sections, `notify_one`, `notify_all`, `sendto` and `join` are
    steps too. The last fields of a state are history. */
module SendQueue {
  import opened Bytes
  import opened Net
  import Runs

  const MAX_SEND_QUEUE: nat := 1024

  /** Where `start` and `stop` have got to; both run on one thread. */
  datatype Control = Stopped | Opened | Flagged | Running | Halting | Cleared | Joining | Joined | Closed

  /** Where `send_loop` has got to. `Checking` is about to test the wait condition, `Taken` has popped a
      packet and holds the lock, `Sending` is outside the lock with the socket it read. */
  datatype Sender = NoThread | Checking | Asleep | Taken(packet: nat) | Sending(packet: nat, valid: bool) | Exited

  datatype State = State(
    control: Control, sender: Sender,
    socketValid: bool, sendRunning: bool, queue: seq<Datagram>,
    admitted: multiset<Datagram>,  // past the socket check of `enqueue`, not yet at the lock
    notifies: nat,                 // pushed, `notify_one` still to come
    accepted: seq<Datagram>,       // every packet ever pushed
    sent: seq<nat>,                // handed to `sendto`, as positions in `accepted`
    dropped: set<nat>,             // popped because the queue was full
    lost: set<nat>,                // popped by the sender but not sent for want of a socket
    discarded: nat,                // thrown away by the final `clear()`
    clearedAt: nat,                // |accepted| when the flag was cleared
    clearedFront: nat)             // the front of the queue at that moment

  datatype Step =
    | StartOpen | StartFlag | StartThread
    | StopBegin | StopClear | StopNotify | StopJoin | StopClose | StopFinish
    | CheckSocket(p: Datagram) | Push(p: Datagram) | NotifyOne
    | SpuriousWake | SenderCheck | SenderReadSocket | SenderSend

  const INITIAL: State := State(Stopped, NoThread, false, false, [], multiset{}, 0, [], [], {}, {}, 0, 0, 0)

  /** The position in `accepted` of the packet at the front of the queue. */
  function Front(s: State): nat {
    if |s.queue| <= |s.accepted| then |s.accepted| - |s.queue| else 0
  }

  predicate LockFree(s: State) {
    !s.sender.Taken?
  }

  predicate Enabled(s: State, step: Step) {
    match step
    case StartOpen => s.control == Stopped
    case StartFlag => s.control == Opened && LockFree(s)
    case StartThread => s.control == Flagged
    case StopBegin => s.control == Running
    case StopClear => s.control == Halting && LockFree(s)
    case StopNotify => s.control == Cleared
    case StopJoin => s.control == Joining && s.sender == Exited
    case StopClose => s.control == Joined
    case StopFinish => s.control == Closed && LockFree(s)
    case CheckSocket(p) => p.to.len != 0 && p.data != []
    case Push(p) => p in s.admitted && LockFree(s)
    case NotifyOne => s.notifies > 0
    case SpuriousWake => s.sender == Asleep
    case SenderCheck => s.sender == Checking
    case SenderReadSocket => s.sender.Taken?
    case SenderSend => s.sender.Sending?
  }

  function Woken(sender: Sender): Sender {
    if sender == Asleep then Checking else sender
  }

  function Next(s: State, step: Step): State
    requires Enabled(s, step)
  {
    match step
    case StartOpen => s.(control := Opened, socketValid := true)
    case StartFlag => s.(control := Flagged, sendRunning := true)
    case StartThread => s.(control := Running, sender := Checking)
    case StopBegin => s.(control := Halting)
    case StopClear => s.(control := Cleared, sendRunning := false, clearedAt := |s.accepted|, clearedFront := Front(s))
    case StopNotify => s.(control := Joining, sender := Woken(s.sender))
    case StopJoin => s.(control := Joined, sender := NoThread)
    case StopClose => s.(control := Closed, socketValid := false)
    case StopFinish => s.(control := Stopped, queue := [], discarded := s.discarded + |s.queue|)
    case CheckSocket(p) => if s.socketValid then s.(admitted := s.admitted + multiset{p}) else s
    case Push(p) => Pushed(s.(admitted := s.admitted - multiset{p}), p)
    case NotifyOne => s.(notifies := s.notifies - 1, sender := Woken(s.sender))
    case SpuriousWake => s.(sender := Checking)
    case SenderCheck =>
      if s.queue != [] then s.(sender := Taken(Front(s)), queue := s.queue[1..])
      else s.(sender := if s.sendRunning then Asleep else Exited)
    case SenderReadSocket => s.(sender := Sending(s.sender.packet, s.socketValid))
    case SenderSend =>
      if s.sender.valid then s.(sender := Checking, sent := s.sent + [s.sender.packet])
      else s.(sender := Checking, lost := s.lost + {s.sender.packet})
  }

  /** The critical section of `enqueue`: the oldest packet makes room for the newest. */
  function Pushed(s: State, p: Datagram): State {
    if !s.sendRunning then s
    else if |s.queue| >= MAX_SEND_QUEUE then
      s.(queue := s.queue[1..] + [p], accepted := s.accepted + [p], notifies := s.notifies + 1,
         dropped := s.dropped + {Front(s)})
    else s.(queue := s.queue + [p], accepted := s.accepted + [p], notifies := s.notifies + 1)
  }

  // ---- invariants ------------------------------------------------------------

  /** Which socket, flag and sender go with which point of `start` and `stop`. */
  predicate Phases(s: State) {
    match s.control
    case Stopped => !s.socketValid && !s.sendRunning && s.sender == NoThread && s.queue == []
    case Opened => s.socketValid && !s.sendRunning && s.sender == NoThread && s.queue == []
    case Flagged => s.socketValid && s.sendRunning && s.sender == NoThread
    case Running => s.socketValid && s.sendRunning && s.sender != NoThread && s.sender != Exited
    case Halting => s.socketValid && s.sendRunning && s.sender != NoThread && s.sender != Exited
    case Cleared => s.socketValid && !s.sendRunning && s.sender != NoThread && (s.sender == Exited ==> s.queue == [])
    case Joining => s.socketValid && !s.sendRunning && s.sender != NoThread && (s.sender == Exited ==> s.queue == [])
                    && s.sender != Asleep
    case Joined => s.socketValid && !s.sendRunning && s.sender == NoThread && s.queue == []
    case Closed => !s.socketValid && !s.sendRunning && s.sender == NoThread && s.queue == []
  }

  /** The queue is the end of what was accepted, and never longer than its bound. */
  predicate QueueIsSuffix(s: State) {
    && |s.queue| <= MAX_SEND_QUEUE && |s.queue| <= |s.accepted|
    && s.queue == s.accepted[Front(s)..]
  }

  /** The packet the sender holds. */
  predicate InFlight(s: State, i: nat) {
    (s.sender.Taken? || s.sender.Sending?) && s.sender.packet == i
  }

  predicate Sent(s: State, i: nat) {
    i in s.sent
  }

  /** Every accepted packet is exactly one of queued, in flight, sent and dropped. */
  ghost predicate Accounted(s: State) {
    && (forall i: nat :: Sent(s, i) || i in s.dropped || InFlight(s, i) ==> i < Front(s))
    && (forall i: nat :: i < Front(s) ==> Sent(s, i) || i in s.dropped || InFlight(s, i))
    && (forall i: nat :: !(Sent(s, i) && i in s.dropped))
    && (forall i: nat :: InFlight(s, i) ==> !Sent(s, i) && i !in s.dropped)
    && s.lost == {} && s.discarded == 0
  }

  /** Packets reach `sendto` in the order they were accepted. */
  predicate InOrder(s: State) {
    && (forall j, k :: 0 <= j < k < |s.sent| ==> s.sent[j] < s.sent[k])
    && (forall j :: 0 <= j < |s.sent| && (s.sender.Taken? || s.sender.Sending?) ==> s.sent[j] < s.sender.packet)
  }

  /** A dropped packet had at least as many successors as the queue can hold. */
  predicate DropsAreStale(s: State) {
    forall i :: i in s.dropped ==> i + MAX_SEND_QUEUE < |s.accepted|
  }

  /** A packet is handed over on the socket that is open. */
  predicate SendsOnOpenSocket(s: State) {
    s.sender.Sending? ==> s.sender.valid
  }

  /** A sleeping sender that has something to do has a notification coming. */
  predicate NoLostWakeup(s: State) {
    s.sender == Asleep && (s.queue != [] || !s.sendRunning) ==> s.notifies > 0 || s.control == Cleared
  }

  predicate FlagCleared(s: State) {
    s.control == Cleared || s.control == Joining || s.control == Joined || s.control == Closed
  }

  /** Once the flag is cleared nothing is accepted and nothing is dropped any more. */
  predicate DrainsOnly(s: State) {
    FlagCleared(s) ==>
      && s.clearedAt == |s.accepted| && s.clearedFront <= Front(s)
      && (forall i :: i in s.dropped ==> i < s.clearedFront)
  }

  ghost predicate Inv(s: State) {
    && Phases(s) && QueueIsSuffix(s) && Accounted(s) && InOrder(s) && DropsAreStale(s)
    && SendsOnOpenSocket(s) && NoLostWakeup(s) && DrainsOnly(s)
  }

  lemma StepKeepsPhases(s: State, step: Step)
    requires Inv(s) && Enabled(s, step)
    ensures Phases(Next(s, step)) && SendsOnOpenSocket(Next(s, step))
  {
  }

  lemma StepKeepsQueue(s: State, step: Step)
    requires Inv(s) && Enabled(s, step)
    ensures QueueIsSuffix(Next(s, step)) && DropsAreStale(Next(s, step))
  {
    if step.Push? {
      PushKeepsSuffix(s.(admitted := s.admitted - multiset{step.p}), step.p);
    } else if step.SenderCheck? && s.queue != [] {
      TakeKeepsSuffix(s, Next(s, step));
    } else {
      SameQueue(s, Next(s, step));
    }
  }

  lemma SameQueue(s: State, s': State)
    requires QueueIsSuffix(s) && DropsAreStale(s)
    requires s'.queue == s.queue && s'.accepted == s.accepted && s'.dropped == s.dropped
    ensures QueueIsSuffix(s') && DropsAreStale(s')
  {
  }

  lemma TakeKeepsSuffix(s: State, s': State)
    requires QueueIsSuffix(s) && DropsAreStale(s) && s.queue != []
    requires s'.queue == s.queue[1..] && s'.accepted == s.accepted && s'.dropped == s.dropped
    ensures QueueIsSuffix(s') && DropsAreStale(s')
  {
    assert s.queue[1..] == s.accepted[Front(s) + 1..];
  }

  lemma PushKeepsSuffix(s: State, p: Datagram)
    requires QueueIsSuffix(s) && DropsAreStale(s)
    ensures QueueIsSuffix(Pushed(s, p)) && DropsAreStale(Pushed(s, p))
  {
    var front := Front(s);
    var accepted := s.accepted + [p];
    assert accepted[front..] == s.queue + [p];
    if s.queue != [] {
      assert accepted[front + 1..] == s.queue[1..] + [p];
    }
  }

  lemma StepKeepsAccounts(s: State, step: Step)
    requires Inv(s) && Enabled(s, step)
    ensures Accounted(Next(s, step))
  {
    if step.SenderSend? {
      SendKeepsAccounts(s);
    } else if step.Push? {
      var s0 := s.(admitted := s.admitted - multiset{step.p});
      SameAccounts(s, s0);
      PushKeepsAccounts(s0, step.p);
    } else if step.SenderCheck? && s.queue != [] {
      TakeKeepsAccounts(s);
    } else {
      var s' := Next(s, step);
      assert Front(s') == Front(s);
      SameAccounts(s, s');
    }
  }

  lemma SameAccounts(s: State, s': State)
    requires Accounted(s) && Front(s') == Front(s)
    requires s'.sent == s.sent && s'.dropped == s.dropped && s'.lost == {} && s'.discarded == 0
    requires s'.sender == s.sender || !(s.sender.Taken? || s.sender.Sending? || s'.sender.Taken? || s'.sender.Sending?)
             || (s.sender.Taken? && s'.sender.Sending? && s'.sender.packet == s.sender.packet)
    ensures Accounted(s')
  {
    assert forall i: nat :: Sent(s', i) == Sent(s, i);
    assert forall i: nat :: InFlight(s', i) == InFlight(s, i);
  }

  lemma PushKeepsAccounts(s: State, p: Datagram)
    requires Accounted(s) && QueueIsSuffix(s)
    ensures Accounted(Pushed(s, p))
  {
    var s' := Pushed(s, p);
    assert forall i: nat :: Sent(s', i) == Sent(s, i);
    assert forall i: nat :: InFlight(s', i) == InFlight(s, i);
    if s.sendRunning && |s.queue| >= MAX_SEND_QUEUE {
      assert Front(s') == Front(s) + 1 && s'.dropped == s.dropped + {Front(s)};
    } else {
      assert Front(s') == Front(s);
    }
  }

  lemma TakeKeepsAccounts(s: State)
    requires Inv(s) && s.sender == Checking && s.queue != []
    ensures Accounted(Next(s, SenderCheck))
  {
    var s' := Next(s, SenderCheck);
    assert Front(s') == Front(s) + 1;
    assert forall i: nat :: Sent(s', i) == Sent(s, i);
    assert forall i: nat :: InFlight(s', i) <==> i == Front(s);
  }

  lemma SendKeepsAccounts(s: State)
    requires Inv(s) && s.sender.Sending?
    ensures Accounted(Next(s, SenderSend))
  {
    var s' := Next(s, SenderSend);
    assert forall i: nat :: Sent(s', i) <==> Sent(s, i) || InFlight(s, i);
    assert forall i: nat :: !InFlight(s', i);
  }

  lemma StepKeepsOrder(s: State, step: Step)
    requires Inv(s) && Enabled(s, step)
    ensures InOrder(Next(s, step))
  {
    if step.SenderSend? || (step.SenderCheck? && s.queue != []) {
      HandingKeepsOrder(s, step);
    } else {
      SameOrder(s, Next(s, step));
    }
  }

  lemma SameOrder(s: State, s': State)
    requires InOrder(s) && s'.sent == s.sent
    requires s'.sender == s.sender || !(s'.sender.Taken? || s'.sender.Sending?)
             || (s.sender.Taken? && s'.sender.Sending? && s'.sender.packet == s.sender.packet)
    ensures InOrder(s')
  {
  }

  lemma HandingKeepsOrder(s: State, step: Step)
    requires InOrder(s) && Accounted(s) && SendsOnOpenSocket(s) && Enabled(s, step)
    requires step.SenderSend? || (step.SenderCheck? && s.queue != [])
    ensures InOrder(Next(s, step))
  {
    forall j | 0 <= j < |s.sent| ensures s.sent[j] < Front(s) {
      assert Sent(s, s.sent[j]);
    }
  }

  lemma StepKeepsWakeups(s: State, step: Step)
    requires Inv(s) && Enabled(s, step)
    ensures NoLostWakeup(Next(s, step))
  {
  }

  lemma StepKeepsDraining(s: State, step: Step)
    requires Inv(s) && Enabled(s, step)
    ensures DrainsOnly(Next(s, step))
  {
    if step == StopClear {
      ClearStartsDrain(s);
    } else if FlagCleared(Next(s, step)) {
      DrainGoesOn(s, Next(s, step));
    }
  }

  lemma ClearStartsDrain(s: State)
    requires Accounted(s) && Enabled(s, StopClear)
    ensures DrainsOnly(Next(s, StopClear))
  {
  }

  lemma DrainGoesOn(s: State, s': State)
    requires DrainsOnly(s) && FlagCleared(s) && s'.accepted == s.accepted && s'.dropped == s.dropped
    requires s'.clearedAt == s.clearedAt && s'.clearedFront == s.clearedFront && Front(s) <= Front(s')
    ensures DrainsOnly(s')
  {
  }

  lemma StepKeepsInv(s: State, step: Step)
    requires Inv(s) && Enabled(s, step)
    ensures Inv(Next(s, step))
  {
    StepKeepsPhases(s, step);
    StepKeepsQueue(s, step);
    StepKeepsAccounts(s, step);
    StepKeepsOrder(s, step);
    StepKeepsWakeups(s, step);
    StepKeepsDraining(s, step);
  }

  // ---- runs ------------------------------------------------------------------

  function Stepped(s: State, step: Step): State {
    if Enabled(s, step) then Next(s, step) else s
  }

  /** The first `n` steps can be taken one after the other, from the start. */
  predicate CanRun(steps: seq<Step>, n: nat)
    requires n <= |steps|
  {
    Runs.AllAllowed(INITIAL, Stepped, steps, n, Enabled)
  }

  function After(steps: seq<Step>, n: nat): State
    requires n <= |steps|
  {
    Runs.After(INITIAL, Stepped, steps, n)
  }

  /** Every interleaving, any number of starts and stops: the invariant holds after each step. */
  lemma EveryRunIsSafe(steps: seq<Step>, n: nat)
    requires n <= |steps| && CanRun(steps, n)
    ensures Inv(After(steps, n))
  {
    StepsKeepInv();
    Runs.EveryRunKeeps(INITIAL, Stepped, steps, n, Inv, Enabled);
  }

  lemma StepsKeepInv()
    ensures Inv(INITIAL) && Runs.Keeps(Stepped, Inv, Enabled)
  {
    forall s: State, step | Inv(s) && Enabled(s, step) ensures Inv(Stepped(s, step)) {
      StepKeepsInv(s, step);
    }
  }

  /** When the sender has been joined, every packet that was queued when the flag was cleared has been
      handed to `sendto`, every other one was handed over or dropped earlier, nothing was accepted
      since, and the final `clear()` finds an empty queue. */
  lemma StopDrains(steps: seq<Step>, n: nat)
    requires n <= |steps| && CanRun(steps, n)
    ensures var s := After(steps, n);
            s.control == Joined || s.control == Closed ==>
            && (forall i: nat :: s.clearedFront <= i < |s.accepted| ==> Sent(s, i))
            && (forall i: nat :: i < |s.accepted| ==> Sent(s, i) || i in s.dropped)
            && |s.accepted| == s.clearedAt && s.queue == []
  {
    EveryRunIsSafe(steps, n);
    var s := After(steps, n);
    if s.control == Joined || s.control == Closed {
      forall i: nat | i < |s.accepted| ensures Sent(s, i) || i in s.dropped {
        assert i < Front(s) && !InFlight(s, i);
      }
    }
  }

  /** Every packet that was accepted before `s` still is. */
  lemma AcceptedOnlyGrows(steps: seq<Step>, n: nat, m: nat)
    requires n <= m <= |steps| && CanRun(steps, m)
    ensures After(steps, n).accepted <= After(steps, m).accepted
  {
    var before := After(steps, n).accepted;
    var kept := (s: State) => before <= s.accepted;
    forall s: State, step | kept(s) && Enabled(s, step) ensures kept(Stepped(s, step)) {
      StepOnlyAccepts(s, step);
    }
    Runs.LaterKeeps(INITIAL, Stepped, steps, n, m, kept, Enabled);
  }

  lemma StepOnlyAccepts(s: State, step: Step)
    requires Enabled(s, step)
    ensures s.accepted <= Next(s, step).accepted
    ensures step.Push? && s.sendRunning ==> Next(s, step).accepted == s.accepted + [step.p]
  {
  }

  /** What becomes of a packet that is pushed while the flag is set: at any later point of the run it has
      been sent, has had so many successors that it had to make room, or is still with the sender or in
      the queue; and when `stop` has joined, one of the first two. */
  lemma PushedIsSentOrStale(steps: seq<Step>, k: nat, n: nat, p: Datagram)
    requires k < n <= |steps| && CanRun(steps, n) && steps[k] == Push(p) && After(steps, k).sendRunning
    ensures var s, i := After(steps, n), |After(steps, k).accepted|;
            && i < |s.accepted| && s.accepted[i] == p
            && (Sent(s, i) || i + 1024 < |s.accepted| || InFlight(s, i) || Front(s) <= i)
            && (s.control == Joined || s.control == Closed ==> Sent(s, i) || i + 1024 < |s.accepted|)
            && |s.queue| <= 1024
  {
    QueueIsBounded(steps, n);
    PushedIsAccepted(steps, k, n, p);
    WhereItIs(steps, n, |After(steps, k).accepted|);
  }

  lemma QueueIsBounded(steps: seq<Step>, n: nat)
    requires n <= |steps| && CanRun(steps, n)
    ensures |After(steps, n).queue| <= 1024
  {
    EveryRunIsSafe(steps, n);
  }

  lemma PushedIsAccepted(steps: seq<Step>, k: nat, n: nat, p: Datagram)
    requires k < n <= |steps| && CanRun(steps, n) && steps[k] == Push(p) && After(steps, k).sendRunning
    ensures var s, i := After(steps, n), |After(steps, k).accepted|;
            i < |s.accepted| && s.accepted[i] == p
  {
    PushAccepts(steps, k, n, p);
    AcceptedOnlyGrows(steps, k + 1, n);
    Includes(After(steps, k).accepted, p, After(steps, k + 1).accepted, After(steps, n).accepted);
  }

  lemma PushAccepts(steps: seq<Step>, k: nat, n: nat, p: Datagram)
    requires k < n <= |steps| && CanRun(steps, n) && steps[k] == Push(p) && After(steps, k).sendRunning
    ensures After(steps, k + 1).accepted == After(steps, k).accepted + [p]
  {
    Runs.AllowedBefore(INITIAL, Stepped, steps, k, n, Enabled);
    StepOnlyAccepts(After(steps, k), steps[k]);
  }

  lemma Includes(before: seq<Datagram>, p: Datagram, after: seq<Datagram>, later: seq<Datagram>)
    requires after == before + [p] && after <= later
    ensures |before| < |later| && later[|before|] == p
  {
    assert later[|before|] == after[|before|];
  }

  lemma WhereItIs(steps: seq<Step>, n: nat, i: nat)
    requires n <= |steps| && CanRun(steps, n) && i < |After(steps, n).accepted|
    ensures var s := After(steps, n);
            && (Sent(s, i) || i + MAX_SEND_QUEUE < |s.accepted| || InFlight(s, i) || Front(s) <= i)
            && (s.control == Joined || s.control == Closed ==> Sent(s, i) || i + MAX_SEND_QUEUE < |s.accepted|)
  {
    EveryRunIsSafe(steps, n);
    GoodPlace(After(steps, n), i);
  }

  lemma GoodPlace(s: State, i: nat)
    requires Inv(s) && i < |s.accepted|
    ensures Sent(s, i) || i + MAX_SEND_QUEUE < |s.accepted| || InFlight(s, i) || Front(s) <= i
    ensures s.control == Joined || s.control == Closed ==> Sent(s, i) || i + MAX_SEND_QUEUE < |s.accepted|
  {
    if i < Front(s) {
      assert Sent(s, i) || i in s.dropped || InFlight(s, i);
    }
  }

  /** The sender's next step, and how many it still needs to the end of a drain. */
  function SenderStep(s: State): Step {
    match s.sender
    case Taken(_) => SenderReadSocket
    case Sending(_, _) => SenderSend
    case _ => SenderCheck
  }

  function StepsToExit(s: State): nat {
    3 * |s.queue| + match s.sender
                    case Taken(_) => 3
                    case Sending(_, _) => 2
                    case Checking => 1
                    case _ => 0
  }

  predicate BySender(step: Step) {
    step.SenderCheck? || step.SenderReadSocket? || step.SenderSend?
  }

  /** How many of the steps from the `n`-th to before the `m`-th the sender takes. */
  function SenderSteps(steps: seq<Step>, n: nat, m: nat): nat
    requires n <= m <= |steps|
    decreases m
  {
    if n == m then 0 else SenderSteps(steps, n, m - 1) + if BySender(steps[m - 1]) then 1 else 0
  }

  /** While `stop` joins, each step of the sender brings it closer to its exit, and no step of any other
      thread takes it back. */
  lemma JoiningStep(s: State, step: Step)
    requires Inv(s) && s.control == Joining && Enabled(s, step) && step != StopJoin
    ensures Next(s, step).control == Joining
    ensures StepsToExit(Next(s, step)) + (if BySender(step) then 1 else 0) <= StepsToExit(s)
  {
  }

  /** And until it has exited it can always step. */
  lemma ExitedIffNoSteps(s: State)
    requires Inv(s) && s.control == Joining
    ensures s.sender == Exited <==> StepsToExit(s) == 0
    ensures s.sender != Exited ==> Enabled(s, SenderStep(s)) && BySender(SenderStep(s))
    ensures StepsToExit(s) <= 3 * MAX_SEND_QUEUE + 3
  {
  }

  /** `stop` never waits in vain: from any point of a run at which it joins, until it has joined, the sender
      takes at most `StepsToExit` steps, whatever the other threads do in between; when it has taken that
      many it has exited, and until it has it can take one. */
  lemma {:induction false} JoinComesToAnEnd(steps: seq<Step>, n: nat, m: nat)
    requires n <= m <= |steps| && CanRun(steps, m) && After(steps, n).control == Joining
    requires forall k :: n <= k < m ==> steps[k] != StopJoin
    ensures After(steps, m).control == Joining
    ensures SenderSteps(steps, n, m) + StepsToExit(After(steps, m)) <= StepsToExit(After(steps, n))
    ensures SenderSteps(steps, n, m) == StepsToExit(After(steps, n)) ==> After(steps, m).sender == Exited
    ensures After(steps, m).sender != Exited ==> Enabled(After(steps, m), SenderStep(After(steps, m)))
    ensures StepsToExit(After(steps, n)) <= 3 * MAX_SEND_QUEUE + 3
    decreases m
  {
    if n < m {
      var s, step := Before(steps, m);
      JoinComesToAnEnd(steps, n, m - 1);
      JoiningStep(s, step);
    }
    Joins(steps, n, m);
    Joins(steps, m, m);
  }

  /** The state in front of the last of `m` steps, and that step. */
  lemma Before(steps: seq<Step>, m: nat) returns (s: State, step: Step)
    requires 0 < m <= |steps| && CanRun(steps, m)
    ensures s == After(steps, m - 1) && step == steps[m - 1] && CanRun(steps, m - 1)
    ensures Inv(s) && Enabled(s, step) && After(steps, m) == Next(s, step)
  {
    Runs.AllowedBefore(INITIAL, Stepped, steps, m - 1, m, Enabled);
    EveryRunIsSafe(steps, m - 1);
    s, step := After(steps, m - 1), steps[m - 1];
  }

  lemma Joins(steps: seq<Step>, n: nat, m: nat)
    requires n <= m <= |steps| && CanRun(steps, m) && After(steps, n).control == Joining
    ensures After(steps, n).sender == Exited <==> StepsToExit(After(steps, n)) == 0
    ensures After(steps, n).sender != Exited ==> Enabled(After(steps, n), SenderStep(After(steps, n)))
    ensures StepsToExit(After(steps, n)) <= 3 * MAX_SEND_QUEUE + 3
  {
    Runs.AllowedBefore(INITIAL, Stepped, steps, n, m, Enabled);
    EveryRunIsSafe(steps, n);
    var s := After(steps, n);
    ExitedIffNoSteps(s);
  }

  // ---- what every datagram can count on ---------------------------------------

  predicate Sendable(p: Datagram) {
    p.to.len != 0 && p.data != []
  }

  /** While the server runs, `enqueue` gets every datagram with an address and data into the queue: it
      passes the socket check, may take the lock, and then it is the newest packet, with a notification
      on its way. */
  lemma EnqueueAccepts(s: State, p: Datagram)
    requires Inv(s) && s.socketValid && s.sendRunning && LockFree(s) && Sendable(p)
    ensures Enabled(s, CheckSocket(p))
    ensures var checked := Next(s, CheckSocket(p));
            && Enabled(checked, Push(p))
            && var s' := Next(checked, Push(p));
               && s'.accepted == s.accepted + [p] && s'.queue != [] && s'.queue[|s'.queue| - 1] == p
               && s'.notifies == s.notifies + 1 && s'.sent == s.sent && s'.control == s.control
               && s'.admitted == s.admitted
  {
    assert s.admitted + multiset{p} - multiset{p} == s.admitted;
  }

  /** And nothing has to make room for it while there are fewer than 1024 in front of it. */
  lemma RoomForMore(s: State, p: Datagram)
    requires s.sendRunning && |s.queue| < 1024
    ensures Pushed(s, p).queue == s.queue + [p] && Pushed(s, p).dropped == s.dropped
  {
  }

  /** Without a socket, or once the flag is cleared, nothing gets in; a datagram without an address or
      without data never passes. */
  lemma EnqueueRefuses(s: State, p: Datagram)
    ensures Enabled(s, CheckSocket(p)) <==> Sendable(p)
    ensures Enabled(s, CheckSocket(p)) && !s.socketValid ==> Next(s, CheckSocket(p)) == s
    ensures Enabled(s, Push(p)) && !s.sendRunning ==>
              Next(s, Push(p)) == s.(admitted := s.admitted - multiset{p})
  {
  }

  /** `send_mutex` excludes: while the sender holds it with a packet in hand, nobody pushes, starts or stops,
      and at any other time nobody waits for it. */
  lemma LockExcludes(s: State, p: Datagram)
    ensures s.sender.Taken? ==> !Enabled(s, Push(p)) && !Enabled(s, StartFlag) && !Enabled(s, StopClear)
                                && !Enabled(s, StopFinish)
    ensures !s.sender.Taken? ==>
              && (p in s.admitted ==> Enabled(s, Push(p))) && (s.control == Opened ==> Enabled(s, StartFlag))
              && (s.control == Halting ==> Enabled(s, StopClear)) && (s.control == Closed ==> Enabled(s, StopFinish))
  {
  }

  /** Three steps of a sender that is about to look at a queue with something in it. */
  function SendOne(s: State): State
    requires s.sender == Checking && s.queue != []
  {
    Next(Next(Next(s, SenderCheck), SenderReadSocket), SenderSend)
  }

  /** They hand the oldest packet to `sendto`, and nothing else changes. */
  lemma SenderSendsOldest(s: State) returns (s': State)
    requires Inv(s) && s.sender == Checking && s.queue != [] && s.socketValid
    ensures s' == SendOne(s) && Inv(s')
    ensures s' == s.(queue := s.queue[1..], sent := s.sent + [Front(s)])
    ensures s.accepted[Front(s)] == s.queue[0]
  {
    StepKeepsInv(s, SenderCheck);
    s' := Next(s, SenderCheck);
    StepKeepsInv(s', SenderReadSocket);
    s' := Next(s', SenderReadSocket);
    StepKeepsInv(s', SenderSend);
    s' := Next(s', SenderSend);
  }

  /** The state when the sender alone has gone on until the queue is empty. */
  function Drained(s: State): State
    requires s.sender == Checking
    decreases |s.queue|
  {
    if s.queue == [] then s else Drained(SendOne(s))
  }

  function Upwards(i: nat, n: nat): seq<nat> {
    seq(n, k => i + k)
  }

  /** Left to itself, the sender sends everything that is queued, oldest first. */
  lemma {:induction false} SenderDrains(s: State) returns (s': State)
    requires Inv(s) && s.sender == Checking && s.socketValid
    ensures s' == Drained(s)
    ensures s' == s.(queue := [], sent := s.sent + Upwards(Front(s), |s.queue|))
    decreases |s.queue|
  {
    if s.queue != [] {
      var s1 := SenderSendsOldest(s);
      s' := SenderDrains(s1);
      var i, n := Front(s), |s.queue|;
      assert Front(s1) == i + 1 && |s1.queue| == n - 1;
      assert s'.sent == s.sent + [i] + Upwards(i + 1, n - 1);
      OneUp(s.sent, i, n);
    } else {
      s' := s;
      assert s.sent + Upwards(Front(s), 0) == s.sent;
    }
  }

  lemma OneUp(sent: seq<nat>, i: nat, n: nat)
    requires n > 0
    ensures sent + [i] + Upwards(i + 1, n - 1) == sent + Upwards(i, n)
  {
  }

  /** A sleeping sender that is notified looks at the queue, and it may wake up by itself. */
  lemma SleeperLooks(s: State)
    requires s.sender == Asleep
    ensures s.notifies > 0 ==> Enabled(s, NotifyOne) && Next(s, NotifyOne).sender == Checking
    ensures Enabled(s, SpuriousWake) && Next(s, SpuriousWake).sender == Checking
  {
  }

  /** `start` and `stop` go on from wherever they have got to, as soon as they have the lock and, to join,
      the sender has exited; and after a stop there can be another start. */
  lemma ControlGoesOn(s: State)
    requires LockFree(s) && (s.control == Joining ==> s.sender == Exited)
    ensures exists step :: Enabled(s, step) && !BySender(step) && Next(s, step).control == Following(s.control)
  {
    var step := match s.control
      case Stopped => StartOpen
      case Opened => StartFlag
      case Flagged => StartThread
      case Running => StopBegin
      case Halting => StopClear
      case Cleared => StopNotify
      case Joining => StopJoin
      case Joined => StopClose
      case Closed => StopFinish;
    assert Enabled(s, step) && !BySender(step) && Next(s, step).control == Following(s.control);
  }

  /** The round of `start` and `stop`. */
  function Following(c: Control): Control {
    match c
    case Stopped => Opened
    case Opened => Flagged
    case Flagged => Running
    case Running => Halting
    case Halting => Cleared
    case Cleared => Joining
    case Joining => Joined
    case Joined => Closed
    case Closed => Stopped
  }

  // ---- a whole run -----------------------------------------------------------

  /** The first `n` steps can be taken and lead to `s`. */
  predicate LeadsTo(steps: seq<Step>, n: nat, s: State) {
    n <= |steps| && CanRun(steps, n) && After(steps, n) == s
  }

  lemma OneMore(steps: seq<Step>, n: nat, step: Step, s: State, s': State)
    requires n < |steps| && steps[n] == step && LeadsTo(steps, n, s) && Enabled(s, step) && Next(s, step) == s'
    ensures LeadsTo(steps, n + 1, s')
  {
    Runs.OneMore(INITIAL, Stepped, steps, n, Enabled);
  }

  /** Serving, with nothing in the queue and the sender asleep. */
  const IDLE: State := State(Running, Asleep, true, true, [], multiset{}, 0, [], [], {}, {}, 0, 0, 0)

  lemma GetsIdle(steps: seq<Step>)
    requires |steps| >= 4 && steps[0] == StartOpen && steps[1] == StartFlag
    requires steps[2] == StartThread && steps[3] == SenderCheck
    ensures LeadsTo(steps, 4, IDLE)
  {
    var open := INITIAL.(control := Opened, socketValid := true);
    var flagged := open.(control := Flagged, sendRunning := true);
    var running := flagged.(control := Running, sender := Checking);
    OneMore(steps, 0, StartOpen, INITIAL, open);
    OneMore(steps, 1, StartFlag, open, flagged);
    OneMore(steps, 2, StartThread, flagged, running);
    OneMore(steps, 3, SenderCheck, running, IDLE);
  }

  function QueuedAfter(p: Datagram): State {
    IDLE.(sender := Checking, queue := [p], accepted := [p])
  }

  lemma GetsQueued(steps: seq<Step>, p: Datagram)
    requires |steps| >= 7 && LeadsTo(steps, 4, IDLE) && Sendable(p)
    requires steps[4] == CheckSocket(p) && steps[5] == Push(p) && steps[6] == NotifyOne
    ensures LeadsTo(steps, 7, QueuedAfter(p))
  {
    var checked := IDLE.(admitted := multiset{p});
    var pushed := IDLE.(queue := [p], accepted := [p], notifies := 1);
    assert multiset{p} - multiset{p} == multiset{};
    OneMore(steps, 4, CheckSocket(p), IDLE, checked);
    OneMore(steps, 5, Push(p), checked, pushed);
    OneMore(steps, 6, NotifyOne, pushed, QueuedAfter(p));
  }

  /** Serving again, after the datagram has been sent. */
  function IdleAfter(p: Datagram): State {
    IDLE.(accepted := [p], sent := [0])
  }

  lemma GetsSent(steps: seq<Step>, p: Datagram)
    requires |steps| >= 11 && LeadsTo(steps, 7, QueuedAfter(p))
    requires steps[7] == SenderCheck && steps[8] == SenderReadSocket
    requires steps[9] == SenderSend && steps[10] == SenderCheck
    ensures LeadsTo(steps, 11, IdleAfter(p))
  {
    var taken := IDLE.(sender := Taken(0), accepted := [p]);
    var sending := IDLE.(sender := Sending(0, true), accepted := [p]);
    var sent := IDLE.(sender := Checking, accepted := [p], sent := [0]);
    OneMore(steps, 7, SenderCheck, QueuedAfter(p), taken);
    OneMore(steps, 8, SenderReadSocket, taken, sending);
    OneMore(steps, 9, SenderSend, sending, sent);
    OneMore(steps, 10, SenderCheck, sent, IdleAfter(p));
  }

  /** Waiting for the sender, which has nothing left to do. */
  function JoiningAfter(p: Datagram): State {
    State(Joining, Checking, true, false, [], multiset{}, 0, [p], [0], {}, {}, 0, 1, 1)
  }

  lemma GetsJoining(steps: seq<Step>, p: Datagram)
    requires |steps| >= 14 && LeadsTo(steps, 11, IdleAfter(p))
    requires steps[11] == StopBegin && steps[12] == StopClear && steps[13] == StopNotify
    ensures LeadsTo(steps, 14, JoiningAfter(p))
  {
    var halting := IdleAfter(p).(control := Halting);
    var cleared := halting.(control := Cleared, sendRunning := false, clearedAt := 1, clearedFront := 1);
    OneMore(steps, 11, StopBegin, IdleAfter(p), halting);
    OneMore(steps, 12, StopClear, halting, cleared);
    OneMore(steps, 13, StopNotify, cleared, JoiningAfter(p));
  }

  function StoppedAfter(p: Datagram): State {
    State(Stopped, NoThread, false, false, [], multiset{}, 0, [p], [0], {}, {}, 0, 1, 1)
  }

  lemma GetsStopped(steps: seq<Step>, p: Datagram)
    requires |steps| >= 18 && LeadsTo(steps, 14, JoiningAfter(p))
    requires steps[14] == SenderCheck && steps[15] == StopJoin && steps[16] == StopClose && steps[17] == StopFinish
    ensures LeadsTo(steps, 18, StoppedAfter(p))
  {
    var exited := JoiningAfter(p).(sender := Exited);
    var joined := StoppedAfter(p).(control := Joined, socketValid := true);
    var closed := StoppedAfter(p).(control := Closed);
    OneMore(steps, 14, SenderCheck, JoiningAfter(p), exited);
    OneMore(steps, 15, StopJoin, exited, joined);
    OneMore(steps, 16, StopClose, joined, closed);
    OneMore(steps, 17, StopFinish, closed, StoppedAfter(p));
  }

  /** The server starts, one datagram is enqueued and sent, and the server stops. */
  predicate OneDatagram(steps: seq<Step>, p: Datagram) {
    && |steps| == 18
    && steps[0] == StartOpen && steps[1] == StartFlag && steps[2] == StartThread && steps[3] == SenderCheck
    && steps[4] == CheckSocket(p) && steps[5] == Push(p) && steps[6] == NotifyOne
    && steps[7] == SenderCheck && steps[8] == SenderReadSocket && steps[9] == SenderSend && steps[10] == SenderCheck
    && steps[11] == StopBegin && steps[12] == StopClear && steps[13] == StopNotify
    && steps[14] == SenderCheck && steps[15] == StopJoin && steps[16] == StopClose && steps[17] == StopFinish
  }

  /** For every datagram with an address and data there is a run on which the server starts, takes it,
      sends it and stops: this one. */
  lemma DatagramGetsThrough(steps: seq<Step>, p: Datagram)
    requires OneDatagram(steps, p) && Sendable(p)
    ensures LeadsTo(steps, 18, StoppedAfter(p))
  {
    GetsIdle(steps);
    GetsQueued(steps, p);
    GetsSent(steps, p);
    GetsJoining(steps, p);
    GetsStopped(steps, p);
  }

  // ---- the class -------------------------------------------------------------

  datatype Outcome = Sleep | Exit | Take(packet: Datagram)

  /** The fields behind the two mutexes, and the protocol state they belong to. */
  class Impl {
    var fdValid: bool
    var sendRunning: bool
    var sendQueue: seq<Datagram>
    ghost var state: State

    ghost predicate Valid()
      reads this
    {
      fdValid == state.socketValid && sendRunning == state.sendRunning && sendQueue == state.queue && Inv(state)
    }

    constructor ()
      ensures Valid() && state == INITIAL
    {
      fdValid, sendRunning, sendQueue := false, false, [];
      state := INITIAL;
    }

    /** `start` has a socket. */
    method OpenSocket()
      requires Valid() && Enabled(state, StartOpen)
      modifies this
      ensures Valid() && state == Next(old(state), StartOpen) && fdValid
    {
      StepKeepsInv(state, StartOpen);
      state := Next(state, StartOpen);
      fdValid := true;
    }

    /** `start` under `send_mutex`. */
    method SetFlag()
      requires Valid() && Enabled(state, StartFlag)
      modifies this
      ensures Valid() && state == Next(old(state), StartFlag) && sendRunning
    {
      StepKeepsInv(state, StartFlag);
      state := Next(state, StartFlag);
      sendRunning := true;
    }

    /** `enqueue` under `target_mutex`: whether to go on to the queue. */
    method CheckSocketFor(target: SockAddr, data: seq<byte>) returns (goOn: bool)
      requires Valid()
      modifies this`state
      ensures Valid()
      ensures goOn == (target.len != 0 && data != [] && fdValid)
      ensures state.admitted == old(state.admitted) + if goOn then multiset{Datagram(target, data)} else multiset{}
      ensures state == if target.len != 0 && data != [] then Next(old(state), CheckSocket(Datagram(target, data)))
                       else old(state)
    {
      if target.len == 0 || |data| == 0 {
        return false;
      }
      StepKeepsInv(state, CheckSocket(Datagram(target, data)));
      state := Next(state, CheckSocket(Datagram(target, data)));
      return fdValid;
    }

    /** `enqueue` under `send_mutex`: whether to notify. */
    method PushLocked(p: Datagram) returns (wake: bool)
      requires Valid() && Enabled(state, Push(p))
      modifies this
      ensures Valid() && state == Next(old(state), Push(p))
      ensures wake == old(sendRunning)
      ensures wake ==> sendQueue == old(sendQueue)[if old(|sendQueue|) >= MAX_SEND_QUEUE then 1 else 0..] + [p]
      ensures !wake ==> sendQueue == old(sendQueue)
    {
      StepKeepsInv(state, Push(p));
      state := Next(state, Push(p));
      if !sendRunning {
        return false;
      }
      if |sendQueue| >= MAX_SEND_QUEUE {
        sendQueue := sendQueue[1..];
      }
      sendQueue := sendQueue + [p];
      return true;
    }

    /** The head of `send_loop`: the wait condition and, when there is one, the packet it pops. */
    method WaitOrTake() returns (r: Outcome)
      requires Valid() && Enabled(state, SenderCheck)
      modifies this
      ensures Valid() && state == Next(old(state), SenderCheck)
      ensures r == if old(sendQueue) != [] then Take(old(sendQueue)[0]) else if sendRunning then Sleep else Exit
    {
      StepKeepsInv(state, SenderCheck);
      state := Next(state, SenderCheck);
      if |sendQueue| == 0 && sendRunning {
        return Sleep;
      }
      if |sendQueue| == 0 {
        return Exit;
      }
      r := Take(sendQueue[0]);
      sendQueue := sendQueue[1..];
    }

    /** The socket `send_loop` reads, both mutexes held, for the packet it has popped: always the open one. */
    method ReadSocket() returns (valid: bool)
      requires Valid() && Enabled(state, SenderReadSocket)
      modifies this`state
      ensures Valid() && state == Next(old(state), SenderReadSocket)
      ensures valid && valid == fdValid
    {
      StepKeepsInv(state, SenderReadSocket);
      state := Next(state, SenderReadSocket);
      return fdValid;
    }

    /** `stop` under `send_mutex`. */
    method ClearFlag()
      requires Valid() && Enabled(state, StopClear)
      modifies this
      ensures Valid() && state == Next(old(state), StopClear) && !sendRunning
    {
      StepKeepsInv(state, StopClear);
      state := Next(state, StopClear);
      sendRunning := false;
    }

    /** `stop` under `target_mutex`, after the join. */
    method CloseSocket()
      requires Valid() && Enabled(state, StopClose)
      modifies this
      ensures Valid() && state == Next(old(state), StopClose) && !fdValid
    {
      StepKeepsInv(state, StopClose);
      state := Next(state, StopClose);
      fdValid := false;
    }

    /** The final `clear()` of `stop`: there is nothing left to clear. */
    method ClearQueue()
      requires Valid() && Enabled(state, StopFinish)
      modifies this
      ensures Valid() && state == Next(old(state), StopFinish)
      ensures old(sendQueue) == [] == sendQueue
    {
      StepKeepsInv(state, StopFinish);
      state := Next(state, StopFinish);
      sendQueue := [];
    }
  }
}
