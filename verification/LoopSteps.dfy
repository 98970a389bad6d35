// The cross-thread protocol of the event loop as interleaved atomic steps: functors are pushed under
// the mutex, the wakeup descriptor is written, polled and cleared, and the pending functors are swapped
// out and run.
module LoopSteps {
  type Functor = nat
  type Thread = nat

  /** The thread that runs the loop; every other number is another thread. */
  const LOOP_THREAD := 0
  /** The largest value an eventfd counter holds: a write that would exceed it fails and changes nothing. */
  const EVENTFD_MAX := 0xffff_ffff_ffff_fffe

  /** Where queueInLoop was called: in another thread, or where the loop thread was in its loop. */
  datatype Origin = Other | InFunctor | InHandler | InTimer | BeforeLoop

  datatype Entry = Entry(f: Functor, origin: Origin)

  /** Where the loop thread is: outside loop(), or at one of the stages of an iteration. */
  datatype Phase = Idle | Timers | Polling | Handling | Swapping | Running | Checking

  /**
   * The loop's shared fields (pending, fd, calling, quit), the loop thread (phase, running: the local
   * functors not run yet, wakeReady: the poll saw the wakeup descriptor), the threads between the lock
   * and the write in queueInLoop with the position of their functor (waking) and in quit (quitting), and
   * history: all functors pushed and run in order, the iterations, and whether a call of quit by another
   * thread has completed.
   */
  datatype State = State(pending: seq<Entry>, fd: nat, calling: bool, quit: bool,
                         phase: Phase, running: seq<Entry>, wakeReady: bool,
                         waking: map<Thread, nat>, quitting: set<Thread>,
                         queued: seq<Entry>, ran: seq<Entry>, iteration: nat, quitDone: bool)

  datatype Action =
    | Push(t: Thread, f: Functor)
    | Wake(t: Thread)
    | Quit(t: Thread)
    | WakeQuit(t: Thread)
    | Start
    | EndTimers
    | PollReturns(otherwise: bool)
    | HandleRead
    | EndHandling
    | Swap
    | RunNext
    | EndFunctors
    | Check

  function Init(): State {
    State([], 0, false, false, Idle, [], false, map[], {}, [], [], 0, false)
  }

  function OriginIn(phase: Phase): Origin {
    match phase
    case Idle => BeforeLoop
    case Timers => InTimer
    case Handling => InHandler
    case _ => InFunctor
  }

  predicate Busy(s: State, t: Thread) {
    t in s.waking || t in s.quitting
  }

  /** User code of the loop thread runs in timers, handlers and functors, and before the loop. */
  predicate CallsOut(phase: Phase) {
    phase == Idle || phase == Timers || phase == Handling || phase == Running
  }

  predicate Enabled(s: State, a: Action) {
    match a
    case Push(t, _) => !Busy(s, t) && (t == LOOP_THREAD ==> CallsOut(s.phase))
    case Wake(t) => t in s.waking
    case Quit(t) => !Busy(s, t) && (t == LOOP_THREAD ==> CallsOut(s.phase))
    case WakeQuit(t) => t in s.quitting
    case PollReturns(otherwise) => s.phase == Polling && (s.fd > 0 || otherwise)
    case Start => s.phase == Idle
    case EndTimers => s.phase == Timers
    case HandleRead => s.phase == Handling && s.wakeReady
    case EndHandling => s.phase == Handling && !s.wakeReady
    case Swap => s.phase == Swapping
    case RunNext => s.phase == Running && !Busy(s, LOOP_THREAD) && s.running != []
    case EndFunctors => s.phase == Running && !Busy(s, LOOP_THREAD) && s.running == []
    case Check => s.phase == Checking
  }

  function Written(fd: nat): nat {
    if fd < EVENTFD_MAX then fd + 1 else fd
  }

  /** queueInLoop up to the unlock; a wakeup follows unless the loop thread is not in doPendingFunctors. */
  function Pushed(s: State, t: Thread, f: Functor): State {
    var e := Entry(f, if t == LOOP_THREAD then OriginIn(s.phase) else Other);
    var wakes := t != LOOP_THREAD || s.calling;
    s.(pending := s.pending + [e], queued := s.queued + [e],
       waking := if wakes then s.waking[t := |s.queued|] else s.waking)
  }

  function Step(s: State, a: Action): State
    requires Enabled(s, a)
  {
    match a
    case Push(t, f) => Pushed(s, t, f)
    case Wake(t) => s.(fd := Written(s.fd), waking := s.waking - {t})
    case Quit(t) => s.(quit := true, quitting := if t != LOOP_THREAD then s.quitting + {t} else s.quitting)
    case WakeQuit(t) => s.(fd := Written(s.fd), quitting := s.quitting - {t}, quitDone := s.quit)
    case Start => s.(phase := Checking, quit := false, quitDone := false)
    case EndTimers => s.(phase := Polling)
    case PollReturns(_) => s.(phase := Handling, wakeReady := s.fd > 0, iteration := s.iteration + 1)
    case HandleRead => s.(fd := 0, wakeReady := false)
    case EndHandling => s.(phase := Swapping, calling := true)
    case Swap => s.(phase := Running, running := s.pending, pending := [])
    case RunNext => s.(running := s.running[1..], ran := s.ran + [s.running[0]])
    case EndFunctors => s.(phase := Checking, calling := false)
    case Check => s.(phase := if s.quit then Idle else Timers)
  }

  /** The states along a run, one action taken from each. */
  ghost predicate Run(states: seq<State>, actions: seq<Action>) {
    && |states| == |actions| + 1
    && forall i :: 0 <= i < |actions| ==> Enabled(states[i], actions[i]) && states[i + 1] == Step(states[i], actions[i])
  }

  ghost predicate Reachable(s: State) {
    exists states, actions :: Run(states, actions) && states[0] == Init() && states[|actions|] == s
  }

  /** The position in queue order from which on functors have not been swapped out. */
  function Taken(s: State): nat {
    |s.ran| + |s.running|
  }

  predicate Wakes(origin: Origin) {
    origin == Other || origin == InFunctor
  }

  /** A functor still pending the queueInLoop call of which has completed. */
  predicate Waiting(s: State, k: nat) {
    Taken(s) <= k < |s.queued| && k !in s.waking.Values
  }

  /** The loop thread is between a swap and the end of the next poll, where nothing clears the descriptor. */
  predicate Armed(s: State) {
    s.phase != Handling && s.phase != Swapping
  }

  ghost predicate Inv(s: State) {
    && s.queued == s.ran + s.running + s.pending
    && (s.calling <==> s.phase == Swapping || s.phase == Running)
    && (s.running != [] ==> s.phase == Running)
    && (s.wakeReady ==> s.phase == Handling)
    && (forall t :: t in s.waking ==> s.waking[t] < |s.queued|)
    && (LOOP_THREAD in s.waking ==> s.phase == Running)
    && LOOP_THREAD !in s.quitting
    && (Armed(s) ==> forall k: nat :: Waiting(s, k) && Wakes(s.queued[k].origin) ==> s.fd > 0)
    && (Armed(s) ==> forall k :: Taken(s) <= k < |s.queued| ==> s.queued[k].origin != InHandler)
    && (s.quitDone ==> s.quit)
    && (s.quitDone && (s.phase == Timers || s.phase == Polling) ==> s.fd > 0)
  }

  lemma PushKeeps(s: State, t: Thread, f: Functor)
    requires Inv(s) && Enabled(s, Push(t, f))
    ensures Inv(Pushed(s, t, f))
  {
    var r := Pushed(s, t, f);
    assert r.queued == r.ran + r.running + r.pending;
    forall k: nat | Waiting(r, k)
      ensures k < |s.queued| ==> Waiting(s, k)
      ensures k == |s.queued| ==> !Wakes(r.queued[k].origin)
    {
      Unmarked(s.waking, t, |s.queued|, k);
    }
  }

  lemma Unmarked(waking: map<Thread, nat>, t: Thread, n: nat, k: nat)
    requires t !in waking
    ensures k in waking[t := n].Values <==> k in waking.Values || k == n
  {
    var marked := waking[t := n];
    assert t in marked && marked[t] == n;
    if k in waking.Values {
      var u :| u in waking && waking[u] == k;
      assert u in marked && marked[u] == k;
    }
  }

  lemma StepKeepsInv(s: State, a: Action)
    requires Inv(s) && Enabled(s, a)
    ensures Inv(Step(s, a))
  {
    match a
    case Push(t, f) => PushKeeps(s, t, f);
    case Wake(t) => WakeKeeps(s, t);
    case RunNext => RunNextKeeps(s);
    case _ =>
  }

  lemma WakeKeeps(s: State, t: Thread)
    requires Inv(s) && Enabled(s, Wake(t))
    ensures Inv(Step(s, Wake(t)))
  {
  }

  lemma RunNextKeeps(s: State)
    requires Inv(s) && Enabled(s, RunNext)
    ensures Inv(Step(s, RunNext))
  {
  }

  lemma {:induction false} RunInv(states: seq<State>, actions: seq<Action>, i: nat)
    requires Run(states, actions) && states[0] == Init() && i <= |actions|
    ensures Inv(states[i])
  {
    if i > 0 {
      RunInv(states, actions, i - 1);
      StepKeepsInv(states[i - 1], actions[i - 1]);
    }
  }

  lemma ReachableInv(s: State)
    requires Reachable(s)
    ensures Inv(s)
  {
    var states, actions :| Run(states, actions) && states[0] == Init() && states[|actions|] == s;
    RunInv(states, actions, |actions|);
  }

  /**
   * No lost wakeup: the poll does not block while a functor is pending whose queueInLoop call, in another
   * thread or in a functor, has completed; nor while a completed quit of another thread is.
   */
  lemma NoLostWakeup(s: State)
    requires Reachable(s) && s.phase == Polling
    ensures (exists k: nat :: Waiting(s, k) && Wakes(s.queued[k].origin)) || s.quitDone ==>
            Enabled(s, PollReturns(false))
  {
    ReachableInv(s);
  }

  /** Functors are run once each in the order they were queued, and the others are still to be run in it. */
  lemma OnceInOrder(s: State)
    requires Reachable(s)
    ensures s.queued == s.ran + s.running + s.pending
    ensures s.ran <= s.queued
  {
    ReachableInv(s);
  }

  /** What event handlers queue is swapped out before the next poll. */
  lemma HandlersSwappedOut(s: State, k: nat)
    requires Reachable(s) && s.phase == Polling && k < |s.queued| && s.queued[k].origin == InHandler
    ensures k < |s.ran| && s.ran[k] == s.queued[k]
  {
    ReachableInv(s);
  }

  /** Blocked in a poll no descriptor ends, with a functor from there pending. */
  ghost predicate Stuck(s: State, origin: Origin) {
    s.phase == Polling && s.fd == 0 && exists k: nat :: Waiting(s, k) && s.queued[k].origin == origin
  }

  lemma InitReachable()
    ensures Reachable(Init())
  {
    var actions: seq<Action> := [];
    assert Run([Init()], actions) && [Init()][|actions|] == Init();
  }

  lemma StepReachable(s: State, a: Action)
    requires Reachable(s) && Enabled(s, a)
    ensures Reachable(Step(s, a))
  {
    hide Enabled, Step;
    var states, actions :| Run(states, actions) && states[0] == Init() && states[|actions|] == s;
    assert Run(states + [Step(s, a)], actions + [a]);
  }

  /**
   * Which functors can be stuck: exactly those the loop thread queues in a timer callback or before the
   * loop, for which queueInLoop writes no wakeup.
   */
  lemma StuckOrigins(origin: Origin)
    ensures (exists s :: Reachable(s) && Stuck(s, origin)) <==> origin == InTimer || origin == BeforeLoop
  {
    hide Init;
    if s :| Reachable(s) && Stuck(s, origin) {
      ReachableInv(s);
    }
    if origin == InTimer {
      TimerStuck();
    }
    if origin == BeforeLoop {
      EarlyStuck();
    }
  }

  lemma TimerStuck()
    ensures exists s :: Reachable(s) && Stuck(s, InTimer)
  {
    InitReachable();
    StepReachable(Init(), Start);
    var s := Step(Init(), Start);
    StepReachable(s, Check);
    var t := Step(s, Check);
    StepReachable(t, Push(LOOP_THREAD, 0));
    var r := Step(t, Push(LOOP_THREAD, 0));
    StepReachable(r, EndTimers);
    StuckAtPoll(r, InTimer);
  }

  lemma EarlyStuck()
    ensures exists s :: Reachable(s) && Stuck(s, BeforeLoop)
  {
    InitReachable();
    StepReachable(Init(), Push(LOOP_THREAD, 0));
    var s := Step(Init(), Push(LOOP_THREAD, 0));
    StepReachable(s, Start);
    var t := Step(s, Start);
    StepReachable(t, Check);
    var r := Step(t, Check);
    StepReachable(r, EndTimers);
    StuckAtPoll(r, BeforeLoop);
  }

  lemma StuckAtPoll(s: State, origin: Origin)
    requires s.phase == Timers && s.queued == [Entry(0, origin)] && s.ran == [] && s.running == []
    requires s.fd == 0 && s.waking == map[]
    ensures Stuck(Step(s, EndTimers), origin)
  {
    var r := Step(s, EndTimers);
    assert Waiting(r, 0) && r.queued[0].origin == origin;
  }

  /** Once an iteration has begun after s and ended its handlers, all that was queued in s is swapped out. */
  ghost predicate SwappedSince(s: State, r: State) {
    && s.iteration <= r.iteration && |s.queued| <= |r.queued|
    && (Armed(r) && s.iteration < r.iteration ==> |s.queued| <= Taken(r))
  }

  lemma {:induction false} SwapFollows(states: seq<State>, actions: seq<Action>, i: nat, j: nat)
    requires Run(states, actions) && states[0] == Init() && i <= j <= |actions|
    ensures SwappedSince(states[i], states[j])
  {
    hide Inv, Step, Enabled, SwappedSince;
    if i == j {
      NoneSince(states[i]);
    } else {
      SwapFollows(states, actions, i, j - 1);
      RunInv(states, actions, j - 1);
      SwapFollowsStep(states[i], states[j - 1], actions[j - 1]);
    }
  }

  lemma NoneSince(s: State)
    ensures SwappedSince(s, s)
  {
  }

  lemma SwapFollowsStep(s: State, r: State, a: Action)
    requires SwappedSince(s, r) && Inv(r) && Enabled(r, a)
    ensures SwappedSince(s, Step(r, a))
  {
  }

  /** At the poll of any later iteration, all functors queued by now have run. */
  lemma RunByNextPoll(states: seq<State>, actions: seq<Action>, i: nat, j: nat)
    requires Run(states, actions) && states[0] == Init() && i <= j <= |actions|
    requires states[i].iteration < states[j].iteration && states[j].phase == Polling
    ensures states[i].queued <= states[j].ran
  {
    SwapFollows(states, actions, i, j);
    RunInv(states, actions, j);
    QueuedGrows(states, actions, i, j);
  }

  lemma QueuedStep(s: State, a: Action)
    requires Enabled(s, a)
    ensures s.queued <= Step(s, a).queued
  {
  }

  lemma {:induction false} QueuedGrows(states: seq<State>, actions: seq<Action>, i: nat, j: nat)
    requires Run(states, actions) && i <= j <= |actions|
    ensures states[i].queued <= states[j].queued
  {
    hide Step, Enabled;
    if i < j {
      QueuedGrows(states, actions, i, j - 1);
      QueuedStep(states[j - 1], actions[j - 1]);
    }
  }
}
