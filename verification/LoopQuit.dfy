// When the loop ends, and what its wakeup descriptor counts, in every interleaving.
module LoopQuit {
  import opened LoopSteps

  /** Some thread has called quit in one of the first n steps, and the loop was not started after that. */
  ghost predicate QuitPending(actions: seq<Action>, n: nat) {
    exists i :: 0 <= i < n && i < |actions| && actions[i].Quit? && NoStart(actions, i, n)
  }

  ghost predicate NoStart(actions: seq<Action>, i: nat, n: nat) {
    forall k :: i < k < n && k < |actions| ==> !actions[k].Start?
  }

  lemma QuitNext(actions: seq<Action>, n: nat)
    requires n < |actions|
    ensures QuitPending(actions, n + 1) <==>
            if actions[n].Start? then false else actions[n].Quit? || QuitPending(actions, n)
  {
    if actions[n].Quit? {
      assert NoStart(actions, n, n + 1);
    } else if !actions[n].Start? && QuitPending(actions, n) {
      var i :| 0 <= i < n && i < |actions| && actions[i].Quit? && NoStart(actions, i, n);
      assert NoStart(actions, i, n + 1);
    }
    if QuitPending(actions, n + 1) {
      var i :| 0 <= i < n + 1 && i < |actions| && actions[i].Quit? && NoStart(actions, i, n + 1);
      assert i < n ==> NoStart(actions, i, n) && !actions[n].Start?;
    }
  }

  /** m_quit tells whether a quit has been called since the loop was started. */
  lemma {:induction false} QuitFlag(states: seq<State>, actions: seq<Action>, n: nat)
    requires Run(states, actions) && states[0] == Init() && n <= |actions|
    ensures states[n].quit <==> QuitPending(actions, n)
  {
    hide QuitPending;
    if n == 0 {
      NoneYet(actions);
    } else {
      QuitFlag(states, actions, n - 1);
      QuitNext(actions, n - 1);
    }
  }

  lemma NoneYet(actions: seq<Action>)
    ensures !QuitPending(actions, 0)
  {
  }

  /**
   * The test at the head of the loop leaves it exactly if a quit, of whatever thread, has been called since
   * it was started; otherwise another iteration begins with the timers.
   */
  lemma QuitDecides(states: seq<State>, actions: seq<Action>, j: nat)
    requires Run(states, actions) && states[0] == Init() && j < |actions| && actions[j].Check?
    ensures states[j + 1].phase == if QuitPending(actions, j) then Idle else Timers
  {
    hide QuitPending;
    QuitFlag(states, actions, j);
    assert states[j + 1] == Step(states[j], actions[j]);
  }

  predicate InLoop(p: Phase) {
    p != Idle
  }

  /** How far an iteration has come: the poll is behind it or not. */
  predicate Polled(p: Phase) {
    p == Handling || p == Swapping || p == Running || p == Checking
  }

  /** While no head of the loop is passed at most one poll returns, none if it has returned already. */
  lemma {:induction false} OnePoll(states: seq<State>, actions: seq<Action>, i: nat, j: nat)
    requires Run(states, actions) && i <= j <= |actions| && InLoop(states[i].phase)
    requires forall k :: i <= k < j ==> !actions[k].Check?
    ensures InLoop(states[j].phase) && (Polled(states[i].phase) ==> Polled(states[j].phase))
    ensures states[j].iteration ==
            states[i].iteration + if Polled(states[j].phase) && !Polled(states[i].phase) then 1 else 0
  {
    hide Step, Enabled, InLoop, Polled;
    if i < j {
      OnePoll(states, actions, i, j - 1);
      StepInLoop(states[j - 1], actions[j - 1]);
      assert states[j - 1 + 1] == Step(states[j - 1], actions[j - 1]);
    }
  }

  lemma StepInLoop(s: State, a: Action)
    requires Enabled(s, a) && !a.Check? && InLoop(s.phase)
    ensures var r := Step(s, a);
      && InLoop(r.phase) && (Polled(s.phase) ==> Polled(r.phase))
      && r.iteration == s.iteration + if Polled(r.phase) && !Polled(s.phase) then 1 else 0
  {
  }

  /**
   * A quit called while the loop runs, in its own thread or another one, ends it at the next test, with at
   * most one more poll returned before.
   */
  lemma QuitEnds(states: seq<State>, actions: seq<Action>, i: nat, j: nat)
    requires Run(states, actions) && states[0] == Init() && i < j < |actions|
    requires actions[i].Quit? && InLoop(states[i].phase) && actions[j].Check?
    requires forall k :: i < k < j ==> !actions[k].Check?
    ensures states[j + 1].phase == Idle && states[j + 1].iteration <= states[i].iteration + 1
  {
    OnePoll(states, actions, i, j);
    forall k | i < k < j
      ensures !actions[k].Start?
    {
      assert forall m :: i <= m < k ==> !actions[m].Check?;
      OnePoll(states, actions, i, k);
    }
    assert NoStart(actions, i, j);
    QuitDecides(states, actions, j);
    assert states[j + 1] == Step(states[j], actions[j]);
  }

  /** Outside the loop only starting it leads back in. */
  lemma {:induction false} StaysOut(states: seq<State>, actions: seq<Action>, i: nat, j: nat)
    requires Run(states, actions) && i <= j <= |actions| && states[i].phase == Idle
    requires forall k :: i <= k < j ==> !actions[k].Start?
    ensures states[j].phase == Idle && states[j].ran == states[i].ran && states[j].iteration == states[i].iteration
  {
    hide Step, Enabled;
    if i < j {
      StaysOut(states, actions, i, j - 1);
      StepOutside(states[j - 1], actions[j - 1]);
      assert states[j - 1 + 1] == Step(states[j - 1], actions[j - 1]);
    }
  }

  lemma StepOutside(s: State, a: Action)
    requires Enabled(s, a) && !a.Start? && s.phase == Idle
    ensures var r := Step(s, a); r.phase == Idle && r.ran == s.ran && r.iteration == s.iteration
  {
  }

  // ---------- the wakeup descriptor ----------

  /** Wakeups written since the descriptor was read last, as far as the counter can hold them. */
  function Wakeups(actions: seq<Action>): nat {
    if actions == [] then 0 else
    var n := Wakeups(actions[..|actions| - 1]);
    match actions[|actions| - 1]
    case Wake(_) => if n < 0xffff_ffff_ffff_fffe then n + 1 else n
    case WakeQuit(_) => if n < 0xffff_ffff_ffff_fffe then n + 1 else n
    case HandleRead => 0
    case _ => n
  }

  /** The descriptor counts exactly these: it is readable if and only if a wakeup has been written since. */
  lemma {:induction false} DescriptorCounts(states: seq<State>, actions: seq<Action>, n: nat)
    requires Run(states, actions) && states[0] == Init() && n <= |actions|
    ensures states[n].fd == Wakeups(actions[..n])
  {
    if n > 0 {
      DescriptorCounts(states, actions, n - 1);
      assert actions[..n][..n - 1] == actions[..n - 1];
      assert states[n - 1 + 1] == Step(states[n - 1], actions[n - 1]);
    }
  }

  /** So if nobody has woken the loop since it read the descriptor, a poll blocks until something else is ready. */
  lemma PollBlocks(states: seq<State>, actions: seq<Action>, i: nat, j: nat)
    requires Run(states, actions) && states[0] == Init() && i < j <= |actions|
    requires actions[i].HandleRead? && states[j].phase == Polling
    requires forall k :: i < k < j ==> !actions[k].Wake? && !actions[k].WakeQuit?
    ensures states[j].fd == 0
    ensures !Enabled(states[j], PollReturns(false)) && Enabled(states[j], PollReturns(true))
  {
    NoneSince(states, actions, i, j);
  }

  lemma {:induction false} NoneSince(states: seq<State>, actions: seq<Action>, i: nat, j: nat)
    requires Run(states, actions) && i < j <= |actions| && actions[i].HandleRead?
    requires forall k :: i < k < j ==> !actions[k].Wake? && !actions[k].WakeQuit?
    ensures states[j].fd == 0
  {
    hide Step, Enabled;
    if i + 1 < j {
      NoneSince(states, actions, i, j - 1);
    }
    StepUnwoken(states[j - 1], actions[j - 1]);
    assert states[j - 1 + 1] == Step(states[j - 1], actions[j - 1]);
  }

  lemma StepUnwoken(s: State, a: Action)
    requires Enabled(s, a) && !a.Wake? && !a.WakeQuit? && (a.HandleRead? || s.fd == 0)
    ensures Step(s, a).fd == 0
  {
  }

  /**
   * A call of queueInLoop ends with a wakeup exactly if it is made in another thread, or by the loop thread
   * between the end of its handlers and the end of its functors.
   */
  lemma WakesExactly(s: State, t: Thread, f: Functor)
    requires Reachable(s) && Enabled(s, Push(t, f))
    ensures t in Step(s, Push(t, f)).waking <==> t != 0 || s.phase == Running
    ensures Step(s, Push(t, f)).pending == s.pending + [Step(s, Push(t, f)).queued[|s.queued|]]
    ensures Step(s, Push(t, f)).queued[|s.queued|].f == f
  {
    ReachableInv(s);
  }

  /** A quit takes effect at once; it is followed by a wakeup exactly if it is called in another thread. */
  lemma QuitWakes(s: State, t: Thread)
    requires Reachable(s) && Enabled(s, Quit(t))
    ensures Step(s, Quit(t)).quit && (Enabled(Step(s, Quit(t)), WakeQuit(t)) <==> t != 0)
  {
    ReachableInv(s);
  }

  /** After a poll the descriptor is read exactly if it was readable, and before anything that handlers queue runs. */
  lemma ReadsExactly(s: State, otherwise: bool)
    requires Reachable(s) && Enabled(s, PollReturns(otherwise))
    ensures var r := Step(s, PollReturns(otherwise));
      && (Enabled(r, HandleRead) <==> r.fd > 0) && (Enabled(r, EndHandling) <==> r.fd == 0)
      && r.fd == s.fd && !Enabled(r, Swap) && !Enabled(r, RunNext)
  {
    ReachableInv(s);
  }
}
