// The event loop's own methods, each a path of the interleaved protocol with no other thread in between.
module EventLoop {
  import opened LoopSteps

  ghost predicate Path(s: State, r: State) {
    exists states, actions :: Run(states, actions) && states[0] == s && states[|actions|] == r
  }

  lemma PathRefl(s: State)
    ensures Path(s, s)
  {
    var actions: seq<Action> := [];
    assert Run([s], actions) && [s][|actions|] == s;
  }

  lemma PathStep(s: State, r: State, a: Action)
    requires Path(s, r) && Enabled(r, a)
    ensures Path(s, Step(r, a))
  {
    hide Enabled, Step;
    var states, actions :| Run(states, actions) && states[0] == s && states[|actions|] == r;
    assert Run(states + [Step(r, a)], actions + [a]);
  }

  /** A call of queueInLoop from start to end. */
  function QueueCall(s: State, t: Thread, f: Functor): State
    requires Enabled(s, Push(t, f))
  {
    var r := Step(s, Push(t, f));
    if t in r.waking then Step(r, Wake(t)) else r
  }

  lemma PathQueue(s: State, r: State, t: Thread, f: Functor)
    requires Path(s, r) && Inv(r) && Enabled(r, Push(t, f))
    ensures Path(s, QueueCall(r, t, f)) && Inv(QueueCall(r, t, f))
  {
    hide Step, Inv;
    PathStep(s, r, Push(t, f));
    StepKeepsInv(r, Push(t, f));
    var q := Step(r, Push(t, f));
    if t in q.waking {
      PathStep(s, q, Wake(t));
      StepKeepsInv(q, Wake(t));
    }
  }

  /** The state when the pending functors have been swapped out. */
  function Begun(s: State): State {
    s.(calling := true, phase := Running, running := s.pending, pending := [])
  }

  lemma BeginIs(s: State)
    requires Inv(s) && Enabled(s, EndHandling) && !Busy(s, LOOP_THREAD)
    ensures Path(s, Begun(s)) && Inv(Begun(s)) && !Busy(Begun(s), LOOP_THREAD)
  {
    hide Path, Inv;
    PathRefl(s);
    PathStep(s, s, EndHandling);
    StepKeepsInv(s, EndHandling);
    PathStep(s, Step(s, EndHandling), Swap);
    StepKeepsInv(Step(s, EndHandling), Swap);
    assert Step(Step(s, EndHandling), Swap) == Begun(s);
  }

  /** What functors queue when they run, in order. */
  function Asked(es: seq<Entry>, callback: Functor -> seq<Functor>): seq<Entry> {
    if es == [] then [] else Asked(es[..|es| - 1], callback) + FromFunctor(callback(es[|es| - 1].f))
  }

  function FromFunctor(fs: seq<Functor>): (es: seq<Entry>)
    ensures |es| == |fs|
  {
    seq(|fs|, i requires 0 <= i < |fs| => Entry(fs[i], InFunctor))
  }

  class EventLoop {
    var pendingFunctors: seq<Entry>
    var wakeupFd: nat
    var callingPendingFunctors: bool
    var quit: bool
    var phase: Phase
    var functors: seq<Entry>
    var wakeReady: bool
    var waking: map<Thread, nat>
    var quitting: set<Thread>
    var queued: seq<Entry>
    var ran: seq<Entry>
    var iteration: nat
    var quitDone: bool

    function View(): State
      reads this
    {
      State(pendingFunctors, wakeupFd, callingPendingFunctors, quit, phase, functors, wakeReady,
            waking, quitting, queued, ran, iteration, quitDone)
    }

    constructor ()
      ensures View() == Init()
    {
      pendingFunctors, wakeupFd, callingPendingFunctors, quit := [], 0, false, false;
      phase, functors, wakeReady, waking, quitting := Idle, [], false, map[], {};
      queued, ran, iteration, quitDone := [], [], 0, false;
    }

    method Wakeup()
      modifies `wakeupFd
      ensures wakeupFd == Written(old(wakeupFd)) > 0
    {
      if wakeupFd < EVENTFD_MAX {
        wakeupFd := wakeupFd + 1;
      }
    }

    method HandleRead()
      requires Enabled(View(), LoopSteps.HandleRead)
      modifies this
      ensures View() == Step(old(View()), LoopSteps.HandleRead)
    {
      wakeupFd := 0;
      wakeReady := false;
    }

    method QueueInLoop(t: Thread, f: Functor)
      requires Enabled(View(), Push(t, f))
      modifies this
      ensures View() == QueueCall(old(View()), t, f)
    {
      var e := Entry(f, if t == LOOP_THREAD then OriginIn(phase) else Other);
      pendingFunctors := pendingFunctors + [e];
      if t != LOOP_THREAD || callingPendingFunctors {
        waking := waking[t := |queued|];
      }
      queued := queued + [e];
      if t != LOOP_THREAD || callingPendingFunctors {
        Wakeup();
        waking := waking - {t};
      }
    }

    method QuitLoop(t: Thread)
      requires Enabled(View(), Quit(t))
      modifies this
      ensures t == LOOP_THREAD ==> View() == Step(old(View()), Quit(t))
      ensures t != LOOP_THREAD ==> View() == Step(Step(old(View()), Quit(t)), WakeQuit(t)) && quitDone && wakeupFd > 0
    {
      quit := true;
      if t != LOOP_THREAD {
        Wakeup();
        quitDone := true;
        assert quitting + {t} - {t} == quitting;
      }
    }

    /**
     * Runs what was pending at the swap, in order; what those functors queue is pending afterwards, in
     * order, with the wakeup descriptor readable.
     */
    method DoPendingFunctors(callback: Functor -> seq<Functor>)
      requires Inv(View()) && Enabled(View(), EndHandling) && !Busy(View(), LOOP_THREAD)
      modifies this
      ensures Path(old(View()), View()) && Inv(View())
      ensures ran == old(ran) + old(pendingFunctors) && functors == []
      ensures pendingFunctors == Asked(old(pendingFunctors), callback)
      ensures pendingFunctors != [] ==> wakeupFd > 0
      ensures phase == Checking && !callingPendingFunctors && quit == old(quit)
    {
      hide Inv, Path, Asked;
      Begin();
      ghost var todo := functors;
      ghost var n := 0;
      AskedNone(todo, callback);
      while functors != []
        invariant Path(old(View()), View()) && Inv(View()) && phase == Running && !Busy(View(), LOOP_THREAD)
        invariant n <= |todo| && functors == todo[n..] && ran == old(ran) + todo[..n]
        invariant pendingFunctors == Asked(todo[..n], callback) && (pendingFunctors != [] ==> wakeupFd > 0)
        invariant quit == old(quit)
        decreases |functors|
      {
        SplitAt(todo, n);
        var f := functors[0].f;
        Next(old(View()));
        AskedNext(todo, n, callback);
        RunFunctor(old(View()), callback(f));
        n := n + 1;
      }
      assert todo[..n] == todo;
      End(old(View()));
    }

    /** Marks the functors as being called and swaps them out under the mutex. */
    method Begin()
      requires Inv(View()) && Enabled(View(), EndHandling) && !Busy(View(), LOOP_THREAD)
      modifies this
      ensures Path(old(View()), View()) && Inv(View()) && phase == Running && !Busy(View(), LOOP_THREAD)
      ensures functors == old(pendingFunctors) && pendingFunctors == [] && ran == old(ran) && quit == old(quit)
    {
      BeginIs(View());
      hide Path, Inv, Enabled;
      callingPendingFunctors := true;
      phase := Swapping;
      functors, pendingFunctors := pendingFunctors, [];
      phase := Running;
    }

    method Next(ghost s: State)
      requires Path(s, View()) && Inv(View()) && phase == Running && !Busy(View(), LOOP_THREAD) && functors != []
      modifies `ran, `functors
      ensures Path(s, View()) && Inv(View()) && ran == old(ran) + [old(functors[0])] && functors == old(functors[1..])
    {
      hide Inv, Path;
      PathStep(s, View(), RunNext);
      StepKeepsInv(View(), RunNext);
      ran := ran + [functors[0]];
      functors := functors[1..];
    }

    method End(ghost s: State)
      requires Path(s, View()) && Inv(View()) && phase == Running && !Busy(View(), LOOP_THREAD) && functors == []
      modifies `callingPendingFunctors, `phase
      ensures Path(s, View()) && Inv(View()) && phase == Checking && !callingPendingFunctors
    {
      hide Inv, Path;
      PathStep(s, View(), EndFunctors);
      StepKeepsInv(View(), EndFunctors);
      callingPendingFunctors := false;
      phase := Checking;
    }

    method QueueOne(ghost s: State, f: Functor)
      requires Path(s, View()) && Inv(View()) && phase == Running && !Busy(View(), LOOP_THREAD)
      modifies this
      ensures Path(s, View()) && Inv(View()) && phase == Running && !Busy(View(), LOOP_THREAD)
      ensures pendingFunctors == old(pendingFunctors) + [Entry(f, InFunctor)] && wakeupFd > 0
      ensures functors == old(functors) && ran == old(ran) && quit == old(quit)
    {
      hide Path;
      PathQueue(s, View(), LOOP_THREAD, f);
      QueueInLoop(LOOP_THREAD, f);
    }

    /** A functor runs and queues others. */
    method RunFunctor(ghost s: State, fs: seq<Functor>)
      requires Path(s, View()) && Inv(View()) && phase == Running && !Busy(View(), LOOP_THREAD)
      requires pendingFunctors != [] ==> wakeupFd > 0
      modifies this
      ensures Path(s, View()) && Inv(View()) && phase == Running && !Busy(View(), LOOP_THREAD)
      ensures pendingFunctors == old(pendingFunctors) + FromFunctor(fs) && (pendingFunctors != [] ==> wakeupFd > 0)
      ensures functors == old(functors) && ran == old(ran) && quit == old(quit)
    {
      hide Inv, Path, FromFunctor;
      NoneAsked();
      for i := 0 to |fs|
        invariant Path(s, View()) && Inv(View()) && phase == Running && !Busy(View(), LOOP_THREAD)
        invariant pendingFunctors == old(pendingFunctors) + FromFunctor(fs[..i])
        invariant pendingFunctors != [] ==> wakeupFd > 0
        invariant functors == old(functors) && ran == old(ran) && quit == old(quit)
      {
        QueueOne(s, fs[i]);
        AskedOne(fs, i);
      }
      assert fs[..|fs|] == fs;
    }
  }

  lemma SplitAt(es: seq<Entry>, n: nat)
    requires n <= |es| && es[n..] != []
    ensures n < |es| && es[n..][0] == es[n] && es[n..][1..] == es[n + 1..] && es[..n] + [es[n]] == es[..n + 1]
    ensures forall ran: seq<Entry> :: (ran + es[..n]) + [es[n]] == ran + es[..n + 1]
  {
  }

  lemma AskedNone(es: seq<Entry>, callback: Functor -> seq<Functor>)
    ensures Asked(es[..0], callback) == []
  {
  }

  lemma NoneAsked()
    ensures forall fs: seq<Functor> :: FromFunctor(fs[..0]) == []
  {
  }

  lemma AskedOne(fs: seq<Functor>, i: nat)
    requires i < |fs|
    ensures FromFunctor(fs[..i + 1]) == FromFunctor(fs[..i]) + [Entry(fs[i], InFunctor)]
  {
  }

  lemma AskedNext(es: seq<Entry>, n: nat, callback: Functor -> seq<Functor>)
    requires n < |es|
    ensures Asked(es[..n + 1], callback) == Asked(es[..n], callback) + FromFunctor(callback(es[n].f))
  {
    assert es[..n + 1][..n] == es[..n];
  }
}
