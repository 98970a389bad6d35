// The timer queue: a heap of timers mirrored by the set of their (address, sequence) pairs.
module TimerQueue {
  import opened Timer
  import opened TimerSpec
  import opened MinHeap

  class TimerQueue {
    const heap: Heap
    /** Whether assertions are compiled in: in a Debug build, not in a Release build. */
    const assertions: bool
    var active: set<TimerId>
    /** What an address in use points to. */
    var memory: map<Address, Timer>
    var numCreated: nat
    ghost var issued: map<nat, Timer>

    ghost predicate Valid(outside: set<Timer>)
      reads this, heap, heap.ptrArr, heap.elems
    {
      HeapOk() && Agree(heap.elems, outside, active, memory, issued, numCreated)
    }

    ghost predicate HeapOk()
      reads heap, heap.ptrArr, heap.elems
    {
      heap.Valid() && heap.cmp == EventGreater
    }

    /** The timers constructed, in the heap, and living, when those outside live too. */
    ghost function People(outside: set<Timer>): Population
      reads this, heap
    {
      Population(issued, heap.elems, heap.elems + outside)
    }

    constructor (assertions: bool)
      ensures Valid({}) && heap.elems == {} && fresh(heap) && fresh(heap.ptrArr)
      ensures this.assertions == assertions && issued == map[] && numCreated == 0
    {
      EventGreaterOrders();
      heap := new Heap(EventGreater);
      this.assertions := assertions;
      active := {};
      memory := map[];
      numCreated := 0;
      issued := map[];
    }

    /** The assertion at the start and the end of every operation. */
    lemma SizesAgree(outside: set<Timer>)
      requires Valid(outside)
      ensures heap.size == |active|
    {
      heap.SizeIsCount();
      SameSize(heap.elems, outside, active, memory, issued, numCreated);
    }

    /** A valid queue is one of the populations of a history: see GoneForGood. */
    lemma ValidSound(outside: set<Timer>)
      requires Valid(outside)
      ensures Sound(People(outside))
      ensures forall n: nat :: n in issued <==> n < numCreated
    {
    }

    ghost function UsedFrom(address: Address): set<Address>
      reads `memory
    {
      set a | a in memory && a >= address
    }

    /** A free address: the wanted one if it is. */
    method Allocate(wanted: Address) returns (address: Address)
      ensures address !in memory && (wanted !in memory ==> address == wanted)
    {
      address := wanted;
      while address in memory
        invariant wanted !in memory ==> address == wanted
        decreases UsedFrom(address)
      {
        assert address in UsedFrom(address);
        address := address + 1;
      }
    }

    /** Constructs a timer at a free address, with a sequence number never used before. */
    method NewTimer(wanted: Address, when: int, interval: real, ghost outside: set<Timer>) returns (t: Timer)
      requires Valid(outside)
      modifies `memory, `numCreated, `issued
      ensures fresh(t) && Valid(outside + {t}) && heap.elems == old(heap.elems)
      ensures t.address !in old(memory) && (wanted !in old(memory) ==> t.address == wanted)
      ensures t.expiration == when && t.interval == interval && t.minHeapIdx == NO_INDEX
      ensures t.sequence == old(numCreated) && numCreated == old(numCreated) + 1
      ensures t.sequence !in old(issued) && issued == old(issued)[t.sequence := t]
      ensures Changes(old(People(outside)), People(outside + {t}), [])
    {
      hide Agree, HeapOk;
      var address := Allocate(wanted);
      t := new Timer(address, numCreated, when, interval);
      AgreeNew(heap.elems, outside, active, memory, issued, numCreated, t);
      memory := memory[address := t];
      issued := issued[numCreated := t];
      numCreated := numCreated + 1;
    }

    method AddTimerInLoop(t: Timer, ghost outside: set<Timer>)
      requires t !in outside && Valid(outside + {t})
      modifies `active, heap, heap.ptrArr, heap.elems`minHeapIdx, t`minHeapIdx
      ensures Valid(outside) && heap.elems == old(heap.elems) + {t}
      ensures Changes(old(People(outside + {t})), People(outside), [])
      ensures heap.ptrArr == old(heap.ptrArr) || fresh(heap.ptrArr)
    {
      hide Valid;
      SizesAgree(outside + {t});
      assert heap.size == |active|;
      Insert(t, outside);
      SizesAgree(outside);
      assert heap.size == |active|;
    }

    lemma Joined(t: Timer, outside: set<Timer>)
      requires t !in outside && Valid(outside + {t})
      ensures HeapOk() && heap.Valid() && Id(t) !in active && t !in heap.elems
      ensures Agree(heap.elems + {t}, outside, active + {Id(t)}, memory, issued, numCreated)
    {
      hide Agree, Heap.Valid;
      AgreeAdded(heap.elems, outside, active, memory, issued, numCreated, t);
    }

    lemma Whole(outside: set<Timer>)
      requires heap.Valid() == Agree(heap.elems, outside, active, memory, issued, numCreated) == true
      requires heap.cmp == EventGreater
      ensures Valid(outside)
    {
    }

    lemma Comparator(outside: set<Timer>)
      requires Valid(outside)
      ensures heap.cmp == EventGreater
    {
    }

    /** Into the heap and into the active set, where the identifier was not. */
    method Insert(t: Timer, ghost outside: set<Timer>)
      requires t !in outside && Valid(outside + {t})
      modifies `active, heap, heap.ptrArr, heap.elems`minHeapIdx, t`minHeapIdx
      ensures Valid(outside) && heap.elems == old(heap.elems) + {t}
      ensures heap.ptrArr == old(heap.ptrArr) || fresh(heap.ptrArr)
    {
      hide Agree, Valid, HeapOk, Heap.Valid;
      Joined(t, outside);
      Comparator(outside + {t});
      active := active + {Id(t)};
      heap.Push(t);
      Whole(outside);
    }

    /** addTimer in the loop's own thread; in another one the two calls are apart, with t outside in between. */
    method AddTimer(wanted: Address, when: int, interval: real, ghost outside: set<Timer>)
      returns (id: TimerId, ghost t: Timer)
      requires Valid(outside)
      modifies this, heap, heap.ptrArr, heap.elems`minHeapIdx
      ensures Valid(outside) && fresh(t) && heap.elems == old(heap.elems) + {t}
      ensures heap.ptrArr == old(heap.ptrArr) || fresh(heap.ptrArr)
      ensures t.address !in old(memory) && (wanted !in old(memory) ==> t.address == wanted)
      ensures t.expiration == when && t.interval == interval
      ensures id == Id(t) && Named(issued, id) == {t}
      ensures t.sequence == old(numCreated) && numCreated == old(numCreated) + 1
      ensures t.sequence !in old(issued) && issued == old(issued)[t.sequence := t]
      ensures Changes(old(People(outside)), People(outside), [])
    {
      hide Agree, HeapOk;
      var timer := NewTimer(wanted, when, interval, outside);
      AddTimerInLoop(timer, outside);
      id, t := Id(timer), timer;
    }

    /**
     * Removes and deletes the timer the identifier was handed out for, if it is in the heap. Otherwise
     * nothing changes, even if another timer now lives at the same address. The heap erases it inside an
     * assertion: without assertions the deleted timer stays there, and the structures agree no more.
     */
    method CancelInLoop(id: TimerId, ghost outside: set<Timer>)
      requires Valid(outside)
      modifies `active, `memory, heap, heap.ptrArr, heap.elems`minHeapIdx
      ensures HeapOk() && heap.ptrArr == old(heap.ptrArr)
      ensures Valid(outside) <==> assertions || id !in old(active)
      ensures heap.elems == if assertions then old(heap.elems) - Named(issued, id) else old(heap.elems)
      ensures active == old(active) - {id}
      ensures memory == if id in old(active) then old(memory) - {id.address} else old(memory)
      ensures id in old(active) <==> Named(issued, id) <= old(heap.elems) && Named(issued, id) != {}
      ensures id !in old(active) ==>
              unchanged(this) && unchanged(heap) && unchanged(heap.ptrArr) && unchanged(heap.elems)
      ensures assertions ==> Changes(old(People(outside)), People(outside), [])
    {
      hide Valid, Named, HeapOk;
      if assertions {
        SizesAgree(outside);
        assert heap.size == |active|;
      }
      Names(id, outside);
      if id in active {
        Delete(id, outside);
      }
      if assertions {
        SizesAgree(outside);
        assert heap.size == |active|;
      }
    }

    lemma Names(id: TimerId, outside: set<Timer>)
      requires Valid(outside)
      ensures HeapOk() && (id !in active ==> active == active - {id} && heap.elems == heap.elems - Named(issued, id))
      ensures id in active ==> id.address in memory && Named(issued, id) == {memory[id.address]}
      ensures id in active <==> Named(issued, id) <= heap.elems && Named(issued, id) != {}
      ensures Grown(issued, issued)
    {
    }

    /** Out of the active set, freed, and, if assertions are compiled in, out of the heap, where it was found. */
    method Delete(id: TimerId, ghost outside: set<Timer>)
      requires Valid(outside) && id in active && id.address in memory
      modifies `active, `memory, heap, heap.ptrArr, heap.elems`minHeapIdx
      ensures HeapOk() && heap.ptrArr == old(heap.ptrArr)
      ensures Valid(outside) <==> assertions
      ensures heap.elems == if assertions then old(heap.elems) - {old(memory[id.address])} else old(heap.elems)
      ensures memory == old(memory) - {id.address} && active == old(active) - {id}
    {
      hide Agree, Heap.Valid;
      CancelNeedsAssertions(heap.elems, outside, active, memory, issued, numCreated, id, assertions);
      ActiveNames(heap.elems, outside, active, memory, issued, numCreated, id);
      var t := memory[id.address];
      if assertions {
        var r := heap.Erase(t);
        assert r == 0;
      }
      memory := memory - {id.address};
      active := active - {id};
      assert heap.Valid();
    }

    /** A call of the queue that a cancel inside it does not break. */
    predicate Allowed(c: Command)
      reads `active
    {
      c.Add? || assertions || c.id !in active
    }

    /** One call of a callback: it adds exactly the timer asked for, or removes exactly the timer named. */
    method Execute(c: Command, ghost outside: set<Timer>)
      requires Valid(outside) && Allowed(c)
      modifies this, heap, heap.ptrArr, heap.elems`minHeapIdx
      ensures Valid(outside) && (heap.ptrArr == old(heap.ptrArr) || fresh(heap.ptrArr))
      ensures c.Add? ==>
              numCreated == old(numCreated) + 1 && old(numCreated) in issued && old(numCreated) !in old(issued)
      ensures c.Add? ==>
                var t := issued[old(numCreated)];
                && issued == old(issued)[old(numCreated) := t] && fresh(t) && heap.elems == old(heap.elems) + {t}
                && t.expiration == c.when && t.interval == c.interval
                && t.address !in old(memory) && (c.wanted !in old(memory) ==> t.address == c.wanted)
      ensures c.Cancel? ==> numCreated == old(numCreated) && issued == old(issued)
      ensures c.Cancel? ==> heap.elems == old(heap.elems) - Named(issued, c.id)
    {
      hide Valid, Named, HeapOk;
      match c
      case Add(wanted, when, interval) =>
        var id, t := AddTimer(wanted, when, interval, outside);
      case Cancel(id) =>
        Names(id, outside);
        CancelInLoop(id, outside);
    }

    lemma MembersNumbered(outside: set<Timer>)
      requires Valid(outside)
      ensures Numbered(issued) && forall n: nat :: n in issued <==> n < numCreated
      ensures forall t :: t in heap.elems + outside ==> t.sequence in issued && issued[t.sequence] == t
      ensures forall n, t :: n in issued && t in heap.elems && t.sequence == n ==> issued[n] == t
    {
    }

    /**
     * One more command of a callback: what has been asked for and cancelled so far is in the heap or not
     * accordingly.
     */
    method RunOne(commands: seq<Command>, c: Command, ghost before: map<Timer, int>, ghost first: nat,
                  ghost members: set<Timer>,
                  ghost outside: set<Timer>)
      requires Valid(outside) && Allowed(c)
      requires numCreated == first + |Adds(commands)|
      requires before.Keys == members && forall t :: t in members ==> t.sequence in issued && issued[t.sequence] == t
      requires Spared(commands, members, heap.elems) && Kept(commands, first, numCreated, issued, heap.elems)
      requires Answered(Adds(commands), first, issued, before, Expirations(heap.elems))
      modifies this, heap, heap.ptrArr, heap.elems`minHeapIdx
      ensures Valid(outside) && (heap.ptrArr == old(heap.ptrArr) || fresh(heap.ptrArr)) && Grown(old(issued), issued)
      ensures forall t :: t in heap.elems && t !in old(heap.elems) ==> fresh(t)
      ensures var more := Adds(commands) + if c.Add? then [c] else [];
        && numCreated == first + |more| && Answered(more, first, issued, before, Expirations(heap.elems))
      ensures Spared(commands + [c], members, heap.elems) && Kept(commands + [c], first, numCreated, issued, heap.elems)
    {
      hide Valid, Spared, Kept, Answered, Named, Adds;
      ghost var asked, elems, known, timers := Adds(commands), heap.elems, issued, Expirations(heap.elems);
      MembersNumbered(outside);
      Execute(c, outside);
      if c.Add? {
        ghost var t := issued[old(numCreated)];
        MembersNumbered(outside);
        AnsweredAdd(asked, c, first, known, before, timers, t);
        KeptAdd(commands, c, first, old(numCreated), known, elems, t);
        SparedAdd(commands, c, members, elems, t);
        ExpirationsWith(elems, timers, t);
      } else {
        AnsweredCancel(asked, first, known, before, timers, Named(known, c.id));
        KeptCancel(commands, c.id, first, numCreated, known, elems);
        SparedCancel(commands, c.id, members, elems, known);
        ExpirationsWithout(elems, timers, Named(known, c.id));
        assert asked + [] == asked;
      }
    }

    /**
     * Timer::run: the callback works on the queue while its own timer is in neither structure. Exactly the
     * timers it cancels leave, and exactly those it asks for are constructed, in order.
     */
    method Run(commands: seq<Command>, ghost outside: set<Timer>)
      requires Valid(outside) && (assertions || NoCancel(commands))
      modifies this, heap, heap.ptrArr, heap.elems`minHeapIdx
      ensures Valid(outside) && (heap.ptrArr == old(heap.ptrArr) || fresh(heap.ptrArr))
      ensures numCreated == old(numCreated) + |Adds(commands)| && Grown(old(issued), issued)
      ensures Spared(commands, old(heap.elems), heap.elems)
      ensures Answered(Adds(commands), old(numCreated), issued, old(Expirations(heap.elems)), Expirations(heap.elems))
      ensures Kept(commands, old(numCreated), numCreated, issued, heap.elems)
      ensures forall t :: t in heap.elems && t !in old(heap.elems) ==> fresh(t)
    {
      hide Valid, Spared, Answered, Kept, Named, Adds;
      ghost var before, first, members := Expirations(heap.elems), numCreated, heap.elems;
      RunNothing(members, before, first, issued);
      MembersNumbered(outside);
      for i := 0 to |commands|
        invariant Valid(outside) && (heap.ptrArr == old(heap.ptrArr) || fresh(heap.ptrArr))
        invariant numCreated == first + |Adds(commands[..i])| && Grown(old(issued), issued)
        invariant forall t :: t in members ==> t.sequence in issued && issued[t.sequence] == t
        invariant Spared(commands[..i], members, heap.elems)
        invariant Answered(Adds(commands[..i]), first, issued, before, Expirations(heap.elems))
        invariant Kept(commands[..i], first, numCreated, issued, heap.elems)
        invariant forall t :: t in heap.elems && t !in members ==> fresh(t)
      {
        AddsNext(commands, i);
        assert commands[..i + 1] == commands[..i] + [commands[i]];
        RunOne(commands[..i], commands[i], before, first, members, outside);
      }
      assert commands[..|commands|] == commands;
    }

    lemma RunNothing(members: set<Timer>, before: map<Timer, int>, first: nat, issued: map<nat, Timer>)
      ensures Spared([], members, members) && Kept([], first, first, issued, members)
      ensures Adds([]) == [] && Answered([], first, issued, before, before) && Grown(issued, issued)
    {
    }

    /** The timer on top, found before it is popped. */
    method TopTimer(ghost outside: set<Timer>) returns (t: Timer?)
      requires Valid(outside)
      ensures t == null <==> heap.elems == {}
      ensures t != null ==> OnTop(t) && t in heap.elems
      ensures t != null ==> forall x :: x in heap.elems ==> t.expiration <= x.expiration
    {
      hide Agree, Heap.Valid;
      t := heap.Top();
    }

    ghost predicate OnTop(t: Timer)
      reads heap, heap.ptrArr
    {
      t in heap.elems && 0 < heap.size <= heap.ptrArr.Length && heap.ptrArr[0] == t
    }

    /** Out of the heap and the active set, which had its identifier. */
    method Take(t: Timer, ghost outside: set<Timer>)
      requires Valid(outside) && OnTop(t)
      modifies `active, heap, heap.ptrArr, heap.elems`minHeapIdx
      ensures t !in outside && t.sequence < numCreated && Valid(outside + {t})
      ensures heap.ptrArr == old(heap.ptrArr) && heap.elems == old(heap.elems) - {t}
    {
      hide Agree, Valid, HeapOk, Heap.Valid, OnTop;
      TopIsIn(t);
      Leaving(t, outside);
      active := active - {Id(t)};
      PopTop(t);
      Whole(outside + {t});
    }

    lemma TopIsIn(t: Timer)
      requires OnTop(t)
      ensures t in heap.elems
    {
    }

    method PopTop(t: Timer)
      requires heap.Valid() && OnTop(t)
      modifies heap, heap.ptrArr, heap.elems`minHeapIdx
      ensures heap.Valid() && heap.ptrArr == old(heap.ptrArr) && heap.elems == old(heap.elems) - {t}
    {
      hide Heap.Valid;
      var popped := heap.Pop();
      assert popped == t;
    }

    lemma Leaving(t: Timer, outside: set<Timer>)
      requires Valid(outside) && t in heap.elems
      ensures t !in outside && t.sequence < numCreated && Id(t) in active && heap.Valid() && heap.cmp == EventGreater
      ensures Agree(heap.elems - {t}, outside + {t}, active - {Id(t)}, memory, issued, numCreated)
    {
      AgreeTaken(heap.elems, outside, active, memory, issued, numCreated, t);
    }

    lemma NotIn(t: Timer, outside: set<Timer>)
      requires Valid(outside + {t})
      ensures t !in heap.elems
    {
    }

    /** Deletes a timer that is neither in the heap nor in the active set. */
    method Free(t: Timer, ghost outside: set<Timer>)
      requires t !in outside && Valid(outside + {t})
      modifies `memory
      ensures Valid(outside)
    {
      hide Agree, HeapOk;
      AgreeDeleted(heap.elems, outside, active, memory, issued, numCreated, t);
      memory := memory - {t.address};
    }

    /** A timer that has run waits for its next expiration, or is deleted. */
    method PutBack(t: Timer, now: int, ghost outside: set<Timer>)
      requires t !in outside && Valid(outside + {t})
      modifies `active, `memory, heap, heap.ptrArr, heap.elems`minHeapIdx, t
      ensures Valid(outside) && (heap.ptrArr == old(heap.ptrArr) || fresh(heap.ptrArr))
      ensures heap.elems == old(heap.elems) + if t.Repeat() then {t} else {}
      ensures t !in old(heap.elems) && (t.Repeat() ==> t.expiration == now + Micros(t.interval))
    {
      hide Valid;
      NotIn(t, outside);
      if t.Repeat() {
        t.Restart(now);
        AddTimerInLoop(t, outside);
      } else {
        Free(t, outside);
      }
    }

    /**
     * The timer just taken out runs, then waits for its next expiration or is deleted; all has the expirations
     * from before.
     */
    method RunTaken(t: Timer, now: int, commands: seq<Command>, ghost outside: set<Timer>, ghost all: map<Timer, int>)
      requires t !in outside && Valid(outside + {t}) && Later(commands, now) && (assertions || NoCancel(commands))
      requires t.sequence < numCreated && all.Keys == heap.elems + {t}
      requires forall x :: x in heap.elems ==> all[x] == x.expiration
      modifies this, heap, heap.ptrArr, heap.elems, t
      ensures Valid(outside) && (heap.ptrArr == old(heap.ptrArr) || fresh(heap.ptrArr))
      ensures forall x :: x in heap.elems && x !in old(heap.elems) && x != t ==> fresh(x)
      ensures numCreated == old(numCreated) + |Adds(commands)| && Grown(old(issued), issued)
      ensures RanOne(all, Expirations(heap.elems), t, commands, now, old(numCreated), issued)
    {
      hide Valid, Later, Adds, Answered, Kept, Spared, RanOne, NoCancel, Grown;
      NotIn(t, outside);
      ghost var before := Expirations(heap.elems);
      Run(commands, outside + {t});
      ghost var timers := Expirations(heap.elems);
      PutBack(t, now, outside);
      MembersNumbered(outside);
      RoundIs(before, timers, all, Expirations(heap.elems), t, commands, now, old(numCreated), issued);
    }

    /** One round of the loop: the due timer on top runs, then waits for its next expiration or is deleted. */
    method FireTop(t: Timer, now: int, commands: seq<Command>, ghost outside: set<Timer>)
      requires Valid(outside) && OnTop(t) && Later(commands, now) && (assertions || NoCancel(commands))
      modifies this, heap, heap.ptrArr, heap.elems
      ensures Valid(outside) && (heap.ptrArr == old(heap.ptrArr) || fresh(heap.ptrArr))
      ensures forall x :: x in heap.elems && x !in old(heap.elems) ==> fresh(x)
      ensures numCreated == old(numCreated) + |Adds(commands)| && Grown(old(issued), issued)
      ensures RanOne(old(Expirations(heap.elems)), Expirations(heap.elems), t, commands, now, old(numCreated), issued)
    {
      hide Valid, Later, Adds, RanOne, NoCancel, OnTop, Grown;
      TopIsIn(t);
      ghost var all := Expirations(heap.elems);
      Take(t, outside);
      RunTaken(t, now, commands, outside, all);
    }

    /** The same within an expiry that has run the timers in fired. */
    method FireNext(t: Timer, ghost fired: seq<Timer>, now: int, callback: nat -> seq<Command>,
                    ghost outside: set<Timer>,
                    ghost before: map<Timer, int>, ghost first: nat)
      requires Valid(outside) && OnTop(t) && AllLater(callback, now)
      requires assertions || forall n: nat :: NoCancel(callback(n))
      requires t.expiration <= now && forall x :: x in heap.elems ==> t.expiration <= x.expiration
      requires DueCoarse(before, now) && forall x :: x in before ==> x.sequence < first
      requires Progress(before, Expirations(heap.elems), fired, callback, now, first, issued)
      requires numCreated == first + |Asked(fired, callback)|
      modifies this, heap, heap.ptrArr, heap.elems
      ensures Valid(outside) && (heap.ptrArr == old(heap.ptrArr) || fresh(heap.ptrArr))
      ensures forall x :: x in heap.elems && x !in old(heap.elems) ==> fresh(x)
      ensures Progress(before, Expirations(heap.elems), fired + [t], callback, now, first, issued)
      ensures numCreated == first + |Asked(fired + [t], callback)| && Grown(old(issued), issued)
      ensures t in before && t !in fired
    {
      hide Valid, AllLater, Later, Progress, RanOne, DueCoarse, NoCancel, Asked, Adds;
      ghost var timers, known := Expirations(heap.elems), issued;
      LaterAt(callback, now, t.sequence);
      TopIsUnfired(before, timers, fired, callback, now, first, issued, t);
      FireTop(t, now, callback(t.sequence), outside);
      MembersNumbered(outside);
      ProgressStep(before, timers, Expirations(heap.elems), fired, callback, now, t, first, known, issued);
      AskedNext(fired, callback, t);
    }

    /**
     * Runs the due timers until the one on top is not due: see Progress. The loop ends because no due timer
     * is due again right after it has run.
     */
    method FireDue(now: int, callback: nat -> seq<Command>, ghost outside: set<Timer>) returns (ghost fired: seq<Timer>)
      requires Valid(outside) && AllLater(callback, now) && (assertions || forall n: nat :: NoCancel(callback(n)))
      requires DueCoarse(Expirations(heap.elems), now)
      modifies this, heap, heap.ptrArr, heap.elems
      ensures Valid(outside) && (heap.ptrArr == old(heap.ptrArr) || fresh(heap.ptrArr))
      ensures Progress(old(Expirations(heap.elems)), Expirations(heap.elems), fired, callback, now, old(numCreated),
                issued)
      ensures forall t :: t in heap.elems ==> t.expiration > now
      ensures forall t :: t in heap.elems && t !in old(heap.elems) ==> fresh(t)
      ensures numCreated == old(numCreated) + |Asked(fired, callback)| && Grown(old(issued), issued)
    {
      hide Valid, AllLater, Progress, DueCoarse, NoCancel, Asked, OnTop, Grown;
      fired := [];
      ghost var before, first := Expirations(heap.elems), numCreated;
      ghost var left := before.Keys;
      NoProgress(before, callback, now, first, issued);
      MembersNumbered(outside);
      GrownSelf(issued);
      while true
        invariant Valid(outside) && (heap.ptrArr == old(heap.ptrArr) || fresh(heap.ptrArr))
        invariant forall x :: x in heap.elems && x !in old(heap.elems) ==> fresh(x)
        invariant numCreated == first + |Asked(fired, callback)| && Grown(old(issued), issued)
        invariant Progress(before, Expirations(heap.elems), fired, callback, now, first, issued)
        invariant forall t :: t in left <==> t in before && t !in fired
        decreases left
      {
        var timer := TopTimer(outside);
        if timer == null || timer.expiration > now {
          break;
        }
        var t: Timer := timer;
        ghost var known := issued;
        FireNext(t, fired, now, callback, outside, before, first);
        GrownOn(old(issued), known, issued);
        fired := fired + [t];
        left := left - {t};
      }
    }

    /** Runs the due timers, with the assertions before and after. */
    method ExpiredProcess(now: int, callback: nat -> seq<Command>, ghost outside: set<Timer>)
      returns (ghost fired: seq<Timer>)
      requires Valid(outside) && AllLater(callback, now) && (assertions || forall n: nat :: NoCancel(callback(n)))
      requires DueCoarse(Expirations(heap.elems), now)
      modifies this, heap, heap.ptrArr, heap.elems
      ensures Valid(outside) && (heap.ptrArr == old(heap.ptrArr) || fresh(heap.ptrArr))
      ensures Progress(old(Expirations(heap.elems)), Expirations(heap.elems), fired, callback, now, old(numCreated),
                issued)
      ensures forall t :: t in heap.elems ==> t.expiration > now
      ensures forall t :: t in heap.elems && t !in old(heap.elems) ==> fresh(t)
      ensures numCreated == old(numCreated) + |Asked(fired, callback)|
      ensures Changes(old(People(outside)), People(outside), fired)
    {
      hide Valid, AllLater, Progress, DueCoarse, NoCancel, Asked, Changes, Grown, Expirations;
      if assertions {
        SizesAgree(outside);
        assert heap.size == |active|;
      }
      ghost var before, first := Expirations(heap.elems), numCreated;
      MembersNumbered(outside);
      fired := FireDue(now, callback, outside);
      if assertions {
        SizesAgree(outside);
        assert heap.size == |active|;
      }
      ExpiryChanges(old(People(outside)), People(outside), outside, before, Expirations(heap.elems), fired, callback,
                    now, first);
    }

    /** The destructor: pops and deletes every timer, in the order of expiration. */
    method Destroy(ghost outside: set<Timer>) returns (ghost popped: seq<Timer>)
      requires Valid(outside)
      modifies `active, `memory, heap, heap.ptrArr, heap.elems`minHeapIdx
      ensures Valid(outside) && heap.size == 0 && heap.elems == {} && active == {}
      ensures forall a :: a in memory ==> memory[a] in outside
      ensures (forall t :: t in popped <==> t in old(heap.elems)) && |popped| == old(|heap.elems|)
      ensures forall i, j :: 0 <= i < j < |popped| ==> popped[i].expiration <= popped[j].expiration
    {
      hide Valid, OnTop;
      popped := [];
      while true
        invariant Valid(outside) && heap.ptrArr == old(heap.ptrArr)
        invariant heap.elems <= old(heap.elems) && |popped| + |heap.elems| == |old(heap.elems)|
        invariant forall t :: t in old(heap.elems) <==> t in popped || t in heap.elems
        invariant forall i, t :: 0 <= i < |popped| && t in heap.elems ==> popped[i].expiration <= t.expiration
        invariant forall i, j :: 0 <= i < j < |popped| ==> popped[i].expiration <= popped[j].expiration
        decreases |heap.elems|
      {
        var timer := TopTimer(outside);
        if timer == null {
          break;
        }
        Take(timer, outside);
        Free(timer, outside);
        popped := popped + [timer];
      }
      NoneLeft(outside);
    }

    lemma NoneLeft(outside: set<Timer>)
      requires Valid(outside) && heap.elems == {}
      ensures heap.size == 0 && active == {} && forall a :: a in memory ==> memory[a] in outside
    {
      SizesAgree(outside);
    }
  }

  /** A queue the expiry loop never ends for: one timer, due, with an interval of a tenth of a microsecond. */
  method TinyQueue(now: int) returns (q: TimerQueue)
    ensures fresh(q) && q.Valid({}) && |q.heap.elems| == 1 && !DueCoarse(Expirations(q.heap.elems), now)
  {
    q := new TimerQueue(true);
    var id, t := q.AddTimer(0, now, 0.0000001, {});
    assert Expirations(q.heap.elems)[t] == now && q.heap.elems == {t};
  }

  /** Without assertions a cancel leaves a queue whose heap and active set disagree: the heap keeps a freed timer. */
  method BrokenQueue(when: int) returns (q: TimerQueue)
    ensures fresh(q) && !q.Valid({}) && q.active == {} && q.memory == map[] && |q.heap.elems| == 1
  {
    q := new TimerQueue(false);
    var id, t := q.AddTimer(0, when, 0.0, {});
    q.CancelInLoop(id, {});
  }
}
