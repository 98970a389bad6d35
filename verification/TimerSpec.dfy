// What the timer queue promises, on values: how its structures agree, what one expiry does to the timers,
// and what becomes of a timer over any sequence of operations.
module TimerSpec {
  import opened Timer

  /** What addTimer hands out; it outlives its timer. */
  datatype TimerId = TimerId(address: Address, sequence: nat)

  /** What a callback asks of the queue; the allocator puts a new timer at the wanted address if that is free. */
  datatype Command =
    | Add(wanted: Address, when: int, interval: real)
    | Cancel(id: TimerId)

  function Id(t: Timer): TimerId {
    TimerId(t.address, t.sequence)
  }

  // ---------- the structures ----------

  /**
   * elems are in the heap, outside are constructed but not in it: being run, or waiting to be added.
   * The active set names the elems, memory holds exactly the living timers at their addresses, and
   * issued is every timer ever constructed by its sequence number.
   */
  ghost predicate Agree(elems: set<Timer>, outside: set<Timer>, active: set<TimerId>, memory: map<Address, Timer>,
                        issued: map<nat, Timer>, numCreated: nat)
  {
    && elems !! outside
    && (forall t :: t in elems ==> Id(t) in active)
    && (forall p :: p in active ==>
          p.address in memory && memory[p.address] in elems && memory[p.address].sequence == p.sequence)
    && (forall t :: t in elems + outside ==> t.address in memory && memory[t.address] == t)
    && (forall a :: a in memory ==> memory[a].address == a && (memory[a] in elems || memory[a] in outside))
    && (forall t :: t in elems + outside ==> t.sequence in issued && issued[t.sequence] == t)
    && (forall n: nat :: n in issued <==> n < numCreated)
    && Numbered(issued)
  }

  ghost predicate Numbered(issued: map<nat, Timer>) {
    forall n :: n in issued ==> issued[n].sequence == n
  }

  /** The timer an identifier was handed out for, as a set; empty if it was for none. */
  ghost function Named(issued: map<nat, Timer>, id: TimerId): set<Timer> {
    if id.sequence in issued && issued[id.sequence].address == id.address then {issued[id.sequence]} else {}
  }

  /** The active set has an identifier exactly if the timer it was handed out for is in the heap. */
  lemma ActiveNames(elems: set<Timer>, outside: set<Timer>, active: set<TimerId>, memory: map<Address, Timer>,
                    issued: map<nat, Timer>, numCreated: nat, id: TimerId)
    requires Agree(elems, outside, active, memory, issued, numCreated)
    ensures id in active <==> exists t :: t in Named(issued, id) && t in elems
    ensures id in active ==>
            id.address in memory && memory[id.address] in elems - outside && Id(memory[id.address]) == id
    ensures id in active ==> Named(issued, id) == {memory[id.address]}
  {
  }

  /** Heap and active set have the same size. */
  lemma SameSize(elems: set<Timer>, outside: set<Timer>, active: set<TimerId>, memory: map<Address, Timer>,
                 issued: map<nat, Timer>, numCreated: nat)
    requires Agree(elems, outside, active, memory, issued, numCreated)
    ensures |elems| == |active|
    decreases |elems|
  {
    if elems == {} {
      assert active == {};
    } else {
      var t :| t in elems;
      AgreeTaken(elems, outside, active, memory, issued, numCreated, t);
      SameSize(elems - {t}, outside + {t}, active - {Id(t)}, memory, issued, numCreated);
    }
  }

  lemma AgreeTaken(elems: set<Timer>, outside: set<Timer>, active: set<TimerId>, memory: map<Address, Timer>,
                   issued: map<nat, Timer>, numCreated: nat, t: Timer)
    requires Agree(elems, outside, active, memory, issued, numCreated) && t in elems
    ensures Id(t) in active && t !in outside
    ensures Agree(elems - {t}, outside + {t}, active - {Id(t)}, memory, issued, numCreated)
  {
  }

  lemma AgreeAdded(elems: set<Timer>, outside: set<Timer>, active: set<TimerId>, memory: map<Address, Timer>,
                   issued: map<nat, Timer>, numCreated: nat, t: Timer)
    requires t !in outside && Agree(elems, outside + {t}, active, memory, issued, numCreated)
    ensures Id(t) !in active && t !in elems
    ensures Agree(elems + {t}, outside, active + {Id(t)}, memory, issued, numCreated)
  {
  }

  lemma AgreeNew(elems: set<Timer>, outside: set<Timer>, active: set<TimerId>, memory: map<Address, Timer>,
                 issued: map<nat, Timer>, numCreated: nat, t: Timer)
    requires Agree(elems, outside, active, memory, issued, numCreated)
    requires t !in elems && t !in outside && t.address !in memory && t.sequence == numCreated
    ensures t.sequence !in issued
    ensures Agree(elems, outside + {t}, active, memory[t.address := t], issued[numCreated := t], numCreated + 1)
  {
  }

  lemma AgreeDeleted(elems: set<Timer>, outside: set<Timer>, active: set<TimerId>, memory: map<Address, Timer>,
                     issued: map<nat, Timer>, numCreated: nat, t: Timer)
    requires t !in outside && Agree(elems, outside + {t}, active, memory, issued, numCreated)
    ensures Agree(elems, outside, active, memory - {t.address}, issued, numCreated)
  {
  }

  /**
   * A cancel takes the timer out of the heap inside an assertion. The structures agree afterwards exactly
   * if assertions are compiled in or there was nothing to cancel; otherwise the heap keeps a freed timer.
   */
  lemma CancelNeedsAssertions(elems: set<Timer>, outside: set<Timer>, active: set<TimerId>, memory: map<Address, Timer>,
                              issued: map<nat, Timer>, numCreated: nat, id: TimerId, assertions: bool)
    requires Agree(elems, outside, active, memory, issued, numCreated)
    ensures Agree(if assertions then elems - Named(issued, id) else elems, outside, active - {id},
                  if id in active then memory - {id.address} else memory, issued, numCreated)
       <==> assertions || id !in active
  {
    ActiveNames(elems, outside, active, memory, issued, numCreated, id);
    if id in active {
      var t := memory[id.address];
      AgreeTaken(elems, outside, active, memory, issued, numCreated, t);
      AgreeDeleted(elems - {t}, outside, active - {id}, memory, issued, numCreated, t);
    } else {
      assert active - {id} == active && elems - Named(issued, id) == elems;
    }
  }

  // ---------- one expiry ----------

  ghost predicate Cancels(commands: seq<Command>, t: Timer) {
    Cancel(Id(t)) in commands
  }

  predicate NoCancel(commands: seq<Command>) {
    forall c :: c in commands ==> c.Add?
  }

  /** The timers that the commands ask for, in order. */
  function Adds(commands: seq<Command>): (r: seq<Command>)
    ensures forall c :: c in r <==> c in commands && c.Add?
  {
    if commands == [] then [] else
    Adds(commands[..|commands| - 1]) + if commands[|commands| - 1].Add? then [commands[|commands| - 1]] else []
  }

  lemma AddsNext(commands: seq<Command>, i: nat)
    requires i < |commands|
    ensures Adds(commands[..i + 1]) == Adds(commands[..i]) + if commands[i].Add? then [commands[i]] else []
  {
    assert commands[..i + 1][..i] == commands[..i];
  }

  /** The timers that the callbacks of those that have run ask for, in order. */
  ghost function Asked(fired: seq<Timer>, callback: nat -> seq<Command>): (r: seq<Command>) {
    if fired == [] then [] else
    Asked(fired[..|fired| - 1], callback) + Adds(callback(fired[|fired| - 1].sequence))
  }

  /** No callback adds a timer that is due already. */
  ghost predicate Later(commands: seq<Command>, now: int) {
    forall c :: c in commands && c.Add? ==> c.when > now
  }

  ghost predicate AllLater(callback: nat -> seq<Command>, now: int) {
    forall n: nat :: Later(callback(n), now)
  }

  ghost function Expirations(timers: set<Timer>): (m: map<Timer, int>)
    reads timers`expiration
    ensures m.Keys == timers
  {
    map t | t in timers :: t.expiration
  }

  lemma ExpirationsWith(elems: set<Timer>, timers: map<Timer, int>, t: Timer)
    requires timers.Keys == elems && forall x :: x in elems ==> timers[x] == x.expiration
    ensures Expirations(elems + {t}) == timers[t := t.expiration]
  {
  }

  lemma ExpirationsWithout(elems: set<Timer>, timers: map<Timer, int>, gone: set<Timer>)
    requires timers.Keys == elems && forall x :: x in elems ==> timers[x] == x.expiration
    ensures Expirations(elems - gone) == timers - gone
  {
  }

  /** A timer cancelled by another one's callback. */
  ghost predicate Cancelled(fired: seq<Timer>, callback: nat -> seq<Command>, t: Timer) {
    exists f :: f in fired && f != t && Cancels(callback(f.sequence), t)
  }

  /**
   * The timers asked for, numbered from first on, and no other new ones: each has its interval and, while
   * it is in the heap, its expiration.
   */
  ghost predicate Answered(asked: seq<Command>, first: nat, issued: map<nat, Timer>,
                           before: map<Timer, int>, timers: map<Timer, int>)
  {
    && (forall n: nat :: first <= n < first + |asked| ==>
         n in issued && Made(asked[n - first], issued[n], before, timers))
    && (forall t :: t in timers && t !in before ==>
          first <= t.sequence < first + |asked| && t.sequence in issued && issued[t.sequence] == t)
  }

  ghost predicate Made(c: Command, t: Timer, before: map<Timer, int>, timers: map<Timer, int>) {
    c.Add? && t !in before && t.interval == c.interval && (t in timers ==> timers[t] == c.when)
  }

  /**
   * What has happened to the timers, before and now with their expirations, once those in fired have run:
   * they were due, ran once each in the order of expiration and were not cancelled before; the timers left
   * are those neither cancelled nor run for their only time, and those the callbacks asked for and did not
   * cancel, none of which is due.
   */
  ghost predicate Progress(before: map<Timer, int>, timers: map<Timer, int>, fired: seq<Timer>,
                           callback: nat -> seq<Command>, now: int, first: nat, issued: map<nat, Timer>)
  {
    && (forall i :: 0 <= i < |fired| ==> fired[i] in before && before[fired[i]] <= now)
    && (forall i, j :: 0 <= i < j < |fired| ==>
          fired[i] != fired[j] && before[fired[i]] <= before[fired[j]] &&
          !Cancels(callback(fired[i].sequence), fired[j]))
    && (forall t :: t in before ==>
          (t in timers <==> (t in fired ==> t.Repeat()) && !Cancelled(fired, callback, t)))
    && (forall t :: t in before && t in timers ==>
         timers[t] == if t in fired then now + Micros(t.interval) else before[t])
    && (forall t, i :: t in timers && 0 <= i < |fired| ==> before[fired[i]] <= timers[t])
    && Answered(Asked(fired, callback), first, issued, before, timers)
    && (forall n: nat :: first <= n < first + |Asked(fired, callback)| && !Cancelled(fired, callback, issued[n]) ==>
         issued[n] in timers)
    && (forall t :: t in timers && t !in before ==> timers[t] > now)
  }

  /** What running the timer at the top does to the timers. */
  ghost predicate RanOne(before: map<Timer, int>, timers: map<Timer, int>, t: Timer, commands: seq<Command>, now: int,
                         first: nat, issued: map<nat, Timer>)
  {
    && (forall x :: x in before && x != t ==>
          (x in timers <==> !Cancels(commands, x)) && (x in timers ==> timers[x] == before[x]))
    && (t in timers <==> t.Repeat())
    && (t in timers ==> timers[t] == now + Micros(t.interval))
    && Answered(Adds(commands), first, issued, before, timers)
    && Kept(commands, first, first + |Adds(commands)|, issued, timers.Keys)
    && (forall x :: x in timers && x !in before ==> timers[x] > now)
  }

  /** When no timer left is due, every timer that was due has run unless it was cancelled first. */
  lemma AllDueFired(before: map<Timer, int>, timers: map<Timer, int>, fired: seq<Timer>,
                    callback: nat -> seq<Command>, now: int, first: nat, issued: map<nat, Timer>, t: Timer)
    requires Progress(before, timers, fired, callback, now, first, issued)
    requires forall x :: x in timers ==> timers[x] > now
    requires t in before
    ensures t in fired ==> before[t] <= now
    ensures before[t] <= now && !Cancelled(fired, callback, t) ==> t in fired
    ensures before[t] > now ==> (t in timers <==> !Cancelled(fired, callback, t))
  {
  }

  lemma NoProgress(before: map<Timer, int>, callback: nat -> seq<Command>, now: int, first: nat,
                   issued: map<nat, Timer>)
    ensures Progress(before, before, [], callback, now, first, issued) && Asked([], callback) == []
  {
  }

  lemma LaterAt(callback: nat -> seq<Command>, now: int, n: nat)
    requires AllLater(callback, now)
    ensures Later(callback(n), now)
  {
  }

  /** The timers that are due now can be due again only after now. */
  ghost predicate DueCoarse(timers: map<Timer, int>, now: int) {
    forall t :: t in timers && timers[t] <= now ==> Coarse(t.interval)
  }

  /** A due timer on top is one of the timers from before, not run yet and not cancelled. */
  lemma TopIsUnfired(before: map<Timer, int>, timers: map<Timer, int>, fired: seq<Timer>,
                     callback: nat -> seq<Command>, now: int, first: nat, issued: map<nat, Timer>, t: Timer)
    requires Progress(before, timers, fired, callback, now, first, issued) && t in timers && timers[t] <= now
    requires DueCoarse(before, now)
    ensures t in before && t !in fired && before[t] == timers[t] && !Cancelled(fired, callback, t)
    ensures forall i :: 0 <= i < |fired| ==>
            fired[i] != t && before[fired[i]] <= before[t] && !Cancels(callback(fired[i].sequence), t)
  {
  }

  lemma CancelledNext(fired: seq<Timer>, callback: nat -> seq<Command>, t: Timer, x: Timer)
    ensures Cancelled(fired + [t], callback, x) <==>
            Cancelled(fired, callback, x) || (t != x && Cancels(callback(t.sequence), x))
  {
  }

  lemma AskedNext(fired: seq<Timer>, callback: nat -> seq<Command>, t: Timer)
    ensures Asked(fired + [t], callback) == Asked(fired, callback) + Adds(callback(t.sequence))
  {
    assert (fired + [t])[..|fired|] == fired;
  }

  /** What one call inside a callback adds to the new timers, or removes. */
  lemma AnsweredAdd(asked: seq<Command>, c: Command, first: nat, issued: map<nat, Timer>,
                    before: map<Timer, int>, timers: map<Timer, int>, t: Timer)
    requires Answered(asked, first, issued, before, timers) && Numbered(issued)
    requires c.Add? && t !in before && t !in timers && t.interval == c.interval
    requires t.sequence == first + |asked| && t.sequence !in issued && forall n :: n in issued ==> issued[n] != t
    ensures Answered(asked + [c], first, issued[t.sequence := t], before, timers[t := c.when])
  {
  }

  lemma AnsweredCancel(asked: seq<Command>, first: nat, issued: map<nat, Timer>,
                       before: map<Timer, int>, timers: map<Timer, int>, gone: set<Timer>)
    requires Answered(asked, first, issued, before, timers)
    ensures Answered(asked, first, issued, before, timers - gone)
  {
  }

  /** The timer that runs, put back among the others. */
  lemma AnsweredTop(asked: seq<Command>, first: nat, issued: map<nat, Timer>, before: map<Timer, int>,
                    timers: map<Timer, int>,
                    before': map<Timer, int>, timers': map<Timer, int>, t: Timer)
    requires Answered(asked, first, issued, before, timers) && Numbered(issued)
    requires t !in before && t !in timers && t.sequence < first
    requires before'.Keys == before.Keys + {t}
    requires timers'.Keys == timers.Keys || timers'.Keys == timers.Keys + {t}
    requires forall x :: x in timers ==> timers'[x] == timers[x]
    ensures Answered(asked, first, issued, before', timers')
  {
    forall n: nat | first <= n < first + |asked|
      ensures n in issued && Made(asked[n - first], issued[n], before', timers')
    {
      assert Made(asked[n - first], issued[n], before, timers) && issued[n].sequence == n;
    }
  }

  lemma NewAreLater(commands: seq<Command>, now: int, first: nat, issued: map<nat, Timer>,
                    before: map<Timer, int>, timers: map<Timer, int>)
    requires Later(commands, now) && Answered(Adds(commands), first, issued, before, timers)
    ensures forall x :: x in timers && x !in before ==> timers[x] > now
  {
    hide Adds;
    forall x | x in timers && x !in before
      ensures timers[x] > now
    {
      var n := x.sequence;
      assert Made(Adds(commands)[n - first], issued[n], before, timers);
      assert Adds(commands)[n - first] in commands;
    }
  }

  /** Running the timer on top between taking it out and putting it back, if it repeats, is a round. */
  lemma RoundIs(before: map<Timer, int>, timers: map<Timer, int>, before': map<Timer, int>, timers': map<Timer, int>,
                t: Timer, commands: seq<Command>, now: int, first: nat, issued: map<nat, Timer>)
    requires t !in before && t !in timers && t.sequence < first && Numbered(issued) && Later(commands, now)
    requires Spared(commands, before.Keys, timers.Keys) && Answered(Adds(commands), first, issued, before, timers)
    requires Kept(commands, first, first + |Adds(commands)|, issued, timers.Keys)
    requires forall x :: x in before && x in timers ==> timers[x] == before[x]
    requires before'.Keys == before.Keys + {t} && forall x :: x in before ==> before'[x] == before[x]
    requires timers'.Keys == timers.Keys + if t.Repeat() then {t} else {}
    requires forall x :: x in timers ==> timers'[x] == timers[x]
    requires t.Repeat() ==> timers'[t] == now + Micros(t.interval)
    ensures RanOne(before', timers', t, commands, now, first, issued)
  {
    hide Answered, Kept, Later, Cancels, Adds;
    AnsweredTop(Adds(commands), first, issued, before, timers, before', timers', t);
    NewAreLater(commands, now, first, issued, before', timers');
    KeptMore(commands, first, first + |Adds(commands)|, issued, timers.Keys, timers'.Keys);
  }

  /** The new timers not cancelled so far are in the heap. */
  ghost predicate Kept(commands: seq<Command>, first: nat, end: nat, issued: map<nat, Timer>, elems: set<Timer>) {
    forall n: nat :: first <= n < end && n in issued && !Cancels(commands, issued[n]) ==> issued[n] in elems
  }

  lemma KeptMore(commands: seq<Command>, first: nat, end: nat, issued: map<nat, Timer>, elems: set<Timer>,
                 more: set<Timer>)
    requires Kept(commands, first, end, issued, elems) && elems <= more
    ensures Kept(commands, first, end, issued, more)
  {
  }

  lemma KeptAdd(commands: seq<Command>, c: Command, first: nat, end: nat, issued: map<nat, Timer>, elems: set<Timer>,
                t: Timer)
    requires Kept(commands, first, end, issued, elems) && c.Add? && end !in issued
    ensures Kept(commands + [c], first, end + 1, issued[end := t], elems + {t})
  {
  }

  lemma KeptCancel(commands: seq<Command>, id: TimerId, first: nat, end: nat, issued: map<nat, Timer>,
                   elems: set<Timer>)
    requires Kept(commands, first, end, issued, elems) && Numbered(issued)
    ensures Kept(commands + [Cancel(id)], first, end, issued, elems - Named(issued, id))
  {
    forall n: nat | first <= n < end && n in issued && !Cancels(commands + [Cancel(id)], issued[n])
      ensures issued[n] in elems - Named(issued, id)
    {
      assert (commands + [Cancel(id)])[|commands|] == Cancel(id);
      assert forall c :: c in commands ==> c in commands + [Cancel(id)];
    }
  }

  /** The old timers are in the heap unless cancelled so far. */
  ghost predicate Spared(commands: seq<Command>, members: set<Timer>, elems: set<Timer>) {
    forall t :: t in members ==> (t in elems <==> !Cancels(commands, t))
  }

  lemma SparedAdd(commands: seq<Command>, c: Command, members: set<Timer>, elems: set<Timer>, t: Timer)
    requires Spared(commands, members, elems) && c.Add? && t !in members
    ensures Spared(commands + [c], members, elems + {t})
  {
  }

  lemma SparedCancel(commands: seq<Command>, id: TimerId, members: set<Timer>, elems: set<Timer>,
                     issued: map<nat, Timer>)
    requires Spared(commands, members, elems) && Numbered(issued)
    requires forall t :: t in members ==> t.sequence in issued && issued[t.sequence] == t
    ensures Spared(commands + [Cancel(id)], members, elems - Named(issued, id))
  {
    forall t | t in members
      ensures t in elems - Named(issued, id) <==> !Cancels(commands + [Cancel(id)], t)
    {
      assert t in Named(issued, id) <==> Id(t) == id;
    }
  }

  /** New timers after one more round: those of before are as they were, those of the round are newer. */
  lemma AnsweredNext(asked: seq<Command>, more: seq<Command>, first: nat, issued: map<nat, Timer>,
                     issued': map<nat, Timer>,
                     before: map<Timer, int>, timers: map<Timer, int>, after: map<Timer, int>)
    requires Answered(asked, first, issued, before, timers)
    requires Answered(more, first + |asked|, issued', timers, after)
    requires Numbered(issued') && forall n :: n in issued ==> n in issued' && issued'[n] == issued[n]
    requires forall t :: t in before ==> t.sequence < first
    requires forall t :: t in after && t in timers && t !in before ==> after[t] == timers[t]
    ensures Answered(asked + more, first, issued', before, after)
  {
    forall n: nat | first <= n < first + |asked + more|
      ensures n in issued' && Made((asked + more)[n - first], issued'[n], before, after)
    {
      if n < first + |asked| {
        assert Made(asked[n - first], issued[n], before, timers);
      } else {
        assert Made(more[n - first - |asked|], issued'[n], timers, after);
      }
    }
  }

  lemma OldNotNew(before: map<Timer, int>, timers: map<Timer, int>, after: map<Timer, int>, more: seq<Command>,
                  first: nat, issued: map<nat, Timer>, x: Timer)
    requires Answered(more, first, issued, timers, after) && x.sequence < first
    ensures x in after ==> x in timers
  {
  }

  /** New timers stay until they are cancelled, and none is due. */
  lemma NewStay(before: map<Timer, int>, timers: map<Timer, int>, after: map<Timer, int>, fired: seq<Timer>,
                callback: nat -> seq<Command>, now: int, t: Timer,
                first: nat, issued: map<nat, Timer>, issued': map<nat, Timer>)
    requires Progress(before, timers, fired, callback, now, first, issued) && t in timers && t in before
    requires RanOne(timers, after, t, callback(t.sequence), now, first + |Asked(fired, callback)|, issued')
    requires forall n :: n in issued ==> n in issued' && issued'[n] == issued[n]
    ensures Answered(Adds(callback(t.sequence)), first + |Asked(fired, callback)|, issued', timers, after)
    ensures forall n: nat :: first <= n < first + |Asked(fired, callback)| + |Adds(callback(t.sequence))| ==>
              n in issued' && (!Cancelled(fired + [t], callback, issued'[n]) ==> issued'[n] in after)
    ensures forall x :: x in after && x !in before ==> after[x] > now
  {
    hide Cancelled, Cancels, Asked, Adds;
    var middle := first + |Asked(fired, callback)|;
    forall n: nat | first <= n < middle + |Adds(callback(t.sequence))|
      ensures n in issued' && (!Cancelled(fired + [t], callback, issued'[n]) ==> issued'[n] in after)
    {
      CancelledNext(fired, callback, t, issued'[n]);
      if n < middle {
        assert Made(Asked(fired, callback)[n - first], issued[n], before, timers);
      } else {
        assert Made(Adds(callback(t.sequence))[n - middle], issued'[n], timers, after);
      }
    }
  }

  lemma ProgressStep(before: map<Timer, int>, timers: map<Timer, int>, after: map<Timer, int>, fired: seq<Timer>,
                     callback: nat -> seq<Command>, now: int, t: Timer,
                     first: nat, issued: map<nat, Timer>, issued': map<nat, Timer>)
    requires Progress(before, timers, fired, callback, now, first, issued) && t in timers && timers[t] <= now
    requires DueCoarse(before, now)
    requires forall x :: x in timers ==> timers[t] <= timers[x]
    requires RanOne(timers, after, t, callback(t.sequence), now, first + |Asked(fired, callback)|, issued')
    requires Numbered(issued') && forall n :: n in issued ==> n in issued' && issued'[n] == issued[n]
    requires forall x :: x in before ==> x.sequence < first
    ensures Progress(before, after, fired + [t], callback, now, first, issued')
  {
    hide Cancelled, Cancels, Asked, Adds, Answered;
    var next, asked, more := fired + [t], Asked(fired, callback), Adds(callback(t.sequence));
    TopIsUnfired(before, timers, fired, callback, now, first, issued, t);
    AskedNext(fired, callback, t);
    NewStay(before, timers, after, fired, callback, now, t, first, issued, issued');
    AnsweredNext(asked, more, first, issued, issued', before, timers, after);
    Fates(before, timers, after, fired, callback, now, t, first, issued, issued');
    assert forall x :: x in next <==> x in fired || x == t;
    hide Micros, Made, Kept;
  }

  /** Which of the timers from before are left, and when they are due, after one more round. */
  lemma Fates(before: map<Timer, int>, timers: map<Timer, int>, after: map<Timer, int>, fired: seq<Timer>,
              callback: nat -> seq<Command>, now: int, t: Timer,
              first: nat, issued: map<nat, Timer>, issued': map<nat, Timer>)
    requires Progress(before, timers, fired, callback, now, first, issued) && t in before && t in timers && t !in fired
    requires RanOne(timers, after, t, callback(t.sequence), now, first + |Asked(fired, callback)|, issued')
    requires forall x :: x in before ==> x.sequence < first
    ensures forall x :: x in before ==>
              (x in after <==> (x in fired + [t] ==> x.Repeat()) && !Cancelled(fired + [t], callback, x))
    ensures forall x :: x in before && x in after ==>
              after[x] == if x in fired + [t] then now + Micros(x.interval) else before[x]
  {
    hide Cancelled, Cancels, Asked, Adds, Answered, Micros, Kept;
    forall x | x in before
      ensures x in after <==> (x in fired + [t] ==> x.Repeat()) && !Cancelled(fired + [t], callback, x)
      ensures x in after ==> after[x] == if x in fired + [t] then now + Micros(x.interval) else before[x]
    {
      CancelledNext(fired, callback, t, x);
      OldNotNew(before, timers, after, Adds(callback(t.sequence)), first + |Asked(fired, callback)|, issued', x);
    }
  }

  // ---------- any sequence of operations ----------

  /** Every timer constructed so far, those in the heap, and those that live: in the heap or outside. */
  datatype Population = Population(issued: map<nat, Timer>, elems: set<Timer>, living: set<Timer>)

  /**
   * What an operation that ran the timers in fired may do: identifiers stay handed out, timers that were
   * not living before are newly constructed, and only timers in the heap are run.
   */
  ghost predicate Changes(v: Population, w: Population, fired: seq<Timer>) {
    && Grown(v.issued, w.issued)
    && (forall t :: t in w.living && t !in v.living ==> t.sequence !in v.issued)
    && (forall t :: t in fired ==> t in v.elems)
  }

  ghost predicate Grown(issued: map<nat, Timer>, issued': map<nat, Timer>) {
    forall n :: n in issued ==> n in issued' && issued'[n] == issued[n]
  }

  lemma GrownSelf(issued: map<nat, Timer>)
    ensures Grown(issued, issued)
  {
  }

  lemma GrownOn(a: map<nat, Timer>, b: map<nat, Timer>, c: map<nat, Timer>)
    requires Grown(a, b) && Grown(b, c)
    ensures Grown(a, c)
  {
  }

  ghost predicate Sound(v: Population) {
    && v.elems <= v.living && Numbered(v.issued)
    && forall t :: t in v.living ==> t.sequence in v.issued && v.issued[t.sequence] == t
  }

  /** The populations along a sequence of operations, and the timers that each of them ran. */
  ghost predicate History(views: seq<Population>, firings: seq<seq<Timer>>) {
    && |views| == |firings| + 1
    && (forall i :: 0 <= i < |views| ==> Sound(views[i]))
    && forall i :: 0 <= i < |firings| ==> Changes(views[i], views[i + 1], firings[i])
  }

  /** An expiry runs timers that were in the heap and brings in none but new ones. */
  lemma ExpiryChanges(v: Population, w: Population, outside: set<Timer>, before: map<Timer, int>,
                      timers: map<Timer, int>,
                      fired: seq<Timer>, callback: nat -> seq<Command>, now: int, first: nat)
    requires Progress(before, timers, fired, callback, now, first, w.issued) && Grown(v.issued, w.issued)
    requires v == Population(v.issued, before.Keys, before.Keys + outside)
    requires w == Population(w.issued, timers.Keys, timers.Keys + outside)
    requires forall n :: n in v.issued ==> n < first
    ensures Changes(v, w, fired)
  {
    hide Grown;
  }

  /**
   * A timer that has left for good, cancelled or run for its only time, is never again in the heap and never
   * runs, and the identifier handed out for it names it still: a cancel finds nothing, whatever lives at its
   * address by then.
   */
  lemma {:induction false} GoneForGood(views: seq<Population>, firings: seq<seq<Timer>>, i: nat, j: nat, id: TimerId)
    requires History(views, firings) && i <= j < |views|
    requires id.sequence in views[i].issued && Id(views[i].issued[id.sequence]) == id
    requires views[i].issued[id.sequence] !in views[i].living
    ensures Named(views[j].issued, id) == Named(views[i].issued, id) == {views[i].issued[id.sequence]}
    ensures Named(views[j].issued, id) !! views[j].living
    ensures forall k :: i <= k < j ==> views[i].issued[id.sequence] !in firings[k]
  {
    if i < j {
      GoneForGood(views, firings, i, j - 1, id);
      assert Changes(views[j - 1], views[j - 1 + 1], firings[j - 1]) && Sound(views[j - 1]);
    }
  }

  /** Two timers never share an identifier, even if one lives where the other did. */
  lemma {:induction false} NamesForGood(views: seq<Population>, firings: seq<seq<Timer>>, i: nat, j: nat)
    requires History(views, firings) && i <= j < |views|
    ensures Grown(views[i].issued, views[j].issued)
    ensures forall t :: t in views[j].living && t !in views[i].living ==> t.sequence !in views[i].issued
  {
    if i < j {
      NamesForGood(views, firings, i, j - 1);
      assert Changes(views[j - 1], views[j - 1 + 1], firings[j - 1]);
    }
  }
}
