// The expiry loop as a sequence of rounds: when it ends, and when it does not.
module TimerRounds {
  import opened Timer
  import opened TimerSpec

  /** A round runs the timer on top, whose callback does the commands; new timers are numbered from first. */
  datatype Round = Round(top: Timer, commands: seq<Command>, first: nat, issued: map<nat, Timer>)

  ghost predicate IsRound(timers: map<Timer, int>, after: map<Timer, int>, r: Round, now: int) {
    && r.top in timers && timers[r.top] <= now
    && (forall x :: x in timers ==> timers[r.top] <= timers[x])
    && Later(r.commands, now)
    && RanOne(timers, after, r.top, r.commands, now, r.first, r.issued)
  }

  /** Rounds from the timers in the first map on, with any callbacks that ask for no timer already due. */
  ghost predicate Rounds(maps: seq<map<Timer, int>>, rounds: seq<Round>, now: int) {
    && |maps| == |rounds| + 1
    && forall i :: 0 <= i < |rounds| ==> IsRound(maps[i], maps[i + 1], rounds[i], now)
  }

  /** One of the first n rounds ran another timer whose callback cancelled x. */
  ghost predicate CancelledBy(rounds: seq<Round>, n: nat, x: Timer) {
    exists i :: 0 <= i < n && i < |rounds| && rounds[i].top != x && Cancels(rounds[i].commands, x)
  }

  /** Due, and due again right after it has run. */
  ghost predicate AtOnce(timers: map<Timer, int>, x: Timer, now: int)
    requires x in timers
  {
    timers[x] <= now && !Coarse(x.interval)
  }

  ghost function Due(timers: map<Timer, int>, now: int): set<Timer> {
    set t | t in timers && timers[t] <= now
  }

  /**
   * A due timer with an interval below a microsecond is due after every round, until another one's callback
   * cancels it.
   */
  lemma {:induction false} StaysDue(maps: seq<map<Timer, int>>, rounds: seq<Round>, now: int, x: Timer, i: nat)
    requires Rounds(maps, rounds, now) && x in maps[0] && AtOnce(maps[0], x, now) && i <= |rounds|
    requires !CancelledBy(rounds, i, x)
    ensures x in maps[i] && maps[i][x] <= now
  {
    hide Cancels;
    if i > 0 {
      StaysDue(maps, rounds, now, x, i - 1);
      assert IsRound(maps[i - 1], maps[i - 1 + 1], rounds[i - 1], now);
    }
  }

  /** Whatever is due after some rounds was due before them, and no other one's callback has cancelled it. */
  lemma {:induction false} WasDue(maps: seq<map<Timer, int>>, rounds: seq<Round>, now: int, x: Timer, i: nat)
    requires Rounds(maps, rounds, now) && i <= |rounds| && x in maps[i] && maps[i][x] <= now
    ensures x in maps[0] && maps[0][x] <= now && !CancelledBy(rounds, i, x)
  {
    hide Cancels;
    if i > 0 {
      assert IsRound(maps[i - 1], maps[i - 1 + 1], rounds[i - 1], now);
      WasDue(maps, rounds, now, x, i - 1);
    }
  }

  /** Without such timers every round leaves one timer less due. */
  lemma RoundConsumes(timers: map<Timer, int>, after: map<Timer, int>, r: Round, now: int)
    requires IsRound(timers, after, r, now) && DueCoarse(timers, now)
    ensures DueCoarse(after, now) && Due(after, now) <= Due(timers, now) - {r.top} && r.top in Due(timers, now)
  {
  }

  lemma {:induction false} RoundsConsume(maps: seq<map<Timer, int>>, rounds: seq<Round>, now: int, i: nat, j: nat)
    requires Rounds(maps, rounds, now) && i <= j <= |rounds| && DueCoarse(maps[i], now)
    ensures DueCoarse(maps[j], now) && j - i + |Due(maps[j], now)| <= |Due(maps[i], now)|
  {
    hide IsRound, DueCoarse, Due;
    if i < j {
      RoundsConsume(maps, rounds, now, i, j - 1);
      assert IsRound(maps[j - 1], maps[j - 1 + 1], rounds[j - 1], now);
      RoundConsumes(maps[j - 1], maps[j], rounds[j - 1], now);
      Fewer(Due(maps[j], now), Due(maps[j - 1], now), rounds[j - 1].top);
    }
  }

  lemma Fewer<T>(a: set<T>, b: set<T>, t: T)
    requires a <= b - {t} && t in b
    ensures |a| < |b|
  {
    assert |b - {t}| == |b| - 1;
    Subset(a, b - {t});
  }

  lemma Subset<T>(a: set<T>, b: set<T>)
    requires a <= b
    ensures |a| <= |b|
  {
    assert b == a + (b - a);
  }

  lemma LeastExists(timers: map<Timer, int>, some: set<Timer>) returns (t: Timer)
    requires some != {} && forall x :: x in some ==> x in timers
    ensures t in some && forall x :: x in some ==> timers[t] <= timers[x]
    decreases |some|
  {
    t :| t in some;
    if some != {t} {
      var rest := some - {t};
      var u := LeastExists(timers, rest);
      assert forall x :: x in some ==> x == t || x in rest;
      if timers[u] < timers[t] {
        t := u;
      }
    }
  }

  /** While a timer is due a round is possible, if only with a callback that does nothing. */
  lemma QuietRound(timers: map<Timer, int>, now: int) returns (after: map<Timer, int>, r: Round)
    requires Due(timers, now) != {}
    ensures IsRound(timers, after, r, now) && r.commands == []
  {
    var x :| x in Due(timers, now);
    var top := LeastExists(timers, timers.Keys);
    assert timers[top] <= timers[x] <= now;
    r := Round(top, [], 0, map[]);
    after := if top.Repeat() then timers[top := now + Micros(top.interval)] else timers - {top};
  }

  /** From a due timer with an interval below a microsecond there are as many rounds as one likes. */
  lemma {:induction false} ManyRounds(timers: map<Timer, int>, now: int, x: Timer, n: nat)
    returns (maps: seq<map<Timer, int>>, rounds: seq<Round>)
    requires x in timers && AtOnce(timers, x, now)
    ensures |rounds| == n && Rounds(maps, rounds, now) && maps[0] == timers
    ensures forall i :: 0 <= i < n ==> rounds[i].commands == []
  {
    if n == 0 {
      maps, rounds := [timers], [];
    } else {
      maps, rounds := ManyRounds(timers, now, x, n - 1);
      NoneCancelled(rounds, n - 1, x);
      StaysDue(maps, rounds, now, x, n - 1);
      assert x in Due(maps[n - 1], now);
      var after, r := QuietRound(maps[n - 1], now);
      OneMore(maps, rounds, now, after, r);
      maps, rounds := maps + [after], rounds + [r];
    }
  }

  lemma NoneCancelled(rounds: seq<Round>, n: nat, x: Timer)
    requires n <= |rounds| && forall i :: 0 <= i < n ==> rounds[i].commands == []
    ensures !CancelledBy(rounds, n, x)
  {
  }

  lemma OneMore(maps: seq<map<Timer, int>>, rounds: seq<Round>, now: int, after: map<Timer, int>, r: Round)
    requires Rounds(maps, rounds, now) && IsRound(maps[|rounds|], after, r, now) && r.commands == []
    ensures Rounds(maps + [after], rounds + [r], now)
  {
    hide IsRound;
  }

  /**
   * While callbacks cancel timers, the loop can end only once every due timer with an interval below a
   * microsecond has been cancelled by another one's callback; then it does, within as many rounds as
   * timers are due at that moment.
   */
  lemma EndsOnceCancelled(maps: seq<map<Timer, int>>, rounds: seq<Round>, now: int, i: nat)
    requires Rounds(maps, rounds, now) && i <= |rounds|
    ensures DueCoarse(maps[i], now) <==>
            forall x :: x in maps[0] && AtOnce(maps[0], x, now) ==> CancelledBy(rounds, i, x)
    ensures DueCoarse(maps[i], now) ==> |rounds| - i + |Due(maps[|rounds|], now)| <= |Due(maps[i], now)|
    ensures Due(maps[i], now) == {} ==> DueCoarse(maps[i], now)
  {
    hide IsRound, CancelledBy, Cancels;
    if DueCoarse(maps[i], now) {
      forall x | x in maps[0] && AtOnce(maps[0], x, now)
        ensures CancelledBy(rounds, i, x)
      {
        if !CancelledBy(rounds, i, x) {
          StaysDue(maps, rounds, now, x, i);
        }
      }
      RoundsConsume(maps, rounds, now, i, |rounds|);
    } else {
      var x :| x in maps[i] && maps[i][x] <= now && !Coarse(x.interval);
      WasDue(maps, rounds, now, x, i);
      assert x in Due(maps[i], now);
    }
  }

  /**
   * Whatever the callbacks do, the expiry loop ends exactly if no due timer repeats with an interval below
   * a microsecond. Then it takes at most as many rounds as timers are due, and after that many nothing is;
   * otherwise there is no bound, and as long as some such timer is not cancelled something is due.
   */
  lemma LoopEnds(timers: map<Timer, int>, now: int)
    ensures DueCoarse(timers, now) <==>
            forall maps, rounds :: Rounds(maps, rounds, now) && maps[0] == timers ==> |rounds| <= |Due(timers, now)|
    ensures DueCoarse(timers, now) ==>
            forall maps, rounds :: Rounds(maps, rounds, now) && maps[0] == timers && |rounds| == |Due(timers, now)| ==>
              Due(maps[|rounds|], now) == {}
    ensures forall maps, rounds, i, x ::
              (Rounds(maps, rounds, now) && maps[0] == timers && 0 <= i <= |rounds| &&
               x in timers && AtOnce(timers, x, now) && !CancelledBy(rounds, i, x)) ==> x in Due(maps[i], now)
  {
    hide Due, IsRound, CancelledBy;
    forall maps, rounds, i, x | Rounds(maps, rounds, now) && maps[0] == timers && 0 <= i <= |rounds| &&
                                x in timers && AtOnce(timers, x, now) && !CancelledBy(rounds, i, x)
      ensures x in Due(maps[i], now)
    {
      StaysDueSet(maps, rounds, now, x, i);
    }
    if DueCoarse(timers, now) {
      forall maps, rounds | Rounds(maps, rounds, now) && maps[0] == timers
        ensures |rounds| <= |Due(timers, now)|
        ensures |rounds| == |Due(timers, now)| ==> Due(maps[|rounds|], now) == {}
      {
        RoundsConsume(maps, rounds, now, 0, |rounds|);
      }
    } else {
      var x :| x in timers && AtOnce(timers, x, now);
      var maps, rounds := ManyRounds(timers, now, x, |Due(timers, now)| + 1);
    }
  }

  lemma StaysDueSet(maps: seq<map<Timer, int>>, rounds: seq<Round>, now: int, x: Timer, i: nat)
    requires Rounds(maps, rounds, now) && x in maps[0] && AtOnce(maps[0], x, now) && i <= |rounds|
    requires !CancelledBy(rounds, i, x)
    ensures i < |maps| && x in Due(maps[i], now)
  {
    StaysDue(maps, rounds, now, x, i);
  }
}
