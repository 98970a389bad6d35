// What becomes of one batch of buffers, and when no line is lost.
module LogBatch {
  import opened LogSteps

  /** What the file gets for a batch: up to 25 buffers all of them, else a notice and the first two. */
  ghost predicate Outcome(batch: seq<Buffer>, before: seq<Item>, after: seq<Item>) {
    && (|batch| <= 25 ==> after == before + Writes(batch))
    && (|batch| > 25 ==> after == before + [Notice(|batch| - 2), Written(batch[0]), Written(batch[1])])
  }

  function Writes(bs: seq<Buffer>): seq<Item> {
    seq(|bs|, i requires 0 <= i < |bs| => Written(bs[i]))
  }

  /** Where a batch collected with this journal is on its way to the file. */
  ghost predicate UnderWay(batch: seq<Buffer>, before: seq<Item>, s: State) {
    if s.phase == Collected then s.toWrite == batch && s.journal == before && s.written == 0
    else
      && s.phase == Writing && s.written <= |s.toWrite|
      && if |batch| > 25
         then s.toWrite == batch[..2]
              && s.journal == before + [Notice(|batch| - 2)] + Writes(s.toWrite[..s.written])
         else s.toWrite == batch && s.journal == before + Writes(s.toWrite[..s.written])
  }

  lemma UnderWayStep(batch: seq<Buffer>, before: seq<Item>, s: State, a: Action)
    requires UnderWay(batch, before, s) && Enabled(s, a) && !a.Recycle?
    ensures UnderWay(batch, before, Step(s, a))
  {
    if a.Write? {
      var w := s.toWrite[..s.written];
      assert s.toWrite[..s.written + 1] == w + [s.toWrite[s.written]];
      WritesNext(w, s.toWrite[s.written]);
      Assoc(before, Writes(w), [Written(s.toWrite[s.written])]);
      if |batch| > 25 {
        Assoc(before + [Notice(|batch| - 2)], Writes(w), [Written(s.toWrite[s.written])]);
      }
    }
    assert Writes([]) == [] && before + [] == before;
  }

  lemma WritesNext(bs: seq<Buffer>, b: Buffer)
    ensures Writes(bs + [b]) == Writes(bs) + [Written(b)]
  {
  }

  lemma {:induction false} BatchGoesOn(states: seq<State>, actions: seq<Action>, i: nat, j: nat)
    requires Run(states, actions) && i <= j <= |actions| && states[i].phase == Collected && states[i].written == 0
    requires forall k :: i <= k < j ==> !actions[k].Recycle?
    ensures UnderWay(states[i].toWrite, states[i].journal, states[j])
  {
    hide UnderWay, Enabled, Step;
    if i == j {
      JustCollected(states[i]);
    } else {
      BatchGoesOn(states, actions, i, j - 1);
      UnderWayStep(states[i].toWrite, states[i].journal, states[j - 1], actions[j - 1]);
    }
  }

  lemma JustCollected(s: State)
    requires s.phase == Collected && s.written == 0
    ensures UnderWay(s.toWrite, s.journal, s)
  {
  }

  /**
   * Whatever is appended meanwhile, a batch of at most 25 buffers is written in full, in order, without a
   * notice; of a larger one of n buffers exactly the first two, after a notice that says n - 2.
   */
  lemma BatchWritten(states: seq<State>, actions: seq<Action>, i: nat, j: nat)
    requires Run(states, actions) && states[0] == Init() && i <= j < |actions|
    requires states[i].phase == Collected && actions[j].Recycle?
    requires forall k :: i <= k < j ==> !actions[k].Recycle?
    ensures Outcome(states[i].toWrite, states[i].journal, states[j].journal)
    ensures |states[i].toWrite| <= 25 ==>
              && File(states[j].journal) == File(states[i].journal) + Flat(states[i].toWrite)
              && NoticeCount(states[j].journal) == NoticeCount(states[i].journal)
    ensures |states[i].toWrite| > 25 ==>
              && File(states[j].journal) == File(states[i].journal) + states[i].toWrite[0] + states[i].toWrite[1]
              && NoticeCount(states[j].journal) == NoticeCount(states[i].journal) + |states[i].toWrite| - 2
  {
    hide Inv, Step, File, Flat, NoticeCount;
    RunInv(states, actions, i);
    InvWritten(states[i]);
    BatchGoesOn(states, actions, i, j);
    var s, batch, before := states[j], states[i].toWrite, states[i].journal;
    assert Enabled(s, actions[j]);
    assert s.toWrite[..s.written] == s.toWrite;
    if |batch| > 25 {
      var n := Notice(|batch| - 2);
      assert Writes(batch[..2]) == [Written(batch[0]), Written(batch[1])];
      assert s.journal == before + [n] + [Written(batch[0])] + [Written(batch[1])];
      JournalNext(before, n);
      JournalNext(before + [n], Written(batch[0]));
      JournalNext(before + [n] + [Written(batch[0])], Written(batch[1]));
    } else {
      AllWritten(before, batch);
    }
  }

  lemma InvWritten(s: State)
    requires Inv(s)
    ensures s.phase == Collected ==> s.written == 0
  {
  }

  lemma {:induction false} AllWritten(before: seq<Item>, bs: seq<Buffer>)
    ensures File(before + Writes(bs)) == File(before) + Flat(bs)
    ensures NoticeCount(before + Writes(bs)) == NoticeCount(before)
  {
    if bs == [] {
      assert before + Writes(bs) == before;
    } else {
      var n := |bs| - 1;
      AllWritten(before, bs[..n]);
      assert bs == bs[..n] + [bs[n]];
      WritesNext(bs[..n], bs[n]);
      Assoc(before, Writes(bs[..n]), [Written(bs[n])]);
      JournalNext(before + Writes(bs[..n]), Written(bs[n]));
      FlatNext(bs[..n], bs[n]);
      Assoc(File(before), Flat(bs[..n]), bs[n]);
    }
  }

  /** A notice is given only for a batch of more than 25 buffers. */
  lemma {:induction false} NoticesOnly(states: seq<State>, actions: seq<Action>, j: nat)
    requires Run(states, actions) && states[0] == Init() && j <= |actions|
    requires forall i :: 0 <= i < j && states[i].phase == Collected ==> |states[i].toWrite| <= 25
    ensures NoticeCount(states[j].journal) == 0
  {
    hide Inv, NoticeCount;
    if j == 0 {
      NoNotice();
    } else {
      NoticesOnly(states, actions, j - 1);
      QuietStep(states[j - 1], actions[j - 1]);
    }
  }

  lemma NoNotice()
    ensures NoticeCount([]) == 0
  {
  }

  lemma QuietStep(s: State, a: Action)
    requires Enabled(s, a) && (s.phase == Collected ==> |s.toWrite| <= 25)
    ensures NoticeCount(Step(s, a).journal) == NoticeCount(s.journal)
  {
    hide NoticeCount, Through, CutCount, File;
    if a.Write? {
      JournalNext(s.journal, Written(s.toWrite[s.written]));
    }
    if a.Recycle? {
      JournalNext(s.journal, Cut(s.cut));
    }
  }

  /** If no batch has ever had more than 25 buffers, the file is a prefix of the lines appended that fit. */
  lemma NothingLost(states: seq<State>, actions: seq<Action>, j: nat)
    requires Run(states, actions) && states[0] == Init() && j <= |actions|
    requires forall i :: 0 <= i < j && states[i].phase == Collected ==> |states[i].toWrite| <= 25
    ensures File(states[j].journal) <= Fitting(states[j].appended)
  {
    hide Fitting, File, NoticeCount;
    NoticesOnly(states, actions, j);
    Prefix(states, actions, j);
    FileIsPrefix(states[j]);
  }

  lemma Prefix(states: seq<State>, actions: seq<Action>, j: nat)
    requires Run(states, actions) && states[0] == Init() && j <= |actions|
    ensures Reachable(states[j])
  {
    assert Run(states[..j + 1], actions[..j]) && states[..j + 1][|actions[..j]|] == states[j];
  }

  // ---------- the loop around a batch ----------

  /** The logging thread waits exactly if no full buffer is queued; otherwise it collects what is there at once. */
  lemma WaitsExactly(s: State)
    requires Enabled(s, Lock)
    ensures Step(s, Lock).phase == (if s.buffers == [] then Waiting else Collected)
    ensures s.buffers == [] ==> Step(s, Lock) == s.(phase := Waiting)
    ensures s.buffers != [] ==> Step(s, Lock).toWrite == s.buffers + [s.current.b] && Step(s, Lock).buffers == []
  {
  }

  /** Once it is stopped it starts no further round: it leaves, after the round it is in. */
  lemma {:induction false} StopEnds(states: seq<State>, actions: seq<Action>, i: nat, j: nat)
    requires Run(states, actions) && i < j < |actions| && actions[i].Stop?
    ensures !states[j].running && !actions[j].Lock?
    ensures states[j].phase == Locking ==> Enabled(states[j], Exit)
  {
    if i + 1 < j {
      StopEnds(states, actions, i, j - 1);
    }
    assert states[j - 1 + 1] == Step(states[j - 1], actions[j - 1]);
    assert Enabled(states[j], actions[j]);
  }

  /** Until then it does not leave. */
  lemma {:induction false} LeavesOnlyStopped(states: seq<State>, actions: seq<Action>, j: nat)
    requires Run(states, actions) && states[0] == Init() && j <= |actions|
    requires forall i :: 0 <= i < j ==> !actions[i].Stop?
    ensures states[j].running && states[j].phase != Stopped
  {
    if j > 0 {
      LeavesOnlyStopped(states, actions, j - 1);
      assert states[j - 1 + 1] == Step(states[j - 1], actions[j - 1]);
    }
  }

  /** A line given to append is held exactly if it is shorter than 4000000 bytes. */
  lemma HeldExactly(s: State, line: Line)
    requires Reachable(s) && Enabled(s, Append(line)) && s.written <= |s.toWrite|
    ensures Holding(Step(s, Append(line))) == Holding(s) + (if |line| < 4000000 then [line] else [])
  {
    hide Reachable, Holding;
    AppendHolds(s, line);
    assert Holding(s) + [] == Holding(s);
  }

  // ---------- the buffers ----------

  /** The bytes of some lines. */
  function Total(lines: seq<Line>): nat {
    if lines == [] then 0 else |lines[0]| + Total(lines[1..])
  }

  lemma {:induction false} TotalConcat(a: seq<Line>, b: seq<Line>)
    ensures Total(a + b) == Total(a) + Total(b)
  {
    if a == [] {
      assert a + b == b;
    } else {
      assert (a + b)[0] == a[0] && (a + b)[1..] == a[1..] + b;
      TotalConcat(a[1..], b);
    }
  }

  lemma {:induction false} LengthTotal(b: Buffer)
    ensures Length(b) == Total(b)
  {
    if b != [] {
      var n := |b| - 1;
      LengthTotal(b[..n]);
      assert b == b[..n] + [b[n]];
      TotalConcat(b[..n], [b[n]]);
      assert Total([b[n]]) == |b[n]| + Total([]);
    }
  }

  /** A line goes into the current buffer if that leaves a byte free of 4000000; else another buffer is begun. */
  lemma BeginsExactly(s: State, line: Line)
    requires Reachable(s) && Enabled(s, Append(line))
    ensures var r := Step(s, Append(line));
      && r.current.To?
      && if Total(s.current.b) + |line| < 4000000 then r.buffers == s.buffers && r.current.b == s.current.b + [line]
         else r.buffers == s.buffers + [s.current.b] && r.current.b == if |line| < 4000000 then [line] else []
  {
    ReachableInv(s);
    LengthTotal(s.current.b);
    assert Length([]) == 0;
    assert [] + [line] == [line];
    hide Length, Conserved, Noticed;
  }

  /** No buffer ever holds 4000000 bytes or more. */
  ghost predicate Bounded(s: State) {
    && (s.current.To? ==> Total(s.current.b) < 4000000)
    && forall b :: b in s.buffers || b in s.toWrite ==> Total(b) < 4000000
  }

  lemma BoundedStep(s: State, a: Action)
    requires Reachable(s) && Enabled(s, a) && Bounded(s)
    ensures Bounded(Step(s, a))
  {
    assert Total([]) == 0;
    if a.Append? {
      BeginsExactly(s, a.line);
      TotalConcat(s.current.b, [a.line]);
      assert Total([a.line]) == |a.line| + Total([]);
      hide Reachable, Added, Length, Total;
    } else {
      SparesEmpty(s);
      hide Reachable, Total;
    }
  }

  lemma SparesEmpty(s: State)
    requires Reachable(s)
    ensures s.phase == Locking || s.phase == Waiting ==> s.new1 == To([])
  {
    ReachableInv(s);
  }

  lemma {:induction false} BuffersBounded(states: seq<State>, actions: seq<Action>, j: nat)
    requires Run(states, actions) && states[0] == Init() && j <= |actions|
    ensures Bounded(states[j])
  {
    hide Step, Enabled, Bounded, Reachable;
    if j == 0 {
      NoneBounded();
    } else {
      BuffersBounded(states, actions, j - 1);
      Prefix(states, actions, j - 1);
      BoundedStep(states[j - 1], actions[j - 1]);
      assert states[j - 1 + 1] == Step(states[j - 1], actions[j - 1]);
    }
  }

  lemma NoneBounded()
    ensures Bounded(Init())
  {
  }
}
