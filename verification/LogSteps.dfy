// The double-buffered log as interleaved atomic steps: any thread appends under the mutex, the logging
// thread collects the buffers under it, writes them out and recycles two of them.
module LogSteps {
  type Line = string
  type Buffer = seq<Line>

  /** Bytes in a buffer. */
  const LARGE_BUFFER := 4000 * 1000
  /** A batch with more buffers than this is cut down to the first KEPT. */
  const MAX_BATCH := 25
  const KEPT := 2

  /** A unique pointer: null once moved from. */
  datatype Ptr = Null | To(b: Buffer)

  function Length(b: Buffer): nat {
    if b == [] then 0 else Length(b[..|b| - 1]) + |b[|b| - 1]|
  }

  /** FixedBuffer::append: a line that does not leave a byte free is ignored. */
  function Added(b: Buffer, line: Line): Buffer {
    if Length(b) + |line| < LARGE_BUFFER then b + [line] else b
  }

  /** What the logging thread did with a batch: a notice in the file, a buffer written, buffers cut. */
  datatype Item = Notice(n: nat) | Written(b: Buffer) | Cut(bs: seq<Buffer>)

  /**
   * Of the logging thread: about to lock; waiting on the condition, the mutex released; with the batch
   * unlocked; writing it; after the loop.
   */
  datatype Phase = Locking | Waiting | Collected | Writing | Stopped

  /**
   * The fields under the mutex, the logging thread's locals (written: how many of toWrite are in the
   * file; cut: those dropped from this batch), and history: lines given to append, and what was done.
   */
  datatype State = State(current: Ptr, next: Ptr, buffers: seq<Buffer>, running: bool,
                         phase: Phase, new1: Ptr, new2: Ptr, toWrite: seq<Buffer>, written: nat, cut: seq<Buffer>,
                         appended: seq<Line>, journal: seq<Item>)

  datatype Action = Append(line: Line) | Stop | Lock | Wake | Drop | Write | Recycle | Exit

  function Init(): State {
    State(To([]), To([]), [], true, Locking, To([]), To([]), [], 0, [], [], [])
  }

  predicate Enabled(s: State, a: Action) {
    match a
    case Append(line) => |line| <= LARGE_BUFFER && s.current.To?
    case Stop => true
    case Lock => s.phase == Locking && s.running && s.current.To?
    case Wake => s.phase == Waiting && s.current.To?
    case Drop => s.phase == Collected
    case Write => s.phase == Writing && s.written < |s.toWrite|
    case Recycle => s.phase == Writing && s.written == |s.toWrite|
    case Exit => s.phase == Locking && !s.running
  }

  function Appended(s: State, line: Line): State
    requires s.current.To?
  {
    var h := s.(appended := s.appended + [line]);
    if Length(s.current.b) + |line| < LARGE_BUFFER then
      h.(current := To(Added(s.current.b, line)))
    else
      var spare := if s.next.To? then s.next.b else [];
      h.(buffers := s.buffers + [s.current.b], current := To(Added(spare, line)), next := Null)
  }

  /** The rest of the critical section: the current buffer joins the batch, spare ones take its place. */
  function Collect(s: State): State
    requires s.current.To?
  {
    s.(toWrite := s.buffers + [s.current.b], buffers := [], current := s.new1, new1 := Null,
       next := if s.next.Null? then s.new2 else s.next,
       new2 := if s.next.Null? then Null else s.new2,
       written := 0, phase := Collected)
  }

  function Dropped(s: State): State {
    if |s.toWrite| > MAX_BATCH then
      s.(journal := s.journal + [Notice(|s.toWrite| - KEPT)],
         cut := s.toWrite[KEPT..], toWrite := s.toWrite[..KEPT], phase := Writing)
    else
      s.(phase := Writing)
  }

  /** The spare buffers moved away come back from the batch, emptied; null stays null if none is left. */
  function Recycled(s: State): State {
    var bs := if |s.toWrite| > 2 then s.toWrite[..2] else s.toWrite;
    var take1 := s.new1.Null? && bs != [];
    var rest := if take1 then bs[..|bs| - 1] else bs;
    var take2 := s.new2.Null? && rest != [];
    s.(new1 := if take1 then To([]) else s.new1, new2 := if take2 then To([]) else s.new2,
       toWrite := [], written := 0, cut := [], phase := Locking,
       journal := if s.cut == [] then s.journal else s.journal + [Cut(s.cut)])
  }

  function Step(s: State, a: Action): State
    requires Enabled(s, a)
  {
    match a
    case Append(line) => Appended(s, line)
    case Stop => s.(running := false)
    case Lock => if s.buffers == [] then s.(phase := Waiting) else Collect(s)
    case Wake => Collect(s)
    case Drop => Dropped(s)
    case Write => s.(journal := s.journal + [Written(s.toWrite[s.written])], written := s.written + 1)
    case Recycle => Recycled(s)
    case Exit => s.(phase := Stopped)
  }

  ghost predicate Run(states: seq<State>, actions: seq<Action>) {
    && |states| == |actions| + 1
    && forall i :: 0 <= i < |actions| ==> Enabled(states[i], actions[i]) && states[i + 1] == Step(states[i], actions[i])
  }

  ghost predicate Reachable(s: State) {
    exists states, actions :: Run(states, actions) && states[0] == Init() && states[|actions|] == s
  }

  /** The lines of some buffers, in order. */
  function Flat(bs: seq<Buffer>): (lines: seq<Line>) {
    if bs == [] then [] else Flat(bs[..|bs| - 1]) + bs[|bs| - 1]
  }

  /** The lines that went through the logging thread, written or cut, in order. */
  function Through(journal: seq<Item>): (lines: seq<Line>) {
    if journal == [] then [] else
    Through(journal[..|journal| - 1]) +
    match journal[|journal| - 1]
    case Notice(_) => []
    case Written(b) => b
    case Cut(bs) => Flat(bs)
  }

  /** The lines given to append that fit a buffer. */
  function Fitting(lines: seq<Line>): (r: seq<Line>) {
    if lines == [] then [] else
    var rest := Fitting(lines[..|lines| - 1]);
    if |lines[|lines| - 1]| < LARGE_BUFFER then rest + [lines[|lines| - 1]] else rest
  }

  /** Every line still held: being written, about to be counted as cut, queued, or in the current buffer. */
  function Holding(s: State): (lines: seq<Line>)
    requires s.written <= |s.toWrite|
  {
    Flat(s.toWrite[s.written..]) + Flat(s.cut) + Flat(s.buffers) + (if s.current.To? then s.current.b else [])
  }

  /** Buffers cut so far, and buffers the notices say were dropped. */
  function CutCount(journal: seq<Item>): (n: nat) {
    if journal == [] then 0 else
    CutCount(journal[..|journal| - 1]) + match journal[|journal| - 1] case Cut(bs) => |bs| case _ => 0
  }

  function NoticeCount(journal: seq<Item>): (n: nat) {
    if journal == [] then 0 else
    NoticeCount(journal[..|journal| - 1]) + match journal[|journal| - 1] case Notice(n) => n case _ => 0
  }

  /** The lines in the file. */
  function File(journal: seq<Item>): (lines: seq<Line>) {
    if journal == [] then [] else
    File(journal[..|journal| - 1]) + match journal[|journal| - 1] case Written(b) => b case _ => []
  }

  predicate Spare(p: Ptr) {
    p == To([])
  }

  /** The buffer assertions: between batches both spare buffers are there and empty; a batch can refill them. */
  predicate PoolOk(s: State) {
    && s.current.To?
    && (s.next.Null? ==> s.buffers != []) && (s.next.To? ==> Spare(s.next))
    && (s.phase == Collected || s.phase == Writing ==>
          s.new1.Null? && s.toWrite != [] && if s.new2.Null? then |s.toWrite| >= 2 else Spare(s.new2))
    && (s.phase != Collected && s.phase != Writing ==>
          Spare(s.new1) && Spare(s.new2) && s.toWrite == [] && s.cut == [])
    && (s.phase == Collected ==> s.cut == [])
    && s.written <= |s.toWrite| && (s.phase != Writing ==> s.written == 0)
  }

  predicate Conserved(s: State)
    requires s.written <= |s.toWrite|
  {
    Fitting(s.appended) == Through(s.journal) + Holding(s)
  }

  predicate Noticed(s: State) {
    CutCount(s.journal) + |s.cut| == NoticeCount(s.journal)
  }

  ghost predicate Inv(s: State) {
    PoolOk(s) && Conserved(s) && Noticed(s)
  }

  lemma FlatNext(bs: seq<Buffer>, b: Buffer)
    ensures Flat(bs + [b]) == Flat(bs) + b
  {
  }

  lemma {:induction false} FlatConcat(as_: seq<Buffer>, bs: seq<Buffer>)
    ensures Flat(as_ + bs) == Flat(as_) + Flat(bs)
  {
    if bs == [] {
      assert as_ + bs == as_;
    } else {
      var n := |bs| - 1;
      assert as_ + bs == (as_ + bs[..n]) + [bs[n]] && bs == bs[..n] + [bs[n]];
      FlatConcat(as_, bs[..n]);
      FlatNext(as_ + bs[..n], bs[n]);
    }
  }

  lemma FlatFirst(bs: seq<Buffer>, k: nat)
    requires k < |bs|
    ensures Flat(bs[k..]) == bs[k] + Flat(bs[k + 1..])
  {
    var none: seq<Buffer> := [];
    assert bs[k..] == [bs[k]] + bs[k + 1..] && [bs[k]] == none + [bs[k]];
    FlatNext(none, bs[k]);
    FlatConcat([bs[k]], bs[k + 1..]);
  }

  lemma JournalNext(journal: seq<Item>, i: Item)
    ensures Through(journal + [i]) == Through(journal) +
            match i case Notice(_) => [] case Written(b) => b case Cut(bs) => Flat(bs)
    ensures CutCount(journal + [i]) == CutCount(journal) + match i case Cut(bs) => |bs| case _ => 0
    ensures NoticeCount(journal + [i]) == NoticeCount(journal) + match i case Notice(n) => n case _ => 0
    ensures File(journal + [i]) == File(journal) + match i case Written(b) => b case _ => []
  {
  }

  lemma FittingNext(lines: seq<Line>, line: Line)
    ensures Fitting(lines + [line]) == Fitting(lines) + if |line| < LARGE_BUFFER then [line] else []
  {
  }

  lemma PoolStep(s: State, a: Action)
    requires PoolOk(s) && Enabled(s, a)
    ensures PoolOk(Step(s, a))
  {
    hide Length;
    match a
    case Append(line) => hide Added;
    case Recycle => PoolRecycle(s);
    case _ =>
  }

  lemma PoolRecycle(s: State)
    requires PoolOk(s) && Enabled(s, Recycle)
    ensures PoolOk(Recycled(s))
  {
  }

  lemma NoticedStep(s: State, a: Action)
    requires PoolOk(s) && Noticed(s) && Enabled(s, a)
    ensures Noticed(Step(s, a))
  {
    hide CutCount, NoticeCount, Through, File, Added;
    match a
    case Drop =>
      if |s.toWrite| > MAX_BATCH {
        JournalNext(s.journal, Notice(|s.toWrite| - KEPT));
      }
    case Write => JournalNext(s.journal, Written(s.toWrite[s.written]));
    case Recycle => NoticedRecycle(s);
    case _ =>
  }

  lemma NoticedRecycle(s: State)
    requires Noticed(s)
    ensures Noticed(Recycled(s))
  {
    hide CutCount, NoticeCount, Through, File;
    JournalNext(s.journal, Cut(s.cut));
  }

  /** Four parts one after the other; lines move from the front of them to what is before, or join at the end. */
  function Four(a: seq<Line>, b: seq<Line>, c: seq<Line>, d: seq<Line>): seq<Line> {
    a + b + c + d
  }

  lemma FrontMoves(t: seq<Line>, w: seq<Line>, a: seq<Line>, b: seq<Line>, c: seq<Line>, d: seq<Line>)
    ensures t + Four(w + a, b, c, d) == (t + w) + Four(a, b, c, d)
    ensures t + Four([], w, c, d) == (t + w) + Four([], [], c, d)
  {
  }

  lemma EndJoins(t: seq<Line>, a: seq<Line>, b: seq<Line>, c: seq<Line>, d: seq<Line>, e: seq<Line>)
    ensures t + Four(a, b, c, d) + e == t + Four(a, b, c, d + e)
    ensures t + Four(a, b, c, d) + e == t + Four(a, b, c + d, e)
  {
  }

  lemma CutJoins(a: seq<Line>, b: seq<Line>, c: seq<Line>, d: seq<Line>)
    ensures Four(a + b, [], c, d) == Four(a, b, c, d)
  {
  }

  lemma NoneFlat()
    ensures Flat([]) == []
  {
  }

  lemma ConservedAppend(s: State, line: Line)
    requires PoolOk(s) && Conserved(s) && |line| <= LARGE_BUFFER
    ensures PoolOk(Appended(s, line)) && Conserved(Appended(s, line))
  {
    hide Flat, Fitting, Through, Four;
    HoldingParts(s);
    HoldingParts(Appended(s, line));
    FittingNext(s.appended, line);
    FlatNext(s.buffers, s.current.b);
    EndJoins(Through(s.journal), Flat(s.toWrite[s.written..]), Flat(s.cut), Flat(s.buffers), s.current.b,
             if |line| < LARGE_BUFFER then [line] else []);
  }

  lemma HoldingParts(s: State)
    requires s.written <= |s.toWrite| && s.current.To?
    ensures Holding(s) == Four(Flat(s.toWrite[s.written..]), Flat(s.cut), Flat(s.buffers), s.current.b)
  {
  }

  lemma ConservedCollect(s: State)
    requires PoolOk(s) && Conserved(s) && (s.phase == Locking || s.phase == Waiting)
    ensures PoolOk(Collect(s)) && Conserved(Collect(s))
  {
    var r := Collect(s);
    var all := s.buffers + [s.current.b];
    PoolCollect(s);
    hide Flat, Fitting, Through, Four, Holding, PoolOk;
    HoldingParts(s);
    HoldingParts(r);
    NoneFlat();
    FlatNext(s.buffers, s.current.b);
    assert s.toWrite[s.written..] == [] && r.toWrite[r.written..] == all;
    FourCollect(Flat(s.buffers), s.current.b);
  }

  lemma FourCollect(c: seq<Line>, d: seq<Line>)
    ensures Four([], [], c, d) == Four(c + d, [], [], [])
  {
  }

  lemma PoolCollect(s: State)
    requires PoolOk(s) && (s.phase == Locking || s.phase == Waiting)
    ensures PoolOk(Collect(s)) && s.toWrite == [] && s.cut == [] && s.written == 0
    ensures Collect(s).current == To([]) && s.current.To?
  {
  }

  lemma ConservedDrop(s: State)
    requires PoolOk(s) && Conserved(s) && Enabled(s, Drop)
    ensures PoolOk(Dropped(s)) && Conserved(Dropped(s))
  {
    hide Flat, Fitting, Through, Four, Holding, Length;
    if |s.toWrite| > MAX_BATCH {
      var r := Dropped(s);
      HoldingParts(s);
      HoldingParts(r);
      JournalNext(s.journal, Notice(|s.toWrite| - KEPT));
      FlatConcat(s.toWrite[..KEPT], s.toWrite[KEPT..]);
      assert s.toWrite == s.toWrite[..KEPT] + s.toWrite[KEPT..];
      assert s.toWrite[0..] == s.toWrite && r.toWrite[0..] == r.toWrite;
      CutJoins(Flat(r.toWrite), Flat(r.cut), Flat(s.buffers), s.current.b);
      NoneFlat();
    } else {
      HoldingParts(s);
      HoldingParts(Dropped(s));
    }
  }

  lemma ConservedWrite(s: State)
    requires PoolOk(s) && Conserved(s) && Enabled(s, Write)
    ensures PoolOk(Step(s, Write)) && Conserved(Step(s, Write))
  {
    hide Flat, Fitting, Through, Four, Holding;
    HoldingParts(s);
    HoldingParts(Step(s, Write));
    JournalNext(s.journal, Written(s.toWrite[s.written]));
    FlatFirst(s.toWrite, s.written);
    FrontMoves(Through(s.journal), s.toWrite[s.written], Flat(s.toWrite[s.written + 1..]), Flat(s.cut),
               Flat(s.buffers), s.current.b);
  }

  lemma ConservedRecycle(s: State)
    requires PoolOk(s) && Conserved(s) && Enabled(s, Recycle)
    ensures PoolOk(Recycled(s)) && Conserved(Recycled(s))
  {
    FlatNone(s);
    hide Flat, Fitting, Through, Four, Holding;
    HoldingParts(s);
    HoldingParts(Recycled(s));
    JournalNext(s.journal, Cut(s.cut));
    FrontMoves(Through(s.journal), Flat(s.cut), [], [], Flat(s.buffers), s.current.b);
  }

  lemma FlatNone(s: State)
    requires s.written == |s.toWrite|
    ensures Flat(s.toWrite[s.written..]) == [] && Flat([]) == [] && Flat([][0..]) == []
  {
  }

  lemma StepKeepsInv(s: State, a: Action)
    requires Inv(s) && Enabled(s, a)
    ensures Inv(Step(s, a))
  {
    hide PoolOk, Noticed, Fitting, Through, Holding, Flat;
    Bounded(s);
    PoolStep(s, a);
    NoticedStep(s, a);
    match a
    case Append(line) => ConservedAppend(s, line);
    case Lock => ConservedLock(s);
    case Wake => ConservedCollect(s);
    case Drop => ConservedDrop(s);
    case Write => ConservedWrite(s);
    case Recycle => ConservedRecycle(s);
    case Stop => ConservedOther(s, a);
    case Exit => ConservedOther(s, a);
  }

  lemma ConservedOther(s: State, a: Action)
    requires PoolOk(s) && Conserved(s) && Enabled(s, a) && (a.Stop? || a.Exit?)
    ensures PoolOk(Step(s, a)) && Conserved(Step(s, a))
  {
  }

  lemma Bounded(s: State)
    requires PoolOk(s)
    ensures s.written <= |s.toWrite|
  {
  }

  lemma ConservedLock(s: State)
    requires PoolOk(s) && Conserved(s) && Enabled(s, Lock)
    ensures PoolOk(Step(s, Lock)) && Conserved(Step(s, Lock))
  {
    if s.buffers == [] {
      hide Flat, Fitting, Through;
    } else {
      hide Flat, Fitting, Through, Holding, PoolOk, Conserved;
      ConservedCollect(s);
    }
  }

  lemma {:induction false} RunInv(states: seq<State>, actions: seq<Action>, i: nat)
    requires Run(states, actions) && states[0] == Init() && i <= |actions|
    ensures Inv(states[i])
  {
    if i > 0 {
      RunInv(states, actions, i - 1);
      StepKeepsInv(states[i - 1], actions[i - 1]);
    }
  }

  lemma ReachableInv(s: State)
    requires Reachable(s)
    ensures Inv(s)
  {
    hide Inv;
    var states, actions :| Run(states, actions) && states[0] == Init() && states[|actions|] == s;
    RunInv(states, actions, |actions|);
  }

  /**
   * Conservation: in every reachable state the lines given to append that fit a buffer are, in order,
   * those written or cut, and those held; the notices count the buffers cut.
   */
  lemma LinesConserved(s: State)
    requires Reachable(s)
    ensures s.written <= |s.toWrite| && Fitting(s.appended) == Through(s.journal) + Holding(s)
    ensures CutCount(s.journal) + |s.cut| == NoticeCount(s.journal)
  {
    ReachableInv(s);
  }

  /** While no notice is in the file, it holds a prefix of the lines appended. */
  lemma FileIsPrefix(s: State)
    requires Reachable(s) && NoticeCount(s.journal) == 0
    ensures File(s.journal) <= Fitting(s.appended)
  {
    LinesConserved(s);
    NothingCut(s.journal);
  }

  lemma {:induction false} NothingCut(journal: seq<Item>)
    requires CutCount(journal) == 0
    ensures File(journal) == Through(journal)
  {
    if journal != [] {
      NothingCut(journal[..|journal| - 1]);
    }
  }

  /**
   * The assertions of the logging thread: it starts every round with two empty spare buffers and an empty
   * batch, and every batch has a buffer for each spare one that was moved away.
   */
  lemma AssertionsHold(s: State)
    requires Reachable(s)
    ensures s.current.To?
    ensures s.phase == Locking ==> s.new1 == To([]) && s.new2 == To([]) && s.toWrite == []
    ensures s.phase == Collected ==> s.toWrite != []
    ensures Enabled(s, Recycle) ==> |s.toWrite| >= (if s.new1.Null? then 1 else 0) + (if s.new2.Null? then 1 else 0)
    ensures Enabled(s, Recycle) ==> Step(s, Recycle).new1 == To([]) && Step(s, Recycle).new2 == To([])
  {
    hide Conserved, Noticed;
    ReachableInv(s);
  }

  /** A line append is called with is held exactly if it leaves a byte of an empty buffer free. */
  lemma AppendHolds(s: State, line: Line)
    requires Reachable(s) && Enabled(s, Append(line)) && s.written <= |s.toWrite|
    ensures Holding(Step(s, Append(line))) == Holding(s) + [line] <==> |line| < LARGE_BUFFER
    ensures |line| == LARGE_BUFFER ==> Holding(Step(s, Append(line))) == Holding(s)
  {
    hide Noticed, Fitting, Through, Holding, Reachable;
    ReachableInv(s);
    StepKeepsInv(s, Append(line));
    FittingNext(s.appended, line);
    var r := Appended(s, line);
    var e := if |line| < LARGE_BUFFER then [line] else [];
    Assoc(Through(s.journal), Holding(s), e);
    Cancel(Through(s.journal), Holding(r), Holding(s) + e);
  }

  lemma Assoc<T>(a: seq<T>, b: seq<T>, c: seq<T>)
    ensures a + b + c == a + (b + c)
  {
  }

  lemma Cancel<T>(a: seq<T>, b: seq<T>, c: seq<T>)
    requires a + b == a + c
    ensures b == c
  {
    assert b == (a + b)[|a|..] && c == (a + c)[|a|..];
  }
}
