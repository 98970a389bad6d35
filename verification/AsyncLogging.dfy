// The async logger: a fixed buffer filled in place, and the methods of the logger, each a step of the
// interleaved protocol.
module AsyncLogging {
  import opened LogSteps

  function Bytes(b: Buffer): (s: string)
    ensures |s| == Length(b)
  {
    if b == [] then [] else Bytes(b[..|b| - 1]) + b[|b| - 1]
  }

  lemma BytesNext(b: Buffer, line: Line)
    ensures Bytes(b + [line]) == Bytes(b) + line
  {
  }

  /** A fixed block of memory with a position: what is before the position are the bytes of whole lines. */
  class FixedBuffer {
    const data: array<char>
    var cur: nat
    ghost var lines: Buffer

    ghost predicate Valid()
      reads this, data
    {
      data.Length == LARGE_BUFFER && cur <= LARGE_BUFFER && data[..cur] == Bytes(lines)
    }

    constructor ()
      ensures Valid() && lines == [] && fresh(data)
    {
      data := new char[LARGE_BUFFER];
      cur := 0;
      lines := [];
    }

    function Avail(): nat
      requires Valid()
      reads this, data
    {
      LARGE_BUFFER - cur
    }

    /** Copies the line behind the position if that leaves a byte free. */
    method Append(line: Line)
      requires Valid()
      modifies this, data
      ensures Valid() && lines == Added(old(lines), line)
    {
      if Avail() > |line| {
        ghost var before := data[..cur];
        for i := 0 to |line|
          invariant cur == old(cur) && lines == old(lines) && cur + |line| < data.Length
          invariant data[..cur] == before && data[cur..cur + i] == line[..i]
        {
          data[cur + i] := line[i];
        }
        BytesNext(lines, line);
        cur := cur + |line|;
        assert data[..cur] == before + line;
        lines := lines + [line];
      }
    }

    /** Empties the buffer without touching its bytes. */
    method Reset()
      requires Valid()
      modifies this
      ensures Valid() && lines == []
    {
      cur := 0;
      lines := [];
    }
  }

  /** The state after the rest of a batch is written. */
  function WrittenOut(s: State): State
    decreases |s.toWrite| - s.written
  {
    if Enabled(s, Write) then WrittenOut(Step(s, Write)) else s
  }

  lemma CollectKeeps(s: State)
    requires Inv(s) && (s.phase == Locking || s.phase == Waiting)
    ensures Inv(Collect(s)) && Spare(s.new1) && Spare(s.new2) && s.toWrite == [] && s.current.To? && s.written == 0
  {
    hide Conserved, Length;
    ConservedCollect(s);
  }

  lemma RecycleRefills(s: State)
    requires Inv(s) && Enabled(s, Recycle)
    ensures s.new1.Null? && s.toWrite != []
    ensures if s.new2.Null? then |s.toWrite| >= 2 else Spare(s.new2)
    ensures Step(s, Recycle) == s.(new1 := To([]), new2 := To([]), toWrite := [], written := 0, cut := [],
                                   phase := Locking,
                                   journal := if s.cut == [] then s.journal else s.journal + [Cut(s.cut)])
  {
  }

  class AsyncLogging {
    var currentBuffer: Ptr
    var nextBuffer: Ptr
    var buffers: seq<Buffer>
    var running: bool
    var phase: Phase
    var newBuffer1: Ptr
    var newBuffer2: Ptr
    var buffersToWrite: seq<Buffer>
    var written: nat
    var cut: seq<Buffer>
    var appended: seq<Line>
    var journal: seq<Item>

    function View(): State
      reads this
    {
      State(currentBuffer, nextBuffer, buffers, running, phase, newBuffer1, newBuffer2,
            buffersToWrite, written, cut, appended, journal)
    }

    constructor ()
      ensures View() == Init()
    {
      currentBuffer, nextBuffer, buffers, running, phase := To([]), To([]), [], true, Locking;
      newBuffer1, newBuffer2, buffersToWrite, written, cut := To([]), To([]), [], 0, [];
      appended, journal := [], [];
    }

    method Append(line: Line)
      requires Enabled(View(), LogSteps.Append(line))
      modifies `currentBuffer, `nextBuffer, `buffers, `appended
      ensures View() == Step(old(View()), LogSteps.Append(line))
    {
      appended := appended + [line];
      if LARGE_BUFFER - Length(currentBuffer.b) > |line| {
        currentBuffer := To(Added(currentBuffer.b, line));
      } else {
        buffers := buffers + [currentBuffer.b];
        currentBuffer := Null;
        if nextBuffer.To? {
          currentBuffer, nextBuffer := nextBuffer, Null;
        } else {
          currentBuffer := To([]);
        }
        currentBuffer := To(Added(currentBuffer.b, line));
      }
    }

    /** The critical section after the wait, if there was one. */
    method CollectBatch()
      requires Inv(View()) && (phase == Locking || phase == Waiting)
      modifies this
      ensures View() == Collect(old(View())) && Inv(View()) && buffersToWrite != []
    {
      hide Inv, Length;
      CollectKeeps(View());
      assert newBuffer1.To? && newBuffer1.b == [] && newBuffer2.To? && newBuffer2.b == [] && buffersToWrite == [];
      buffers := buffers + [currentBuffer.b];
      currentBuffer, newBuffer1 := newBuffer1, Null;
      buffersToWrite, buffers := buffers, buffersToWrite;
      if nextBuffer.Null? {
        nextBuffer, newBuffer2 := newBuffer2, Null;
      }
      phase := Collected;
    }

    /** Cuts a batch that has grown too large, and says so in the file. */
    method DropExcess()
      requires phase == Collected
      modifies this
      ensures View() == Step(old(View()), Drop)
    {
      if |buffersToWrite| > MAX_BATCH {
        journal := journal + [Notice(|buffersToWrite| - KEPT)];
        cut := buffersToWrite[KEPT..];
        buffersToWrite := buffersToWrite[..KEPT];
      }
      phase := Writing;
    }

    method WriteBatch()
      requires phase == Writing && written <= |buffersToWrite|
      modifies `journal, `written
      ensures View() == WrittenOut(old(View())) && written == |buffersToWrite|
    {
      while written < |buffersToWrite|
        invariant written <= |buffersToWrite| && WrittenOut(View()) == WrittenOut(old(View()))
      {
        journal := journal + [Written(buffersToWrite[written])];
        written := written + 1;
      }
    }

    /** Empties two buffers of the batch for reuse where a spare one was moved away, and frees the others. */
    method RecycleSpares()
      requires Inv(View()) && Enabled(View(), Recycle)
      modifies this
      ensures View() == Step(old(View()), Recycle) && Inv(View())
      ensures newBuffer1 == To([]) && newBuffer2 == To([]) && buffersToWrite == []
    {
      hide Inv, Length, Step;
      StepKeepsInv(View(), Recycle);
      RecycleRefills(View());
      if |buffersToWrite| > 2 {
        buffersToWrite := buffersToWrite[..2];
      }
      if newBuffer1.Null? {
        newBuffer1 := TakeBack();
      }
      if newBuffer2.Null? {
        newBuffer2 := TakeBack();
      }
      EndBatch();
    }

    /** The last buffer of the batch, emptied. */
    method TakeBack() returns (p: Ptr)
      requires buffersToWrite != []
      modifies `buffersToWrite
      ensures p == To([]) && |buffersToWrite| == |old(buffersToWrite)| - 1
    {
      p := To(buffersToWrite[|buffersToWrite| - 1]);
      buffersToWrite := buffersToWrite[..|buffersToWrite| - 1];
      p := p.(b := []);
    }

    method EndBatch()
      modifies this
      ensures View() == old(View()).(toWrite := [], written := 0, cut := [], phase := Locking,
                journal := if old(cut) == [] then old(journal) else old(journal) + [Cut(old(cut))])
    {
      buffersToWrite, written := [], 0;
      if cut != [] {
        journal := journal + [Cut(cut)];
        cut := [];
      }
      phase := Locking;
    }
  }
}
