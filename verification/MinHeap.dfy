// The array heap whose elements store their own slot, so that any element can be erased.
module MinHeap {
  import opened Timer

  function Parent(n: nat): (p: nat)
    ensures n > 0 ==> p < n
  {
    if n == 0 then 0 else (n - 1) / 2
  }

  function RightChild(n: nat): nat {
    (n + 1) * 2
  }

  /** What the heap is constructed with: 1, 0 or -1 as the left key is greater, equal or less. */
  type Comparator = (int, int) -> int

  predicate Le(cmp: Comparator, a: int, b: int) {
    cmp(a, b) != 1
  }

  /** The comparator orders all keys; different keys may be equal in its order. */
  ghost predicate TotalPreorder(cmp: Comparator) {
    && (forall a, b :: -1 <= cmp(a, b) <= 1 && (cmp(a, b) == 1 <==> cmp(b, a) == -1))
    && (forall a, b, c :: Le(cmp, a, b) && Le(cmp, b, c) ==> Le(cmp, a, c))
  }

  lemma EventGreaterOrders()
    ensures TotalPreorder(EventGreater)
  {
  }

  /** Keys in heap order: no key is below its parent's. */
  predicate HeapOrder(cmp: Comparator, keys: seq<int>) {
    forall i :: 0 < i < |keys| ==> Le(cmp, keys[Parent(i)], keys[i])
  }

  /** Heap order, but the key at hole may be below its parent's. */
  predicate OrderAbove(cmp: Comparator, keys: seq<int>, hole: nat) {
    && (forall i :: 0 < i < |keys| && i != hole ==> Le(cmp, keys[Parent(i)], keys[i]))
    && (forall i :: 0 < hole < |keys| && 0 < i < |keys| && Parent(i) == hole ==> Le(cmp, keys[Parent(hole)], keys[i]))
  }

  /** Heap order, but the key at hole may be above its children's. */
  predicate OrderBelow(cmp: Comparator, keys: seq<int>, hole: nat) {
    && (forall i :: 0 < i < |keys| && Parent(i) != hole ==> Le(cmp, keys[Parent(i)], keys[i]))
    && (forall i :: 0 < hole < |keys| && 0 < i < |keys| && Parent(i) == hole ==> Le(cmp, keys[Parent(hole)], keys[i]))
  }

  function Swapped(keys: seq<int>, i: nat, j: nat): (r: seq<int>)
    requires i < |keys| && j < |keys|
    ensures |r| == |keys|
  {
    keys[i := keys[j]][j := keys[i]]
  }

  /** Moving the parent down into the hole leaves only the key now in its place out of order. */
  lemma SwapUp(cmp: Comparator, keys: seq<int>, hole: nat)
    requires TotalPreorder(cmp)
    requires 0 < hole < |keys| && OrderAbove(cmp, keys, hole) && cmp(keys[Parent(hole)], keys[hole]) == 1
    ensures OrderAbove(cmp, Swapped(keys, hole, Parent(hole)), Parent(hole))
  {
  }

  /** Moving the least child up into the hole leaves only the key now in its place out of order. */
  lemma SwapDown(cmp: Comparator, keys: seq<int>, hole: nat, child: nat)
    requires TotalPreorder(cmp)
    requires hole < |keys| && 0 < child < |keys| && Parent(child) == hole && OrderBelow(cmp, keys, hole)
    requires forall i :: 0 < i < |keys| && Parent(i) == hole ==> Le(cmp, keys[child], keys[i])
    requires Le(cmp, keys[child], keys[hole])
    ensures OrderBelow(cmp, Swapped(keys, hole, child), child)
  {
  }

  /** The key at the root is least. */
  lemma {:induction false} RootIsLeast(cmp: Comparator, keys: seq<int>, i: nat)
    requires TotalPreorder(cmp)
    requires HeapOrder(cmp, keys) && i < |keys|
    ensures Le(cmp, keys[0], keys[i])
  {
    if i > 0 {
      RootIsLeast(cmp, keys, Parent(i));
    }
  }

  lemma SwappedAt(keys: seq<int>, hole: nat, other: nat)
    requires hole < |keys| && other < |keys|
    ensures Swapped(keys, hole, other)[other] == keys[hole]
  {
  }

  lemma SettledAbove(cmp: Comparator, keys: seq<int>, hole: nat)
    requires TotalPreorder(cmp)
    requires hole < |keys| && OrderAbove(cmp, keys, hole) && (hole > 0 ==> Le(cmp, keys[Parent(hole)], keys[hole]))
    ensures HeapOrder(cmp, keys)
  {
  }

  lemma SettledBelow(cmp: Comparator, keys: seq<int>, hole: nat)
    requires TotalPreorder(cmp)
    requires OrderBelow(cmp, keys, hole)
    requires forall i :: 0 < i < |keys| && Parent(i) == hole ==> Le(cmp, keys[hole], keys[i])
    ensures HeapOrder(cmp, keys)
  {
  }

  /** The left child is the least if there is no right one or the right one is greater. */
  lemma LeastChild(cmp: Comparator, keys: seq<int>, hole: nat, child: nat)
    requires TotalPreorder(cmp)
    requires RightChild(hole) <= |keys|
    requires child == if RightChild(hole) == |keys| || cmp(keys[RightChild(hole)], keys[RightChild(hole) - 1]) == 1
                      then RightChild(hole) - 1 else RightChild(hole)
    ensures 0 < child < |keys| && Parent(child) == hole
    ensures forall i :: 0 < i < |keys| && Parent(i) == hole ==> Le(cmp, keys[child], keys[i])
  {
  }

  lemma PushOrder(cmp: Comparator, keys: seq<int>, key: int)
    requires TotalPreorder(cmp)
    requires HeapOrder(cmp, keys)
    ensures OrderAbove(cmp, keys + [key], |keys|)
  {
  }

  /** The keys after an erasure at hole, before the order is restored: the last key is there. */
  function Replaced(keys: seq<int>, hole: nat): (r: seq<int>)
    requires hole < |keys|
    ensures |r| == |keys| - 1
  {
    if hole == |keys| - 1 then keys[..hole] else keys[..|keys| - 1][hole := keys[|keys| - 1]]
  }

  lemma EraseAbove(cmp: Comparator, keys: seq<int>, hole: nat)
    requires TotalPreorder(cmp)
    requires HeapOrder(cmp, keys) && 0 < hole < |keys| && cmp(keys[Parent(hole)], keys[|keys| - 1]) == 1
    ensures hole < |keys| - 1 && OrderAbove(cmp, Replaced(keys, hole), hole)
    ensures Replaced(keys, hole)[hole] == keys[|keys| - 1]
  {
  }

  lemma EraseBelow(cmp: Comparator, keys: seq<int>, hole: nat)
    requires TotalPreorder(cmp)
    requires HeapOrder(cmp, keys) && hole < |keys| && (hole > 0 ==> Le(cmp, keys[Parent(hole)], keys[|keys| - 1]))
    ensures OrderBelow(cmp, Replaced(keys, hole), hole)
    ensures hole < |keys| - 1 ==> Replaced(keys, hole)[hole] == keys[|keys| - 1]
  {
  }

  function Capacity(capacity: nat, n: nat): (r: nat)
    ensures r >= n && r >= capacity
  {
    if capacity >= n then capacity
    else if capacity == 0 then (if n < 8 then 8 else n)
    else if capacity * 2 < n then n else capacity * 2
  }

  lemma {:induction false} Distinct(slots: seq<Timer?>)
    requires forall i, j :: 0 <= i < j < |slots| ==> slots[i] != slots[j]
    ensures |set x | x in slots| == |slots|
  {
    if slots != [] {
      var last := |slots| - 1;
      Distinct(slots[..last]);
      assert (set x | x in slots) == (set x | x in slots[..last]) + {slots[last]};
    }
  }

  class Heap {
    const cmp: Comparator
    var ptrArr: array<Timer?>
    var size: nat
    /** The timers in the heap, and the expiration of the one in each slot. */
    ghost var elems: set<Timer>
    ghost var keys: seq<int>

    /** Every slot but the hole holds a member that names the slot; every member is in the slot it names. */
    ghost predicate Linked(hole: int, members: set<Timer>, keys: seq<int>)
      reads `size, `ptrArr, ptrArr, members
    {
      && size == |keys| <= ptrArr.Length
      && (forall i :: 0 <= i < size && i != hole ==>
            ptrArr[i] != null && ptrArr[i] in members && ptrArr[i].minHeapIdx == i && ptrArr[i].expiration == keys[i])
      && (forall x :: x in members ==> 0 <= x.minHeapIdx < size && x.minHeapIdx != hole && ptrArr[x.minHeapIdx] == x)
    }

    ghost predicate Valid()
      reads this, ptrArr, elems
    {
      TotalPreorder(cmp) && Linked(NO_INDEX, elems, keys) && HeapOrder(cmp, keys)
    }

    constructor (cmp: Comparator)
      requires TotalPreorder(cmp)
      ensures Valid() && elems == {} && fresh(ptrArr) && this.cmp == cmp
    {
      this.cmp := cmp;
      ptrArr := new Timer?[0];
      size := 0;
      elems := {};
      keys := [];
    }

    /** Moves the timer in one slot into the hole; its slot is the hole then. */
    method Move(from: nat, hole: nat, ghost members: set<Timer>, ghost keys: seq<int>)
      requires Linked(hole, members, keys) && hole < size && from < size && from != hole
      modifies ptrArr, members`minHeapIdx
      ensures Linked(from, members, Swapped(keys, hole, from))
      ensures forall x :: x in members ==> x.minHeapIdx == old(if x.minHeapIdx == from then hole else x.minHeapIdx)
    {
      ptrArr[hole] := ptrArr[from];
      ptrArr[hole].minHeapIdx := hole;
    }

    method Place(hole: nat, e: Timer, ghost members: set<Timer>, ghost keys: seq<int>)
      requires Linked(hole, members, keys) && hole <= size && hole < ptrArr.Length && e !in members
      requires hole < size ==> keys[hole] == e.expiration
      modifies ptrArr, e`minHeapIdx
      ensures Linked(NO_INDEX, if hole < size then members + {e} else members, keys)
    {
      ptrArr[hole] := e;
      ptrArr[hole].minHeapIdx := hole;
    }

    /** Looks from start upwards for the slot of e, moving parents down. */
    method ShiftUp(start: nat, e: Timer, ghost members: set<Timer>, ghost before: seq<int>)
      returns (ghost after: seq<int>)
      requires TotalPreorder(cmp) && start < |before| && e !in members && before[start] == e.expiration
      requires Linked(start, members, before) && OrderAbove(cmp, before, start)
      modifies ptrArr, members`minHeapIdx, e`minHeapIdx
      ensures Linked(NO_INDEX, members + {e}, after) && HeapOrder(cmp, after)
    {
      hide OrderAbove, HeapOrder, Swapped, TotalPreorder;
      var hole: nat := start;
      var parent := Parent(hole);
      after := before;
      while hole > 0 && cmp(ptrArr[parent].expiration, e.expiration) == 1
        invariant hole < size && parent == Parent(hole)
        invariant Linked(hole, members, after) && OrderAbove(cmp, after, hole) && after[hole] == e.expiration
      {
        SwapUp(cmp, after, hole);
        SwappedAt(after, hole, parent);
        Move(parent, hole, members, after);
        after := Swapped(after, hole, parent);
        hole := parent;
        parent := Parent(hole);
      }
      SettledAbove(cmp, after, hole);
      Place(hole, e, members, after);
    }

    /** The child of the hole with the lesser key, the left one if there is no other. */
    method MinChild(right: nat, hole: nat, ghost members: set<Timer>, ghost keys: seq<int>) returns (child: nat)
      requires Linked(hole, members, keys) && RightChild(hole) == right <= size
      ensures child == if right == |keys| || cmp(keys[right], keys[right - 1]) == 1 then right - 1 else right
    {
      child := right;
      if child == size || cmp(ptrArr[child].expiration, ptrArr[child - 1].expiration) == 1 {
        child := child - 1;
      }
    }

    lemma LinkedAt(i: nat, hole: nat, members: set<Timer>, keys: seq<int>)
      requires Linked(hole, members, keys) && i < |keys| && i != hole
      ensures size == |keys| && i < ptrArr.Length && ptrArr[i] != null && ptrArr[i] in members
      ensures ptrArr[i].expiration == keys[i]
    {
    }

    /**
     * Looks from start downwards for the slot of e, moving the least children up. A start just past the
     * slots in use has no children: e goes there and stays outside the heap.
     */
    method ShiftDown(start: nat, e: Timer, ghost members: set<Timer>, ghost before: seq<int>)
      returns (ghost after: seq<int>)
      requires TotalPreorder(cmp) && start <= size == |before| < ptrArr.Length && e !in members
      requires start < size ==> before[start] == e.expiration
      requires Linked(start, members, before) && OrderBelow(cmp, before, start)
      modifies ptrArr, members`minHeapIdx, e`minHeapIdx
      ensures Linked(NO_INDEX, if start < size then members + {e} else members, after) && HeapOrder(cmp, after)
    {
      hide OrderBelow, HeapOrder, Linked, Swapped;
      var hole: nat := start;
      var child := RightChild(hole);
      after := before;
      while child <= size
        invariant hole <= size && size == |after| && child == RightChild(hole) && (hole == size <==> start == size)
        invariant Linked(hole, members, after) && OrderBelow(cmp, after, hole)
        invariant hole < size ==> after[hole] == e.expiration
        decreases size - hole
      {
        child := MinChild(child, hole, members, after);
        LinkedAt(child, hole, members, after);
        LeastChild(cmp, after, hole, child);
        if cmp(e.expiration, ptrArr[child].expiration) == -1 {
          break;
        }
        SwapDown(cmp, after, hole, child);
        SwappedAt(after, hole, child);
        Move(child, hole, members, after);
        after := Swapped(after, hole, child);
        hole := child;
        child := RightChild(hole);
      }
      SettledBelow(cmp, after, hole);
      Place(hole, e, members, after);
    }

    /** Room for n timers: at least double the capacity, and 8 at first. */
    method Reserve(n: nat)
      requires Valid()
      modifies this`ptrArr
      ensures Valid() && ptrArr.Length >= n && (ptrArr == old(ptrArr) || fresh(ptrArr))
      ensures ptrArr.Length == Capacity(old(ptrArr.Length), n)
      ensures ptrArr[..size] == old(ptrArr[..size])
    {
      if ptrArr.Length < n {
        var capacity := if ptrArr.Length > 0 then ptrArr.Length * 2 else 8;
        if capacity < n {
          capacity := n;
        }
        var p := new Timer?[capacity];
        forall i | 0 <= i < ptrArr.Length {
          p[i] := ptrArr[i];
        }
        ptrArr := p;
      }
    }

    lemma Whole(members: set<Timer>, order: seq<int>)
      requires TotalPreorder(cmp) && Linked(NO_INDEX, members, order) && HeapOrder(cmp, order) && elems == members
      requires keys == order
      ensures Valid()
    {
    }

    method Push(e: Timer)
      requires Valid() && e !in elems
      modifies this, ptrArr, elems`minHeapIdx, e`minHeapIdx
      ensures Valid() && elems == old(elems) + {e} && (ptrArr == old(ptrArr) || fresh(ptrArr))
    {
      hide Valid, HeapOrder, OrderAbove, Linked, TotalPreorder;
      ghost var before := keys + [e.expiration];
      Extend(e);
      keys := ShiftUp(size - 1, e, elems, before);
      elems := elems + {e};
      Whole(elems, keys);
    }

    /** Room for one more timer, and its slot in use with nothing in it yet. */
    method Extend(e: Timer)
      requires Valid()
      modifies `ptrArr, `size
      ensures size == old(size) + 1 == |keys| + 1 && (ptrArr == old(ptrArr) || fresh(ptrArr))
      ensures TotalPreorder(cmp) && Linked(size - 1, elems, keys + [e.expiration])
      ensures OrderAbove(cmp, keys + [e.expiration], size - 1)
    {
      hide HeapOrder, OrderAbove, TotalPreorder;
      Reserve(size + 1);
      PushOrder(cmp, keys, e.expiration);
      size := size + 1;
    }

    /** Takes the last slot out of use; the timer in it is to go where e is, unless it is e. */
    method Shrink(e: Timer) returns (last: Timer)
      requires Valid() && e in elems
      modifies `size
      ensures size == |keys| - 1 && 0 <= e.minHeapIdx < |keys| <= ptrArr.Length
      ensures last in elems && last.expiration == keys[size] && (last == e <==> e.minHeapIdx == size)
      ensures Linked(e.minHeapIdx, elems - {e} - {last}, Replaced(keys, e.minHeapIdx))
    {
      hide HeapOrder;
      size := size - 1;
      last := ptrArr[size];
    }

    /** Removes e from wherever it is; 0 if it was in the heap, -1 if it says it is in none. */
    method Erase(e: Timer) returns (r: int)
      requires Valid() && (e in elems || e.minHeapIdx == NO_INDEX)
      modifies this, ptrArr, elems`minHeapIdx
      ensures Valid() && elems == old(elems) - {e} && ptrArr == old(ptrArr)
      ensures e.minHeapIdx == NO_INDEX && r == (if e in old(elems) then 0 else -1)
    {
      if e.minHeapIdx != NO_INDEX {
        Remove(e);
        r := 0;
      } else {
        r := -1;
      }
    }

    method Remove(e: Timer)
      requires Valid() && e in elems
      modifies this, ptrArr, elems`minHeapIdx
      ensures Valid() && elems == old(elems) - {e} && ptrArr == old(ptrArr)
      ensures e.minHeapIdx == NO_INDEX
    {
      hide Valid, HeapOrder, OrderAbove, OrderBelow, Replaced, Linked, TotalPreorder;
      Parts();
      var last := Shrink(e);
      var hole := e.minHeapIdx;
      ghost var members := elems - {e} - {last};
      ghost var before := Replaced(keys, hole);
      if hole > 0 {
        ParentSlot(hole, members, before);
      }
      if hole > 0 && cmp(ptrArr[Parent(hole)].expiration, last.expiration) == 1 {
        EraseAbove(cmp, keys, hole);
        keys := ShiftUp(hole, last, members, before);
      } else {
        EraseBelow(cmp, keys, hole);
        keys := ShiftDown(hole, last, members, before);
      }
      Dropped(e, last);
    }

    lemma Parts()
      requires Valid()
      ensures TotalPreorder(cmp) && HeapOrder(cmp, keys) && size == |keys|
    {
    }

    /** The slot above a hole that is not the root holds the timer with its key. */
    lemma ParentSlot(hole: nat, members: set<Timer>, before: seq<int>)
      requires Linked(hole, members, before) && 0 < hole <= |before| == |keys| - 1 && before == Replaced(keys, hole)
      ensures Parent(hole) < ptrArr.Length && ptrArr[Parent(hole)] != null
      ensures ptrArr[Parent(hole)].expiration == keys[Parent(hole)]
    {
    }

    /** e, which has no slot any more, is taken off the members and says so. */
    method Dropped(e: Timer, ghost last: Timer)
      requires e in elems && last in elems && TotalPreorder(cmp) && HeapOrder(cmp, keys)
      requires Linked(NO_INDEX, if last == e then elems - {e} - {last} else elems - {e} - {last} + {last}, keys)
      modifies `elems, e`minHeapIdx
      ensures Valid() && elems == old(elems) - {e} && e.minHeapIdx == NO_INDEX
    {
      hide HeapOrder, TotalPreorder;
      assert elems - {e} == if last == e then elems - {e} - {last} else elems - {e} - {last} + {last};
      elems := elems - {e};
      hide Linked;
      e.minHeapIdx := NO_INDEX;
      Whole(elems, keys);
    }

    /** A timer that expires no later than any other, null in an empty heap. */
    method Top() returns (e: Timer?)
      requires Valid()
      ensures e == null <==> elems == {}
      ensures e != null ==> size <= ptrArr.Length && size > 0 && e == ptrArr[0]
      ensures e != null ==> e in elems && forall x :: x in elems ==> Le(cmp, e.expiration, x.expiration)
    {
      if size > 0 {
        e := ptrArr[0];
        RootIsFirst();
      } else {
        e := null;
      }
    }

    method PopRoot(e: Timer)
      requires Valid() && e in elems && e.minHeapIdx == 0
      modifies this, ptrArr, elems`minHeapIdx
      ensures Valid() && elems == old(elems) - {e} && ptrArr == old(ptrArr)
      ensures e.minHeapIdx == NO_INDEX
    {
      hide Valid, HeapOrder, OrderBelow, Replaced, Linked, TotalPreorder;
      Parts();
      var last := Shrink(e);
      ghost var members := elems - {e} - {last};
      EraseBelow(cmp, keys, 0);
      keys := ShiftDown(0, last, members, Replaced(keys, 0));
      Dropped(e, last);
    }

    /** Removes and returns such a timer. */
    method Pop() returns (e: Timer?)
      requires Valid()
      modifies this, ptrArr, elems`minHeapIdx
      ensures Valid() && ptrArr == old(ptrArr)
      ensures e == null <==> old(elems) == {}
      ensures e == null ==> elems == {}
      ensures e != null ==> old(0 < size <= ptrArr.Length) && e == old(ptrArr[0])
      ensures e != null ==> e in old(elems) && elems == old(elems) - {e} && e.minHeapIdx == NO_INDEX
      ensures e != null ==> forall x :: x in old(elems) ==> Le(cmp, e.expiration, x.expiration)
    {
      if size > 0 {
        e := ptrArr[0];
        RootIsFirst();
        PopRoot(e);
      } else {
        e := null;
      }
    }

    /** There are as many slots in use as members. */
    lemma SizeIsCount()
      requires Valid()
      ensures size == |elems|
    {
      hide HeapOrder;
      var slots := ptrArr[..size];
      Distinct(slots);
      assert forall x :: x in elems ==> x == slots[x.minHeapIdx];
      assert elems == set x | x in slots;
    }

    /** The timer in the root slot expires no later than any other. */
    lemma RootIsFirst()
      requires Valid() && size > 0
      ensures ptrArr[0] != null && forall x :: x in elems ==> Le(cmp, ptrArr[0].expiration, x.expiration)
    {
      forall x | x in elems
        ensures Le(cmp, ptrArr[0].expiration, x.expiration)
      {
        RootIsLeast(cmp, keys, x.minHeapIdx);
      }
    }
  }
}
