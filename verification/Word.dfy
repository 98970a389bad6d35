// Fixed-width machine words and the 32-bit modular comparison that every
// sequence number and every timestamp of KCP goes through.
module Word {
  const TWO16: int := 0x1_0000
  const TWO31: int := 0x8000_0000
  const TWO32: int := 0x1_0000_0000

  type u8 = x: int | 0 <= x < 0x100
  type u16 = x: int | 0 <= x < 0x1_0000
  type u32 = x: int | 0 <= x < 0x1_0000_0000

  /** The 32-bit word that holds the unbounded number x. */
  function W(x: int): u32 {
    x % TWO32
  }

  /** a + b in IUINT32. */
  function Add(a: u32, b: u32): u32 {
    if a + b < TWO32 then a + b else a + b - TWO32
  }

  /** a - b in IUINT32: how far a lies ahead of b on the circle of sequence numbers. */
  function Off(a: u32, b: u32): u32 {
    if b <= a then a - b else a - b + TWO32
  }

  /** The IINT32 with the bits of x. */
  function Signed(x: u32): int {
    if x < TWO31 then x else x - TWO32
  }

  function TimeDiff(later: u32, earlier: u32): int {
    Signed(Off(later, earlier))
  }

  lemma {:induction false} MulGrows(q: nat, b: nat)
    requires b > 0
    ensures q <= b * q
  {
    if b > 1 {
      MulGrows(q, b - 1);
      assert b * q == (b - 1) * q + q;
    }
  }

  lemma Euclid(a: nat, b: nat, q: int, r: nat)
    requires a == b * q + r && r < b
    ensures 0 <= q <= a
  {
    if q >= 0 {
      MulGrows(q, b);
    }
  }

  lemma DivBound(a: nat, b: nat)
    requires b > 0
    ensures 0 <= a / b <= a
  {
    Euclid(a, b, a / b, a % b);
  }

  function Div(a: u32, b: u32): u32
    requires b > 0
  {
    DivBound(a, b);
    a / b
  }

  function Min(a: int, b: int): int {
    if a <= b then a else b
  }

  function Max(a: int, b: int): int {
    if a >= b then a else b
  }

  /** C's division by two, which truncates toward zero. */
  function Half(x: int): int {
    if x >= 0 then x / 2 else -(-x / 2)
  }

  /** Within half the circle ahead of a base, the signed difference is the difference of the offsets. */
  lemma DiffOff(a: u32, b: u32, base: u32)
    requires Off(a, base) < TWO31 && Off(b, base) < TWO31
    ensures TimeDiff(a, b) == Off(a, base) - Off(b, base)
    ensures Off(a, base) == Off(b, base) <==> a == b
  {
  }

  /** Offsets from a base moved d ahead. */
  lemma OffRebase(a: u32, base: u32, d: u32)
    requires d <= Off(a, base)
    ensures Off(a, Add(base, d)) == Off(a, base) - d
    ensures Off(Add(base, d), base) == d
  {
  }

  lemma OffNext(a: u32, base: u32)
    requires Off(a, Add(base, 1)) < TWO31
    ensures Off(a, base) == Off(a, Add(base, 1)) + 1
  {
  }

  lemma OffSum(a: u32, b: u32, c: u32)
    requires Off(a, b) + Off(b, c) < TWO32
    ensures Off(a, c) == Off(a, b) + Off(b, c)
  {
  }

  /** Words of nearby unbounded numbers compare like the numbers themselves. */
  lemma WordDiff(i: int, j: int)
    requires -TWO31 <= i - j < TWO31
    ensures TimeDiff(W(i), W(j)) == i - j
    ensures j <= i ==> Off(W(i), W(j)) == i - j
  {
    var qi, qj := i / TWO32, j / TWO32;
    assert i == qi * TWO32 + W(i) && j == qj * TWO32 + W(j);
  }

  lemma WordInjective(i: int, j: int)
    requires W(i) == W(j) && -TWO32 < i - j < TWO32
    ensures i == j
  {
    var qi, qj := i / TWO32, j / TWO32;
    assert i == qi * TWO32 + W(i) && j == qj * TWO32 + W(j);
  }

  /** Moving ahead by an offset: the word of base + d is the word d ahead of base. */
  lemma WordAdd(base: int, x: u32)
    ensures W(base + Off(x, W(base))) == x
    ensures forall d: u32 :: W(base + d) == Add(W(base), d)
  {
    var q := base / TWO32;
    assert base == q * TWO32 + W(base);
    forall d: u32
      ensures W(base + d) == Add(W(base), d)
    {
      var q' := (base + d) / TWO32;
      assert base + d == q' * TWO32 + W(base + d);
    }
    assert Add(W(base), Off(x, W(base))) == x;
  }
}
