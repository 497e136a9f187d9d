/** Power-of-two arithmetic of util.h, on the 64-bit unsigned integers it is declared for, and the slot
    indexing (`seq & mask`) both rings build on it. */
module PowerOfTwo {

  const U64_BITS: nat := 64
  const U64: nat := 0x1_0000_0000_0000_0000

  /** 2 to the k. */
  function Pow2(k: nat): (p: nat)
    ensures p >= 1
  {
    if k == 0 then 1 else 2 * Pow2(k - 1)
  }

  ghost predicate IsPow2(x: nat) {
    exists k: nat :: x == Pow2(k)
  }

  /** Bitwise conjunction, bit by bit from the least significant one. */
  function And(x: nat, y: nat): nat {
    if x == 0 || y == 0 then 0
    else 2 * And(x / 2, y / 2) + (if x % 2 == 1 && y % 2 == 1 then 1 else 0)
  }

  predicate IsPowerOf2(x: nat) {
    x != 0 && And(x, x - 1) == 0
  }

  /** What `find_last_set_bit` returns: the number of bits up to and including the highest one set. */
  function BitLength(x: nat): nat {
    if x == 0 then 0 else 1 + BitLength(x / 2)
  }

  /** Wrapping decrement of an unsigned 64-bit integer. */
  function Decrement(x: nat): nat
    requires x < U64
  {
    if x == 0 then U64 - 1 else x - 1
  }

  function RoundUpPowOfTwo(x: nat): nat
    requires x < U64
  {
    var cnt := BitLength(Decrement(x));
    if cnt < U64_BITS then Pow2(cnt) else 0
  }

  function RoundDownPowOfTwo(x: nat): nat
    requires x < U64
  {
    if x == 0 then 0 else Pow2(BitLength(x) - 1)
  }

  /** The size a ring ends up with: CircBuf's constructor and SimpleCircBuf::set_buffer_size agree on it. */
  function RingSize(requested: nat): nat
    requires requested < U64
  {
    var size := if IsPowerOf2(requested) then requested else RoundUpPowOfTwo(requested);
    if size == 0 then 1024 else if size < 2 then 2 else size
  }

  /** `seq & mask_` with mask_ == size_ - 1. */
  function Slot(seq': nat, size: nat): nat
    requires size >= 1
  {
    And(seq', size - 1)
  }

  method FindLastSetBit(word: nat) returns (count: nat)
    requires word < U64
    ensures word < Pow2(count)
    ensures word > 0 ==> count > 0 && Pow2(count - 1) <= word
    ensures count == BitLength(word) <= U64_BITS
  {
    var x, cnt := word, 0;
    BitLengthBounds(word);
    Pow2Of64();
    BitLengthBelow(word, U64_BITS);
    if x != 0 {
      x := x / 2;
      cnt := 0;
      while x != 0
        invariant BitLength(word) == cnt + 1 + BitLength(x)
      {
        x := x / 2;
        cnt := cnt + 1;
      }
    } else {
      cnt := -1;
    }
    count := cnt + 1;
  }

  lemma Pow2Plus8(k: nat)
    ensures Pow2(k + 8) == 0x100 * Pow2(k)
  {
    assert Pow2(k + 2) == 4 * Pow2(k);
    assert Pow2(k + 4) == 4 * Pow2(k + 2);
    assert Pow2(k + 6) == 4 * Pow2(k + 4);
  }

  lemma Pow2Of64()
    ensures Pow2(64) == U64
    ensures Pow2(63) == 0x8000_0000_0000_0000
    ensures Pow2(32) == 0x1_0000_0000
  {
    Pow2Plus8(0);
    Pow2Plus8(8);
    Pow2Plus8(16);
    Pow2Plus8(24);
    Pow2Plus8(32);
    Pow2Plus8(40);
    Pow2Plus8(48);
    Pow2Plus8(56);
  }

  lemma {:induction false} Pow2Sum(a: nat, b: nat)
    ensures Pow2(a + b) == Pow2(a) * Pow2(b)
  {
    if b > 0 {
      Pow2Sum(a, b - 1);
      assert Pow2(a) * (2 * Pow2(b - 1)) == 2 * (Pow2(a) * Pow2(b - 1));
    }
  }

  lemma {:induction false} Pow2Monotone(a: nat, b: nat)
    requires a <= b
    ensures Pow2(a) <= Pow2(b)
    decreases b - a
  {
    if a < b {
      Pow2Monotone(a, b - 1);
    }
  }

  lemma {:induction false} BitLengthBounds(x: nat)
    ensures x < Pow2(BitLength(x))
    ensures x > 0 ==> Pow2(BitLength(x) - 1) <= x
  {
    if x > 0 {
      BitLengthBounds(x / 2);
    }
  }

  lemma {:induction false} BitLengthBelow(x: nat, k: nat)
    requires x < Pow2(k)
    ensures BitLength(x) <= k
  {
    if x > 0 {
      BitLengthBounds(x);
      if BitLength(x) > k {
        Pow2Monotone(k, BitLength(x) - 1);
      }
    }
  }

  lemma {:induction false} AndDoubles(x: nat, y: nat)
    ensures And(2 * x, 2 * y) == 2 * And(x, y)
    ensures And(2 * x + 1, 2 * y) == 2 * And(x, y)
    ensures And(2 * x, 2 * y + 1) == 2 * And(x, y)
  {
  }

  lemma {:induction false} AndSelf(x: nat)
    ensures And(x, x) == x
  {
    if x > 0 { AndSelf(x / 2); }
  }

  /** `x & (x - 1)` clears the lowest set bit, so it is zero exactly for the powers of two. */
  lemma {:induction false} IsPowerOf2IffPow2(x: nat)
    ensures IsPowerOf2(x) <==> IsPow2(x)
  {
    hide And, IsPow2;
    var h := x / 2;
    if x <= 1 {
      Pow2Small();
    } else if x % 2 == 1 {
      assert x == 2 * h + 1 && x - 1 == 2 * h;
      AndDoubles(h, h);
      AndSelf(h);
      Pow2Even(h);
    } else {
      assert x == 2 * h && x - 1 == 2 * (h - 1) + 1;
      AndDoubles(h, h - 1);
      IsPowerOf2IffPow2(h);
      Pow2Halves(h);
    }
  }

  lemma Pow2Small()
    ensures !IsPow2(0) && IsPow2(1) && And(1, 0) == 0
  {
    assert Pow2(0) == 1;
  }

  lemma Pow2Even(h: nat)
    requires h > 0
    ensures !IsPow2(2 * h + 1)
  {
  }

  lemma Pow2Halves(h: nat)
    requires h > 0
    ensures IsPow2(2 * h) <==> IsPow2(h)
  {
    if IsPow2(h) {
      var k: nat :| h == Pow2(k);
      assert 2 * h == Pow2(k + 1);
    }
    if IsPow2(2 * h) {
      var k: nat :| 2 * h == Pow2(k);
      assert h == Pow2(k - 1);
    }
  }

  /** `roundup_pow_of_two` is the least power of two not below x, and 0 exactly where there is none in 64 bits. */
  lemma RoundUpIsLeast(x: nat)
    requires x < U64
    ensures RoundUpPowOfTwo(x) == 0 <==> x == 0 || x > 0x8000_0000_0000_0000
    ensures RoundUpPowOfTwo(x) != 0 ==> IsPow2(RoundUpPowOfTwo(x)) && x <= RoundUpPowOfTwo(x) < U64
    ensures RoundUpPowOfTwo(x) != 0 ==> forall p: nat | IsPow2(p) && x <= p :: RoundUpPowOfTwo(x) <= p
  {
    Pow2Of64();
    var d := Decrement(x);
    var cnt := BitLength(d);
    BitLengthBounds(d);
    if cnt >= 64 {
      Pow2Monotone(63, cnt - 1);
    } else {
      Pow2Monotone(cnt, 63);
      forall p: nat | IsPow2(p) && x <= p ensures Pow2(cnt) <= p {
        var k: nat :| p == Pow2(k);
        if k < cnt { Pow2Monotone(k, cnt - 1); } else { Pow2Monotone(cnt, k); }
      }
    }
  }

  /** `rounddown_pow_of_two` is the greatest power of two not above x. */
  lemma RoundDownIsGreatest(x: nat)
    requires 0 < x < U64
    ensures IsPow2(RoundDownPowOfTwo(x)) && RoundDownPowOfTwo(x) <= x
    ensures forall p: nat | IsPow2(p) && p <= x :: p <= RoundDownPowOfTwo(x)
  {
    var cnt := BitLength(x);
    BitLengthBounds(x);
    forall p: nat | IsPow2(p) && p <= x ensures p <= Pow2(cnt - 1) {
      var k: nat :| p == Pow2(k);
      if k > cnt - 1 { Pow2Monotone(cnt, k); } else { Pow2Monotone(k, cnt - 1); }
    }
  }

  /** Whatever size is asked for, a ring has a power-of-two size of at least 2: the least that is large enough,
      or 1024 when none is representable. */
  lemma RingSizeIsPow2(requested: nat)
    requires requested < U64
    ensures IsPow2(RingSize(requested)) && 2 <= RingSize(requested) <= 0x8000_0000_0000_0000
    ensures 1 <= requested <= 0x8000_0000_0000_0000 ==>
              requested <= RingSize(requested)
              && forall p: nat | IsPow2(p) && 2 <= p && requested <= p :: RingSize(requested) <= p
    ensures requested == 0 || requested > 0x8000_0000_0000_0000 ==> RingSize(requested) == 1024
  {
    Pow2Of64();
    IsPowerOf2IffPow2(requested);
    RoundUpIsLeast(requested);
    assert Pow2(1) == 2 && Pow2(10) == 1024;
    if IsPow2(requested) {
      var k: nat :| requested == Pow2(k);
      if k >= 64 { Pow2Monotone(64, k); }
      Pow2Monotone(k, 63);
    } else if 1 <= requested <= 0x8000_0000_0000_0000 {
      var k: nat :| RoundUpPowOfTwo(requested) == Pow2(k);
      if k >= 64 { Pow2Monotone(64, k); }
      Pow2Monotone(k, 63);
    }
  }

  lemma AndOdd(x: nat, h: nat)
    ensures And(x, 2 * h + 1) == 2 * And(x / 2, h) + x % 2
  {
  }

  lemma DoubleQuotient(x: nat, m: nat, q: nat, a: nat)
    requires x / 2 == m * q + a && a < m
    ensures x == (2 * m) * q + (2 * a + x % 2) && 2 * a + x % 2 < 2 * m
  {
  }

  /** Masking with 2^k - 1 leaves a remainder of division by 2^k. */
  lemma {:induction false} MaskQuotient(x: nat, k: nat) returns (q: nat)
    ensures x == Pow2(k) * q + And(x, Pow2(k) - 1) && And(x, Pow2(k) - 1) < Pow2(k)
  {
    if k == 0 {
      q := x;
    } else {
      var m := Pow2(k - 1);
      assert Pow2(k) == 2 * m && Pow2(k) - 1 == 2 * (m - 1) + 1;
      hide And, Pow2;
      q := MaskQuotient(x / 2, k - 1);
      AndOdd(x, m - 1);
      DoubleQuotient(x, m, q, And(x / 2, m - 1));
    }
  }

  lemma MaskIsMod(x: nat, k: nat)
    ensures And(x, Pow2(k) - 1) == x % Pow2(k)
  {
    hide And, Pow2;
    var q := MaskQuotient(x, k);
    ModUnique(x, Pow2(k), q, And(x, Pow2(k) - 1));
  }

  lemma MulAtLeast(m: nat, d: int)
    ensures d >= 1 ==> m * d >= m
    ensures d <= -1 ==> m * d + m <= 0
  {
  }

  lemma ModUnique(x: int, m: nat, q: int, r: int)
    requires m > 0 && x == m * q + r && 0 <= r < m
    ensures x / m == q && x % m == r
  {
    var q', r' := x / m, x % m;
    assert x == m * q' + r';
    assert m * (q' - q) == m * q' - m * q;
    MulAtLeast(m, q' - q);
  }

  /** What wrapping to 64 bits does to a number that is at most a turn out of range. */
  lemma WrapIs(x: int)
    requires 0 <= x + U64 && x < 2 * U64
    ensures x % U64 == if x < 0 then x + U64 else if x < U64 then x else x - U64
  {
    ModUnique(x, U64, if x < 0 then -1 else if x < U64 then 0 else 1,
              if x < 0 then x + U64 else if x < U64 then x else x - U64);
  }

  /** A slot index is the sequence number modulo the ring size. */
  lemma SlotIsMod(seq': nat, size: nat)
    requires IsPow2(size)
    ensures size >= 1 && Slot(seq', size) == seq' % size < size
  {
    var k: nat :| size == Pow2(k);
    MaskIsMod(seq', k);
  }

  lemma ModDifference(a: nat, b: nat, m: nat)
    requires m > 0 && a % m == b % m
    ensures (a - b) % m == 0
    ensures a - b < m && b - a < m ==> a == b
  {
    var d := a / m - b / m;
    assert a == m * (a / m) + a % m && b == m * (b / m) + b % m;
    assert m * d == m * (a / m) - m * (b / m);
    MulAtLeast(m, d);
    ModUnique(a - b, m, d, 0);
  }

  lemma ModCongruent(a: nat, b: nat, m: nat)
    requires m > 0
    ensures a % m == b % m <==> (a - b) % m == 0
    ensures a % m == b % m && a - b < m && b - a < m ==> a == b
  {
    if a % m == b % m {
      ModDifference(a, b, m);
    }
    var q, r := (a - b) / m, (a - b) % m;
    assert a - b == m * q + r;
    if r == 0 {
      ModAdd(b, q, m);
    }
  }

  lemma ModAdd(a: nat, q: int, m: nat)
    requires m > 0
    ensures (a + m * q) % m == a % m
  {
    assert a == m * (a / m) + a % m;
    assert m * (a / m + q) == m * (a / m) + m * q;
    ModUnique(a + m * q, m, a / m + q, a % m);
  }

  /** Two sequence numbers share a slot exactly when they are congruent modulo the size; so a window of `size`
      consecutive numbers uses every slot once, and one turn later the number is back on its slot. */
  lemma SlotShared(a: nat, b: nat, size: nat)
    requires IsPow2(size)
    ensures size >= 1 && (Slot(a, size) == Slot(b, size) <==> (a - b) % size == 0)
    ensures Slot(a, size) == Slot(b, size) && a - b < size && b - a < size ==> a == b
    ensures Slot(a + size, size) == Slot(a, size)
  {
    hide Slot;
    SlotIsMod(a, size);
    SlotIsMod(b, size);
    SlotIsMod(a + size, size);
    ModAdd(a, 1, size);
    ModCongruent(a, b, size);
  }

  /** A counter kept modulo 2^64 still selects the right slot, because a ring size divides 2^64. */
  lemma SlotOfWrapped(x: nat, i: nat, size: nat)
    requires IsPow2(size) && size <= U64
    ensures size >= 1 && Slot(x % U64 + i, size) == Slot(x + i, size) < size
    ensures Slot(x % U64, size) == Slot(x, size)
  {
    hide Slot, Pow2, IsPow2;
    var m := RingSizeDivides(size);
    var q := x / U64;
    assert x == x % U64 + size * (m * q) by {
      MulAssoc(size, m, q);
    }
    SlotShift(x % U64 + i, m * q, size);
    SlotShift(x % U64, m * q, size);
  }

  lemma RingSizeDivides(size: nat) returns (m: nat)
    requires IsPow2(size) && size <= U64
    ensures U64 == size * m
  {
    var k: nat :| size == Pow2(k);
    Pow2Of64();
    if k > 64 { Pow2Monotone(65, k); }
    Pow2Sum(k, 64 - k);
    m := Pow2(64 - k);
  }

  lemma SlotShift(x: nat, turns: nat, size: nat)
    requires IsPow2(size)
    ensures size >= 1 && size * turns >= 0 && Slot(x + size * turns, size) == Slot(x, size) < size
  {
    assert size * turns >= 0;
    SlotIsMod(x, size);
    SlotIsMod(x + size * turns, size);
    ModAdd(x, turns, size);
  }

  lemma MulAssoc(a: nat, b: nat, c: nat)
    ensures (a * b) * c == a * (b * c)
  {
  }
}
