/** Fixed-width machine integers and the bit operations the engine applies to them.
    The operators are defined bit by bit, and the arithmetic meaning that the rest of the
    project relies on (a mask is a remainder, an or of disjoint bits is a sum) is proved. */
module Bits {

  const U32_MAX: nat := 0xFFFF_FFFF
  const U64_MAX: nat := 0xFFFF_FFFF_FFFF_FFFF
  const TWO_TO_64: nat := 0x1_0000_0000_0000_0000

  type u8 = x: int | 0 <= x < 0x100
  type u16 = x: int | 0 <= x < 0x1_0000
  type u32 = x: int | 0 <= x <= U32_MAX
  type u64 = x: int | 0 <= x <= U64_MAX

  /** Unsigned 64-bit subtraction, which wraps. */
  function Sub64(a: nat, b: nat): (r: u64)
    ensures b <= a <= U64_MAX ==> r == a - b
    ensures a < b <= U64_MAX ==> r == a - b + TWO_TO_64
  {
    (a as int - b as int) % TWO_TO_64
  }

  /** Unsigned 64-bit addition, which wraps. */
  function Add64(a: u64, b: u64): (r: u64)
    ensures a + b <= U64_MAX ==> r == a + b
    ensures a + b > U64_MAX ==> r == a + b - TWO_TO_64
  {
    (a + b) % TWO_TO_64
  }

  function Pow2(k: nat): (r: nat)
    ensures r >= 1
    ensures k > 0 ==> r % 2 == 0
  {
    if k == 0 then 1 else 2 * Pow2(k - 1)
  }

  function ShiftLeft(a: nat, k: nat): nat {
    a * Pow2(k)
  }

  function And(a: nat, b: nat): (r: nat)
    ensures r <= a
  {
    if a == 0 || b == 0 then 0
    else (if a % 2 == 1 && b % 2 == 1 then 1 else 0) + 2 * And(a / 2, b / 2)
  }

  function Or(a: nat, b: nat): (r: nat)
    decreases a + b
  {
    if a == 0 then b else if b == 0 then a
    else (if a % 2 == 1 || b % 2 == 1 then 1 else 0) + 2 * Or(a / 2, b / 2)
  }

  /** Doubling both sides of a division by 2^k peels one bit off. */
  lemma ModPeel(x: nat, m: nat)
    requires m > 0
    ensures x % (2 * m) == x % 2 + 2 * ((x / 2) % m)
  {
    var q, r := (x / 2) / m, (x / 2) % m;
    assert x == 2 * (q * m + r) + x % 2;
    assert x == q * (2 * m) + (2 * r + x % 2);
    ModUnique(x, 2 * m, q, 2 * r + x % 2);
  }

  /** Products with a fixed factor keep a strict order, with room for one more factor. */
  lemma MulStep(a: int, b: int, m: nat)
    requires a < b
    ensures a * m + m <= b * m
    decreases b - a
  {
    assert (a + 1) * m == a * m + m;
    if a + 1 < b { MulStep(a + 1, b, m); }
  }

  lemma ModUnique(x: int, m: nat, q: int, r: int)
    requires m > 0 && x == q * m + r && 0 <= r < m
    ensures x / m == q && x % m == r
  {
    var p := x / m;
    assert x == p * m + x % m;
    if p < q {
      MulStep(p, q, m);
    } else if p > q {
      MulStep(q, p, m);
    }
  }

  /** Two numbers less than n apart with the same remainder are equal. */
  lemma OneLap(p: nat, q: nat, n: nat)
    requires n > 0 && p <= q < p + n && p % n == q % n
    ensures p == q
  {
    var a, b := p / n, q / n;
    assert p == a * n + p % n && q == b * n + q % n;
    if a < b { MulStep(a, b, n); } else if b < a { MulStep(b, a, n); }
  }

  /** Masking with 2^k - 1 is the remainder modulo 2^k. */
  lemma {:induction false} AndMask(x: nat, k: nat)
    ensures And(x, Pow2(k) - 1) == x % Pow2(k)
  {
    if k == 0 {
      assert x % 1 == 0;
    } else {
      var m := Pow2(k - 1);
      assert (2 * m - 1) % 2 == 1 && (2 * m - 1) / 2 == m - 1;
      AndMask(x / 2, k - 1);
      ModPeel(x, m);
    }
  }

  /** Combining bits below position k with bits from position k upwards is a sum. */
  lemma {:induction false} OrDisjoint(a: nat, b: nat, k: nat)
    requires a < Pow2(k)
    ensures Or(a, b * Pow2(k)) == a + b * Pow2(k)
  {
    if k == 0 || a == 0 {
      assert a == 0;
    } else if b == 0 {
    } else {
      var m := Pow2(k - 1);
      assert b * Pow2(k) == 2 * (b * m);
      assert b * m >= 1;
      OrDisjoint(a / 2, b, k - 1);
    }
  }

  ghost predicate IsPowerOfTwo(n: nat) {
    exists k: nat :: n == Pow2(k)
  }

  /** The test n & (n - 1) == 0 accepts exactly the powers of two. */
  lemma {:induction false} PowerOfTwoTest(n: nat)
    requires n >= 1
    ensures And(n, n - 1) == 0 <==> IsPowerOfTwo(n)
  {
    if n == 1 {
      assert 1 == Pow2(0);
    } else if n % 2 == 1 {
      AndSelf(n / 2);
      assert (n - 1) / 2 == n / 2;
      forall k: nat ensures n != Pow2(k) { assert k > 0 ==> Pow2(k) % 2 == 0; }
    } else {
      var h := n / 2;
      PowerOfTwoTest(h);
      assert (n - 1) / 2 == h - 1;
      if IsPowerOfTwo(h) {
        var k: nat :| h == Pow2(k);
        assert n == Pow2(k + 1);
      }
      if IsPowerOfTwo(n) {
        var k: nat :| n == Pow2(k);
        assert k > 0 && h == Pow2(k - 1);
      }
    }
  }

  lemma {:induction false} AndSelf(n: nat)
    ensures And(n, n) == n
  {
    if n > 0 { AndSelf(n / 2); }
  }

  /** Round `value` up with the mask of a power-of-two alignment. */
  function AlignUp(value: nat, alignment: nat): nat
    requires IsPowerOfTwo(alignment)
  {
    var remainder := And(value, alignment - 1);
    if remainder == 0 then value else value + alignment - remainder
  }

  lemma AlignUpRemainder(value: nat, alignment: nat)
    requires IsPowerOfTwo(alignment)
    ensures And(value, alignment - 1) == value % alignment
  {
    var k: nat :| alignment == Pow2(k);
    AndMask(value, k);
  }

  /** AlignUp is the least multiple of the alignment that is not below the value. */
  lemma AlignUpIsLeast(value: nat, alignment: nat)
    requires IsPowerOfTwo(alignment)
    ensures AlignUp(value, alignment) % alignment == 0
    ensures value <= AlignUp(value, alignment) < value + alignment
    ensures forall other: nat :: other % alignment == 0 && value <= other ==> AlignUp(value, alignment) <= other
  {
    AlignUpRemainder(value, alignment);
    RoundUpMultiple(value, alignment);
    forall other: nat | other % alignment == 0 && value <= other ensures AlignUp(value, alignment) <= other {
      LeastMultiple(value, alignment, AlignUp(value, alignment), other);
    }
  }

  lemma RoundUpMultiple(value: nat, alignment: nat)
    requires alignment > 0
    ensures (value + alignment - value % alignment) % alignment == 0
  {
    var q := value / alignment;
    assert value == q * alignment + value % alignment;
    assert (q + 1) * alignment == q * alignment + alignment;
    ModUnique(value + alignment - value % alignment, alignment, q + 1, 0);
  }

  lemma LeastMultiple(value: nat, alignment: nat, r: nat, other: nat)
    requires alignment > 0 && r % alignment == 0 && r < value + alignment
    requires other % alignment == 0 && value <= other
    ensures r <= other
  {
    var p, q := other / alignment, r / alignment;
    assert other == p * alignment && r == q * alignment;
    if p < q { MulStep(p, q, alignment); }
  }

  lemma KnownPowers()
    ensures Pow2(2) == 4 && Pow2(4) == 0x10 && Pow2(6) == 64
    ensures Pow2(8) == 0x100 && Pow2(16) == 0x1_0000 && Pow2(32) == 0x1_0000_0000
    ensures IsPowerOfTwo(4) && IsPowerOfTwo(64)
  {
    var one, two := Pow2(0), Pow2(1);
    assert one == 1 && two == 2 && Pow2(2) == 4;
    PowAdd(2, 2);
    PowAdd(4, 2);
    PowAdd(4, 4);
    WidePowers();
  }

  lemma WidePowers()
    requires Pow2(8) == 0x100
    ensures Pow2(16) == 0x1_0000 && Pow2(32) == 0x1_0000_0000
  {
    PowAdd(8, 8);
    PowAdd(16, 16);
  }

  lemma {:induction false} PowAdd(a: nat, b: nat)
    ensures Pow2(a + b) == Pow2(a) * Pow2(b)
  {
    if a > 0 { PowAdd(a - 1, b); }
  }
}
