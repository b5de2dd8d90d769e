/** 32-bit words, powers of two and bitwise "and" on naturals. */
module Words {

  const TWO32: nat := 0x1_0000_0000

  /** The value a uint32_t holds after an unbounded computation gave x. */
  function W32(x: int): (r: nat)
    ensures r < TWO32
  {
    x % TWO32
  }

  /** Words of numbers less than 2^32 apart are equal only if the numbers are. */
  lemma WrapEqual(a: nat, b: nat)
    requires a <= b < a + TWO32
    ensures W32(a) == W32(b) <==> a == b
  {}

  function Pow2(k: nat): (r: nat)
    ensures r > 0
  {
    if k == 0 then 1 else 2 * Pow2(k - 1)
  }

  ghost predicate IsPow2(x: nat) {
    exists k: nat :: Pow2(k) == x
  }

  /** Bitwise "and", bit by bit from the least significant end. */
  function BitAnd(x: nat, y: nat): nat {
    if x == 0 || y == 0 then 0
    else 2 * BitAnd(x / 2, y / 2) + (if x % 2 == 1 && y % 2 == 1 then 1 else 0)
  }

  /** Quotient and remainder are determined by x == q * m + r with 0 <= r < m. */
  lemma DivModUnique(x: int, m: int, q: int, r: int)
    requires 0 <= r < m && x == q * m + r
    ensures x / m == q && x % m == r
  {
    var d := q - x / m;
    assert d * m == x % m - r;
    assert d >= 1 ==> d * m >= m;
    assert d <= -1 ==> d * m <= -m;
  }

  lemma ModOfDouble(x: nat, p: nat)
    requires p > 0
    ensures x % (2 * p) == 2 * ((x / 2) % p) + x % 2
  {
    var h := x / 2;
    var q, r := h / p, h % p;
    assert h == q * p + r;
    assert 2 * (q * p) == q * (2 * p);
    DivModUnique(x, 2 * p, q, 2 * r + x % 2);
  }

  /** x & (2^k - 1) is x mod 2^k. */
  lemma {:induction false} BitAndMask(x: nat, k: nat)
    ensures BitAnd(x, Pow2(k) - 1) == x % Pow2(k)
  {
    if k > 0 {
      var p := Pow2(k - 1);
      BitAndMask(x / 2, k - 1);
      BitAndOdd(x, p - 1);
      ModOfDouble(x, p);
    }
  }

  lemma BitAndOdd(x: nat, y: nat)
    ensures BitAnd(x, 2 * y + 1) == 2 * BitAnd(x / 2, y) + x % 2
  {
    assert (2 * y + 1) / 2 == y && (2 * y + 1) % 2 == 1;
  }

  lemma BitAndFour(x: nat, y: nat)
    ensures BitAnd(x, 4 * y) == 4 * BitAnd(x / 4, y)
  {
    assert BitAnd(x, 4 * y) == 2 * BitAnd(x / 2, 2 * y);
    assert x / 2 / 2 == x / 4;
    assert BitAnd(x / 2, 2 * y) == 2 * BitAnd(x / 4, y);
  }

  /** n & ~3 and n & 3 on a 32-bit n. */
  lemma SplitByFour(n: nat, notThree: nat, three: nat)
    requires n < TWO32 && notThree == TWO32 - 4 && three == 3
    ensures BitAnd(n, notThree) == n - n % 4 && BitAnd(n, three) == n % 4
  {
    BitAndOdd(n, 1);
    BitAndOdd(n / 2, 0);
    ClearLowTwo(n, notThree);
  }

  lemma ClearLowTwo(n: nat, notThree: nat)
    requires n < TWO32 && notThree == TWO32 - 4
    ensures BitAnd(n, notThree) == n - n % 4
  {
    var k := Thirty();
    BitAndMask(n / 4, k);
    BitAndFour(n, Pow2(k) - 1);
    DivModUnique(n / 4, Pow2(k), 0, n / 4);
  }

  lemma Thirty() returns (k: nat)
    ensures 4 * Pow2(k) == TWO32
  {
    Pow2Values();
    k := 30;
  }

  lemma Pow2Values()
    ensures Pow2(28) == 0x1000_0000 && Pow2(30) == 0x4000_0000 && Pow2(32) == TWO32
  {
    assert Pow2(10) == 1024;
    assert Pow2(20) == 1024 * 1024;
    assert Pow2(28) == 0x1000_0000;
  }

  lemma {:induction false} Pow2Add(a: nat, b: nat)
    ensures Pow2(a + b) == Pow2(a) * Pow2(b)
  {
    if a > 0 {
      Pow2Add(a - 1, b);
    }
  }

  lemma {:induction false} Pow2Monotone(a: nat, b: nat)
    ensures a <= b ==> Pow2(a) <= Pow2(b)
    ensures a < b ==> Pow2(a) < Pow2(b)
  {
    if a < b {
      Pow2Add(a, b - a);
      assert Pow2(b - a) >= 2 by { assert Pow2(b - a) == 2 * Pow2(b - a - 1); }
      assert Pow2(a) * Pow2(b - a) >= Pow2(a) * 2;
    }
  }

  lemma {:induction false} ModOfMod(x: nat, size: nat, f: nat)
    requires size > 0 && f > 0
    ensures (x % (size * f)) % size == x % size
  {
    var m := size * f;
    var y := x % m;
    var p, q, r := x / m, y / size, y % size;
    calc {
      x;
      p * m + y;
      p * (size * f) + (q * size + r);
      (p * f + q) * size + r;
    }
    DivModUnique(x, size, p * f + q, r);
  }

  lemma Cofactor(k: nat) returns (f: nat)
    requires Pow2(k) <= TWO32
    ensures f > 0 && Pow2(k) * f == TWO32
  {
    Pow2Values();
    if k > 32 { Pow2Monotone(32, k); }
    Pow2Add(k, 32 - k);
    f := Pow2(32 - k);
  }

  /** A power of two no larger than 2^32 divides 2^32, so masking a wrapped index is masking the index. */
  lemma MaskOfWrapped(x: nat, size: nat)
    requires IsPow2(size) && size <= TWO32
    ensures W32(x) % size == x % size
    ensures BitAnd(W32(x), size - 1) == x % size
  {
    var k: nat :| Pow2(k) == size;
    var f := Cofactor(k);
    ModOfMod(x, size, f);
    BitAndMask(W32(x), k);
  }

  lemma MaskOfWord(x: nat, size: nat)
    requires x < TWO32 && IsPow2(size)
    ensures BitAnd(x, size - 1) == x % size
  {
    var k: nat :| Pow2(k) == size;
    BitAndMask(x, k);
  }

  /** The test (x - 1) & x == 0, in 32 bits, accepts exactly 0 and the powers of two. */
  lemma PowerOfTwoTest(x: nat)
    requires x < TWO32
    ensures BitAnd(W32(x - 1), x) == 0 <==> x == 0 || IsPow2(x)
  {
    if x > 0 {
      PositivePowerOfTwo(x);
    }
  }

  lemma {:induction false} PositivePowerOfTwo(x: nat)
    requires x > 0
    ensures BitAnd(x - 1, x) == 0 <==> IsPow2(x)
  {
    if x == 1 {
      assert Pow2(0) == 1;
    } else if x % 2 == 1 {
      assert BitAnd(x - 1, x) == 2 * BitAnd(x / 2, x / 2);
      BitAndSelf(x / 2);
      forall k: nat ensures Pow2(k) != x {
        if k > 0 { assert Pow2(k) == 2 * Pow2(k - 1); }
      }
    } else {
      PositivePowerOfTwo(x / 2);
      assert (x - 1) / 2 == x / 2 - 1;
      assert BitAnd(x - 1, x) == 2 * BitAnd(x / 2 - 1, x / 2);
      if IsPow2(x / 2) {
        var k: nat :| Pow2(k) == x / 2;
        assert Pow2(k + 1) == x;
      }
      if IsPow2(x) {
        var k: nat :| Pow2(k) == x;
        assert k > 0 && Pow2(k - 1) == x / 2;
      }
    }
  }

  lemma {:induction false} BitAndSelf(x: nat)
    ensures BitAnd(x, x) == x
  {
    if x > 0 { BitAndSelf(x / 2); }
  }
}
