/** Bitwise operators on naturals, and what masking and alignment by powers of two compute. */
module Bits {
  function And(x: nat, y: nat): nat
    decreases x
  {
    if x == 0 || y == 0 then 0 else 2 * And(x / 2, y / 2) + (if x % 2 == 1 && y % 2 == 1 then 1 else 0)
  }

  function Xor(x: nat, y: nat): nat
    decreases x + y
  {
    if x == 0 && y == 0 then 0 else 2 * Xor(x / 2, y / 2) + (if x % 2 == y % 2 then 0 else 1)
  }

  function Pow2(k: nat): (p: nat)
    ensures p >= 1
  {
    if k == 0 then 1 else 2 * Pow2(k - 1)
  }

  ghost predicate IsPowerOfTwo(n: nat) {
    exists k: nat :: n == Pow2(k)
  }

  /** The bit trick that recognises powers of two. */
  predicate IsPowOf2(num: nat) {
    num != 0 && And(num, num - 1) == 0
  }

  /** The binary digit of weight two to the power `k`. */
  function Bit(x: nat, k: nat): nat
    decreases k
  {
    if k == 0 then x % 2 else Bit(x / 2, k - 1)
  }

  /** Bit by bit: both, and one of them. */
  lemma {:induction false} BitOfAnd(x: nat, y: nat, k: nat)
    ensures Bit(And(x, y), k) == if Bit(x, k) == 1 && Bit(y, k) == 1 then 1 else 0
    decreases k
  {
    if x == 0 || y == 0 {
      NoBits(k);
    } else {
      LastBit(And(x / 2, y / 2), if x % 2 == 1 && y % 2 == 1 then 1 else 0);
      if k > 0 {
        BitOfAnd(x / 2, y / 2, k - 1);
      }
    }
  }

  lemma {:induction false} BitOfXor(x: nat, y: nat, k: nat)
    ensures Bit(Xor(x, y), k) == if Bit(x, k) == Bit(y, k) then 0 else 1
    decreases k
  {
    if x == 0 && y == 0 {
      NoBits(k);
    } else {
      LastBit(Xor(x / 2, y / 2), if x % 2 == y % 2 then 0 else 1);
      if k > 0 {
        BitOfXor(x / 2, y / 2, k - 1);
      }
    }
  }

  lemma {:induction false} NoBits(k: nat)
    ensures Bit(0, k) == 0
  {
    if k > 0 {
      NoBits(k - 1);
    }
  }

  lemma LastBit(half: nat, last: nat)
    requires last < 2
    ensures (2 * half + last) % 2 == last && (2 * half + last) / 2 == half
  {
  }

  lemma {:induction false} AndSelf(x: nat)
    ensures And(x, x) == x
    decreases x
  {
    if x != 0 {
      AndSelf(x / 2);
    }
  }

  lemma AndOdd(x: nat, m: nat)
    ensures And(x, 2 * m + 1) == 2 * And(x / 2, m) + x % 2
  {
    assert (2 * m + 1) / 2 == m && (2 * m + 1) % 2 == 1;
  }

  lemma AndEven(x: nat, m: nat)
    ensures And(x, 2 * m) == 2 * And(x / 2, m)
  {
    assert 2 * m / 2 == m && 2 * m % 2 == 0;
  }

  /** The trick works: exactly the powers of two pass. */
  lemma {:induction false} PowOf2Trick(num: nat)
    ensures IsPowOf2(num) <==> IsPowerOfTwo(num)
    decreases num
  {
    if num < 2 {
      assert Pow2(0) == 1;
    } else {
      PowOf2Trick(num / 2);
      TrickHalves(num);
      PowerHalves(num);
    }
  }

  lemma TrickHalves(num: nat)
    requires num >= 2
    ensures IsPowOf2(num) <==> num % 2 == 0 && IsPowOf2(num / 2)
  {
    var h := num / 2;
    if num % 2 == 0 {
      AndOdd(num, h - 1);
      assert num - 1 == 2 * (h - 1) + 1;
    } else {
      AndEven(num, h);
      AndSelf(h);
    }
  }

  lemma PowerHalves(num: nat)
    requires num >= 2
    ensures IsPowerOfTwo(num) <==> num % 2 == 0 && IsPowerOfTwo(num / 2)
  {
    if IsPowerOfTwo(num) {
      var k: nat :| num == Pow2(k);
      assert num / 2 == Pow2(k - 1);
    }
    if num % 2 == 0 && IsPowerOfTwo(num / 2) {
      var k: nat :| num / 2 == Pow2(k);
      assert num == Pow2(k + 1);
    }
  }

  /** The low bits are what is left over from a multiple of the power of two. */
  lemma {:induction false} MaskSplits(x: nat, k: nat) returns (q: nat)
    ensures x == q * Pow2(k) + And(x, Pow2(k) - 1) && And(x, Pow2(k) - 1) < Pow2(k)
    decreases k
  {
    if k == 0 {
      q := x;
    } else {
      var h := Pow2(k - 1);
      q := MaskSplits(x / 2, k - 1);
      AndOdd(x, h - 1);
      Doubled(x, h, q, And(x / 2, h - 1));
    }
  }

  lemma Doubled(x: nat, h: nat, q: nat, low: nat)
    requires x / 2 == q * h + low && low < h
    ensures x == q * (2 * h) + (2 * low + x % 2) && 2 * low + x % 2 < 2 * h
  {
    assert q * (2 * h) == 2 * (q * h);
  }

  /** Masking with a power of two minus one takes the remainder. */
  lemma MaskIsMod(x: nat, k: nat)
    ensures And(x, Pow2(k) - 1) == x % Pow2(k)
  {
    var q := MaskSplits(x, k);
    ModUnique(x, Pow2(k), q, And(x, Pow2(k) - 1));
  }

  lemma ModUnique(x: int, m: int, q: int, r: int)
    requires m > 0 && x == q * m + r && 0 <= r < m
    ensures x % m == r && x / m == q
  {
    var d := x / m - q;
    assert d * m == r - x % m;
    if d != 0 {
      Multiples(m, d);
    }
  }

  lemma Multiples(m: int, d: int)
    requires m > 0 && d != 0
    ensures d * m >= m || d * m <= -m
  {
  }

  /** The `w`-bit word whose `k` low bits are clear and whose others are set. */
  function HighMask(k: nat, w: nat): (m: nat)
    requires k <= w
    ensures m == Pow2(w) - Pow2(k)
  {
    if k == 0 then Pow2(w) - 1 else 2 * HighMask(k - 1, w - 1)
  }

  lemma {:induction false} FullMask(x: nat, w: nat)
    requires x < Pow2(w)
    ensures And(x, Pow2(w) - 1) == x
    decreases w
  {
    if w > 0 {
      FullMask(x / 2, w - 1);
      AndOdd(x, Pow2(w - 1) - 1);
    }
  }

  lemma {:induction false} HighAndLow(x: nat, k: nat, w: nat)
    requires k <= w && x < Pow2(w)
    ensures And(x, HighMask(k, w)) + And(x, Pow2(k) - 1) == x
    decreases k
  {
    if k == 0 {
      FullMask(x, w);
    } else {
      var high, low := HighMask(k - 1, w - 1), Pow2(k - 1) - 1;
      HighAndLow(x / 2, k - 1, w - 1);
      HighLowStep(x, high, low);
      assert HighMask(k, w) == 2 * high && Pow2(k) - 1 == 2 * low + 1;
    }
  }

  lemma HighLowStep(x: nat, high: nat, low: nat)
    requires And(x / 2, high) + And(x / 2, low) == x / 2
    ensures And(x, 2 * high) + And(x, 2 * low + 1) == x
  {
    AndEven(x, high);
    AndOdd(x, low);
  }

  /** Masking with it rounds down to a multiple of the power of two. */
  lemma MaskRoundsDown(x: nat, k: nat, w: nat)
    requires k <= w && x < Pow2(w)
    ensures And(x, HighMask(k, w)) == x - x % Pow2(k)
  {
    HighAndLow(x, k, w);
    MaskIsMod(x, k);
  }

  /** Powers of two by doubling the exponent. */
  lemma {:induction false} PowerSum(a: nat, b: nat)
    ensures Pow2(a + b) == Pow2(a) * Pow2(b)
    decreases a
  {
    if a > 0 {
      PowerSum(a - 1, b);
    }
  }

  lemma {:induction false} PowersGrow(a: nat, b: nat)
    requires a <= b
    ensures Pow2(a) <= Pow2(b)
    decreases b
  {
    if a < b {
      PowersGrow(a, b - 1);
    }
  }

  lemma WordPowers()
    ensures Pow2(8) == 0x100 && Pow2(16) == 0x1_0000 && Pow2(32) == 0x1_0000_0000
    ensures Pow2(64) == 0x1_0000_0000_0000_0000
  {
    assert Pow2(4) == 16;
    PowerSum(4, 4);
    PowerSum(8, 8);
    PowerSum(16, 16);
    PowerSum(32, 32);
  }
}
