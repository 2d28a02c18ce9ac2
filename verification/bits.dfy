/** Bitwise operators on naturals, as the masks, the packed ids and nextPow2 use them. */
module Bits {
  const WORD: nat := 0x1_0000_0000_0000_0000


  function Pow2(n: nat): (p: nat)
    ensures p >= 1
  {
    if n == 0 then 1 else 2 * Pow2(n - 1)
  }

  function BitAnd(a: nat, b: nat): nat {
    if a == 0 || b == 0 then 0 else 2 * BitAnd(a / 2, b / 2) + (if a % 2 == 1 && b % 2 == 1 then 1 else 0)
  }

  function BitOr(a: nat, b: nat): nat {
    if a == 0 then b else if b == 0 then a
    else 2 * BitOr(a / 2, b / 2) + (if a % 2 == 1 || b % 2 == 1 then 1 else 0)
  }

  function BitXor(a: nat, b: nat): nat {
    if a == 0 then b else if b == 0 then a
    else 2 * BitXor(a / 2, b / 2) + (if a % 2 != b % 2 then 1 else 0)
  }

  function ShiftRight(x: nat, m: nat): nat {
    if m == 0 then x else ShiftRight(x / 2, m - 1)
  }

  predicate Bit(x: nat, i: nat) {
    if i == 0 then x % 2 == 1 else Bit(x / 2, i - 1)
  }

  lemma {:induction false} PowMonotone(a: nat, b: nat)
    requires a <= b
    ensures Pow2(a) <= Pow2(b)
    decreases b
  {
    if a < b {
      PowMonotone(a, b - 1);
    }
  }

  lemma {:induction false} PowAdd(a: nat, b: nat)
    ensures Pow2(a + b) == Pow2(a) * Pow2(b)
  {
    if b > 0 {
      PowAdd(a, b - 1);
    }
  }

  lemma PowWord()
    ensures Pow2(64) == WORD
  {
    assert Pow2(4) == 16;
    PowAdd(4, 4);
    assert Pow2(8) == 256;
    PowAdd(8, 8);
    assert Pow2(16) == 0x1_0000;
    PowAdd(16, 16);
    assert Pow2(32) == 0x1_0000_0000;
    PowAdd(32, 32);
  }

  lemma SmallRemainder(x: nat, n: nat)
    requires x < n
    ensures x % n == x
  {
  }

  lemma MaskStep(x: nat, p: nat)
    requires x > 0 && p > 0
    ensures BitAnd(x, 2 * p - 1) == 2 * BitAnd(x / 2, p - 1) + x % 2
  {
    assert (2 * p - 1) / 2 == p - 1 && (2 * p - 1) % 2 == 1;
  }

  lemma AtLeast(d: int, k: int)
    requires d > 0 && k >= 1
    ensures d * k >= d
  {
  }

  lemma RemainderUnique(x: int, d: int, q: int, r: int)
    requires d > 0 && x == d * q + r && 0 <= r < d
    ensures x % d == r && x / d == q
  {
    var k := q - x / d;
    assert d * k == x % d - r;
    if k >= 1 {
      AtLeast(d, k);
      assert false;
    } else if k <= -1 {
      AtLeast(d, -k);
      assert false;
    }
  }

  lemma HalfRemainder(x: nat, p: nat)
    requires p > 0
    ensures x % (2 * p) == 2 * ((x / 2) % p) + x % 2
  {
    var q, r := (x / 2) / p, (x / 2) % p;
    assert x / 2 == p * q + r;
    assert x == (2 * p) * q + (2 * r + x % 2);
    RemainderUnique(x, 2 * p, q, 2 * r + x % 2);
  }

  /** Masking with 2^n - 1 keeps the remainder modulo 2^n: a masked index is always in range. */
  lemma {:induction false} MaskIsRemainder(x: nat, n: nat)
    ensures BitAnd(x, Pow2(n) - 1) == x % Pow2(n)
    decreases n
  {
    if x == 0 {
      RemainderUnique(0, Pow2(n), 0, 0);
    } else if n == 0 {
      assert Pow2(n) == 1;
    } else {
      var p := Pow2(n - 1);
      MaskIsRemainder(x / 2, n - 1);
      HalfRemainder(x, p);
      MaskStep(x, p);
    }
  }

  lemma {:induction false} NoBits(i: nat)
    ensures !Bit(0, i)
  {
    if i > 0 {
      NoBits(i - 1);
    }
  }

  lemma {:induction false} BitOfOr(a: nat, b: nat, i: nat)
    ensures Bit(BitOr(a, b), i) == (Bit(a, i) || Bit(b, i))
    decreases i
  {
    if a == 0 || b == 0 {
      NoBits(i);
    } else if i > 0 {
      BitOfOr(a / 2, b / 2, i - 1);
    }
  }

  lemma {:induction false} BitOfXor(a: nat, b: nat, i: nat)
    ensures Bit(BitXor(a, b), i) <==> Bit(a, i) != Bit(b, i)
  {
    NoBits(i);
    if a > 0 && b > 0 && i > 0 {
      BitOfXor(a / 2, b / 2, i - 1);
    }
  }

  lemma {:induction false} BitOfShift(x: nat, m: nat, i: nat)
    ensures Bit(ShiftRight(x, m), i) == Bit(x, i + m)
    decreases m
  {
    if m > 0 {
      BitOfShift(x / 2, m - 1, i);
    }
  }

  // Number of binary digits.
  function Digits(x: nat): nat {
    if x == 0 then 0 else 1 + Digits(x / 2)
  }

  lemma {:induction false} DigitsBound(x: nat)
    requires x > 0
    ensures 0 < Digits(x) && Pow2(Digits(x) - 1) <= x < Pow2(Digits(x)) && Bit(x, Digits(x) - 1)
  {
    if x > 1 {
      DigitsBound(x / 2);
    }
  }

  lemma {:induction false} NoHighBits(x: nat, i: nat)
    requires Digits(x) <= i
    ensures !Bit(x, i)
    decreases i
  {
    if i > 0 {
      NoHighBits(x / 2, i - 1);
    }
  }

  lemma {:induction false} OnesBelow(x: nat, k: nat)
    requires forall i: nat :: Bit(x, i) <==> i < k
    ensures x == Pow2(k) - 1
    decreases k
  {
    if k == 0 {
      if x > 0 {
        DigitsBound(x);
        assert false;
      }
    } else {
      forall i: nat ensures Bit(x / 2, i) <==> i < k - 1 {
        assert Bit(x, i + 1) == Bit(x / 2, i);
      }
      assert Bit(x, 0);
      OnesBelow(x / 2, k - 1);
    }
  }

  // The top m of k bits are set, and none above.
  ghost predicate Smeared(x: nat, k: nat, m: nat) {
    forall i: nat :: (Bit(x, i) ==> i < k) && (i < k <= i + m ==> Bit(x, i))
  }

  lemma Smear(x: nat, k: nat, m: nat)
    requires Smeared(x, k, m)
    ensures Smeared(BitOr(x, ShiftRight(x, m)), k, 2 * m)
  {
    var y := BitOr(x, ShiftRight(x, m));
    forall i: nat
      ensures (Bit(y, i) ==> i < k) && (i < k <= i + 2 * m ==> Bit(y, i))
    {
      BitOfOr(x, ShiftRight(x, m), i);
      BitOfShift(x, m, i);
      assert Bit(x, i + m) ==> i + m < k;
    }
  }

  predicate PowerOfTwo(p: int) {
    p > 0 && p == Pow2(Digits(p) - 1)
  }

  /** A mask one below a power of two keeps an index below it. */
  lemma MaskBelow(x: nat, p: int)
    requires PowerOfTwo(p)
    ensures BitAnd(x, p - 1) == x % p < p
  {
    hide BitAnd, Pow2;
    MaskIsRemainder(x, Digits(p) - 1);
  }

  lemma {:induction false} DigitsOfPow(n: nat)
    ensures Digits(Pow2(n)) == n + 1
  {
    if n > 0 {
      DigitsOfPow(n - 1);
    }
  }

  lemma PowIsPowerOfTwo(n: nat)
    ensures PowerOfTwo(Pow2(n))
  {
    DigitsOfPow(n);
  }

  // Copying the top bit downwards over 1, 2, 4, ... 32 places fills up to 64 digits.
  function Fill(x: nat): nat {
    var x := BitOr(x, ShiftRight(x, 1));
    var x := BitOr(x, ShiftRight(x, 2));
    var x := BitOr(x, ShiftRight(x, 4));
    var x := BitOr(x, ShiftRight(x, 8));
    var x := BitOr(x, ShiftRight(x, 16));
    BitOr(x, ShiftRight(x, 32))
  }

  lemma FillIsAllOnes(x: nat)
    requires 0 < x && Digits(x) <= 64
    ensures Fill(x) == Pow2(Digits(x)) - 1
  {
    var k := Digits(x);
    DigitsBound(x);
    forall i: nat | k <= i ensures !Bit(x, i) {
      NoHighBits(x, i);
    }
    var y := x;
    assert Smeared(y, k, 1);
    Smear(y, k, 1);
    y := BitOr(y, ShiftRight(y, 1));
    Smear(y, k, 2);
    y := BitOr(y, ShiftRight(y, 2));
    Smear(y, k, 4);
    y := BitOr(y, ShiftRight(y, 4));
    Smear(y, k, 8);
    y := BitOr(y, ShiftRight(y, 8));
    Smear(y, k, 16);
    y := BitOr(y, ShiftRight(y, 16));
    Smear(y, k, 32);
    y := BitOr(y, ShiftRight(y, 32));
    OnesBelow(y, k);
  }

  lemma NoPowerBetween(k: nat, j: nat)
    requires k > 0 && Pow2(k - 1) < Pow2(j)
    ensures Pow2(k) <= Pow2(j)
  {
    if j < k {
      PowMonotone(j, k - 1);
    } else {
      PowMonotone(k, j);
    }
  }

  lemma LeastPower(x: int, k: nat)
    requires k > 0 && Pow2(k - 1) < x <= Pow2(k)
    ensures PowerOfTwo(Pow2(k))
    ensures forall q :: PowerOfTwo(q) && x <= q ==> Pow2(k) <= q
  {
    PowIsPowerOfTwo(k);
    forall q | PowerOfTwo(q) && x <= q ensures Pow2(k) <= q {
      NoPowerBetween(k, Digits(q) - 1);
    }
  }

  lemma OneIsLeast()
    ensures PowerOfTwo(1) && forall q :: PowerOfTwo(q) ==> 1 <= q
  {
    PowIsPowerOfTwo(0);
  }

  lemma {:induction false} FewDigits(x: nat, n: nat)
    requires x < Pow2(n)
    ensures Digits(x) <= n
    decreases n
  {
    if x > 0 {
      FewDigits(x / 2, n - 1);
    }
  }

  /** The least power of two that is at least x, for the 64-bit int of the source, so up to 2^62. */
  method NextPow2(x: int) returns (r: int)
    requires x <= Pow2(62)
    ensures PowerOfTwo(r) && x <= r
    ensures forall q :: PowerOfTwo(q) && x <= q ==> r <= q
  {
    hide BitOr, ShiftRight, Pow2, PowerOfTwo, Digits;
    if x <= 1 {
      OneIsLeast();
      return 1;
    }
    var y: nat := x - 1;
    y := BitOr(y, ShiftRight(y, 1));
    y := BitOr(y, ShiftRight(y, 2));
    y := BitOr(y, ShiftRight(y, 4));
    y := BitOr(y, ShiftRight(y, 8));
    y := BitOr(y, ShiftRight(y, 16));
    y := BitOr(y, ShiftRight(y, 32));
    r := y + 1;
    FewDigits(x - 1, 62);
    FillIsAllOnes(x - 1);
    DigitsBound(x - 1);
    LeastPower(x, Digits(x - 1));
  }

  // No nonzero operand leaves the other one as it was.
  lemma {:induction false} XorZero(a: nat, b: nat)
    requires b > 0
    ensures BitXor(a, b) != a
  {
    if a > 0 && b / 2 > 0 {
      XorZero(a / 2, b / 2);
    }
  }

  lemma {:induction false} XorCancels(a: nat, b: nat, c: nat)
    requires BitXor(a, b) == BitXor(a, c)
    ensures b == c
    decreases a + b + c
  {
    if a > 0 {
      if b == 0 && c > 0 {
        XorZero(a, c);
      } else if c == 0 && b > 0 {
        XorZero(a, b);
      } else if b > 0 {
        XorCancels(a / 2, b / 2, c / 2);
      }
    }
  }

  lemma {:induction false} XorBound(a: nat, b: nat, n: nat)
    requires a < Pow2(n) && b < Pow2(n)
    ensures BitXor(a, b) < Pow2(n)
    decreases n
  {
    if a > 0 && b > 0 {
      XorBound(a / 2, b / 2, n - 1);
    }
  }
}
