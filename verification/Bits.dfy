/**
 Unsigned machine words as natural numbers: powers of two, single bits, bitwise
 "or" and left shift, with the laws that tie them to one another.  A word of
 width n is a number below Pow2(n); code that would wrap says so with "%".
 */
module Bits {
  const TWO_32: nat := 0x1_0000_0000
  const TWO_64: nat := 0x1_0000_0000_0000_0000

  function Pow2(n: nat): (p: nat)
    ensures p > 0
  {
    if n == 0 then 1 else 2 * Pow2(n - 1)
  }

  /** Bit k of w, counting from the least significant. */
  predicate Bit(w: nat, k: nat)
    decreases k
  {
    if k == 0 then w % 2 == 1 else Bit(w / 2, k - 1)
  }

  /** Bitwise or. */
  function Or(a: nat, b: nat): nat {
    if a == 0 then b
    else if b == 0 then a
    else 2 * Or(a / 2, b / 2) + (if a % 2 == 1 || b % 2 == 1 then 1 else 0)
  }

  lemma {:induction false} ZeroHasNoBits(k: nat)
    ensures !Bit(0, k)
  {
    if k > 0 {
      ZeroHasNoBits(k - 1);
    }
  }

  lemma OrHalf(a: nat, b: nat)
    ensures Or(a, b) / 2 == Or(a / 2, b / 2)
    ensures Or(a, b) % 2 == 1 <==> a % 2 == 1 || b % 2 == 1
  {
  }

  lemma {:induction false} OrBit(a: nat, b: nat, k: nat)
    ensures Bit(Or(a, b), k) <==> Bit(a, k) || Bit(b, k)
    decreases k
  {
    OrHalf(a, b);
    if k > 0 {
      OrBit(a / 2, b / 2, k - 1);
    }
  }

  lemma {:induction false} Pow2Bit(s: nat, k: nat)
    ensures Bit(Pow2(s), k) <==> k == s
    decreases k
  {
    if s == 0 {
      if k > 0 { ZeroHasNoBits(k - 1); }
    } else if k > 0 {
      Pow2Bit(s - 1, k - 1);
    }
  }

  lemma {:induction false} ShiftBit(w: nat, s: nat, k: nat)
    ensures Bit(w * Pow2(s), k) <==> s <= k && Bit(w, k - s)
    decreases s
  {
    if s > 0 {
      assert w * Pow2(s) == 2 * (w * Pow2(s - 1));
      if k > 0 {
        ShiftBit(w, s - 1, k - 1);
      }
    }
  }

  lemma HalfOfMod(w: nat, p: nat)
    requires p > 0
    ensures w % (2 * p) % 2 == w % 2
    ensures w % (2 * p) / 2 == (w / 2) % p
  {
    var q, r := w / (2 * p), w % (2 * p);
    assert w == 2 * (p * q) + r;
    assert w / 2 == p * q + r / 2 && r / 2 < p;
    ModOfSum(q, p, r / 2);
  }

  lemma {:induction false} MulAtLeast(p: nat, a: int, b: int)
    requires a < b
    ensures p * a + p <= p * b
    decreases b - a
  {
    assert p * b == p * (b - 1) + p;
    if a < b - 1 {
      MulAtLeast(p, a, b - 1);
    }
  }

  lemma RemainderUnique(p: nat, q: nat, r: nat, q': nat, r': nat)
    requires p * q + r == p * q' + r' && r < p && r' < p
    ensures r == r'
  {
    if q < q' {
      MulAtLeast(p, q, q');
    } else if q' < q {
      MulAtLeast(p, q', q);
    }
  }

  lemma ModOfSum(q: nat, p: nat, r: nat)
    requires r < p
    ensures (p * q + r) % p == r
  {
    var x := p * q + r;
    RemainderUnique(p, q, r, x / p, x % p);
  }

  /** Truncation to n bits keeps exactly the low n bits. */
  lemma {:induction false} TruncateBit(w: nat, n: nat, k: nat)
    ensures Bit(w % Pow2(n), k) <==> k < n && Bit(w, k)
    decreases n
  {
    if n == 0 {
      ZeroHasNoBits(k);
    } else {
      HalfOfMod(w, Pow2(n - 1));
      if k > 0 {
        TruncateBit(w / 2, n - 1, k - 1);
      }
    }
  }

  /** Or-ing in bits above n adds them. */
  lemma {:induction false} OrAbove(a: nat, b: nat, n: nat)
    requires a < Pow2(n)
    ensures Or(a, b * Pow2(n)) == a + b * Pow2(n)
    decreases n
  {
    if a != 0 && b != 0 {
      var p := Pow2(n - 1);
      assert b * Pow2(n) == 2 * (b * p);
      OrAbove(a / 2, b, n - 1);
    }
  }

  lemma {:induction false} OrBound(a: nat, b: nat, n: nat)
    requires a < Pow2(n) && b < Pow2(n)
    ensures Or(a, b) < Pow2(n)
    decreases n
  {
    if a != 0 && b != 0 {
      OrBound(a / 2, b / 2, n - 1);
    }
  }

  lemma {:induction false} Pow2Sum(m: nat, n: nat)
    ensures Pow2(m + n) == Pow2(m) * Pow2(n)
  {
    if m > 0 {
      Pow2Sum(m - 1, n);
      assert Pow2(m) * Pow2(n) == 2 * (Pow2(m - 1) * Pow2(n));
    }
  }

  lemma {:induction false} Pow2Monotone(m: nat, n: nat)
    requires m <= n
    ensures Pow2(m) <= Pow2(n)
  {
    if m < n {
      Pow2Monotone(m, n - 1);
    }
  }

  /** A number is its bits. */
  lemma {:induction false} SameBits(a: nat, b: nat)
    requires forall k: nat :: Bit(a, k) == Bit(b, k)
    ensures a == b
    decreases a + b
  {
    if a != 0 || b != 0 {
      assert Bit(a, 0) == Bit(b, 0);
      forall k: nat ensures Bit(a / 2, k) == Bit(b / 2, k) {
        assert Bit(a, k + 1) == Bit(b, k + 1);
      }
      SameBits(a / 2, b / 2);
    }
  }

  /** Keeping the low bits before or after joining is the same. */
  lemma OrLow(a: nat, b: nat, n: nat)
    ensures Or(a, b) % Pow2(n) == Or(a % Pow2(n), b % Pow2(n))
  {
    forall k: nat ensures Bit(Or(a, b) % Pow2(n), k) == Bit(Or(a % Pow2(n), b % Pow2(n)), k) {
      TruncateBit(Or(a, b), n, k);
      TruncateBit(a, n, k);
      TruncateBit(b, n, k);
      OrBit(a, b, k);
      OrBit(a % Pow2(n), b % Pow2(n), k);
    }
    SameBits(Or(a, b) % Pow2(n), Or(a % Pow2(n), b % Pow2(n)));
  }
}
