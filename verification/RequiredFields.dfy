/** The bitmap in which the nanopb decoder notes the required fields it has seen. */
module RequiredFields {
  import opened Bits
  import opened Wire

  const ALL_BITS: nat := 0xFFFF_FFFF

  /** Bit n % 32 of word n / 32 is set exactly for the numbers n seen. */
  ghost predicate Tracks(words: seq<nat>, seen: set<nat>) {
    && |words| == 2 && words[0] < TWO_32 && words[1] < TWO_32
    && (forall n <- seen :: n < 64)
    && forall n: nat | n < 64 :: n in seen <==> Bit(words[n / 32], n % 32)
  }

  lemma {:induction false} NoneSeen()
    ensures Tracks([0, 0], {})
  {
    forall n: nat | n < 64 ensures !Bit([0, 0][n / 32], n % 32) {
      ZeroHasNoBits(n % 32);
    }
  }

  lemma WordFits(w: nat, k: nat)
    requires w < TWO_32 && k < 32
    ensures Or(w, Pow2(k)) < TWO_32
  {
    Pow2Widths();
    Pow2Monotone(k, 31);
    OrBound(w, Pow2(k), 32);
  }

  /** Setting bit n of the words sets that bit and no other. */
  lemma BitNoted(words: seq<nat>, n: nat, m: nat)
    requires |words| == 2 && n < 64 && m < 64
    ensures Bit(words[n / 32 := Or(words[n / 32], Pow2(n % 32))][m / 32], m % 32)
            <==> m == n || Bit(words[m / 32], m % 32)
  {
    hide Bit, Pow2, Or;
    OrBit(words[n / 32], Pow2(n % 32), m % 32);
    Pow2Bit(n % 32, m % 32);
  }

  /** Noting one more number. */
  lemma NoteOne(words: seq<nat>, seen: set<nat>, n: nat)
    requires Tracks(words, seen) && n < 64
    ensures Tracks(words[n / 32 := Or(words[n / 32], Pow2(n % 32))], seen + {n})
  {
    WordFits(words[n / 32], n % 32);
    hide Bit, Pow2, Or;
    var next := words[n / 32 := Or(words[n / 32], Pow2(n % 32))];
    forall m: nat | m < 64 ensures m in seen + {n} <==> Bit(next[m / 32], m % 32) {
      BitNoted(words, n, m);
    }
  }

  lemma {:induction false} OnesBit(r: nat, k: nat)
    ensures Bit(Pow2(r) - 1, k) <==> k < r
    decreases r
  {
    if r == 0 {
      ZeroHasNoBits(k);
    } else if k > 0 {
      assert (Pow2(r) - 1) / 2 == Pow2(r - 1) - 1;
      OnesBit(r - 1, k - 1);
    }
  }

  lemma NoHighBits(w: nat, k: nat)
    requires w < TWO_32 && k >= 32
    ensures !Bit(w, k)
  {
    Pow2Widths();
    TruncateBit(w, 32, k);
    SmallMod(w, Pow2(32));
  }

  /** A word is the r lowest bits exactly when all of those are set and no others. */
  lemma WordFull(words: seq<nat>, seen: set<nat>, i: nat, r: nat)
    requires Tracks(words, seen) && i < 2 && r <= 32
    requires forall n <- seen :: n < 32 * i + r || n >= 32 * (i + 1)
    ensures words[i] == Pow2(r) - 1 <==> forall n: nat | 32 * i <= n < 32 * i + r :: n in seen
  {
    hide Bit, Pow2;
    var w := words[i];
    if w == Pow2(r) - 1 {
      forall n: nat | 32 * i <= n < 32 * i + r ensures n in seen {
        OnesBit(r, n - 32 * i);
        assert n / 32 == i && n % 32 == n - 32 * i;
      }
    } else if forall n: nat | 32 * i <= n < 32 * i + r :: n in seen {
      forall k: nat ensures Bit(w, k) == Bit(Pow2(r) - 1, k) {
        OnesBit(r, k);
        if k < 32 {
          var n := 32 * i + k;
          assert n / 32 == i && n % 32 == k;
          assert n in seen <==> k < r;
        } else {
          NoHighBits(w, k);
        }
      }
      SameBits(w, Pow2(r) - 1);
    }
  }

  /** A shifted word of ones. */
  lemma ShiftedOnes(r: nat)
    requires r <= 32
    ensures ALL_BITS / Pow2(32 - r) == Pow2(r) - 1
  {
    Pow2Widths();
    Pow2Sum(32 - r, r);
    hide Pow2;
    OnesQuotient(Pow2(32 - r), Pow2(r));
  }

  lemma OnesQuotient(p: nat, q: nat)
    requires p > 0 && q > 0
    ensures (p * q - 1) / p == q - 1
  {
    assert p * q - 1 == p * (q - 1) + (p - 1);
    QuotientOf(p * q - 1, p, q - 1, p - 1);
  }

  /** Whether all of the first count required fields, 64 at most, were seen. */
  method AllSeen(words: array<nat>, ghost seen: set<nat>, count: nat) returns (all: bool)
    requires words.Length == 2 && Tracks(words[..], seen) && forall n <- seen :: n < count
    ensures all == forall n: nat | n < count && n < 64 :: n in seen
  {
    hide Bit, Pow2, Tracks;
    Pow2Widths();
    var req := if count > 64 then 64 else count;
    assert forall n <- seen :: n < 64 by { SeenBelow64(words[..], seen); }
    for i := 0 to req / 32
      invariant forall n: nat | n < 32 * i :: n in seen
    {
      WordFull(words[..], seen, i, 32);
      if words[i] != ALL_BITS {
        return false;
      }
    }
    if req % 32 != 0 {
      WordFull(words[..], seen, req / 32, req % 32);
      ShiftedOnes(req % 32);
      if words[req / 32] != ALL_BITS / Pow2(32 - req % 32) {
        return false;
      }
    }
    return true;
  }

  lemma SeenBelow64(words: seq<nat>, seen: set<nat>)
    requires Tracks(words, seen)
    ensures forall n <- seen :: n < 64
  {
  }
}
