/** Octet strings, the big-endian integers of TLS and DTLS, and optional results. */
module Bytes {
  import opened Bits

  newtype byte = n: int | 0 <= n < 256

  datatype Option<+T> = None | Some(value: T)

  /** The unsigned big-endian integer spelled by bs. */
  function Be(bs: seq<byte>): nat {
    if |bs| == 0 then 0 else Be(bs[..|bs| - 1]) * 256 + bs[|bs| - 1] as nat
  }

  /** The low w octets of n, most significant first. */
  function BeBytes(n: nat, w: nat): (bs: seq<byte>)
    ensures |bs| == w
  {
    if w == 0 then [] else BeBytes(n / 256, w - 1) + [(n % 256) as byte]
  }

  lemma {:induction false} BeBelow(bs: seq<byte>)
    ensures Be(bs) < Pow2(8 * |bs|)
  {
    if |bs| > 0 {
      BeBelow(bs[..|bs| - 1]);
      Pow2By8(|bs| - 1);
    }
  }

  lemma Pow2By8(w: nat)
    ensures Pow2(8 * (w + 1)) == 256 * Pow2(8 * w)
  {
    Pow2Sum(8, 8 * w);
    assert Pow2(8) == 256 by {
      assert Pow2(4) == 16;
    }
  }

  lemma {:induction false} BeRoundTrip(n: nat, w: nat)
    requires n < Pow2(8 * w)
    ensures Be(BeBytes(n, w)) == n
  {
    if w > 0 {
      Pow2By8(w - 1);
      BeRoundTrip(n / 256, w - 1);
      assert BeBytes(n, w)[..w - 1] == BeBytes(n / 256, w - 1);
    }
  }

  lemma {:induction false} BeBytesRoundTrip(bs: seq<byte>)
    ensures BeBytes(Be(bs), |bs|) == bs
  {
    if |bs| > 0 {
      BeBytesRoundTrip(bs[..|bs| - 1]);
      assert bs == bs[..|bs| - 1] + [bs[|bs| - 1]];
    }
  }

  /** Byte strings one after another. */
  function Concat(parts: seq<seq<byte>>): seq<byte> {
    if |parts| == 0 then [] else parts[0] + Concat(parts[1..])
  }

  lemma {:induction false} ConcatSum(a: seq<seq<byte>>, b: seq<seq<byte>>)
    ensures Concat(a + b) == Concat(a) + Concat(b)
  {
    if |a| == 0 {
      assert a + b == b;
    } else {
      assert (a + b)[1..] == a[1..] + b;
      ConcatSum(a[1..], b);
    }
  }
}
