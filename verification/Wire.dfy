/** Protocol buffer varints and fixed-width integers as nanopb writes and reads them. */
module Wire {
  import opened Bits
  import opened Bytes

  /** Seven bits at a time, least significant first, the top bit set on all but the last. */
  function Varint(v: nat): (bs: seq<byte>)
    ensures |bs| > 0
  {
    if v < 128 then [v as byte] else [(v % 128 + 128) as byte] + Varint(v / 128)
  }

  function Low7(b: byte): nat { b as nat % 128 }

  predicate More(b: byte) { b >= 128 }

  /** The 64-bit decoder from bit position bitPos on. */
  function Decode64From(s: seq<byte>, bitPos: nat, result: nat): (r: Option<(nat, seq<byte>)>)
    ensures r.Some? ==> |r.value.1| < |s|
    decreases |s|
  {
    if bitPos >= 64 || |s| == 0 then None
    else
      var result' := Or(result, Low7(s[0]) * Pow2(bitPos) % TWO_64);
      if More(s[0]) then Decode64From(s[1..], bitPos + 7, result') else Some((result', s[1..]))
  }

  function Decode64(s: seq<byte>): (r: Option<(nat, seq<byte>)>)
    ensures r.Some? ==> |r.value.1| < |s|
  {
    Decode64From(s, 0, 0)
  }

  /** One byte of the 32-bit decoder: the new result, None on overflow. */
  function Accept32(b: byte, bitPos: nat, result: nat): Option<nat> {
    if bitPos >= 32 then
      var signExtension: byte := if bitPos < 63 then 0xff else 0x01;
      if Low7(b) != 0 && (result / Pow2(31) == 0 || b != signExtension) then None else Some(result)
    else Some(Or(result, Low7(b) * Pow2(bitPos) % TWO_32))
  }

  /** The 32-bit decoder after its first byte; bitPos is an 8-bit counter. */
  function Decode32From(s: seq<byte>, bitPos: nat, result: nat): (r: Option<(nat, seq<byte>)>)
    ensures r.Some? ==> |r.value.1| < |s|
    decreases |s|
  {
    if |s| == 0 then None
    else
      var accepted := Accept32(s[0], bitPos, result);
      if accepted.None? then None
      else
        var next := (bitPos + 7) % 256;
        if More(s[0]) then Decode32From(s[1..], next, accepted.value)
        else if next == 35 && s[0] as nat / 16 % 8 != 0 then None
        else Some((accepted.value, s[1..]))
  }

  function Decode32(s: seq<byte>): (r: Option<(nat, seq<byte>)>)
    ensures r.Some? ==> |r.value.1| < |s|
  {
    if |s| == 0 then None
    else if !More(s[0]) then Some((s[0] as nat, s[1..]))
    else Decode32From(s[1..], 7, Low7(s[0]))
  }

  // Laws.

  lemma Pow2Plus7(n: nat)
    ensures Pow2(n + 7) == 128 * Pow2(n)
  {
    Pow2Sum(7, n);
    assert Pow2(7) == 128 by { assert Pow2(3) == 8; }
  }

  lemma Pow2Widths()
    ensures Pow2(32) == TWO_32 && Pow2(64) == TWO_64 && Pow2(31) * 2 == TWO_32 && Pow2(63) * 2 == TWO_64
  {
    Pow2Sum(32, 32);
    Widths16();
  }

  lemma Widths16()
    ensures Pow2(32) == TWO_32
  {
    assert Pow2(4) == 16;
    Pow2Sum(4, 4);
    Pow2Sum(8, 8);
    Pow2Sum(16, 16);
  }

  /** Reading seven bits into a partial result: no bits are lost or mixed. */
  lemma AddBits(result: nat, bits: nat, bitPos: nat, v: nat, width: nat)
    requires result < Pow2(bitPos) && bits < 128 && bits <= v
    requires v * Pow2(bitPos) < Pow2(width)
    ensures Or(result, bits * Pow2(bitPos) % Pow2(width)) == result + bits * Pow2(bitPos)
    ensures result + bits * Pow2(bitPos) < Pow2(bitPos + 7)
  {
    hide Pow2, Or;
    Pow2Plus7(bitPos);
    MulMonotone(bits, v, Pow2(bitPos));
    MulMonotone(bits, 127, Pow2(bitPos));
    SmallMod(bits * Pow2(bitPos), Pow2(width));
    OrAbove(result, bits, bitPos);
  }

  lemma MulMonotone(a: nat, b: nat, p: nat)
    requires a <= b
    ensures a * p <= b * p
  {
  }

  lemma SmallMod(x: nat, m: nat)
    requires x < m
    ensures x % m == x
  {
  }

  lemma SplitAt7(v: nat, p: nat)
    ensures v * p == (v % 128) * p + (v / 128) * (128 * p)
  {
    assert v == v % 128 + 128 * (v / 128);
    MulSplit(v % 128, v / 128, p);
  }

  lemma MulSplit(a: nat, b: nat, p: nat)
    ensures (a + 128 * b) * p == a * p + b * (128 * p)
  {
  }

  lemma BelowWidth(v: nat, bitPos: nat, width: nat)
    requires v > 0 && v * Pow2(bitPos) < Pow2(width)
    ensures bitPos < width
  {
    if bitPos >= width {
      Pow2Monotone(width, bitPos);
      MulMonotone(1, v, Pow2(bitPos));
    }
  }

  lemma {:induction false} Decode64Continues(v: nat, bitPos: nat, result: nat, rest: seq<byte>)
    requires result < Pow2(bitPos) && v * Pow2(bitPos) < TWO_64 && bitPos < 64
    ensures Decode64From(Varint(v) + rest, bitPos, result) == Some((result + v * Pow2(bitPos), rest))
    decreases v
  {
    hide Pow2, Or;
    Pow2Widths();
    var s, p := Varint(v) + rest, Pow2(bitPos);
    if v < 128 {
      AddBits(result, v, bitPos, v, 64);
      assert s[1..] == rest;
    } else {
      var bits, v' := v % 128, v / 128;
      AddBits(result, bits, bitPos, v, 64);
      SplitAt7(v, p);
      Pow2Plus7(bitPos);
      BelowWidth(v', bitPos + 7, 64);
      assert s[1..] == Varint(v') + rest && Low7(s[0]) == bits;
      Decode64Continues(v', bitPos + 7, result + bits * p, rest);
    }
  }

  lemma Decode64Inverts(v: nat, rest: seq<byte>)
    requires v < TWO_64
    ensures Decode64(Varint(v) + rest) == Some((v, rest))
  {
    Decode64Continues(v, 0, 0, rest);
  }

  /** One of the first five bytes. */
  lemma Step32(s: seq<byte>, bitPos: nat, result: nat)
    requires |s| > 0 && bitPos < 32
    ensures var result' := Or(result, Low7(s[0]) * Pow2(bitPos) % TWO_32);
            Decode32From(s, bitPos, result)
            == (if More(s[0]) then Decode32From(s[1..], bitPos + 7, result')
                else if bitPos == 28 && s[0] as nat / 16 % 8 != 0 then None
                else Some((result', s[1..])))
  {
    hide Pow2, Or;
  }

  lemma VarintUnfolds(v: nat)
    ensures v < 128 ==> Varint(v) == [v as byte]
    ensures v >= 128 ==> Varint(v) == [(v % 128 + 128) as byte] + Varint(v / 128)
  {
  }

  predicate Group32(bitPos: nat) { bitPos == 7 || bitPos == 14 || bitPos == 21 || bitPos == 28 }

  lemma FourBitsLeft(v: nat)
    ensures v * Pow2(28) < TWO_32 ==> v < 16
  {
    Pow2Widths();
    Pow2Sum(4, 28);
    assert Pow2(4) == 16;
    hide Pow2;
    if v >= 16 {
      MulMonotone(16, v, Pow2(28));
    }
  }

  lemma Decode32Last(v: nat, bitPos: nat, result: nat, rest: seq<byte>)
    requires Group32(bitPos) && v < 128 && result < Pow2(bitPos) && v * Pow2(bitPos) < TWO_32
    ensures Decode32From(Varint(v) + rest, bitPos, result) == Some((result + v * Pow2(bitPos), rest))
  {
    hide Pow2, Or, Decode32From, Varint;
    var s := Varint(v) + rest;
    VarintUnfolds(v);
    FourBitsLeft(v);
    Pow2Widths();
    AddBits(result, v, bitPos, v, 32);
    Step32(s, bitPos, result);
    assert s[1..] == rest && Low7(s[0]) == v;
  }

  lemma Decode32More(v: nat, bitPos: nat, result: nat, rest: seq<byte>)
    requires Group32(bitPos) && v >= 128 && result < Pow2(bitPos) && v * Pow2(bitPos) < TWO_32
    ensures var result' := result + v % 128 * Pow2(bitPos);
            && Group32(bitPos + 7) && result' < Pow2(bitPos + 7) && v / 128 * Pow2(bitPos + 7) < TWO_32
            && result' + v / 128 * Pow2(bitPos + 7) == result + v * Pow2(bitPos)
            && Decode32From(Varint(v) + rest, bitPos, result) == Decode32From(Varint(v / 128) + rest, bitPos + 7, result')
  {
    hide Pow2, Or, Decode32From, Varint;
    var s := Varint(v) + rest;
    VarintUnfolds(v);
    FourBitsLeft(v);
    Pow2Widths();
    AddBits(result, v % 128, bitPos, v, 32);
    SplitAt7(v, Pow2(bitPos));
    Pow2Plus7(bitPos);
    Step32(s, bitPos, result);
    assert s[1..] == Varint(v / 128) + rest && Low7(s[0]) == v % 128 && More(s[0]);
  }

  lemma {:induction false} Decode32Continues(v: nat, bitPos: nat, result: nat, rest: seq<byte>)
    requires Group32(bitPos) && result < Pow2(bitPos) && v * Pow2(bitPos) < TWO_32
    ensures Decode32From(Varint(v) + rest, bitPos, result) == Some((result + v * Pow2(bitPos), rest))
    decreases v
  {
    hide Pow2, Decode32From, Varint;
    if v < 128 {
      Decode32Last(v, bitPos, result, rest);
    } else {
      Decode32More(v, bitPos, result, rest);
      Decode32Continues(v / 128, bitPos + 7, result + v % 128 * Pow2(bitPos), rest);
    }
  }

  lemma Decode32Inverts(v: nat, rest: seq<byte>)
    requires v < TWO_32
    ensures Decode32(Varint(v) + rest) == Some((v, rest))
  {
    var s := Varint(v) + rest;
    if v < 128 {
      assert s[1..] == rest;
    } else {
      assert s[1..] == Varint(v / 128) + rest && Low7(s[0]) == v % 128;
      assert Pow2(7) == 128 by { assert Pow2(3) == 8; }
      Decode32Continues(v / 128, 7, v % 128, rest);
    }
  }

  lemma {:induction false} Decode64Bounded(s: seq<byte>, bitPos: nat, result: nat)
    requires result < TWO_64
    ensures Decode64From(s, bitPos, result).Some? ==> Decode64From(s, bitPos, result).value.0 < TWO_64
    decreases |s|
  {
    if bitPos < 64 && |s| > 0 {
      Pow2Widths();
      OrBound(result, Low7(s[0]) * Pow2(bitPos) % TWO_64, 64);
      if More(s[0]) {
        Decode64Bounded(s[1..], bitPos + 7, Or(result, Low7(s[0]) * Pow2(bitPos) % TWO_64));
      }
    }
  }

  // No shorter form.

  lemma {:induction false} BitsRead(s: seq<byte>, bitPos: nat, result: nat)
    requires result < Pow2(bitPos)
    ensures var r := Decode64From(s, bitPos, result);
            r.Some? ==> r.value.0 < Pow2(bitPos + 7 * (|s| - |r.value.1|))
    decreases |s|
  {
    if bitPos < 64 && |s| > 0 {
      var bits := Low7(s[0]) * Pow2(bitPos);
      Pow2Plus7(bitPos);
      MulMonotone(Low7(s[0]), 127, Pow2(bitPos));
      assert bits % TWO_64 <= bits;
      OrBound(result, bits % TWO_64, bitPos + 7);
      hide Pow2, Or, Low7;
      if More(s[0]) {
        var r := Decode64From(s[1..], bitPos + 7, Or(result, bits % TWO_64));
        BitsRead(s[1..], bitPos + 7, Or(result, bits % TWO_64));
        assert r.Some? ==> bitPos + 7 + 7 * (|s[1..]| - |r.value.1|) == bitPos + 7 * (|s| - |r.value.1|);
      }
    }
  }

  lemma {:induction false} VarintWithin(v: nat, k: nat)
    requires 1 <= k && v < Pow2(7 * k)
    ensures |Varint(v)| <= k
    decreases k
  {
    if v >= 128 {
      if k == 1 {
        Pow2Plus7(0);
        assert false;
      } else {
        Pow2Plus7(7 * (k - 1));
        assert 7 * (k - 1) + 7 == 7 * k;
        VarintWithin(v / 128, k - 1);
      }
    }
  }

  /** A varint is written in as few bytes as any from which the number can be read. */
  lemma VarintShortest(s: seq<byte>)
    ensures var r := Decode64(s); r.Some? ==> |Varint(r.value.0)| <= |s| - |r.value.1|
  {
    hide Decode64From;
    BitsRead(s, 0, 0);
    var r := Decode64(s);
    if r.Some? {
      VarintWithin(r.value.0, |s| - |r.value.1|);
    }
  }

  // The two decoders on the same input.

  lemma NoLowBits(bits: nat, bitPos: nat)
    requires bitPos >= 32
    ensures bits * Pow2(bitPos) % TWO_32 == 0
  {
    Pow2Widths();
    Pow2Sum(32, bitPos - 32);
    hide Pow2;
    MulSwap(bits, TWO_32, Pow2(bitPos - 32));
    RemainderOf(bits * Pow2(bitPos), TWO_32, bits * Pow2(bitPos - 32), 0);
  }

  lemma MulSwap(a: nat, b: nat, c: nat)
    ensures a * (b * c) == b * (a * c)
  {
  }

  lemma OrZero(a: nat)
    ensures Or(a, 0) == a
  {
  }

  lemma ModOfMod(x: nat)
    ensures x % TWO_64 % TWO_32 == x % TWO_32
  {
  }

  /** Seven more bits of a 64-bit result are the same seven bits, where they fit, of its
      low half. */
  lemma LowHalfGrows(result: nat, bits: nat, bitPos: nat)
    ensures Or(result, bits * Pow2(bitPos) % TWO_64) % TWO_32
         == (if bitPos >= 32 then result % TWO_32 else Or(result % TWO_32, bits * Pow2(bitPos) % TWO_32))
  {
    Pow2Widths();
    OrLow(result, bits * Pow2(bitPos) % TWO_64, 32);
    ModOfMod(bits * Pow2(bitPos));
    if bitPos >= 32 {
      NoLowBits(bits, bitPos);
      OrZero(result % TWO_32);
    }
  }

  lemma {:induction false} DecodersInStep(s: seq<byte>, bitPos: nat, result: nat)
    requires bitPos < 100
    ensures var wide, narrow := Decode64From(s, bitPos, result), Decode32From(s, bitPos, result % TWO_32);
            wide.Some? && narrow.Some? ==> narrow.value.0 == wide.value.0 % TWO_32 && narrow.value.1 == wide.value.1
    decreases |s|
  {
    hide Pow2, Or;
    if bitPos < 64 && |s| > 0 {
      var next := Or(result, Low7(s[0]) * Pow2(bitPos) % TWO_64);
      LowHalfGrows(result, Low7(s[0]), bitPos);
      assert Accept32(s[0], bitPos, result % TWO_32).Some? ==> Accept32(s[0], bitPos, result % TWO_32) == Some(next % TWO_32);
      if More(s[0]) {
        DecodersInStep(s[1..], bitPos + 7, next);
      }
    }
  }

  /** Where both decoders accept, they read the same bytes, and the 32-bit one finds the
      low half of what the 64-bit one does. */
  lemma DecodersAgree(s: seq<byte>)
    requires Decode64(s).Some? && Decode32(s).Some?
    ensures Decode32(s).value.0 == Decode64(s).value.0 % TWO_32 && Decode32(s).value.1 == Decode64(s).value.1
  {
    var low := Low7(s[0]);
    assert Pow2(0) == 1 && Or(0, low) == low;
    SmallMod(low, TWO_64);
    SmallMod(low, TWO_32);
    hide Pow2, Or, Decode32From;
    if More(s[0]) {
      assert Decode64(s) == Decode64From(s[1..], 7, low);
      DecodersInStep(s[1..], 7, low);
    }
  }

  /** Zero, written with n bytes more than it needs. */
  function LongZero(n: nat): (bs: seq<byte>)
    ensures |bs| == n + 1
  {
    if n == 0 then [0x00] else [0x80] + LongZero(n - 1)
  }

  lemma {:induction false} LongZeroFrom(n: nat, bitPos: nat)
    ensures Decode32From(LongZero(n), bitPos, 0) == Some((0, []))
    decreases n
  {
    assert 0 * Pow2(bitPos) == 0;
    hide Pow2;
    OrZero(0);
    if n > 0 {
      assert LongZero(n)[1..] == LongZero(n - 1);
      LongZeroFrom(n - 1, (bitPos + 7) % 256);
    }
  }

  /** The 32-bit decoder reads an over-long zero of any length, the 64-bit one none of
      more than ten bytes. */
  lemma LongZeroAccepted(n: nat)
    ensures Decode32(LongZero(n)) == Some((0, []))
    ensures n >= 10 ==> Decode64(LongZero(n)) == None
  {
    if n > 0 {
      assert LongZero(n)[1..] == LongZero(n - 1);
      LongZeroFrom(n - 1, 7);
      if n >= 10 {
        LongZeroRefused(n, 0, 0);
      }
    }
  }

  lemma {:induction false} LongZeroRefused(n: nat, bitPos: nat, result: nat)
    requires bitPos + 7 * n >= 64
    ensures Decode64From(LongZero(n), bitPos, result) == None
    decreases n
  {
    hide Pow2, Or;
    if bitPos < 64 {
      assert LongZero(n)[1..] == LongZero(n - 1);
      LongZeroRefused(n - 1, bitPos + 7, Or(result, Low7(LongZero(n)[0]) * Pow2(bitPos) % TWO_64));
    }
  }

  /** It also drops high bits: the check of the fifth byte is made only if that is the
      last one. */
  lemma HighBitsDropped(s: seq<byte>)
    requires s == [0x80, 0x80, 0x80, 0x80, 0xf0, 0x00]
    ensures Decode32(s) == Some((0, [])) && Decode32(s[..4] + [0x70]) == None
    ensures Decode64(s) == Some((0x7_0000_0000, []))
  {
    assert Pow2(0) == 1;
    Pow2Plus7(0);
    Pow2Plus7(7);
    Pow2Plus7(14);
    Pow2Plus7(21);
    hide Pow2;
    LowBits32(s);
    AllBits64(s);
  }

  ghost predicate PowersOf128() {
    Pow2(0) == 1 && Pow2(7) == 128 && Pow2(14) == 0x4000 && Pow2(21) == 0x20_0000 && Pow2(28) == 0x1000_0000
  }

  lemma LowBits32(s: seq<byte>)
    requires s == [0x80, 0x80, 0x80, 0x80, 0xf0, 0x00] && PowersOf128()
    ensures Decode32(s) == Some((0, [])) && Decode32(s[..4] + [0x70]) == None
  {
    hide Pow2;
    OrZero(0);
    hide Or;
    assert s[1..] == [0x80, 0x80, 0x80, 0xf0, 0x00];
    assert Decode32From([0xf0, 0x00], 28, 0) == Decode32From([0x00], 35, 0);
    assert Decode32From([0x80, 0xf0, 0x00], 21, 0) == Decode32From([0xf0, 0x00], 28, 0);
    assert Decode32From([0x80, 0x80, 0xf0, 0x00], 14, 0) == Decode32From([0x80, 0xf0, 0x00], 21, 0);
    var t := s[..4] + [0x70];
    assert t[1..] == [0x80, 0x80, 0x80, 0x70];
    assert Decode32From([0x70], 28, 0) == None;
    assert Decode32From([0x80, 0x70], 21, 0) == Decode32From([0x70], 28, 0);
    assert Decode32From([0x80, 0x80, 0x70], 14, 0) == Decode32From([0x80, 0x70], 21, 0);
  }

  lemma AllBits64(s: seq<byte>)
    requires s == [0x80, 0x80, 0x80, 0x80, 0xf0, 0x00] && PowersOf128()
    ensures Decode64(s) == Some((0x7_0000_0000, []))
  {
    hide Pow2;
    OrZero(0);
    OrZero(0x7_0000_0000);
    assert Or(0, 0x7_0000_0000) == 0x7_0000_0000;
    hide Or;
    assert Decode64From([0x00], 35, 0x7_0000_0000) == Some((0x7_0000_0000, []));
    assert Decode64From([0xf0, 0x00], 28, 0) == Decode64From([0x00], 35, 0x7_0000_0000);
    assert Decode64From([0x80, 0xf0, 0x00], 21, 0) == Decode64From([0xf0, 0x00], 28, 0);
    assert Decode64From([0x80, 0x80, 0xf0, 0x00], 14, 0) == Decode64From([0x80, 0xf0, 0x00], 21, 0);
    assert s[1..] == [0x80, 0x80, 0x80, 0xf0, 0x00] && s[1..][1..] == [0x80, 0x80, 0xf0, 0x00];
    assert Decode64From(s[1..], 7, 0) == Decode64From([0x80, 0x80, 0xf0, 0x00], 14, 0);
    assert Decode64From(s, 0, 0) == Decode64From(s[1..], 7, 0);
  }

  // Little-endian fixed-width integers.

  function Le(bs: seq<byte>): nat {
    if |bs| == 0 then 0 else bs[0] as nat + 256 * Le(bs[1..])
  }

  function LeBytes(n: nat, w: nat): (bs: seq<byte>)
    ensures |bs| == w
  {
    if w == 0 then [] else [(n % 256) as byte] + LeBytes(n / 256, w - 1)
  }

  lemma {:induction false} LeRoundTrip(n: nat, w: nat)
    requires n < Pow2(8 * w)
    ensures Le(LeBytes(n, w)) == n
  {
    if w > 0 {
      Pow2By8(w - 1);
      LeRoundTrip(n / 256, w - 1);
      assert LeBytes(n, w)[1..] == LeBytes(n / 256, w - 1);
    }
  }

  // Signed values in unsigned words.

  function ZigZag(n: int): (z: nat)
  {
    if n < 0 then -2 * n - 1 else 2 * n
  }

  function UnZigZag(z: nat): int {
    if z % 2 == 1 then -(z / 2) - 1 else z / 2
  }

  /** The low bits of n, read as a two's complement number. */
  function Signed(n: int, bits: nat): int
    requires bits > 0
  {
    var u := n % (2 * Pow2(bits - 1));
    if u >= Pow2(bits - 1) then u - 2 * Pow2(bits - 1) else u
  }

  lemma SignedIdentity(n: int, bits: nat)
    requires bits > 0 && 0 - Pow2(bits - 1) <= n < Pow2(bits - 1)
    ensures Signed(n, bits) == n
  {
    var m := 2 * Pow2(bits - 1);
    if n >= 0 {
      SmallMod(n, m);
    } else {
      NegativeMod(n, m);
    }
  }

  lemma NegativeMod(n: int, m: nat)
    requires 0 - m <= n < 0
    ensures n % m == n + m
  {
    RemainderOf(n, m, -1, n + m);
  }

  lemma RemainderOf(n: int, m: nat, q: int, r: nat)
    requires n == m * q + r && r < m
    ensures n % m == r
  {
    var q', r' := n / m, n % m;
    assert n == m * q' + r';
    if q < q' {
      MulAtLeast(m, q, q');
    } else if q' < q {
      MulAtLeast(m, q', q);
    }
  }

  lemma QuotientOf(n: nat, m: nat, q: nat, r: nat)
    requires n == m * q + r && r < m
    ensures n / m == q
  {
    RemainderOf(n, m, q, r);
    QuotientUnique(n, m, q, n / m, r);
  }

  lemma QuotientUnique(n: nat, m: nat, q: nat, q': nat, r: nat)
    requires m > 0 && n == m * q + r && n == m * q' + r
    ensures q == q'
  {
    if q < q' {
      MulAtLeast(m, q, q');
    } else if q' < q {
      MulAtLeast(m, q', q);
    }
  }

  // Fixed-width integers byte by byte.

  lemma LeStep(n: nat, k: nat, w: nat)
    requires w > 0 && k > 0
    ensures LeBytes(n % (256 * k), w) == [(n % 256) as byte] + LeBytes(n / 256 % k, w - 1)
  {
    hide LeBytes;
    ModOfProduct(n, k);
    LeFirst(n % (256 * k), w);
  }

  lemma LeFirst(n: nat, w: nat)
    requires w > 0
    ensures LeBytes(n, w) == [(n % 256) as byte] + LeBytes(n / 256, w - 1)
  {
  }

  lemma ModOfProduct(n: nat, k: nat)
    requires k > 0
    ensures n % (256 * k) % 256 == n % 256 && n % (256 * k) / 256 == n / 256 % k
  {
    var q, r := n / 256 / k, n / 256 % k;
    assert n == 256 * (n / 256) + n % 256 && n / 256 == k * q + r;
    var low := 256 * r + n % 256;
    assert n == (256 * k) * q + low by { Regroup(k, q, r, n % 256); }
    RemainderOf(n, 256 * k, q, low);
  }

  lemma Regroup(k: nat, q: nat, r: nat, b: nat)
    ensures 256 * (k * q + r) + b == (256 * k) * q + (256 * r + b)
  {
  }

  lemma FourBytes(val: nat)
    ensures LeBytes(val % TWO_32, 4)
         == [(val % 256) as byte, (val / 0x100 % 256) as byte, (val / 0x1_0000 % 256) as byte, (val / 0x100_0000 % 256) as byte]
  {
    hide LeBytes;
    LeStep(val, 0x100_0000, 4);
    LeStep(val / 0x100, 0x1_0000, 3);
    LeStep(val / 0x1_0000, 0x100, 2);
    LeStep(val / 0x100_0000, 1, 1);
    LeEmpty();
    DivDiv(val, 0x100, 256);
    DivDiv(val, 0x1_0000, 256);
  }

  lemma TopFour(val: nat)
    ensures LeBytes(val % TWO_64, 8)
         == [(val % 256) as byte, (val / 0x100 % 256) as byte, (val / 0x1_0000 % 256) as byte, (val / 0x100_0000 % 256) as byte]
            + LeBytes(val / 0x1_0000_0000 % TWO_32, 4)
  {
    hide LeBytes;
    LeStep(val, 0x100_0000_0000_0000, 8);
    LeStep(val / 0x100, 0x1_0000_0000_0000, 7);
    LeStep(val / 0x1_0000, 0x100_0000_0000, 6);
    LeStep(val / 0x100_0000, TWO_32, 5);
    DivDiv(val, 0x100, 256);
    DivDiv(val, 0x1_0000, 256);
    DivDiv(val, 0x100_0000, 256);
  }

  lemma DivDiv(n: nat, a: nat, b: nat)
    requires a > 0 && b > 0
    ensures a * b > 0 && n / a / b == n / (a * b)
  {
    MulPositive(a, b);
    DivDivFrom(n, a, b, n / a, n % a, n / a / b, n / a % b);
  }

  lemma DivDivFrom(n: nat, a: nat, b: nat, x: nat, c: nat, q: nat, r: nat)
    requires n == a * x + c && x == b * q + r && c < a && r < b && a * b > 0
    ensures n / (a * b) == q
  {
    RegroupBy(a, b, q, r, c);
    MulAtLeast(a, r, b);
    QuotientOf(n, a * b, q, a * r + c);
  }

  lemma MulPositive(a: nat, b: nat)
    requires a > 0 && b > 0
    ensures a * b > 0
  {
  }

  lemma RegroupBy(a: nat, b: nat, q: nat, r: nat, c: nat)
    ensures a * (b * q + r) + c == (a * b) * q + (a * r + c)
  {
  }

  lemma LeEmpty()
    ensures LeBytes(0, 0) == []
  {
  }

  lemma EightBytes(val: nat)
    ensures LeBytes(val % TWO_64, 8)
         == [(val % 256) as byte, (val / 0x100 % 256) as byte, (val / 0x1_0000 % 256) as byte, (val / 0x100_0000 % 256) as byte,
             (val / 0x1_0000_0000 % 256) as byte, (val / 0x100_0000_0000 % 256) as byte,
             (val / 0x1_0000_0000_0000 % 256) as byte, (val / 0x100_0000_0000_0000 % 256) as byte]
  {
    hide LeBytes;
    TopFour(val);
    FourBytes(val / 0x1_0000_0000);
    DivDiv(val, 0x1_0000_0000, 0x100);
    DivDiv(val, 0x1_0000_0000, 0x1_0000);
    DivDiv(val, 0x1_0000_0000, 0x100_0000);
  }
}
