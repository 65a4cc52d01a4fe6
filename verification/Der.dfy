/** The DER elements sessions are made of: tags below 31 and definite lengths. */
module Der {
  import opened Bits
  import opened Bytes

  const BOOLEAN: byte := 0x01
  const INTEGER: byte := 0x02
  const OCTETSTRING: byte := 0x04
  const SEQUENCE: byte := 0x30

  const MAX_LENGTH: nat := 0xffff_fffe

  /** The tag [n], explicit. */
  function Context(n: nat): byte
    requires n < 31
  {
    (0xa0 + n) as byte
  }

  /** Tags with a number of 31 and more take several bytes, and are not read here. */
  predicate LowTag(tag: byte) { tag % 32 != 31 }

  function LengthBytes(len: nat): seq<byte> {
    if len <= 0x7f then [len as byte]
    else if len <= 0xff then [0x81] + BeBytes(len, 1)
    else if len <= 0xffff then [0x82] + BeBytes(len, 2)
    else if len <= 0xff_ffff then [0x83] + BeBytes(len, 3)
    else [0x84] + BeBytes(len, 4)
  }

  function Tlv(tag: byte, content: seq<byte>): seq<byte> {
    [tag] + LengthBytes(|content|) + content
  }

  /** A length and what follows it; lengths must be as short as they can be. */
  function GetLength(s: seq<byte>): (r: Option<(nat, seq<byte>)>)
    ensures r.Some? ==> |r.value.1| < |s|
  {
    if |s| == 0 then None
    else if s[0] < 0x80 then Some((s[0] as nat, s[1..]))
    else
      var n := s[0] as nat - 0x80;
      if n == 0 || n > 4 || |s| < 1 + n then None
      else
        var len := Be(s[1..1 + n]);
        if len < 128 || s[1] == 0 then None else Some((len, s[1 + n..]))
  }

  /** An element: its tag, its content and what follows it. */
  function GetElement(s: seq<byte>): (r: Option<(byte, seq<byte>, seq<byte>)>)
    ensures r.Some? ==> |r.value.1| < |s| && |r.value.2| < |s|
  {
    if |s| == 0 || !LowTag(s[0]) then None
    else
      var len := GetLength(s[1..]);
      if len.None? || |len.value.1| < len.value.0 then None
      else Some((s[0], len.value.1[..len.value.0], len.value.1[len.value.0..]))
  }

  /** The content of an element that must have this tag. */
  function Get(s: seq<byte>, tag: byte): (r: Option<(seq<byte>, seq<byte>)>)
    ensures r.Some? ==> |r.value.0| < |s| && |r.value.1| < |s|
  {
    var e := GetElement(s);
    if e.None? || e.value.0 != tag then None else Some((e.value.1, e.value.2))
  }

  /** The content under an optional tag [n]. */
  function GetOptional(s: seq<byte>, n: nat): (r: Option<(Option<seq<byte>>, seq<byte>)>)
    requires n < 31
  {
    if |s| > 0 && s[0] == Context(n) then
      var e := Get(s, Context(n));
      if e.None? then None else Some((Some(e.value.0), e.value.1))
    else Some((None, s))
  }

  lemma SmallPowers()
    ensures Pow2(8) == 0x100 && Pow2(16) == 0x1_0000 && Pow2(24) == 0x100_0000 && Pow2(32) == 0x1_0000_0000
  {
    assert Pow2(4) == 16;
    Pow2Sum(4, 4);
    Pow2Sum(8, 8);
    Pow2Sum(16, 8);
    Pow2Sum(16, 16);
  }

  lemma TopByte(len: nat, w: nat)
    requires 0 < w && len < Pow2(8 * w) && len >= Pow2(8 * (w - 1))
    ensures Be(BeBytes(len, w)) == len && BeBytes(len, w)[0] != 0
  {
    BeRoundTrip(len, w);
    if BeBytes(len, w)[0] == 0 {
      LeadingZero(BeBytes(len, w));
    }
  }

  lemma {:induction false} LeadingZero(bs: seq<byte>)
    requires |bs| > 0 && bs[0] == 0
    ensures Be(bs) < Pow2(8 * (|bs| - 1))
  {
    if |bs| > 1 {
      LeadingZero(bs[..|bs| - 1]);
      Pow2By8(|bs| - 2);
    }
  }

  lemma LongLength(len: nat, w: nat, rest: seq<byte>)
    requires 1 <= w <= 4 && len < Pow2(8 * w) && len >= Pow2(8 * (w - 1)) && len >= 128
    ensures GetLength([(0x80 + w) as byte] + BeBytes(len, w) + rest) == Some((len, rest))
  {
    TopByte(len, w);
    hide Be, BeBytes, Pow2;
    var s := [(0x80 + w) as byte] + BeBytes(len, w) + rest;
    assert s[1..1 + w] == BeBytes(len, w) && s[1 + w..] == rest;
  }

  lemma LengthRoundTrip(len: nat, rest: seq<byte>)
    requires len <= MAX_LENGTH
    ensures GetLength(LengthBytes(len) + rest) == Some((len, rest))
  {
    SmallPowers();
    assert Pow2(0) == 1;
    hide Be, BeBytes, Pow2, GetLength;
    if len <= 0x7f { ShortLength(len, rest); }
    else if len <= 0xff { LongLength(len, 1, rest); }
    else if len <= 0xffff { LongLength(len, 2, rest); }
    else if len <= 0xff_ffff { LongLength(len, 3, rest); }
    else { LongLength(len, 4, rest); }
  }

  lemma ShortLength(len: nat, rest: seq<byte>)
    requires len <= 0x7f
    ensures GetLength([len as byte] + rest) == Some((len, rest))
  {
    assert ([len as byte] + rest)[1..] == rest;
  }

  lemma ElementRoundTrip(tag: byte, content: seq<byte>, rest: seq<byte>)
    requires LowTag(tag) && |content| <= MAX_LENGTH
    ensures GetElement(Tlv(tag, content) + rest) == Some((tag, content, rest))
    ensures Get(Tlv(tag, content) + rest, tag) == Some((content, rest))
  {
    hide GetLength, LengthBytes;
    LengthRoundTrip(|content|, content + rest);
    var s := Tlv(tag, content) + rest;
    assert s[0] == tag && s[1..] == LengthBytes(|content|) + (content + rest);
    assert (content + rest)[..|content|] == content && (content + rest)[|content|..] == rest;
  }

  // Unsigned integers.

  /** The octets of v, without leading zeros. */
  function Digits(v: nat): (bs: seq<byte>)
    ensures |bs| > 0 && (v > 0 ==> bs[0] != 0)
  {
    if v < 256 then [v as byte] else Digits(v / 256) + [(v % 256) as byte]
  }

  /** The content of an INTEGER: a zero octet first if the number would look negative. */
  function UintContent(v: nat): seq<byte> { if Digits(v)[0] >= 0x80 then [0] + Digits(v) else Digits(v) }

  function Uint(v: nat): seq<byte> { Tlv(INTEGER, UintContent(v)) }

  function ParseUint(bs: seq<byte>): Option<nat> {
    if |bs| == 0 || bs[0] >= 0x80 || (bs[0] == 0 && |bs| > 1 && bs[1] < 0x80) then None
    else if Be(bs) >= TWO_64 then None
    else Some(Be(bs))
  }

  function GetUint(s: seq<byte>): (r: Option<(nat, seq<byte>)>)
    ensures r.Some? ==> |r.value.1| < |s|
  {
    var e := Get(s, INTEGER);
    if e.None? || ParseUint(e.value.0).None? then None else Some((ParseUint(e.value.0).value, e.value.1))
  }

  lemma {:induction false} DigitsSpell(v: nat)
    ensures Be(Digits(v)) == v
  {
    if v >= 256 {
      DigitsSpell(v / 256);
      assert Digits(v)[..|Digits(v)| - 1] == Digits(v / 256);
    }
  }

  lemma {:induction false} DigitsShort(v: nat, w: nat)
    requires w > 0 && v < Pow2(8 * w)
    ensures |Digits(v)| <= w
    decreases w
  {
    if v >= 256 {
      SmallPowers();
      Pow2By8(w - 1);
      if w == 1 {
      } else {
        DigitsShort(v / 256, w - 1);
      }
    }
  }

  lemma {:induction false} ZeroFirst(bs: seq<byte>)
    ensures Be([0] + bs) == Be(bs)
  {
    if |bs| > 0 {
      assert ([0] + bs)[..|bs|] == [0] + bs[..|bs| - 1];
      ZeroFirst(bs[..|bs| - 1]);
    } else {
      assert [0] + bs == [0];
    }
  }

  lemma UintRoundTrip(v: nat, rest: seq<byte>)
    requires v < TWO_64
    ensures |UintContent(v)| <= 9 && GetUint(Uint(v) + rest) == Some((v, rest))
  {
    DigitsSpell(v);
    ZeroFirst(Digits(v));
    assert v < Pow2(8 * 8) by {
      SmallPowers();
      Pow2Sum(32, 32);
    }
    DigitsShort(v, 8);
    hide Be, Digits, Pow2, GetElement, Get, Tlv;
    ElementRoundTrip(INTEGER, UintContent(v), rest);
  }
}
