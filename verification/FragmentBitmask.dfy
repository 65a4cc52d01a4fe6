/**
 The packed bitmask that records which bytes of an incoming handshake message
 have arrived: bit k % 8 of octet k / 8 stands for byte k of the body.
 */
module FragmentBitmask {

  /** An octet with the bits from start up to but excluding end set. */
  function BitRange(start: nat, end: nat): (b: bv8)
    requires start <= 8 && end <= 8
    ensures forall k: nat | k < 8 :: OctetBit(b, k) <==> start <= k < end
  {
    ((!((1 << start) - 1) & ((1 << end) - 1)) & 0xff as bv32) as bv8
  }

  predicate OctetBit(b: bv8, k: nat)
    requires k < 8
  {
    (b >> k) & 1 == 1
  }

  predicate Marked(mask: seq<bv8>, k: nat)
    requires k < 8 * |mask|
  {
    OctetBit(mask[k / 8], k % 8)
  }

  /** mask is the bitmask of a message of which exactly the bytes flagged in got
      have arrived; the padding bits are clear. */
  ghost predicate Represents(mask: seq<bv8>, got: seq<bool>) {
    && |mask| == (|got| + 7) / 8
    && forall k: nat | k < 8 * |mask| :: Marked(mask, k) <==> k < |got| && got[k]
  }

  function MarkRange(got: seq<bool>, start: nat, end: nat): seq<bool> {
    seq(|got|, k requires 0 <= k < |got| => got[k] || start <= k < end)
  }

  ghost predicate AllGot(got: seq<bool>) {
    forall k | 0 <= k < |got| :: got[k]
  }

  lemma OrBits(a: bv8, b: bv8, k: nat)
    requires k < 8
    ensures OctetBit(a | b, k) <==> OctetBit(a, k) || OctetBit(b, k)
  {
  }

  /** An octet equals BitRange(0, n) iff exactly its low n bits are set. */
  lemma LowBits(b: bv8, n: nat)
    requires 0 < n <= 8
    ensures b == BitRange(0, n) <==> forall k: nat | k < 8 :: OctetBit(b, k) <==> k < n
  {
    if forall k: nat | k < 8 :: OctetBit(b, k) <==> k < n {
      assert OctetBit(b, 0) && (OctetBit(b, 1) <==> 1 < n) && (OctetBit(b, 2) <==> 2 < n)
        && (OctetBit(b, 3) <==> 3 < n) && (OctetBit(b, 4) <==> 4 < n) && (OctetBit(b, 5) <==> 5 < n)
        && (OctetBit(b, 6) <==> 6 < n) && (OctetBit(b, 7) <==> 7 < n);
    }
  }

  /** The completeness scan: whole octets all ones, the last one ones up to msgLen. */
  ghost predicate LooksComplete(mask: seq<bv8>, msgLen: nat)
    requires |mask| == (msgLen + 7) / 8
  {
    && (forall i | 0 <= i < msgLen / 8 :: mask[i] == 0xff)
    && (msgLen % 8 != 0 ==> mask[msgLen / 8] == BitRange(0, msgLen % 8))
  }

  /** The scan finds a message complete iff every byte of it has arrived. */
  lemma ScanIsExact(mask: seq<bv8>, got: seq<bool>)
    requires Represents(mask, got)
    ensures LooksComplete(mask, |got|) <==> AllGot(got)
  {
    var msgLen := |got|;
    if LooksComplete(mask, msgLen) {
      forall k: nat | k < msgLen ensures got[k] {
        LowBits(mask[k / 8], if k / 8 < msgLen / 8 then 8 else msgLen % 8);
        assert Marked(mask, k);
      }
    }
    if AllGot(got) {
      forall i | 0 <= i < msgLen / 8 ensures mask[i] == 0xff {
        WholeOctet(mask, got, i, 8);
      }
      if msgLen % 8 != 0 {
        WholeOctet(mask, got, msgLen / 8, msgLen % 8);
      }
    }
  }

  lemma WholeOctet(mask: seq<bv8>, got: seq<bool>, i: nat, n: nat)
    requires Represents(mask, got) && AllGot(got)
    requires i < |mask| && 0 < n <= 8
    requires if n == 8 then 8 * i + 8 <= |got| else 8 * i + n == |got|
    ensures mask[i] == BitRange(0, n)
  {
    forall j: nat | j < 8 ensures OctetBit(mask[i], j) <==> j < n {
      assert (8 * i + j) / 8 == i && (8 * i + j) % 8 == j;
      assert Marked(mask, 8 * i + j) <==> 8 * i + j < |got|;
    }
    LowBits(mask[i], n);
  }

  function Clamp(n: int): (c: nat)
    ensures c <= 8
  {
    if n < 0 then 0 else if n > 8 then 8 else n
  }

  /** What octet i becomes when bytes start to end of the message are marked. */
  function MarkedOctet(b: bv8, i: nat, start: nat, end: nat): bv8 {
    b | BitRange(Clamp(start - 8 * i), Clamp(end - 8 * i))
  }

  lemma MarkedOctetBit(b: bv8, i: nat, start: nat, end: nat, j: nat)
    requires j < 8
    ensures OctetBit(MarkedOctet(b, i, start, end), j) <==> OctetBit(b, j) || start <= 8 * i + j < end
  {
    OrBits(b, BitRange(Clamp(start - 8 * i), Clamp(end - 8 * i)), j);
  }

  /** Octets outside the range stay, octets inside it become all ones. */
  lemma MarkedOctetCases(b: bv8, i: nat, start: nat, end: nat)
    requires start <= end
    ensures i < start / 8 || i > end / 8 || (i == end / 8 && end % 8 == 0) ==> MarkedOctet(b, i, start, end) == b
    ensures start / 8 < i < end / 8 ==> MarkedOctet(b, i, start, end) == 0xff
    ensures i == start / 8 < end / 8 ==> MarkedOctet(b, i, start, end) == b | BitRange(start % 8, 8)
    ensures start / 8 < i == end / 8 ==> MarkedOctet(b, i, start, end) == b | BitRange(0, end % 8)
    ensures i == start / 8 == end / 8 ==> MarkedOctet(b, i, start, end) == b | BitRange(start % 8, end % 8)
  {
  }

  lemma MarkedOctetsRepresent(mask: seq<bv8>, mask': seq<bv8>, got: seq<bool>, start: nat, end: nat)
    requires Represents(mask, got) && start <= end <= |got| && |mask'| == |mask|
    requires forall i | 0 <= i < |mask| :: mask'[i] == MarkedOctet(mask[i], i, start, end)
    ensures Represents(mask', MarkRange(got, start, end))
  {
    var got' := MarkRange(got, start, end);
    forall k: nat | k < 8 * |mask| ensures Marked(mask', k) <==> k < |got| && got'[k] {
      assert Marked(mask, k) <==> k < |got| && got[k];
      MarkedOctetBit(mask[k / 8], k / 8, start, end, k % 8);
    }
  }

  /** Marks the bytes from start up to but excluding end as received, in place. */
  method SetRange(mask: array<bv8>, start: nat, end: nat, ghost got: seq<bool>)
    requires start < end <= |got|
    requires Represents(mask[..], got)
    modifies mask
    ensures Represents(mask[..], MarkRange(got, start, end))
  {
    ghost var before := mask[..];
    assert mask.Length == (|got| + 7) / 8;
    hide MarkedOctet, BitRange, OctetBit, Marked, Represents;
    var first, last := start / 8, end / 8;
    if first == last {
      mask[first] := mask[first] | BitRange(start % 8, end % 8);
    } else {
      mask[first] := mask[first] | BitRange(start % 8, 8);
      var i := first + 1;
      while i < last
        invariant first < i <= last
        invariant mask[first] == before[first] | BitRange(start % 8, 8)
        invariant forall j | first < j < i :: mask[j] == 0xff
        invariant forall j | 0 <= j < mask.Length && (j < first || i <= j) :: mask[j] == before[j]
      {
        mask[i] := 0xff;
        i := i + 1;
      }
      if end % 8 != 0 {
        mask[last] := mask[last] | BitRange(0, end % 8);
      }
    }
    forall i: nat | i < mask.Length ensures mask[i] == MarkedOctet(before[i], i, start, end) {
      MarkedOctetCases(before[i], i, start, end);
    }
    MarkedOctetsRepresent(before, mask[..], got, start, end);
  }

  /** Whether every byte of the message has arrived, octet by octet. */
  method IsComplete(mask: array<bv8>, msgLen: nat, ghost got: seq<bool>) returns (complete: bool)
    requires Represents(mask[..], got) && |got| == msgLen
    ensures complete <==> AllGot(got)
  {
    ScanIsExact(mask[..], got);
    for i := 0 to msgLen / 8
      invariant forall j | 0 <= j < i :: mask[j] == 0xff
    {
      if mask[i] != 0xff {
        return false;
      }
    }
    if msgLen % 8 != 0 && mask[msgLen / 8] != BitRange(0, msgLen % 8) {
      return false;
    }
    return true;
  }

  // Any sequence of marks.

  datatype Interval = Interval(start: nat, end: nat)

  function MarkAll(got: seq<bool>, marks: seq<Interval>): seq<bool> {
    if |marks| == 0 then got
    else MarkRange(MarkAll(got, marks[..|marks| - 1]), marks[|marks| - 1].start, marks[|marks| - 1].end)
  }

  /** Marking is union: a byte is flagged in the end iff it was at first or some
      marked interval covers it. */
  lemma {:induction false} MarksAreUnion(got: seq<bool>, marks: seq<Interval>, k: nat)
    requires k < |got|
    ensures |MarkAll(got, marks)| == |got|
    ensures MarkAll(got, marks)[k]
       <==> got[k] || exists m <- marks :: m.start <= k < m.end
  {
    if |marks| > 0 {
      var init, last := marks[..|marks| - 1], marks[|marks| - 1];
      assert marks == init + [last];
      MarksAreUnion(got, init, k);
    }
  }
}
