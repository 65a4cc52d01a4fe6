/** The growable buffer TLS records wait in before they are written. */
module SslBuffer {
  import opened Bytes

  const SSL3_ALIGN_PAYLOAD: nat := 8
  const MAX_CAP: nat := 0xffff

  /** What the allocator returns: where the memory lies, and what is in it. */
  datatype Memory = Memory(address: nat, fill: nat -> byte)

  /** Where the contents start, so that the payload after headerLen bytes is aligned. */
  function AlignedOffset(headerLen: nat, address: nat): (offset: nat)
    ensures offset < SSL3_ALIGN_PAYLOAD
  {
    (0 - headerLen - address) % SSL3_ALIGN_PAYLOAD
  }

  /** New memory of len bytes with bs in it from offset on. */
  ghost function Laid(mem: Memory, len: nat, offset: nat, bs: seq<byte>): seq<byte>
    requires offset + |bs| <= len
  {
    seq(len, k requires 0 <= k < len => if offset <= k < offset + |bs| then bs[k - offset] else mem.fill(k))
  }

  method Allocate(len: nat, mem: Memory) returns (a: array<byte>)
    ensures fresh(a) && a.Length == len
    ensures forall k | 0 <= k < len :: a[k] == mem.fill(k)
  {
    a := new byte[len];
    for i := 0 to len
      invariant forall k | 0 <= k < i :: a[k] == mem.fill(k)
    {
      a[i] := mem.fill(i);
    }
  }

  class SSLBuffer {
    var buf: array<byte>
    // 16-bit counters: where the contents start, their size, and the room from there.
    var offset: nat
    var size: nat
    var cap: nat

    predicate Valid()
      reads this
    {
      offset <= 0xffff && size <= cap <= MAX_CAP && offset + cap <= buf.Length
    }

    function Contents(): (bs: seq<byte>)
      requires Valid()
      reads this, buf
      ensures |bs| == size
    {
      buf[offset..offset + size]
    }

    /** The buffer is memory as it was allocated but for the contents. */
    ghost predicate IsLaid(mem: Memory)
      requires Valid()
      reads this, buf
    {
      buf[..] == Laid(mem, buf.Length, offset, Contents())
    }

    constructor ()
      ensures Valid() && size == 0 && cap == 0 && offset == 0 && Contents() == [] && fresh(buf)
    {
      buf, offset, size, cap := new byte[0], 0, 0, 0;
    }

    method Clear()
      modifies this
      ensures Valid() && size == 0 && cap == 0 && offset == 0 && Contents() == [] && fresh(buf)
    {
      buf, offset, size, cap := new byte[0], 0, 0, 0;
    }

    method CopyTo(a: array<byte>, at: nat)
      requires Valid() && a != buf && at + size <= a.Length
      modifies a
      ensures forall k | 0 <= k < a.Length ::
        a[k] == if at <= k < at + size then buf[offset + k - at] else old(a[k])
    {
      for i := 0 to size
        invariant forall k | 0 <= k < a.Length ::
          a[k] == if at <= k < at + i then buf[offset + k - at] else old(a[k])
      {
        a[at + i] := buf[offset + i];
      }
    }

    /** Makes room for newCap bytes in all, keeping the contents; memory that has to be
        replaced is replaced by mem, where the payload is aligned. */
    method EnsureCap(headerLen: nat, newCap: nat, mem: Memory) returns (ok: bool)
      requires Valid()
      modifies this
      ensures Valid() && Contents() == old(Contents()) && (buf == old(buf) || fresh(buf))
      ensures ok == (newCap <= MAX_CAP) && (ok ==> cap >= newCap)
      ensures buf == old(buf) ==> offset == old(offset)
      ensures old(cap) < newCap <= MAX_CAP ==>
                && fresh(buf) && cap == newCap && offset == AlignedOffset(headerLen, mem.address)
                && buf.Length == newCap + SSL3_ALIGN_PAYLOAD - 1 && IsLaid(mem)
      ensures !(old(cap) < newCap <= MAX_CAP) ==> unchanged(this)
    {
      if newCap > MAX_CAP {
        return false;
      }
      if cap >= newCap {
        return true;
      }
      var newBuf := Allocate(newCap + SSL3_ALIGN_PAYLOAD - 1, mem);
      var newOffset := AlignedOffset(headerLen, mem.address);
      CopyTo(newBuf, newOffset);
      assert newBuf[newOffset..newOffset + size] == Contents();
      assert newBuf[..] == Laid(mem, newBuf.Length, newOffset, Contents());
      buf, offset, cap := newBuf, newOffset, newCap;
      return true;
    }

    /** Adds bs after the contents. */
    method Append(bs: seq<byte>)
      requires Valid() && |bs| <= cap - size
      modifies this`size, buf
      ensures Valid() && Contents() == old(Contents()) + bs
      ensures forall mem :: old(IsLaid(mem)) ==> IsLaid(mem)
    {
      for i := 0 to |bs|
        invariant Valid() && unchanged(this)
        invariant buf[offset..offset + size + i] == old(Contents()) + bs[..i]
        invariant forall k | 0 <= k < buf.Length && !(offset + size <= k < offset + size + i) :: buf[k] == old(buf[k])
      {
        buf[offset + size + i] := bs[i];
      }
      DidWrite(|bs|);
      assert bs[..|bs|] == bs;
      forall mem | old(IsLaid(mem)) ensures IsLaid(mem) {
        assert forall k | 0 <= k < buf.Length :: buf[..][k] == Laid(mem, buf.Length, offset, Contents())[k];
      }
    }

    method DidWrite(newSize: nat)
      requires Valid() && newSize <= cap - size
      modifies this`size
      ensures Valid() && size == old(size) + newSize
    {
      size := size + newSize;
    }

    /** Drops len bytes from the front.  The offset is a 16-bit number: what is left
        is still the contents exactly if it did not wrap. */
    method Consume(len: nat)
      requires Valid() && len <= size
      modifies this`offset, this`size, this`cap
      ensures Valid() && size == old(size) - len && offset == (old(offset) + len) % 0x1_0000
      ensures old(offset) + len <= 0xffff ==> Contents() == old(Contents())[len..]
      // what is then taken for the rest lies 65536 bytes before it
      ensures old(offset) + len > 0xffff ==>
                Contents() == buf[old(offset) + len - 0x1_0000..old(offset) + old(size) - 0x1_0000]
    {
      offset := (offset + len) % 0x1_0000;
      size := size - len;
      cap := cap - len;
    }
  }

  // What partial writes make of a buffer.

  /** The bytes offered and taken when size bytes of mem from offset on are written; the
      t-th write takes takes(t) bytes, or as many as are left, and none if it fails. */
  function Drain(mem: seq<byte>, offset: nat, size: nat, takes: nat -> int, t: nat): (bs: seq<byte>)
    requires offset + size <= |mem|
    ensures |bs| <= size
    decreases size
  {
    if size == 0 || takes(t) <= 0 then []
    else
      var n := if takes(t) < size then takes(t) else size;
      mem[offset..offset + n] + Drain(mem, (offset + n) % 0x1_0000, size - n, takes, t + 1)
  }

  /** No run of partial writes can wrap the offset while bytes are left. */
  predicate Aligned(offset: nat, size: nat) { offset + size <= 0x1_0000 }

  lemma {:induction false} AlignedDrains(mem: seq<byte>, offset: nat, size: nat, takes: nat -> int, t: nat)
    requires offset + size <= |mem| && Aligned(offset, size)
    ensures Drain(mem, offset, size, takes, t) <= mem[offset..offset + size]
    decreases size
  {
    if size > 0 && takes(t) > 0 {
      var n := if takes(t) < size then takes(t) else size;
      if n < size {
        assert (offset + n) % 0x1_0000 == offset + n;
        AlignedDrains(mem, offset + n, size - n, takes, t + 1);
        SliceJoins(mem, offset, n, size, Drain(mem, offset + n, size - n, takes, t + 1));
      } else {
        assert Drain(mem, (offset + n) % 0x1_0000, 0, takes, t + 1) == [];
      }
    }
  }

  lemma SliceJoins(mem: seq<byte>, offset: nat, n: nat, size: nat, rest: seq<byte>)
    requires offset + size <= |mem| && n <= size && rest <= mem[offset + n..offset + size]
    ensures mem[offset..offset + n] + rest <= mem[offset..offset + size]
  {
    assert mem[offset..offset + size] == mem[offset..offset + n] + mem[offset + n..offset + size];
  }

  /** Two writes, of everything up to the wrap and of one byte more: the second byte
      string is the start of the memory. */
  lemma WrappedDrain(mem: seq<byte>, offset: nat, size: nat, takes: nat -> int, t: nat)
    requires offset + size <= |mem| && offset <= 0xffff && !Aligned(offset, size)
    requires takes(t) == 0x1_0000 - offset && takes(t + 1) == 1 && takes(t + 2) <= 0
    ensures Drain(mem, offset, size, takes, t) == mem[offset..0x1_0000] + mem[..1]
  {
    var left := size - (0x1_0000 - offset);
    assert Drain(mem, 1, left - 1, takes, t + 2) == [];
    assert Drain(mem, 0, left, takes, t + 1) == mem[0..1] + [];
  }

  /** In one position of the contents, partial writes write them in order whatever the
      memory holds exactly if they end within 65536 bytes. */
  lemma DrainsInOrder(offset: nat, size: nat)
    requires offset <= 0xffff
    ensures Aligned(offset, size) <==>
            forall mem: seq<byte>, takes: nat -> int, t: nat | offset + size <= |mem| ::
              Drain(mem, offset, size, takes, t) <= mem[offset..offset + size]
  {
    if Aligned(offset, size) {
      forall mem: seq<byte>, takes: nat -> int, t: nat | offset + size <= |mem|
        ensures Drain(mem, offset, size, takes, t) <= mem[offset..offset + size]
      {
        AlignedDrains(mem, offset, size, takes, t);
      }
    } else {
      var mem := seq(offset + size, k => if k == 0 then 1 as byte else 0);
      var first := 0x1_0000 - offset;
      var takes := (t: nat) => if t == 0 then first else if t == 1 then 1 else 0;
      WrappedDrain(mem, offset, size, takes, 0);
      assert (mem[offset..0x1_0000] + mem[..1])[first] == 1 && mem[offset..offset + size][first] == 0;
    }
  }

  /** The size that keeps partial writes in order wherever memory lies. */
  const SAFE_CAP: nat := 0x1_0000 - (SSL3_ALIGN_PAYLOAD - 1)

  /** Contents of some size are written in order from every aligned position, whatever
      the memory holds and however the writes split them, exactly up to SAFE_CAP. */
  lemma SafeCap(size: nat)
    ensures size <= SAFE_CAP <==>
            forall offset: nat, mem: seq<byte>, takes: nat -> int, t: nat
              | offset < SSL3_ALIGN_PAYLOAD && offset + size <= |mem| ::
              Drain(mem, offset, size, takes, t) <= mem[offset..offset + size]
  {
    if size <= SAFE_CAP {
      forall offset: nat, mem: seq<byte>, takes: nat -> int, t: nat
        | offset < SSL3_ALIGN_PAYLOAD && offset + size <= |mem|
        ensures Drain(mem, offset, size, takes, t) <= mem[offset..offset + size]
      {
        AlignedDrains(mem, offset, size, takes, t);
      }
    } else {
      DrainsInOrder(SSL3_ALIGN_PAYLOAD - 1, size);
    }
  }
}
