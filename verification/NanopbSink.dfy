/** Output streams as values: what one encoder call makes of a stream. */
module NanopbSink {
  import opened Bytes

  /** A stream that counts (sizing), or that writes bytes[pos..] with a limit on the total. */
  datatype Sink = Sink(sizing: bool, bytes: seq<byte>, pos: nat, maxSize: nat, written: nat)
  {
    predicate Valid() { pos <= |bytes| && (!sizing ==> written <= maxSize && pos + (maxSize - written) <= |bytes|) }

    /** The end of the part of the buffer this stream may write. */
    function Limit(): nat
      requires Valid()
    {
      if sizing then |bytes| else pos + (maxSize - written)
    }

    predicate Fits(n: nat) { sizing || written + n <= maxSize }
  }

  /** The stream after bs is written. */
  function Put(s: Sink, bs: seq<byte>): (t: Sink)
    requires s.Valid() && s.Fits(|bs|)
    ensures t.Valid()
  {
    if s.sizing then s.(written := s.written + |bs|)
    else s.(written := s.written + |bs|, pos := s.pos + |bs|,
            bytes := s.bytes[..s.pos] + bs + s.bytes[s.pos + |bs|..])
  }

  /** Nothing outside the part the stream may write has changed. */
  predicate Within(s: Sink, t: Sink)
    requires s.Valid() && t.Valid()
  {
    && t.sizing == s.sizing && t.maxSize == s.maxSize && |t.bytes| == |s.bytes|
    && t.Limit() == s.Limit() && s.pos <= t.pos
    && t.bytes[..s.pos] == s.bytes[..s.pos] && t.bytes[s.Limit()..] == s.bytes[s.Limit()..]
  }

  /** The meaning of an encoder call that should write out: it succeeds exactly when
      there is something to write and room for it, and then writes exactly that. */
  predicate Writes(s: Sink, out: Option<seq<byte>>, ok: bool, t: Sink)
    requires s.Valid()
  {
    && t.Valid() && Within(s, t)
    && ok == (out.Some? && s.Fits(|out.value|))
    && (ok ==> t == Put(s, out.value))
  }

  function Join(a: Option<seq<byte>>, b: Option<seq<byte>>): Option<seq<byte>> {
    if a.None? || b.None? then None else Some(a.value + b.value)
  }

  lemma PutTwice(s: Sink, a: seq<byte>, b: seq<byte>)
    requires s.Valid() && s.Fits(|a| + |b|)
    ensures Put(s, a).Fits(|b|) && Put(Put(s, a), b) == Put(s, a + b)
  {
    if !s.sizing {
      var t := Put(s, a);
      assert t.bytes[..t.pos] + b + t.bytes[t.pos + |b|..] == s.bytes[..s.pos] + (a + b) + s.bytes[s.pos + |a + b|..];
    }
  }

  /** Writing one thing after another. */
  lemma WritesBoth(s: Sink, a: Option<seq<byte>>, t: Sink, b: Option<seq<byte>>, ok: bool, u: Sink)
    requires s.Valid() && Writes(s, a, true, t) && Writes(t, b, ok, u)
    ensures Writes(s, Join(a, b), ok, u)
  {
    if b.Some? && s.Fits(|a.value| + |b.value|) {
      PutTwice(s, a.value, b.value);
    }
    assert t.bytes[..s.pos] == u.bytes[..s.pos] by {
      assert u.bytes[..s.pos] == u.bytes[..t.pos][..s.pos];
      assert t.bytes[..s.pos] == t.bytes[..t.pos][..s.pos];
    }
  }

  /** If the first thing fails, so does the whole. */
  lemma WritesFails(s: Sink, a: Option<seq<byte>>, b: Option<seq<byte>>, t: Sink)
    requires s.Valid() && Writes(s, a, false, t)
    ensures Writes(s, Join(a, b), false, t)
  {
  }
}
