/** The encoder as it runs: output streams, sizing passes and substreams. */
module NanopbWriter {
  import opened Bits
  import opened Bytes
  import opened Wire
  import opened NanopbMessage
  import opened NanopbEncode
  import opened NanopbIter
  import opened NanopbSink

  class OStream {
    const sizing: bool
    const buffer: array<byte>
    const maxSize: nat
    var pos: nat
    var written: nat

    ghost function State(): Sink
      reads this, buffer
    {
      Sink(sizing, buffer[..], pos, maxSize, written)
    }

    constructor Sizing()
      ensures State().Valid() && sizing && written == 0 && fresh(buffer)
    {
      sizing, maxSize, pos, written := true, 0, 0, 0;
      buffer := new byte[0];
    }

    constructor Over(buffer: array<byte>, pos: nat, maxSize: nat)
      requires pos + maxSize <= buffer.Length
      ensures State().Valid() && !sizing && this.buffer == buffer && this.maxSize == maxSize
      ensures this.pos == pos && written == 0
    {
      sizing := false;
      this.buffer, this.pos, this.maxSize, written := buffer, pos, maxSize, 0;
    }

    method BufWrite(bs: seq<byte>)
      requires pos + |bs| <= buffer.Length
      modifies this`pos, buffer
      ensures pos == old(pos) + |bs|
      ensures buffer[..] == old(buffer[..pos]) + bs + old(buffer[pos + |bs|..])
    {
      var dest := pos;
      pos := dest + |bs|;
      for i := 0 to |bs|
        invariant pos == dest + |bs|
        invariant forall k | 0 <= k < buffer.Length ::
          buffer[k] == if dest <= k < dest + i then bs[k - dest] else old(buffer[k])
      {
        buffer[dest + i] := bs[i];
      }
    }

    method Write(bs: seq<byte>) returns (ok: bool)
      requires State().Valid()
      modifies this`pos, this`written, buffer
      ensures Writes(old(State()), Some(bs), ok, State())
      ensures State().Valid()
    {
      if !sizing {
        if written + |bs| > maxSize {
          return false;
        }
        BufWrite(bs);
      }
      written := written + |bs|;
      return true;
    }

    /** A write whose bytes do not matter, to a sizing stream. */
    method Count(ghost bs: seq<byte>, size: nat) returns (ok: bool)
      requires State().Valid() && sizing && size == |bs|
      modifies this`pos, this`written, buffer
      ensures Writes(old(State()), Some(bs), ok, State())
      ensures State().Valid() && ok
    {
      written := written + size;
      return true;
    }

    method EncodeVarint(v: nat) returns (ok: bool)
      requires State().Valid() && v < TWO_64
      modifies this`pos, this`written, buffer
      ensures Writes(old(State()), Some(Varint(v)), ok, State())
      ensures State().Valid()
    {
      if v <= 0x7F {
        ok := Write([v as byte]);
        return;
      }
      var temp := new byte[10];
      var n := FillVarint(temp, v);
      ok := Write(temp[..n]);
    }

    method EncodeSvarint(n: int) returns (ok: bool)
      requires State().Valid()
      modifies this`pos, this`written, buffer
      ensures Writes(old(State()), Some(Varint(ZigZag(n) % TWO_64)), ok, State())
      ensures State().Valid()
    {
      ok := EncodeVarint((if n < 0 then -2 * n - 1 else 2 * n) % TWO_64);
    }

    method EncodeFixed32(val: nat) returns (ok: bool)
      requires State().Valid()
      modifies this`pos, this`written, buffer
      ensures Writes(old(State()), Some(LeBytes(val % TWO_32, 4)), ok, State())
      ensures State().Valid()
    {
      var bytes := [(val % 256) as byte, (val / 0x100 % 256) as byte,
                    (val / 0x1_0000 % 256) as byte, (val / 0x100_0000 % 256) as byte];
      FourBytes(val);
      ok := Write(bytes);
    }

    method EncodeFixed64(val: nat) returns (ok: bool)
      requires State().Valid()
      modifies this`pos, this`written, buffer
      ensures Writes(old(State()), Some(LeBytes(val % TWO_64, 8)), ok, State())
      ensures State().Valid()
    {
      var bytes := [(val % 256) as byte, (val / 0x100 % 256) as byte,
                    (val / 0x1_0000 % 256) as byte, (val / 0x100_0000 % 256) as byte,
                    (val / 0x1_0000_0000 % 256) as byte, (val / 0x100_0000_0000 % 256) as byte,
                    (val / 0x1_0000_0000_0000 % 256) as byte, (val / 0x100_0000_0000_0000 % 256) as byte];
      EightBytes(val);
      ok := Write(bytes);
    }

    method EncodeTag(wireType: nat, tag: nat) returns (ok: bool)
      requires State().Valid() && wireType < 8 && tag < TWO_32
      modifies this`pos, this`written, buffer
      ensures Writes(old(State()), Some(Tag(tag, wireType)), ok, State())
      ensures State().Valid()
    {
      ok := EncodeVarint(tag * 8 + wireType);
    }

    method EncodeString(bs: seq<byte>) returns (ok: bool)
      requires State().Valid() && |bs| < TWO_64
      modifies this`pos, this`written, buffer
      ensures Writes(old(State()), Some(Delimited(bs)), ok, State())
      ensures State().Valid()
    {
      hide Writes;
      ok := EncodeVarint(|bs|);
      if !ok {
        WritesFails(old(State()), Some(Varint(|bs|)), Some(bs), State());
        return false;
      }
      ghost var mid := State();
      ok := Write(bs);
      WritesBoth(old(State()), Some(Varint(|bs|)), mid, Some(bs), ok, State());
    }

    method EncodeNumber(f: Field, n: int) returns (ok: bool)
      requires State().Valid() && f.ltype.Packable()
      modifies this`pos, this`written, buffer
      ensures Writes(old(State()), EncNumber(f, n), ok, State())
      ensures State().Valid()
    {
      hide Writes, Varint, LeBytes;
      SmallMod(n % TWO_32, TWO_32);
      SmallMod(n % TWO_64, TWO_64);
      if f.ltype.Fixed32T? {
        ok := EncodeFixed32(n % TWO_32);
      } else if f.ltype.Fixed64T? {
        ok := EncodeFixed64(n % TWO_64);
      } else if !(f.dataSize == 1 || f.dataSize == 2 || f.dataSize == 4 || f.dataSize == 8) {
        NothingWritten(State());
        ok := false;
      } else if f.ltype.SVarintT? {
        ok := EncodeSvarint(n);
      } else {
        ok := EncodeVarint(n % TWO_64);
      }
    }

    /** Sizes the message with a stream that only counts, then writes it through a
        substream that may take exactly that many bytes. */
    method EncodeSubmessage(fields: seq<Field>, slots: seq<Slot>) returns (ok: bool)
      requires State().Valid() && StructOf(fields, slots) && Small(EncMessage(fields, slots))
      modifies this`pos, this`written, buffer
      ensures Writes(old(State()), DelimitedMessage(fields, slots), ok, State())
      ensures State().Valid()
      decreases fields, 1
    {
      hide Writes, EncMessage, StructOf;
      ghost var before, body := State(), EncMessage(fields, slots);
      var sizes := new OStream.Sizing();
      ghost var empty := sizes.State();
      var sized := sizes.Encode(fields, slots);
      Sized(empty, body, sized, sizes.State());
      if !sized {
        NothingWritten(before);
        return false;
      }
      var size := sizes.written;
      ok := EncodeVarint(size);
      if !ok {
        WritesFails(before, Some(Varint(size)), body, State());
        return;
      }
      ghost var middle := State();
      if sizing {
        ok := Count(body.value, size);
        WritesBoth(before, Some(Varint(size)), middle, body, ok, State());
        return;
      }
      if written + size > maxSize {
        NoRoom(middle, body);
        WritesBoth(before, Some(Varint(size)), middle, body, false, State());
        return false;
      }
      var substream := new OStream.Over(buffer, pos, size);
      ghost var start := substream.State();
      ok := substream.Encode(fields, slots);
      ThroughSubstream(middle, start, body, ok, substream.State());
      written := written + substream.written;
      pos := substream.pos;
      if substream.written != size {
        // The submessage changed its size between the passes.
        assert false;
      }
      WritesBoth(before, Some(Varint(size)), middle, body, ok, State());
    }

    method EncodeValue(f: Field, v: Value) returns (ok: bool)
      requires State().Valid() && Typed(f, v)
      modifies this`pos, this`written, buffer
      ensures Writes(old(State()), EncValue(f, v), ok, State())
      ensures State().Valid()
      decreases f, 1
    {
      if f.ltype.Packable() {
        ok := EncodeNumber(f, v.n);
      } else if f.ltype.SubmessageT? {
        ok := EncodeSubmessage(f.sub, v.slots);
      } else if f.ltype.BytesT? {
        if |v.bs| + BYTES_HEADER > f.dataSize {
          return false;
        }
        ok := EncodeString(v.bs);
      } else if f.ltype.StringT? {
        var size := StringLength(v.bs, f.dataSize);
        ok := EncodeString(v.bs[..size]);
      } else {
        ok := EncodeString(v.bs);
      }
    }

    method EncodeTagged(f: Field, v: Value) returns (ok: bool)
      requires State().Valid() && Typed(f, v) && f.tag < TWO_32
      modifies this`pos, this`written, buffer
      ensures Writes(old(State()), Tagged(f, v), ok, State())
      ensures State().Valid()
      decreases f, 2
    {
      hide Writes, EncValue, Typed;
      ghost var before, tag := State(), Some(Tag(f.tag, WireType(f.ltype)));
      ok := EncodeTag(WireType(f.ltype), f.tag);
      if !ok {
        WritesFails(before, tag, EncValue(f, v), State());
        return;
      }
      ghost var middle := State();
      ok := EncodeValue(f, v);
      WritesBoth(before, tag, middle, EncValue(f, v), ok, State());
    }

    /** The items of a packed array one after another, or their size. */
    method EncodeItems(f: Field, items: seq<Value>) returns (ok: bool)
      requires State().Valid() && f.ltype.Packable() && forall v <- items :: v.Num?
      modifies this`pos, this`written, buffer
      ensures Writes(old(State()), Payload(f, items), ok, State())
      ensures State().Valid()
    {
      hide Writes, EncNumber;
      ghost var before, done := State(), [];
      NothingYet(before);
      JoinNothing(Payload(f, items));
      assert items[0..] == items;
      for i := 0 to |items|
        invariant State().Valid() && Writes(before, Some(done), true, State())
        invariant Payload(f, items) == Join(Some(done), Payload(f, items[i..]))
      {
        assert items[i..][0] == items[i] && items[i..][1..] == items[i + 1..];
        ghost var middle, item, rest := State(), EncNumber(f, items[i].n), Payload(f, items[i + 1..]);
        assert items[i] in items;
        var written := EncodeNumber(f, items[i].n);
        WritesBoth(before, Some(done), middle, item, written, State());
        if !written {
          WritesFails(before, Join(Some(done), item), rest, State());
          JoinAssociates(Some(done), item, rest);
          return false;
        }
        WrittenWas(middle, item, State());
        JoinAssociates(Some(done), item, rest);
        done := done + item.value;
      }
      assert items[|items|..] == [] && done + [] == done;
      return true;
    }

    /** The size of a packed array, found by counting where items vary in size. */
    method PackedSize(f: Field, items: seq<Value>) returns (sized: bool, size: nat)
      requires f.ltype.Packable() && forall v <- items :: v.Num?
      ensures sized == Payload(f, items).Some?
      ensures sized ==> size == |Payload(f, items).value|
    {
      if f.ltype.Fixed32T? {
        FixedPayload(f, items, 4);
        return true, 4 * |items|;
      }
      if f.ltype.Fixed64T? {
        FixedPayload(f, items, 8);
        return true, 8 * |items|;
      }
      hide Writes, Payload;
      var sizes := new OStream.Sizing();
      ghost var empty := sizes.State();
      sized := sizes.EncodeItems(f, items);
      Sized(empty, Payload(f, items), sized, sizes.State());
      size := sizes.written;
    }

    method EncodePacked(f: Field, items: seq<Value>) returns (ok: bool)
      requires State().Valid() && f.ltype.Packable() && ItemsTyped(f, items) && f.tag < TWO_32
      modifies this`pos, this`written, buffer
      ensures Writes(old(State()), Join(Some(Tag(f.tag, WT_STRING)), DelimitedPayload(f, items)), ok, State())
      ensures State().Valid()
    {
      AllNumbers(f, items);
      hide Writes, Payload, Typed, ItemsTyped;
      ghost var before, payload := State(), Payload(f, items);
      ghost var tag := Some(Tag(f.tag, WT_STRING));
      ok := EncodeTag(WT_STRING, f.tag);
      if !ok {
        WritesFails(before, tag, DelimitedPayload(f, items), State());
        return;
      }
      ghost var tagged := State();
      var sized, size := PackedSize(f, items);
      if !sized {
        NothingWritten(tagged);
        WritesBoth(before, tag, tagged, None, false, State());
        return false;
      }
      ok := EncodeSized(f, items, size);
      WritesBoth(before, tag, tagged, DelimitedPayload(f, items), ok, State());
    }

    /** The size and the items of a packed array. */
    method EncodeSized(f: Field, items: seq<Value>, size: nat) returns (ok: bool)
      requires State().Valid() && f.ltype.Packable() && size < TWO_64 && forall v <- items :: v.Num?
      requires Payload(f, items).Some? && size == |Payload(f, items).value|
      modifies this`pos, this`written, buffer
      ensures Writes(old(State()), DelimitedPayload(f, items), ok, State())
      ensures State().Valid()
    {
      hide Writes, Payload;
      ghost var before, payload := State(), Payload(f, items);
      ok := EncodeVarint(size);
      if !ok {
        WritesFails(before, Some(Varint(size)), payload, State());
        return;
      }
      ghost var middle := State();
      if sizing {
        ok := Count(payload.value, size);
      } else {
        ok := EncodeItems(f, items);
      }
      WritesBoth(before, Some(Varint(size)), middle, payload, ok, State());
    }

    method EncodeArray(f: Field, items: seq<Value>) returns (ok: bool)
      requires State().Valid() && ItemsTyped(f, items) && f.tag < TWO_32
      modifies this`pos, this`written, buffer
      ensures Writes(old(State()), Flat(ArrayRecords(f, items)), ok, State())
      ensures State().Valid()
      decreases f, 3
    {
      hide Writes, Typed, Tagged;
      ghost var before, done := State(), [];
      NothingYet(before);
      if |items| == 0 {
        return true;
      }
      if |items| > f.arraySize {
        NothingWritten(before);
        return false;
      }
      if f.ltype.Packable() {
        ok := EncodePacked(f, items);
        PackedRecord(f, items);
        return;
      }
      JoinNothing(Flat(TaggedItems(f, items)));
      assert items[0..] == items;
      for i := 0 to |items|
        invariant State().Valid() && Writes(before, Some(done), true, State())
        invariant Flat(TaggedItems(f, items)) == Join(Some(done), Flat(TaggedItems(f, items[i..])))
      {
        assert items[i..][0] == items[i] && items[i..][1..] == items[i + 1..];
        ghost var middle, item, rest := State(), Tagged(f, items[i]), Flat(TaggedItems(f, items[i + 1..]));
        assert items[i] in items;
        var written := EncodeTagged(f, items[i]);
        WritesBoth(before, Some(done), middle, item, written, State());
        assert Flat(TaggedItems(f, items[i..])) == Join(item, rest);
        JoinAssociates(Some(done), item, rest);
        if !written {
          WritesFails(before, Join(Some(done), item), rest, State());
          return false;
        }
        WrittenWas(middle, item, State());
        done := done + item.value;
      }
      assert items[|items|..] == [] && done + [] == done;
      return true;
    }

    method EncodeField(f: Field, s: Slot) returns (ok: bool)
      requires State().Valid() && SlotTyped(f, s) && f.tag < TWO_32
      modifies this`pos, this`written, buffer
      ensures Writes(old(State()), Flat(FieldRecords(f, s)), ok, State())
      ensures State().Valid()
      decreases f, 4
    {
      hide Writes, Typed, Tagged, ArrayRecords;
      NothingYet(State());
      match s {
        case One(v) =>
          if f.htype.Singular? {
            var zero := CheckZero(f, v);
            if zero {
              return true;
            }
          }
          ok := EncodeTagged(f, v);
          assert Flat(FieldRecords(f, s)) == Tagged(f, v) by { OneRecordFlat(Tagged(f, v)); }
        case Opt(has, v) =>
          if !has {
            return true;
          }
          ok := EncodeTagged(f, v);
          assert Flat(FieldRecords(f, s)) == Tagged(f, v) by { OneRecordFlat(Tagged(f, v)); }
        case Many(items) =>
          ok := EncodeArray(f, items);
        case Choice(picked) =>
          if picked.None? {
            return true;
          }
          ok := EncodeTagged(f, picked.value);
          assert Flat(FieldRecords(f, s)) == Tagged(f, picked.value) by { OneRecordFlat(Tagged(f, picked.value)); }
      }
    }

    /** Encodes the fields one by one: succeeds exactly when the message has an encoding
        and there is room for it, and then writes exactly that. */
    method Encode(fields: seq<Field>, slots: seq<Slot>) returns (ok: bool)
      requires State().Valid() && StructOf(fields, slots)
      modifies this`pos, this`written, buffer
      ensures Writes(old(State()), EncMessage(fields, slots), ok, State())
      ensures State().Valid()
      decreases fields, 0
    {
      hide Writes, SlotTyped, FieldRecords;
      ghost var before, done := State(), [];
      NothingYet(before);
      var iter := new FieldIter(fields);
      var more := iter.Begin();
      if !more {
        return true;
      }
      ghost var i := 0;
      assert fields[0..] == fields && slots[0..] == slots;
      JoinNothing(EncMessage(fields, slots));
      while more
        invariant iter.Valid() && iter.fields == fields && i <= |fields| && more == (i < |fields|)
        invariant more ==> iter.pos == i
        invariant State().Valid() && Writes(before, Some(done), true, State())
        invariant EncMessage(fields, slots) == Join(Some(done), EncMessage(fields[i..], slots[i..]))
        decreases |fields| - i
      {
        assert fields[i..][0] == fields[i] && fields[i..][1..] == fields[i + 1..];
        assert slots[i..][0] == slots[i] && slots[i..][1..] == slots[i + 1..];
        ghost var middle, field := State(), Flat(FieldRecords(fields[i], slots[i]));
        ghost var rest := EncMessage(fields[i + 1..], slots[i + 1..]);
        var written := EncodeField(fields[iter.pos], slots[iter.pos]);
        WritesBoth(before, Some(done), middle, field, written, State());
        FirstField(fields[i..], slots[i..]);
        JoinAssociates(Some(done), field, rest);
        if !written {
          WritesFails(before, Join(Some(done), field), rest, State());
          return false;
        }
        WrittenWas(middle, field, State());
        done := done + field.value;
        more := iter.Next();
        i := i + 1;
      }
      assert fields[i..] == [] && slots[i..] == [] && done + [] == done;
      return true;
    }
  }

  /** Whether a proto3 field may be left out. */
  method CheckZero(f: Field, v: Value) returns (zero: bool)
    requires Typed(f, v)
    ensures zero == IsZero(f, v)
    decreases f, 0
  {
    match v {
      case Num(n) => return n == 0;
      case Blob(bs) =>
        return if f.ltype.FixedLengthBytesT? then f.dataSize == 0 else |bs| == 0 || (f.ltype.StringT? && bs[0] == 0);
      case Rec(slots) =>
        var iter := new FieldIter(f.sub);
        var more := iter.Begin();
        ghost var i := 0;
        while more
          invariant iter.Valid() && iter.fields == f.sub && i <= |f.sub| && more == (i < |f.sub|)
          invariant more ==> iter.pos == i
          invariant forall j | 0 <= j < i :: IsDefault(f.sub[j], slots[j])
          decreases |f.sub| - i
        {
          var absent := CheckDefault(f.sub[iter.pos], slots[iter.pos]);
          if !absent {
            return false;
          }
          more := iter.Next();
          i := i + 1;
        }
        return true;
    }
  }

  method CheckDefault(f: Field, s: Slot) returns (absent: bool)
    requires SlotTyped(f, s)
    ensures absent == IsDefault(f, s)
    decreases f, 1
  {
    match s {
      case One(v) =>
        if f.htype.Required? {
          return false;
        }
        absent := CheckZero(f, v);
      case Opt(has, _) => return !has;
      case Many(items) => return |items| == 0;
      case Choice(picked) => return picked.None?;
    }
  }

  /** The size of an encoding, without writing it. */
  method GetEncodedSize(fields: seq<Field>, slots: seq<Slot>) returns (ok: bool, size: nat)
    requires StructOf(fields, slots)
    ensures ok == EncMessage(fields, slots).Some?
    ensures ok ==> size == |EncMessage(fields, slots).value|
  {
    var sizes := new OStream.Sizing();
    ghost var empty := sizes.State();
    ok := sizes.Encode(fields, slots);
    Sized(empty, EncMessage(fields, slots), ok, sizes.State());
    size := sizes.written;
  }

  /** Encoding into a buffer of a given size succeeds exactly when the sizing pass does
      and counts no more than that, and fills exactly what was counted. */
  lemma SizingAgrees(empty: Sink, counted: Sink, sized: bool, start: Sink, end: Sink, ok: bool, out: Option<seq<byte>>)
    requires empty.Valid() && empty.sizing && empty.written == 0 && Writes(empty, out, sized, counted)
    requires start.Valid() && !start.sizing && start.written == 0 && Writes(start, out, ok, end)
    ensures ok == (sized && counted.written <= start.maxSize)
    ensures ok ==> end.written == counted.written && end.pos == start.pos + counted.written
    ensures ok ==> end.bytes[start.pos..end.pos] == out.value && |end.bytes| == |start.bytes|
    ensures ok ==> end.bytes[..start.pos] == start.bytes[..start.pos] && end.bytes[end.pos..] == start.bytes[end.pos..]
  {
  }

  method StringLength(bs: seq<byte>, max: nat) returns (n: nat)
    ensures n == StrNLen(bs, max)
  {
    n := 0;
    while n < max && n < |bs| && bs[n] != 0
      invariant n <= |bs| && n <= max && StrNLen(bs, max) == n + StrNLen(bs[n..], max - n)
    {
      assert bs[n..][1..] == bs[n + 1..];
      n := n + 1;
    }
  }

  function DelimitedMessage(fields: seq<Field>, slots: seq<Slot>): Option<seq<byte>> {
    var body := EncMessage(fields, slots);
    if body.None? then None else Some(Delimited(body.value))
  }

  function DelimitedPayload(f: Field, items: seq<Value>): Option<seq<byte>> {
    var payload := Payload(f, items);
    if payload.None? then None else Some(Delimited(payload.value))
  }

  lemma NothingYet(s: Sink)
    requires s.Valid()
    ensures Writes(s, Some([]), true, s)
  {
    assert !s.sizing ==> s.bytes[..s.pos] + [] + s.bytes[s.pos..] == s.bytes;
  }

  lemma NothingWritten(s: Sink)
    requires s.Valid()
    ensures Writes(s, None, false, s)
  {
  }

  lemma NoRoom(s: Sink, out: Option<seq<byte>>)
    requires s.Valid() && (out.Some? ==> !s.Fits(|out.value|))
    ensures Writes(s, out, false, s)
  {
  }

  lemma WrittenWas(s: Sink, out: Option<seq<byte>>, t: Sink)
    requires s.Valid() && Writes(s, out, true, t)
    ensures out.Some?
  {
  }

  /** A sizing pass succeeds exactly when there is something to write, and counts it. */
  lemma Sized(s: Sink, out: Option<seq<byte>>, ok: bool, t: Sink)
    requires s.Valid() && s.sizing && s.written == 0 && Writes(s, out, ok, t)
    ensures ok == out.Some? && (ok ==> t.written == |out.value|)
  {
  }

  /** Writing through a substream of exactly the right size is writing to its parent. */
  lemma ThroughSubstream(parent: Sink, sub: Sink, body: Option<seq<byte>>, ok: bool, end: Sink)
    requires parent.Valid() && !parent.sizing && body.Some? && parent.Fits(|body.value|)
    requires sub == Sink(false, parent.bytes, parent.pos, |body.value|, 0)
    requires sub.Valid() && Writes(sub, body, ok, end)
    ensures ok && end.written == |body.value|
    ensures Writes(parent, body, true, parent.(bytes := end.bytes, pos := end.pos, written := parent.written + end.written))
  {
  }

  lemma JoinAssociates(a: Option<seq<byte>>, b: Option<seq<byte>>, c: Option<seq<byte>>)
    ensures Join(Join(a, b), c) == Join(a, Join(b, c))
  {
    if a.Some? && b.Some? && c.Some? {
      assert a.value + b.value + c.value == a.value + (b.value + c.value);
    }
  }

  lemma JoinNothing(b: Option<seq<byte>>)
    ensures Join(Some([]), b) == b
  {
    if b.Some? {
      assert [] + b.value == b.value;
    }
  }

  lemma OneRecordFlat(bs: Option<seq<byte>>)
    ensures Flat(OneRecord(bs)) == bs
  {
    if bs.Some? {
      assert [bs.value][1..] == [] && bs.value + [] == bs.value;
      assert Concat([bs.value]) == bs.value + Concat([bs.value][1..]);
    }
  }

  lemma AllNumbers(f: Field, items: seq<Value>)
    requires f.ltype.Packable() && ItemsTyped(f, items)
    ensures Small(Payload(f, items)) && forall v <- items :: v.Num?
  {
    assert forall v <- items :: Typed(f, v);
  }

  lemma PackedRecord(f: Field, items: seq<Value>)
    requires f.ltype.Packable() && 0 < |items| <= f.arraySize
    ensures Flat(ArrayRecords(f, items)) == Join(Some(Tag(f.tag, WT_STRING)), DelimitedPayload(f, items))
  {
    if Payload(f, items).Some? {
      OneRecordFlat(Some(Tag(f.tag, WT_STRING) + Delimited(Payload(f, items).value)));
    }
  }

  lemma FirstField(fields: seq<Field>, slots: seq<Slot>)
    requires |fields| == |slots| > 0
    ensures EncMessage(fields, slots) == Join(Flat(FieldRecords(fields[0], slots[0])), EncMessage(fields[1..], slots[1..]))
  {
    var first, rest := FieldRecords(fields[0], slots[0]), Records(fields[1..], slots[1..]);
    if first.Some? && rest.Some? {
      ConcatSum(first.value, rest.value);
    }
  }

  lemma {:induction false} FixedPayload(f: Field, items: seq<Value>, w: nat)
    requires (f.ltype.Fixed32T? && w == 4) || (f.ltype.Fixed64T? && w == 8)
    requires forall v <- items :: v.Num?
    ensures Payload(f, items).Some? && |Payload(f, items).value| == w * |items|
  {
    if |items| > 0 {
      FixedPayload(f, items[1..], w);
    }
  }

  /** The low seven bits, marked as not the last. */
  function Group(value: nat): (b: byte)
    ensures b >= 128
  {
    (value % 128 + 128) as byte
  }

  /** The value left after i groups of seven bits are taken off v. */
  ghost predicate Room(v: nat, value: nat, i: nat) { value * Pow2(7 * i) <= v }

  /** After the groups in out, value is still to come; out is marked as unfinished
      even when nothing is. */
  predicate Filled(v: nat, out: seq<byte>, value: nat) {
    if value != 0 then Varint(v) == out + Varint(value)
    else
      && |out| > 0 && out[|out| - 1] >= 128
      && Varint(v) == out[..|out| - 1] + [out[|out| - 1] - 128]
  }

  /** The bytes of a varint of more than one byte. */
  method FillVarint(temp: array<byte>, v: nat) returns (i: nat)
    requires temp.Length == 10 && 0x7F < v < TWO_64
    modifies temp
    ensures i <= 10 && temp[..i] == Varint(v)
  {
    hide Room, Varint, Group, Filled;
    FillStarts(v);
    i := 0;
    assert temp[..0] == [];
    var value: nat := v;
    while value != 0
      invariant i <= 10 && (i == 10 ==> value == 0)
      invariant Room(v, value, i) && Filled(v, temp[..i], value)
      decreases value
    {
      FillsOneMore(v, temp[..i], value);
      TenBytes(v, value, i);
      temp[i] := Group(value);
      assert temp[..i + 1] == temp[..i] + [temp[i]];
      value := value / 128;
      i := i + 1;
    }
    LastGroup(v, temp[..i]);
    temp[i - 1] := temp[i - 1] - 128;
    assert temp[..i] == temp[..i - 1] + [temp[i - 1]];
  }

  lemma FillStarts(v: nat)
    requires v > 0
    ensures Room(v, v, 0) && Filled(v, [], v)
  {
    assert Pow2(7 * 0) == 1 && [] + Varint(v) == Varint(v);
  }

  lemma FillsOneMore(v: nat, out: seq<byte>, value: nat)
    requires value > 0 && Filled(v, out, value)
    ensures Filled(v, out + [Group(value)], value / 128)
  {
    var b := Group(value);
    assert (out + [b])[..|out|] == out;
    if value >= 128 {
      assert out + ([b] + Varint(value / 128)) == out + [b] + Varint(value / 128);
    }
  }

  lemma LastGroup(v: nat, out: seq<byte>)
    requires Filled(v, out, 0)
    ensures |out| > 0 && out[|out| - 1] >= 128
    ensures Varint(v) == out[..|out| - 1] + [out[|out| - 1] - 128]
  {
  }

  lemma TenBytes(v: nat, value: nat, i: nat)
    requires 0 < value && v < TWO_64 && Room(v, value, i)
    ensures Room(v, value / 128, i + 1)
    ensures i >= 9 ==> value / 128 == 0
  {
    hide Pow2;
    Pow2Plus7(7 * i);
    SplitAt7(value, Pow2(7 * i));
    if value / 128 > 0 {
      Pow2Widths();
      BelowWidth(value / 128, 7 * (i + 1), 64);
    }
  }
}
