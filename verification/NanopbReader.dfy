/** The decoder as it runs: input streams, substreams and the field loop. */
module NanopbReader {
  import opened Bits
  import opened Bytes
  import opened Wire
  import opened NanopbMessage
  import opened NanopbEncode
  import opened NanopbDecode
  import opened NanopbIter
  import opened RequiredFields

  function Got<T>(d: Option<(T, Rest)>): Option<T> {
    if d.None? then None else Some(d.value.0)
  }

  /** No two fields share a tag, at any depth. */
  predicate Distinct(fields: seq<Field>) {
    && (forall i, j | 0 <= i < j < |fields| :: fields[i].tag != fields[j].tag)
    && forall f <- fields :: Distinct(f.sub)
  }

  class IStream {
    const source: seq<byte>
    var pos: nat
    var bytesLeft: nat

    ghost predicate Valid()
      reads this
    {
      End() <= |source|
    }

    ghost function End(): nat
      reads this
    {
      pos + bytesLeft
    }

    /** What can still be read. */
    ghost function Rest(): seq<byte>
      requires Valid()
      reads this
    {
      source[pos..pos + bytesLeft]
    }

    /** rest is to be read, and ends where the stream ends. */
    ghost predicate At(rest: seq<byte>, end: nat)
      reads this
    {
      Valid() && Rest() == rest && End() == end
    }

    constructor (source: seq<byte>)
      ensures At(source, |source|) && this.source == source
    {
      this.source, pos, bytesLeft := source, 0, |source|;
      new;
      assert source[0..|source|] == source;
    }

    constructor Part(source: seq<byte>, pos: nat, size: nat)
      requires pos + size <= |source|
      ensures At(source[pos..pos + size], pos + size) && this.source == source && this.pos == pos
    {
      this.source, this.pos, bytesLeft := source, pos, size;
    }

    method Read(count: nat) returns (bs: Option<seq<byte>>)
      requires Valid()
      modifies this
      ensures Valid() && End() <= old(End())
      ensures bs == if count <= |old(Rest())| then Some(old(Rest())[..count]) else None
      ensures bs.Some? ==> At(old(Rest())[count..], old(End()))
    {
      if bytesLeft < count {
        return None;
      }
      bs := Some(source[pos..pos + count]);
      assert Rest()[..count] == source[pos..pos + count];
      assert Rest()[count..] == source[pos + count..pos + bytesLeft];
      pos, bytesLeft := pos + count, bytesLeft - count;
    }

    method ReadByte() returns (b: Option<byte>)
      requires Valid()
      modifies this
      ensures Valid() && End() <= old(End())
      ensures b == if |old(Rest())| == 0 then None else Some(old(Rest())[0])
      ensures b.Some? ==> At(old(Rest())[1..], old(End()))
    {
      if bytesLeft == 0 {
        return None;
      }
      b := Some(source[pos]);
      assert Rest()[1..] == source[pos + 1..pos + bytesLeft];
      pos, bytesLeft := pos + 1, bytesLeft - 1;
    }

    method DecodeVarint32() returns (r: Option<nat>)
      requires Valid()
      modifies this
      ensures Valid() && End() <= old(End()) && r == Got(Decode32(old(Rest())))
      ensures r.Some? ==> At(Decode32(old(Rest())).value.1, old(End()))
    {
      hide Pow2, Or;
      ghost var s := Rest();
      var b := ReadByte();
      if b.None? {
        return None;
      }
      if !More(b.value) {
        return Some(b.value as nat);
      }
      var bitPos: nat, result: nat := 7, Low7(b.value);
      while true
        invariant Valid() && End() == old(End()) && Decode32(s) == Decode32From(Rest(), bitPos, result)
        decreases bytesLeft
      {
        b := ReadByte();
        if b.None? {
          return None;
        }
        if bitPos >= 32 {
          // There may be trailing 0x80 bytes, or 0xff for a negative number.
          var signExtension: byte := if bitPos < 63 then 0xff else 0x01;
          if Low7(b.value) != 0 && (result / Pow2(31) == 0 || b.value != signExtension) {
            return None;
          }
        } else {
          result := Or(result, Low7(b.value) * Pow2(bitPos) % TWO_32);
        }
        bitPos := (bitPos + 7) % 256;
        if !More(b.value) {
          break;
        }
      }
      if bitPos == 35 && b.value as nat / 16 % 8 != 0 {
        return None;
      }
      return Some(result);
    }

    method DecodeVarint() returns (r: Option<nat>)
      requires Valid()
      modifies this
      ensures Valid() && End() <= old(End()) && r == Got(Decode64(old(Rest())))
      ensures r.Some? ==> At(Decode64(old(Rest())).value.1, old(End()))
    {
      hide Pow2, Or;
      ghost var s := Rest();
      var bitPos: nat, result: nat := 0, 0;
      while true
        invariant Valid() && End() == old(End()) && Decode64(s) == Decode64From(Rest(), bitPos, result)
        decreases bytesLeft
      {
        if bitPos >= 64 {
          return None;
        }
        var b := ReadByte();
        if b.None? {
          return None;
        }
        result := Or(result, Low7(b.value) * Pow2(bitPos) % TWO_64);
        bitPos := bitPos + 7;
        if !More(b.value) {
          break;
        }
      }
      return Some(result);
    }

    method DecodeSvarint() returns (r: Option<int>)
      requires Valid()
      modifies this
      ensures Valid() && End() <= old(End())
      ensures r == var d := Decode64(old(Rest())); if d.None? then None else Some(UnZigZag(d.value.0))
      ensures r.Some? ==> At(Decode64(old(Rest())).value.1, old(End()))
    {
      var value := DecodeVarint();
      if value.None? {
        return None;
      }
      var half: int := value.value / 2;
      return Some(if value.value % 2 == 1 then -half - 1 else half);
    }

    // Unknown fields.

    method SkipVarints() returns (ok: bool)
      requires Valid()
      modifies this
      ensures Valid() && End() <= old(End()) && ok == SkipVarint(old(Rest())).Some?
      ensures ok ==> At(SkipVarint(old(Rest())).value, old(End()))
    {
      ghost var s := Rest();
      while true
        invariant Valid() && End() == old(End()) && SkipVarint(s) == SkipVarint(Rest())
        decreases bytesLeft
      {
        var b := ReadByte();
        if b.None? {
          return false;
        }
        if !More(b.value) {
          break;
        }
      }
      return true;
    }

    method SkipString() returns (ok: bool)
      requires Valid()
      modifies this
      ensures Valid() && End() <= old(End()) && ok == SkipField(old(Rest()), WT_STRING).Some?
      ensures ok ==> At(SkipField(old(Rest()), WT_STRING).value, old(End()))
    {
      hide Decode32;
      var len := DecodeVarint32();
      if len.None? {
        return false;
      }
      var skipped := Read(len.value);
      return skipped.Some?;
    }

    method SkipUnknown(wireType: nat) returns (ok: bool)
      requires Valid()
      modifies this
      ensures Valid() && End() <= old(End()) && ok == SkipField(old(Rest()), wireType).Some?
      ensures ok ==> At(SkipField(old(Rest()), wireType).value, old(End()))
    {
      hide Decode32, SkipVarint;
      if wireType == WT_VARINT {
        ok := SkipVarints();
      } else if wireType == WT_64BIT {
        var bs := Read(8);
        ok := bs.Some?;
      } else if wireType == WT_STRING {
        ok := SkipString();
      } else if wireType == WT_32BIT {
        var bs := Read(4);
        ok := bs.Some?;
      } else {
        ok := false;
      }
    }

    // Substreams.

    /** Opens the string that comes next as a stream of its own.  Until it is closed,
        this stream has given up the string's bytes but not moved past them. */
    method MakeStringSubstream() returns (sub: IStream?)
      requires Valid()
      modifies this
      ensures Valid() && End() <= old(End()) && (sub == null <==> DecDelimited(old(Rest())).None?)
      ensures sub != null ==> fresh(sub) && Lent(sub, DecDelimited(old(Rest())).value, old(End()))
    {
      hide Decode32;
      ghost var s := Rest();
      var size := DecodeVarint32();
      if size.None? {
        return null;
      }
      if bytesLeft < size.value {
        return null;
      }
      sub := new IStream.Part(source, pos, size.value);
      assert Rest()[..size.value] == source[pos..pos + size.value];
      assert Rest()[size.value..] == source[pos + size.value..End()];
      bytesLeft := bytesLeft - size.value;
    }

    /** sub may read d.0; d.1 comes after it. */
    ghost predicate Lent(sub: IStream, d: (seq<byte>, Rest), end: nat)
      reads this, sub
    {
      && sub != this && sub.source == source && sub.At(d.0, sub.End())
      && sub.End() + bytesLeft == end <= |source| && source[sub.End()..end] == d.1
    }

    /** Moves past the string, wherever in it the substream stopped. */
    method CloseStringSubstream(sub: IStream)
      requires sub != this && sub.source == source && sub.Valid() && sub.End() + bytesLeft <= |source|
      modifies this, sub
      ensures bytesLeft == old(bytesLeft)
      ensures At(source[old(sub.End())..old(sub.End() + bytesLeft)], old(sub.End() + bytesLeft))
    {
      if sub.bytesLeft > 0 {
        var _ := sub.Read(sub.bytesLeft);
      }
      pos := sub.pos;
    }

    // Values.

    method DecodeNumber(f: Field) returns (n: Option<int>)
      requires Valid() && f.ltype.Packable()
      modifies this
      ensures Valid() && End() <= old(End()) && n == Got(DecNumber(f, old(Rest())))
      ensures n.Some? ==> At(DecNumber(f, old(Rest())).value.1, old(End()))
    {
      hide Decode64, Signed, Pow2, Le;
      if f.ltype.Fixed32T? {
        var bs := Read(4);
        if bs.None? { return None; }
        return Some(Le(bs.value));
      }
      if f.ltype.Fixed64T? {
        var bs := Read(8);
        if bs.None? { return None; }
        return Some(Le(bs.value));
      }
      var value: int;
      if f.ltype.SVarintT? {
        var d := DecodeSvarint();
        if d.None? { return None; }
        value := d.value;
      } else {
        var d := DecodeVarint();
        if d.None? { return None; }
        value := d.value;
        if f.ltype.VarintT? {
          // Negative numbers may come as 32 bits where 64 should be used.
          value := Signed(value, if f.dataSize == 8 then 64 else 32);
        }
      }
      if !(f.dataSize == 8 || f.dataSize == 4 || f.dataSize == 2 || f.dataSize == 1) {
        return None;
      }
      // Cast to the size of the field, and check that nothing is lost.
      var clamped := if f.ltype.UVarintT? then value % Pow2(8 * f.dataSize) else Signed(value, 8 * f.dataSize);
      if clamped != value {
        return None;
      }
      return Some(clamped);
    }

    /** What is left of a string after its length n. */
    method ReadSized(ghost s: seq<byte>, n: nat) returns (bs: Option<seq<byte>>)
      requires Valid() && Decode32(s) == Some((n, Rest()))
      modifies this
      ensures Valid() && End() <= old(End()) && bs == Got(DecDelimited(s))
      ensures bs.Some? ==> At(DecDelimited(s).value.1, old(End()))
    {
      bs := Read(n);
    }

    method DecodeBlob(f: Field) returns (bs: Option<seq<byte>>)
      requires Valid()
      modifies this
      ensures Valid() && End() <= old(End()) && bs == Got(DecBlob(f, old(Rest())))
      ensures bs.Some? ==> At(DecBlob(f, old(Rest())).value.1, old(End()))
    {
      hide Decode32, DecDelimited;
      ghost var s := Rest();
      var size := DecodeVarint32();
      if size.None? {
        return None;
      }
      if f.ltype.FixedLengthBytesT? {
        if size.value > PB_SIZE_MAX {
          return None;
        }
        if size.value == 0 {
          return Some(Zeros(f.dataSize));
        }
        if size.value != f.dataSize {
          return None;
        }
      } else if f.ltype.BytesT? {
        if size.value > PB_SIZE_MAX || size.value + BYTES_HEADER > f.dataSize {
          return None;
        }
      } else if size.value + 1 > f.dataSize {
        return None;
      }
      bs := ReadSized(s, size.value);
    }

    method DecodeSubmessage(f: Field, prior: Value) returns (v: Option<Value>)
      requires Valid() && f.ltype.SubmessageT? && Distinct(f.sub)
      modifies this
      ensures Valid() && End() <= old(End()) && v == Got(DecValue(f, old(Rest()), prior))
      ensures v.Some? ==> At(DecValue(f, old(Rest()), prior).value.1, old(End()))
      decreases bytesLeft, 0
    {
      hide DecDelimited, DecNoInit, Distinct;
      ghost var d := DecDelimited(Rest());
      var sub := MakeStringSubstream();
      if sub == null {
        return None;
      }
      var slots;
      if f.htype.Array() || !prior.Rec? {
        slots := sub.Decode(f.sub);
      } else {
        slots := sub.DecodeNoInit(f.sub, prior.slots);
      }
      CloseStringSubstream(sub);
      if slots.None? {
        return None;
      }
      return Some(Rec(slots.value));
    }

    method DecodeValue(f: Field, prior: Value) returns (v: Option<Value>)
      requires Valid() && Distinct(f.sub)
      modifies this
      ensures Valid() && End() <= old(End()) && v == Got(DecValue(f, old(Rest()), prior))
      ensures v.Some? ==> At(DecValue(f, old(Rest()), prior).value.1, old(End()))
      decreases bytesLeft, 1
    {
      hide DecNumber, DecBlob, Distinct, DecDelimited, DecNoInit;
      if f.ltype.Packable() {
        var n := DecodeNumber(f);
        if n.None? { return None; }
        return Some(Num(n.value));
      }
      if !f.ltype.SubmessageT? {
        var bs := DecodeBlob(f);
        if bs.None? { return None; }
        return Some(Blob(bs.value));
      }
      v := DecodeSubmessage(f, prior);
    }

    /** A packed array: items until the string is used up or the array is full. */
    method DecodePacked(f: Field, prior: seq<Value>) returns (r: Option<seq<Value>>)
      requires Valid() && f.ltype.Packable()
      modifies this
      ensures Valid() && End() <= old(End())
      ensures r == var d := DecDelimited(old(Rest())); if d.None? then None else DecPacked(f, d.value.0, prior)
      ensures r.Some? ==> At(DecDelimited(old(Rest())).value.1, old(End()))
    {
      hide DecDelimited, DecNumber;
      ghost var d := DecDelimited(Rest());
      var sub := MakeStringSubstream();
      if sub == null {
        return None;
      }
      var items, status := prior, true;
      ghost var end := sub.End();
      while sub.bytesLeft > 0 && |items| < f.arraySize
        invariant Valid() && End() <= old(End()) && sub.Valid() && sub.source == source && status
        invariant sub.End() == end && end + bytesLeft == old(End()) && source[end..old(End())] == d.value.1
        invariant DecPacked(f, d.value.0, prior) == DecPacked(f, sub.Rest(), items)
        decreases sub.bytesLeft
      {
        var n := sub.DecodeNumber(f);
        if n.None? {
          status := false;
          break;
        }
        items := items + [Num(n.value)];
      }
      if !status || sub.bytesLeft != 0 {
        return None;
      }
      CloseStringSubstream(sub);
      return Some(items);
    }

    /** Field i of a message, into the struct that holds slots. */
    method DecodeStaticField(fields: seq<Field>, slots: seq<Slot>, i: nat, wireType: nat) returns (r: Option<seq<Slot>>)
      requires Valid() && |slots| == |fields| && i < |fields| && Distinct(fields)
      modifies this
      ensures Valid() && End() <= old(End()) && r == Got(DecStatic(fields, slots, i, wireType, old(Rest())))
      ensures r.Some? ==> At(DecStatic(fields, slots, i, wireType, old(Rest())).value.1, old(End()))
      decreases bytesLeft, 2
    {
      hide DecValue, DecDelimited, DecPacked, Distinct;
      var f, slot := fields[i], slots[i];
      assert Distinct(f.sub) by { DistinctBelow(fields, i); }
      if f.htype.Array() {
        if wireType == WT_STRING && f.ltype.Packable() {
          var items := DecodePacked(f, Items(slot));
          if items.None? { return None; }
          return Some(slots[i := Many(items.value)]);
        }
        if |Items(slot)| >= f.arraySize {
          return None;
        }
        var v := DecodeValue(f, DefaultValue(f));
        if v.None? { return None; }
        return Some(slots[i := Many(Items(slot) + [v.value])]);
      }
      var v := DecodeValue(f, Held(f, slot));
      if v.None? { return None; }
      if f.htype.OneOf? { return Some(Pick(fields, slots, i, v.value)); }
      if f.htype.Optional? { return Some(slots[i := Opt(true, v.value)]); }
      return Some(slots[i := One(v.value)]);
    }

    /** The key of the next field: a zero key ends the message early. */
    method DecodeTag() returns (key: Option<nat>)
      requires Valid()
      modifies this
      ensures Valid() && End() <= old(End()) && key == Got(Decode32(old(Rest())))
      ensures key.Some? ==> At(Decode32(old(Rest())).value.1, old(End()))
    {
      key := DecodeVarint32();
    }

    /** The field i, with the bookkeeping for fixed-count arrays and required fields. */
    method DecodeField(fields: seq<Field>, slots: seq<Slot>, fixedField: Option<nat>, fieldsSeen: array<nat>,
                       ghost seen: set<nat>, i: nat, required: nat, wireType: nat)
      returns (r: Option<seq<Slot>>, fixedField': Option<nat>, ghost seen': set<nat>)
      requires Valid() && Distinct(fields) && |slots| == |fields| && i < |fields| && required == RequiredBefore(fields, i)
      requires fixedField.Some? ==> fixedField.value < |fields|
      requires fieldsSeen.Length == 2 && Tracks(fieldsSeen[..], seen) && SeenRequired(fields, seen)
      modifies this, fieldsSeen
      ensures Valid() && End() <= old(End()) && Tracks(fieldsSeen[..], seen') && SeenRequired(fields, seen')
      ensures fixedField'.Some? ==> fixedField'.value < |fields|
      ensures var d := DecField(fields, State(slots, seen, fixedField), i, wireType, old(Rest()));
              && r.Some? == d.Some?
              && (r.Some? ==> d.value.0 == State(r.value, seen', fixedField') && At(d.value.1, old(End())))
      decreases bytesLeft, 3
    {
      hide DecStatic, Distinct, Tracks, RequiredBefore, Pow2, Or;
      var slots' := slots;
      fixedField', seen' := fixedField, seen;
      if fields[i].htype.FixedCount? && fixedField != Some(i) {
        if fixedField.Some? && |Items(slots[fixedField.value])| != fields[fixedField.value].arraySize {
          return None, fixedField', seen';
        }
        fixedField', slots' := Some(i), slots[i := Many([])];
      }
      if fields[i].htype.Required? && required < PB_MAX_REQUIRED_FIELDS {
        NoteOne(fieldsSeen[..], seen, required);
        fieldsSeen[required / 32] := Or(fieldsSeen[required / 32], Pow2(required % 32));
        seen' := seen + {required};
        RequiredCounted(fields, i);
      }
      assert NoteRequired(fields, EnterFixed(fields, State(slots, seen, fixedField), i).value, i)
          == State(slots', seen', fixedField');
      r := DecodeStaticField(fields, slots', i, wireType);
    }

    /** Reads fields into the struct that holds start until the stream ends. */
    method DecodeNoInit(fields: seq<Field>, start: seq<Slot>) returns (r: Option<seq<Slot>>)
      requires Valid() && Distinct(fields)
      modifies this
      ensures Valid() && End() <= old(End()) && r == DecNoInit(fields, old(Rest()), start)
      ensures r.Some? ==> End() == old(End())
      decreases bytesLeft, 4
    {
      hide Loop, DecField, SkipField, Decode32, Distinct, Tracks, SeenRequired, RequiredBefore;
      hide FixedComplete, AllRequiredSeen, Find;
      if |start| != |fields| {
        // Not a struct of this type.
        return None;
      }
      var fieldsSeen := new nat[2](_ => 0);
      assert fieldsSeen[..] == [0, 0];
      NoneSeen();
      NoneRequired(fields);
      var slots, fixedField: Option<nat> := start, None;
      ghost var s, seen := Rest(), {};
      var iter := new FieldIter(fields);
      while bytesLeft > 0
        invariant Valid() && End() == old(End()) && iter.Valid() && iter.fields == fields
        invariant fieldsSeen.Length == 2 && Tracks(fieldsSeen[..], seen) && SeenRequired(fields, seen)
        invariant |slots| == |fields| && (fixedField.Some? ==> fixedField.value < |fields|)
        invariant Loop(fields, State(start, {}, None), s) == Loop(fields, State(slots, seen, fixedField), Rest())
        decreases bytesLeft
      {
        LoopStep(fields, State(slots, seen, fixedField), Rest());
        var key := DecodeTag();
        if key.None? {
          return None;
        }
        if key.value == 0 {
          assert Loop(fields, State(start, {}, None), s) == Some(State(slots, seen, fixedField));
          break;
        }
        var tag, wireType := key.value / 8, key.value % 8;
        var found := iter.Seek(tag);
        if !found {
          var skipped := SkipUnknown(wireType);
          if !skipped {
            return None;
          }
          continue;
        }
        if |fields| == 0 {
          // The end marker taken for a field: its type has no size.
          return None;
        }
        DistinctTags(fields);
        SeekIsFind(fields, tag, iter.pos);
        var decoded;
        decoded, fixedField, seen :=
          DecodeField(fields, slots, fixedField, fieldsSeen, seen, iter.pos, iter.requiredFieldIndex, wireType);
        if decoded.None? {
          return None;
        }
        slots := decoded.value;
      }
      LoopEnd(fields, State(slots, seen, fixedField));
      assert bytesLeft == 0 ==> Rest() == [];
      var finished := Finished(slots, fixedField, iter, fieldsSeen, seen);
      return if finished then Some(slots) else None;
    }

    /** Reads a message into a struct first set to defaults. */
    method Decode(fields: seq<Field>) returns (r: Option<seq<Slot>>)
      requires Valid() && Distinct(fields)
      modifies this
      ensures Valid() && End() <= old(End()) && r == DecMessage(fields, old(Rest()))
      ensures r.Some? ==> End() == old(End())
      decreases bytesLeft, 5
    {
      r := DecodeNoInit(fields, Defaults(fields));
    }
  }

  /** Only numbers of required fields are noted. */
  ghost predicate SeenRequired(fields: seq<Field>, seen: set<nat>) {
    forall n <- seen :: n < RequiredBefore(fields, |fields|)
  }

  /** The checks at the end of a message: the last fixed-count array is complete, and all
      required fields were seen. */
  method Finished(slots: seq<Slot>, fixedField: Option<nat>, iter: FieldIter, fieldsSeen: array<nat>, ghost seen: set<nat>)
    returns (ok: bool)
    requires iter.Valid() && |slots| == |iter.fields| && (fixedField.Some? ==> fixedField.value < |iter.fields|)
    requires fieldsSeen.Length == 2 && Tracks(fieldsSeen[..], seen) && SeenRequired(iter.fields, seen)
    modifies iter
    ensures ok == (FixedComplete(iter.fields, State(slots, seen, fixedField)) && AllRequiredSeen(iter.fields, seen))
  {
    hide Tracks, RequiredBefore;
    if fixedField.Some? && |Items(slots[fixedField.value])| != iter.fields[fixedField.value].arraySize {
      return false;
    }
    var count := CountRequired(iter);
    SeenRequiredBelow(iter.fields, seen);
    ok := AllSeen(fieldsSeen, seen, count);
  }

  lemma NoneRequired(fields: seq<Field>)
    ensures SeenRequired(fields, {})
  {
  }

  lemma SeenRequiredBelow(fields: seq<Field>, seen: set<nat>)
    requires SeenRequired(fields, seen)
    ensures forall n <- seen :: n < RequiredBefore(fields, |fields|)
  {
  }

  lemma {:induction false} RequiredMonotone(fields: seq<Field>, i: nat, j: nat)
    requires i <= j <= |fields|
    ensures RequiredBefore(fields, i) <= RequiredBefore(fields, j)
    decreases j
  {
    if i < j {
      RequiredMonotone(fields, i, j - 1);
    }
  }

  lemma RequiredCounted(fields: seq<Field>, i: nat)
    requires i < |fields| && fields[i].htype.Required?
    ensures RequiredBefore(fields, i) < RequiredBefore(fields, |fields|)
  {
    RequiredMonotone(fields, i + 1, |fields|);
  }

  /** Counts the required fields by taking the iterator on to the end. */
  method CountRequired(iter: FieldIter) returns (count: nat)
    requires iter.Valid()
    modifies iter
    ensures count == RequiredBefore(iter.fields, |iter.fields|)
  {
    hide RequiredBefore;
    count := iter.requiredFieldIndex;
    if |iter.fields| == 0 {
      return;
    }
    var last := iter.pos;
    var more := iter.Next();
    while more
      invariant iter.Valid() && last < |iter.fields| && more == (last + 1 < |iter.fields|)
      invariant more ==> iter.pos == last + 1
      invariant count == RequiredBefore(iter.fields, last)
      decreases |iter.fields| - last
    {
      count, last := iter.requiredFieldIndex, iter.pos;
      more := iter.Next();
    }
    OneMore(iter.fields, last);
    if iter.fields[last].htype.Required? {
      count := count + 1;
    }
  }

  lemma OneMore(fields: seq<Field>, i: nat)
    requires i < |fields|
    ensures RequiredBefore(fields, i + 1) == RequiredBefore(fields, i) + (if fields[i].htype.Required? then 1 else 0)
  {
  }

  lemma LoopStep(fields: seq<Field>, st: State, s: seq<byte>)
    requires |st.slots| == |fields| && |s| > 0
    ensures Loop(fields, st, s) == match OneTurn(fields, st, s)
              case Bad => None
              case Done => Some(st)
              case Next(st', rest) => Loop(fields, st', rest)
  {
  }

  lemma LoopEnd(fields: seq<Field>, st: State)
    requires |st.slots| == |fields|
    ensures Loop(fields, st, []) == Some(st)
  {
  }

  lemma DistinctTags(fields: seq<Field>)
    requires Distinct(fields)
    ensures forall i, j | 0 <= i < j < |fields| :: fields[i].tag != fields[j].tag
  {
  }

  lemma DistinctBelow(fields: seq<Field>, i: nat)
    requires Distinct(fields) && i < |fields|
    ensures Distinct(fields[i].sub)
  {
    assert fields[i] in fields;
  }
}
