/** What the decoder can put into a struct, whatever it is given: values of the types and
    in the bounds of their fields. */
module NanopbBounds {
  import opened Bits
  import opened Bytes
  import opened Wire
  import opened NanopbMessage
  import opened NanopbEncode
  import opened NanopbDecode

  /** A value the field has memory for. */
  ghost predicate InBounds(f: Field, v: Value)
    decreases f, 0
  {
    if f.ltype.Packable() then v.Num? && InRange(f, v.n)
    else if f.ltype.BytesT? then v.Blob? && |v.bs| + BYTES_HEADER <= f.dataSize && |v.bs| <= PB_SIZE_MAX
    else if f.ltype.StringT? then v.Blob? && |v.bs| + 1 <= f.dataSize
    else if f.ltype.FixedLengthBytesT? then v.Blob? && |v.bs| == f.dataSize
    else v.Rec? && StructInBounds(f.sub, v.slots)
  }

  /** The slot holds its default, or values in bounds, as many as there is room for. */
  ghost predicate SlotInBounds(f: Field, s: Slot)
    decreases f, 1
  {
    s == DefaultSlot(f)
    || match f.htype
       case Required => s.One? && InBounds(f, s.v)
       case Singular => s.One? && InBounds(f, s.v)
       case Optional => s.Opt? && InBounds(f, s.v)
       case Repeated => s.Many? && |s.items| <= f.arraySize && forall v <- s.items :: InBounds(f, v)
       case FixedCount => s.Many? && |s.items| <= f.arraySize && forall v <- s.items :: InBounds(f, v)
       case OneOf(_) => s.Choice? && (s.picked.Some? ==> InBounds(f, s.picked.value))
  }

  /** Every slot is in bounds, and of each union at most one member is picked. */
  ghost predicate StructInBounds(fields: seq<Field>, slots: seq<Slot>)
    decreases fields, 0
  {
    && |slots| == |fields| && (forall i | 0 <= i < |fields| :: SlotInBounds(fields[i], slots[i]))
    && forall i, j | 0 <= i < j < |fields| && SameUnion(fields[i], fields[j]) :: !(Picked(slots[i]) && Picked(slots[j]))
  }

  /** Integer fields have the size of a C integer. */
  predicate SizesOk(fields: seq<Field>) {
    forall f <- fields :: (f.ltype in {VarintT, UVarintT, SVarintT} ==> ValidSize(f)) && SizesOk(f.sub)
  }

  lemma DefaultsInBounds(fields: seq<Field>)
    ensures StructInBounds(fields, Defaults(fields))
  {
    forall i | 0 <= i < |fields| ensures Defaults(fields)[i] == DefaultSlot(fields[i]) {
      DefaultsAt(fields, i);
    }
  }

  // Values.

  lemma SignedInRange(n: int, bits: nat)
    requires bits > 0
    ensures 0 - Pow2(bits - 1) <= Signed(n, bits) < Pow2(bits - 1)
  {
    assert Pow2(bits) == 2 * Pow2(bits - 1);
  }

  lemma {:induction false} LeBelow(bs: seq<byte>)
    ensures Le(bs) < Pow2(8 * |bs|)
  {
    if |bs| > 0 {
      LeBelow(bs[1..]);
      Pow2By8(|bs| - 1);
    }
  }

  /** A number that is read is in the range of its field: the overflow checks see to it. */
  lemma NumberInRange(f: Field, s: seq<byte>)
    requires f.ltype.Packable() && (f.ltype in {VarintT, UVarintT, SVarintT} ==> ValidSize(f))
    ensures DecNumber(f, s).Some? ==> InRange(f, DecNumber(f, s).value.0)
  {
    hide Decode64, Signed, Pow2, Le, UnZigZag;
    Pow2Widths();
    if f.ltype.Fixed32T? {
      if |s| >= 4 { LeBelow(s[..4]); }
    } else if f.ltype.Fixed64T? {
      if |s| >= 8 { LeBelow(s[..8]); }
    } else if Decode64(s).Some? {
      var n := Decode64(s).value.0;
      if f.ltype.SVarintT? {
        SignedInRange(UnZigZag(n), 8 * f.dataSize);
      } else if f.ltype.VarintT? {
        SignedInRange(Signed(n, if f.dataSize == 8 then 64 else 32), 8 * f.dataSize);
      }
    }
  }

  lemma BlobInBounds(f: Field, s: seq<byte>)
    requires !f.ltype.Packable() && !f.ltype.SubmessageT?
    ensures DecBlob(f, s).Some? ==> InBounds(f, Blob(DecBlob(f, s).value.0))
  {
    hide Decode32;
  }

  lemma {:induction false} ValueInBounds(f: Field, s: seq<byte>, prior: Value)
    requires SizesOk([f])
    requires f.ltype.SubmessageT? && !f.htype.Array() && prior.Rec? ==> StructInBounds(f.sub, prior.slots)
    ensures DecValue(f, s, prior).Some? ==> InBounds(f, DecValue(f, s, prior).value.0)
    decreases |s|, 0
  {
    assert f in [f];
    if f.ltype.Packable() {
      NumberInRange(f, s);
    } else if !f.ltype.SubmessageT? {
      BlobInBounds(f, s);
    } else if DecDelimited(s).Some? {
      var start := if f.htype.Array() || !prior.Rec? then Defaults(f.sub) else prior.slots;
      DefaultsInBounds(f.sub);
      DecodedInBounds(f.sub, DecDelimited(s).value.0, start);
    }
  }

  lemma {:induction false} PackedInBounds(f: Field, s: seq<byte>, items: seq<Value>)
    requires SizesOk([f]) && f.ltype.Packable() && |items| <= f.arraySize && forall v <- items :: InBounds(f, v)
    ensures var r := DecPacked(f, s, items);
            r.Some? ==> |r.value| <= f.arraySize && forall v <- r.value :: InBounds(f, v)
    decreases |s|, 1
  {
    if |s| > 0 && |items| < f.arraySize {
      var d := DecValue(f, s, Num(0));
      ValueInBounds(f, s, Num(0));
      if d.Some? {
        PackedInBounds(f, d.value.1, items + [d.value.0]);
      }
    }
  }

  /** What is held for a field is in bounds, or the default. */
  lemma HeldInBounds(f: Field, s: Slot)
    requires SlotInBounds(f, s) && f.ltype.SubmessageT?
    ensures Held(f, s).Rec? ==> StructInBounds(f.sub, Held(f, s).slots)
  {
    DefaultsInBounds(f.sub);
    hide StructInBounds;
    assert DefaultValue(f) == Rec(Defaults(f.sub));
    hide Defaults;
    assert s == DefaultSlot(f) ==> Held(f, s) == DefaultValue(f);
  }

  /** One field, read into a struct in bounds. */
  lemma {:induction false} FieldInBounds(fields: seq<Field>, slots: seq<Slot>, i: nat, wireType: nat, s: seq<byte>)
    requires SizesOk(fields) && StructInBounds(fields, slots) && i < |fields| == |slots|
    ensures var r := DecStatic(fields, slots, i, wireType, s); r.Some? ==> StructInBounds(fields, r.value.0)
    decreases |s|, 2
  {
    var f, slot := fields[i], slots[i];
    var r := DecStatic(fields, slots, i, wireType, s);
    if r.None? {
      return;
    }
    assert SizesOk([f]) && SlotInBounds(f, slot);
    if f.ltype.SubmessageT? {
      HeldInBounds(f, slot);
    }
    if f.htype.Array() && wireType == WT_STRING && f.ltype.Packable() {
      PackedInBounds(f, DecDelimited(s).value.0, Items(slot));
    } else if f.htype.Array() {
      ValueInBounds(f, s, DefaultValue(f));
    } else {
      ValueInBounds(f, s, Held(f, slot));
    }
    hide DecValue, DecDelimited, DecPacked, InBounds, DefaultSlot;
    forall k | 0 <= k < |fields| ensures SlotInBounds(fields[k], r.value.0[k]) {
      assert SlotInBounds(fields[k], slots[k]);
    }
  }

  /** Whatever the input, what is decoded into a struct in bounds leaves it in bounds. */
  lemma {:induction false} DecodedInBounds(fields: seq<Field>, s: seq<byte>, slots: seq<Slot>)
    requires SizesOk(fields) && StructInBounds(fields, slots)
    ensures DecNoInit(fields, s, slots).Some? ==> StructInBounds(fields, DecNoInit(fields, s, slots).value)
    decreases |s|, 6
  {
    LoopInBounds(fields, State(slots, {}, None), s);
  }

  lemma {:induction false} LoopInBounds(fields: seq<Field>, st: State, s: seq<byte>)
    requires SizesOk(fields) && StructInBounds(fields, st.slots)
    ensures Loop(fields, st, s).Some? ==> StructInBounds(fields, Loop(fields, st, s).value.slots)
    decreases |s|, 5
  {
    if |s| > 0 && OneTurn(fields, st, s).Next? {
      var t := OneTurn(fields, st, s);
      TurnInBounds(fields, st, s);
      LoopInBounds(fields, t.st, t.rest);
    }
  }

  lemma {:induction false} TurnInBounds(fields: seq<Field>, st: State, s: seq<byte>)
    requires SizesOk(fields) && StructInBounds(fields, st.slots) && |s| > 0
    ensures OneTurn(fields, st, s).Next? ==> StructInBounds(fields, OneTurn(fields, st, s).st.slots)
    decreases |s|, 4
  {
    var key := Decode32(s);
    if key.Some? && Find(fields, key.value.0 / 8).Some? {
      var i := Find(fields, key.value.0 / 8).value;
      var entered := EnterFixed(fields, st, i);
      if entered.Some? {
        if fields[i].htype.FixedCount? {
          EmptiedInBounds(fields, st.slots, i);
        }
        FieldInBounds(fields, NoteRequired(fields, entered.value, i).slots, i, key.value.0 % 8, key.value.1);
      }
    }
  }

  lemma EmptiedInBounds(fields: seq<Field>, slots: seq<Slot>, i: nat)
    requires StructInBounds(fields, slots) && i < |fields| == |slots| && fields[i].htype.FixedCount?
    ensures StructInBounds(fields, slots[i := Many([])])
  {
    hide InBounds;
    assert DefaultSlot(fields[i]) == Many([]);
    forall k | 0 <= k < |fields| ensures SlotInBounds(fields[k], slots[i := Many([])][k]) {
      assert SlotInBounds(fields[k], slots[k]);
    }
  }

  /** Into a struct set to defaults. */
  lemma MessageInBounds(fields: seq<Field>, s: seq<byte>)
    requires SizesOk(fields)
    ensures DecMessage(fields, s).Some? ==> StructInBounds(fields, DecMessage(fields, s).value)
  {
    DefaultsInBounds(fields);
    DecodedInBounds(fields, s, Defaults(fields));
  }
}
