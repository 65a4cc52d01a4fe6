/**
 What several records of one field come to: messages joined end to end are one message,
 submessages are merged, and of plain values the last one counts.
 */
module NanopbMerge {
  import opened Bits
  import opened Bytes
  import opened Wire
  import opened NanopbMessage
  import opened NanopbEncode
  import opened NanopbDecode
  import opened NanopbRoundTrip

  // What is read does not depend on what follows it.

  lemma Splits(s: seq<byte>, more: seq<byte>, n: nat)
    requires n <= |s|
    ensures (s + more)[..n] == s[..n] && (s + more)[n..] == s[n..] + more
  {
  }

  lemma {:induction false} Varint64Stays(s: seq<byte>, more: seq<byte>, bitPos: nat, result: nat)
    requires Decode64From(s, bitPos, result).Some?
    ensures var d := Decode64From(s, bitPos, result).value;
            Decode64From(s + more, bitPos, result) == Some((d.0, d.1 + more))
    decreases |s|
  {
    hide Or, Low7, Pow2;
    Splits(s, more, 1);
    if More(s[0]) {
      Varint64Stays(s[1..], more, bitPos + 7, Or(result, Low7(s[0]) * Pow2(bitPos) % TWO_64));
    }
  }

  lemma {:induction false} Varint32Stays(s: seq<byte>, more: seq<byte>, bitPos: nat, result: nat)
    requires Decode32From(s, bitPos, result).Some?
    ensures var d := Decode32From(s, bitPos, result).value;
            Decode32From(s + more, bitPos, result) == Some((d.0, d.1 + more))
    decreases |s|
  {
    hide Accept32;
    Splits(s, more, 1);
    if More(s[0]) {
      Varint32Stays(s[1..], more, (bitPos + 7) % 256, Accept32(s[0], bitPos, result).value);
    }
  }

  lemma LengthStays(s: seq<byte>, more: seq<byte>)
    requires Decode32(s).Some?
    ensures Decode32(s + more) == Some((Decode32(s).value.0, Decode32(s).value.1 + more))
  {
    Splits(s, more, 1);
    if More(s[0]) {
      Varint32Stays(s[1..], more, 7, Low7(s[0]));
    }
  }

  lemma NumberStays(f: Field, s: seq<byte>, more: seq<byte>)
    requires DecNumber(f, s).Some?
    ensures DecNumber(f, s + more) == Some((DecNumber(f, s).value.0, DecNumber(f, s).value.1 + more))
  {
    hide Decode64From, Le, Signed, UnZigZag, ValidSize;
    if f.ltype.Fixed32T? {
      Splits(s, more, 4);
    } else if f.ltype.Fixed64T? {
      Splits(s, more, 8);
    } else {
      Varint64Stays(s, more, 0, 0);
    }
  }

  lemma StringStays(s: seq<byte>, more: seq<byte>)
    requires DecDelimited(s).Some?
    ensures DecDelimited(s + more) == Some((DecDelimited(s).value.0, DecDelimited(s).value.1 + more))
  {
    hide Decode32;
    LengthStays(s, more);
    Splits(Decode32(s).value.1, more, Decode32(s).value.0);
  }

  lemma BlobStays(f: Field, s: seq<byte>, more: seq<byte>)
    requires DecBlob(f, s).Some?
    ensures DecBlob(f, s + more) == Some((DecBlob(f, s).value.0, DecBlob(f, s).value.1 + more))
  {
    hide Decode32, DecDelimited, Zeros;
    LengthStays(s, more);
    if DecDelimited(s).Some? {
      StringStays(s, more);
    }
  }

  lemma ValueStays(f: Field, s: seq<byte>, more: seq<byte>, prior: Value)
    requires DecValue(f, s, prior).Some?
    ensures DecValue(f, s + more, prior) == Some((DecValue(f, s, prior).value.0, DecValue(f, s, prior).value.1 + more))
  {
    hide DecNumber, DecBlob, DecDelimited, DecNoInit, Defaults;
    if f.ltype.Packable() {
      NumberStays(f, s, more);
    } else if !f.ltype.SubmessageT? {
      BlobStays(f, s, more);
    } else {
      StringStays(s, more);
    }
  }

  lemma {:induction false} SkippedVarintStays(s: seq<byte>, more: seq<byte>)
    requires SkipVarint(s).Some?
    ensures SkipVarint(s + more) == Some(SkipVarint(s).value + more)
    decreases |s|
  {
    Splits(s, more, 1);
    if More(s[0]) {
      SkippedVarintStays(s[1..], more);
    }
  }

  lemma SkippedStays(s: seq<byte>, wireType: nat, more: seq<byte>)
    requires SkipField(s, wireType).Some?
    ensures SkipField(s + more, wireType) == Some(SkipField(s, wireType).value + more)
  {
    hide Decode32, SkipVarint;
    if wireType == WT_VARINT {
      SkippedVarintStays(s, more);
    } else if wireType == WT_STRING {
      LengthStays(s, more);
      Splits(Decode32(s).value.1, more, Decode32(s).value.0);
    } else {
      Splits(s, more, if wireType == WT_64BIT then 8 else 4);
    }
  }

  lemma StaticStays(fields: seq<Field>, slots: seq<Slot>, i: nat, wireType: nat, s: seq<byte>, more: seq<byte>)
    requires |slots| == |fields| && i < |fields| && DecStatic(fields, slots, i, wireType, s).Some?
    ensures var d := DecStatic(fields, slots, i, wireType, s).value;
            DecStatic(fields, slots, i, wireType, s + more) == Some((d.0, d.1 + more))
  {
    hide DecValue, DecDelimited, DecPacked, Pick, Held, DefaultValue;
    var f := fields[i];
    if f.htype.Array() && wireType == WT_STRING && f.ltype.Packable() {
      StringStays(s, more);
    } else {
      ValueStays(f, s, more, if f.htype.Array() then DefaultValue(f) else Held(f, slots[i]));
    }
  }

  lemma TurnStays(fields: seq<Field>, st: State, s: seq<byte>, more: seq<byte>)
    requires |st.slots| == |fields| && OneTurn(fields, st, s).Next?
    ensures OneTurn(fields, st, s + more) == Next(OneTurn(fields, st, s).st, OneTurn(fields, st, s).rest + more)
  {
    hide DecStatic, SkipField, Decode32, EnterFixed, NoteRequired;
    LengthStays(s, more);
    var key := Decode32(s).value;
    var i := Find(fields, key.0 / 8);
    if i.None? {
      SkippedStays(key.1, key.0 % 8, more);
    } else {
      var entered := NoteRequired(fields, EnterFixed(fields, st, i.value).value, i.value);
      StaticStays(fields, entered.slots, i.value, key.0 % 8, key.1, more);
    }
  }

  // Messages joined end to end.

  /** The loop reads all of s, and meets no zero tag. */
  ghost predicate ReadsAll(fields: seq<Field>, st: State, s: seq<byte>)
    requires |st.slots| == |fields|
    decreases |s|
  {
    |s| == 0
    || var t := OneTurn(fields, st, s);
       t.Next? && ReadsAll(fields, t.st, t.rest)
  }

  lemma {:induction false} LoopJoins(fields: seq<Field>, st: State, a: seq<byte>, b: seq<byte>)
    requires |st.slots| == |fields| && ReadsAll(fields, st, a)
    ensures Loop(fields, st, a).Some? && Loop(fields, st, a + b) == Loop(fields, Loop(fields, st, a).value, b)
    decreases |a|
  {
    hide OneTurn;
    if |a| == 0 {
      assert a + b == b;
    } else {
      var t := OneTurn(fields, st, a);
      TurnStays(fields, st, a, b);
      LoopJoins(fields, t.st, t.rest, b);
    }
  }

  /** Nothing must be there, and no array must be full. */
  predicate Lenient(fields: seq<Field>) {
    forall f <- fields :: !f.htype.Required? && !f.htype.FixedCount?
  }

  lemma LenientTurn(fields: seq<Field>, st: State, s: seq<byte>)
    requires |st.slots| == |fields| && Lenient(fields) && OneTurn(fields, st, s).Next?
    ensures var next := OneTurn(fields, st, s).st; next.seen == st.seen && next.fixedField == st.fixedField
  {
    hide DecStatic, SkipField, Decode32, FixedComplete;
    var i := Find(fields, Decode32(s).value.0 / 8);
    assert i.Some? ==> fields[i.value] in fields;
  }

  lemma {:induction false} LenientLoop(fields: seq<Field>, st: State, s: seq<byte>)
    requires |st.slots| == |fields| && Lenient(fields) && ReadsAll(fields, st, s)
    ensures var end := Loop(fields, st, s);
            end.Some? && end.value == State(end.value.slots, st.seen, st.fixedField)
    decreases |s|
  {
    hide OneTurn, Lenient;
    if |s| > 0 {
      LenientTurn(fields, st, s);
      LenientLoop(fields, OneTurn(fields, st, s).st, OneTurn(fields, st, s).rest);
    }
  }

  lemma {:induction false} NoneRequired(fields: seq<Field>, i: nat)
    requires Lenient(fields) && i <= |fields|
    ensures RequiredBefore(fields, i) == 0
  {
    if i > 0 {
      assert fields[i - 1] in fields;
      NoneRequired(fields, i - 1);
    }
  }

  /** Reading two messages one on top of the other is reading them as one. */
  lemma MessagesJoin(fields: seq<Field>, slots: seq<Slot>, a: seq<byte>, b: seq<byte>)
    requires |slots| == |fields| && Lenient(fields) && ReadsAll(fields, State(slots, {}, None), a)
    ensures var first := DecNoInit(fields, a, slots);
            first.Some? && DecNoInit(fields, a + b, slots) == DecNoInit(fields, b, first.value)
  {
    hide Loop, ReadsAll, Lenient;
    var start := State(slots, {}, None);
    NoneRequired(fields, |fields|);
    LenientLoop(fields, start, a);
    LoopJoins(fields, start, a, b);
  }

  // Records of one field.

  /** A submessage in two records is merged: the records leave what one record with both
      contents leaves. */
  lemma SubmessagesMerge(fields: seq<Field>, slots: seq<Slot>, i: nat, a: seq<byte>, b: seq<byte>, rest: seq<byte>)
    requires |slots| == |fields| && i < |fields| && |a + b| < TWO_32
    requires fields[i].ltype.SubmessageT? && (fields[i].htype.Optional? || fields[i].htype.Singular?)
    requires Lenient(fields[i].sub)
    requires var held := Held(fields[i], slots[i]);
             var start := if held.Rec? then held.slots else Defaults(fields[i].sub);
             |start| == |fields[i].sub| && ReadsAll(fields[i].sub, State(start, {}, None), a)
    ensures var first := DecStatic(fields, slots, i, WT_STRING, Delimited(a) + rest);
            && first.Some? && first.value.1 == rest
            && DecStatic(fields, first.value.0, i, WT_STRING, Delimited(b) + rest)
               == DecStatic(fields, slots, i, WT_STRING, Delimited(a + b) + rest)
  {
    hide Delimited, DecDelimited, DecNoInit, ReadsAll, Lenient, Defaults;
    var f := fields[i];
    var held := Held(f, slots[i]);
    var start := if held.Rec? then held.slots else Defaults(f.sub);
    DelimitedRoundTrip(a, rest);
    DelimitedRoundTrip(b, rest);
    DelimitedRoundTrip(a + b, rest);
    MessagesJoin(f.sub, start, a, b);
    assert !f.ltype.Packable() && !f.htype.Array() && !f.htype.OneOf?;
    var one := DecNoInit(f.sub, a, start).value;
    assert DecValue(f, Delimited(a) + rest, held) == Some((Rec(one), rest));
    assert DecValue(f, Delimited(b) + rest, Rec(one)) == DecValue(f, Delimited(a + b) + rest, held);
    var first := DecStatic(fields, slots, i, WT_STRING, Delimited(a) + rest).value.0;
    assert Held(f, first[i]) == Rec(one);
    if DecNoInit(f.sub, b, one).Some? {
      forall x, y: Slot {
        UpdatedTwice(slots, i, x, y);
      }
    }
  }

  /** Of two records of a field that is no submessage and no array, the last counts. */
  lemma LastCounts(fields: seq<Field>, slots: seq<Slot>, i: nat, wireType: nat, a: seq<byte>, b: seq<byte>)
    requires |slots| == |fields| && i < |fields| && !fields[i].htype.Array() && !fields[i].ltype.SubmessageT?
    requires DecStatic(fields, slots, i, wireType, a).Some?
    ensures DecStatic(fields, DecStatic(fields, slots, i, wireType, a).value.0, i, wireType, b)
         == DecStatic(fields, slots, i, wireType, b)
  {
    hide DecNumber, DecBlob;
    var first := DecStatic(fields, slots, i, wireType, a).value.0;
    if DecStatic(fields, slots, i, wireType, b).Some? {
      var v := DecValue(fields[i], b, Held(fields[i], slots[i])).value.0;
      forall x, y: Slot {
        UpdatedTwice(slots, i, x, y);
      }
      if fields[i].htype.OneOf? {
        assert Pick(fields, first, i, v) == Pick(fields, slots, i, v);
      }
    }
  }
}
