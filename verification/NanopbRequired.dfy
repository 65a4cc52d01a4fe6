/** What a message must hold for the decoder to accept it: its required fields, and whole
    fixed-count arrays. */
module NanopbRequired {
  import opened Bits
  import opened Bytes
  import opened Wire
  import opened NanopbMessage
  import opened NanopbEncode
  import opened NanopbDecode
  import opened NanopbRoundTrip
  import opened NanopbUnknown

  /** The tags a message is read with, turn by turn. */
  function TagsRead(fields: seq<Field>, st: State, s: seq<byte>): set<nat>
    requires |st.slots| == |fields|
    decreases |s|
  {
    if |s| == 0 then {}
    else match OneTurn(fields, st, s)
      case Next(st', rest) => {Decode32(s).value.0 / 8} + TagsRead(fields, st', rest)
      case _ => {}
  }

  /** The decoder insists on the first 64 required fields. */
  predicate InsistsOn(fields: seq<Field>, i: nat) {
    i < |fields| && fields[i].htype.Required? && RequiredBefore(fields, i) < PB_MAX_REQUIRED_FIELDS
  }

  /** A number that is noted is that of a required field whose tag was just read. */
  lemma TurnNotes(fields: seq<Field>, st: State, s: seq<byte>, n: nat)
    requires |st.slots| == |fields| && OneTurn(fields, st, s).Next?
    ensures var t := OneTurn(fields, st, s);
            n in t.st.seen ==> n in st.seen || exists i: nat :: NumberOf(fields, i, n) && fields[i].tag == Decode32(s).value.0 / 8
  {
    hide DecStatic, SkipField, Decode32, RequiredBefore, FixedComplete;
    var i := Find(fields, Decode32(s).value.0 / 8);
    if i.Some? {
      assert RequiredBefore(fields, i.value) == n && fields[i.value].htype.Required? ==> NumberOf(fields, i.value, n);
    }
  }

  predicate NumberOf(fields: seq<Field>, i: nat, n: nat) {
    i < |fields| && fields[i].htype.Required? && RequiredBefore(fields, i) == n
  }

  lemma {:induction false} LoopNotes(fields: seq<Field>, st: State, s: seq<byte>, n: nat)
    requires |st.slots| == |fields| && Loop(fields, st, s).Some?
    ensures n in Loop(fields, st, s).value.seen ==>
              n in st.seen || exists i: nat :: NumberOf(fields, i, n) && fields[i].tag in TagsRead(fields, st, s)
    decreases |s|
  {
    hide OneTurn, Decode32, NumberOf;
    if |s| > 0 && OneTurn(fields, st, s).Next? {
      var t := OneTurn(fields, st, s);
      TurnNotes(fields, st, s, n);
      LoopNotes(fields, t.st, t.rest, n);
    }
  }

  lemma {:induction false} NumbersAreDistinct(fields: seq<Field>, i: nat, j: nat)
    requires i < j <= |fields| && fields[i].htype.Required?
    ensures RequiredBefore(fields, i) < RequiredBefore(fields, j)
    decreases j
  {
    if i + 1 < j {
      NumbersAreDistinct(fields, i, j - 1);
    }
  }

  /** Whatever is decoded, at any depth and on top of whatever struct: the tag of each
      required field the decoder insists on was read. */
  lemma RequiredTagsRead(fields: seq<Field>, s: seq<byte>, slots: seq<Slot>, i: nat)
    requires DecNoInit(fields, s, slots).Some? && InsistsOn(fields, i)
    ensures fields[i].tag in TagsRead(fields, State(slots, {}, None), s)
  {
    hide Loop, FixedComplete, RequiredBefore, TagsRead;
    var n, st := RequiredBefore(fields, i), State(slots, {}, None);
    NumbersAreDistinct(fields, i, |fields|);
    assert n in Loop(fields, st, s).value.seen;
    LoopNotes(fields, st, s, n);
    var j: nat :| NumberOf(fields, j, n) && fields[j].tag in TagsRead(fields, st, s);
    if i < j { NumbersAreDistinct(fields, i, j); }
    if j < i { NumbersAreDistinct(fields, j, i); }
  }

  // In terms of what an encoder writes.

  /** How much a value takes does not depend on what it is merged into. */
  lemma ValueRest(f: Field, s: seq<byte>, p: Value, q: Value)
    requires DecValue(f, s, p).Some? && DecValue(f, s, q).Some?
    ensures DecValue(f, s, p).value.1 == DecValue(f, s, q).value.1
  {
    hide DecNumber, DecBlob, DecDelimited, DecNoInit, Defaults;
  }

  lemma StaticRest(fields: seq<Field>, a: seq<Slot>, b: seq<Slot>, i: nat, wireType: nat, s: seq<byte>)
    requires |a| == |b| == |fields| && i < |fields|
    requires DecStatic(fields, a, i, wireType, s).Some? && DecStatic(fields, b, i, wireType, s).Some?
    ensures DecStatic(fields, a, i, wireType, s).value.1 == DecStatic(fields, b, i, wireType, s).value.1
  {
    hide DecValue, DecDelimited, DecPacked, Held, Pick;
    var f := fields[i];
    if DecValue(f, s, Held(f, a[i])).Some? && DecValue(f, s, Held(f, b[i])).Some? {
      ValueRest(f, s, Held(f, a[i]), Held(f, b[i]));
    }
  }

  /** Where a turn ends does not depend on the state it is taken in. */
  lemma TurnRest(fields: seq<Field>, st: State, other: State, s: seq<byte>)
    requires |st.slots| == |other.slots| == |fields| && OneTurn(fields, st, s).Next?
    ensures var t := OneTurn(fields, other, s); t.Bad? || (t.Next? && t.rest == OneTurn(fields, st, s).rest)
  {
    hide DecStatic, SkipField, Decode32, FixedComplete, NoteRequired;
    var key := Decode32(s).value;
    var i := Find(fields, key.0 / 8);
    if i.Some? {
      var a, b := EnterFixed(fields, st, i.value), EnterFixed(fields, other, i.value);
      if b.Some? {
        var x, y := NoteRequired(fields, a.value, i.value).slots, NoteRequired(fields, b.value, i.value).slots;
        if DecStatic(fields, x, i.value, key.0 % 8, key.1).Some? && DecStatic(fields, y, i.value, key.0 % 8, key.1).Some? {
          StaticRest(fields, x, y, i.value, key.0 % 8, key.1);
        }
      }
    }
  }

  /** A record begins with the tag of its field. */
  ghost predicate Begins(rec: seq<byte>, tag: nat) {
    exists wireType: nat, body | wireType < 8 :: rec == Tag(tag, wireType) + body
  }

  lemma {:induction false} ItemBegins(f: Field, items: seq<Value>, rec: seq<byte>)
    requires TaggedItems(f, items).Some? && rec in TaggedItems(f, items).value
    ensures Begins(rec, f.tag)
    decreases |items|
  {
    hide EncValue, Tag;
    if |items| > 0 && rec != Tagged(f, items[0]).value {
      ItemBegins(f, items[1..], rec);
    }
  }

  lemma RecordBegins(f: Field, s: Slot, rec: seq<byte>)
    requires FieldRecords(f, s).Some? && rec in FieldRecords(f, s).value
    ensures Begins(rec, f.tag)
  {
    hide EncValue, Tag, Payload, IsZero, Delimited, TaggedItems;
    if s.Many? && !f.ltype.Packable() {
      ItemBegins(f, s.items, rec);
    }
  }

  /** One of the records an encoder writes for some field other than i. */
  ghost predicate OfOther(fields: seq<Field>, slots: seq<Slot>, i: nat, rec: seq<byte>)
    requires |fields| == |slots|
  {
    exists j: nat :: OfField(fields, slots, j, rec) && j != i
  }

  ghost predicate OfField(fields: seq<Field>, slots: seq<Slot>, j: nat, rec: seq<byte>)
    requires |fields| == |slots|
  {
    && j < |fields| && FieldRecords(fields[j], slots[j]).Some? && Short(FieldRecords(fields[j], slots[j]).value)
    && rec in FieldRecords(fields[j], slots[j]).value
  }

  /** In any state, such a record is refused or read whole, under the tag of its field. */
  lemma RecordTurn(fields: seq<Field>, slots: seq<Slot>, j: nat, rec: seq<byte>, st: State, rest: seq<byte>)
    requires |st.slots| == |slots| == |fields|
    requires FieldsOk(fields) && MessageOk(fields, slots) && OfField(fields, slots, j, rec)
    ensures |rec| > 0 && Decode32(rec + rest).Some? && Decode32(rec + rest).value.0 / 8 == fields[j].tag
    ensures var t := OneTurn(fields, st, rec + rest); t.Bad? || (t.Next? && t.rest == rest)
  {
    hide OneTurn, Decode32, FieldRecords, Progress, FieldOk, FieldsOk, MessageOk, Reads, Begins;
    TagOk(fields, j);
    RecordBegins(fields[j], slots[j], rec);
    BeginsWithTag(rec, fields[j].tag, rest);
    var states := FieldPath(fields, slots, j);
    var recs := FieldRecords(fields[j], slots[j]).value;
    var k :| 0 <= k < |recs| && recs[k] == rec;
    assert Reads(fields, states[k], recs[k], states[k + 1]);
    ReadsOne(fields, states[k], rec, states[k + 1], rest);
    TurnRest(fields, states[k], st, rec + rest);
  }

  lemma TagOk(fields: seq<Field>, j: nat)
    requires FieldsOk(fields) && j < |fields|
    ensures 1 <= fields[j].tag < 0x2000_0000
  {
    assert FieldOk(fields[j]);
  }

  lemma BeginsWithTag(rec: seq<byte>, tag: nat, rest: seq<byte>)
    requires Begins(rec, tag) && tag < 0x2000_0000
    ensures Decode32(rec + rest).Some? && Decode32(rec + rest).value.0 / 8 == tag
  {
    hide Decode32, Tag;
    var wireType: nat, body :| wireType < 8 && rec == Tag(tag, wireType) + body;
    assert rec + rest == Tag(tag, wireType) + (body + rest);
    TagRoundTrip(tag, wireType, body + rest);
  }

  lemma ReadsOne(fields: seq<Field>, st: State, rec: seq<byte>, st': State, rest: seq<byte>)
    requires Reads(fields, st, rec, st')
    ensures |rec| > 0 && |st.slots| == |fields| && OneTurn(fields, st, rec + rest) == Next(st', rest)
  {
  }

  /** Records of the other fields, in any order and number, with unknown fields between
      them, are read without the tag of field i. */
  lemma {:induction false} OthersRead(fields: seq<Field>, slots: seq<Slot>, i: nat, pieces: seq<Piece>, st: State)
    requires FieldsOk(fields) && MessageOk(fields, slots) && i < |fields| && |st.slots| == |slots| == |fields|
    requires forall p <- pieces :: if p.Known? then OfOther(fields, slots, i, p.rec) else UnknownTo(fields, p.u)
    ensures fields[i].tag !in TagsRead(fields, st, Woven(pieces))
    decreases |pieces|
  {
    if |pieces| > 0 {
      var p, rest := pieces[0], Woven(pieces[1..]);
      if p.Known? {
        var j: nat :| OfField(fields, slots, j, p.rec) && j != i;
        RecordTurn(fields, slots, j, p.rec, st, rest);
        hide OneTurn, Decode32, OfField, MessageOk;
        if OneTurn(fields, st, p.rec + rest).Next? {
          OthersRead(fields, slots, i, pieces[1..], OneTurn(fields, st, p.rec + rest).st);
        }
      } else {
        UnknownSkipped(fields, st, p.u, rest);
        UnknownTag(p.u, rest);
        hide OneTurn, Decode32, UnknownRecord, MessageOk, OfOther;
        OthersRead(fields, slots, i, pieces[1..], st);
      }
    }
  }

  lemma UnknownTag(u: Unknown, rest: seq<byte>)
    requires 1 <= u.tag < 0x2000_0000
    ensures |UnknownRecord(u)| > 0 && Decode32(UnknownRecord(u) + rest).Some?
    ensures Decode32(UnknownRecord(u) + rest).value.0 / 8 == u.tag
  {
    hide Decode32, Varint;
    var wireType, body := WireTypeOf(u.body), BodyBytes(u.body);
    TagRoundTrip(u.tag, wireType, body + rest);
    assert UnknownRecord(u) + rest == Tag(u.tag, wireType) + (body + rest);
    VarintNotEmpty(u.tag * 8 + wireType);
  }

  lemma VarintNotEmpty(n: nat)
    ensures |Varint(n)| > 0
  {
  }

  /** Without the record of a required field, whatever else is there, nothing is decoded. */
  lemma MissingRequired(fields: seq<Field>, slots: seq<Slot>, i: nat, pieces: seq<Piece>)
    requires FieldsOk(fields) && MessageOk(fields, slots) && InsistsOn(fields, i)
    requires forall p <- pieces :: if p.Known? then OfOther(fields, slots, i, p.rec) else UnknownTo(fields, p.u)
    ensures DecMessage(fields, Woven(pieces)) == None
  {
    hide DecNoInit, TagsRead, Woven, OfOther;
    OthersRead(fields, slots, i, pieces, State(Defaults(fields), {}, None));
    if DecMessage(fields, Woven(pieces)).Some? {
      RequiredTagsRead(fields, Woven(pieces), Defaults(fields), i);
    }
  }

  // Arrays with a fixed count.

  predicate TagsDistinct(fields: seq<Field>) {
    forall i, j | 0 <= i < j < |fields| :: fields[i].tag != fields[j].tag
  }

  /** Of the fixed-count arrays with these tags, all but the one last received are whole. */
  ghost predicate WholeButLast(fields: seq<Field>, st: State, tags: set<nat>)
    requires |st.slots| == |fields|
  {
    forall i: nat | i < |fields| && fields[i].htype.FixedCount? && fields[i].tag in tags ::
      st.fixedField == Some(i) || |Items(st.slots[i])| == fields[i].arraySize
  }

  /** Reading a field leaves every fixed-count array but its own alone. */
  lemma OtherArraysStay(fields: seq<Field>, slots: seq<Slot>, i: nat, wireType: nat, s: seq<byte>, j: nat)
    requires |slots| == |fields| && i < |fields| && j < |fields| && i != j && fields[j].htype.FixedCount?
    requires DecStatic(fields, slots, i, wireType, s).Some?
    ensures DecStatic(fields, slots, i, wireType, s).value.0[j] == slots[j]
  {
    hide DecValue, DecDelimited, DecPacked, Held;
  }

  lemma TurnKeepsWhole(fields: seq<Field>, st: State, s: seq<byte>, tags: set<nat>)
    requires TagsDistinct(fields) && |st.slots| == |fields| && WholeButLast(fields, st, tags)
    requires OneTurn(fields, st, s).Next?
    ensures Decode32(s).Some?
    ensures WholeButLast(fields, OneTurn(fields, st, s).st, tags + {Decode32(s).value.0 / 8})
  {
    hide DecStatic, SkipField, Decode32, RequiredBefore;
    var key, next := Decode32(s).value, OneTurn(fields, st, s).st;
    var found := Find(fields, key.0 / 8);
    if found.Some? {
      var i := found.value;
      var entered := NoteRequired(fields, EnterFixed(fields, st, i).value, i);
      forall j: nat | j < |fields| && fields[j].htype.FixedCount? && fields[j].tag in tags + {key.0 / 8}
        ensures next.fixedField == Some(j) || |Items(next.slots[j])| == fields[j].arraySize
      {
        if j != i {
          OtherArraysStay(fields, entered.slots, i, key.0 % 8, key.1, j);
        }
      }
    }
  }

  lemma {:induction false} LoopKeepsWhole(fields: seq<Field>, st: State, s: seq<byte>, tags: set<nat>)
    requires TagsDistinct(fields) && |st.slots| == |fields| && WholeButLast(fields, st, tags)
    requires Loop(fields, st, s).Some?
    ensures WholeButLast(fields, Loop(fields, st, s).value, tags + TagsRead(fields, st, s))
    decreases |s|
  {
    hide OneTurn, Decode32, TagsDistinct, WholeButLast;
    if |s| > 0 && OneTurn(fields, st, s).Next? {
      var t := OneTurn(fields, st, s);
      TurnKeepsWhole(fields, st, s, tags);
      var more := tags + {Decode32(s).value.0 / 8};
      LoopKeepsWhole(fields, t.st, t.rest, more);
      assert more + TagsRead(fields, t.st, t.rest) == tags + TagsRead(fields, st, s);
    } else {
      assert tags + {} == tags;
    }
  }

  /** Whatever is decoded, each fixed-count array of which anything was read is whole. */
  lemma FixedArraysWhole(fields: seq<Field>, s: seq<byte>, slots: seq<Slot>, i: nat)
    requires TagsDistinct(fields) && DecNoInit(fields, s, slots).Some?
    requires i < |fields| && fields[i].htype.FixedCount? && fields[i].tag in TagsRead(fields, State(slots, {}, None), s)
    ensures |Items(DecNoInit(fields, s, slots).value[i])| == fields[i].arraySize
  {
    hide Loop, TagsRead, TagsDistinct, AllRequiredSeen;
    var st := State(slots, {}, None);
    assert WholeButLast(fields, st, {});
    LoopKeepsWhole(fields, st, s, {});
    assert {} + TagsRead(fields, st, s) == TagsRead(fields, st, s);
  }
}
