/** What nanopb reads from a byte stream into a message. */
module NanopbDecode {
  import opened Bits
  import opened Bytes
  import opened Wire
  import opened NanopbMessage
  import opened NanopbEncode

  /** The message being filled in, the required fields seen so far (by their index
      among the required fields), and the fixed-count array last received. */
  datatype State = State(slots: seq<Slot>, seen: set<nat>, fixedField: Option<nat>)

  type Rest = seq<byte>

  /** How many required fields precede field i. */
  function RequiredBefore(fields: seq<Field>, i: nat): (n: nat)
    requires i <= |fields|
    ensures n <= i
  {
    if i == 0 then 0
    else RequiredBefore(fields, i - 1) + (if fields[i - 1].htype.Required? then 1 else 0)
  }

  /** The first field with the given tag. */
  function Find(fields: seq<Field>, tag: nat): (i: Option<nat>)
    ensures i.Some? ==> i.value < |fields| && fields[i.value].tag == tag
    ensures i.None? ==> forall f <- fields :: f.tag != tag
  {
    if |fields| == 0 then None
    else if fields[0].tag == tag then Some(0)
    else
      var rest := Find(fields[1..], tag);
      if rest.None? then None else Some(rest.value + 1)
  }

  // Skipping unknown fields.

  function SkipVarint(s: seq<byte>): (r: Option<Rest>)
    ensures r.Some? ==> |r.value| <= |s|
  {
    if |s| == 0 then None else if More(s[0]) then SkipVarint(s[1..]) else Some(s[1..])
  }

  function Skip(s: seq<byte>, n: nat): (r: Option<Rest>)
    ensures r.Some? ==> |r.value| <= |s|
  {
    if n <= |s| then Some(s[n..]) else None
  }

  function SkipField(s: seq<byte>, wireType: nat): (r: Option<Rest>)
    ensures r.Some? ==> |r.value| <= |s|
  {
    if wireType == WT_VARINT then SkipVarint(s)
    else if wireType == WT_64BIT then Skip(s, 8)
    else if wireType == WT_STRING then
      var len := Decode32(s);
      if len.None? then None else Skip(len.value.1, len.value.0)
    else if wireType == WT_32BIT then Skip(s, 4)
    else None
  }

  // Values.

  function DecNumber(f: Field, s: seq<byte>): (r: Option<(int, Rest)>)
    ensures r.Some? ==> |r.value.1| < |s|
  {
    if f.ltype.Fixed32T? then if |s| < 4 then None else Some((Le(s[..4]), s[4..]))
    else if f.ltype.Fixed64T? then if |s| < 8 then None else Some((Le(s[..8]), s[8..]))
    else
      var d := Decode64(s);
      if d.None? || !ValidSize(f) then None
      else
        var n, bits := d.value.0, 8 * f.dataSize;
        var whole, clamped :=
          if f.ltype.UVarintT? then n
          else if f.ltype.SVarintT? then UnZigZag(n)
          else Signed(n, if f.dataSize == 8 then 64 else 32),
          if f.ltype.UVarintT? then n % Pow2(bits)
          else if f.ltype.SVarintT? then Signed(UnZigZag(n), bits)
          else Signed(Signed(n, if f.dataSize == 8 then 64 else 32), bits);
        if clamped != whole then None else Some((clamped, d.value.1))
  }

  /** A length-delimited string: its contents and what follows it. */
  function DecDelimited(s: seq<byte>): (r: Option<(seq<byte>, Rest)>)
    ensures r.Some? ==> |r.value.0| < |s| && |r.value.1| < |s|
  {
    var len := Decode32(s);
    if len.None? || len.value.0 > |len.value.1| then None
    else Some((len.value.1[..len.value.0], len.value.1[len.value.0..]))
  }

  function DecBlob(f: Field, s: seq<byte>): (r: Option<(seq<byte>, Rest)>)
    ensures r.Some? ==> |r.value.1| < |s|
  {
    var len := Decode32(s);
    if len.None? then None
    else
      var n := len.value.0;
      if f.ltype.FixedLengthBytesT? then
        // An empty string stands for all zeros.
        if n == 0 then Some((Zeros(f.dataSize), len.value.1))
        else if n > PB_SIZE_MAX || n != f.dataSize then None
        else DecDelimited(s)
      else if f.ltype.BytesT? then
        if n > PB_SIZE_MAX || n + BYTES_HEADER > f.dataSize then None else DecDelimited(s)
      else if n + 1 > f.dataSize then None
      else DecDelimited(s)
  }

  /** One value; a submessage that is not an array entry is merged into prior. */
  function DecValue(f: Field, s: seq<byte>, prior: Value): (r: Option<(Value, Rest)>)
    ensures r.Some? ==> |r.value.1| < |s|
    decreases |s|, 0
  {
    if f.ltype.Packable() then
      var d := DecNumber(f, s);
      if d.None? then None else Some((Num(d.value.0), d.value.1))
    else if !f.ltype.SubmessageT? then
      var d := DecBlob(f, s);
      if d.None? then None else Some((Blob(d.value.0), d.value.1))
    else
      var d := DecDelimited(s);
      if d.None? then None
      else
        var start := if f.htype.Array() || !prior.Rec? then Defaults(f.sub) else prior.slots;
        var slots := DecNoInit(f.sub, d.value.0, start);
        if slots.None? then None else Some((Rec(slots.value), d.value.1))
  }

  /** The items of a packed array, appended to those already there. */
  function DecPacked(f: Field, s: seq<byte>, items: seq<Value>): Option<seq<Value>>
    decreases |s|, 1
  {
    if |s| == 0 then Some(items)
    else if |items| >= f.arraySize then None
    else
      var d := DecValue(f, s, Num(0));
      if d.None? then None else DecPacked(f, d.value.1, items + [d.value.0])
  }

  function Items(s: Slot): seq<Value> { if s.Many? then s.items else [] }

  function Held(f: Field, s: Slot): Value {
    match s
    case One(v) => v
    case Opt(_, v) => v
    case _ => DefaultValue(f)
  }

  /** Picks member i of its union, which unpicks the others. */
  function Pick(fields: seq<Field>, slots: seq<Slot>, i: nat, v: Value): (r: seq<Slot>)
    requires |slots| == |fields| && i < |fields|
    ensures |r| == |slots|
  {
    seq(|slots|, j requires 0 <= j < |slots| =>
      if j == i then Choice(Some(v))
      else if SameUnion(fields[i], fields[j]) then Choice(None)
      else slots[j])
  }

  /** Before an entry of a fixed-count array: a change of array needs the last one to
      be complete, and starts the new one over. */
  function EnterFixed(fields: seq<Field>, st: State, i: nat): (r: Option<State>)
    requires |st.slots| == |fields| && i < |fields|
    ensures r.Some? ==> |r.value.slots| == |fields|
  {
    if !fields[i].htype.FixedCount? || st.fixedField == Some(i) then Some(st)
    else if !FixedComplete(fields, st) then None
    else Some(st.(fixedField := Some(i), slots := st.slots[i := Many([])]))
  }

  predicate FixedComplete(fields: seq<Field>, st: State) {
    st.fixedField.Some? && st.fixedField.value < |fields| && st.fixedField.value < |st.slots| ==>
      |Items(st.slots[st.fixedField.value])| == fields[st.fixedField.value].arraySize
  }

  function NoteRequired(fields: seq<Field>, st: State, i: nat): (r: State)
    requires i < |fields|
    ensures |r.slots| == |st.slots|
  {
    var n := RequiredBefore(fields, i);
    if fields[i].htype.Required? && n < PB_MAX_REQUIRED_FIELDS then st.(seen := st.seen + {n}) else st
  }

  /** Field i, found under wireType, read from s into slots. */
  function DecStatic(fields: seq<Field>, slots: seq<Slot>, i: nat, wireType: nat, s: seq<byte>)
    : (r: Option<(seq<Slot>, Rest)>)
    requires |slots| == |fields| && i < |fields|
    ensures r.Some? ==> |r.value.1| < |s| && |r.value.0| == |fields|
    decreases |s|, 2
  {
    var f, slot := fields[i], slots[i];
    if f.htype.Array() then
      if wireType == WT_STRING && f.ltype.Packable() then
        var d := DecDelimited(s);
        if d.None? then None
        else
          var items := DecPacked(f, d.value.0, Items(slot));
          if items.None? then None else Some((slots[i := Many(items.value)], d.value.1))
      else if |Items(slot)| >= f.arraySize then None
      else
        var d := DecValue(f, s, DefaultValue(f));
        if d.None? then None else Some((slots[i := Many(Items(slot) + [d.value.0])], d.value.1))
    else
      var d := DecValue(f, s, Held(f, slot));
      if d.None? then None
      else if f.htype.OneOf? then Some((Pick(fields, slots, i, d.value.0), d.value.1))
      else if f.htype.Optional? then Some((slots[i := Opt(true, d.value.0)], d.value.1))
      else Some((slots[i := One(d.value.0)], d.value.1))
  }

  /** The field i of a message being read, with the checks around it. */
  function DecField(fields: seq<Field>, st0: State, i: nat, wireType: nat, s: seq<byte>)
    : (r: Option<(State, Rest)>)
    requires |st0.slots| == |fields| && i < |fields|
    ensures r.Some? ==> |r.value.1| < |s| && |r.value.0.slots| == |fields|
    decreases |s|, 3
  {
    var entered := EnterFixed(fields, st0, i);
    if entered.None? then None
    else
      var st := NoteRequired(fields, entered.value, i);
      var d := DecStatic(fields, st.slots, i, wireType, s);
      if d.None? then None else Some((st.(slots := d.value.0), d.value.1))
  }

  /** One turn of the field loop: Done at a zero tag, which ends the message early. */
  datatype Turn = Next(st: State, rest: Rest) | Done | Bad

  function OneTurn(fields: seq<Field>, st: State, s: seq<byte>): (r: Turn)
    requires |st.slots| == |fields|
    ensures r.Next? ==> |r.rest| < |s| && |r.st.slots| == |fields|
    decreases |s|, 4
  {
    var key := Decode32(s);
    if key.None? then Bad
    else if key.value.0 == 0 then Done
    else
      var tag, wireType, rest := key.value.0 / 8, key.value.0 % 8, key.value.1;
      // The end marker of an empty descriptor matches tag zero and then fails.
      if |fields| == 0 && tag == 0 then Bad
      else
        var i := Find(fields, tag);
        if i.None? then
          var skipped := SkipField(rest, wireType);
          if skipped.None? then Bad else Next(st, skipped.value)
        else
          var d := DecField(fields, st, i.value, wireType, rest);
          if d.None? then Bad else Next(d.value.0, d.value.1)
  }

  function Loop(fields: seq<Field>, st: State, s: seq<byte>): (r: Option<State>)
    requires |st.slots| == |fields|
    ensures r.Some? ==> |r.value.slots| == |fields|
    decreases |s|, 5
  {
    if |s| == 0 then Some(st)
    else match OneTurn(fields, st, s)
      case Bad => None
      case Done => Some(st)
      case Next(st', rest) => Loop(fields, st', rest)
  }

  predicate AllRequiredSeen(fields: seq<Field>, seen: set<nat>) {
    forall n: nat | n < RequiredBefore(fields, |fields|) && n < PB_MAX_REQUIRED_FIELDS :: n in seen
  }

  /** Reads a message on top of what slots already hold. */
  function DecNoInit(fields: seq<Field>, s: seq<byte>, slots: seq<Slot>): (r: Option<seq<Slot>>)
    ensures r.Some? ==> |r.value| == |fields|
    decreases |s|, 6
  {
    if |slots| != |fields| then None
    else
      var st := Loop(fields, State(slots, {}, None), s);
      if st.None? || !FixedComplete(fields, st.value) || !AllRequiredSeen(fields, st.value.seen) then None
      else Some(st.value.slots)
  }

  /** Reads a message into a struct first set to defaults. */
  function DecMessage(fields: seq<Field>, s: seq<byte>): Option<seq<Slot>> {
    DecNoInit(fields, s, Defaults(fields))
  }
}
