/**
 What it means for a sequence of sealed records to carry a flight of handshake
 messages: they tile it, fragment by fragment, with no gap and no overlap.
 */
module Flight {
  import opened Bytes
  import opened HandshakeFragment
  import opened Protocol

  /** A queued handshake message, header included, or ChangeCipherSpec. */
  datatype OutMessage = OutMessage(isCcs: bool, data: seq<byte>, epoch: nat)

  /** A sealed record: what was sealed, under which number, and its bytes on the wire. */
  datatype Record = Record(typ: byte, epoch: nat, seqNum: nat, plaintext: seq<byte>, wire: seq<byte>)

  /** The next byte to send: message number and offset into its body. */
  datatype Cursor = Cursor(written: nat, offset: nat)

  const START := Cursor(0, 0)

  /** m was queued as one whole fragment. */
  predicate Whole(m: OutMessage) {
    var p := ParseFragment(m.data);
    p.Some? && p.value.0.fragOff == 0 && p.value.0.msgLen == |p.value.0.body| && p.value.1 == []
  }

  function Content(m: OutMessage): Fragment
    requires Whole(m)
  {
    ParseFragment(m.data).value.0
  }

  /** The part of a message from offset on, len bytes of it, as a fragment. */
  function Slice(f: Fragment, offset: nat, len: nat): Fragment
    requires offset + len <= |f.body|
  {
    Fragment(f.typ, f.msgLen, f.seqNum, offset, f.body[offset..offset + len])
  }

  predicate InRange(flight: seq<OutMessage>, at: Cursor) {
    at.written < |flight|
    && (flight[at.written].isCcs || (Whole(flight[at.written]) && at.offset <= |Content(flight[at.written]).body|))
  }

  /** Where the cursor goes when rec is the next record, None if it cannot be. */
  function Advance(flight: seq<OutMessage>, at: Cursor, rec: Record): Option<Cursor> {
    if !InRange(flight, at) || rec.epoch != flight[at.written].epoch then None
    else if flight[at.written].isCcs then
      if rec.typ == RT_CHANGE_CIPHER_SPEC && rec.plaintext == [MT_CCS] then Some(Cursor(at.written + 1, 0)) else None
    else
      var f := Content(flight[at.written]);
      var len := |rec.plaintext| - HEADER_LENGTH;
      if rec.typ != RT_HANDSHAKE || len < 0 || at.offset + len > |f.body|
         || rec.plaintext != Slice(f, at.offset, len).Bytes() then None
      else if at.offset + len == |f.body| then Some(Cursor(at.written + 1, 0))
      else if len > 0 then Some(Cursor(at.written, at.offset + len))
      else None
  }

  /** Where the cursor ends up after recs, None if they do not tile the flight. */
  function Tile(flight: seq<OutMessage>, at: Cursor, recs: seq<Record>): Option<Cursor>
    decreases |recs|
  {
    if |recs| == 0 then Some(at)
    else
      var next := Advance(flight, at, recs[0]);
      if next.None? then None else Tile(flight, next.value, recs[1..])
  }

  lemma {:induction false} TileConcat(flight: seq<OutMessage>, at: Cursor, a: seq<Record>, b: seq<Record>)
    requires Tile(flight, at, a).Some?
    ensures Tile(flight, at, a + b) == Tile(flight, Tile(flight, at, a).value, b)
    decreases |a|
  {
    if |a| == 0 {
      assert a + b == b;
    } else {
      assert (a + b)[1..] == a[1..] + b;
      TileConcat(flight, Advance(flight, at, a[0]).value, a[1..], b);
    }
  }

  lemma TileSnoc(flight: seq<OutMessage>, at: Cursor, a: seq<Record>, rec: Record)
    requires Tile(flight, at, a).Some?
    ensures Tile(flight, at, a + [rec]) == Advance(flight, Tile(flight, at, a).value, rec)
  {
    TileConcat(flight, at, a, [rec]);
    var next := Advance(flight, Tile(flight, at, a).value, rec);
    assert next.Some? ==> Tile(flight, next.value, [rec][1..]) == next;
  }

  /** The bytes of a packet: those of its records, one after another. */
  function PacketBytes(recs: seq<Record>): seq<byte> {
    if |recs| == 0 then [] else recs[0].wire + PacketBytes(recs[1..])
  }

  // How far a sequence of records carries a flight, whatever it starts from.

  /** Every handshake message was queued as one whole fragment. */
  predicate AllWhole(flight: seq<OutMessage>) {
    forall om <- flight :: om.isCcs || Whole(om)
  }

  /** The cursor stands between two records of a flight. */
  predicate Placed(flight: seq<OutMessage>, at: Cursor) {
    && at.written <= |flight|
    && (at.offset > 0 ==>
          at.written < |flight| && !flight[at.written].isCcs && Whole(flight[at.written])
          && at.offset < |Content(flight[at.written]).body|)
  }

  function MessageWeight(om: OutMessage): (w: nat)
    ensures w >= 1
  {
    if om.isCcs || !Whole(om) || |Content(om).body| == 0 then 1 else |Content(om).body|
  }

  function WeightBefore(flight: seq<OutMessage>, k: nat): (w: nat)
    requires k <= |flight|
    ensures w >= k
  {
    if k == 0 then 0 else WeightBefore(flight, k - 1) + MessageWeight(flight[k - 1])
  }

  function WeightAt(flight: seq<OutMessage>, at: Cursor): nat
    requires at.written <= |flight|
  {
    WeightBefore(flight, at.written) + at.offset
  }

  function RecordWeight(rec: Record): (w: nat)
    ensures w >= 1
  {
    if rec.typ == RT_HANDSHAKE && |rec.plaintext| > HEADER_LENGTH then |rec.plaintext| - HEADER_LENGTH else 1
  }

  function Weight(recs: seq<Record>): nat {
    if |recs| == 0 then 0 else RecordWeight(recs[0]) + Weight(recs[1..])
  }

  lemma {:induction false} WeightConcat(a: seq<Record>, b: seq<Record>)
    ensures Weight(a + b) == Weight(a) + Weight(b)
  {
    if |a| == 0 {
      assert a + b == b;
    } else {
      assert (a + b)[1..] == a[1..] + b;
      WeightConcat(a[1..], b);
    }
  }

  lemma AdvanceWeighs(flight: seq<OutMessage>, at: Cursor, rec: Record)
    requires Placed(flight, at) && Advance(flight, at, rec).Some?
    ensures var next := Advance(flight, at, rec).value;
            Placed(flight, next) && WeightAt(flight, next) == WeightAt(flight, at) + RecordWeight(rec)
  {
    hide ParseFragment;
  }

  /** How much a tiling carries depends on its records alone. */
  lemma {:induction false} TileWeighs(flight: seq<OutMessage>, at: Cursor, recs: seq<Record>)
    requires Placed(flight, at) && Tile(flight, at, recs).Some?
    ensures var end := Tile(flight, at, recs).value;
            Placed(flight, end) && WeightAt(flight, end) == WeightAt(flight, at) + Weight(recs)
    decreases |recs|
  {
    hide Advance;
    if |recs| > 0 {
      AdvanceWeighs(flight, at, recs[0]);
      TileWeighs(flight, Advance(flight, at, recs[0]).value, recs[1..]);
    }
  }

  lemma {:induction false} WeightGrows(flight: seq<OutMessage>, k: nat, n: nat)
    requires k <= n <= |flight|
    ensures WeightBefore(flight, k) + (n - k) <= WeightBefore(flight, n)
    decreases n
  {
    if k < n {
      WeightGrows(flight, k, n - 1);
    }
  }

  predicate Before(a: Cursor, b: Cursor) {
    a.written < b.written || (a.written == b.written && a.offset < b.offset)
  }

  lemma BeforeWeighsLess(flight: seq<OutMessage>, a: Cursor, b: Cursor)
    requires Placed(flight, a) && Placed(flight, b) && Before(a, b)
    ensures WeightAt(flight, a) < WeightAt(flight, b)
  {
    hide ParseFragment;
    if a.written < b.written {
      WeightGrows(flight, a.written + 1, b.written);
    }
  }

  /** Records lost between two points of a flight leave a gap: no records that carry
      the flight on from behind the gap complete it. */
  lemma GapStays(flight: seq<OutMessage>, before: seq<Record>, from: Cursor, rest: seq<Record>)
    requires Tile(flight, START, before).Some? && Placed(flight, from)
    requires Before(Tile(flight, START, before).value, from)
    requires Tile(flight, from, rest).Some?
    ensures Tile(flight, START, before + rest) != Tile(flight, from, rest)
  {
    hide Advance, ParseFragment;
    TileWeighs(flight, START, before);
    BeforeWeighsLess(flight, Tile(flight, START, before).value, from);
    TileWeighs(flight, from, rest);
    WeightConcat(before, rest);
    if Tile(flight, START, before + rest).Some? {
      TileWeighs(flight, START, before + rest);
    }
  }

  // What tiling means for the receiver.

  /** The body bytes that recs carry of message k, when sending starts at at. */
  function BodyOf(flight: seq<OutMessage>, at: Cursor, recs: seq<Record>, k: nat): seq<byte>
    decreases |recs|
  {
    if |recs| == 0 then []
    else
      var next := Advance(flight, at, recs[0]);
      if next.None? then []
      else (if at.written == k && recs[0].typ == RT_HANDSHAKE then recs[0].plaintext[HEADER_LENGTH..] else [])
           + BodyOf(flight, next.value, recs[1..], k)
  }

  /** How many of recs carry message k. */
  function RecordsOf(flight: seq<OutMessage>, at: Cursor, recs: seq<Record>, k: nat): nat
    decreases |recs|
  {
    if |recs| == 0 then 0
    else
      var next := Advance(flight, at, recs[0]);
      if next.None? then 0
      else (if at.written == k then 1 else 0) + RecordsOf(flight, next.value, recs[1..], k)
  }

  lemma AdvanceOrder(flight: seq<OutMessage>, at: Cursor, rec: Record)
    requires Advance(flight, at, rec).Some?
    ensures var next := Advance(flight, at, rec).value;
            || next == Cursor(at.written + 1, 0)
            || (next.written == at.written && at.offset < next.offset)
  {
  }

  lemma {:induction false} NothingBehind(flight: seq<OutMessage>, at: Cursor, recs: seq<Record>, k: nat)
    requires k < at.written
    ensures BodyOf(flight, at, recs, k) == [] && RecordsOf(flight, at, recs, k) == 0
    decreases |recs|
  {
    if |recs| > 0 && Advance(flight, at, recs[0]).Some? {
      AdvanceOrder(flight, at, recs[0]);
      NothingBehind(flight, Advance(flight, at, recs[0]).value, recs[1..], k);
    }
  }

  /** Records that tile the flight to its end carry, for every message not yet
      begun, exactly its body, in order, each byte once, and an empty body or a
      ChangeCipherSpec in exactly one record. */
  lemma {:induction false} TilesWholeFlight(flight: seq<OutMessage>, at: Cursor, recs: seq<Record>, k: nat)
    requires at.written <= |flight|
    requires Tile(flight, at, recs) == Some(Cursor(|flight|, 0))
    requires at.written <= k < |flight|
    ensures flight[k].isCcs || Whole(flight[k])
    ensures RecordsOf(flight, at, recs, k) >= 1
    ensures flight[k].isCcs ==> RecordsOf(flight, at, recs, k) == 1
    ensures !flight[k].isCcs ==>
      var from := if k == at.written then at.offset else 0;
      var body := Content(flight[k]).body;
      from <= |body| && BodyOf(flight, at, recs, k) == body[from..]
      && (from == |body| ==> RecordsOf(flight, at, recs, k) == 1)
    decreases |recs|
  {
    hide ParseFragment, Advance, Whole, Content;
    var rec, rest := recs[0], recs[1..];
    var next := Advance(flight, at, rec).value;
    AdvanceOrder(flight, at, rec);
    if next.written <= k {
      TilesWholeFlight(flight, next, rest, k);
    } else {
      NothingBehind(flight, next, rest, k);
    }
    if at.written == k {
      AdvanceTakes(flight, at, rec);
    }
  }

  /** What one record takes of the message at the cursor. */
  lemma AdvanceTakes(flight: seq<OutMessage>, at: Cursor, rec: Record)
    requires Advance(flight, at, rec).Some?
    ensures at.written < |flight| && (flight[at.written].isCcs || Whole(flight[at.written]))
    ensures var next := Advance(flight, at, rec).value;
      if flight[at.written].isCcs then rec.typ != RT_HANDSHAKE && next == Cursor(at.written + 1, 0)
      else
        var body := Content(flight[at.written]).body;
        && rec.typ == RT_HANDSHAKE && |rec.plaintext| >= HEADER_LENGTH && at.offset <= |body|
        && (next.written == at.written ==> at.offset < next.offset < |body|)
        && (at.offset == |body| ==> next.written != at.written)
        && body[at.offset..]
           == rec.plaintext[HEADER_LENGTH..] + if next.written == at.written then body[next.offset..] else []
  {
    hide ParseFragment;
    if !flight[at.written].isCcs {
      var body, len := Content(flight[at.written]).body, |rec.plaintext| - HEADER_LENGTH;
      assert rec.plaintext[HEADER_LENGTH..] == body[at.offset..at.offset + len];
      assert body[at.offset..] == body[at.offset..at.offset + len] + body[at.offset + len..];
    }
  }
}
