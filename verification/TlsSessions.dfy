/**
 Whole sessions over the TLS write path: what every session keeps, and the sessions in
 which the code does not do what one would expect.
 */
module TlsSessions {
  import opened Bytes
  import opened Protocol
  import opened SslBuffer
  import opened TlsWriter

  datatype Op =
    | Write(data: seq<byte>, address: nat)
    | Message(msg: seq<byte>)
    | CipherChange
    | NewKeys(overhead: nat, prefix: nat)
    | Flush
    | SendAlertOp(level: byte, desc: byte)
    | DispatchOp

  /** Any session, whatever the world answers: what was sent is the beginning of what was
      sealed, in the order it was sealed, unless the write buffer has held more than
      SAFE_CAP bytes, which it has not if no write asked for more room; and if every write
      that follows an unfinished one offers again what is in flight, the application data
      sealed is what was accepted and what is in flight. */
  method Session(c: TlsConnection, ops: seq<Op>) returns (ghost safe: bool, ghost honest: bool)
    requires c.Valid() && c.InOrder() && c.Conserved() && c.AlertsInPlace()
    modifies c, c.writeBuffer, c.writeBuffer.buf
    ensures c.Valid()
    ensures safe && old(c.largest) <= SAFE_CAP ==> c.largest <= SAFE_CAP
    ensures c.largest <= SAFE_CAP ==> c.sent <= WireOf(c.records)
    ensures honest ==> PlainOf(c.records, ApplicationData) == c.accepted + c.inflight
    ensures AlertLast(c.records)
  {
    hide WireOf, PlainOf, AlertLast, NoAlert, TlsConnection.InOrder, TlsConnection.Conserved,
         TlsConnection.AlertsInPlace, TlsConnection.AppRoom, TlsConnection.Room, TlsConnection.AlertSealed;
    safe, honest := true, true;
    for i := 0 to |ops|
      invariant c.Valid() && (c.writeBuffer.buf == old(c.writeBuffer.buf) || fresh(c.writeBuffer.buf))
      invariant safe && old(c.largest) <= SAFE_CAP ==> c.largest <= SAFE_CAP
      invariant c.InOrder()
      invariant honest ==> c.Conserved()
      invariant c.AlertsInPlace()
    {
      var op := ops[i];
      match op {
        case Write(data, address) =>
          safe := safe && c.AppRoom(|data|) <= SAFE_CAP;
          honest := honest && c.inflight <= data;
          var _ := c.WriteAppData(data, address);
        case Message(msg) =>
          if c.pendingFlightOffset == 0 {
            var _ := c.AddMessage(msg);
          }
        case CipherChange =>
          if c.pendingFlightOffset == 0 {
            var _ := c.AddChangeCipherSpec();
          }
        case NewKeys(overhead, prefix) =>
          c.SetWriteState(overhead, prefix);
        case Flush =>
          var _ := c.FlushFlight();
        case SendAlertOp(level, desc) =>
          if (level == 1 && desc == 0) || (level == 2 && desc != 0) {
            safe := safe && (c.writeShutdown == Open ==> c.Room(2) <= SAFE_CAP);
            var _ := c.SendAlert(level, desc);
          }
        case DispatchOp =>
          if c.alertDispatch {
            safe := safe && c.Room(2) <= SAFE_CAP;
            var _ := c.DispatchAlert();
          }
      }
    }
    Outcome(c);
  }

  lemma Outcome(c: TlsConnection)
    requires c.Valid()
    ensures c.InOrder() && c.largest <= SAFE_CAP ==> c.sent <= WireOf(c.records)
    ensures c.Conserved() ==> PlainOf(c.records, ApplicationData) == c.accepted + c.inflight
    ensures c.AlertsInPlace() ==> AlertLast(c.records)
  {
    assert c.sent <= c.Stream();
  }

  // A session with one byte more than is safe.

  function Zeros(n: nat): (bs: seq<byte>)
    ensures |bs| == n && forall k | 0 <= k < n :: bs[k] == 0
  {
    seq(n, _ => 0)
  }

  lemma ZerosJoin(a: nat, b: nat)
    ensures Zeros(a) + Zeros(b) == Zeros(a + b)
  {
  }

  /** Three records of a flight, a last one, and the record behind it. */
  function WireLength(last: nat, record: nat, n: nat): nat { if n < 3 then 16384 else if n == 3 then last else record }

  /** The records are sealed to zeros, memory is aligned to eight bytes and full of ones,
      and the transport takes all up to the wrap in the first write, one byte in the
      second, and then no more. */
  function Wrapping(last: nat, record: nat): World {
    World((n: nat) => if n == 6 then 0x1_0000 - 7 else if n == 7 then 1 else 0, n => true,
          (n: nat) => Some(Zeros(WireLength(last, record, n))),
          n => Memory(0x1000, k => 1))
  }

  lemma WireGrows(before: seq<Sealed>, after: seq<Sealed>)
    requires |after| == |before| + 1 && after[..|before|] == before
    ensures WireOf(after) == WireOf(before) + after[|before|].wire
  {
  }

  /** A message of a single record. */
  method SendMessage(c: TlsConnection, ghost last: nat, ghost record: nat, ghost size: nat, msg: seq<byte>)
    requires c.Valid() && c.InOrder() && c.pendingFlightOffset == 0 && WireOf(c.records) == Zeros(size)
    requires c.world == Wrapping(last, record)
    requires |msg| <= c.maxSendFragment && WireLength(last, record, c.asked) <= |msg| + c.maxOverhead
    modifies c`pendingFlight, c`records, c`transcript, c`asked
    ensures c.Valid() && c.InOrder() && c.asked == old(c.asked) + 1
    ensures WireOf(c.records) == Zeros(size + WireLength(last, record, old(c.asked)))
  {
    hide TlsConnection.InOrder, WireOf, PlainOf, Zeros;
    ghost var before := c.records;
    assert c.world.seals(c.asked) == Some(Zeros(WireLength(last, record, c.asked)));
    var ok := c.AddMessage(msg);
    WireGrows(before, c.records);
    ZerosJoin(size, WireLength(last, record, old(c.asked)));
  }

  /** Three full records and one of last bytes, none of them flushed. */
  method FourMessages(overhead: nat, prefix: nat, last: nat, record: nat) returns (c: TlsConnection)
    requires overhead < last <= 16384 && overhead < 16384
    ensures fresh(c) && fresh(c.writeBuffer) && fresh(c.writeBuffer.buf)
    ensures c.Valid() && c.world == Wrapping(last, record) && c.asked == 4
    ensures c.sent == [] && c.largest == 0 && c.writeShutdown == Open && c.maxOverhead == overhead
    ensures c.alignPrefix == prefix && c.writeBuffer.size == 0 && c.writeBuffer.cap == 0 && !c.wpendPending
    ensures c.Unflushed() == WireOf(c.records) == Zeros(49152 + last)
  {
    hide TlsConnection.InOrder, TlsConnection.Conserved, TlsConnection.AlertsInPlace, WireOf, PlainOf, Zeros;
    c := new TlsConnection(Wrapping(last, record), MAX_PLAIN_LENGTH, overhead, prefix, false, false);
    NothingSealed();
    SendMessage(c, last, record, 0, Zeros(16384 - overhead));
    SendMessage(c, last, record, 16384, Zeros(16384 - overhead));
    SendMessage(c, last, record, 32768, Zeros(16384 - overhead));
    SendMessage(c, last, record, 49152, Zeros(last - overhead));
    AllUnflushed(c);
  }

  lemma WrappedRecord(last: nat, prefix: nat, extra: nat, record: nat)
    requires record <= extra && (49152 + last + prefix) % 8 == 1 && 16377 < last + record
    ensures var sent := Written(Wrapping(last, record), 4, prefix, Zeros(49152 + last), extra, Zeros(record));
            !(sent <= Zeros(49152 + last + record)) && |sent| == 0xfffa
  {
    var flight, world := 49152 + last, Wrapping(last, record);
    var mem := world.memory(4);
    assert AlignedOffset(flight + prefix, mem.address) == 7;
    var laid := Laid(mem, flight + extra + SSL3_ALIGN_PAYLOAD - 1, 7, Zeros(flight) + Zeros(record));
    WrappedDrain(laid, 7, flight + record, world.takes, 6);
    assert (laid[7..0x1_0000] + laid[..1])[0xfff9] == 1;
  }

  /** Four messages under the null cipher that are not flushed and an alert behind them,
      0xfffb bytes in the write buffer: what is sent is not what was sealed. */
  method OrderBreaks() returns (c: TlsConnection)
    ensures c.Valid() && c.largest == SAFE_CAP + 2
    ensures |c.sent| <= |WireOf(c.records)| && !(c.sent <= WireOf(c.records))
  {
    hide TlsConnection.InOrder, TlsConnection.Conserved, TlsConnection.AlertsInPlace, WireOf, PlainOf, Zeros, Written,
         TlsConnection.Unflushed;
    c := FourMessages(5, 5, 16372, 7);
    ghost var before := c.records;
    assert c.world.seals(5) == Some(Zeros(7));
    var ret := c.SendAlert(2, 80);
    WrappedRecord(16372, 5, 7, 7);
    WireGrows(before, c.records);
    ZerosJoin(65524, 7);
  }

  /** The same with one byte more than is safe: under AES-GCM, with a record of one byte
      of application data. */
  method OrderBreaksAtLimit() returns (c: TlsConnection)
    ensures c.Valid() && c.largest == SAFE_CAP + 1
    ensures |c.sent| <= |WireOf(c.records)| && !(c.sent <= WireOf(c.records))
  {
    hide TlsConnection.InOrder, TlsConnection.Conserved, TlsConnection.AlertsInPlace, WireOf, PlainOf, Zeros, Written,
         TlsConnection.Unflushed;
    c := FourMessages(29, 13, 16348, 30);
    ghost var before := c.records;
    assert c.world.seals(5) == Some(Zeros(30));
    var ret := c.DoWrite(ApplicationData, [0], 0);
    WrappedRecord(16348, 13, 30, 30);
    WireGrows(before, c.records);
    ZerosJoin(65500, 30);
  }

  lemma NothingSealed()
    ensures WireOf([]) == Zeros(0)
  {
  }

  lemma AllUnflushed(c: TlsConnection)
    requires c.Valid() && c.InOrder() && c.largest <= SAFE_CAP && c.sent == [] && c.writeBuffer.size == 0
    ensures c.Unflushed() == WireOf(c.records)
  {
    assert c.Stream() == [] + [] + c.Unflushed();
  }

  // A session with a write that is offered too little of what is in flight.

  /** Records of 512 bytes under AES-GCM; the transport takes all it is offered but for the
      n-th time. */
  function Blocking(n: nat): World {
    World((k: nat) => if k == n then 0 else 0x1_0000, k => true, (k: nat) => Some(Zeros(541)),
          n => Memory(0x1000, k => 0))
  }

  /** The second of two records is refused; after a shorter offer both go out. */
  lemma TwoRecords()
    ensures Course(Blocking(5), 29, 512, Waiting(0, false, 0), 1024) == (512, Waiting(512, true, 6))
    ensures Course(Blocking(5), 29, 512, Waiting(512, true, 6), 1024) == (1024, Waiting(0, false, 10))
  {
    hide Course;
    CourseStep(Blocking(5), 29, 512, Waiting(0, false, 0), 1024);
    CourseStep(Blocking(5), 29, 512, Waiting(0, false, 3), 512);
    CourseStep(Blocking(5), 29, 512, Waiting(512, true, 6), 1024);
    CourseStep(Blocking(5), 29, 512, Waiting(0, false, 7), 512);
  }

  /** A write of two records on a new connection, blocked in the second. */
  method BlockedWrite(data: seq<byte>) returns (c: TlsConnection, ret: int)
    requires |data| == 1024
    ensures fresh(c) && fresh(c.writeBuffer) && fresh(c.writeBuffer.buf)
    ensures c.Valid() && c.Conserved() && c.inflight == data && c.accepted == []
    ensures ret <= 0 && c.wnum == 512 && c.Waits() == Waiting(512, true, 6)
    ensures c.Steady() && AllOrNothing(c.world) && c.world == Blocking(5)
    ensures c.maxSendFragment == 512 && c.maxOverhead == 29
    ensures c.writeShutdown == Open && PlainOf(c.records, ApplicationData) == data
  {
    hide Course, Zeros, TlsConnection.InOrder, TlsConnection.AlertsInPlace, TlsConnection.DataRoom, OneRecord, PlainOf;
    c := new TlsConnection(Blocking(5), 512, 29, 13, false, true);
    TwoRecords();
    assert c.CanGoOn(1024);
    ret := c.WriteAppData(data, 0);
    assert c.inflight <= data && [] + c.inflight == c.inflight;
  }

  /** A write of two records blocks in the second, a retry with one byte is refused, and
      a retry with everything succeeds: the second half is sealed twice. */
  method DataTwice(data: seq<byte>) returns (c: TlsConnection, first: int, short: int, again: int)
    requires |data| == 1024
    ensures c.Valid() && first <= 0 && short <= 0 && again == |data|
    ensures PlainOf(c.records, ApplicationData) == data + data[512..]
  {
    hide Course, Zeros, TlsConnection.InOrder, TlsConnection.AlertsInPlace, TlsConnection.AppRoom, OneRecord, PlainOf,
         Blocking, TlsConnection.Conserved;
    c, first := BlockedWrite(data);
    short := c.WriteAppData(data[..1], 0);
    assert c.Waits() == Waiting(512, true, 6);
    TwoRecords();
    again := c.WriteAppData(data, 0);
  }

  /** How far the data has been sealed, by the result of a write, or by what waits. */
  ghost function SealedTo(c: TlsConnection, ret: int): nat
    reads c
  {
    if ret > 0 then ret else c.wnum + c.PendingData()
  }

  lemma OnceOnly(accepted: seq<byte>, data: seq<byte>, inflight: nat, pending: nat, end: nat)
    requires pending <= inflight <= |data| && pending <= end <= |data|
    ensures accepted + data[..inflight] + data[pending..end] == accepted + data[..end] <==> pending == inflight
  {
    if pending == inflight {
      assert data[..inflight] + data[pending..end] == data[..end];
    } else {
      assert |accepted + data[..inflight] + data[pending..end]| != |accepted + data[..end]|;
    }
  }

  /** An offer that is shorter than what is in flight is refused.  A retry that offers it
      all again, whatever comes of it, has sealed the data once if and only if the shorter
      offer was not shorter than the count. */
  method ShortOffer(c: TlsConnection, few: seq<byte>, data: seq<byte>, address: nat) returns (refused: int, ret: int)
    requires c.Valid() && c.Conserved() && c.writeShutdown == Open && c.inflight <= data && |few| < |c.inflight|
    modifies c, c.writeBuffer, c.writeBuffer.buf
    ensures c.Valid() && refused <= 0 && SealedTo(c, ret) <= |data|
    ensures PlainOf(c.records, ApplicationData) == old(c.accepted) + data[..SealedTo(c, ret)]
            <==> |few| >= old(c.wnum)
  {
    hide TlsConnection.InOrder, TlsConnection.AlertsInPlace, TlsConnection.DataRoom, TlsConnection.Ended, PlainOf,
         TlsConnection.CanGoOn, TlsConnection.Waits;
    ghost var accepted, inflight, wnum, pending := c.accepted, |c.inflight|, c.wnum, c.PendingData();
    refused := c.WriteAppData(few, address);
    ret := c.WriteAppData(data, address);
    if |few| < wnum {
      OnceOnly(accepted, data, inflight, pending, SealedTo(c, ret));
    } else {
      assert c.accepted + [] == c.accepted;
    }
  }

  // A session in which a flight is flushed while a write is pending.

  lemma OneRecordBlocked(len: nat)
    requires len == 512
    ensures Course(Blocking(2), 29, 512, Waiting(0, false, 0), len) == (0, Waiting(len, true, 3))
  {
    hide Course;
    CourseStep(Blocking(2), 29, 512, Waiting(0, false, 0), len);
  }

  lemma NothingLeft(world: World, overhead: nat, max: nat, asked: nat, len: nat)
    requires 0 < len <= max
    ensures Course(world, overhead, max, Waiting(len, false, asked), len) == (len, Waiting(0, false, asked))
  {
    CourseStep(world, overhead, max, Waiting(len, false, asked), len);
  }

  /** The last record of a write of len bytes is pending, with bytes in the buffer or not. */
  ghost predicate Unfinished(c: TlsConnection, len: nat, buffered: bool)
    reads c, c.writeBuffer
  {
    && c.Valid() && c.Steady() && c.AlertsInPlace() && c.writeShutdown == Open && buffered == (c.writeBuffer.size > 0)
    && c.wpendPending && c.wnum + c.wpendTot == len && c.wpendTot <= c.maxSendFragment
  }

  /** A write of one record on a new connection, blocked. */
  method BlockedRecord(data: seq<byte>) returns (c: TlsConnection, ret: int)
    requires |data| == 512
    ensures fresh(c) && fresh(c.writeBuffer) && fresh(c.writeBuffer.buf)
    ensures ret <= 0 && Unfinished(c, |data|, true) && c.wpendTot == 512 && c.asked == 3
    ensures c.InOrder() && c.largest <= SAFE_CAP && PlainOf(c.records, ApplicationData) == data
    ensures c.world == Blocking(2) && c.maxSendFragment == 512 && c.maxOverhead == 29
  {
    hide Course, Zeros, TlsConnection.InOrder, OneRecord, PlainOf, TlsConnection.AlertsInPlace;
    c := new TlsConnection(Blocking(2), 512, 29, 13, false, true);
    OneRecordBlocked(512);
    assert c.CanGoOn(512);
    assert c.DataRoom(512) == 541;
    ret := c.WriteAppData(data, 0);
    assert c.inflight <= data && [] + c.inflight == c.inflight;
  }

  /** A message behind the blocked write, where nothing will stop a flush. */
  method BlockedBeforeMessage(data: seq<byte>, msg: seq<byte>) returns (c: TlsConnection, ret: int)
    requires |data| == |msg| == 512
    ensures fresh(c) && fresh(c.writeBuffer) && fresh(c.writeBuffer.buf)
    ensures ret <= 0 && c.Valid() && c.InOrder() && c.AlertsInPlace() && c.writeShutdown == Open
    ensures c.wpendPending && c.wpendType.ApplicationData? && c.wnum == 0 && c.wpendTot == 512 && c.largest <= SAFE_CAP
    ensures c.world == Blocking(2) && c.acceptMovingBuffer && !c.enablePartialWrite && c.maxSendFragment == 512
    ensures c.pendingFlight.Some? && c.FlushGoes() && PlainOf(c.records, ApplicationData) == data
  {
    hide PlainOf, WireOf, TlsConnection.AlertsInPlace, TlsConnection.Conserved, SSLBuffer.Contents,
         TlsConnection.InOrder, NoAlert, AlertLast, AllOrNothing;
    c, ret := BlockedRecord(data);
    ghost var before := c.records;
    assert c.world.seals(3) == Some(Zeros(541)) && c.world.takes(4) == c.world.takes(5) == 0x1_0000;
    var ok := c.AddMessage(msg);
    NoAlertAdded(before, msg, 512, c.records);
  }

  /** A write is blocked, and a message behind it flushed, which takes the write along. */
  method FlushedPending(data: seq<byte>, msg: seq<byte>) returns (c: TlsConnection, blocked: int, flushed: int)
    requires |data| == |msg| == 512
    ensures fresh(c) && fresh(c.writeBuffer) && fresh(c.writeBuffer.buf)
    ensures blocked <= 0 < flushed && Unfinished(c, |data|, false)
    ensures PlainOf(c.records, ApplicationData) == data && c.sent == WireOf(c.records)
  {
    hide PlainOf, WireOf, TlsConnection.AlertsInPlace, TlsConnection.InOrder, TlsConnection.FlushGoes;
    c, blocked := BlockedBeforeMessage(data, msg);
    flushed := c.FlushFlight();
  }

  /** The retry of such a write succeeds without another byte, whatever the world is like. */
  method RetryNeedsNoByte(c: TlsConnection, data: seq<byte>) returns (ret: int)
    requires Unfinished(c, |data|, false)
    modifies c, c.writeBuffer, c.writeBuffer.buf
    ensures c.Valid() && !c.wpendPending && ret == |data| && c.sent == old(c.sent)
  {
    hide Course, TlsConnection.DataRoom, PlainOf, TlsConnection.AlertsInPlace, TlsConnection.InOrder, SSLBuffer.Contents;
    NothingLeft(c.world, c.maxOverhead, c.maxSendFragment, c.asked, c.wpendTot);
    ret := c.WriteAppData(data, 0);
  }

  /** An alert is refused instead, then and whenever it is tried again, for the write that
      would have to be retried first is refused too. */
  method AlertNeverSent(c: TlsConnection, data: seq<byte>, tries: nat)
    requires Unfinished(c, |data|, false)
    modifies c, c.writeBuffer, c.writeBuffer.buf
    ensures c.Valid() && c.alertDispatch && NoAlert(c.records) && c.sent == old(c.sent)
  {
    hide PlainOf, TlsConnection.InOrder, TlsConnection.Conserved, TlsConnection.AlertSealed;
    var ret := c.SendAlert(2, 80);
    for i := 0 to tries
      invariant c.Valid() && (c.writeBuffer.buf == old(c.writeBuffer.buf) || fresh(c.writeBuffer.buf))
      invariant c.AlertsInPlace() && c.writeShutdown != Open && c.alertDispatch && NoAlert(c.records)
      invariant c.wpendPending && c.wpendType.ApplicationData? && c.sent == old(c.sent)
    {
      ret := c.WriteAppData(data, 0);
      ret := c.DispatchAlert();
    }
  }
}
