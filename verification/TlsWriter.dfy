/**
 The TLS write path: handshake flights, application data and alerts share one stream.
 Records wait in pendingFlight or in writeBuffer; the transport takes any part of what
 it is offered.  Sealing is left open: it fails, or yields some bytes.  The answers of
 the transport, the AEAD and the allocator are given by a World.
 */
module TlsWriter {
  import opened Bytes
  import opened SslBuffer
  import opened Protocol

  datatype ContentType = ChangeCipherSpec | Alert | Handshake | ApplicationData

  /** A record that was sealed, its plaintext and its bytes on the wire. */
  datatype Sealed = Sealed(typ: ContentType, plain: seq<byte>, wire: seq<byte>)

  datatype Shutdown = Open | CloseNotify | Failed

  const INT_MAX: nat := 0x7fff_ffff
  // where the two bytes of an alert are kept
  const ALERT_ADDRESS: nat := 0

  /** What is found outside: the n-th time something is asked, a write takes takes(n) bytes
      or as many as there are, the transport flushes(n) what it took or fails, sealing
      yields seals(n) or fails, and new memory is memory(n). */
  datatype World = World(takes: nat -> int, flushes: nat -> bool, seals: nat -> Option<seq<byte>>, memory: nat -> Memory)

  function Max(a: nat, b: int): nat { if a > b then a else b }
  function Min(a: nat, b: nat): nat { if a > b then b else a }

  /** What is written of a record that is sealed behind a flight into new memory, with
      extra bytes of room for the record; behind the flight and prefix bytes of the record
      the memory is aligned. */
  ghost function Written(world: World, asked: nat, prefix: nat, flight: seq<byte>, extra: nat, wire: seq<byte>): seq<byte>
    requires |wire| <= extra
  {
    var mem := world.memory(asked);
    var offset := AlignedOffset(|flight| + prefix, mem.address);
    Drain(Laid(mem, |flight| + extra + SSL3_ALIGN_PAYLOAD - 1, offset, flight + wire),
          offset, |flight| + |wire|, world.takes, asked + 2)
  }

  // How far a write gets when the transport takes all it is offered or nothing.

  /** What waits between two writes of application data: the length of the pending record,
      zero if none is, and whether bytes are left in the write buffer. */
  datatype Waiting = Waiting(pending: nat, buffered: bool, asked: nat)

  ghost predicate AllOrNothing(world: World) {
    forall n :: (world.takes(n) <= 0 || world.takes(n) > MAX_CAP) && world.seals(n) != Some([])
  }

  /** Whether sealing answers with a record of at most so many bytes. */
  predicate Seals(world: World, n: nat, room: nat) {
    world.seals(n).Some? && |world.seals(n).value| <= room
  }

  /** Whether sealing answers with a record for each piece of a message of len bytes. */
  predicate SealsAll(world: World, n: nat, overhead: nat, max: nat, len: nat)
    requires max > 0
    decreases len
  {
    if len <= max then Seals(world, n, len + overhead)
    else Seals(world, n, max + overhead) && SealsAll(world, n + 1, overhead, max, len - max)
  }

  /** How many of the next len bytes a single record brings out, and what waits then. */
  function OneRecord(world: World, overhead: nat, w: Waiting, len: nat): (r: (nat, Waiting)) {
    if w.pending > 0 && w.buffered && world.takes(w.asked) <= 0 then (0, w.(asked := w.asked + 1))
    else if w.pending > 0 then (w.pending, Waiting(0, false, if w.buffered then w.asked + 1 else w.asked))
    else if len + overhead > MAX_CAP then (0, w.(asked := w.asked + 1))
    else if !Seals(world, w.asked + 1, len + overhead) then (0, w.(asked := w.asked + 2))
    else if world.takes(w.asked + 2) <= 0 then (0, Waiting(len, true, w.asked + 3))
    else (len, Waiting(0, false, w.asked + 3))
  }

  /** How many of len bytes get out, and what waits then. */
  function Course(world: World, overhead: nat, max: nat, w: Waiting, len: nat): (r: (nat, Waiting))
    decreases len
  {
    var (n, next) := OneRecord(world, overhead, w, Min(len, max));
    if n == 0 || n >= len then (n, next)
    else
      var (rest, last) := Course(world, overhead, max, next, len - n);
      (n + rest, last)
  }

  lemma CourseStep(world: World, overhead: nat, max: nat, w: Waiting, len: nat)
    ensures
      var (n, next) := OneRecord(world, overhead, w, Min(len, max));
      Course(world, overhead, max, w, len)
      == if n == 0 || n >= len then (n, next)
         else (n + Course(world, overhead, max, next, len - n).0, Course(world, overhead, max, next, len - n).1)
    ensures var (n, next) := OneRecord(world, overhead, w, Min(len, max)); n > 0 ==> next.pending == 0
  {
  }

  /** The bytes of the records, in the order they were sealed. */
  ghost function WireOf(records: seq<Sealed>): seq<byte> {
    if |records| == 0 then [] else WireOf(records[..|records| - 1]) + records[|records| - 1].wire
  }

  /** The plaintext of the records of one type. */
  ghost function PlainOf(records: seq<Sealed>, typ: ContentType): seq<byte> {
    if |records| == 0 then []
    else
      var last := records[|records| - 1];
      PlainOf(records[..|records| - 1], typ) + (if last.typ == typ then last.plain else [])
  }

  /** One more record was sealed. */
  ghost predicate Grew(before: seq<Sealed>, typ: ContentType, plain: seq<byte>, after: seq<Sealed>) {
    |after| == |before| + 1 && after[..|before|] == before && after[|before|].typ == typ && after[|before|].plain == plain
  }

  /** The most room that writing len bytes asks for, when a record of pending bytes is to
      be finished first, or, if none is, so many bytes are buffered. */
  ghost function RoomFor(pending: nat, buffered: nat, flight: nat, len: nat, max: nat, overhead: nat, partial: bool): nat {
    var left := if len <= pending || (partial && pending > 0) then 0 else len - pending;
    if left == 0 || (pending == 0 && buffered > 0) then 0 else flight + (if left < max then left else max) + overhead
  }

  lemma RoomForOne(pending: nat, buffered: nat, flight: nat, len: nat, max: nat, overhead: nat, partial: bool)
    ensures pending == buffered == 0 && 0 < len ==>
      RoomFor(pending, buffered, flight, len, max, overhead, partial)
      == flight + (if len > max then max else len) + overhead
  {
  }

  lemma RoomAfter(pending: nat, buffered: nat, flight: nat, len: nat, max: nat, overhead: nat, done: nat, rest: nat)
    requires 0 < done < len && rest <= flight && (if pending == 0 then buffered == 0 else done == pending)
    ensures RoomFor(0, 0, rest, len - done, max, overhead, false)
         <= RoomFor(pending, buffered, flight, len, max, overhead, false)
  {
  }

  lemma GrewBy(before: seq<Sealed>, typ: ContentType, plain: seq<byte>, after: seq<Sealed>)
    requires Grew(before, typ, plain, after)
    ensures WireOf(after) == WireOf(before) + after[|before|].wire
    ensures PlainOf(after, Handshake) == PlainOf(before, Handshake) + (if typ == Handshake then plain else [])
    ensures PlainOf(after, ApplicationData)
         == PlainOf(before, ApplicationData) + (if typ == ApplicationData then plain else [])
  {
  }

  /** The records since before carry just this much of a handshake message. */
  ghost predicate Fragments(before: seq<Sealed>, done: seq<byte>, max: nat, after: seq<Sealed>) {
    && before <= after && (forall r <- after[|before|..] :: r.typ.Handshake? && |r.plain| <= max)
    && PlainOf(after, Handshake) == PlainOf(before, Handshake) + done
    && PlainOf(after, ApplicationData) == PlainOf(before, ApplicationData)
  }

  lemma NoFragments(records: seq<Sealed>, max: nat)
    ensures Fragments(records, [], max, records)
  {
    assert PlainOf(records, Handshake) + [] == PlainOf(records, Handshake);
  }

  lemma OneMoreFragment(start: seq<Sealed>, done: seq<byte>, max: nat, before: seq<Sealed>, chunk: seq<byte>,
                        after: seq<Sealed>)
    requires Fragments(start, done, max, before) && |chunk| <= max && Grew(before, Handshake, chunk, after)
    ensures Fragments(start, done + chunk, max, after) && |after| > |start|
  {
    GrewBy(before, Handshake, chunk, after);
    assert after[|start|..] == before[|start|..] + [after[|before|]];
    assert PlainOf(start, Handshake) + done + chunk == PlainOf(start, Handshake) + (done + chunk);
  }

  ghost predicate NoAlert(records: seq<Sealed>) {
    forall r <- records :: !r.typ.Alert?
  }

  ghost predicate AlertsAre(records: seq<Sealed>, alert: seq<byte>) {
    forall r <- records :: r.typ.Alert? ==> r.plain == alert
  }

  /** At most one alert, and no application data after it. */
  ghost predicate AlertLast(records: seq<Sealed>) {
    forall i, j | 0 <= i < j < |records| && records[i].typ.Alert? ::
      !records[j].typ.Alert? && !records[j].typ.ApplicationData?
  }

  class TlsConnection {
    const world: World
    // how often the world has been asked
    var asked: nat
    const writeBuffer: SSLBuffer
    var pendingFlight: Option<seq<byte>>
    var pendingFlightOffset: nat
    // what of the data offered in the last write is already sealed and sent
    var wnum: nat
    // the record that is sealed but not fully written
    var wpendPending: bool
    var wpendTot: nat
    var wpendBuf: nat
    var wpendType: ContentType
    var wpendRet: nat
    var writeShutdown: Shutdown
    var alertDispatch: bool
    var sendAlert: seq<byte>
    var maxSendFragment: nat
    var maxOverhead: nat
    // the part of a record in front of its ciphertext
    var alignPrefix: nat
    var enablePartialWrite: bool
    var acceptMovingBuffer: bool
    var transcript: Option<seq<byte>>

    // history
    ghost var records: seq<Sealed>
    ghost var sent: seq<byte>
    ghost var accepted: seq<byte>
    ghost var inflight: seq<byte>
    // the most the write buffer has held
    ghost var largest: nat

    ghost predicate Valid()
      reads this`pendingFlight, this`pendingFlightOffset, this`wpendPending, this`wpendRet, this`wpendTot
      reads this`maxSendFragment, this`sendAlert, writeBuffer
    {
      && writeBuffer.Valid() && (writeBuffer.size == 0 ==> writeBuffer.offset < SSL3_ALIGN_PAYLOAD)
      && 512 <= maxSendFragment <= MAX_PLAIN_LENGTH && |sendAlert| == 2
      && (pendingFlight.None? ==> pendingFlightOffset == 0)
      && (pendingFlight.Some? ==> pendingFlightOffset <= |pendingFlight.value|)
      && (wpendPending ==> wpendRet == wpendTot > 0)
    }

    /** The part of the flight that is still to be written. */
    ghost function Unflushed(): seq<byte>
      requires pendingFlight.Some? ==> pendingFlightOffset <= |pendingFlight.value|
      reads this`pendingFlight, this`pendingFlightOffset
    {
      if pendingFlight.None? then [] else pendingFlight.value[pendingFlightOffset..]
    }

    /** What is sent, followed by what waits to be. */
    ghost function Stream(): seq<byte>
      requires writeBuffer.Valid() && (pendingFlight.Some? ==> pendingFlightOffset <= |pendingFlight.value|)
      reads this`sent, this`pendingFlight, this`pendingFlightOffset, writeBuffer, writeBuffer.buf
    {
      sent + writeBuffer.Contents() + Unflushed()
    }

    /** Everything sealed is sent or waits to be, in the order it was sealed, unless the
        write buffer has held more than is safe. */
    ghost predicate InOrder()
      requires writeBuffer.Valid() && (pendingFlight.Some? ==> pendingFlightOffset <= |pendingFlight.value|)
      reads this`sent, this`pendingFlight, this`pendingFlightOffset, this`records, this`largest
      reads writeBuffer, writeBuffer.buf
    {
      largest <= SAFE_CAP ==> Stream() == WireOf(records) && Aligned(writeBuffer.offset, writeBuffer.size)
    }

    /** The room a write of len bytes asks for in the write buffer; none if it is refused
        or goes on with a pending record. */
    ghost function Room(len: nat): nat
      requires writeBuffer.Valid() && (pendingFlight.Some? ==> pendingFlightOffset <= |pendingFlight.value|)
      reads this`pendingFlight, this`pendingFlightOffset, this`wpendPending, this`maxOverhead, writeBuffer
    {
      if wpendPending || writeBuffer.size > 0 || len == 0 || len > MAX_PLAIN_LENGTH then 0
      else |Unflushed()| + len + maxOverhead
    }

    /** The most that writing the last len bytes of the data asks for. */
    ghost function DataRoom(len: nat): nat
      requires writeBuffer.Valid() && (pendingFlight.Some? ==> pendingFlightOffset <= |pendingFlight.value|)
      reads this`pendingFlight, this`pendingFlightOffset, this`wpendPending, this`wpendTot
      reads this`maxOverhead, this`maxSendFragment, this`enablePartialWrite, writeBuffer
    {
      RoomFor(if wpendPending then wpendTot else 0, writeBuffer.size, |Unflushed()|, len, maxSendFragment, maxOverhead,
              enablePartialWrite)
    }

    /** The most that writing len bytes of application data asks for. */
    ghost function AppRoom(len: nat): nat
      requires writeBuffer.Valid() && (pendingFlight.Some? ==> pendingFlightOffset <= |pendingFlight.value|)
      reads this, writeBuffer
    {
      if writeShutdown != Open || len < wnum then 0 else DataRoom(len - wnum)
    }

    /** Whether a record of plain bytes is sealed when the world is asked for the n-th time. */
    predicate Sealable(n: nat, plain: nat)
      reads this`maxOverhead
    {
      Seals(world, n, plain + maxOverhead)
    }

    /** What waits between two writes of application data. */
    function Waits(): Waiting
      reads this`wpendPending, this`wpendTot, this`asked, writeBuffer
    {
      Waiting(if wpendPending then wpendTot else 0, writeBuffer.size > 0, asked)
    }

    /** No more than a record of application data waits, and any offer of it is a retry. */
    ghost predicate Steady()
      reads this`pendingFlight, this`acceptMovingBuffer, this`enablePartialWrite, this`wpendPending, this`wpendType
      reads writeBuffer
    {
      && pendingFlight.None? && acceptMovingBuffer && !enablePartialWrite
      && (if wpendPending then wpendType.ApplicationData? else writeBuffer.size == 0)
    }

    /** A write of len bytes of application data, begun with w waiting, did what it does
        when the transport takes all or nothing. */
    ghost predicate Went(w: Waiting, len: nat, ret: int)
      reads this`pendingFlight, this`acceptMovingBuffer, this`enablePartialWrite, this`wpendPending, this`wpendType
      reads this`wpendTot, this`asked, this`maxOverhead, writeBuffer
    {
      Steady() && (Max(0, ret), Waits()) == OneRecord(world, maxOverhead, w, len)
    }

    /** The same of a write in any number of records, which got done bytes out. */
    ghost predicate Ran(w: Waiting, len: nat, done: int)
      reads this`pendingFlight, this`acceptMovingBuffer, this`enablePartialWrite, this`wpendPending, this`wpendType
      reads this`wpendTot, this`asked, this`maxOverhead, this`maxSendFragment, writeBuffer
    {
      Steady() && (done, Waits()) == Course(world, maxOverhead, maxSendFragment, w, len)
    }

    /** Whether the pending record, if any, is in the first record of an offer of len bytes,
        and the transport takes all or nothing, or need not be asked. */
    ghost predicate CanGoOn(len: nat)
      reads this`pendingFlight, this`acceptMovingBuffer, this`enablePartialWrite, this`wpendPending, this`wpendType
      reads this`wpendTot, this`maxSendFragment, writeBuffer
    {
      && Steady() && len > 0 && (wpendPending ==> wpendTot <= Min(len, maxSendFragment))
      && (AllOrNothing(world) || (wpendPending && wpendTot == len && writeBuffer.size == 0))
    }

    /** A record of it was written: with that the write is over, or the rest is to come. */
    ghost predicate Advanced(w: Waiting, len: nat, ret: int)
      reads this`pendingFlight, this`acceptMovingBuffer, this`enablePartialWrite, this`wpendPending, this`wpendType
      reads this`wpendTot, this`asked, this`maxOverhead, this`maxSendFragment, writeBuffer
    {
      if 0 < ret < len then
        && CanGoOn(len - ret) && !enablePartialWrite
        && var (rest, last) := Course(world, maxOverhead, maxSendFragment, Waits(), len - ret);
           Course(world, maxOverhead, maxSendFragment, w, len) == (ret + rest, last)
      else Ran(w, len, Max(0, ret))
    }

    /** The same of a whole write of len bytes, of which tot had been sealed and sent: its
        result, and the count it leaves. */
    ghost predicate Ended(w: Waiting, len: nat, tot: nat, ret: int)
      requires tot <= len
      reads this`pendingFlight, this`acceptMovingBuffer, this`enablePartialWrite, this`wpendPending, this`wpendType
      reads this`wpendTot, this`asked, this`maxOverhead, this`maxSendFragment, this`wnum, writeBuffer
    {
      var done := Course(world, maxOverhead, maxSendFragment, w, len - tot).0;
      && Ran(w, len - tot, done)
      && (if tot + done == len then ret == len && wnum == 0 else ret <= 0 && wnum == tot + done)
    }

    /** The n-th question was the only one, if the transport took all the bytes or none. */
    ghost predicate Tried(n: nat, size: nat, ret: int)
      reads this`asked, writeBuffer
    {
      && (size == 0 ==> ret > 0 && asked == n)
      && (size > 0 && world.takes(n) <= 0 ==> ret <= 0 && asked == n + 1 && writeBuffer.size == size)
      && (size > 0 && world.takes(n) >= size ==> ret > 0 && asked == n + 1)
    }

    /** The application data in the record that is not fully written. */
    function PendingData(): nat
      reads this`wpendPending, this`wpendType, this`wpendTot
    {
      if wpendPending && wpendType.ApplicationData? then wpendTot else 0
    }

    /** What was sealed as application data is what was accepted, followed by what is in
        flight: the part counted in wnum and the pending record. */
    ghost predicate Conserved()
      reads this`records, this`accepted, this`inflight, this`wnum, this`wpendPending, this`wpendType, this`wpendTot
    {
      PlainOf(records, ApplicationData) == accepted + inflight && |inflight| == wnum + PendingData()
    }

    /** The same while a write is under way, with its count n. */
    ghost predicate ConservedBut(n: nat)
      reads this`records, this`accepted, this`inflight, this`wpendPending, this`wpendType, this`wpendTot
    {
      PlainOf(records, ApplicationData) == accepted + inflight && |inflight| == n + PendingData()
    }

    /** The alert is sealed once, and application data never after it. */
    ghost predicate AlertsInPlace()
      reads this`records, this`writeShutdown, this`alertDispatch, this`sendAlert, this`wpendPending, this`wpendType
    {
      && AlertLast(records)
      && (writeShutdown.Open? ==> NoAlert(records) && !alertDispatch)
      && (alertDispatch && !NoAlert(records) ==> wpendPending && wpendType.Alert?)
      && (wpendPending && wpendType.Alert? ==> alertDispatch && !NoAlert(records))
      && AlertsAre(records, sendAlert)
    }

    constructor (world: World, maxSendFragment: nat, maxOverhead: nat, alignPrefix: nat, partial: bool, moving: bool)
      requires 512 <= maxSendFragment <= MAX_PLAIN_LENGTH
      ensures Valid() && InOrder() && Conserved() && AlertsInPlace()
      ensures fresh(writeBuffer) && fresh(writeBuffer.buf) && writeBuffer.size == 0 && writeBuffer.cap == 0
      ensures this.world == world && this.maxSendFragment == maxSendFragment && this.maxOverhead == maxOverhead
      ensures this.alignPrefix == alignPrefix && enablePartialWrite == partial && acceptMovingBuffer == moving
      ensures wnum == 0 && accepted == [] && inflight == []
      ensures asked == 0 && records == [] && sent == [] && largest == 0
      ensures pendingFlight.None? && !wpendPending && writeShutdown == Open
    {
      this.world, asked, largest := world, 0, 0;
      writeBuffer := new SSLBuffer();
      pendingFlight, pendingFlightOffset, wnum := None, 0, 0;
      wpendPending, wpendTot, wpendBuf, wpendType, wpendRet := false, 0, 0, ApplicationData, 0;
      writeShutdown, alertDispatch, sendAlert := Open, false, [0, 0];
      this.maxSendFragment, this.maxOverhead, this.alignPrefix := maxSendFragment, maxOverhead, alignPrefix;
      enablePartialWrite, acceptMovingBuffer, transcript := partial, moving, Some([]);
      records, sent, accepted, inflight := [], [], [], [];
    }

    // The environment.

    /** The transport: it takes a nonempty part of bs from the front, or fails. */
    method BioWrite(bs: seq<byte>) returns (ret: int)
      modifies this`sent, this`asked
      ensures asked == old(asked) + 1
      ensures ret == if world.takes(old(asked)) < |bs| then world.takes(old(asked)) else |bs|
      ensures sent == if ret > 0 then old(sent) + bs[..ret] else old(sent)
    {
      ret := world.takes(asked);
      asked := asked + 1;
      if ret > |bs| {
        ret := |bs|;
      }
      if ret > 0 {
        sent := sent + bs[..ret];
      }
    }

    method BioFlush() returns (ok: bool)
      modifies this`asked
      ensures asked == old(asked) + 1 && ok == world.flushes(old(asked))
    {
      ok := world.flushes(asked);
      asked := asked + 1;
    }

    method SealRecord(typ: ContentType, plain: seq<byte>, maxOut: nat) returns (wire: Option<seq<byte>>)
      modifies this`records, this`asked
      ensures asked == old(asked) + 1
      ensures wire == var w := world.seals(old(asked)); if w.Some? && |w.value| <= maxOut then w else None
      ensures records == if wire.Some? then old(records) + [Sealed(typ, plain, wire.value)] else old(records)
    {
      wire := world.seals(asked);
      asked := asked + 1;
      if wire.Some? && |wire.value| > maxOut {
        wire := None;
      }
      if wire.Some? {
        records := records + [Sealed(typ, plain, wire.value)];
      }
    }

    /** New keys, and with them another overhead and another part in front. */
    method SetWriteState(overhead: nat, prefix: nat)
      requires Valid()
      modifies this`maxOverhead, this`alignPrefix
      ensures maxOverhead == overhead && alignPrefix == prefix
      ensures Valid() && (old(InOrder()) ==> InOrder()) && (old(Conserved()) ==> Conserved())
      ensures old(AlertsInPlace()) ==> AlertsInPlace()
    {
      maxOverhead, alignPrefix := overhead, prefix;
    }

    // Handshake messages.

    method AddRecordToFlight(typ: ContentType, plain: seq<byte>) returns (ok: bool)
      requires Valid() && pendingFlightOffset == 0
      modifies this`pendingFlight, this`records, this`asked
      ensures Valid() && (old(InOrder()) ==> InOrder()) && asked == old(asked) + 1
      ensures ok == Sealable(old(asked), |plain|)
      ensures !ok ==> records == old(records)
      ensures ok ==> Queued(old(asked), old(records), old(Unflushed()), typ, plain)
    {
      hide SSLBuffer.Contents, WireOf, PlainOf;
      if pendingFlight.None? {
        pendingFlight := Some([]);
      }
      var wire := SealRecord(typ, plain, |plain| + maxOverhead);
      if wire.None? {
        return false;
      }
      pendingFlight := Some(pendingFlight.value + wire.value);
      GrewBy(old(records), typ, plain, records);
      StreamGrows(sent, writeBuffer.Contents(), old(Unflushed()), wire.value);
      return true;
    }

    /** One record was sealed behind the flight, as the answer to the n-th question. */
    ghost predicate Queued(n: nat, before: seq<Sealed>, flight: seq<byte>, typ: ContentType, plain: seq<byte>)
      requires pendingFlight.Some? ==> pendingFlightOffset <= |pendingFlight.value|
      reads this`records, this`pendingFlight, this`pendingFlightOffset
    {
      && Grew(before, typ, plain, records) && Some(records[|before|].wire) == world.seals(n)
      && pendingFlight.Some? && Unflushed() == flight + records[|before|].wire
    }

    lemma QueuedGrew(n: nat, before: seq<Sealed>, flight: seq<byte>, typ: ContentType, plain: seq<byte>)
      requires Valid() && Queued(n, before, flight, typ, plain)
      ensures Grew(before, typ, plain, records)
    {
    }

    /** Seals a message behind the flight, in as many records as it takes; done is what got
        sealed.  A message that fits into one record is one. */
    method AddFragments(msg: seq<byte>) returns (ok: bool, ghost done: seq<byte>)
      requires Valid() && pendingFlightOffset == 0
      modifies this`pendingFlight, this`records, this`asked
      ensures Valid() && (old(InOrder()) ==> InOrder())
      ensures done <= msg && Fragments(old(records), done, maxSendFragment, records)
      ensures ok ==> |records| > |old(records)| && done == msg
      // Only sealing can fail.
      ensures ok == SealsAll(world, old(asked), maxOverhead, maxSendFragment, |msg|)
      ensures |msg| <= maxSendFragment ==>
        && asked == old(asked) + 1 && ok == Sealable(old(asked), |msg|)
        && (ok ==> Queued(old(asked), old(records), old(Unflushed()), Handshake, msg))
    {
      hide InOrder, PlainOf, WireOf, Fragments, Queued, Unflushed;
      NoFragments(records, maxSendFragment);
      var rest, more := msg, true;
      done := [];
      while more
        invariant Valid() && pendingFlightOffset == 0 && (old(InOrder()) ==> InOrder())
        invariant msg == done + rest && (!more ==> rest == [])
        invariant SealsAll(world, old(asked), maxOverhead, maxSendFragment, |msg|)
               == (!more || SealsAll(world, asked, maxOverhead, maxSendFragment, |rest|))
        invariant |msg| <= maxSendFragment ==>
          if more then done == [] && asked == old(asked) && records == old(records) && Unflushed() == old(Unflushed())
          else asked == old(asked) + 1 && Sealable(old(asked), |msg|)
               && Queued(old(asked), old(records), old(Unflushed()), Handshake, msg)
        invariant Fragments(old(records), done, maxSendFragment, records) && (!more ==> |records| > |old(records)|)
        decreases |rest| + if more then 1 else 0
      {
        var n := if |rest| < maxSendFragment then |rest| else maxSendFragment;
        var chunk := rest[..n];
        assert |msg| <= maxSendFragment ==> chunk == msg;
        rest := rest[n..];
        ghost var before, flight := records, Unflushed();
        var added := AddRecordToFlight(Handshake, chunk);
        if !added {
          return false, done;
        }
        QueuedGrew(asked - 1, before, flight, Handshake, chunk);
        OneMoreFragment(old(records), done, maxSendFragment, before, chunk, records);
        done := done + chunk;
        more := rest != [];
      }
      return true, done;
    }

    /** Adds a message to the flight and the transcript. */
    method AddMessage(msg: seq<byte>) returns (ok: bool)
      requires Valid() && pendingFlightOffset == 0
      modifies this`pendingFlight, this`records, this`transcript, this`asked
      ensures Valid() && (old(InOrder()) ==> InOrder())
      ensures ok ==> |records| > |old(records)| && Fragments(old(records), msg, maxSendFragment, records)
      ensures !ok ==> exists done :: done <= msg && Fragments(old(records), done, maxSendFragment, records)
      ensures ok == SealsAll(world, old(asked), maxOverhead, maxSendFragment, |msg|)
      ensures |msg| <= maxSendFragment ==>
        && asked == old(asked) + 1 && ok == Sealable(old(asked), |msg|)
        && (ok ==> Queued(old(asked), old(records), old(Unflushed()), Handshake, msg))
      ensures old(Conserved()) ==> Conserved()
      ensures old(AlertsInPlace()) ==> AlertsInPlace()
      ensures transcript == if ok && old(transcript).Some? then Some(old(transcript).value + msg) else old(transcript)
    {
      hide InOrder, PlainOf, WireOf, AlertLast, NoAlert, Fragments, Queued;
      ghost var done;
      ok, done := AddFragments(msg);
      NoAlertAdded(old(records), done, maxSendFragment, records);
      if ok && transcript.Some? {
        transcript := Some(transcript.value + msg);
      }
    }

    method AddChangeCipherSpec() returns (ok: bool)
      requires Valid() && pendingFlightOffset == 0
      modifies this`pendingFlight, this`records, this`asked
      ensures Valid() && (old(InOrder()) ==> InOrder())
      ensures ok == Sealable(old(asked), 1) && asked == old(asked) + 1
      ensures !ok ==> records == old(records)
      ensures ok ==> Queued(old(asked), old(records), old(Unflushed()), ChangeCipherSpec, [1])
      ensures old(Conserved()) ==> Conserved()
      ensures old(AlertsInPlace()) ==> AlertsInPlace()
    {
      hide InOrder, WireOf, PlainOf, AlertLast, NoAlert, AlertsAre;
      ghost var before := records;
      ok := AddRecordToFlight(ChangeCipherSpec, [1]);
      if ok {
        GrewBy(before, ChangeCipherSpec, [1], records);
        GrewByOther(before, [1], records);
      }
    }

    // Writing.

    /** Offers what is in the write buffer. */
    method OfferBuffered() returns (ret: int)
      requires writeBuffer.Valid() && writeBuffer.size > 0
      modifies this`sent, this`asked
      ensures asked == old(asked) + 1
      ensures ret == if world.takes(old(asked)) < writeBuffer.size then world.takes(old(asked)) else writeBuffer.size
      ensures sent == if ret <= 0 then old(sent)
                      else old(sent) + writeBuffer.buf[writeBuffer.offset..writeBuffer.offset + ret]
    {
      ret := BioWrite(writeBuffer.Contents());
      if ret > 0 {
        SliceTake(writeBuffer.buf[..], writeBuffer.offset, writeBuffer.size, ret);
      }
    }

    /** One write of what is in the write buffer. */
    method WriteBuffered() returns (ret: int)
      requires writeBuffer.Valid() && writeBuffer.size > 0
      modifies this`sent, this`asked, writeBuffer`offset, writeBuffer`size, writeBuffer`cap
      ensures writeBuffer.Valid() && asked == old(asked) + 1
      ensures ret == if world.takes(old(asked)) < old(writeBuffer.size) then world.takes(old(asked)) else old(writeBuffer.size)
      ensures ret <= 0 ==> sent == old(sent) && unchanged(writeBuffer)
      ensures ret > 0 ==>
        && sent == old(sent) + writeBuffer.buf[old(writeBuffer.offset)..old(writeBuffer.offset) + ret]
        && writeBuffer.offset == (old(writeBuffer.offset) + ret) % 0x1_0000
        && writeBuffer.size == old(writeBuffer.size) - ret
    {
      hide SSLBuffer.Contents;
      ret := OfferBuffered();
      if ret > 0 {
        writeBuffer.Consume(ret);
      }
    }

    /** The same; what partial writes are to drain stays to be drained. */
    method DrainOnce() returns (ret: int)
      requires writeBuffer.Valid() && writeBuffer.size > 0
      modifies this`sent, this`asked, writeBuffer`offset, writeBuffer`size, writeBuffer`cap
      ensures writeBuffer.Valid() && asked == old(asked) + 1
      ensures ret == if world.takes(old(asked)) < old(writeBuffer.size) then world.takes(old(asked)) else old(writeBuffer.size)
      ensures ret <= 0 ==> unchanged(writeBuffer)
      ensures ret > 0 ==>
        && writeBuffer.offset == (old(writeBuffer.offset) + ret) % 0x1_0000
        && writeBuffer.size == old(writeBuffer.size) - ret && |sent| == |old(sent)| + ret
      ensures
        var mem := writeBuffer.buf[..];
        var all := old(sent) + Drain(mem, old(writeBuffer.offset), old(writeBuffer.size), world.takes, old(asked));
        if ret <= 0 then sent == all == old(sent)
        else sent + Drain(mem, writeBuffer.offset, writeBuffer.size, world.takes, asked) == all
    {
      hide Drain;
      OneWrite(writeBuffer.buf[..], writeBuffer.offset, writeBuffer.size, world.takes, asked, sent);
      ret := WriteBuffered();
    }

    /** Writes from the write buffer until it is empty or the transport takes no more. */
    method DrainBuffer() returns (ret: int)
      requires writeBuffer.Valid()
      modifies this`sent, this`asked, writeBuffer`offset, writeBuffer`size, writeBuffer`cap
      ensures writeBuffer.Valid() && (ret > 0 <==> writeBuffer.size == 0)
      ensures asked >= old(asked) && (ret <= 0 ==> asked > old(asked) && world.takes(asked - 1) <= 0)
      ensures
        var drained := Drain(old(writeBuffer.buf[..]), old(writeBuffer.offset), old(writeBuffer.size),
                             world.takes, old(asked));
        && sent == old(sent) + drained && writeBuffer.size == old(writeBuffer.size) - |drained|
        && writeBuffer.offset == (old(writeBuffer.offset) + |drained|) % 0x1_0000
      ensures Tried(old(asked), old(writeBuffer.size), ret)
    {
      hide Drain;
      ghost var mem, was := writeBuffer.buf[..], sent;
      ghost var offset, size := writeBuffer.offset, writeBuffer.size;
      ghost var all, done: nat := Drain(mem, offset, size, world.takes, asked), 0;
      while writeBuffer.size > 0
        invariant writeBuffer.Valid()
        invariant sent + Drain(mem, writeBuffer.offset, writeBuffer.size, world.takes, asked) == was + all
        invariant |sent| == |was| + done && writeBuffer.size == size - done
        invariant writeBuffer.offset == (offset + done) % 0x1_0000
        invariant asked >= old(asked)
        invariant if asked == old(asked) then writeBuffer.size == size
                  else if world.takes(old(asked)) < size then world.takes(old(asked)) > 0
                  else size > 0 && writeBuffer.size == 0 && asked == old(asked) + 1
        decreases writeBuffer.size
      {
        ret := DrainOnce();
        if ret <= 0 {
          return;
        }
        OffsetAdds(offset, done, ret);
        done := done + ret;
      }
      DrainedAll(mem, writeBuffer.offset, world.takes, asked, sent);
      return 1;
    }

    /** The same, and that it keeps the order where the offset cannot wrap. */
    method DrainInOrder() returns (ret: int)
      requires writeBuffer.Valid()
      modifies this`sent, this`asked, writeBuffer`offset, writeBuffer`size, writeBuffer`cap
      ensures writeBuffer.Valid() && (ret > 0 <==> writeBuffer.size == 0)
      ensures asked >= old(asked) && (ret <= 0 ==> asked > old(asked) && world.takes(asked - 1) <= 0)
      ensures sent == old(sent) + Drain(old(writeBuffer.buf[..]), old(writeBuffer.offset), old(writeBuffer.size),
                                        world.takes, old(asked))
      ensures old(Aligned(writeBuffer.offset, writeBuffer.size)) ==>
        && Aligned(writeBuffer.offset, writeBuffer.size)
        && sent + writeBuffer.Contents() == old(sent + writeBuffer.Contents())
      ensures Tried(old(asked), old(writeBuffer.size), ret)
    {
      hide Drain, Aligned, TlsConnection.Tried;
      ghost var mem, was, offset, size := writeBuffer.buf[..], sent, writeBuffer.offset, writeBuffer.size;
      if Aligned(offset, size) {
        AlignedDrains(mem, offset, size, world.takes, asked);
        DrainedFrom(was, mem, offset, size, Drain(mem, offset, size, world.takes, asked));
      }
      ret := DrainBuffer();
    }

    /** Writes out the write buffer, or as much as the transport takes. */
    method FlushWriteBuffer() returns (ret: int)
      requires Valid()
      modifies this`sent, this`asked, writeBuffer
      ensures Valid() && (old(InOrder()) ==> InOrder())
      ensures writeBuffer.buf == old(writeBuffer.buf) || fresh(writeBuffer.buf)
      ensures (ret > 0 <==> writeBuffer.size == 0) && (ret > 0 ==> writeBuffer.cap == 0)
      ensures asked >= old(asked) && (ret <= 0 ==> asked > old(asked) && world.takes(asked - 1) <= 0)
      ensures sent == old(sent) + Drain(old(writeBuffer.buf[..]), old(writeBuffer.offset), old(writeBuffer.size),
                                        world.takes, old(asked))
      ensures Tried(old(asked), old(writeBuffer.size), ret)
    {
      hide WireOf, Drain, SSLBuffer.Contents;
      ret := DrainInOrder();
      if ret > 0 {
        assert sent + writeBuffer.Contents() == sent;
        writeBuffer.Clear();
        assert sent + writeBuffer.Contents() == sent;
      }
    }

    /** One write of what is left of the flight. */
    method WriteFlight(flight: seq<byte>) returns (ret: int)
      requires pendingFlightOffset < |flight|
      modifies this`sent, this`asked, this`pendingFlightOffset
      ensures old(pendingFlightOffset) <= pendingFlightOffset <= |flight| && asked == old(asked) + 1
      ensures ret > 0 ==> pendingFlightOffset > old(pendingFlightOffset)
      ensures ret <= 0 ==> pendingFlightOffset == old(pendingFlightOffset) && sent == old(sent)
      ensures ret <= 0 ==> world.takes(old(asked)) <= 0
      ensures world.takes(old(asked)) >= |flight| - old(pendingFlightOffset) ==> pendingFlightOffset == |flight|
      ensures sent + flight[pendingFlightOffset..] == old(sent + flight[pendingFlightOffset..])
    {
      ghost var before, rest := sent, flight[pendingFlightOffset..];
      ret := BioWrite(flight[pendingFlightOffset..]);
      if ret > 0 {
        assert before + rest[..ret] + rest[ret..] == before + rest;
        pendingFlightOffset := pendingFlightOffset + ret;
      }
    }

    /** Writes what is left of the flight. */
    method WriteWholeFlight(flight: seq<byte>) returns (ret: int)
      requires pendingFlightOffset <= |flight|
      modifies this`sent, this`asked, this`pendingFlightOffset
      ensures pendingFlightOffset <= |flight| && (ret > 0 <==> pendingFlightOffset == |flight|)
      ensures asked >= old(asked) && (ret <= 0 ==> asked > old(asked) && world.takes(asked - 1) <= 0)
      ensures sent + flight[pendingFlightOffset..] == old(sent + flight[pendingFlightOffset..])
      ensures old(pendingFlightOffset) == |flight| ==> ret > 0 && asked == old(asked)
      ensures 0 < |flight| - old(pendingFlightOffset) <= world.takes(old(asked)) ==> ret > 0 && asked == old(asked) + 1
    {
      while pendingFlightOffset < |flight|
        invariant pendingFlightOffset <= |flight|
        invariant sent + flight[pendingFlightOffset..] == old(sent + flight[pendingFlightOffset..]) && asked >= old(asked)
        invariant if pendingFlightOffset == old(pendingFlightOffset) then asked == old(asked)
                  else if world.takes(old(asked)) < |flight| - old(pendingFlightOffset) then true
                  else pendingFlightOffset == |flight| && asked == old(asked) + 1
        decreases |flight| - pendingFlightOffset
      {
        ret := WriteFlight(flight);
        if ret <= 0 {
          return;
        }
      }
      return 1;
    }

    /** Whether nothing stops a flush of the flight. */
    ghost predicate FlushGoes()
      requires pendingFlight.Some? ==> pendingFlightOffset <= |pendingFlight.value|
      reads this`writeShutdown, this`pendingFlight, this`pendingFlightOffset, this`asked, writeBuffer
    {
      var n := if writeBuffer.size > 0 then asked + 1 else asked;
      pendingFlight.Some? ==>
        && writeShutdown == Open && |pendingFlight.value| <= INT_MAX
        && (writeBuffer.size > 0 ==> world.takes(asked) >= writeBuffer.size)
        && (Unflushed() != [] ==> world.takes(n) >= |Unflushed()|)
        && world.flushes(if Unflushed() != [] then n + 1 else n)
    }

    /** Writes out the flight with nothing in the write buffer. */
    method SendFlight() returns (ret: int)
      requires Valid() && pendingFlight.Some? && writeBuffer.size == 0
      modifies this`sent, this`asked, this`pendingFlight, this`pendingFlightOffset
      ensures Valid() && Stream() == old(Stream())
      ensures (ret > 0 <==> pendingFlight.None?) && (ret > 0 ==> sent == Stream())
      // It is the transport that refuses.
      ensures ret <= 0 ==>
        asked > old(asked) && if Unflushed() != [] then world.takes(asked - 1) <= 0 else !world.flushes(asked - 1)
      ensures
        var rest := old(|Unflushed()|);
        (rest > 0 ==> world.takes(old(asked)) >= rest) && world.flushes(if rest > 0 then old(asked) + 1 else old(asked))
        ==> ret > 0
    {
      assert writeBuffer.Contents() == [];
      hide SSLBuffer.Contents;
      NothingBuffered(sent, Unflushed());
      ret := WriteWholeFlight(pendingFlight.value);
      NothingBuffered(sent, Unflushed());
      if ret <= 0 {
        return;
      }
      var flushed := BioFlush();
      if !flushed {
        return -1;
      }
      assert Unflushed() == [];
      pendingFlight, pendingFlightOffset := None, 0;
      return 1;
    }

    /** The transport has just taken nothing, or has not flushed. */
    ghost predicate Blocked(before: nat)
      reads this`asked
    {
      asked > before && (world.takes(asked - 1) <= 0 || !world.flushes(asked - 1))
    }

    /** Writes out the flight, after whatever waits in the write buffer. */
    method FlushFlight() returns (ret: int)
      requires Valid()
      modifies this`sent, this`asked, this`pendingFlight, this`pendingFlightOffset, writeBuffer
      ensures Valid() && (old(InOrder()) ==> InOrder())
      ensures writeBuffer.buf == old(writeBuffer.buf) || fresh(writeBuffer.buf)
      ensures ret > 0 <==> pendingFlight.None?
      ensures ret > 0 && old(pendingFlight).Some? ==> writeBuffer.size == 0
      ensures ret <= 0 ==> writeShutdown != Open || (pendingFlight.Some? && |pendingFlight.value| > INT_MAX) || Blocked(old(asked))
      ensures old(InOrder()) && ret > 0 && old(pendingFlight).Some? && largest <= SAFE_CAP ==> sent == WireOf(records)
      ensures writeShutdown != Open && old(pendingFlight).Some? ==> ret <= 0 && sent == old(sent)
      ensures old(FlushGoes()) ==> ret > 0
    {
      hide WireOf, Drain, SSLBuffer.Contents, Stream;
      if pendingFlight.None? {
        return 1;
      }
      if writeShutdown != Open || |pendingFlight.value| > INT_MAX {
        return -1;
      }
      if writeBuffer.size > 0 {
        ret := FlushWriteBuffer();
        if ret <= 0 {
          return;
        }
      }
      ret := SendFlight();
    }

    // Records written directly: application data and alerts.

    /** Goes on with the record that is sealed, if it is the one now offered. */
    method WritePending(typ: ContentType, plain: seq<byte>, address: nat) returns (ret: int)
      requires Valid() && wpendPending
      modifies this`sent, this`asked, this`wpendPending, writeBuffer
      ensures Valid() && (old(InOrder()) ==> InOrder())
      ensures writeBuffer.buf == old(writeBuffer.buf) || fresh(writeBuffer.buf)
      ensures ret > 0 ==> !wpendPending && ret == wpendTot <= |plain| && wpendType == typ && writeBuffer.size == 0
      ensures ret > 0 ==> acceptMovingBuffer || wpendBuf == address
      ensures ret <= 0 ==> wpendPending
      ensures wpendTot <= |plain| && wpendType == typ && (acceptMovingBuffer || wpendBuf == address) ==>
        (ret <= 0 ==> Blocked(old(asked)))
      ensures wpendTot > |plain| || wpendType != typ ==> ret <= 0 && sent == old(sent)
      ensures wpendTot <= |plain| && wpendType == typ && wpendBuf == address ==>
        sent == old(sent) + Drain(old(writeBuffer.buf[..]), old(writeBuffer.offset), old(writeBuffer.size),
                                  world.takes, old(asked))
      ensures old(writeBuffer.size) == 0 ==> sent == old(sent)
      ensures wpendTot <= |plain| && wpendType == typ && (acceptMovingBuffer || wpendBuf == address) ==>
        Tried(old(asked), old(writeBuffer.size), ret)
    {
      hide InOrder;
      if wpendTot > |plain| || (!acceptMovingBuffer && wpendBuf != address) || wpendType != typ {
        // A retry with something else.
        return -1;
      }
      ret := FlushWriteBuffer();
      if ret <= 0 {
        return;
      }
      wpendPending := false;
      return wpendRet;
    }

    /** Moves what is left of the flight into the write buffer, with room for more. */
    method TakeFlight(extra: nat) returns (ok: bool)
      requires Valid() && writeBuffer.size == 0
      modifies this`asked, this`largest, this`pendingFlight, this`pendingFlightOffset, writeBuffer, writeBuffer.buf
      ensures Valid() && (writeBuffer.buf == old(writeBuffer.buf) || fresh(writeBuffer.buf))
      ensures asked == old(asked) + 1 && ok == (old(|Unflushed()|) + extra <= MAX_CAP)
      ensures Stream() == old(Stream()) && (old(InOrder()) ==> InOrder())
      ensures largest == if ok then Max(old(largest), old(|Unflushed()|)) else old(largest)
      ensures ok ==>
        && pendingFlight.None? && writeBuffer.Contents() == old(Unflushed())
        && writeBuffer.cap - writeBuffer.size >= extra && writeBuffer.offset < SSL3_ALIGN_PAYLOAD
      ensures ok && old(writeBuffer.cap) == 0 < extra ==>
        && writeBuffer.offset == AlignedOffset(old(|Unflushed()|) + alignPrefix, world.memory(old(asked)).address)
        && writeBuffer.buf.Length == old(|Unflushed()|) + extra + SSL3_ALIGN_PAYLOAD - 1
        && writeBuffer.IsLaid(world.memory(old(asked)))
      ensures !ok ==> unchanged(writeBuffer) && pendingFlight == old(pendingFlight)
                      && pendingFlightOffset == old(pendingFlightOffset)
    {
      hide Laid, WireOf, SSLBuffer.Contents, SSLBuffer.IsLaid;
      var flightLen := if pendingFlight.Some? then |pendingFlight.value| - pendingFlightOffset else 0;
      ok := writeBuffer.EnsureCap(flightLen + alignPrefix, flightLen + extra, world.memory(asked));
      asked := asked + 1;
      if ok {
        MoveFlight();
      }
    }

    /** Moves what is left of the flight into the empty write buffer, where there is room. */
    method MoveFlight()
      requires Valid() && writeBuffer.size == 0 && |Unflushed()| <= writeBuffer.cap
      modifies this`largest, this`pendingFlight, this`pendingFlightOffset, writeBuffer`size, writeBuffer.buf
      ensures Valid() && pendingFlight.None? && writeBuffer.Contents() == old(Unflushed())
      ensures Stream() == old(Stream()) && (old(InOrder()) ==> InOrder())
      ensures largest == Max(old(largest), old(|Unflushed()|))
      ensures forall mem :: old(writeBuffer.IsLaid(mem)) ==> writeBuffer.IsLaid(mem)
    {
      hide Laid, WireOf, SSLBuffer.Contents, SSLBuffer.IsLaid;
      ghost var before, flight := sent, Unflushed();
      assert writeBuffer.Contents() == [];
      FlightTaken(before, flight);
      if pendingFlight.Some? {
        writeBuffer.Append(pendingFlight.value[pendingFlightOffset..]);
        pendingFlight, pendingFlightOffset := None, 0;
      }
      largest := Max(largest, writeBuffer.size);
    }

    /** Seals a record into the write buffer. */
    method SealBuffered(typ: ContentType, plain: seq<byte>) returns (ok: bool)
      requires Valid() && pendingFlight.None? && writeBuffer.offset < SSL3_ALIGN_PAYLOAD
      requires writeBuffer.cap - writeBuffer.size >= |plain| + maxOverhead
      modifies this`asked, this`records, this`largest, writeBuffer`size, writeBuffer.buf
      ensures Valid() && asked == old(asked) + 1 && ok == Sealable(old(asked), |plain|)
      ensures old(InOrder()) && old(largest) >= old(writeBuffer.size) ==> InOrder()
      ensures largest == if ok then Max(old(largest), writeBuffer.size) else old(largest)
      ensures !ok ==> records == old(records) && writeBuffer.size == old(writeBuffer.size)
      ensures ok ==>
        var wire := world.seals(old(asked)).value;
        && Grew(old(records), typ, plain, records) && records[|old(records)|].wire == wire
        && writeBuffer.Contents() == old(writeBuffer.Contents()) + wire
      ensures forall mem :: old(writeBuffer.IsLaid(mem)) ==> ok ==> writeBuffer.IsLaid(mem)
    {
      hide Laid, PlainOf, WireOf, SSLBuffer.IsLaid, SSLBuffer.Contents;
      // The overhead is the most that sealing adds.
      var wire := SealRecord(typ, plain, |plain| + maxOverhead);
      if wire.None? {
        return false;
      }
      ghost var before, contents := sent, writeBuffer.Contents();
      writeBuffer.Append(wire.value);
      GrewBy(old(records), typ, plain, records);
      ContentsGrow(before, contents, wire.value);
      largest := Max(largest, writeBuffer.size);
      return true;
    }

    /** Seals a record behind what is left of the flight, in the write buffer. */
    method SealBehindFlight(typ: ContentType, plain: seq<byte>) returns (ok: bool)
      requires Valid() && writeBuffer.size == 0 && |plain| > 0
      modifies this`asked, this`records, this`largest, this`pendingFlight, this`pendingFlightOffset
      modifies writeBuffer, writeBuffer.buf
      ensures Valid() && (writeBuffer.buf == old(writeBuffer.buf) || fresh(writeBuffer.buf))
      ensures |Unflushed()| <= old(|Unflushed()|) && (old(InOrder()) ==> InOrder())
      ensures ok == (old(|Unflushed()|) + |plain| + maxOverhead <= MAX_CAP && Sealable(old(asked) + 1, |plain|))
      ensures !ok ==> records == old(records)
      ensures largest <= Max(old(largest), old(|Unflushed()|) + |plain| + maxOverhead)
      ensures asked == old(asked) + (if old(|Unflushed()|) + |plain| + maxOverhead <= MAX_CAP then 2 else 1)
      ensures old(Unflushed()) == [] ==> !ok ==> writeBuffer.size == 0
      ensures ok || old(pendingFlight).None? ==> pendingFlight.None?
      ensures ok ==> writeBuffer.size == old(|Unflushed()|) + |world.seals(old(asked) + 1).value|
      ensures ok ==>
        var wire := world.seals(old(asked) + 1).value;
        && Grew(old(records), typ, plain, records) && records[|old(records)|].wire == wire
        && largest >= old(|Unflushed()|) + |wire|
        && (old(writeBuffer.cap) == 0 ==>
              Drain(writeBuffer.buf[..], writeBuffer.offset, writeBuffer.size, world.takes, asked)
              == Written(world, old(asked), alignPrefix, old(Unflushed()), |plain| + maxOverhead, wire))
    {
      hide WireOf, Drain, TlsConnection.Stream, TlsConnection.InOrder, Laid, Written, PlainOf, SSLBuffer.Contents;
      ghost var flight, n, unused := Unflushed(), asked, writeBuffer.cap == 0;
      ok := TakeFlight(|plain| + maxOverhead);
      if !ok {
        return;
      }
      ok := SealBuffered(typ, plain);
      if ok && unused {
        WrittenIs(world, n, alignPrefix, flight, |plain| + maxOverhead, world.seals(n + 1).value, writeBuffer.buf[..],
                  writeBuffer.offset);
      }
    }

    /** Writes one record, or goes on with the one that is pending. */
    method DoWrite(typ: ContentType, plain: seq<byte>, address: nat) returns (ret: int)
      requires Valid()
      modifies this`asked, this`records, this`sent, this`largest, this`pendingFlight, this`pendingFlightOffset
      modifies this`wpendPending, this`wpendTot, this`wpendBuf, this`wpendType, this`wpendRet
      modifies writeBuffer, writeBuffer.buf
      ensures Valid() && (writeBuffer.buf == old(writeBuffer.buf) || fresh(writeBuffer.buf))
      ensures |Unflushed()| <= old(|Unflushed()|) && (old(InOrder()) ==> InOrder())
      ensures largest <= Max(old(largest), old(Room(|plain|)))
      ensures Wrote(old(wpendPending), old(wpendType), old(wpendTot), old(records), typ, plain, ret)
      ensures ret > 0 ==> writeBuffer.size == 0 && (old(wpendPending) || old(writeBuffer.size) == 0)
      ensures records != old(records) ==> wpendBuf == address && wpendRet == |plain|
      // A record is sealed exactly if nothing is pending or buffered and the world agrees.
      ensures records != old(records) <==>
        0 < old(Room(|plain|)) <= MAX_CAP && Sealable(old(asked) + 1, |plain|)
      ensures records != old(records) ==>
        var wire := records[|old(records)|].wire;
        && wire == world.seals(old(asked) + 1).value && largest >= old(|Unflushed()|) + |wire|
        && (old(writeBuffer.cap) == 0 ==>
              sent == old(sent) + Written(world, old(asked), alignPrefix, old(Unflushed()), |plain| + maxOverhead, wire))
      ensures typ.ApplicationData? && old(Steady()) && Max(1, old(Waits()).pending) <= |plain| <= MAX_PLAIN_LENGTH
              && (AllOrNothing(world) || old(wpendPending && writeBuffer.size == 0))
              ==> Went(old(Waits()), |plain|, ret)
      ensures old(wpendPending && (wpendType != typ || writeBuffer.size == 0)) ==> sent == old(sent)
    {
      hide InOrder, Laid, Drain, Written, WireOf, PlainOf;
      if wpendPending {
        ret := WritePending(typ, plain, address);
        return;
      }
      if |plain| > MAX_PLAIN_LENGTH || writeBuffer.size > 0 {
        return -1;
      }
      if |plain| == 0 {
        return 0;
      }
      ret := WriteNew(typ, plain, address);
    }

    /** Seals a new record and writes it. */
    method WriteNew(typ: ContentType, plain: seq<byte>, address: nat) returns (ret: int)
      requires Valid() && !wpendPending && writeBuffer.size == 0 && 0 < |plain| <= MAX_PLAIN_LENGTH
      modifies this`asked, this`records, this`sent, this`largest, this`pendingFlight, this`pendingFlightOffset
      modifies this`wpendPending, this`wpendTot, this`wpendBuf, this`wpendType, this`wpendRet
      modifies writeBuffer, writeBuffer.buf
      ensures Valid() && (writeBuffer.buf == old(writeBuffer.buf) || fresh(writeBuffer.buf))
      ensures |Unflushed()| <= old(|Unflushed()|) && (old(InOrder()) ==> InOrder())
      ensures largest <= Max(old(largest), old(|Unflushed()|) + |plain| + maxOverhead)
      ensures ret > 0 ==> writeBuffer.size == 0
      ensures
        if old(|Unflushed()|) + |plain| + maxOverhead <= MAX_CAP && Sealable(old(asked) + 1, |plain|) then
          var wire := world.seals(old(asked) + 1).value;
          && Grew(old(records), typ, plain, records) && records[|old(records)|].wire == wire
          && wpendType == typ && wpendBuf == address && wpendTot == wpendRet == |plain|
          && wpendPending == (ret <= 0) && (ret > 0 ==> ret == |plain|)
          && largest >= old(|Unflushed()|) + |wire|
          && (old(writeBuffer.cap) == 0 ==>
                sent == old(sent) + Written(world, old(asked), alignPrefix, old(Unflushed()), |plain| + maxOverhead, wire))
        else ret <= 0 && records == old(records) && !wpendPending
      ensures typ.ApplicationData? && old(Steady()) && AllOrNothing(world) ==> Went(old(Waits()), |plain|, ret)
    {
      hide InOrder, Drain, Written, WireOf, PlainOf, Grew;
      var sealed := SealBehindFlight(typ, plain);
      if !sealed {
        return -1;
      }
      ret := WriteSealed(typ, plain, address);
    }

    /** Remembers the arguments, to know a retry by, and writes what was sealed. */
    method WriteSealed(typ: ContentType, plain: seq<byte>, address: nat) returns (ret: int)
      requires Valid() && |plain| > 0
      modifies this`sent, this`asked, writeBuffer
      modifies this`wpendPending, this`wpendTot, this`wpendBuf, this`wpendType, this`wpendRet
      ensures Valid() && (old(InOrder()) ==> InOrder())
      ensures writeBuffer.buf == old(writeBuffer.buf) || fresh(writeBuffer.buf)
      ensures wpendType == typ && wpendBuf == address && wpendTot == wpendRet == |plain|
      ensures wpendPending == (ret <= 0) && (ret > 0 ==> ret == |plain| && writeBuffer.size == 0)
      ensures sent == old(sent) + Drain(old(writeBuffer.buf[..]), old(writeBuffer.offset), old(writeBuffer.size),
                                        world.takes, old(asked))
      ensures Tried(old(asked), old(writeBuffer.size), ret)
    {
      hide InOrder, Drain, Tried;
      wpendTot, wpendBuf, wpendType, wpendRet, wpendPending := |plain|, address, typ, |plain|, true;
      ret := WritePending(typ, plain, address);
    }

    /** What a write did: it left a pending record pending, or finished it, or sealed one
        new record, which is pending until it is fully written. */
    ghost predicate Wrote(wasPending: bool, wasType: ContentType, wasTot: nat, before: seq<Sealed>,
                          typ: ContentType, plain: seq<byte>, ret: int)
      reads this`records, this`wpendPending, this`wpendTot, this`wpendType
    {
      if wasPending then
        && records == before && wpendType == wasType && wpendTot == wasTot && wpendPending == (ret <= 0)
        && (ret > 0 ==> wasType == typ && ret == wasTot <= |plain|)
      else if records == before then ret <= 0 && !wpendPending
      else
        && Grew(before, typ, plain, records) && |plain| > 0 && wpendType == typ && wpendTot == |plain|
        && wpendPending == (ret <= 0) && (ret > 0 ==> ret == |plain|)
    }

    lemma Advances(w: Waiting, len: nat, ret: int)
      requires Valid() && len > 0 && Went(w, Min(len, maxSendFragment), ret) && ret <= len
      requires AllOrNothing(world) || (w.pending == len && !w.buffered)
      ensures Advanced(w, len, ret)
    {
      CourseStep(world, maxOverhead, maxSendFragment, w, len);
    }

    /** Writes one record of application data, or goes on with the one that is pending;
        left is how much there is to be written in all. */
    method WriteAppRecord(plain: seq<byte>, ghost left: nat, address: nat) returns (ret: int)
      requires Valid() && writeShutdown == Open && |plain| == Min(left, maxSendFragment)
      modifies this`asked, this`records, this`sent, this`largest, this`pendingFlight, this`pendingFlightOffset
      modifies writeBuffer, writeBuffer.buf
      modifies this`wpendPending, this`wpendTot, this`wpendBuf, this`wpendType, this`wpendRet
      ensures Valid() && (writeBuffer.buf == old(writeBuffer.buf) || fresh(writeBuffer.buf))
      ensures |Unflushed()| <= old(|Unflushed()|) && (old(InOrder()) ==> InOrder())
      ensures
        && largest <= Max(old(largest), old(DataRoom(left)))
        && (0 < ret < left && !enablePartialWrite ==> DataRoom(left - ret) <= old(DataRoom(left)))
      ensures Wrote(old(wpendPending), old(wpendType), old(wpendTot), old(records), ApplicationData, plain, ret)
      ensures old(AlertsInPlace()) ==> AlertsInPlace()
      ensures old(wpendPending && writeBuffer.size == 0) ==>
        sent == old(sent) && (ret > 0 ==> ret == old(wpendTot)) && (ret <= 0 ==> wpendPending)
      ensures old(CanGoOn(left)) ==> Advanced(old(Waits()), left, ret)
    {
      hide InOrder, AlertLast, NoAlert, AlertsAre, SSLBuffer.Valid, Written, RoomFor, Steady, Went, Advanced;
      ghost var before, flight, buffered := records, |Unflushed()|, writeBuffer.size;
      ghost var pending := if wpendPending then wpendTot else 0;
      ghost var w, on := Waits(), CanGoOn(left);
      RoomForOne(pending, buffered, flight, left, maxSendFragment, maxOverhead, enablePartialWrite);
      ret := DoWrite(ApplicationData, plain, address);
      if 0 < ret < left && !enablePartialWrite {
        RoomAfter(pending, buffered, flight, left, maxSendFragment, maxOverhead, ret, |Unflushed()|);
      }
      if records != before && NoAlert(before) {
        GrewWithoutAlert(before, ApplicationData, plain, records);
      }
      if on {
        Advances(w, left, ret);
      }
    }

    /** One record's worth of the data. */
    method WriteChunk(ghost base: seq<byte>, data: seq<byte>, ghost from: nat, tot: nat, nw: nat, address: nat)
      returns (ret: int)
      requires Valid() && tot + nw <= |data| && writeShutdown == Open
      requires nw == Min(|data| - tot, maxSendFragment)
      modifies this`asked, this`records, this`sent, this`largest, this`pendingFlight, this`pendingFlightOffset
      modifies writeBuffer, writeBuffer.buf
      modifies this`wpendPending, this`wpendTot, this`wpendBuf, this`wpendType, this`wpendRet
      ensures Valid() && (writeBuffer.buf == old(writeBuffer.buf) || fresh(writeBuffer.buf))
      ensures |Unflushed()| <= old(|Unflushed()|) && ret <= nw && (old(InOrder()) ==> InOrder())
      ensures var left := |data| - tot;
        && largest <= Max(old(largest), old(DataRoom(left)))
        && (0 < ret < left && !enablePartialWrite ==> DataRoom(left - ret) <= old(DataRoom(left)))
      ensures old(SealedFrom(base, data, from, tot)) ==> SealedFrom(base, data, from, if ret > 0 then tot + ret else tot)
      ensures ret > 0 ==> PendingData() == 0
      ensures |records| <= |old(records)| + 1
      ensures old(PendingData()) > nw ==> ret <= 0 && records == old(records) && PendingData() == old(PendingData())
      ensures old(AlertsInPlace()) ==> AlertsInPlace()
      ensures old(wpendPending && writeBuffer.size == 0) ==>
        sent == old(sent) && (ret > 0 ==> ret == old(wpendTot)) && (ret <= 0 ==> wpendPending)
      ensures old(CanGoOn(|data| - tot)) ==> Advanced(old(Waits()), |data| - tot, ret)
    {
      hide InOrder, PlainOf, DataRoom, AlertsInPlace, Advanced, CanGoOn, Waits, Valid;
      ghost var before, chunk := records, data[tot..tot + nw];
      ret := WriteAppRecord(data[tot..tot + nw], |data| - tot, address + tot);
      if records != before && from <= tot && PlainOf(before, ApplicationData) == base + data[from..tot] {
        ChunkSealed(base, data, from, tot, nw, before, records);
      }
    }

    /** Writes the data from offset tot0 on; tot is how far it got. */
    method WriteRecords(ghost base: seq<byte>, data: seq<byte>, ghost from: nat, tot0: nat, address: nat)
      returns (ret: int, tot: nat)
      requires Valid() && tot0 <= |data| && writeShutdown == Open
      modifies this`asked, this`records, this`sent, this`largest, this`pendingFlight, this`pendingFlightOffset
      modifies writeBuffer, writeBuffer.buf
      modifies this`wpendPending, this`wpendTot, this`wpendBuf, this`wpendType, this`wpendRet
      ensures Valid() && (writeBuffer.buf == old(writeBuffer.buf) || fresh(writeBuffer.buf))
      ensures tot0 <= tot <= |data| && (ret > 0 ==> ret == tot)
      ensures old(InOrder()) ==> InOrder()
      ensures largest <= Max(old(largest), old(DataRoom(|data| - tot0)))
      ensures old(SealedFrom(base, data, from, tot0)) ==> SealedFrom(base, data, from, tot)
      ensures ret > 0 ==> PendingData() == 0
      ensures tot0 + old(PendingData()) > |data| ==>
        ret <= 0 && tot == tot0 && records == old(records) && PendingData() == old(PendingData())
      ensures old(AlertsInPlace()) ==> AlertsInPlace()
      ensures old(wpendPending && writeBuffer.size == 0 && wpendTot == |data| - tot0) ==> sent == old(sent)
      ensures tot0 < |data| && ret <= 0 ==> tot < |data|
      ensures ret > 0 && !enablePartialWrite ==> tot == |data|
      ensures enablePartialWrite ==> |records| <= |old(records)| + 1
      ensures old(CanGoOn(|data| - tot0)) ==> Ran(old(Waits()), |data| - tot0, tot - tot0)
    {
      hide InOrder, PlainOf, AlertsInPlace, SealedFrom, DataRoom, Course, Steady, Waits, CanGoOn;
      tot := tot0;
      var n: nat := |data| - tot;
      ghost var course := Course(world, maxOverhead, maxSendFragment, Waits(), n);
      while true
        invariant Valid() && (writeBuffer.buf == old(writeBuffer.buf) || fresh(writeBuffer.buf))
        invariant tot0 <= tot && tot + n == |data| && |Unflushed()| <= old(|Unflushed()|)
        invariant old(InOrder()) ==> InOrder()
        invariant largest <= Max(old(largest), old(DataRoom(|data| - tot0)))
        invariant DataRoom(n) <= old(DataRoom(|data| - tot0))
        invariant old(SealedFrom(base, data, from, tot0)) ==> SealedFrom(base, data, from, tot)
        invariant tot0 + old(PendingData()) > |data| ==>
          tot == tot0 && records == old(records) && PendingData() == old(PendingData())
        invariant old(AlertsInPlace()) ==> AlertsInPlace()
        invariant tot0 < |data| ==> n > 0
        invariant enablePartialWrite ==> records == old(records)
        invariant old(wpendPending && writeBuffer.size == 0 && wpendTot == |data| - tot0) ==>
          sent == old(sent) && wpendPending && writeBuffer.size == 0 && wpendTot == n
        invariant old(CanGoOn(|data| - tot0)) ==> CanGoOn(n)
        invariant old(CanGoOn(|data| - tot0)) ==>
          var (rest, last) := Course(world, maxOverhead, maxSendFragment, Waits(), n); course == (tot - tot0 + rest, last)
        decreases n
      {
        var nw := if n > maxSendFragment then maxSendFragment else n;
        ret := WriteChunk(base, data, from, tot, nw, address);
        if ret <= 0 {
          return;
        }
        if ret == n || enablePartialWrite {
          return tot + ret, tot + ret;
        }
        n, tot := n - ret, tot + ret;
      }
    }

    /** Writes application data in records of at most maxSendFragment.  A caller told to
        retry must offer again what is in flight; then nothing is lost or repeated. */
    method WriteAppData(data: seq<byte>, address: nat) returns (ret: int)
      requires Valid()
      modifies this`asked, this`records, this`sent, this`largest, this`pendingFlight, this`pendingFlightOffset
      modifies writeBuffer, writeBuffer.buf
      modifies this`wpendPending, this`wpendTot, this`wpendBuf, this`wpendType, this`wpendRet
      modifies this`wnum, this`accepted, this`inflight
      ensures Valid() && (writeBuffer.buf == old(writeBuffer.buf) || fresh(writeBuffer.buf))
      ensures old(InOrder()) ==> InOrder()
      ensures largest <= Max(old(largest), old(AppRoom(|data|)))
      ensures ret <= |data|
      // With partial writes a call seals one record at most, and without gets all out or fails.
      ensures enablePartialWrite ==> |records| <= |old(records)| + 1
      ensures ret > 0 && !enablePartialWrite ==> ret == |data|
      ensures writeShutdown != Open ==> ret == -1 && unchanged(this) && unchanged(writeBuffer)
      ensures writeShutdown == Open && |data| < old(wnum) ==>
        ret == -1 && wnum == 0 && asked == old(asked) && records == old(records) && WriteUnchanged()
      // What is sealed goes on behind what the count and the pending record stand for.
      ensures writeShutdown == Open && old(wnum + PendingData()) <= |data| ==>
        SealedSince(old(PlainOf(records, ApplicationData)), data, old(wnum + PendingData()), ret)
      // An offer shorter than what is in flight seals nothing; the next correct retry is
      // taken for one if and only if the offer was not shorter than the count.
      ensures writeShutdown == Open && old(Conserved()) && |data| < |old(inflight)| ==>
        && ret <= 0 && records == old(records) && accepted == old(accepted) && inflight == old(inflight)
        && (Conserved() <==> |data| >= old(wnum))
      ensures old(Conserved()) && old(inflight) <= data ==>
                && Conserved()
                && accepted == old(accepted) + (if ret > 0 then data[..ret] else [])
                && (if ret > 0 then inflight == [] else old(inflight) <= inflight <= data)
      ensures old(AlertsInPlace()) ==> AlertsInPlace()
      // A pending record that is no longer in the buffer is finished without another byte.
      ensures old(wpendPending && writeBuffer.size == 0 && wnum + wpendTot == |data|) ==> sent == old(sent)
      ensures writeShutdown == Open && old(wnum) <= |data| && old(CanGoOn(|data| - wnum)) ==>
        Ended(old(Waits()), |data|, old(wnum), ret)
    {
      hide InOrder, PlainOf, AlertsInPlace, DataRoom, CanGoOn, Waits, Ended;
      if writeShutdown != Open {
        return -1;
      }
      var tot := wnum;
      wnum := 0;
      if |data| < tot {
        return -1;
      }
      ret := WriteFrom(data, tot, address);
    }

    /** Writes the data after the first tot bytes, which have been sealed and sent, and
        keeps account of what is in flight. */
    method WriteFrom(data: seq<byte>, tot0: nat, address: nat) returns (ret: int)
      requires Valid() && tot0 <= |data| && writeShutdown == Open && wnum == 0
      modifies this`asked, this`records, this`sent, this`largest, this`pendingFlight, this`pendingFlightOffset
      modifies writeBuffer, writeBuffer.buf
      modifies this`wpendPending, this`wpendTot, this`wpendBuf, this`wpendType, this`wpendRet
      modifies this`wnum, this`accepted, this`inflight
      ensures Valid() && (writeBuffer.buf == old(writeBuffer.buf) || fresh(writeBuffer.buf))
      ensures old(InOrder()) ==> InOrder()
      ensures largest <= Max(old(largest), old(DataRoom(|data| - tot0)))
      ensures ret <= |data|
      // With partial writes a call seals one record at most, and without gets all out or fails.
      ensures enablePartialWrite ==> |records| <= |old(records)| + 1
      ensures ret > 0 && !enablePartialWrite ==> ret == |data|
      ensures tot0 + old(PendingData()) <= |data| ==>
        SealedSince(old(PlainOf(records, ApplicationData)), data, tot0 + old(PendingData()), ret)
      ensures tot0 + old(PendingData()) > |data| ==>
        && ret <= 0 && records == old(records) && accepted == old(accepted) && inflight == old(inflight)
        && wnum == tot0 && PendingData() == old(PendingData())
      ensures old(ConservedBut(tot0)) && old(inflight) <= data ==>
                && Conserved()
                && accepted == old(accepted) + (if ret > 0 then data[..ret] else [])
                && (if ret > 0 then inflight == [] else old(inflight) <= inflight <= data)
      ensures old(AlertsInPlace()) ==> AlertsInPlace()
      ensures old(wpendPending && writeBuffer.size == 0 && wpendTot == |data| - tot0) ==> sent == old(sent)
      ensures old(CanGoOn(|data| - tot0)) ==> Ended(old(Waits()), |data|, tot0, ret)
    {
      hide CanGoOn, Waits, Ended, Valid, InOrder, PlainOf, AlertsInPlace, DataRoom, SSLBuffer.Valid;
      ghost var base, from := PlainOf(records, ApplicationData), tot0 + PendingData();
      ghost var honest := ConservedBut(tot0) && inflight <= data;
      ret := WriteCounted(data, tot0, address);
      if honest {
        ghost var end := if ret > 0 then ret else wnum + PendingData();
        Continues(accepted, inflight, data, from, end);
        accepted, inflight := if ret > 0 then accepted + data[..ret] else accepted, if ret > 0 then [] else data[..end];
      }
    }

    /** The same without the account. */
    method WriteCounted(data: seq<byte>, tot0: nat, address: nat) returns (ret: int)
      requires Valid() && tot0 <= |data| && writeShutdown == Open && wnum == 0
      modifies this`asked, this`records, this`sent, this`largest, this`pendingFlight, this`pendingFlightOffset
      modifies writeBuffer, writeBuffer.buf
      modifies this`wpendPending, this`wpendTot, this`wpendBuf, this`wpendType, this`wpendRet, this`wnum
      ensures Valid() && (writeBuffer.buf == old(writeBuffer.buf) || fresh(writeBuffer.buf))
      ensures old(InOrder()) ==> InOrder()
      ensures largest <= Max(old(largest), old(DataRoom(|data| - tot0)))
      ensures ret <= |data| && (ret > 0 ==> wnum == 0)
      // With partial writes a call seals one record at most, and without gets all out or fails.
      ensures enablePartialWrite ==> |records| <= |old(records)| + 1
      ensures ret > 0 && !enablePartialWrite ==> ret == |data|
      ensures tot0 + old(PendingData()) <= |data| ==>
        SealedSince(old(PlainOf(records, ApplicationData)), data, tot0 + old(PendingData()), ret)
      ensures tot0 + old(PendingData()) > |data| ==>
        ret <= 0 && records == old(records) && wnum == tot0 && PendingData() == old(PendingData())
      ensures old(AlertsInPlace()) ==> AlertsInPlace()
      ensures old(wpendPending && writeBuffer.size == 0 && wpendTot == |data| - tot0) ==> sent == old(sent)
      ensures old(CanGoOn(|data| - tot0)) ==> Ended(old(Waits()), |data|, tot0, ret)
    {
      hide Course, Waits, Valid, InOrder, PlainOf, AlertsInPlace, DataRoom, SSLBuffer.Valid;
      var tot;
      ghost var base, from := PlainOf(records, ApplicationData), tot0 + PendingData();
      assert from <= |data| ==> base + data[from..from] == base;
      ret, tot := WriteRecords(base, data, from, tot0, address);
      if ret <= 0 {
        wnum := tot;
      }
    }

    /** What has been sealed since is the data from offset from on, up to what the result
        or the count and the pending record stand for. */
    ghost predicate SealedSince(base: seq<byte>, data: seq<byte>, from: nat, ret: int)
      reads this`records, this`wnum, this`wpendPending, this`wpendType, this`wpendTot
    {
      var end := if ret > 0 then ret else wnum + PendingData();
      && from <= end <= |data| && PlainOf(records, ApplicationData) == base + data[from..end]
      && (ret > 0 ==> PendingData() == 0)
    }

    /** The pending record and the buffers are as they were. */
    twostate predicate WriteUnchanged()
      reads this, writeBuffer
    {
      && unchanged(this`wpendPending, this`wpendTot, this`wpendBuf, this`wpendType, this`wpendRet)
      && unchanged(this`pendingFlight, this`pendingFlightOffset, this`sent) && unchanged(writeBuffer)
    }

    /** Sends an alert, the last thing this side will say. */
    method SendAlert(level: byte, desc: byte) returns (ret: int)
      requires Valid()
      requires (level == 1 && desc == 0) || (level == 2 && desc != 0)
      modifies this`asked, this`records, this`sent, this`largest, this`pendingFlight, this`pendingFlightOffset
      modifies writeBuffer, writeBuffer.buf
      modifies this`wpendPending, this`wpendTot, this`wpendBuf, this`wpendType, this`wpendRet
      modifies this`writeShutdown, this`alertDispatch, this`sendAlert
      ensures Valid() && (writeBuffer.buf == old(writeBuffer.buf) || fresh(writeBuffer.buf))
      ensures old(InOrder()) ==> InOrder()
      ensures largest <= Max(old(largest), old(if writeShutdown == Open then Room(2) else 0))
      ensures old(writeShutdown) == Open && old(writeBuffer.size) == 0 ==>
        AlertSealed(old(records), old(sent), old(asked), old(Unflushed()), old(Room(2)), old(writeBuffer.cap))
      ensures old(Conserved()) ==> Conserved()
      ensures old(AlertsInPlace()) ==> AlertsInPlace()
      ensures old(writeShutdown) != Open ==> ret == -1 && records == old(records) && sendAlert == old(sendAlert)
      ensures old(writeShutdown) == Open ==>
                sendAlert == [level, desc] && writeShutdown == (if level == 1 then CloseNotify else Failed)
      ensures old(writeShutdown) == Open && old(AlertsInPlace()) ==>
                alertDispatch == (ret <= 0) && (ret > 0 ==> !NoAlert(records))
      ensures old(writeShutdown == Open && wpendPending && !wpendType.Alert?) ==>
        && ret <= 0 && alertDispatch && wpendPending && wpendType == old(wpendType)
        && records == old(records) && sent == old(sent)
    {
      hide InOrder, PlainOf, AlertSealed, Written, WireOf;
      if writeShutdown != Open {
        return -1;
      }
      writeShutdown := if level == 1 then CloseNotify else Failed;
      alertDispatch, sendAlert := true, [level, desc];
      if writeBuffer.size == 0 {
        ret := DispatchAlert();
        return;
      }
      // It will be dispatched later.
      return -1;
    }

    /** An alert is sealed exactly if there is room for it and the world agrees. */
    ghost predicate AlertSealed(before: seq<Sealed>, wasSent: seq<byte>, was: nat, flight: seq<byte>, room: nat, cap: nat)
      reads this`records, this`sent, this`largest, this`maxOverhead, this`alignPrefix
    {
      && (records != before <==> 0 < room <= MAX_CAP && Sealable(was + 1, 2))
      && (records != before ==>
            var wire := world.seals(was + 1).value;
            && |records| == |before| + 1 && records[..|before|] == before && records[|before|].wire == wire
            && largest >= |flight| + |wire|
            && (cap == 0 ==> sent == wasSent + Written(world, was, alignPrefix, flight, 2 + maxOverhead, wire)))
    }

    method WriteAlert() returns (ret: int)
      requires Valid() && alertDispatch
      modifies this`asked, this`records, this`sent, this`largest, this`pendingFlight, this`pendingFlightOffset
      modifies writeBuffer, writeBuffer.buf
      modifies this`wpendPending, this`wpendTot, this`wpendBuf, this`wpendType, this`wpendRet
      ensures Valid() && (writeBuffer.buf == old(writeBuffer.buf) || fresh(writeBuffer.buf))
      ensures old(InOrder()) ==> InOrder()
      ensures largest <= Max(old(largest), old(Room(2)))
      ensures Wrote(old(wpendPending), old(wpendType), old(wpendTot), old(records), Alert, sendAlert, ret)
      ensures AlertSealed(old(records), old(sent), old(asked), old(Unflushed()), old(Room(2)), old(writeBuffer.cap))
      ensures old(wpendPending && !wpendType.Alert?) ==> sent == old(sent)
    {
      hide InOrder, Written, WireOf, PlainOf;
      ret := DoWrite(Alert, sendAlert, ALERT_ADDRESS);
    }

    /** Writes the alert, once it can. */
    method DispatchAlert() returns (ret: int)
      requires Valid() && alertDispatch
      modifies this`asked, this`records, this`sent, this`largest, this`pendingFlight, this`pendingFlightOffset
      modifies writeBuffer, writeBuffer.buf
      modifies this`wpendPending, this`wpendTot, this`wpendBuf, this`wpendType, this`wpendRet, this`alertDispatch
      ensures Valid() && (writeBuffer.buf == old(writeBuffer.buf) || fresh(writeBuffer.buf))
      ensures old(InOrder()) ==> InOrder()
      ensures largest <= Max(old(largest), old(Room(2)))
      ensures AlertSealed(old(records), old(sent), old(asked), old(Unflushed()), old(Room(2)), old(writeBuffer.cap))
      ensures old(Conserved()) ==> Conserved()
      ensures old(AlertsInPlace()) ==> AlertsInPlace() && (ret > 0 ==> !NoAlert(records))
      ensures alertDispatch == (ret <= 0)
      // It waits for a pending record of another type.
      ensures old(wpendPending && !wpendType.Alert?) ==>
        ret <= 0 && wpendPending && wpendType == old(wpendType) && records == old(records) && sent == old(sent)
    {
      hide Valid, InOrder, PlainOf, AlertSealed, Room, AlertLast, NoAlert, AlertsAre, SSLBuffer.Valid;
      ghost var before := records;
      ret := WriteAlert();
      if records != before {
        GrewBy(before, Alert, sendAlert, records);
        if NoAlert(before) {
          GrewByAlert(before, sendAlert, records);
        }
      }
      if ret <= 0 {
        return;
      }
      alertDispatch := false;
      return 1;
    }

    /** What is sealed as application data is base and then the data from offset from up
        to tot, or up to the end of the pending record that comes next. */
    ghost predicate SealedFrom(base: seq<byte>, data: seq<byte>, from: nat, tot: nat)
      reads this`records, this`wpendPending, this`wpendType, this`wpendTot
    {
      && from <= tot + PendingData() <= |data|
      && PlainOf(records, ApplicationData) == base + data[from..tot + PendingData()]
    }
  }

  lemma WrittenIs(world: World, n: nat, prefix: nat, flight: seq<byte>, extra: nat, wire: seq<byte>,
                  mem: seq<byte>, offset: nat)
    requires |wire| <= extra && offset == AlignedOffset(|flight| + prefix, world.memory(n).address)
    requires mem == Laid(world.memory(n), |flight| + extra + SSL3_ALIGN_PAYLOAD - 1, offset, flight + wire)
    ensures offset + |flight| + |wire| <= |mem|
    ensures Drain(mem, offset, |flight| + |wire|, world.takes, n + 2) == Written(world, n, prefix, flight, extra, wire)
  {
    hide Drain;
  }

  lemma StreamGrows(sent: seq<byte>, contents: seq<byte>, flight: seq<byte>, wire: seq<byte>)
    ensures sent + contents + (flight + wire) == sent + contents + flight + wire
  {
  }

  lemma ContentsGrow(sent: seq<byte>, contents: seq<byte>, wire: seq<byte>)
    ensures sent + (contents + wire) + [] == sent + contents + [] + wire
  {
  }

  lemma NothingBuffered(sent: seq<byte>, flight: seq<byte>)
    ensures sent + [] + flight == sent + flight
    ensures flight == [] ==> sent + flight == sent
  {
  }

  lemma FlightTaken(sent: seq<byte>, flight: seq<byte>)
    ensures sent + ([] + flight) + [] == sent + [] + flight && [] + flight == flight
  {
  }

  lemma SliceTake(mem: seq<byte>, offset: nat, size: nat, n: nat)
    requires offset + size <= |mem| && n <= size
    ensures mem[offset..offset + size][..n] == mem[offset..offset + n]
  {
  }

  /** A write takes the next bytes of what is drained. */
  lemma OneWrite(mem: seq<byte>, offset: nat, size: nat, takes: nat -> int, n: nat, before: seq<byte>)
    requires offset + size <= |mem| && 0 < size
    ensures
      var all := before + Drain(mem, offset, size, takes, n);
      if takes(n) <= 0 then all == before
      else
        var ret := if takes(n) < size then takes(n) else size;
        && (offset + ret) % 0x1_0000 + (size - ret) <= |mem|
        && all == before + mem[offset..offset + ret] + Drain(mem, (offset + ret) % 0x1_0000, size - ret, takes, n + 1)
  {
  }

  lemma DrainedAll(mem: seq<byte>, offset: nat, takes: nat -> int, n: nat, sent: seq<byte>)
    requires offset <= |mem|
    ensures sent + Drain(mem, offset, 0, takes, n) == sent
  {
  }

  lemma OffsetAdds(offset: nat, done: nat, n: nat)
    ensures ((offset + done) % 0x1_0000 + n) % 0x1_0000 == (offset + done + n) % 0x1_0000
  {
  }

  lemma DrainedFrom(was: seq<byte>, mem: seq<byte>, offset: nat, size: nat, drained: seq<byte>)
    requires offset + size <= |mem| && offset <= 0xffff && Aligned(offset, size)
    requires drained <= mem[offset..offset + size]
    ensures var next := (offset + |drained|) % 0x1_0000;
            && Aligned(next, size - |drained|) && next + (size - |drained|) <= |mem|
            && was + drained + mem[next..next + (size - |drained|)] == was + mem[offset..offset + size]
  {
    var n := |drained|;
    assert drained == mem[offset..offset + size][..n] == mem[offset..offset + n];
    if n < size {
      assert (offset + n) % 0x1_0000 == offset + n;
      assert mem[offset..offset + size] == drained + mem[offset + n..offset + size];
    } else {
      var next := (offset + n) % 0x1_0000;
      assert mem[next..next] == [] && mem[offset..offset + size] == drained;
    }
  }

  lemma ChunkSealed(base: seq<byte>, data: seq<byte>, from: nat, tot: nat, nw: nat, before: seq<Sealed>, after: seq<Sealed>)
    requires from <= tot && tot + nw <= |data| && Grew(before, ApplicationData, data[tot..tot + nw], after)
    requires PlainOf(before, ApplicationData) == base + data[from..tot]
    ensures PlainOf(after, ApplicationData) == base + data[from..tot + nw]
  {
    GrewBy(before, ApplicationData, data[tot..tot + nw], after);
    assert base + data[from..tot] + data[tot..tot + nw] == base + data[from..tot + nw];
  }

  /** What is in flight, and the data that goes on behind it. */
  lemma Continues(accepted: seq<byte>, inflight: seq<byte>, data: seq<byte>, from: nat, end: nat)
    requires inflight <= data && from == |inflight| && from <= end <= |data|
    ensures accepted + inflight + data[from..end] == accepted + data[..end] == accepted + data[..end] + []
    ensures inflight <= data[..end]
  {
    assert inflight + data[from..end] == data[..end];
  }

  lemma NoAlertAdded(before: seq<Sealed>, done: seq<byte>, max: nat, after: seq<Sealed>)
    requires Fragments(before, done, max, after)
    ensures NoAlert(after) == NoAlert(before) && (AlertLast(before) ==> AlertLast(after))
    ensures forall alert :: AlertsAre(before, alert) ==> AlertsAre(after, alert)
    ensures PlainOf(after, ApplicationData) == PlainOf(before, ApplicationData)
  {
    assert after == before + after[|before|..];
    assert forall k | |before| <= k < |after| :: after[k] in after[|before|..];
  }

  lemma GrewByOther(before: seq<Sealed>, plain: seq<byte>, after: seq<Sealed>)
    requires Grew(before, ChangeCipherSpec, plain, after)
    ensures NoAlert(after) == NoAlert(before) && (AlertLast(before) ==> AlertLast(after))
    ensures forall alert :: AlertsAre(before, alert) ==> AlertsAre(after, alert)
  {
    assert after == before + [after[|before|]];
  }

  lemma GrewByAlert(before: seq<Sealed>, alert: seq<byte>, after: seq<Sealed>)
    requires NoAlert(before) && Grew(before, Alert, alert, after)
    ensures !NoAlert(after) && AlertLast(after) && AlertsAre(after, alert)
  {
    assert after == before + [after[|before|]];
    assert after[|before|] in after;
  }

  lemma GrewWithoutAlert(before: seq<Sealed>, typ: ContentType, plain: seq<byte>, after: seq<Sealed>)
    requires NoAlert(before) && !typ.Alert? && Grew(before, typ, plain, after)
    ensures NoAlert(after) && AlertLast(after) && (forall alert :: AlertsAre(after, alert))
  {
    assert after == before + [after[|before|]];
  }
}
