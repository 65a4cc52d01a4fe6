# BoringSSL and nanopb, verified

Dafny models of the parts of the application's vendored libraries that carry its
traffic, and proofs about them:

- **DTLS handshake transport** (`FragmentBitmask`, `Reassembly`, `DtlsReceiver`, `Flight`,
  `FlightPlan`, `FlightSender`, `DtlsDelivery`, `DtlsProvenance`, `HandshakeFragment`). A sender cuts the messages of a
  flight into fragments and packets; a receiver puts them together in a ring of seven
  slots with a bitmask per message. The two are proved separately, in place, and then
  end to end: what is consumed is what was queued, in order, and one complete
  transmission is enough unless a fragment is refused. Whoever the peer is, nothing that is
  consumed is made up.
- **DTLS records** (`DtlsRecord`, `DtlsPackets`, `DtlsFilling`, `ReplayWindow`, `WriteSequence`). Packets are
  bytes within the MTU that a reader takes apart into the records they were made of. The
  sliding window refines the set of accepted numbers; no number is accepted twice and no
  nonce is used twice.
- **TLS write path** (`SslBuffer`, `TlsWriter`, `TlsSessions`). Handshake flights, application data and
  alerts share one byte stream under partial writes and retries.
- **TLS 1.0-1.2 handshake** (`HandshakeGrammar`, `HandshakePlan`, `HandshakeConnection`,
  `HandshakeClient`, `HandshakeServer`, `HandshakeAgreement`, `HandshakeTogether`). The two state
  machines with their asynchronous waits follow the grammar of section 7.3 of RFC 5246, hash
  every message once, and compute each Finished over the same transcript. Each step says
  exactly what it refuses, and two machines that are told nothing bad always complete.
- **nanopb** (`Wire`, `Nanopb*`, `RequiredFields`). Functions say what a message encodes to
  and how bytes decode; the streams, iterators, sizing passes and bitmaps of the C code are
  proved to compute them; decoding inverts encoding, with or without unknown fields, finds
  what is missing, stays in bounds on any input, and merges what is repeated.
- **Smaller pieces**: saturating reference counts by compare-and-exchange (`Refcount`), the
  choice of a cipher among equal preferences (`CipherChoice`), and the serialization of
  sessions (`Der`, `Session`, `SessionCodec`, `SessionRoundTrip`).

Code that changes state is a class or a method with loops, proved against functions on
values; the lemmas are about those functions. What the AEAD, the transport, the allocator and
the application answer is an input. `Bits` and `Bytes` hold the arithmetic of bits and
octets, `Protocol` the numbers the modules share. `dafny verify dfyconfig.toml` checks everything.

## Findings

Where the code does not do what one would expect, the model keeps the code, a lemma shows
the case, and the theorem states the condition under which the expectation holds.

- A fragment numbered exactly seven ahead of the next message passes the filter in
  `dtls1_open_handshake` (ssl/d1_both.cc:380-385) but is refused in
  `dtls1_get_incoming_message` (267-271), so it ends the connection (ssl/ssl_lib.cc:209-241),
  although the comment there says that fragments too far in the future are ignored
  (`Reassembly.HonestRefusal`). Delivery is certain exactly for runs in which nothing is
  refused (`DtlsDelivery.EventualDelivery`); before encryption, all runs without fragments from
  beyond the next seven messages are among them (`DtlsDelivery.NothingRefused`).
- `send_flight` rolls back after a refused write but not after a failed seal in the middle
  of a packet (ssl/d1_both.cc:797-815): the messages sealed before the failure are then never
  sent, and later calls do not make up for them. Over any calls the records sent tile the
  flight if and only if no seal failed in a packet in which something had been sealed
  (`FlightPlan.ResumeTiles`, `FlightPlan.SealErrorIff`, `FlightPlan.DroppedChangeCipherSpec`).
- Nothing holds a DTLS sender to the length a reader takes: with an MTU for it
  `seal_next_message` cuts a record of more than 16704 bytes behind its header
  (ssl/d1_both.cc:693-734), which `dtls_open_record` discards (ssl/dtls_record.cc:195-206;
  `DtlsPackets.OversizedRecord`). Up to an MTU of 16397 every packet is read back
  (`DtlsPackets.SendReadsBack`).
- A record of the previous epoch carries the version of the current keys
  (ssl/dtls_record.cc:322), as `FlightSender.DtlsSender.SealRecord` states.
- The record counter wraps to zero before its overflow is reported
  (ssl/tls_record.cc:154-163), and the read epoch wraps at 65536 (ssl/dtls_method.cc:90);
  both bounds are needed (`WriteSequence.OverflowRestarts`, `ReplayWindow.ReplayAfterEpochWrap`).
- `SSLBuffer::Consume` keeps a 16-bit offset (ssl/ssl_buffer.cc:94). A buffer may hold 0xffff
  bytes and start up to seven bytes in (48-80), so a partial write can wrap the offset with
  bytes left, and what is then written is not what was sealed. What waits in the buffer is
  written in order from every position in memory exactly up to 0xfff9 bytes
  (`SslBuffer.SafeCap`); sessions that never hold more keep wire order (`TlsSessions.Session`),
  and sessions that hold a byte more, or two, break it (`TlsSessions.OrderBreaksAtLimit`,
  `TlsSessions.OrderBreaks`).
- `ssl3_write_app_data` clears `wnum` before it refuses an offer shorter than that count
  (ssl/s3_pkt.cc:143-157). After a refused offer a retry with everything in flight has sealed
  the data once if and only if the refused offer was not shorter than the count
  (`TlsSessions.ShortOffer`); a caller with moving buffers allowed sends data again
  (`TlsSessions.DataTwice`).
- `flush_flight` may empty the write buffer while a write is still pending
  (ssl/s3_both.cc:245-252; `TlsSessions.FlushedPending`). The retry of that write then succeeds
  without another byte (`TlsSessions.RetryNeedsNoByte`). An alert before the retry is refused,
  and is never sent: it has closed the connection for writing, so the retry it would have to
  wait for is refused too (ssl/s3_pkt.cc:136-139, 204-211; `TlsSessions.AlertNeverSent`).
- `pb_decode_varint32_eof` accepts some over-long varints (nanopb/pb_decode.c:182-242;
  `Wire.LongZeroAccepted`, `Wire.HighBitsDropped`); where the 64-bit decoder accepts too, the
  two agree in the low 32 bits (`Wire.DecodersAgree`).
- A nanopb string that fills its array, with no room for the terminator, is written
  (nanopb/pb_encode.c:831-855) but refused when it is read (nanopb/pb_decode.c:1436-1456;
  `NanopbFormat.UnterminatedString`).
- An empty nanopb descriptor takes its end marker for a field with tag zero, and fails
  (nanopb/pb_common.c:78-95; `NanopbIter.FieldIter.Seek`).
- A session comes back from its serialization (ssl/ssl_asn1.cc:200-757) as it was if and only
  if it is in normal form (`SessionRoundTrip.RoundTripIffNormal`). Besides lengths and numbers
  out of their bounds, what breaks it is: certificates next to a digest, a list without
  certificates or with one that is not a single element, an empty ticket or early ALPN, and a
  negative verification result. That a pre-shared key identity has no zero byte is part of
  normal form here; the code has it by keeping a C string (253-257).

## Model

| member | source | states |
|---|---|---|
| ReplayWindow.DiscardExact | FurnitureAR/Pods/BoringSSL-GRPC/ssl/dtls_record.cc:140-150 | The bitmap test refines the set of recorded numbers: it discards exactly the numbers that were recorded and those at least 64 below the maximum |
| ReplayWindow.RecordTracks | FurnitureAR/Pods/BoringSSL-GRPC/ssl/dtls_record.cc:155-175 | Recording slides and sets the bitmap so that it stands for the old set of numbers and the new one, and the maximum for the larger |
| ReplayWindow.AcceptsExactly | FurnitureAR/Pods/BoringSSL-GRPC/ssl/dtls_record.cc:225-259 | A record is accepted exactly if it is of the current epoch, new, inside the window and authentic |
| ReplayWindow.NoReplay | FurnitureAR/Pods/BoringSSL-GRPC/ssl/dtls_record.cc:177-272 | Over a whole connection, across key changes without an epoch wrap, no 64-bit record number is accepted twice |
| ReplayWindow.ReplayAfterEpochWrap | FurnitureAR/Pods/BoringSSL-GRPC/ssl/dtls_method.cc:81-95 | The bound on epochs is needed: after 65536 key changes a record number is accepted again |
| ReplayWindow.DtlsReader.OpenRecord | FurnitureAR/Pods/BoringSSL-GRPC/ssl/dtls_record.cc:177-272 | Accepts a record and returns its content, of at most the maximal plaintext, or what an alert in it means; what is consumed, whether the connection is closed for reading, and how many warnings have been seen; anything else is discarded and changes nothing |
| ReplayWindow.DtlsReader.BitmapRecord | FurnitureAR/Pods/BoringSSL-GRPC/ssl/dtls_record.cc:155-175 | Updates the bitmap and the maximum in place as recording says |
| ReplayWindow.DtlsReader.SetReadState | FurnitureAR/Pods/BoringSSL-GRPC/ssl/dtls_method.cc:81-95 | A key change takes the new version and starts the next epoch with an empty window, leaving whether the connection is closed; it is refused while handshake data is left over, and then changes nothing |
| ReplayWindow.RecordsAfterKeyChange | FurnitureAR/Pods/BoringSSL-GRPC/ssl/dtls_record.cc:177-272 | After a key change all records of the new epoch and version that arrive with increasing numbers are returned with their plaintexts |
| DtlsRecord.ParsedIsThere | FurnitureAR/Pods/BoringSSL-GRPC/ssl/dtls_record.cc:177-223 | What is parsed is the record whose bytes are at the front of the datagram: type, version, number, length and body |
| DtlsRecord.ParseInvertsRecord | FurnitureAR/Pods/BoringSSL-GRPC/ssl/dtls_record.cc:177-223 | Every record of at most the maximal length parses, whatever follows it |
| HandshakeFragment.ParseInvertsBytes | FurnitureAR/Pods/BoringSSL-GRPC/ssl/d1_both.cc:459-473 | Parsing inverts the encoding of every fragment, whatever follows it |
| FragmentBitmask.BitRange | FurnitureAR/Pods/BoringSSL-GRPC/ssl/d1_both.cc:203-205 | The mask of a range of bits in an octet has exactly those bits |
| FragmentBitmask.SetRange | FurnitureAR/Pods/BoringSSL-GRPC/ssl/d1_both.cc:211-233 | Marks a range in the packed bitmask in place: first octet, whole octets and last octet, for every alignment, leaving padding clear |
| FragmentBitmask.IsComplete | FurnitureAR/Pods/BoringSSL-GRPC/ssl/d1_both.cc:235-251 | The scan of the bitmask succeeds exactly if every byte has been marked |
| FragmentBitmask.ScanIsExact | FurnitureAR/Pods/BoringSSL-GRPC/ssl/d1_both.cc:235-251 | The octets look complete exactly if the marked ranges cover the message, for every length |
| FragmentBitmask.MarksAreUnion | FurnitureAR/Pods/BoringSSL-GRPC/ssl/d1_both.cc:211-251 | After any sequence of marks the marked bytes are the union of the ranges |
| Reassembly.SlotHasSameSequence | FurnitureAR/Pods/BoringSSL-GRPC/ssl/d1_both.cc:265-295 | A fragment in the slot of a number in the window has that number, though 65536 is not a multiple of 7 |
| Reassembly.FragmentKeepsRing | FurnitureAR/Pods/BoringSSL-GRPC/ssl/d1_both.cc:360-400 | Every fragment, honest or not, keeps the ring invariant: each stored fragment is in the window and in its slot |
| Reassembly.RecordKeepsRing | FurnitureAR/Pods/BoringSSL-GRPC/ssl/d1_both.cc:349-406 | So does every record of any number of fragments, whole or broken |
| Reassembly.NextKeepsRing | FurnitureAR/Pods/BoringSSL-GRPC/ssl/d1_both.cc:426-438 | So does consuming a message, also when the 16-bit number wraps |
| Reassembly.FragmentKeepsFaithful | FurnitureAR/Pods/BoringSSL-GRPC/ssl/d1_both.cc:360-400 | With an honest peer every stored byte is the byte of the message it sent under that number |
| Reassembly.RecordKeepsFaithful | FurnitureAR/Pods/BoringSSL-GRPC/ssl/d1_both.cc:349-406 | The same for a record of honest fragments |
| Reassembly.HonestRefusal | FurnitureAR/Pods/BoringSSL-GRPC/ssl/d1_both.cc:360-400 | Exactly which honest fragments end the connection: too long a message, epoch 1 out of order, or a number seven ahead of the next one, which passes the filter but is refused later instead of ignored |
| Reassembly.FaithfulRaw | FurnitureAR/Pods/BoringSSL-GRPC/ssl/d1_both.cc:408-424 | A message that is handed out is, header and body, the unfragmented message the peer sent |
| Reassembly.ConsumedFrom | FurnitureAR/Pods/BoringSSL-GRPC/ssl/d1_both.cc:297-438 | From any state, what is consumed are consecutive messages of the peer |
| Reassembly.HonestDelivery | FurnitureAR/Pods/BoringSSL-GRPC/ssl/d1_both.cc:297-438 | For any loss, duplication, reordering and overlap of honest fragments, what is consumed is a prefix of the messages sent, each once and in order |
| DtlsProvenance.FragmentIsSent | FurnitureAR/Pods/BoringSSL-GRPC/ssl/d1_both.cc:360-400 | A fragment that is let in, from whomever, adds its own bytes to the message of its number, type and length |
| DtlsProvenance.NothingMadeUp | FurnitureAR/Pods/BoringSSL-GRPC/ssl/d1_both.cc:297-438 | Whatever records arrive, of any bytes and in any order: each message handed out has the next number, was announced with its type and length, is no longer than allowed, and each of its bytes arrived at its place in a fragment of it |
| DtlsReceiver.HmFragment.Mark | FurnitureAR/Pods/BoringSSL-GRPC/ssl/d1_both.cc:211-251 | Marks in place; the bitmask is dropped exactly when the message is complete |
| DtlsReceiver.HmFragment.Receive | FurnitureAR/Pods/BoringSSL-GRPC/ssl/d1_both.cc:393-399 | Copies the body of a fragment to its place and marks it, as delivery says |
| DtlsReceiver.IncomingMessages.GetIncomingMessage | FurnitureAR/Pods/BoringSSL-GRPC/ssl/d1_both.cc:265-295 | Finds the fragment of a number or makes a new one; conflicting type or length is refused |
| DtlsReceiver.IncomingMessages.ReceiveInto | FurnitureAR/Pods/BoringSSL-GRPC/ssl/d1_both.cc:393-399 | Changes one slot of the ring and nothing else |
| DtlsReceiver.IncomingMessages.OnFragment | FurnitureAR/Pods/BoringSSL-GRPC/ssl/d1_both.cc:360-400 | The in-place ring does with a fragment exactly what the reassembly function says, outcome included |
| DtlsReceiver.IncomingMessages.OpenHandshake | FurnitureAR/Pods/BoringSSL-GRPC/ssl/d1_both.cc:297-406 | The same for records of every type, early and unexpected ones included |
| DtlsReceiver.IncomingMessages.OpenChangeCipherSpec | FurnitureAR/Pods/BoringSSL-GRPC/ssl/d1_both.cc:475-493 | Takes the change of cipher that has arrived, now or before, so that it holds up no later key change; handshake fragments that come instead go into the ring, and any other record is an error |
| DtlsReceiver.IncomingMessages.GetMessage | FurnitureAR/Pods/BoringSSL-GRPC/ssl/d1_both.cc:408-424 | Hands out the next message exactly if it is complete |
| DtlsReceiver.IncomingMessages.NextMessage | FurnitureAR/Pods/BoringSSL-GRPC/ssl/d1_both.cc:426-438 | Frees the slot of the message and moves on, modulo 65536; a completed flight now has a reply |
| DtlsReceiver.IncomingMessages.HasUnprocessedHandshakeData | FurnitureAR/Pods/BoringSSL-GRPC/ssl/d1_both.cc:440-457 | True exactly if a change of cipher or a fragment other than of the current message is left |
| DtlsReceiver.IncomingMessages.SetReadState | FurnitureAR/Pods/BoringSSL-GRPC/ssl/dtls_method.cc:81-95 | Refused exactly if handshake data is left over |
| WriteSequence.StepUses | FurnitureAR/Pods/BoringSSL-GRPC/ssl/dtls_record.cc:294-351 | One seal uses one unused pair of epoch and sequence number; nothing used becomes unused |
| WriteSequence.NoncesNeverRepeat | FurnitureAR/Pods/BoringSSL-GRPC/ssl/dtls_record.cc:294-351 | Over any interleaving of fresh writes, previous-epoch retransmissions and key changes without overflow, no pair is used twice |
| WriteSequence.OverflowRestarts | FurnitureAR/Pods/BoringSSL-GRPC/ssl/tls_record.cc:154-163 | The bound is needed: an overflowing counter wraps to zero before it is reported |
| Flight.AdvanceOrder | FurnitureAR/Pods/BoringSSL-GRPC/ssl/d1_both.cc:644-734 | A sealed record moves the cursor forward, within a message or to the next |
| Flight.GapStays | FurnitureAR/Pods/BoringSSL-GRPC/ssl/d1_both.cc:782-827 | Records lost between two points of a flight leave a gap that nothing sent from behind it closes |
| Flight.TilesWholeFlight | FurnitureAR/Pods/BoringSSL-GRPC/ssl/d1_both.cc:644-780 | Records that tile a flight cover each body without gap or overlap, and send each empty body and each change of cipher once |
| FlightSender.DtlsSender.ClearOutgoingMessages | FurnitureAR/Pods/BoringSSL-GRPC/ssl/d1_both.cc:500-509 | Forgets the flight |
| FlightSender.DtlsSender.AddOutgoing | FurnitureAR/Pods/BoringSSL-GRPC/ssl/d1_both.cc:555-594 | Queues a message, starting a new flight after a complete one; the next number is taken |
| FlightSender.DtlsSender.AddMessage | FurnitureAR/Pods/BoringSSL-GRPC/ssl/d1_both.cc:596-598 | Queues a handshake message under the next number |
| FlightSender.DtlsSender.AddChangeCipherSpec | FurnitureAR/Pods/BoringSSL-GRPC/ssl/d1_both.cc:600-602 | Queues a change of cipher |
| FlightSender.DtlsSender.SetWriteState | FurnitureAR/Pods/BoringSSL-GRPC/ssl/dtls_method.cc:97-107 | A key change keeps the counter and the AEAD of the previous epoch for retransmissions |
| FlightSender.DtlsSender.SealRecord | FurnitureAR/Pods/BoringSSL-GRPC/ssl/dtls_record.cc:294-351 | Given the verdict of the AEAD, writes the thirteen header bytes and the ciphertext exactly as the sealing function says, under a pair of epoch and number never used before |
| FlightSender.DtlsSender.SealNextMessage | FurnitureAR/Pods/BoringSSL-GRPC/ssl/d1_both.cc:644-734 | Seals the next piece of the next message, makes no progress or fails exactly as the planning function says |
| FlightSender.DtlsSender.SealNextPacket | FurnitureAR/Pods/BoringSSL-GRPC/ssl/d1_both.cc:739-780 | Fills a packet, or fails, exactly as the planning function says |
| FlightSender.DtlsSender.UpdateMtu | FurnitureAR/Pods/BoringSSL-GRPC/ssl/d1_both.cc:615-632 | The MTU that is kept, queried, or the default |
| FlightSender.DtlsSender.SendPacket | FurnitureAR/Pods/BoringSSL-GRPC/ssl/d1_both.cc:790-815 | One packet; a packet the transport refuses leaves the cursor where it was, one that fails to seal leaves it where sealing stopped |
| FlightSender.DtlsSender.SendFlight | FurnitureAR/Pods/BoringSSL-GRPC/ssl/d1_both.cc:782-827 | What is written, the cursor, the counters and the result are those of the planning function; the records written tile the flight up to the cursor exactly if they did before and no seal failed halfway through a packet; the bytes of every packet are at most the MTU, and if that is at most 16397 a reader takes it apart into the records it was made of |
| FlightSender.DtlsSender.FlushFlight | FurnitureAR/Pods/BoringSSL-GRPC/ssl/d1_both.cc:829-834 | The same, for the first transmission and every call that resumes it |
| FlightSender.DtlsSender.RetransmitOutgoingMessages | FurnitureAR/Pods/BoringSSL-GRPC/ssl/d1_both.cc:836-845 | The same from the start of the flight |
| FlightSender.Converse | FurnitureAR/Pods/BoringSSL-GRPC/ssl/d1_both.cc:555-845 | Whatever a new sender is asked to queue, flush, retransmit or change, and whatever the AEAD and the transport answer: however its records are lost, repeated and reordered, a receiver consumes a prefix of what was queued |
| FlightPlan.SealErrorIff | FurnitureAR/Pods/BoringSSL-GRPC/ssl/d1_both.cc:644-734 | Sealing fails exactly if the epoch is neither the current nor the previous one, or there is room and the AEAD fails, the counter is at its end or the record is too long; it makes no progress exactly if there is no room |
| FlightPlan.SealAdvances | FurnitureAR/Pods/BoringSSL-GRPC/ssl/d1_both.cc:644-734 | A sealed record carries the flight on from the cursor and fits into the room there is |
| FlightPlan.PackTiles | FurnitureAR/Pods/BoringSSL-GRPC/ssl/d1_both.cc:739-780 | The records of a packet tile the flight from where it starts to where sealing stopped, and fit |
| FlightPlan.SendTiles | FurnitureAR/Pods/BoringSSL-GRPC/ssl/d1_both.cc:782-827 | The records of a call tile the flight up to where it stops exactly unless a seal fails halfway through a packet, when they stop short of it |
| FlightPlan.SendResumes | FurnitureAR/Pods/BoringSSL-GRPC/ssl/d1_both.cc:782-827 | After a call the records tile the flight up to the cursor if and only if they did before and no seal failed halfway: a gap is never closed |
| FlightPlan.ResumeTiles | FurnitureAR/Pods/BoringSSL-GRPC/ssl/d1_both.cc:782-834 | Over any run of calls, with refusals, rollbacks, changing MTU, keys and counters: the records tile the flight up to where it stopped if and only if in no call a seal failed halfway |
| FlightPlan.SendSound | FurnitureAR/Pods/BoringSSL-GRPC/ssl/d1_both.cc:782-827 | With a working AEAD, messages of the last two epochs, records that fit their length field and counters that last, no seal fails; if messages fit and the transport takes all, the flight is sent |
| FlightPlan.DroppedChangeCipherSpec | FurnitureAR/Pods/BoringSSL-GRPC/ssl/d1_both.cc:774-799 | A run that loses a record: sealing Finished fails after ChangeCipherSpec went into the packet, the next call returns 1, and no ChangeCipherSpec was written |
| DtlsPackets.NextIsWire | FurnitureAR/Pods/BoringSSL-GRPC/ssl/dtls_record.cc:294-351 | A sealed record is on the wire the header with its type, version, number and length, and the ciphertext the AEAD answered with |
| DtlsPackets.PackReadsBack | FurnitureAR/Pods/BoringSSL-GRPC/ssl/d1_both.cc:739-780 | A packet of at most 16397 bytes is read back as the records it was made of, of any number of them |
| DtlsPackets.SendReadsBack | FurnitureAR/Pods/BoringSSL-GRPC/ssl/d1_both.cc:782-827 | So are all packets of a call with an MTU of at most that |
| DtlsPackets.TooLongToRead | FurnitureAR/Pods/BoringSSL-GRPC/ssl/dtls_record.cc:195-206 | A record of more than 16704 bytes behind its header is never read |
| DtlsPackets.OversizedRecord | FurnitureAR/Pods/BoringSSL-GRPC/ssl/d1_both.cc:693-734 | With an MTU for it, a message is sealed into one such record, and the call succeeds |
| DtlsFilling.CutOnlyIfNeeded | FurnitureAR/Pods/BoringSSL-GRPC/ssl/d1_both.cc:693-734 | A message is cut only if the rest of it has no room, and the piece then takes all there is |
| DtlsFilling.PackFills | FurnitureAR/Pods/BoringSSL-GRPC/ssl/d1_both.cc:739-780 | No packet ends before it has to: it reaches the end of the flight, or its last fragment takes all the room, or the next message has none |
| DtlsFilling.SendFills | FurnitureAR/Pods/BoringSSL-GRPC/ssl/d1_both.cc:782-827 | So does every packet of a call, at the place up to which the packets so far tile the flight |
| DtlsDelivery.EndToEnd | FurnitureAR/Pods/BoringSSL-GRPC/ssl/d1_both.cc:297-438 | Every record that a sender cuts from its queue is honest, so what the other side consumes is a prefix of what was queued, header and body |
| DtlsDelivery.RunArrives | FurnitureAR/Pods/BoringSSL-GRPC/ssl/d1_both.cc:297-438 | A run of arrivals, key changes and reads ends the connection if and only if a fragment is unwelcome when it arrives: numbered seven ahead of the next message, or in epoch 1 not the next; otherwise whatever it brings of the messages within reach is there in the end, or consumed |
| DtlsDelivery.NothingRefused | FurnitureAR/Pods/BoringSSL-GRPC/ssl/d1_both.cc:349-406 | Before encryption no fragment of the next seven messages, or of an earlier one, is refused, whenever it arrives |
| DtlsDelivery.FlightConsumed | FurnitureAR/Pods/BoringSSL-GRPC/ssl/d1_both.cc:408-438 | Once every record of one transmission has arrived, asking as often as the flight has messages left consumes them all |
| DtlsDelivery.EventualDelivery | FurnitureAR/Pods/BoringSSL-GRPC/ssl/d1_both.cc:297-438 | With every record of one transmission among what arrives, in any order and however often the handshake asks in between: the connection ends if and only if a fragment is refused, and if none is, every message of the flight is consumed, in order and as it was queued |
| DtlsDelivery.TilingCovers | FurnitureAR/Pods/BoringSSL-GRPC/ssl/d1_both.cc:644-780 | Every byte of every message of a tiled flight is in one of its records |
| DtlsDelivery.PacketsDeliver | FurnitureAR/Pods/BoringSSL-GRPC/ssl/d1_both.cc:297-438 | Whatever arrives of packets cut from a queue, the receiver consumes a prefix of the queue |
| Wire.Decode64Inverts | FurnitureAR/Pods/nanopb/pb_encode.c:574-594 | The 64-bit decoder inverts the varint encoder, whatever follows |
| Wire.Decode32Inverts | FurnitureAR/Pods/nanopb/pb_decode.c:182-242 | The 32-bit decoder inverts the varint encoder below 2^32 |
| Wire.DecodersAgree | FurnitureAR/Pods/nanopb/pb_decode.c:182-270 | Where both decoders accept they read the same bytes, and one finds the low half of the other, also on over-long input |
| Wire.VarintShortest | FurnitureAR/Pods/nanopb/pb_encode.c:574-594 | A varint is written in as few bytes as any from which the decoder reads the number |
| Wire.LongZeroAccepted | FurnitureAR/Pods/nanopb/pb_decode.c:182-270 | An over-long zero of any length is read by the 32-bit decoder, and refused by the 64-bit one from eleven bytes on |
| Wire.HighBitsDropped | FurnitureAR/Pods/nanopb/pb_decode.c:231-237 | An input of six bytes whose high bits the 32-bit decoder drops, and which it refuses if it ends one byte earlier |
| Wire.LeRoundTrip | FurnitureAR/Pods/nanopb/pb_encode.c:607-632 | Fixed-width integers read back |
| NanopbMessage.ZeroIsDefault | FurnitureAR/Pods/nanopb/pb_encode.c:215-303 | In a message in normal form, a proto3 value that is not sent is the default value |
| NanopbMessage.AllDefaultIsDefaults | FurnitureAR/Pods/nanopb/pb_encode.c:263-280 | A submessage whose fields are all skipped is the default struct |
| NanopbIter.FieldIter.Begin | FurnitureAR/Pods/nanopb/pb_common.c:8-18 | Starts at the first field; false for an empty descriptor |
| NanopbIter.FieldIter.Next | FurnitureAR/Pods/nanopb/pb_common.c:20-76 | Moves on or wraps around, keeping the index among required fields exact |
| NanopbIter.FieldIter.Seek | FurnitureAR/Pods/nanopb/pb_common.c:78-95 | Finds the nearest field with the tag going around from the current one, or returns to it; an empty descriptor matches tag zero |
| NanopbIter.SeekIsFind | FurnitureAR/Pods/nanopb/pb_common.c:78-95 | With distinct tags the search does not depend on where it starts |
| NanopbWriter.OStream.Write | FurnitureAR/Pods/nanopb/pb_encode.c:101-119 | Writes or counts all of a string if it fits, and otherwise nothing |
| NanopbWriter.OStream.EncodeVarint | FurnitureAR/Pods/nanopb/pb_encode.c:574-594 | The loop over at most ten bytes writes the varint |
| NanopbWriter.OStream.EncodeSvarint | FurnitureAR/Pods/nanopb/pb_encode.c:596-605 | Writes the zigzag form |
| NanopbWriter.OStream.EncodeFixed32 | FurnitureAR/Pods/nanopb/pb_encode.c:607-616 | Writes four bytes, low first |
| NanopbWriter.OStream.EncodeFixed64 | FurnitureAR/Pods/nanopb/pb_encode.c:619-632 | Writes eight bytes, low first |
| NanopbWriter.OStream.EncodeTag | FurnitureAR/Pods/nanopb/pb_encode.c:635-639 | Writes tag and wire type as one varint |
| NanopbWriter.OStream.EncodeString | FurnitureAR/Pods/nanopb/pb_encode.c:674-680 | Writes length and bytes |
| NanopbWriter.OStream.EncodeNumber | FurnitureAR/Pods/nanopb/pb_encode.c:734-808 | Writes a number of each packable type, or refuses its size |
| NanopbWriter.OStream.EncodeSubmessage | FurnitureAR/Pods/nanopb/pb_encode.c:682-730 | Sizes, then writes through a substream of that size; succeeds exactly if the message encodes and fits, and the error for a changed size cannot occur |
| NanopbWriter.OStream.EncodeValue | FurnitureAR/Pods/nanopb/pb_encode.c:734-868 | Any value: succeeds exactly if it is in bounds and fits, and writes exactly its encoding |
| NanopbWriter.OStream.EncodeItems | FurnitureAR/Pods/nanopb/pb_encode.c:155-189 | All items of a packed array one after another |
| NanopbWriter.OStream.PackedSize | FurnitureAR/Pods/nanopb/pb_encode.c:143-170 | The size of a packed array by formula or by counting is the size of what will be written |
| NanopbWriter.OStream.EncodePacked | FurnitureAR/Pods/nanopb/pb_encode.c:137-189 | A packed array as one record |
| NanopbWriter.OStream.EncodeArray | FurnitureAR/Pods/nanopb/pb_encode.c:126-211 | Arrays, packed whenever their type can be; too long ones are refused |
| NanopbWriter.OStream.EncodeField | FurnitureAR/Pods/nanopb/pb_encode.c:307-392 | One field: required, optional, proto3, repeated or member of a union |
| NanopbWriter.OStream.Encode | FurnitureAR/Pods/nanopb/pb_encode.c:494-516 | A message at any depth: succeeds exactly if it has an encoding and the stream has room for it, writes exactly that, and touches nothing else |
| NanopbWriter.CheckZero | FurnitureAR/Pods/nanopb/pb_encode.c:215-303 | The zero check of proto3, recursively |
| NanopbWriter.CheckDefault | FurnitureAR/Pods/nanopb/pb_encode.c:215-303 | The same for one field of a submessage |
| NanopbWriter.GetEncodedSize | FurnitureAR/Pods/nanopb/pb_encode.c:533-542 | The sizing pass succeeds exactly if the message encodes, and counts its length |
| NanopbWriter.SizingAgrees | FurnitureAR/Pods/nanopb/pb_encode.c:494-542 | Encoding into N bytes succeeds exactly if sizing does with at most N, and fills exactly what was counted |
| NanopbWriter.ThroughSubstream | FurnitureAR/Pods/nanopb/pb_encode.c:709-729 | Writing through a substream of exactly the counted size is writing to the parent stream |
| NanopbWriter.StringLength | FurnitureAR/Pods/nanopb/pb_encode.c:831-855 | The length of a string that may lack its terminator |
| NanopbReader.IStream.Read | FurnitureAR/Pods/nanopb/pb_decode.c:100-132 | Takes count bytes or fails |
| NanopbReader.IStream.ReadByte | FurnitureAR/Pods/nanopb/pb_decode.c:136-152 | Takes one byte or fails |
| NanopbReader.IStream.DecodeVarint32 | FurnitureAR/Pods/nanopb/pb_decode.c:182-247 | The loop with its 8-bit bit position and overflow checks computes the 32-bit decoder, over-long input included |
| NanopbReader.IStream.DecodeVarint | FurnitureAR/Pods/nanopb/pb_decode.c:250-270 | The loop computes the 64-bit decoder |
| NanopbReader.IStream.DecodeSvarint | FurnitureAR/Pods/nanopb/pb_decode.c:1240-1252 | Undoes zigzag |
| NanopbReader.IStream.SkipVarints | FurnitureAR/Pods/nanopb/pb_decode.c:273-282 | Skips a varint of any length |
| NanopbReader.IStream.SkipString | FurnitureAR/Pods/nanopb/pb_decode.c:284-291 | Skips a string |
| NanopbReader.IStream.SkipUnknown | FurnitureAR/Pods/nanopb/pb_decode.c:316-326 | Skips a field by its wire type |
| NanopbReader.IStream.MakeStringSubstream | FurnitureAR/Pods/nanopb/pb_decode.c:367-380 | Lends the next string to a substream, or fails if it is too long for its parent |
| NanopbReader.IStream.CloseStringSubstream | FurnitureAR/Pods/nanopb/pb_decode.c:382-395 | Moves the parent past the string wherever the substream stopped |
| NanopbReader.IStream.DecodeNumber | FurnitureAR/Pods/nanopb/pb_decode.c:1254-1389 | Numbers of every packable type, with the 32-bit form of negative numbers and the overflow checks |
| NanopbReader.IStream.DecodeBlob | FurnitureAR/Pods/nanopb/pb_decode.c:1391-1508 | Bytes, strings and fixed-length bytes with their bounds; an empty fixed-length string is all zeros |
| NanopbReader.IStream.DecodeSubmessage | FurnitureAR/Pods/nanopb/pb_decode.c:1463-1485 | A submessage, merged unless it is an array entry |
| NanopbReader.IStream.DecodeValue | FurnitureAR/Pods/nanopb/pb_decode.c:401-475 | Any value, as the decoding function says |
| NanopbReader.IStream.DecodePacked | FurnitureAR/Pods/nanopb/pb_decode.c:416-444 | A packed array through its substream, refused if it overflows |
| NanopbReader.IStream.DecodeStaticField | FurnitureAR/Pods/nanopb/pb_decode.c:401-475 | Any field into its struct, members of unions included |
| NanopbReader.IStream.DecodeField | FurnitureAR/Pods/nanopb/pb_decode.c:969-997 | A field with the bookkeeping for fixed-count arrays and required fields |
| NanopbReader.IStream.DecodeNoInit | FurnitureAR/Pods/nanopb/pb_decode.c:901-1049 | The loop over a whole message, with its iterator and its bitmap, computes the decoding function, errors included |
| NanopbReader.IStream.Decode | FurnitureAR/Pods/nanopb/pb_decode.c:1051-1063 | The same on top of default values |
| NanopbReader.Finished | FurnitureAR/Pods/nanopb/pb_decode.c:999-1046 | The checks at the end of a message are exact |
| NanopbReader.CountRequired | FurnitureAR/Pods/nanopb/pb_decode.c:1010-1024 | Running the iterator to the end counts the required fields |
| RequiredFields.NoteOne | FurnitureAR/Pods/nanopb/pb_decode.c:988-993 | Setting a bit in a word of the bitmap notes that number and no other |
| RequiredFields.AllSeen | FurnitureAR/Pods/nanopb/pb_decode.c:1026-1045 | The comparison of whole words and of a shifted word finds exactly whether all required fields, at most 64, were seen |
| NanopbDecode.OneTurn | FurnitureAR/Pods/nanopb/pb_decode.c:919-997 | Each turn of the loop consumes input |
| NanopbDecode.DecValue | FurnitureAR/Pods/nanopb/pb_decode.c:401-475 | Each value, and each nested message, consumes input, so decoding terminates |
| NanopbDecode.Find | FurnitureAR/Pods/nanopb/pb_common.c:78-95 | The field of a tag, or none |
| NanopbRoundTrip.NumberRoundTrip | FurnitureAR/Pods/nanopb/pb_decode.c:1254-1389 | Every number in the range of its field comes back |
| NanopbRoundTrip.BlobRoundTrip | FurnitureAR/Pods/nanopb/pb_decode.c:1391-1508 | Every string in bounds comes back |
| NanopbRoundTrip.PackedRoundTrip | FurnitureAR/Pods/nanopb/pb_decode.c:416-444 | Every packed array comes back |
| NanopbRoundTrip.ValueRoundTrip | FurnitureAR/Pods/nanopb/pb_decode.c:401-475 | Every value comes back, submessages by recursion |
| NanopbRoundTrip.SingleReads | FurnitureAR/Pods/nanopb/pb_decode.c:919-997 | The record of a single field takes the decoder from one field boundary to the next, members of unions included |
| NanopbRoundTrip.EntriesPath | FurnitureAR/Pods/nanopb/pb_decode.c:445-457 | So do the records of an array that is not packed |
| NanopbRoundTrip.MessageEncodes | FurnitureAR/Pods/nanopb/pb_encode.c:494-516 | Every message in bounds can be encoded |
| NanopbRoundTrip.MessageRoundTrip | FurnitureAR/Pods/nanopb/pb_encode.c:494-516 | Decoding the encoding of any message in normal form succeeds and returns the same message, through packed arrays, unions and nested submessages |
| NanopbUnknown.UnknownSkipped | FurnitureAR/Pods/nanopb/pb_decode.c:927-962 | An unknown field costs one turn and changes nothing, in any state of the decoder |
| NanopbUnknown.UnknownFieldsIgnored | FurnitureAR/Pods/nanopb/pb_decode.c:927-962 | Any unknown fields anywhere between the fields of an encoding leave the decoded message unchanged |
| NanopbRequired.RequiredTagsRead | FurnitureAR/Pods/nanopb/pb_decode.c:984-1045 | Whatever is decoded, at any depth and on top of any struct: the tag of each required field among the first 64 was read |
| NanopbRequired.MissingRequired | FurnitureAR/Pods/nanopb/pb_decode.c:1006-1045 | Without the record of such a field no message is decoded, with the records of the others in any order and number and unknown fields woven in |
| NanopbRequired.FixedArraysWhole | FurnitureAR/Pods/nanopb/pb_decode.c:969-1004 | Whatever is decoded, each fixed-count array of which anything was read is whole |
| NanopbBounds.NumberInRange | FurnitureAR/Pods/nanopb/pb_decode.c:1254-1389 | A number that is read is in the range of its field |
| NanopbBounds.DecodedInBounds | FurnitureAR/Pods/nanopb/pb_decode.c:901-1049 | Whatever the input, what is decoded on top of a struct in bounds is in bounds: numbers, strings, arrays, unions, and nested messages |
| NanopbBounds.MessageInBounds | FurnitureAR/Pods/nanopb/pb_decode.c:1051-1063 | The same for a struct set to defaults |
| NanopbFormat.OlderReaderSkips | FurnitureAR/Pods/nanopb/pb_decode.c:927-962 | A reader that knows none of its fields passes over the whole encoding of a message, whose records say how long they are |
| NanopbFormat.MessageBeforeZero | FurnitureAR/Pods/nanopb/pb_decode.c:911-925 | A zero tag ends a message, whatever follows |
| NanopbFormat.WireTypeRefused | FurnitureAR/Pods/nanopb/pb_decode.c:316-326 | An unknown field of a group or of a wire type there is not is refused |
| NanopbFormat.NumberIsExact | FurnitureAR/Pods/nanopb/pb_decode.c:1254-1389 | A number that is read is the number that is there, with nothing cut off |
| NanopbFormat.BlobIsExact | FurnitureAR/Pods/nanopb/pb_decode.c:1391-1508 | A string that is read is all the bytes behind its length |
| NanopbFormat.DefaultsTakeNothing | FurnitureAR/Pods/nanopb/pb_encode.c:307-392 | A message of nothing but defaults that need not be sent takes no byte |
| NanopbFormat.ArrayIsPacked | FurnitureAR/Pods/nanopb/pb_encode.c:126-211 | A packed array is one record, and any other one for each entry |
| NanopbFormat.RecordsInOrder | FurnitureAR/Pods/nanopb/pb_encode.c:494-516 | The records of a message stand in the order of its fields, and no field but an array that is not packed has two |
| NanopbFormat.UnterminatedString | FurnitureAR/Pods/nanopb/pb_encode.c:831-855 | A string that fills its array is written and cannot be read back |
| NanopbMerge.TurnStays | FurnitureAR/Pods/nanopb/pb_decode.c:919-997 | What a turn reads does not depend on what follows |
| NanopbMerge.MessagesJoin | FurnitureAR/Pods/nanopb/pb_decode.c:901-1049 | Without required fields and fixed-count arrays, decoding two messages one on top of the other is decoding them joined end to end |
| NanopbMerge.SubmessagesMerge | FurnitureAR/Pods/nanopb/pb_decode.c:1463-1485 | Two records of a submessage leave what one record with both contents leaves |
| NanopbMerge.LastCounts | FurnitureAR/Pods/nanopb/pb_decode.c:401-475 | Of two records of a plain value, member of a union or not, the last counts |
| NanopbStreams.MessageIsStruct | FurnitureAR/Pods/nanopb/pb_encode.c:494-516 | Every message in normal form is a struct the encoder accepts |
| NanopbStreams.ThroughBuffer | FurnitureAR/Pods/nanopb/pb_decode.c:1051-1063 | Through the real streams: a message goes into a buffer and comes back exactly if the buffer is long enough |
| SslBuffer.SSLBuffer.EnsureCap | FurnitureAR/Pods/BoringSSL-GRPC/ssl/ssl_buffer.cc:47-81 | Makes room and keeps the contents, or fails above 0xffff |
| SslBuffer.SSLBuffer.Append | FurnitureAR/Pods/BoringSSL-GRPC/ssl/s3_pkt.cc:258-275 | Adds bytes behind the contents |
| SslBuffer.SSLBuffer.Consume | FurnitureAR/Pods/BoringSSL-GRPC/ssl/ssl_buffer.cc:90-97 | Drops bytes from the front: what is left is the rest of the contents as long as the 16-bit offset does not wrap, and bytes 65536 before it once it does |
| SslBuffer.DrainsInOrder | FurnitureAR/Pods/BoringSSL-GRPC/ssl/ssl_buffer.cc:90-97 | In one position, partial writes write the contents in order, whatever the memory holds, exactly if they end within 65536 bytes |
| SslBuffer.SafeCap | FurnitureAR/Pods/BoringSSL-GRPC/ssl/ssl_buffer.cc:47-97 | From every aligned position, whatever memory holds and however writes are split, contents are written in order exactly up to 0xfff9 bytes |
| TlsWriter.TlsConnection.AddRecordToFlight | FurnitureAR/Pods/BoringSSL-GRPC/ssl/s3_both.cc:135-165 | A record is sealed behind the flight, in wire order |
| TlsWriter.TlsConnection.AddMessage | FurnitureAR/Pods/BoringSSL-GRPC/ssl/s3_both.cc:184-205 | A message is split into records of at most the maximal fragment that carry exactly it, and enters the transcript once; it fails exactly if one of them cannot be sealed |
| TlsWriter.TlsConnection.AddChangeCipherSpec | FurnitureAR/Pods/BoringSSL-GRPC/ssl/s3_both.cc:207-218 | A change of cipher is one record behind the flight, exactly if it can be sealed |
| TlsWriter.TlsConnection.FlushWriteBuffer | FurnitureAR/Pods/BoringSSL-GRPC/ssl/ssl_buffer.cc:239-252 | What is written is what partial writes drain from the buffer; in order if it has never held more than is safe; it succeeds exactly if the buffer is empty then, and fails only when the transport takes nothing |
| TlsWriter.TlsConnection.FlushFlight | FurnitureAR/Pods/BoringSSL-GRPC/ssl/s3_both.cc:231-279 | The write buffer goes out before the flight; a completed flush has sent everything sealed; nothing is sent after shutdown; it succeeds exactly if no flight is left, and fails otherwise only when the transport takes nothing or does not flush |
| TlsWriter.TlsConnection.WritePending | FurnitureAR/Pods/BoringSSL-GRPC/ssl/s3_pkt.cc:202-218 | A pending record is finished only by a write that offers it again, and then unless the transport takes nothing |
| TlsWriter.TlsConnection.TakeFlight | FurnitureAR/Pods/BoringSSL-GRPC/ssl/s3_pkt.cc:238-266 | What is left of the flight moves into the write buffer unchanged, or the call fails and changes nothing |
| TlsWriter.TlsConnection.SealBehindFlight | FurnitureAR/Pods/BoringSSL-GRPC/ssl/s3_pkt.cc:238-275 | A new record is sealed behind the flight exactly if there is room for both and sealing succeeds |
| TlsWriter.TlsConnection.DoWrite | FurnitureAR/Pods/BoringSSL-GRPC/ssl/s3_pkt.cc:221-289 | Finishes the pending record, or seals exactly one new one, pending until it is written, exactly if nothing is pending or buffered, there is room, and sealing succeeds; what is then written |
| TlsWriter.TlsConnection.WriteRecords | FurnitureAR/Pods/BoringSSL-GRPC/ssl/s3_pkt.cc:163-199 | What is sealed grows exactly by the data it got through; with partial writes a call seals one record at most |
| TlsWriter.TlsConnection.WriteAppData | FurnitureAR/Pods/BoringSSL-GRPC/ssl/s3_pkt.cc:129-200 | What a write seals goes on behind the count and the pending record; if a retry offers what is in flight again, what was sealed is what was accepted and what is in flight, with nothing lost, repeated or reordered; an offer shorter than what is in flight seals nothing, and keeps this account if and only if it is not shorter than the count; if the transport takes all or nothing, how far the write gets |
| TlsWriter.TlsConnection.SendAlert | FurnitureAR/Pods/BoringSSL-GRPC/ssl/s3_pkt.cc:377-403 | An alert closes the connection for writing, and keeps order and conservation |
| TlsWriter.TlsConnection.DispatchAlert | FurnitureAR/Pods/BoringSSL-GRPC/ssl/s3_pkt.cc:405-423 | An alert is sealed once, however often it is retried |
| TlsWriter.TlsConnection.SetWriteState | FurnitureAR/Pods/BoringSSL-GRPC/ssl/tls_method.cc:97-101 | New keys change nothing that is waiting to be sent |
| TlsSessions.Session | FurnitureAR/Pods/BoringSSL-GRPC/ssl/s3_pkt.cc:129-289 | For every interleaving of messages, flushes, writes, alerts, key changes and partial writes: what was sent is a prefix of what was sealed in the order of sealing unless the write buffer held more than 0xfff9 bytes, which it has not if no write that seals asked for more; application data is conserved; and none follows an alert |
| TlsSessions.OrderBreaks | FurnitureAR/Pods/BoringSSL-GRPC/ssl/s3_pkt.cc:221-289 | A session under the null cipher, with a fatal alert behind an unflushed flight and 0xfffb bytes in the write buffer, in which what is sent is not a prefix of what was sealed |
| TlsSessions.OrderBreaksAtLimit | FurnitureAR/Pods/BoringSSL-GRPC/ssl/s3_pkt.cc:221-289 | The same under AES-GCM with 0xfffa bytes, one more than is safe |
| TlsSessions.ShortOffer | FurnitureAR/Pods/BoringSSL-GRPC/ssl/s3_pkt.cc:143-157 | After an offer that is shorter than what is in flight, a retry with all of it has sealed the data once if and only if that offer was not shorter than the count |
| TlsSessions.DataTwice | FurnitureAR/Pods/BoringSSL-GRPC/ssl/s3_pkt.cc:143-200 | A session in which the application records carry half of the data twice: a blocked write of two records, an offer of one byte, and all of it again |
| TlsSessions.FlushedPending | FurnitureAR/Pods/BoringSSL-GRPC/ssl/s3_both.cc:245-252 | A session in which a flush empties the write buffer and succeeds while the write whose bytes it sent is still pending |
| TlsSessions.RetryNeedsNoByte | FurnitureAR/Pods/BoringSSL-GRPC/ssl/s3_pkt.cc:202-218 | Where buffers may move, the retry of a write in that state succeeds without another byte, whatever the transport and the AEAD would answer |
| TlsSessions.AlertNeverSent | FurnitureAR/Pods/BoringSSL-GRPC/ssl/s3_pkt.cc:202-228 | An alert in that state is refused, and so is every later attempt to send it or to retry the write |
| HandshakeGrammar.OneSpeaker | FurnitureAR/Pods/BoringSSL-GRPC/ssl/handshake_client.cc:1707-1789 | At every point of the conversation only one side may speak |
| HandshakeGrammar.CompleteHasAll | FurnitureAR/Pods/BoringSSL-GRPC/ssl/handshake_server.cc:1539-1621 | A complete conversation has exactly one Finished and one change of cipher from each side |
| HandshakeGrammar.ViewsAgree | FurnitureAR/Pods/BoringSSL-GRPC/ssl/handshake_client.cc:1707-1789 | Two views of a conversation whose streams agree as far as they go agree as far as they go |
| HandshakeGrammar.FinishedOverSameMessages | FurnitureAR/Pods/BoringSSL-GRPC/ssl/handshake.cc:380-476 | Both sides compute and check each Finished over the same messages, and two complete views are the same conversation |
| HandshakePlan.AtMost | FurnitureAR/Pods/BoringSSL-GRPC/ssl/handshake_client.cc:1707-1789 | A conversation has at most seventeen events |
| HandshakePlan.ObeysAt | FurnitureAR/Pods/BoringSSL-GRPC/ssl/handshake_client.cc:1707-1789 | In a conversation that goes as planned every event is the one that comes next |
| HandshakeConnection.WholeTranscript | FurnitureAR/Pods/BoringSSL-GRPC/ssl/ssl_transcript.cc:159-252 | A transcript that is still whole is every message of the conversation, in order |
| HandshakeConnection.Connection.InitHash | FurnitureAR/Pods/BoringSSL-GRPC/ssl/ssl_transcript.cc:181-195 | The hash starts with everything so far |
| HandshakeConnection.Connection.HashMessage | FurnitureAR/Pods/BoringSSL-GRPC/ssl/handshake.cc:215-222 | A received message enters the transcript |
| HandshakeConnection.Connection.NextMessage | FurnitureAR/Pods/BoringSSL-GRPC/ssl/s3_both.cc:562-583 | A received message joins the conversation, if the grammar allows it |
| HandshakeConnection.Connection.AddMessage | FurnitureAR/Pods/BoringSSL-GRPC/ssl/handshake.cc:176-184 | A sent message enters the transcript and the conversation once |
| HandshakeConnection.Connection.SendFinished | FurnitureAR/Pods/BoringSSL-GRPC/ssl/handshake.cc:431-476 | The Finished covers exactly what was said before, and holds the value for it |
| HandshakeConnection.Connection.GetFinished | FurnitureAR/Pods/BoringSSL-GRPC/ssl/handshake.cc:380-429 | Accepts a message exactly if it is the Finished over exactly what was said before, with the value for that, which then enters the transcript; waits exactly if there is no message |
| HandshakeConnection.Connection.FreeBuffer | FurnitureAR/Pods/BoringSSL-GRPC/ssl/ssl_transcript.cc:197-199 | Forgets the whole transcript, and nothing else |
| HandshakeClient.ClientHandshake.DoStartConnect | FurnitureAR/Pods/BoringSSL-GRPC/ssl/handshake_client.cc:385-452 | Says the ClientHello it made and nothing else; fails exactly if it cannot be made |
| HandshakeClient.ClientHandshake.DoEnterEarlyData | FurnitureAR/Pods/BoringSSL-GRPC/ssl/handshake_client.cc:454-489 | Goes on to the ServerHello |
| HandshakeClient.ClientHandshake.DoReadServerHello | FurnitureAR/Pods/BoringSSL-GRPC/ssl/handshake_client.cc:535-759 | Hears the ServerHello, starts the hash, and keeps the transcript whole exactly in a full handshake with certificates; goes on to the certificate, or to the ticket of a resumed session; fails exactly on another message or one that is not acceptable |
| HandshakeClient.ClientHandshake.DoReadServerCertificate | FurnitureAR/Pods/BoringSSL-GRPC/ssl/handshake_client.cc:771-819 | Hears a certificate exactly if the cipher uses one; fails exactly on another message, an empty chain or one that is not acceptable |
| HandshakeClient.ClientHandshake.DoReadCertificateStatus | FurnitureAR/Pods/BoringSSL-GRPC/ssl/handshake_client.cc:821-869 | Hears a status if one was promised and sent, otherwise nothing; fails exactly on a bad status |
| HandshakeClient.ClientHandshake.DoVerifyServerCertificate | FurnitureAR/Pods/BoringSSL-GRPC/ssl/handshake_client.cc:871-889 | Waits for the verification without side effect, and does what it says |
| HandshakeClient.ClientHandshake.DoReadServerKeyExchange | FurnitureAR/Pods/BoringSSL-GRPC/ssl/handshake_client.cc:891-1071 | Hears the message, which must be acceptable and of a cipher that has one, or leaves another one waiting, which is refused exactly for ECDHE |
| HandshakeClient.ClientHandshake.DoReadCertificateRequest | FurnitureAR/Pods/BoringSSL-GRPC/ssl/handshake_client.cc:1073-1143 | Hears a request and remembers it, or forgets the transcript where the hello is done; fails exactly on any other message or a bad request |
| HandshakeClient.ClientHandshake.DoReadServerHelloDone | FurnitureAR/Pods/BoringSSL-GRPC/ssl/handshake_client.cc:1145-1167 | Ends the server's flight; fails exactly on anything but an empty message of that type |
| HandshakeClient.ClientHandshake.DoSendClientCertificate | FurnitureAR/Pods/BoringSSL-GRPC/ssl/handshake_client.cc:1169-1215 | Sends a certificate message exactly if asked, the chain it is given or an empty one; fails exactly if a certificate that is set has an empty chain |
| HandshakeClient.ClientHandshake.DoSendClientKeyExchange | FurnitureAR/Pods/BoringSSL-GRPC/ssl/handshake_client.cc:1220-1371 | Sends the key exchange it made; fails exactly if it cannot be made |
| HandshakeClient.ClientHandshake.DoSendClientCertificateVerify | FurnitureAR/Pods/BoringSSL-GRPC/ssl/handshake_client.cc:1373-1455 | Signs if and only if a certificate was sent, and says that signature and nothing else; waits for the key without side effect |
| HandshakeClient.ClientHandshake.SendUnderNewKeys | FurnitureAR/Pods/BoringSSL-GRPC/ssl/handshake_client.cc:1472-1511 | After the change of cipher: next protocol and channel ID exactly if negotiated, and Finished |
| HandshakeClient.ClientHandshake.DoSendClientFinished | FurnitureAR/Pods/BoringSSL-GRPC/ssl/handshake_client.cc:1457-1512 | Asks for the channel ID key before anything that cannot be repeated, then says change of cipher, optional messages and Finished |
| HandshakeClient.ClientHandshake.DoFinishFlight | FurnitureAR/Pods/BoringSSL-GRPC/ssl/handshake_client.cc:1538-1564 | Returns early exactly in a full handshake under False Start |
| HandshakeClient.ClientHandshake.DoReadSessionTicket | FurnitureAR/Pods/BoringSSL-GRPC/ssl/handshake_client.cc:1566-1647 | Reads a ticket exactly if one is expected; fails exactly on another message or a bad ticket |
| HandshakeClient.ClientHandshake.DoProcessChangeCipherSpec | FurnitureAR/Pods/BoringSSL-GRPC/ssl/handshake_client.cc:1649-1656 | Goes on to the server's Finished |
| HandshakeClient.ClientHandshake.DoReadServerFinished | FurnitureAR/Pods/BoringSSL-GRPC/ssl/handshake_client.cc:1658-1672 | Hears the server's Finished once, fails exactly if the message at hand is not the one it computes, and goes on full or resumed |
| HandshakeClient.ClientHandshake.DoFinishClientHandshake | FurnitureAR/Pods/BoringSSL-GRPC/ssl/handshake_client.cc:1674-1705 | Is done |
| HandshakeClient.ClientHandshake.Step | FurnitureAR/Pods/BoringSSL-GRPC/ssl/handshake_client.cc:1707-1789 | Every step keeps the invariant, only adds to the conversation, loses and invents no message, and lowers the rank, or asks to be taken again having changed nothing; as long as all goes as planned and the answers it is given are good, it neither fails nor strays from the plan |
| HandshakeClient.ClientHandshake.Handshake | FurnitureAR/Pods/BoringSSL-GRPC/ssl/handshake_client.cc:1707-1789 | Terminates between waits, only adding to the conversation; success means done |
| HandshakeClient.ClientHandshake.Receive | FurnitureAR/Pods/BoringSSL-GRPC/ssl/handshake.cc:510-548 | What the machine waits for is taken from the transport, and anything else refused, as is a change of cipher that a message is left over before |
| HandshakeClient.ClientHandshake.RunHandshake | FurnitureAR/Pods/BoringSSL-GRPC/ssl/handshake.cc:491-628 | Any pattern of waits, failures and re-entries keeps the invariant and everything said so far; what has been heard grows by what is taken from the transport, in order; as planned, the machine stops only to hear something, for False Start, or when it is done |
| HandshakeServer.ServerHandshake.DoStartAccept | FurnitureAR/Pods/BoringSSL-GRPC/ssl/handshake_server.cc:426-430 | Goes on to the ClientHello |
| HandshakeServer.ServerHandshake.DoReadClientHello | FurnitureAR/Pods/BoringSSL-GRPC/ssl/handshake_server.cc:432-510 | Looks at the ClientHello, any number of times, without consuming it; fails exactly on another message or one that is not acceptable |
| HandshakeServer.ServerHandshake.DoSelectCertificate | FurnitureAR/Pods/BoringSSL-GRPC/ssl/handshake_server.cc:512-560 | Settles certificate and cipher, any number of times |
| HandshakeServer.ServerHandshake.DoSelectParameters | FurnitureAR/Pods/BoringSSL-GRPC/ssl/handshake_server.cc:572-684 | Consumes and hashes the ClientHello once, after all retries; keeps the transcript whole exactly if a certificate will be requested |
| HandshakeServer.ServerHandshake.DoSendServerHello | FurnitureAR/Pods/BoringSSL-GRPC/ssl/handshake_server.cc:686-752 | Sends the ServerHello it made, then goes on full or resumed |
| HandshakeServer.ServerHandshake.DoSendServerCertificate | FurnitureAR/Pods/BoringSSL-GRPC/ssl/handshake_server.cc:754-840 | Sends its certificate and the status, in this order and nothing else, exactly for ciphers that use them |
| HandshakeServer.ServerHandshake.DoSendServerKeyExchange | FurnitureAR/Pods/BoringSSL-GRPC/ssl/handshake_server.cc:842-912 | Sends the key exchange it made if there are parameters; waiting for the key repeats nothing |
| HandshakeServer.ServerHandshake.DoSendServerHelloDone | FurnitureAR/Pods/BoringSSL-GRPC/ssl/handshake_server.cc:914-947 | Requests a certificate exactly if decided, and ends the flight with an empty ServerHelloDone |
| HandshakeServer.ServerHandshake.DoReadClientCertificate | FurnitureAR/Pods/BoringSSL-GRPC/ssl/handshake_server.cc:949-1040 | Reads a certificate message exactly if requested; an empty one forgets the transcript, and is refused exactly if one is required |
| HandshakeServer.ServerHandshake.DoVerifyClientCertificate | FurnitureAR/Pods/BoringSSL-GRPC/ssl/handshake_server.cc:1042-1056 | Waits for the verification without side effect |
| HandshakeServer.ServerHandshake.DoReadClientKeyExchange | FurnitureAR/Pods/BoringSSL-GRPC/ssl/handshake_server.cc:1058-1267 | Hashes the message only after the private key operation, which only RSA has; fails exactly on another message or one that is not acceptable |
| HandshakeServer.ServerHandshake.DoReadClientCertificateVerify | FurnitureAR/Pods/BoringSSL-GRPC/ssl/handshake_server.cc:1269-1363 | Requires the message exactly if there is a certificate, fails exactly on another or a bad signature, and hashes it after checking it |
| HandshakeServer.ServerHandshake.DoReadCipherChange | FurnitureAR/Pods/BoringSSL-GRPC/ssl/handshake_server.cc:1365-1368 | Waits for the change of cipher |
| HandshakeServer.ServerHandshake.DoProcessChangeCipherSpec | FurnitureAR/Pods/BoringSSL-GRPC/ssl/handshake_server.cc:1370-1377 | Goes on under new keys |
| HandshakeServer.ServerHandshake.DoReadNextProto | FurnitureAR/Pods/BoringSSL-GRPC/ssl/handshake_server.cc:1379-1413 | Reads the message exactly if negotiated; fails exactly on another or a bad one |
| HandshakeServer.ServerHandshake.DoReadChannelId | FurnitureAR/Pods/BoringSSL-GRPC/ssl/handshake_server.cc:1415-1437 | Reads the message exactly if negotiated, fails exactly on another or a bad one, and hashes it after checking it |
| HandshakeServer.ServerHandshake.DoReadClientFinished | FurnitureAR/Pods/BoringSSL-GRPC/ssl/handshake_server.cc:1439-1461 | Hears the client's Finished once, fails exactly if the message at hand is not the one it computes, and goes on full or resumed |
| HandshakeServer.ServerHandshake.SendTicketAndFinished | FurnitureAR/Pods/BoringSSL-GRPC/ssl/handshake_server.cc:1463-1502 | A ticket exactly if due, the change of cipher and Finished |
| HandshakeServer.ServerHandshake.DoSendServerFinished | FurnitureAR/Pods/BoringSSL-GRPC/ssl/handshake_server.cc:1463-1509 | Then waits for the client or is nearly done |
| HandshakeServer.ServerHandshake.DoFinishServerHandshake | FurnitureAR/Pods/BoringSSL-GRPC/ssl/handshake_server.cc:1511-1537 | Is done |
| HandshakeServer.ServerHandshake.Step | FurnitureAR/Pods/BoringSSL-GRPC/ssl/handshake_server.cc:1539-1621 | Every step keeps the invariant, only adds to the conversation, loses and invents no message, and lowers the rank, or asks to be taken again having changed nothing; as long as all goes as planned and the answers it is given are good, it neither fails nor strays from the plan |
| HandshakeServer.ServerHandshake.Handshake | FurnitureAR/Pods/BoringSSL-GRPC/ssl/handshake_server.cc:1539-1621 | Terminates between waits, only adding to the conversation; success means done |
| HandshakeServer.ServerHandshake.Receive | FurnitureAR/Pods/BoringSSL-GRPC/ssl/handshake.cc:510-548 | The same for the server |
| HandshakeServer.ServerHandshake.RunHandshake | FurnitureAR/Pods/BoringSSL-GRPC/ssl/handshake.cc:491-628 | Any pattern of waits, failures and re-entries keeps the invariant and everything said so far; what has been heard grows by what is taken from the transport, in order; as planned, the machine stops only to hear something, for False Start, or when it is done |
| HandshakeAgreement.FinishedAgree | FurnitureAR/Pods/BoringSSL-GRPC/ssl/handshake.cc:380-476 | Composed machines: each Finished was computed and checked over the same transcript |
| HandshakeAgreement.ServerAcceptsFinished | FurnitureAR/Pods/BoringSSL-GRPC/ssl/handshake.cc:380-429 | The Finished an honest client sent covers exactly the server's transcript at the check and is the one message the server accepts there |
| HandshakeAgreement.ClientAcceptsFinished | FurnitureAR/Pods/BoringSSL-GRPC/ssl/handshake.cc:380-429 | The same for the server's Finished |
| HandshakeAgreement.ClientDone | FurnitureAR/Pods/BoringSSL-GRPC/ssl/handshake_client.cc:1674-1705 | A client that is done has completed the grammar, full or resumed, with one Finished sent, one checked and one change of cipher each way |
| HandshakeAgreement.ServerDone | FurnitureAR/Pods/BoringSSL-GRPC/ssl/handshake_server.cc:1511-1537 | The same for a server |
| HandshakeAgreement.BothDone | FurnitureAR/Pods/BoringSSL-GRPC/ssl/handshake_server.cc:1511-1537 | When both are done they had the same conversation, and agree on resumption |
| HandshakeAgreement.ClientSignsEverything | FurnitureAR/Pods/BoringSSL-GRPC/ssl/handshake_client.cc:1432-1451 | What CertificateVerify signs is the whole conversation so far |
| HandshakeAgreement.ServerChecksEverything | FurnitureAR/Pods/BoringSSL-GRPC/ssl/handshake_server.cc:1339-1358 | What it is checked against is the whole conversation so far |
| HandshakeTogether.Unheard | FurnitureAR/Pods/BoringSSL-GRPC/ssl/handshake_client.cc:1707-1789 | What one side has said and the other has not heard comes next in the other's view, if it is not its own turn |
| HandshakeTogether.UnheardIsHonest | FurnitureAR/Pods/BoringSSL-GRPC/ssl/handshake.cc:380-429 | If both go as planned it is the planned event, and a Finished holds the value the hearer computes |
| HandshakeTogether.SomethingUnderWay | FurnitureAR/Pods/BoringSSL-GRPC/ssl/handshake.cc:491-628 | There is no deadlock: while both sides wait for each other and are not both done, something said is still to be heard |
| HandshakeTogether.Converse | FurnitureAR/Pods/BoringSSL-GRPC/ssl/handshake.cc:491-628 | Two machines in any state on the same plan that are given good answers: each hears what the other says, no step fails, neither is stuck, and both are done after one and the same conversation, which is the planned one, with each Finished checked over what it was computed over |
| HandshakeTogether.Shake | FurnitureAR/Pods/BoringSSL-GRPC/ssl/handshake.cc:491-628 | So does every handshake from its start, full or resumed, for every plan that makes sense: with or without status, key exchange, client certificate, ticket, next protocol and channel ID |
| Refcount.LockedCount.RefcountInc | FurnitureAR/Pods/BoringSSL-GRPC/crypto/refcount_lock.c:29-35 | Adds one below the maximum |
| Refcount.LockedCount.RefcountDecAndTestZero | FurnitureAR/Pods/BoringSSL-GRPC/crypto/refcount_lock.c:37-51 | Takes one below the maximum, reports zero, aborts at zero |
| Refcount.StepKeeps | FurnitureAR/Pods/BoringSSL-GRPC/crypto/refcount_c11.c:37-65 | Every step of every thread, with any exchange failing, keeps the invariant |
| Refcount.BalancedRun | FurnitureAR/Pods/BoringSSL-GRPC/crypto/refcount_c11.c:37-65 | In every run with balanced holders the exchanging calls do what the locked ones do in the order they take effect; none aborts; zero is reported once, exactly when the last reference is gone |
| Refcount.SaturationIsForever | FurnitureAR/Pods/BoringSSL-GRPC/crypto/refcount_c11.c:37-65 | A saturated count never changes and no decrement reports zero |
| Refcount.UnbalancedAborts | FurnitureAR/Pods/BoringSSL-GRPC/crypto/refcount_c11.c:49-65 | Without balanced holders a decrement can find zero, and aborts |
| Refcount.SaturatesWhenFull | FurnitureAR/Pods/BoringSSL-GRPC/crypto/refcount_c11.c:37-47 | The count saturates only when that many references are held |
| Refcount.CountIsHeld | FurnitureAR/Pods/BoringSSL-GRPC/crypto/refcount_c11.c:37-65 | In a run in which fewer are ever held the count is their number at every point |
| Refcount.AloneFinishes | FurnitureAR/Pods/BoringSSL-GRPC/crypto/refcount_c11.c:37-65 | An exchange fails, but for spurious failures, only because another call took effect, and a thread let run alone finishes its call with one exchange more |
| Refcount.ZeroIsLast | FurnitureAR/Pods/BoringSSL-GRPC/crypto/refcount_c11.c:49-65 | Nothing can follow the decrement that reports zero |
| CipherChoice.Find | FurnitureAR/Pods/BoringSSL-GRPC/ssl/handshake_server.cc:396 | The first place of a cipher in a list |
| CipherChoice.ChooseFrom | FurnitureAR/Pods/BoringSSL-GRPC/ssl/handshake_server.cc:390-423 | The search finds the acceptable cipher that comes first in the other list, within the first group that has one; none exactly if none is acceptable |
| CipherChoice.ChooseCipher | FurnitureAR/Pods/BoringSSL-GRPC/ssl/handshake_server.cc:357-424 | The same for the preference of the server or of the client |
| CipherChoice.ChoiceIsUsable | FurnitureAR/Pods/BoringSSL-GRPC/ssl/handshake_server.cc:390-423 | What is chosen both sides offer, in the range of its versions and not masked out; something is chosen if there is such a cipher |
| CipherChoice.ChoiceIsUnique | FurnitureAR/Pods/BoringSSL-GRPC/ssl/handshake_server.cc:357-424 | That description determines the cipher |
| CipherChoice.WithoutGroupsFirst | FurnitureAR/Pods/BoringSSL-GRPC/ssl/handshake_server.cc:376-380 | Without groups it is the first acceptable cipher |
| Der.ElementRoundTrip | FurnitureAR/Pods/BoringSSL-GRPC/crypto/bytestring/cbs.c:243-322 | An element reads back, with its length in its shortest form |
| Der.UintRoundTrip | FurnitureAR/Pods/BoringSSL-GRPC/crypto/bytestring/cbs.c:391-426 | Every 64-bit number reads back |
| SessionCodec.AddChain | FurnitureAR/Pods/BoringSSL-GRPC/ssl/ssl_asn1.cc:325-332 | The certificates after the leaf, one after another |
| SessionCodec.ToBytesFull | FurnitureAR/Pods/BoringSSL-GRPC/ssl/ssl_asn1.cc:200-399 | The serializer, append by append, writes the fields in their order, each exactly under its condition |
| SessionCodec.Cbs.GetAsn1 | FurnitureAR/Pods/BoringSSL-GRPC/crypto/bytestring/cbs.c:373-375 | Takes an element of the given tag |
| SessionCodec.Cbs.GetOptionalOctets | FurnitureAR/Pods/BoringSSL-GRPC/crypto/bytestring/cbs.c:461-481 | Takes an optional octet string |
| SessionCodec.Cbs.ParseNumber | FurnitureAR/Pods/BoringSSL-GRPC/ssl/ssl_asn1.cc:488-525 | Takes an optional number in the bounds of its type, or its default |
| SessionCodec.Cbs.GetOptionalBool | FurnitureAR/Pods/BoringSSL-GRPC/crypto/bytestring/cbs.c:501-529 | Takes an optional boolean |
| SessionCodec.Cbs.ReadHead | FurnitureAR/Pods/BoringSSL-GRPC/ssl/ssl_asn1.cc:535-584 | The fields that must be there |
| SessionCodec.Cbs.ReadPeer | FurnitureAR/Pods/BoringSSL-GRPC/ssl/ssl_asn1.cc:586-626 | Leaf, context, verification result and ticket; the historical host name is skipped |
| SessionCodec.Cbs.ReadSecrets | FurnitureAR/Pods/BoringSSL-GRPC/ssl/ssl_asn1.cc:628-686 | Digest, hashes, stapled data, group and chain |
| SessionCodec.Cbs.ReadChain | FurnitureAR/Pods/BoringSSL-GRPC/ssl/ssl_asn1.cc:702-719 | The certificates after the leaf, each one element |
| SessionCodec.Cbs.ReadExtras | FurnitureAR/Pods/BoringSSL-GRPC/ssl/ssl_asn1.cc:727-754 | The last fields; the authentication timeout defaults to the timeout |
| SessionCodec.Cbs.ParseSession | FurnitureAR/Pods/BoringSSL-GRPC/ssl/ssl_asn1.cc:527-757 | The parser, field by field, accepts and returns what the parsing function says |
| SessionRoundTrip.FitsSerializes | FurnitureAR/Pods/BoringSSL-GRPC/ssl/ssl_asn1.cc:200-399 | Every session with a cipher, numbers of at most 64 bits and strings that fit into a DER element is serialized, for a ticket or not |
| SessionRoundTrip.SessionRoundTrip | FurnitureAR/Pods/BoringSSL-GRPC/ssl/ssl_asn1.cc:200-757 | Every session in normal form whose strings fit is serialized and comes back as it was |
| SessionRoundTrip.TicketRoundTrip | FurnitureAR/Pods/BoringSSL-GRPC/ssl/ssl_asn1.cc:200-757 | Serialized for a ticket it comes back without its session ID and ticket |
| SessionRoundTrip.LaterFieldRefused | FurnitureAR/Pods/BoringSSL-GRPC/ssl/ssl_asn1.cc:748-754 | A session with a field behind those of this version is refused |
| SessionRoundTrip.ParsedIsNormal | FurnitureAR/Pods/BoringSSL-GRPC/ssl/ssl_asn1.cc:527-757 | Whatever is parsed is in normal form, but for certificates next to a digest |
| SessionRoundTrip.RoundTripIffNormal | FurnitureAR/Pods/BoringSSL-GRPC/ssl/ssl_asn1.cc:200-757 | A session whose strings fit is serialized, and comes back as it was if and only if it is in normal form |

## Left out

- Cryptography: sealing and opening either fail or yield some bytes, a Finished is any
  function of side and transcript, and signatures, key exchange and certificates are accepted
  or not.
- BIOs, sockets, timers and clocks: every call to the environment may fail, or take or bring
  any part of what it can.
- Failing memory allocation, error queues, callbacks for information and messages, logging.
- TLS 1.3, early data, SSL 3.0, V2ClientHello, handoff, renegotiation, and HelloVerifyRequest
  with the other DTLS branches of the two handshake machines; the parsing of message bodies,
  extensions and certificates.
- HandshakeClient.ClientHandshake.DoSendClientCertificateVerify: the certificate configuration
  is fixed once the certificate message is sent; the source asks for it again.
- HandshakeClient.ClientHandshake.Receive: one message arrives at a time here; how records are
  joined into messages, and messages that wait behind the one at hand, are not modelled.
- HandshakeClient.ClientHandshake.RunHandshake: what has arrived is given at the start of a
  call, and whether the transport flushes is the same for all of it.
- FlightPlan.Ciphertext: an AEAD adds at most its overhead, as its interface promises; a
  longer verdict is cut to that.
- Record splitting for CBC ciphers: both records count as one.
- TlsWriter.TlsConnection.SealRecord: a sealed record is no longer than the overhead allows;
  the source has the room that is left as its limit.
- Overflow of `size_t`, 32-bit builds, struct layout, `PB_FIELD_16BIT` and smaller sizes.
- nanopb extensions, callbacks, pointer fields, streams other than buffers, delimited and
  null-terminated messages; fixed-count arrays inside proto3 submessages, whose zero check
  reads the first entry as a count, and what memory an absent fixed-count array holds.
- Der.GetElement: tags with a number of 31 or more are not read, so a chain certificate must
  be an element with a small tag number.
- The X.509 objects cached with a session, and the wrappers that memoize serializations.
- Parsing of the client's cipher list, which is a loop over two-byte values, and the lookup of
  ciphers by value.
- The reference count of the real type is used through holders here; initialization and use
  after the last reference are not modelled.
- The application's Swift code, CPU feature detection, error tables and thread wrappers: they
  hold no logic of this kind.
