/** Packets and fragments are no smaller than they have to be. */
module DtlsFilling {
  import opened Bits
  import opened Bytes
  import opened Protocol
  import opened DtlsRecord
  import opened HandshakeFragment
  import opened Flight
  import opened WriteSequence
  import opened FlightPlan

  /** A record with this plaintext takes all of the room, should the AEAD grow it by as
      much as it may. */
  predicate TakesAll(plaintext: seq<byte>, aead: Aead, room: int) {
    RT_HEADER_LENGTH + |plaintext| + aead.overhead == room
  }

  /** A packet ends with the flight, with a fragment that takes all the room behind the
      other records, or where the next message of an epoch still in use has no room. */
  predicate EndsFull(flight: seq<OutMessage>, recs: seq<Record>, end: Cursor, room: nat, keys: Keys, w: WriteState) {
    end.written < |flight| ==>
      var use := UsePrevious(w, flight[end.written]);
      var spent := |PacketBytes(recs)|;
      && use.Some? && spent <= room
      && if recs != [] && end.offset > 0 then
           TakesAll(recs[|recs| - 1].plaintext, keys.Of(use.value), room - (spent - |recs[|recs| - 1].wire|))
         else
           !Fits(flight[end.written], room - spent, keys.Of(use.value))
  }

  /** A message is cut only if the rest of it has no room, and the piece takes all of it. */
  lemma CutOnlyIfNeeded(flight: seq<OutMessage>, at: Cursor, maxOut: nat, keys: Keys, w: WriteState,
                        seals: nat -> Option<seq<byte>>, i: nat)
    requires keys.Ok() && at.written < |flight|
    ensures var om := flight[at.written];
            var use := UsePrevious(w, om);
            var a := SealNext(flight, at, maxOut, keys, w, seals, i);
            && a.w.epoch == w.epoch
            && (!a.result.SealError? ==> use.Some?)
            && (a.result.NoProgress? ==> !Fits(om, maxOut, keys.Of(use.value)))
            && (a.result.SealPartial? ==>
                  && TakesAll(a.result.rec.plaintext, keys.Of(use.value), maxOut)
                  && Whole(om) && at.offset <= |Content(om).body|
                  && RT_HEADER_LENGTH + HEADER_LENGTH + (|Content(om).body| - at.offset) + keys.Of(use.value).overhead > maxOut)
  {
    hide ParseFragment, Ciphertext, RecordBytes;
  }

  /** No packet ends before it has to. */
  lemma {:induction false} PackFills(flight: seq<OutMessage>, at: Cursor, room: nat, keys: Keys, w: WriteState,
                                     seals: nat -> Option<seq<byte>>, i: nat)
    requires keys.Ok()
    ensures var p := Pack(flight, at, room, keys, w, seals, i);
            p.w.epoch == w.epoch && (!p.failed ==> EndsFull(flight, p.records, p.at, room, keys, w))
    decreases |flight| - at.written
  {
    hide SealNext, Fits, TakesAll, Advance, PacketBytes, EndsFull, UsePrevious;
    if at.written < |flight| {
      CutOnlyIfNeeded(flight, at, room, keys, w, seals, i);
      SealAdvances(flight, at, room, keys, w, seals, i);
      var a := SealNext(flight, at, room, keys, w, seals, i);
      match a.result
      case SealError =>
      case NoProgress =>
        NothingFilled(flight, at, room, keys, w);
      case SealPartial(rec) =>
        FullAlone(flight, at, rec, a.at, room, keys, w);
      case SealSuccess(rec) =>
        var rest := Pack(flight, a.at, room - |rec.wire|, keys, a.w, seals, a.calls);
        PackFills(flight, a.at, room - |rec.wire|, keys, a.w, seals, a.calls);
        PackTiles(flight, a.at, room - |rec.wire|, keys, a.w, seals, a.calls);
        if !rest.failed {
          FullBehind(flight, rec, rest.records, rest.at, room, keys, w, a.w);
        }
    } else {
      NothingFilled(flight, at, room, keys, w);
    }
  }

  lemma FullAlone(flight: seq<OutMessage>, at: Cursor, rec: Record, end: Cursor, room: nat, keys: Keys, w: WriteState)
    requires at.written < |flight| && end.written == at.written && end.offset > 0 && |rec.wire| <= room
    requires var use := UsePrevious(w, flight[at.written]);
             use.Some? && TakesAll(rec.plaintext, keys.Of(use.value), room)
    ensures EndsFull(flight, [rec], end, room, keys, w)
  {
    hide Fits, TakesAll;
    assert PacketBytes([rec]) == rec.wire + [];
  }

  lemma NothingFilled(flight: seq<OutMessage>, at: Cursor, room: nat, keys: Keys, w: WriteState)
    requires at.written < |flight| ==>
               var use := UsePrevious(w, flight[at.written]); use.Some? && !Fits(flight[at.written], room, keys.Of(use.value))
    ensures EndsFull(flight, [], at, room, keys, w)
  {
    hide Fits, TakesAll;
  }

  /** One record more in front, and as much more room. */
  lemma FullBehind(flight: seq<OutMessage>, rec: Record, recs: seq<Record>, end: Cursor, room: nat, keys: Keys, w: WriteState,
                   v: WriteState)
    requires |rec.wire| <= room && v.epoch == w.epoch && (recs == [] ==> end.offset == 0)
    requires EndsFull(flight, recs, end, room - |rec.wire|, keys, v)
    ensures EndsFull(flight, [rec] + recs, end, room, keys, w)
  {
    hide Fits, TakesAll;
    assert ([rec] + recs)[1..] == recs;
  }

  /** Nor does any packet of a call: each ends as full as can be at the place up to which
      the packets so far tile the flight. */
  lemma {:induction false} SendFills(flight: seq<OutMessage>, at: Cursor, mtu: nat, keys: Keys, w: WriteState,
                                     env: Env, i: nat, j: nat, k: nat)
    requires keys.Ok()
    ensures var packets := Send(flight, at, mtu, keys, w, env, i, j).packets;
            k < |packets| ==>
              var end := Tile(flight, at, Flatten(packets[..k + 1]));
              packets[k] != [] && end.Some? && EndsFull(flight, packets[k], end.value, mtu, keys, w)
    decreases k
  {
    hide Pack, EndsFull, Tile;
    if at.written < |flight| {
      var p := Pack(flight, at, mtu, keys, w, env.seals, i);
      PackFills(flight, at, mtu, keys, w, env.seals, i);
      PackTiles(flight, at, mtu, keys, w, env.seals, i);
      if !p.failed && p.records != [] && env.replies(j) > 0 {
        var rest := Send(flight, p.at, mtu, keys, p.w, env, p.calls, j + 1).packets;
        var all := [p.records] + rest;
        if k == 0 {
          assert all[..1] == [p.records] && Flatten([p.records]) == p.records;
        } else if k < |all| {
          SendFills(flight, p.at, mtu, keys, p.w, env, p.calls, j + 1, k - 1);
          assert all[..k + 1][1..] == rest[..k] && all[..k + 1][0] == p.records;
          TileConcat(flight, at, p.records, Flatten(rest[..k]));
          EndsFullSameEpoch(flight, rest[k - 1], mtu, keys, p.w, w);
        }
      }
    }
  }

  lemma EndsFullSameEpoch(flight: seq<OutMessage>, recs: seq<Record>, mtu: nat, keys: Keys, v: WriteState, w: WriteState)
    requires v.epoch == w.epoch
    ensures forall end :: EndsFull(flight, recs, end, mtu, keys, v) ==> EndsFull(flight, recs, end, mtu, keys, w)
  {
    hide PacketBytes, Fits, TakesAll;
  }
}
