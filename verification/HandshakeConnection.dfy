/** The transcript, and the messages a handshake sends and receives. */
module HandshakeConnection {
  import opened Bytes
  import opened HandshakeGrammar
  import opened HandshakePlan

  /** What the handshake machine waits for; HsOk lets it go on. */
  datatype Wait =
    | HsOk | HsError | Flush | ReadServerHello | ReadMessage | ReadChangeCipherSpec
    | X509Lookup | ChannelIdLookup | PrivateKeyOperation | PendingSession | PendingTicket
    | CertificateVerification | CertificateSelectionPending | EarlyReturn

  /** The waits after which the same step is simply taken again. */
  predicate Retries(w: Wait) {
    w.ReadServerHello? || w.ReadMessage? || w.X509Lookup? || w.ChannelIdLookup? || w.PrivateKeyOperation?
    || w.PendingSession? || w.PendingTicket? || w.CertificateVerification? || w.CertificateSelectionPending?
  }

  /** The waits for something from the peer. */
  predicate Hears(w: Wait) { w.ReadServerHello? || w.ReadMessage? || w.ReadChangeCipherSpec? }

  /** The waits for an answer from the application. */
  predicate Pends(w: Wait) {
    w.X509Lookup? || w.ChannelIdLookup? || w.PrivateKeyOperation? || w.PendingSession? || w.PendingTicket?
    || w.CertificateVerification? || w.CertificateSelectionPending?
  }

  /** A wait that is over leads on to one that is not, or into the next step. */
  function WaitRank(w: Wait): nat { if w.HsOk? then 2 else if w.Flush? then 1 else 0 }

  /** What code outside the machines answers to one step. */
  datatype Answer = Answer(
    // not yet: the application is still at work, on a session or a ticket
    pending: bool, pendingTicket: bool,
    // what was read is acceptable, or what is to be sent can be made; and so is what is
    // done once the message is in the transcript
    ok: bool, laterOk: bool,
    // what the hellos and the configuration settle
    terms: Terms,
    // the client has a certificate; a ticket is empty; the server asks for a certificate,
    // and insists on one; it keeps the channel ID
    certificate: bool, emptyTicket: bool, verifyPeer: bool, required: bool, keepChannelId: bool,
    // what the messages to be sent hold
    body: seq<byte>, second: seq<byte>)
  {
    /** Nothing is pending, nothing is refused, and the handshake is the planned one. */
    predicate Good(plan: Plan) {
      && !pending && !pendingTicket && ok && laterOk && terms == plan.terms && certificate == plan.certificate
      && verifyPeer == plan.asked && (required ==> plan.certificate || !plan.asked) && keepChannelId
      && !EmptyChain(body)
    }
  }

  /** The messages so far: whole while someone may need them, and hashed from the moment
      the hash is known. */
  datatype Transcript = Transcript(buffer: Option<seq<Msg>>, hash: Option<seq<Msg>>)
  {
    predicate Holds(ms: seq<Msg>) {
      && (buffer.Some? ==> buffer.value == ms)
      && (hash.Some? ==> hash.value == ms)
      && (buffer.Some? || hash.Some?)
    }

    function Update(msg: Msg): (t: Transcript)
      ensures forall ms :: Holds(ms) ==> t.Holds(ms + [msg])
      ensures t.buffer.Some? == buffer.Some? && t.hash.Some? == hash.Some?
    {
      Transcript(if buffer.Some? then Some(buffer.value + [msg]) else None,
                 if hash.Some? then Some(hash.value + [msg]) else None)
    }
  }

  /** The conversation as one side sees it, what its Finished, and its check of the peer's,
      were computed over, and by what function. */
  datatype Ledger = Ledger(trace: seq<Event>, sentOver: Option<seq<Msg>>, checkedOver: Option<seq<Msg>>, mac: Mac)

  /** The conversation follows the grammar, each of its messages is in the transcript
      exactly once and in order, and each Finished covers what came before it and holds
      the value for that. */
  ghost predicate Sound(server: bool, log: Ledger, t: Transcript) {
    && Run(log.trace).Some? && t.Holds(Messages(log.trace))
    && log.sentOver == Covered(log.trace, server) && log.checkedOver == Covered(log.trace, !server)
    && MacsOk(log.trace, log.mac)
  }

  /** The same, with msg, which is still being dealt with, in the transcript already. */
  ghost predicate SoundAhead(server: bool, log: Ledger, t: Transcript, msg: Msg) {
    && Run(log.trace).Some? && t.Holds(Messages(log.trace) + [msg])
    && log.sentOver == Covered(log.trace, server) && log.checkedOver == Covered(log.trace, !server)
    && MacsOk(log.trace, log.mac)
  }

  lemma Dropped(server: bool, log: Ledger, t: Transcript, msg: Msg)
    requires t.hash.Some?
    ensures Sound(server, log, t) ==> Sound(server, log, t.(buffer := None))
    ensures SoundAhead(server, log, t, msg) ==> SoundAhead(server, log, t.(buffer := None), msg)
  {
  }

  /** A Finished joins the conversation and the transcript. */
  lemma FinishedJoins(server: bool, log: Ledger, t: Transcript, side: bool, msg: Msg)
    requires Sound(server, log, t) && t.hash.Some? && msg.typ.Finished?
    requires msg.body == log.mac(t.hash.value, side) && Then(Run(log.trace), Say(side, msg)).Some?
    ensures var trace := log.trace + [Say(side, msg)];
            var next := if side == server then log.(trace := trace, sentOver := t.hash)
                        else log.(trace := trace, checkedOver := t.hash);
            && Sound(server, next, t.Update(msg)) && t.hash.value == Messages(log.trace)
            && Run(trace) == Then(Run(log.trace), Say(side, msg)) && Added(log.trace, trace, side, [Finished])
  {
    hide Then;
    OneMore(log.trace, Say(side, msg));
    OneMoreMac(log.trace, Say(side, msg), log.mac);
  }

  /** A transcript that is kept whole is every message of the conversation. */
  lemma WholeTranscript(server: bool, log: Ledger, t: Transcript)
    requires Sound(server, log, t)
    ensures t.buffer.Some? ==> t.buffer.value == Messages(log.trace)
  {
  }

  /** What a side has received: what it has dealt with, and the message at hand. */
  ghost function Received(server: bool, trace: seq<Event>, current: Option<Msg>): seq<Event> {
    Stream(trace, !server) + (if current.Some? then [Say(!server, current.value)] else [])
  }

  lemma MoreTaken(before: seq<Event>, heard: seq<Event>, arrived: seq<Event>, taken: nat, took: nat)
    requires taken <= |arrived| && took <= |arrived[taken..]|
    ensures heard == before + arrived[..taken] ==> heard + arrived[taken..][..took] == before + arrived[..taken + took]
    ensures arrived[taken..][took..] == arrived[taken + took..]
  {
  }

  /** One more event is said or heard. */
  lemma Joins(plan: Plan, log: Ledger, e: Event)
    requires Run(log.trace).Some?
    ensures var trace := log.trace + [e];
            && Run(trace) == Then(Run(log.trace), e)
            && Messages(trace) == Messages(log.trace) + (if e.Say? then [e.msg] else [])
            && (forall side :: Stream(trace, side) == Stream(log.trace, side) + (if e.fromServer == side then [e] else []))
            && (forall side ::
                  Covered(trace, side) == if IsFinished(e, side) then Some(Messages(log.trace)) else Covered(log.trace, side))
            && (Obeys(plan, trace) <==> Obeys(plan, log.trace) && Fits(plan, Run(log.trace).value, e))
            && (!(e.Say? && e.msg.typ.Finished?) ==> MacsOk(trace, log.mac) == MacsOk(log.trace, log.mac))
  {
    OneMore(log.trace, e);
    OneMoreStream(log.trace, e);
    OneMoreObeys(plan, log.trace, e);
    OneMoreMac(log.trace, e, log.mac);
  }

  class Connection {
    const server: bool
    // the Finished of a side over a transcript: any function of the two
    const finishedMac: Mac
    // the handshake the two sides are meant to have
    ghost const plan: Plan
    var transcript: Transcript
    // the message received but not yet dealt with
    var current: Option<Msg>
    var log: Ledger

    constructor (server: bool, finishedMac: Mac, ghost plan: Plan)
      ensures this.server == server && this.finishedMac == finishedMac && this.plan == plan
      ensures transcript == Transcript(Some([]), None) && log == Ledger([], None, None, finishedMac) && current.None?
      ensures Sound(server, log, transcript) && Run(log.trace) == Some(Start)
    {
      this.server, this.finishedMac, this.plan := server, finishedMac, plan;
      transcript, current, log := Transcript(Some([]), None), None, Ledger([], None, None, finishedMac);
    }

    ghost function Heard(): seq<Event>
      reads this`log, this`current
    {
      Received(server, log.trace, current)
    }

    /** The next message from the peer, if it is there; the same one until it is done with. */
    method GetMessage() returns (msg: Option<Msg>)
      ensures msg == current
    {
      return current;
    }

    method InitHash()
      requires Sound(server, log, transcript) && transcript.buffer.Some?
      modifies this`transcript
      ensures Sound(server, log, transcript) && transcript.buffer.Some? && transcript.hash.Some?
    {
      transcript := transcript.(hash := transcript.buffer);
    }

    method HashMessage(msg: Msg)
      requires Sound(server, log, transcript)
      modifies this`transcript
      ensures SoundAhead(server, log, transcript, msg) && transcript == old(transcript).Update(msg)
    {
      transcript := transcript.Update(msg);
    }

    /** e is the one event that has been said or heard. */
    twostate predicate Joined(e: Event)
      reads this`log
    {
      && log.trace == old(log).trace + [e] && Run(log.trace) == Then(old(Run(log.trace)), e)
      && old(Run(log.trace)).Some?
      && (Obeys(plan, log.trace) <==> old(Obeys(plan, log.trace)) && Fits(plan, old(Run(log.trace)).value, e))
    }

    /** Done with the current message. */
    method NextMessage(msg: Msg)
      requires SoundAhead(server, log, transcript, msg) && !msg.typ.Finished? && current == Some(msg)
      requires Then(Run(log.trace), Say(!server, msg)).Some?
      modifies this`current, this`log
      ensures Sound(server, log, transcript) && log == old(log).(trace := old(log).trace + [Say(!server, msg)])
      ensures Added(old(log).trace, log.trace, !server, [msg.typ]) && Joined(Say(!server, msg))
      ensures current.None? && Heard() == old(Heard())
    {
      hide Run, Then, Messages, Stream, Covered, MacsOk, Obeys, Fits;
      Joins(plan, log, Say(!server, msg));
      log := log.(trace := log.trace + [Say(!server, msg)]);
      current := None;
    }

    /** Adds a message to the flight, and to the transcript. */
    method AddMessage(msg: Msg)
      requires Sound(server, log, transcript) && !msg.typ.Finished?
      requires Then(Run(log.trace), Say(server, msg)).Some?
      modifies this`log, this`transcript
      ensures Sound(server, log, transcript) && log == old(log).(trace := old(log).trace + [Say(server, msg)])
      ensures Added(old(log).trace, log.trace, server, [msg.typ]) && Joined(Say(server, msg))
      ensures transcript == old(transcript).Update(msg) && Heard() == old(Heard())
    {
      hide Run, Then, Messages, Stream, Covered, MacsOk, Obeys, Fits;
      Joins(plan, log, Say(server, msg));
      assert Stream(log.trace, !server) + [] == Stream(log.trace, !server);
      transcript := transcript.Update(msg);
      log := log.(trace := log.trace + [Say(server, msg)]);
    }

    /** A change of cipher, sent or received. */
    method Ciphers(fromServer: bool)
      requires Sound(server, log, transcript) && Then(Run(log.trace), ChangeCipher(fromServer)).Some?
      modifies this`log
      ensures Sound(server, log, transcript) && log == old(log).(trace := old(log).trace + [ChangeCipher(fromServer)])
      ensures Joined(ChangeCipher(fromServer))
      ensures fromServer == server ==> Heard() == old(Heard())
      ensures fromServer != server && current.None? ==> Heard() == old(Heard()) + [ChangeCipher(fromServer)]
    {
      hide Run, Then, Messages, Stream, Covered, MacsOk, Obeys, Fits;
      Joins(plan, log, ChangeCipher(fromServer));
      assert Stream(log.trace, !server) + [] == Stream(log.trace, !server);
      assert Messages(log.trace) + [] == Messages(log.trace);
      log := log.(trace := log.trace + [ChangeCipher(fromServer)]);
    }

    /** Sends the Finished for everything said so far. */
    method SendFinished()
      requires Sound(server, log, transcript) && transcript.hash.Some? && log.mac == finishedMac
      requires forall body :: Then(Run(log.trace), Say(server, Msg(Finished, body))).Some?
      modifies this`log, this`transcript
      ensures Sound(server, log, transcript) && Heard() == old(Heard())
      ensures transcript.buffer.Some? == old(transcript).buffer.Some? && transcript.hash.Some?
      ensures var said := Say(server, Msg(Finished, finishedMac(old(Messages(log.trace)), server)));
              && log == old(log).(trace := old(log).trace + [said], sentOver := Some(old(Messages(log.trace))))
              && Joined(said)
      ensures Added(old(log).trace, log.trace, server, [Finished])
    {
      var msg := Msg(Finished, finishedMac(transcript.hash.value, server));
      assert Then(Run(log.trace), Say(server, msg)).Some?;
      hide Run, Then, Messages, Sound, Added, Stream, Obeys, Fits;
      FinishedJoins(server, log, transcript, server, msg);
      Joins(plan, log, Say(server, msg));
      assert Stream(log.trace, !server) + [] == Stream(log.trace, !server);
      log := log.(trace := log.trace + [Say(server, msg)], sentOver := transcript.hash);
      transcript := transcript.Update(msg);
    }

    /** Receives the peer's Finished and checks it against everything said so far: accepts
        the one message that holds the value for that, and no other. */
    method GetFinished() returns (w: Wait)
      requires Sound(server, log, transcript) && transcript.hash.Some? && log.mac == finishedMac
      requires forall body :: Then(Run(log.trace), Say(!server, Msg(Finished, body))).Some?
      modifies this`current, this`log, this`transcript
      ensures w.HsOk? || w.ReadMessage? || w.HsError?
      ensures w.ReadMessage? <==> old(current).None?
      ensures w.HsOk? <==> old(current) == Some(Msg(Finished, finishedMac(old(Messages(log.trace)), !server)))
      ensures w.ReadMessage? ==> transcript == old(transcript)
      ensures !w.HsOk? ==> log == old(log) && current == old(current)
      ensures w.HsOk? ==> Sound(server, log, transcript) && current.None?
      ensures w.HsOk? ==> transcript.buffer.Some? == old(transcript).buffer.Some? && transcript.hash.Some?
      ensures var said := Say(!server, Msg(Finished, finishedMac(old(Messages(log.trace)), !server)));
              w.HsOk? ==>
                && log == old(log).(trace := old(log).trace + [said], checkedOver := Some(old(Messages(log.trace))))
                && Joined(said) && Added(old(log).trace, log.trace, !server, [Finished])
      ensures Heard() == old(Heard())
    {
      hide Run, Then, Messages, SoundAhead, Added, Stream, Obeys, Fits;
      var m := GetMessage();
      if m.None? {
        return ReadMessage;
      }
      var msg := m.value;
      if !msg.typ.Finished? {
        return HsError;
      }
      assert Then(Run(log.trace), Say(!server, Msg(Finished, msg.body))).Some?;
      var before := transcript;
      var finished := finishedMac(transcript.hash.value, !server);
      assert transcript.hash.value == Messages(log.trace);
      hide Sound;
      HashMessage(msg);
      if msg.body != finished {
        return HsError;
      }
      FinishedJoins(server, log, before, !server, msg);
      Joins(plan, log, Say(!server, msg));
      log := log.(trace := log.trace + [Say(!server, msg)], checkedOver := before.hash);
      current := None;
      return HsOk;
    }

    /** The whole transcript will not be needed any more. */
    method FreeBuffer()
      requires transcript.hash.Some?
      modifies this`transcript
      ensures transcript == old(transcript).(buffer := None)
    {
      transcript := transcript.(buffer := None);
    }
  }
}
