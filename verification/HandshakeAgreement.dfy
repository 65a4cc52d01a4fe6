/** A client and a server that talk to each other, message for message. */
module HandshakeAgreement {
  import opened Bytes
  import opened HandshakeGrammar
  import opened HandshakePlan
  import opened HandshakeConnection
  import C = HandshakeClient
  import S = HandshakeServer

  /** Neither side has received what the other did not send, in the order it was sent. */
  ghost predicate Delivered(client: Ledger, server: Ledger) {
    && Stream(server.trace, false) <= Stream(client.trace, false)
    && Stream(client.trace, true) <= Stream(server.trace, true)
  }

  /** Each Finished was computed and checked over the same messages. */
  lemma FinishedAgree(client: Ledger, ct: Transcript, server: Ledger, st: Transcript)
    requires Sound(false, client, ct) && Sound(true, server, st) && Delivered(client, server)
    ensures client.sentOver.Some? && server.checkedOver.Some? ==> client.sentOver == server.checkedOver
    ensures server.sentOver.Some? && client.checkedOver.Some? ==> server.sentOver == client.checkedOver
  {
    hide Run, Covered, Stream;
    FinishedOverSameMessages(client.trace, server.trace, false);
    FinishedOverSameMessages(client.trace, server.trace, true);
  }

  /** The Finished an honest client sent holds the value for exactly what the server has
      in its transcript when it comes to check it: it is the message GetFinished accepts. */
  lemma ServerAcceptsFinished(client: Ledger, ct: Transcript, server: Ledger, st: Transcript, finished: Event)
    requires Sound(false, client, ct) && Sound(true, server, st) && client.mac == server.mac
    requires IsFinished(finished, false) && Then(Run(server.trace), finished).Some?
    requires Stream(server.trace, false) + [finished] <= Stream(client.trace, false)
    requires Stream(client.trace, true) <= Stream(server.trace, true)
    ensures client.sentOver == Some(Messages(server.trace))
    ensures finished.msg == Msg(Finished, server.mac(Messages(server.trace), false))
  {
    var next := server.trace + [finished];
    OneMore(server.trace, finished);
    OneMoreStream(server.trace, finished);
    hide Run, Covered, Stream, Messages, MacsOk;
    FinishedOverSameMessages(client.trace, next, false);
    SaidFinished(client.trace, server.trace, finished, false, client.mac);
  }

  /** The same for the Finished of an honest server. */
  lemma ClientAcceptsFinished(client: Ledger, ct: Transcript, server: Ledger, st: Transcript, finished: Event)
    requires Sound(false, client, ct) && Sound(true, server, st) && client.mac == server.mac
    requires IsFinished(finished, true) && Then(Run(client.trace), finished).Some?
    requires Stream(client.trace, true) + [finished] <= Stream(server.trace, true)
    requires Stream(server.trace, false) <= Stream(client.trace, false)
    ensures server.sentOver == Some(Messages(client.trace))
    ensures finished.msg == Msg(Finished, client.mac(Messages(client.trace), true))
  {
    var next := client.trace + [finished];
    OneMore(client.trace, finished);
    OneMoreStream(client.trace, finished);
    hide Run, Covered, Stream, Messages, MacsOk;
    FinishedOverSameMessages(next, server.trace, true);
    SaidFinished(server.trace, client.trace, finished, true, server.mac);
  }

  /** A Finished that arrives was said, and holds the value for what it covers. */
  lemma SaidFinished(sender: seq<Event>, receiver: seq<Event>, finished: Event, side: bool, mac: Mac)
    requires Run(sender).Some? && MacsOk(sender, mac) && IsFinished(finished, side)
    requires Stream(receiver, side) + [finished] <= Stream(sender, side)
    ensures Covered(sender, side).Some? && finished.msg.body == mac(Covered(sender, side).value, side)
  {
    hide Run, Covered, Stream, Messages, MacsOk;
    assert Stream(sender, side)[|Stream(receiver, side)|] == finished;
    InStream(sender, side, finished);
    CoveredMac(sender, finished, side, mac);
  }

  /** A client that is done has completed the conversation: both Finished and both changes
      of cipher, one each, and its own Finished and its check cover what came before. */
  lemma ClientDone(terms: Terms, certRequest: bool, hasCertificate: bool, log: Ledger, t: Transcript, side: bool)
    requires C.Inv(HsOk, C.Done, terms, certRequest, hasCertificate, log, t)
    ensures Run(log.trace) == Some(Complete(!terms.session))
    ensures Count(log.trace, e => IsFinished(e, side)) == 1 && Count(log.trace, e => e == ChangeCipher(side)) == 1
    ensures log.sentOver.Some? && log.checkedOver.Some?
  {
    CompleteHasAll(log.trace, side);
    CoveredIsFinished(log.trace, false);
    CoveredIsFinished(log.trace, true);
  }

  lemma ServerDone(terms: Terms, certRequest: bool, peerPubkey: bool, log: Ledger, t: Transcript, side: bool)
    requires S.Inv(HsOk, S.Done, terms, certRequest, peerPubkey, log, t)
    ensures Run(log.trace) == Some(Complete(!terms.session))
    ensures Count(log.trace, e => IsFinished(e, side)) == 1 && Count(log.trace, e => e == ChangeCipher(side)) == 1
    ensures log.sentOver.Some? && log.checkedOver.Some?
  {
    CompleteHasAll(log.trace, side);
    CoveredIsFinished(log.trace, false);
    CoveredIsFinished(log.trace, true);
  }

  /** When both are done they have had one and the same conversation, and agree on
      whether a session was resumed. */
  lemma BothDone(ct: Terms, certRequest: bool, hasCertificate: bool, client: Ledger, clientTranscript: Transcript,
                 st: Terms, asked: bool, peerPubkey: bool, server: Ledger, serverTranscript: Transcript)
    requires C.Inv(HsOk, C.Done, ct, certRequest, hasCertificate, client, clientTranscript)
    requires S.Inv(HsOk, S.Done, st, asked, peerPubkey, server, serverTranscript)
    requires Delivered(client, server)
    ensures client.trace == server.trace && ct.session == st.session
    ensures client.sentOver == server.checkedOver && server.sentOver == client.checkedOver
  {
    ClientDone(ct, certRequest, hasCertificate, client, clientTranscript, false);
    ServerDone(st, asked, peerPubkey, server, serverTranscript, false);
    hide Run, Covered, Stream;
    FinishedOverSameMessages(client.trace, server.trace, false);
    FinishedAgree(client, clientTranscript, server, serverTranscript);
  }

  /** What a client signs in its CertificateVerify is the whole conversation so far. */
  lemma ClientSignsEverything(terms: Terms, log: Ledger, t: Transcript)
    requires C.Inv(HsOk, C.SendClientCertificateVerify, terms, true, true, log, t)
    ensures t.buffer == Some(Messages(log.trace))
  {
    WholeTranscript(false, log, t);
  }

  /** What a server checks it against is the whole conversation so far. */
  lemma ServerChecksEverything(terms: Terms, log: Ledger, t: Transcript)
    requires S.Inv(HsOk, S.ReadClientCertificateVerify, terms, true, true, log, t)
    ensures t.buffer == Some(Messages(log.trace))
  {
    WholeTranscript(true, log, t);
  }
}
