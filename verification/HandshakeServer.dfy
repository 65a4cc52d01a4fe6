/**
 The server's handshake state machine for TLS 1.0-1.2.  What messages hold besides their
 type is left open, and so is whether they are acceptable.
 */
module HandshakeServer {
  import opened Bytes
  import opened HandshakeGrammar
  import opened HandshakePlan
  import opened HandshakeConnection

  datatype State =
    | StartAccept | ReadClientHello | SelectCertificate | SelectParameters | SendServerHello
    | SendServerCertificate | SendServerKeyExchange | SendServerHelloDone
    | ReadClientCertificate | VerifyClientCertificate | ReadClientKeyExchange
    | ReadClientCertificateVerify | ReadCipherChange | ProcessChangeCipherSpec | ReadNextProto
    | ReadChannelId | ReadClientFinished | SendServerFinished | FinishServerHandshake | Done

  /** What the state promises about the conversation, while the machine waits for w. */
  predicate Stands(state: State, w: Wait, terms: Terms, certRequest: bool, peerPubkey: bool, p: Phase) {
    var session, cipher := terms.session, terms.cipher;
    match state
    case StartAccept => p == Start
    case ReadClientHello => p == Start
    case SelectCertificate => p == Start
    case SelectParameters => p == Start
    case SendServerHello => p == HelloSent
    case SendServerCertificate => p == ServerSpeaks(0, false) && !session
    case SendServerKeyExchange => AfterStatus(cipher, p) && !session
    case SendServerHelloDone => p.ServerSpeaks? && p.pos < 4 && p.cert == cipher.certificateAuth && !session
    case ReadClientCertificate => p == ClientStarts(certRequest) && !session
    case VerifyClientCertificate => p == (if certRequest then CertSent(peerPubkey) else ClientStarts(false)) && !session
    case ReadClientKeyExchange => p == (if certRequest then CertSent(peerPubkey) else ClientStarts(false)) && !session
    case ReadClientCertificateVerify => p == KeySent(certRequest && peerPubkey) && !session
    case ReadCipherChange => p == BeforeCiphers(session)
    case ProcessChangeCipherSpec =>
      p == if w.ReadChangeCipherSpec? then BeforeCiphers(session) else ClientCiphers(!session, 0)
    case ReadNextProto => p == ClientCiphers(!session, 0)
    case ReadChannelId => p == ClientCiphers(!session, if terms.nextProtoNegSeen then 1 else 0)
    case ReadClientFinished =>
      p == ClientCiphers(!session, if terms.channelIdValid then 2 else if terms.nextProtoNegSeen then 1 else 0)
    case SendServerFinished => p == (if session then ServerSpeaks(0, false) else ClientFinished)
    case FinishServerHandshake => p == Complete(!session)
    case Done => p == Complete(!session)
  }

  function BeforeCiphers(session: bool): Phase { if session then ServerFinished else KeySent(false) }

  /** The states from which a signature over the whole transcript may still be checked. */
  predicate NeedsBuffer(state: State, certRequest: bool, peerPubkey: bool) {
    match state
    case StartAccept => true
    case ReadClientHello => true
    case SelectCertificate => true
    case SelectParameters => true
    case SendServerHello => certRequest
    case SendServerCertificate => certRequest
    case SendServerKeyExchange => certRequest
    case SendServerHelloDone => certRequest
    case ReadClientCertificate => certRequest
    case VerifyClientCertificate => peerPubkey
    case ReadClientKeyExchange => peerPubkey
    case ReadClientCertificateVerify => peerPubkey
    case _ => false
  }

  /** How many steps are left at most, in the order the states are taken. */
  function Rank(state: State, session: bool): nat {
    match state
    case StartAccept => 24
    case ReadClientHello => 23
    case SelectCertificate => 22
    case SelectParameters => 21
    case SendServerHello => 20
    case SendServerCertificate => 19
    case SendServerKeyExchange => 18
    case SendServerHelloDone => 17
    case ReadClientCertificate => 16
    case VerifyClientCertificate => 15
    case ReadClientKeyExchange => 14
    case ReadClientCertificateVerify => 13
    case ReadCipherChange => 10
    case ProcessChangeCipherSpec => 9
    case ReadNextProto => 8
    case ReadChannelId => 7
    case ReadClientFinished => 6
    case SendServerFinished => if session then 11 else 5
    case FinishServerHandshake => 1
    case Done => 0
  }

  /** Holds between any two steps, while the machine waits for w. */
  ghost predicate Inv(w: Wait, state: State, terms: Terms, certRequest: bool, peerPubkey: bool,
                      log: Ledger, t: Transcript)
  {
    && Sound(true, log, t) && Run(log.trace).Some?
    && Stands(state, w, terms, certRequest, peerPubkey, Run(log.trace).value)
    && (NeedsBuffer(state, certRequest, peerPubkey) ==> t.buffer.Some?)
    && (Rank(state, terms.session) <= 20 ==> t.hash.Some?)
    && (certRequest ==> terms.cipher.certificateAuth && Rank(state, terms.session) <= 20)
    && (peerPubkey ==> certRequest && Rank(state, terms.session) < 16)
    && (w.ReadChangeCipherSpec? ==> state.ProcessChangeCipherSpec?)
    && (Hears(w) ==> ClientsTurn(Run(log.trace).value))
    && (w.ReadMessage? || w.ReadServerHello? ==> MayRead(state, terms, certRequest, peerPubkey))
  }

  /** Where the planned conversation stands, while the machine waits for w. */
  function Place(plan: Plan, state: State, w: Wait): Phase {
    var full, terms := !plan.terms.session, plan.terms;
    match state
    case StartAccept => Start
    case ReadClientHello => Start
    case SelectCertificate => Start
    case SelectParameters => Start
    case SendServerHello => HelloSent
    case SendServerCertificate => ServerSpeaks(0, false)
    case SendServerKeyExchange => plan.StatusPhase()
    case SendServerHelloDone => plan.KeyPhase()
    case ReadClientCertificate => ClientStarts(plan.asked)
    case VerifyClientCertificate => if plan.asked then CertSent(plan.certificate) else ClientStarts(false)
    case ReadClientKeyExchange => if plan.asked then CertSent(plan.certificate) else ClientStarts(false)
    case ReadClientCertificateVerify => KeySent(plan.certificate)
    case ReadCipherChange => BeforeCiphers(!full)
    case ProcessChangeCipherSpec => if w.ReadChangeCipherSpec? then BeforeCiphers(!full) else ClientCiphers(full, 0)
    case ReadNextProto => ClientCiphers(full, 0)
    case ReadChannelId => ClientCiphers(full, if terms.nextProtoNegSeen then 1 else 0)
    case ReadClientFinished =>
      ClientCiphers(full, if terms.channelIdValid then 2 else if terms.nextProtoNegSeen then 1 else 0)
    case SendServerFinished => if full then ClientFinished else ServerSpeaks(0, false)
    case FinishServerHandshake => Complete(full)
    case Done => Complete(full)
  }

  /** Whether the server has a key exchange message to send. */
  predicate HasParams(cipher: Cipher, hint: bool) { cipher.ecdhe || (!cipher.certificateAuth && hint) }

  /** So far the handshake has gone as planned, and so will the message at hand. */
  ghost predicate OnPlan(plan: Plan, w: Wait, state: State, terms: Terms, certRequest: bool, peerPubkey: bool,
                         params: bool, log: Ledger, current: Option<Msg>)
  {
    var rank := Rank(state, terms.session);
    && plan.Sensible() && Obeys(plan, log.trace) && Run(log.trace) == Some(Place(plan, state, w))
    && (rank <= 20 ==> terms == plan.terms && certRequest == plan.asked)
    && (rank == 21 ==> terms.cipher == plan.terms.cipher)
    && (13 <= rank < 20 ==> !terms.session) && (13 <= rank < 16 ==> peerPubkey == plan.certificate)
    && (state.SendServerKeyExchange? ==> params == plan.keyExchange)
    && (current.Some? ==> Honest(plan, log.mac, log.trace, Say(false, current.value)))
  }

  /** While the ClientHello is being dealt with it stays the current message. */
  predicate HelloHeld(state: State, current: Option<Msg>) {
    state.SelectCertificate? || state.SelectParameters? ==> current.Some? && current.value.typ.ClientHello?
  }

  function CertificateAndStatus(terms: Terms, a: Answer): seq<Event> {
    [Say(true, Msg(Certificate, a.body))] + SaidIf(terms.statusExpected, true, Msg(CertificateStatus, a.second))
  }

  /** The types and the messages of a certificate, if the cipher uses one. */
  function CertificateTypes(terms: Terms): seq<MsgType> {
    if !terms.cipher.certificateAuth then []
    else if terms.statusExpected then [Certificate, CertificateStatus] else [Certificate]
  }

  function CertificateMessages(terms: Terms, a: Answer): seq<Event> {
    if terms.cipher.certificateAuth then CertificateAndStatus(terms, a) else []
  }

  function RequestAndDone(certRequest: bool, a: Answer): seq<Event> {
    SaidIf(certRequest, true, Msg(CertificateRequest, a.body)) + [Say(true, Msg(ServerHelloDone, []))]
  }

  /** What a server says last: a ticket if one is due, the change of cipher and Finished. */
  predicate TicketAndFinished(before: seq<Event>, after: seq<Event>, ticket: bool) {
    var n := |before| + if ticket then 1 else 0;
    && before <= after && |after| == n + 2 && after[n] == ChangeCipher(true)
    && Added(before, after[..n], true, if ticket then [NewSessionTicket] else [])
    && Added(after[..n + 1], after, true, [Finished])
  }

  lemma LastWords(before: seq<Event>, ticketed: seq<Event>, after: seq<Event>, ticket: bool)
    requires Added(before, ticketed, true, if ticket then [NewSessionTicket] else [])
    requires Added(ticketed + [ChangeCipher(true)], after, true, [Finished])
    ensures TicketAndFinished(before, after, ticket)
  {
    var n := |before| + if ticket then 1 else 0;
    assert after[..n] == ticketed && after[..n + 1] == ticketed + [ChangeCipher(true)];
  }

  /** Only a change of cipher is part of the conversation among what is waited for. */
  lemma WaitOver(w: Wait, state: State, terms: Terms, certRequest: bool, peerPubkey: bool, log: Ledger, t: Transcript)
    requires Inv(w, state, terms, certRequest, peerPubkey, log, t) && !w.ReadChangeCipherSpec?
    ensures Inv(HsOk, state, terms, certRequest, peerPubkey, log, t)
  {
    hide Run, Sound;
  }

  /** The message a step reads. */
  function Reads(state: State): MsgType {
    match state
    case ReadClientHello => ClientHello
    case SelectCertificate => ClientHello
    case SelectParameters => ClientHello
    case ReadClientCertificate => Certificate
    case ReadClientKeyExchange => ClientKeyExchange
    case ReadClientCertificateVerify => CertificateVerify
    case ReadNextProto => NextProto
    case ReadChannelId => ChannelId
    case ReadClientFinished => Finished
    case _ => OtherMessage
  }

  /** Whether the step reads a message. */
  predicate MayRead(state: State, terms: Terms, certRequest: bool, peerPubkey: bool) {
    match state
    case ReadClientCertificate => certRequest
    case ReadClientCertificateVerify => peerPubkey
    case ReadNextProto => terms.nextProtoNegSeen
    case ReadChannelId => terms.channelIdValid
    case _ => !Reads(state).OtherMessage?
  }

  /** What a message settles: the ClientHello the terms, a certificate that there is a key. */
  predicate MaySettle(state: State, was: Terms, terms: Terms, asked: bool, certRequest: bool, had: bool, peerPubkey: bool,
                      body: seq<byte>)
  {
    match state
    case SelectParameters =>
      && terms.cipher == was.cipher && peerPubkey == had
      && (certRequest ==> !terms.session && terms.cipher.certificateAuth)
    case ReadClientCertificate => terms == was && certRequest == asked && peerPubkey == !EmptyChain(body)
    case _ => terms == was && certRequest == asked && peerPubkey == had
  }

  /** Where a step that reads, or need not, goes on. */
  function Onward(state: State, session: bool): State {
    match state
    case SelectParameters => SendServerHello
    case ReadClientCertificate => VerifyClientCertificate
    case ReadClientKeyExchange => ReadClientCertificateVerify
    case ReadClientCertificateVerify => ReadCipherChange
    case ReadNextProto => ReadChannelId
    case ReadChannelId => ReadClientFinished
    case ReadClientFinished => if session then FinishServerHandshake else SendServerFinished
    case _ => state
  }

  /** What the message at hand is if all goes as planned. */
  predicate Expected(state: State, plan: Plan, finished: seq<byte>, msg: Msg) {
    && msg.typ == Reads(state)
    && (state.ReadClientCertificate? ==> (EmptyChain(msg.body) <==> !plan.certificate))
    && (state.ReadClientFinished? ==> msg.body == finished)
  }

  /** A step that reads can wait for a message, and the grammar allows the one it reads. */
  lemma AtReading(state: State, terms: Terms, certRequest: bool, peerPubkey: bool, log: Ledger, t: Transcript)
    requires Inv(HsOk, state, terms, certRequest, peerPubkey, log, t) && MayRead(state, terms, certRequest, peerPubkey)
    ensures Sound(true, log, t) && Run(log.trace).Some?
    ensures Rank(state, terms.session) <= 20 ==> t.hash.Some?
    ensures NeedsBuffer(state, certRequest, peerPubkey) ==> t.buffer.Some?
    ensures forall msg: Msg :: msg.typ == Reads(state) ==> Then(Run(log.trace), Say(false, msg)).Some?
    ensures Inv(ReadMessage, state, terms, certRequest, peerPubkey, log, t)
  {
    hide Sound, Run, AfterServer, AfterCipher;
  }

  /** As planned, the message at hand is acceptable. */
  lemma ExpectedHere(plan: Plan, state: State, terms: Terms, certRequest: bool, peerPubkey: bool, params: bool, log: Ledger,
                     current: Option<Msg>)
    requires OnPlan(plan, HsOk, state, terms, certRequest, peerPubkey, params, log, current)
    requires MayRead(state, terms, certRequest, peerPubkey)
    ensures OnPlan(plan, ReadMessage, state, terms, certRequest, peerPubkey, params, log, current)
    ensures current.Some? ==> Expected(state, plan, log.mac(Messages(log.trace), false), current.value)
  {
    hide Run, Obeys, Messages, EmptyChain;
  }

  /** A message that was read leads on. */
  lemma ReadOne(state: State, was: Terms, asked: bool, had: bool, log: Ledger, t: Transcript, msg: Msg,
                terms: Terms, certRequest: bool, peerPubkey: bool, next: Ledger, u: Transcript)
    requires Inv(HsOk, state, was, asked, had, log, t)
    requires MayRead(state, was, asked, had) && msg.typ == Reads(state) && Onward(state, terms.session) != state
    requires MaySettle(state, was, terms, asked, certRequest, had, peerPubkey, msg.body)
    requires Sound(true, next, u) && u.hash.Some?
    requires Run(next.trace) == Then(Run(log.trace), Say(false, msg)) && Run(next.trace).Some?
    requires NeedsBuffer(Onward(state, terms.session), certRequest, peerPubkey) ==> u.buffer.Some?
    ensures Inv(HsOk, Onward(state, terms.session), terms, certRequest, peerPubkey, next, u)
    ensures Rank(Onward(state, terms.session), terms.session) < Rank(state, was.session)
  {
    hide Sound, Run, AfterServer, AfterCipher, NeedsBuffer, EmptyChain;
  }

  lemma ReadOneOnPlan(plan: Plan, state: State, was: Terms, asked: bool, had: bool, params: bool, log: Ledger, msg: Msg,
                      terms: Terms, certRequest: bool, peerPubkey: bool, next: Ledger)
    requires OnPlan(plan, HsOk, state, was, asked, had, params, log, Some(msg))
    requires MayRead(state, was, asked, had) && msg.typ == Reads(state) && Onward(state, terms.session) != state
    requires MaySettle(state, was, terms, asked, certRequest, had, peerPubkey, msg.body)
    requires state.SelectParameters? ==> terms == plan.terms && certRequest == plan.asked
    requires Run(next.trace) == Then(Run(log.trace), Say(false, msg)) && Run(next.trace).Some?
    requires Obeys(plan, next.trace) <==> Obeys(plan, log.trace) && Fits(plan, Run(log.trace).value, Say(false, msg))
    ensures OnPlan(plan, HsOk, Onward(state, terms.session), terms, certRequest, peerPubkey, params, next, None)
  {
    hide Run, Obeys, Messages, AfterServer, AfterCipher, EmptyChain;
  }

  /** The client's Finished leads on. */
  lemma FinishedRead(plan: Plan, terms: Terms, certRequest: bool, peerPubkey: bool, params: bool, log: Ledger, t: Transcript,
                     msg: Msg, next: Ledger, u: Transcript)
    requires Inv(HsOk, ReadClientFinished, terms, certRequest, peerPubkey, log, t) && msg.typ.Finished?
    requires Sound(true, next, u) && u.hash.Some?
    requires Run(next.trace) == Then(Run(log.trace), Say(false, msg)) && Run(next.trace).Some?
    requires Obeys(plan, next.trace) <==> Obeys(plan, log.trace) && Fits(plan, Run(log.trace).value, Say(false, msg))
    ensures var to := if terms.session then FinishServerHandshake else SendServerFinished;
            && Inv(HsOk, to, terms, certRequest, peerPubkey, next, u)
            && Rank(to, terms.session) < Rank(ReadClientFinished, terms.session)
            && (forall current :: HelloHeld(to, current))
            && (OnPlan(plan, HsOk, ReadClientFinished, terms, certRequest, peerPubkey, params, log, Some(msg))
                ==> OnPlan(plan, HsOk, to, terms, certRequest, peerPubkey, params, next, None))
  {
    hide Inv, OnPlan, Sound, Run, Then, Obeys, Fits, Rank;
    ReadOne(ReadClientFinished, terms, certRequest, peerPubkey, log, t, msg, terms, certRequest, peerPubkey, next, u);
    if OnPlan(plan, HsOk, ReadClientFinished, terms, certRequest, peerPubkey, params, log, Some(msg)) {
      ReadOneOnPlan(plan, ReadClientFinished, terms, certRequest, peerPubkey, params, log, msg,
                    terms, certRequest, peerPubkey, next);
    }
  }

  /** There is no message to read, and the step goes on without. */
  predicate GoesWithout(state: State, terms: Terms, certRequest: bool, peerPubkey: bool) {
    !Reads(state).OtherMessage? && !MayRead(state, terms, certRequest, peerPubkey)
  }

  lemma ReadNone(state: State, terms: Terms, certRequest: bool, peerPubkey: bool, log: Ledger, t: Transcript, u: Transcript)
    requires Inv(HsOk, state, terms, certRequest, peerPubkey, log, t) && GoesWithout(state, terms, certRequest, peerPubkey)
    requires u == t || (u == t.(buffer := None) && state.ReadClientCertificateVerify?)
    ensures Inv(HsOk, Onward(state, terms.session), terms, certRequest, peerPubkey, log, u)
    ensures Rank(Onward(state, terms.session), terms.session) < Rank(state, terms.session)
    ensures forall current :: HelloHeld(Onward(state, terms.session), current)
  {
    hide Run, AfterServer, AfterCipher;
  }

  lemma ReadNoneOnPlan(plan: Plan, state: State, terms: Terms, certRequest: bool, peerPubkey: bool, params: bool, log: Ledger,
                       current: Option<Msg>)
    requires OnPlan(plan, HsOk, state, terms, certRequest, peerPubkey, params, log, current)
    requires GoesWithout(state, terms, certRequest, peerPubkey) && (peerPubkey ==> certRequest)
    ensures OnPlan(plan, HsOk, Onward(state, terms.session), terms, certRequest, peerPubkey, params, log, current)
  {
    hide Run, Obeys, Messages, AfterServer, AfterCipher, EmptyChain;
  }

  /** The change of cipher is what the machine waits for. */
  lemma CipherMay(state: State, terms: Terms, certRequest: bool, peerPubkey: bool, log: Ledger, t: Transcript)
    requires Inv(ReadChangeCipherSpec, state, terms, certRequest, peerPubkey, log, t)
    ensures Sound(true, log, t) && Run(log.trace).Some? && Then(Run(log.trace), ChangeCipher(false)).Some?
  {
    hide Sound, Run;
  }

  lemma CipherHeard(plan: Plan, state: State, terms: Terms, certRequest: bool, peerPubkey: bool, params: bool, log: Ledger,
                    t: Transcript, next: Ledger)
    requires Inv(ReadChangeCipherSpec, state, terms, certRequest, peerPubkey, log, t) && Sound(true, next, t)
    requires Run(next.trace) == Then(Run(log.trace), ChangeCipher(false)) && Run(next.trace).Some?
    requires Obeys(plan, next.trace) <==> Obeys(plan, log.trace) && Fits(plan, Run(log.trace).value, ChangeCipher(false))
    ensures Inv(HsOk, state, terms, certRequest, peerPubkey, next, t)
    ensures OnPlan(plan, ReadChangeCipherSpec, state, terms, certRequest, peerPubkey, params, log, None)
            ==> OnPlan(plan, HsOk, state, terms, certRequest, peerPubkey, params, next, None)
  {
    hide Sound, Run, Obeys;
  }

  /** As planned, what arrives is what the machine waits for. */
  lemma ArrivesOnPlan(plan: Plan, w: Wait, state: State, terms: Terms, certRequest: bool, peerPubkey: bool, params: bool,
                      log: Ledger, t: Transcript, current: Option<Msg>, e: Event)
    requires Inv(w, state, terms, certRequest, peerPubkey, log, t) && Hears(w)
    requires OnPlan(plan, w, state, terms, certRequest, peerPubkey, params, log, current)
    requires Honest(plan, log.mac, log.trace, e)
    ensures if w.ReadChangeCipherSpec? then e == ChangeCipher(false) && current.None? else e.Say? && !e.fromServer
    ensures !w.ReadChangeCipherSpec? ==>
              OnPlan(plan, HsOk, state, terms, certRequest, peerPubkey, params, log, Some(e.msg))
  {
    hide Sound, Run, Obeys, Messages, NeedsBuffer, EmptyChain;
  }

  /** The states in which the server sends. */
  predicate Sends(state: State) {
    state.SendServerHello? || state.SendServerCertificate? || state.SendServerKeyExchange? || state.SendServerHelloDone?
    || state.SendServerFinished?
  }

  /** What the server may say in them. */
  lemma MaySend(state: State, terms: Terms, certRequest: bool, peerPubkey: bool, log: Ledger, t: Transcript)
    requires Inv(HsOk, state, terms, certRequest, peerPubkey, log, t) && Sends(state)
    ensures Sound(true, log, t) && t.hash.Some? && Run(log.trace).Some?
    ensures NeedsBuffer(state, certRequest, peerPubkey) ==> t.buffer.Some?
    ensures state.SendServerHello? ==> forall body :: Then(Run(log.trace), Say(true, Msg(ServerHello, body))).Some?
    ensures state.SendServerCertificate? ==> Run(log.trace) == Some(ServerSpeaks(0, false))
    ensures state.SendServerKeyExchange? ==>
              forall body :: Then(Run(log.trace), Say(true, Msg(ServerKeyExchange, body))).Some?
    ensures state.SendServerHelloDone? ==>
              var p := Run(log.trace).value;
              p.ServerSpeaks? && p.pos < 4 && (certRequest ==> p.cert)
    ensures state.SendServerFinished? ==>
              Run(log.trace) == Some(if terms.session then ServerSpeaks(0, false) else ClientFinished)
  {
    hide Sound, Run;
  }

  lemma TermsPlanned(plan: Plan, state: State, terms: Terms, certRequest: bool, peerPubkey: bool, params: bool, log: Ledger,
                     current: Option<Msg>)
    requires OnPlan(plan, HsOk, state, terms, certRequest, peerPubkey, params, log, current)
    requires Sends(state)
    ensures terms == plan.terms && certRequest == plan.asked && Obeys(plan, log.trace) && plan.Sensible()
    ensures Run(log.trace) == Some(Place(plan, state, HsOk)) && (terms.session ==> state.SendServerHello? || state.SendServerFinished?)
  {
  }

  /** The ServerHello leads on. */
  lemma HelloSaid(was: Terms, certRequest: bool, peerPubkey: bool, log: Ledger, t: Transcript, msg: Msg, terms: Terms,
                  next: Ledger, u: Transcript)
    requires Inv(HsOk, SendServerHello, was, certRequest, peerPubkey, log, t) && msg.typ.ServerHello?
    requires terms == was.(channelIdValid := terms.channelIdValid)
    requires Sound(true, next, u) && u.hash.Some? && u.buffer.Some? == t.buffer.Some?
    requires Run(next.trace) == Then(Run(log.trace), Say(true, msg)) && Run(next.trace).Some?
    ensures var to := if terms.session then SendServerFinished else SendServerCertificate;
            && Inv(HsOk, to, terms, certRequest, peerPubkey, next, u)
            && Rank(to, terms.session) < Rank(SendServerHello, was.session)
            && (forall current :: HelloHeld(to, current))
  {
    hide Sound, Run;
  }

  lemma HelloSaidOnPlan(plan: Plan, was: Terms, certRequest: bool, peerPubkey: bool, params: bool, log: Ledger,
                        current: Option<Msg>, msg: Msg, terms: Terms, next: Ledger)
    requires msg.typ.ServerHello? && Run(log.trace).Some?
    requires Run(next.trace) == Then(Run(log.trace), Say(true, msg)) && Run(next.trace).Some?
    requires Obeys(plan, next.trace) <==> Obeys(plan, log.trace) && Fits(plan, Run(log.trace).value, Say(true, msg))
    ensures var to := if terms.session then SendServerFinished else SendServerCertificate;
            OnPlan(plan, HsOk, SendServerHello, was, certRequest, peerPubkey, params, log, current) && terms == was
            ==> OnPlan(plan, HsOk, to, terms, certRequest, peerPubkey, params, next, current)
  {
    hide Run, Obeys;
  }

  /** The server's certificate leads on. */
  lemma CertificateSaid(terms: Terms, certRequest: bool, peerPubkey: bool, log: Ledger, t: Transcript,
                        next: Ledger, u: Transcript)
    requires Inv(HsOk, SendServerCertificate, terms, certRequest, peerPubkey, log, t)
    requires Sound(true, next, u) && u.hash.Some? && u.buffer.Some? == t.buffer.Some?
    requires if !terms.cipher.certificateAuth then next == log
             else Run(next.trace) == Some(ServerSpeaks(if terms.statusExpected then 2 else 1, true))
    ensures Inv(HsOk, SendServerKeyExchange, terms, certRequest, peerPubkey, next, u)
    ensures Rank(SendServerKeyExchange, terms.session) < Rank(SendServerCertificate, terms.session)
  {
    hide Sound, Run;
  }

  lemma CertificateSaidOnPlan(plan: Plan, terms: Terms, certRequest: bool, peerPubkey: bool, had: bool, log: Ledger,
                              current: Option<Msg>, params: bool, next: Ledger)
    requires OnPlan(plan, HsOk, SendServerCertificate, terms, certRequest, peerPubkey, had, log, current)
    requires params == plan.keyExchange && Obeys(plan, next.trace)
    requires if !terms.cipher.certificateAuth then next == log
             else Run(next.trace) == Some(ServerSpeaks(if terms.statusExpected then 2 else 1, true))
    ensures OnPlan(plan, HsOk, SendServerKeyExchange, terms, certRequest, peerPubkey, params, next, current)
  {
    hide Run, Obeys;
  }

  /** The key exchange message, if there is one, leads on. */
  lemma KeysSaid(plan: Plan, terms: Terms, certRequest: bool, peerPubkey: bool, params: bool, log: Ledger, t: Transcript,
                 current: Option<Msg>, msg: Msg, next: Ledger, u: Transcript)
    requires Inv(HsOk, SendServerKeyExchange, terms, certRequest, peerPubkey, log, t) && msg.typ.ServerKeyExchange?
    requires Sound(true, next, u) && u.hash.Some? && u.buffer.Some? == t.buffer.Some?
    requires params ==> Run(next.trace) == Then(Run(log.trace), Say(true, msg)) && Run(next.trace).Some?
    requires params ==> (Obeys(plan, next.trace)
                         <==> Obeys(plan, log.trace) && Fits(plan, Run(log.trace).value, Say(true, msg)))
    requires !params ==> next == log
    ensures Inv(HsOk, SendServerHelloDone, terms, certRequest, peerPubkey, next, u)
    ensures Rank(SendServerHelloDone, terms.session) < Rank(SendServerKeyExchange, terms.session)
    ensures OnPlan(plan, HsOk, SendServerKeyExchange, terms, certRequest, peerPubkey, params, log, current)
            ==> OnPlan(plan, HsOk, SendServerHelloDone, terms, certRequest, peerPubkey, false, next, current)
  {
    hide Sound, Run, Obeys;
  }

  /** The end of the server's hello leads on. */
  lemma HelloDoneSaid(terms: Terms, certRequest: bool, peerPubkey: bool, log: Ledger, t: Transcript,
                      next: Ledger, u: Transcript)
    requires Inv(HsOk, SendServerHelloDone, terms, certRequest, peerPubkey, log, t)
    requires Sound(true, next, u) && u.hash.Some? && u.buffer.Some? == t.buffer.Some?
    requires Run(next.trace) == Some(ClientStarts(certRequest))
    ensures Inv(Flush, ReadClientCertificate, terms, certRequest, peerPubkey, next, u)
    ensures Rank(ReadClientCertificate, terms.session) < Rank(SendServerHelloDone, terms.session)
  {
    hide Sound, Run;
  }

  lemma HelloDoneSaidOnPlan(plan: Plan, terms: Terms, certRequest: bool, peerPubkey: bool, params: bool, log: Ledger,
                            current: Option<Msg>, next: Ledger)
    requires OnPlan(plan, HsOk, SendServerHelloDone, terms, certRequest, peerPubkey, params, log, current)
    requires Run(next.trace) == Some(ClientStarts(certRequest)) && Obeys(plan, next.trace)
    ensures OnPlan(plan, Flush, ReadClientCertificate, terms, certRequest, peerPubkey, params, next, current)
  {
    hide Run, Obeys;
  }

  /** The server's Finished leads on. */
  lemma FinishedSaid(terms: Terms, certRequest: bool, peerPubkey: bool, log: Ledger, t: Transcript,
                     next: Ledger, u: Transcript)
    requires Inv(HsOk, SendServerFinished, terms, certRequest, peerPubkey, log, t)
    requires Sound(true, next, u) && u.hash.Some?
    requires Run(next.trace) == Some(if terms.session then ServerFinished else Complete(true))
    ensures var to := if terms.session then ReadCipherChange else FinishServerHandshake;
            && Inv(Flush, to, terms, certRequest, peerPubkey, next, u)
            && Rank(to, terms.session) < Rank(SendServerFinished, terms.session)
  {
    hide Sound, Run;
  }

  lemma FinishedSaidOnPlan(plan: Plan, terms: Terms, certRequest: bool, peerPubkey: bool, params: bool, log: Ledger,
                           current: Option<Msg>, next: Ledger)
    requires OnPlan(plan, HsOk, SendServerFinished, terms, certRequest, peerPubkey, params, log, current)
    requires Run(next.trace) == Some(if terms.session then ServerFinished else Complete(true)) && Obeys(plan, next.trace)
    ensures var to := if terms.session then ReadCipherChange else FinishServerHandshake;
            OnPlan(plan, Flush, to, terms, certRequest, peerPubkey, params, next, current)
  {
    hide Run, Obeys;
  }

  lemma StartsReady(terms: Terms, log: Ledger, t: Transcript)
    requires t.buffer.Some? && Sound(true, log, t) && Run(log.trace) == Some(Start)
    ensures Inv(HsOk, StartAccept, terms, false, false, log, t)
  {
  }

  class ServerHandshake {
    const ssl: Connection
    const pskIdentityHint: bool
    // what code outside the machine answers, step by step
    const world: nat -> Answer
    var asked: nat
    var state: State
    var wait: Wait
    var terms: Terms
    var certRequest: bool
    // the peer's key, once it sent a certificate
    var peerPubkey: bool
    // the parameters of a key exchange message to come
    var serverParams: bool

    ghost predicate Ready(w: Wait)
      reads this`state, this`terms, this`certRequest, this`peerPubkey, ssl`log, ssl`transcript, ssl`current
    {
      && ssl.server && ssl.log.mac == ssl.finishedMac && HelloHeld(state, ssl.current)
      && Inv(w, state, terms, certRequest, peerPubkey, ssl.log, ssl.transcript)
    }

    /** So far all has gone as planned. */
    ghost predicate Planned(w: Wait)
      reads this`state, this`terms, this`certRequest, this`peerPubkey, this`serverParams, ssl`log, ssl`current
    {
      OnPlan(ssl.plan, w, state, terms, certRequest, peerPubkey, serverParams, ssl.log, ssl.current)
    }

    /** Every answer is good, and the server has the key exchange message of the plan. */
    ghost predicate GoodWorld() {
      (forall i :: world(i).Good(ssl.plan)) && SameParams()
    }

    ghost predicate SameParams() {
      ssl.plan.terms.session || HasParams(ssl.plan.terms.cipher, pskIdentityHint) == ssl.plan.keyExchange
    }

    constructor (finishedMac: Mac, pskIdentityHint: bool, world: nat -> Answer, ghost plan: Plan)
      ensures Ready(HsOk) && state.StartAccept? && wait.HsOk? && fresh(ssl)
      ensures ssl.plan == plan && ssl.finishedMac == finishedMac && this.world == world && ssl.Heard() == []
      ensures this.pskIdentityHint == pskIdentityHint
      ensures plan.Sensible() ==> Planned(HsOk)
    {
      hide Inv, Sound, Run;
      ssl := new Connection(true, finishedMac, plan);
      this.pskIdentityHint, state, wait, certRequest, peerPubkey := pskIdentityHint, StartAccept, HsOk, false, false;
      this.world, asked := world, 0;
      serverParams, terms := false, Terms(false, Cipher(false, false), false, false, false, false);
      new;
      StartsReady(terms, ssl.log, ssl.transcript);
    }

    /** A step that reads may wait; as planned, what is at hand is acceptable. */
    lemma Begins(a: Answer)
      requires Ready(HsOk) && !Reads(state).OtherMessage?
      ensures a.Good(ssl.plan) ==>
                a.ok && a.laterOk && !a.pending && !a.pendingTicket
                && (a.required ==> ssl.plan.certificate || !ssl.plan.asked)
      ensures ssl.server && ssl.log.mac == ssl.finishedMac && HelloHeld(state, ssl.current)
      ensures Inv(HsOk, state, terms, certRequest, peerPubkey, ssl.log, ssl.transcript)
      ensures Sound(true, ssl.log, ssl.transcript) && Run(ssl.log.trace).Some?
      ensures NeedsBuffer(state, certRequest, peerPubkey) ==> ssl.transcript.buffer.Some?
      ensures state.ReadClientHello? || state.SelectCertificate? || state.SelectParameters? || ssl.transcript.hash.Some?
      ensures (peerPubkey ==> certRequest) && (state.ReadClientCertificate? ==> !peerPubkey)
      ensures state.SelectParameters? ==> !peerPubkey && !certRequest
      ensures MayRead(state, terms, certRequest, peerPubkey) ==>
                && Ready(ReadMessage)
                && (forall msg: Msg :: msg.typ == Reads(state) ==> Then(Run(ssl.log.trace), Say(false, msg)).Some?)
      ensures Planned(HsOk)
           == OnPlan(ssl.plan, HsOk, state, terms, certRequest, peerPubkey, serverParams, ssl.log, ssl.current)
      ensures Planned(HsOk) ==> ssl.plan.Sensible()
      ensures Planned(HsOk) && state.SelectParameters? ==> terms.cipher == ssl.plan.terms.cipher
      ensures Planned(HsOk) && state.ReadClientCertificate? ==> certRequest == ssl.plan.asked
      ensures Planned(HsOk) && MayRead(state, terms, certRequest, peerPubkey) ==>
                && Planned(ReadMessage)
                && (ssl.current.Some? ==>
                      Expected(state, ssl.plan, ssl.finishedMac(Messages(ssl.log.trace), false), ssl.current.value))
    {
      hide Sound, Run, Messages, MayRead, Expected, NeedsBuffer, Stands, Place, Obeys, Honest;
      if MayRead(state, terms, certRequest, peerPubkey) {
        AtReading(state, terms, certRequest, peerPubkey, ssl.log, ssl.transcript);
        if Planned(HsOk) {
          ExpectedHere(ssl.plan, state, terms, certRequest, peerPubkey, serverParams, ssl.log, ssl.current);
        }
      }
    }

    /** The same for the step that reads the Finished. */
    lemma BeginsFinished()
      requires Ready(HsOk) && state.ReadClientFinished?
      ensures ssl.server && ssl.log.mac == ssl.finishedMac && Ready(ReadMessage)
      ensures Inv(HsOk, state, terms, certRequest, peerPubkey, ssl.log, ssl.transcript)
      ensures Sound(true, ssl.log, ssl.transcript) && ssl.transcript.hash.Some? && Run(ssl.log.trace).Some?
      ensures forall body :: Then(Run(ssl.log.trace), Say(false, Msg(Finished, body))).Some?
      ensures Planned(HsOk)
           == OnPlan(ssl.plan, HsOk, state, terms, certRequest, peerPubkey, serverParams, ssl.log, ssl.current)
      ensures Planned(HsOk) ==>
                && Planned(ReadMessage)
                && (ssl.current.Some? ==>
                      ssl.current == Some(Msg(Finished, ssl.finishedMac(Messages(ssl.log.trace), false))))
    {
      hide Inv, OnPlan, Sound, Run, Then, Messages, NeedsBuffer, Answer.Good;
      Begins(world(asked));
      forall body ensures Then(Run(ssl.log.trace), Say(false, Msg(Finished, body))).Some? {
        assert Msg(Finished, body).typ == Reads(state);
      }
    }

    /** There was nothing to read, and the machine has moved on. */
    twostate lemma WentWithout()
      requires old(Ready(HsOk)) && GoesWithout(old(state), old(terms), old(certRequest), old(peerPubkey))
      requires unchanged(ssl`log, ssl`current, this`terms, this`certRequest, this`peerPubkey, this`serverParams)
      requires ssl.transcript == old(ssl.transcript)
               || (old(state).ReadClientCertificateVerify? && ssl.transcript == old(ssl.transcript).(buffer := None))
      requires state == Onward(old(state), terms.session)
      ensures Ready(HsOk) && Advanced()
      ensures old(Planned(HsOk)) ==> Planned(HsOk)
    {
      hide OnPlan, Onward, Rank, Sound, Run, Stands, NeedsBuffer;
      ReadNone(old(state), terms, certRequest, peerPubkey, ssl.log, old(ssl.transcript), ssl.transcript);
      if old(Planned(HsOk)) {
        ReadNoneOnPlan(ssl.plan, old(state), terms, certRequest, peerPubkey, serverParams, ssl.log, ssl.current);
      }
    }

    /** Done with the message at hand, which is in the transcript; t is the transcript
        without it, and was, before and had what its arrival settles. */
    method Take(msg: Msg, ghost was: Terms, ghost before: bool, ghost had: bool, ghost t: Transcript)
      requires ssl.server && ssl.log.mac == ssl.finishedMac
      requires Inv(HsOk, state, was, before, had, ssl.log, t)
      requires SoundAhead(true, ssl.log, ssl.transcript, msg) && ssl.transcript.hash.Some? && ssl.current == Some(msg)
      requires MayRead(state, was, before, had) && msg.typ == Reads(state) && !msg.typ.Finished?
      requires MaySettle(state, was, terms, before, certRequest, had, peerPubkey, msg.body)
      requires Onward(state, terms.session) != state
      requires NeedsBuffer(Onward(state, terms.session), certRequest, peerPubkey) ==> ssl.transcript.buffer.Some?
      modifies this`state, ssl`log, ssl`current
      ensures Ready(HsOk) && ssl.current.None? && ssl.Heard() == old(ssl.Heard())
      ensures Rank(state, terms.session) < Rank(old(state), was.session)
      ensures Went(Onward(old(state), terms.session), false, [msg.typ]) && old(ssl.log).trace <= ssl.log.trace
      ensures OnPlan(ssl.plan, HsOk, old(state), was, before, had, serverParams, old(ssl.log), Some(msg))
              && (old(state).SelectParameters? ==> terms == ssl.plan.terms && certRequest == ssl.plan.asked)
              ==> Planned(HsOk)
    {
      hide Inv, OnPlan, Sound, SoundAhead, Run, Then, Added, Obeys, Fits, Messages, Received, Rank, MayRead;
      hide NeedsBuffer, MaySettle, HasParams, Connection.Heard;
      AtReading(state, was, before, had, ssl.log, t);
      ghost var from, log := state, ssl.log;
      ssl.NextMessage(msg);
      state := Onward(state, terms.session);
      ReadOne(from, was, before, had, log, t, msg, terms, certRequest, peerPubkey, ssl.log, ssl.transcript);
      if OnPlan(ssl.plan, HsOk, from, was, before, had, serverParams, log, Some(msg))
         && (from.SelectParameters? ==> terms == ssl.plan.terms && certRequest == ssl.plan.asked) {
        ReadOneOnPlan(ssl.plan, from, was, before, had, serverParams, log, msg, terms, certRequest, peerPubkey, ssl.log);
      }
    }

    /** The same where the message settles nothing. */
    method TakePlain(msg: Msg, ghost t: Transcript)
      requires ssl.server && ssl.log.mac == ssl.finishedMac
      requires Inv(HsOk, state, terms, certRequest, peerPubkey, ssl.log, t)
      requires SoundAhead(true, ssl.log, ssl.transcript, msg) && ssl.transcript.hash.Some? && ssl.current == Some(msg)
      requires MayRead(state, terms, certRequest, peerPubkey) && msg.typ == Reads(state)
      requires state.ReadClientKeyExchange? || state.ReadClientCertificateVerify? || state.ReadNextProto? || state.ReadChannelId?
      requires state.ReadClientKeyExchange? && peerPubkey ==> ssl.transcript.buffer.Some?
      modifies this`state, ssl`log, ssl`current
      ensures Ready(HsOk) && Advanced() && ssl.current.None? && ssl.Heard() == old(ssl.Heard())
      ensures Went(Onward(old(state), terms.session), false, [msg.typ]) && old(ssl.log).trace <= ssl.log.trace
      ensures OnPlan(ssl.plan, HsOk, old(state), terms, certRequest, peerPubkey, serverParams, old(ssl.log), Some(msg))
              ==> Planned(HsOk)
    {
      hide Inv, OnPlan, SoundAhead, Added, Rank, Connection.Heard, ServerHandshake.Planned, ServerHandshake.Ready;
      Take(msg, terms, certRequest, peerPubkey, t);
    }

    /** A step that waits for the application changes nothing. */
    lemma WaitsFor(w: Wait)
      requires Ready(HsOk) && !Hears(w)
      requires !state.ProcessChangeCipherSpec?
      ensures Ready(w) && (Planned(HsOk) ==> Planned(w))
    {
      hide Run, Sound, Obeys, NeedsBuffer, Honest;
    }

    method DoStartAccept(a: Answer) returns (ret: Wait)
      requires Ready(HsOk) && state.StartAccept?
      modifies this`state
      ensures ret.HsOk? && Ready(ret) && Advanced() && Follows(a, ret) && state == ReadClientHello
    {
      hide Run, Sound, Added, Obeys;
      state := ReadClientHello;
      return HsOk;
    }

    method DoReadClientHello(a: Answer) returns (ret: Wait)
      requires Ready(HsOk) && state.ReadClientHello?
      modifies this`state
      ensures ret == if ssl.current.None? then ReadMessage
                     else if !Holds(ClientHello) then HsError
                     else if a.pending then CertificateSelectionPending else if a.ok then HsOk else HsError
      ensures !ret.HsError? ==> Ready(ret)
      ensures ret.HsError? || ((ret.ReadMessage? || ret.CertificateSelectionPending?) && Waited())
              || (ret.HsOk? && Advanced())
      ensures ret.HsOk? ==> state == SelectCertificate
      ensures Follows(a, ret)
    {
      hide Run, Sound, Added, Obeys, Messages;
      var m := ssl.GetMessage();
      Begins(a);
      if m.None? {
        return ReadMessage;
      }
      var msg := m.value;
      if !msg.typ.ClientHello? {
        return HsError;
      }
      if a.pending {
        return CertificateSelectionPending;
      }
      if !a.ok {
        return HsError;
      }
      state := SelectCertificate;
      return HsOk;
    }

    /** Finds the certificate, and with it the cipher; the ClientHello is still at hand. */
    method DoSelectCertificate(a: Answer) returns (ret: Wait)
      requires Ready(HsOk) && state.SelectCertificate?
      modifies this`state, this`terms
      ensures ret == if a.pending then X509Lookup else if a.ok then HsOk else HsError
      ensures !ret.HsError? ==> Ready(ret)
      ensures ret.HsError? || (ret.X509Lookup? && Waited()) || (ret.HsOk? && Advanced())
      ensures ret.HsOk? ==> state == SelectParameters && terms == old(terms).(cipher := a.terms.cipher)
      ensures Follows(a, ret)
    {
      hide Run, Sound, Added, Obeys, Messages, Honest;
      if a.pending {
        return X509Lookup;
      }
      if !a.ok {
        return HsError;
      }
      terms := terms.(cipher := a.terms.cipher);
      state := SelectParameters;
      return HsOk;
    }

    /** Starts the hash with everything so far and msg, and keeps the transcript whole if a
        signature over it may have to be checked. */
    method StartHash(msg: Msg, keep: bool)
      requires Sound(true, ssl.log, ssl.transcript) && ssl.transcript.buffer.Some? && ssl.server
      modifies ssl`transcript
      ensures SoundAhead(true, ssl.log, ssl.transcript, msg)
      ensures ssl.transcript.hash.Some? && ssl.transcript.buffer.Some? == keep
    {
      hide Run, Sound, SoundAhead;
      ssl.InitHash();
      ssl.HashMessage(msg);
      if !keep {
        Dropped(true, ssl.log, ssl.transcript, msg);
        ssl.FreeBuffer();
      }
    }

    /** Settles the terms, and whether to ask for a certificate. */
    method Settle(a: Answer, msg: Msg)
      requires Ready(HsOk) && state.SelectParameters? && ssl.current == Some(msg)
      modifies this`state, this`terms, this`certRequest, ssl`log, ssl`current, ssl`transcript
      ensures Ready(HsOk) && Advanced() && old(ssl.log).trace <= ssl.log.trace
      ensures ssl.current.None? && ssl.Heard() == old(ssl.Heard())
      ensures a.Good(ssl.plan) && old(Planned(HsOk)) ==> Planned(HsOk)
      ensures Went(SendServerHello, false, [ClientHello]) && terms == a.terms.(cipher := old(terms).cipher)
      ensures certRequest == (!terms.session && a.verifyPeer && terms.cipher.certificateAuth)
      ensures ssl.transcript.buffer.Some? <==> certRequest
    {
      hide Inv, OnPlan, Sound, SoundAhead, Run, Then, Added, Obeys, Fits, Messages, Received, Rank, EmptyChain;
      hide Connection.Heard, ServerHandshake.Planned;
      Begins(a);
      ghost var before := ssl.transcript;
      certRequest := !a.terms.session && a.verifyPeer && terms.cipher.certificateAuth;
      terms := a.terms.(cipher := terms.cipher);
      StartHash(msg, certRequest);
      Take(msg, old(terms), old(certRequest), peerPubkey, before);
    }

    /** Decides on resumption, and whether to ask for a certificate; the ClientHello is
        still at hand. */
    method DoSelectParameters(a: Answer) returns (ret: Wait)
      requires Ready(HsOk) && state.SelectParameters?
      modifies this`state, this`terms, this`certRequest, ssl`log, ssl`current, ssl`transcript
      ensures ret == if a.pending then PendingSession else if a.pendingTicket then PendingTicket
                     else if a.ok then HsOk else HsError
      ensures !ret.HsError? ==> Ready(ret)
      ensures ret.HsError? || ((ret.PendingSession? || ret.PendingTicket?) && Waited()) || (ret.HsOk? && Advanced())
      ensures old(ssl.log).trace <= ssl.log.trace && Follows(a, ret)
      ensures ret.HsOk? ==>
        && Went(SendServerHello, false, [ClientHello]) && terms == a.terms.(cipher := old(terms).cipher)
        && certRequest == (!terms.session && a.verifyPeer && terms.cipher.certificateAuth)
        && (ssl.transcript.buffer.Some? <==> certRequest)
    {
      hide Inv, OnPlan, Added, Rank, Connection.Heard, ServerHandshake.Planned, ServerHandshake.SameParams;
      var m := ssl.GetMessage();
      if a.pending {
        WaitsFor(PendingSession);
        return PendingSession;
      }
      if a.pendingTicket {
        WaitsFor(PendingTicket);
        return PendingTicket;
      }
      if !a.ok {
        return HsError;
      }
      Settle(a, m.value);
      return HsOk;
    }

    method SayHello(a: Answer)
      requires Ready(HsOk) && state.SendServerHello?
      modifies this`state, this`terms, ssl`log, ssl`transcript
      ensures Ready(HsOk) && Advanced() && old(ssl.log).trace <= ssl.log.trace && ssl.Heard() == old(ssl.Heard())
      ensures a.keepChannelId && old(Planned(HsOk)) ==> Planned(HsOk)
      ensures Went(if terms.session then SendServerFinished else SendServerCertificate, true, [ServerHello])
      ensures terms == old(terms).(channelIdValid := old(terms).channelIdValid && a.keepChannelId)
      ensures ssl.log.trace == old(ssl.log).trace + [Say(true, Msg(ServerHello, a.body))]
    {
      hide Inv, OnPlan, Run, Then, Sound, Added, Obeys, Messages, Fits, Rank, Connection.Heard;
      hide Transcript.Update, Transcript.Holds, HelloHeld, NeedsBuffer;
      MaySend(state, terms, certRequest, peerPubkey, ssl.log, ssl.transcript);
      ghost var log, t, msg := ssl.log, ssl.transcript, Msg(ServerHello, a.body);
      ssl.AddMessage(Msg(ServerHello, a.body));
      terms := terms.(channelIdValid := terms.channelIdValid && a.keepChannelId);
      state := if terms.session then SendServerFinished else SendServerCertificate;
      HelloSaid(old(terms), certRequest, peerPubkey, log, t, msg, terms, ssl.log, ssl.transcript);
      HelloSaidOnPlan(ssl.plan, old(terms), certRequest, peerPubkey, serverParams, log, ssl.current, msg, terms, ssl.log);
    }

    method DoSendServerHello(a: Answer) returns (ret: Wait)
      requires Ready(HsOk) && state.SendServerHello?
      modifies this`state, this`terms, ssl`log, ssl`transcript
      ensures ret == if a.ok then HsOk else HsError
      ensures !ret.HsError? ==> Ready(ret) && Advanced()
      ensures old(ssl.log).trace <= ssl.log.trace && Follows(a, ret)
      ensures ret.HsOk? ==>
        && Went(if terms.session then SendServerFinished else SendServerCertificate, true, [ServerHello])
        && terms == old(terms).(channelIdValid := old(terms).channelIdValid && a.keepChannelId)
        && ssl.log.trace == old(ssl.log).trace + [Say(true, Msg(ServerHello, a.body))]
    {
      hide Inv, OnPlan, Added, Rank, Connection.Heard, ServerHandshake.Planned, ServerHandshake.SameParams;
      if !a.ok {
        return HsError;
      }
      SayHello(a);
      return HsOk;
    }

    /** The server's certificate, and its status if there is one. */
    method SayCertificate(a: Answer)
      requires ssl.server && Sound(true, ssl.log, ssl.transcript) && ssl.transcript.hash.Some?
      requires Run(ssl.log.trace) == Some(ServerSpeaks(0, false))
      modifies ssl`log, ssl`transcript
      ensures Sound(true, ssl.log, ssl.transcript) && ssl.transcript.hash.Some? && ssl.log.mac == old(ssl.log).mac
      ensures ssl.transcript.buffer.Some? == old(ssl.transcript).buffer.Some?
      ensures Run(ssl.log.trace) == Some(ServerSpeaks(if terms.statusExpected then 2 else 1, true))
      ensures Added(old(ssl.log).trace, ssl.log.trace, true,
                    if terms.statusExpected then [Certificate, CertificateStatus] else [Certificate])
      ensures ssl.log.trace == old(ssl.log).trace + CertificateAndStatus(terms, a)
      ensures ssl.Heard() == old(ssl.Heard())
      ensures old(ssl.log).trace <= ssl.log.trace
      ensures terms == ssl.plan.terms && !terms.session && terms.cipher.certificateAuth && !EmptyChain(a.body) ==>
                (old(Obeys(ssl.plan, ssl.log.trace)) ==> Obeys(ssl.plan, ssl.log.trace))
    {
      hide Run, Sound, AfterClient, AfterCipher, Added, Obeys, Messages, EmptyChain, Connection.Heard;
      ssl.AddMessage(Msg(Certificate, a.body));
      if terms.statusExpected {
        ghost var before := ssl.log.trace;
        ssl.AddMessage(Msg(CertificateStatus, a.second));
        AddedJoin(old(ssl.log).trace, before, ssl.log.trace, true, [Certificate], [CertificateStatus]);
        assert [Certificate] + [CertificateStatus] == [Certificate, CertificateStatus];
      }
    }

    /** The certificate messages of the cipher, if it has any. */
    method SayCertificateIfAny(a: Answer)
      requires ssl.server && Sound(true, ssl.log, ssl.transcript) && ssl.transcript.hash.Some?
      requires Run(ssl.log.trace) == Some(ServerSpeaks(0, false))
      modifies ssl`log, ssl`transcript
      ensures Sound(true, ssl.log, ssl.transcript) && ssl.transcript.hash.Some? && ssl.log.mac == old(ssl.log).mac
      ensures ssl.transcript.buffer.Some? == old(ssl.transcript).buffer.Some?
      ensures if !terms.cipher.certificateAuth then ssl.log == old(ssl.log)
              else Run(ssl.log.trace) == Some(ServerSpeaks(if terms.statusExpected then 2 else 1, true))
      ensures Added(old(ssl.log).trace, ssl.log.trace, true, CertificateTypes(terms))
      ensures ssl.log.trace == old(ssl.log).trace + CertificateMessages(terms, a)
      ensures ssl.Heard() == old(ssl.Heard())
      ensures terms == ssl.plan.terms && !terms.session && (terms.cipher.certificateAuth ==> !EmptyChain(a.body)) ==>
                (old(Obeys(ssl.plan, ssl.log.trace)) ==> Obeys(ssl.plan, ssl.log.trace))
    {
      hide Run, Sound, Added, Obeys, Messages, EmptyChain, CertificateAndStatus, Connection.Heard;
      NothingAdded(ssl.log.trace);
      if terms.cipher.certificateAuth {
        SayCertificate(a);
      }
    }

    /** The certificate messages of the cipher, and on to the key exchange. */
    method SayCertificates(a: Answer)
      requires Ready(HsOk) && state.SendServerCertificate?
      modifies this`state, this`serverParams, ssl`log, ssl`transcript
      ensures Ready(HsOk) && Advanced() && old(ssl.log).trace <= ssl.log.trace && ssl.Heard() == old(ssl.Heard())
      ensures a.Good(ssl.plan) && SameParams() && old(Planned(HsOk)) ==> Planned(HsOk)
      ensures Went(SendServerKeyExchange, true, CertificateTypes(terms))
      ensures serverParams == HasParams(terms.cipher, pskIdentityHint)
      ensures ssl.log.trace == old(ssl.log).trace + CertificateMessages(terms, a)
    {
      hide Inv, OnPlan, Run, Then, Sound, Added, Obeys, Messages, Fits, Rank, Connection.Heard;
      hide Place, CertificateTypes, CertificateMessages, Transcript.Holds, Transcript.Update;
      MaySend(state, terms, certRequest, peerPubkey, ssl.log, ssl.transcript);
      ghost var log, t, planned := ssl.log, ssl.transcript, Planned(HsOk);
      if planned {
        TermsPlanned(ssl.plan, state, terms, certRequest, peerPubkey, serverParams, ssl.log, ssl.current);
      }
      SayCertificateIfAny(a);
      serverParams := HasParams(terms.cipher, pskIdentityHint);
      state := SendServerKeyExchange;
      CertificateSaid(terms, certRequest, peerPubkey, log, t, ssl.log, ssl.transcript);
      if planned && a.Good(ssl.plan) && SameParams() {
        CertificateSaidOnPlan(ssl.plan, terms, certRequest, peerPubkey, old(serverParams), log, ssl.current, serverParams, ssl.log);
      }
    }

    method DoSendServerCertificate(a: Answer) returns (ret: Wait)
      requires Ready(HsOk) && state.SendServerCertificate?
      modifies this`state, this`serverParams, ssl`log, ssl`transcript
      ensures ret == if a.ok then HsOk else HsError
      ensures !ret.HsError? ==> Ready(ret) && Advanced()
      ensures old(ssl.log).trace <= ssl.log.trace && Follows(a, ret)
      ensures ret.HsOk? ==>
        && Went(SendServerKeyExchange, true, CertificateTypes(terms))
        && serverParams == HasParams(terms.cipher, pskIdentityHint)
        && ssl.log.trace == old(ssl.log).trace + CertificateMessages(terms, a)
    {
      hide Inv, OnPlan, Added, Rank, Connection.Heard, ServerHandshake.Planned, CertificateMessages, CertificateTypes;
      if !a.ok {
        return HsError;
      }
      SayCertificates(a);
      return HsOk;
    }

    /** The key exchange message, if there are parameters for one. */
    method SayKeys(a: Answer)
      requires Ready(HsOk) && state.SendServerKeyExchange?
      modifies this`state, this`serverParams, ssl`log, ssl`transcript
      ensures Ready(HsOk) && Advanced() && old(ssl.log).trace <= ssl.log.trace && ssl.Heard() == old(ssl.Heard())
      ensures old(Planned(HsOk)) ==> Planned(HsOk)
      ensures Went(SendServerHelloDone, true, if old(serverParams) then [ServerKeyExchange] else []) && !serverParams
      ensures ssl.log.trace == old(ssl.log).trace + SaidIf(old(serverParams), true, Msg(ServerKeyExchange, a.body))
    {
      hide Inv, OnPlan, Run, Then, Sound, Added, Obeys, Messages, Fits, Rank, Connection.Heard;
      NothingAdded(ssl.log.trace);
      MaySend(state, terms, certRequest, peerPubkey, ssl.log, ssl.transcript);
      ghost var log, t, msg := ssl.log, ssl.transcript, Msg(ServerKeyExchange, a.body);
      if serverParams {
        ssl.AddMessage(Msg(ServerKeyExchange, a.body));
        serverParams := false;
      }
      state := SendServerHelloDone;
      KeysSaid(ssl.plan, terms, certRequest, peerPubkey, old(serverParams), log, t, ssl.current, msg, ssl.log, ssl.transcript);
    }

    method DoSendServerKeyExchange(a: Answer) returns (ret: Wait)
      requires Ready(HsOk) && state.SendServerKeyExchange?
      modifies this`state, this`serverParams, ssl`log, ssl`transcript
      ensures ret == if old(!serverParams) then HsOk
                     else if terms.cipher.certificateAuth && a.pending then PrivateKeyOperation
                     else if a.ok then HsOk else HsError
      ensures !ret.HsError? ==> Ready(ret)
      ensures ret.HsError? || (ret.PrivateKeyOperation? && Waited()) || (ret.HsOk? && Advanced())
      ensures old(ssl.log).trace <= ssl.log.trace && Follows(a, ret)
      ensures ret.HsOk? ==>
        && Went(SendServerHelloDone, true, if old(serverParams) then [ServerKeyExchange] else []) && !serverParams
        && ssl.log.trace == old(ssl.log).trace + SaidIf(old(serverParams), true, Msg(ServerKeyExchange, a.body))
    {
      hide Inv, OnPlan, Added, Rank, Connection.Heard, ServerHandshake.Planned, ServerHandshake.SameParams;
      if serverParams && terms.cipher.certificateAuth && a.pending {
        WaitsFor(PrivateKeyOperation);
        return PrivateKeyOperation;
      }
      if serverParams && !a.ok {
        return HsError;
      }
      SayKeys(a);
      return HsOk;
    }

    /** The request for a certificate, if there is to be one, and the end of the hello. */
    method SayHelloDone(a: Answer)
      requires ssl.server && Sound(true, ssl.log, ssl.transcript) && ssl.transcript.hash.Some?
      requires Run(ssl.log.trace).Some? && Run(ssl.log.trace).value.ServerSpeaks? && Run(ssl.log.trace).value.pos < 4
      requires certRequest ==> Run(ssl.log.trace).value.cert
      modifies ssl`log, ssl`transcript
      ensures Sound(true, ssl.log, ssl.transcript) && ssl.transcript.hash.Some? && ssl.log.mac == old(ssl.log).mac
      ensures ssl.transcript.buffer.Some? == old(ssl.transcript).buffer.Some?
      ensures Run(ssl.log.trace) == Some(ClientStarts(certRequest))
      ensures Added(old(ssl.log).trace, ssl.log.trace, true,
                    if certRequest then [CertificateRequest, ServerHelloDone] else [ServerHelloDone])
      ensures ssl.log.trace == old(ssl.log).trace + RequestAndDone(certRequest, a)
      ensures ssl.Heard() == old(ssl.Heard())
      ensures old(ssl.log).trace <= ssl.log.trace
      ensures old(Obeys(ssl.plan, ssl.log.trace)) && old(Run(ssl.log.trace)) == Some(ssl.plan.KeyPhase())
              && certRequest == ssl.plan.asked && !ssl.plan.terms.session && ssl.plan.Sensible()
              ==> Obeys(ssl.plan, ssl.log.trace)
    {
      hide Run, Sound, AfterClient, AfterCipher, Added, Obeys, Messages, EmptyChain, Connection.Heard;
      ghost var before := ssl.log.trace;
      NothingAdded(before);
      if certRequest {
        ssl.AddMessage(Msg(CertificateRequest, a.body));
      }
      ghost var requested := ssl.log.trace;
      ssl.AddMessage(Msg(ServerHelloDone, []));
      AddedJoin(before, requested, ssl.log.trace, true, if certRequest then [CertificateRequest] else [], [ServerHelloDone]);
      assert [] + [ServerHelloDone] == [ServerHelloDone];
      assert [CertificateRequest] + [ServerHelloDone] == [CertificateRequest, ServerHelloDone];
    }

    method DoSendServerHelloDone(a: Answer) returns (ret: Wait)
      requires Ready(HsOk) && state.SendServerHelloDone?
      modifies this`state, ssl`log, ssl`transcript
      ensures ret == if a.ok then Flush else HsError
      ensures !ret.HsError? ==> Ready(ret) && Advanced()
      ensures old(ssl.log).trace <= ssl.log.trace && Follows(a, ret)
      ensures ret.Flush? ==>
        && Went(ReadClientCertificate, true, if certRequest then [CertificateRequest, ServerHelloDone] else [ServerHelloDone])
        && ssl.log.trace == old(ssl.log).trace + RequestAndDone(certRequest, a)
    {
      hide Inv, OnPlan, Run, Then, Sound, Added, Obeys, Messages, Fits, Rank, Connection.Heard;
      hide HasParams, ServerHandshake.SameParams;
      MaySend(state, terms, certRequest, peerPubkey, ssl.log, ssl.transcript);
      if !a.ok {
        return HsError;
      }
      ghost var log, t, planned := ssl.log, ssl.transcript, Planned(HsOk);
      if planned {
        TermsPlanned(ssl.plan, state, terms, certRequest, peerPubkey, serverParams, ssl.log, ssl.current);
      }
      SayHelloDone(a);
      state := ReadClientCertificate;
      HelloDoneSaid(terms, certRequest, peerPubkey, log, t, ssl.log, ssl.transcript);
      if planned {
        HelloDoneSaidOnPlan(ssl.plan, terms, certRequest, peerPubkey, serverParams, log, ssl.current, ssl.log);
      }
      return Flush;
    }

    method DoReadClientCertificate(a: Answer) returns (ret: Wait)
      requires Ready(HsOk) && state.ReadClientCertificate?
      modifies this`state, this`peerPubkey, ssl`log, ssl`current, ssl`transcript
      ensures ret.HsError? <==>
        && certRequest && old(ssl.current).Some?
        && !(old(Holds(Certificate)) && a.ok && (EmptyChain(old(ssl.current).value.body) ==> !a.required))
      ensures ret.ReadMessage? <==> certRequest && old(ssl.current).None?
      ensures !ret.HsError? ==> Ready(ret)
      ensures ret.HsError? || (ret.ReadMessage? && Waited()) || (ret.HsOk? && Advanced())
      ensures old(ssl.log).trace <= ssl.log.trace && Follows(a, ret)
      ensures ret.HsOk? ==>
        && Went(VerifyClientCertificate, false, if certRequest then [Certificate] else [])
        && (certRequest ==> (peerPubkey <==> !EmptyChain(old(ssl.current).value.body))
                            && (!peerPubkey ==> ssl.transcript.buffer.None?))
    {
      hide Inv, OnPlan, Sound, SoundAhead, Run, Then, Added, Obeys, Fits, Messages, Received, Rank, EmptyChain;
      hide ServerHandshake.Planned, ServerHandshake.Ready, ServerHandshake.SameParams, Connection.Heard, Answer.Good;
      NothingAdded(ssl.log.trace);
      Begins(a);
      if !certRequest {
        state := VerifyClientCertificate;
        WentWithout();
        return HsOk;
      }
      var m := ssl.GetMessage();
      if m.None? {
        return ReadMessage;
      }
      ret := TakeCertificate(a, m.value);
    }

    method TakeCertificate(a: Answer, msg: Msg) returns (ret: Wait)
      requires Ready(HsOk) && state.ReadClientCertificate? && certRequest && ssl.current == Some(msg)
      modifies this`state, this`peerPubkey, ssl`log, ssl`current, ssl`transcript
      ensures ret == if msg.typ.Certificate? && a.ok && (EmptyChain(msg.body) ==> !a.required) then HsOk else HsError
      ensures !ret.HsError? ==> Ready(ret) && Advanced()
      ensures old(ssl.log).trace <= ssl.log.trace && Follows(a, ret)
      ensures ret.HsOk? ==>
        && Went(VerifyClientCertificate, false, [Certificate])
        && (peerPubkey <==> !EmptyChain(msg.body)) && (!peerPubkey ==> ssl.transcript.buffer.None?)
    {
      hide Inv, OnPlan, Sound, SoundAhead, Run, Then, Added, Obeys, Fits, Messages, Received, Rank, EmptyChain;
      hide ServerHandshake.Planned, ServerHandshake.Ready, ServerHandshake.SameParams, Connection.Heard, Answer.Good;
      Begins(a);
      if !msg.typ.Certificate? {
        return HsError;
      }
      ghost var before := ssl.transcript;
      ssl.HashMessage(msg);
      if !a.ok || (EmptyChain(msg.body) && a.required) {
        return HsError;
      }
      if EmptyChain(msg.body) {
        // No certificate, so there will be no signature to check.
        Dropped(true, ssl.log, ssl.transcript, msg);
        ssl.FreeBuffer();
      } else {
        peerPubkey := true;
      }
      Take(msg, terms, certRequest, false, before);
      return HsOk;
    }

    method DoVerifyClientCertificate(a: Answer) returns (ret: Wait)
      requires Ready(HsOk) && state.VerifyClientCertificate?
      modifies this`state
      ensures ret == if peerPubkey && a.pending then CertificateVerification
                     else if peerPubkey && !a.ok then HsError else HsOk
      ensures !ret.HsError? ==> Ready(ret)
      ensures ret.HsError? || (ret.CertificateVerification? && Waited()) || (ret.HsOk? && Advanced())
      ensures ret.HsOk? ==> state == ReadClientKeyExchange
      ensures Follows(a, ret)
    {
      hide Run, Sound, Added, Obeys, Messages, Honest;
      if peerPubkey {
        if a.pending {
          return CertificateVerification;
        }
        if !a.ok {
          return HsError;
        }
      }
      state := ReadClientKeyExchange;
      return HsOk;
    }

    /** The message is at hand, and no private key operation is pending. */
    method TakeKeyExchange(a: Answer, msg: Msg) returns (ret: Wait)
      requires Ready(HsOk) && state.ReadClientKeyExchange? && ssl.current == Some(msg) && msg.typ.ClientKeyExchange?
      modifies this`state, ssl`log, ssl`current, ssl`transcript
      ensures ret == if a.ok && a.laterOk then HsOk else HsError
      ensures !ret.HsError? ==> Ready(ret) && Advanced()
      ensures old(ssl.log).trace <= ssl.log.trace && Follows(a, ret)
      ensures ret.HsOk? ==> Went(ReadClientCertificateVerify, false, [ClientKeyExchange])
    {
      hide Inv, OnPlan, Sound, SoundAhead, Run, Then, Added, Obeys, Fits, Messages, Received, Rank, EmptyChain;
      hide ServerHandshake.Planned, ServerHandshake.Ready, ServerHandshake.SameParams, Connection.Heard, Answer.Good;
      Begins(a);
      if !a.ok {
        return HsError;
      }
      ghost var before := ssl.transcript;
      ssl.HashMessage(msg);
      if !a.laterOk {
        return HsError;
      }
      TakePlain(msg, before);
      return HsOk;
    }

    method DoReadClientKeyExchange(a: Answer) returns (ret: Wait)
      requires Ready(HsOk) && state.ReadClientKeyExchange?
      modifies this`state, ssl`log, ssl`current, ssl`transcript
      // Only RSA decryption may have to wait.
      ensures ret == if old(ssl.current).None? then ReadMessage
                     else if !old(Holds(ClientKeyExchange)) then HsError
                     else if terms.cipher.certificateAuth && !terms.cipher.ecdhe && a.pending then PrivateKeyOperation
                     else if a.ok && a.laterOk then HsOk else HsError
      ensures !ret.HsError? ==> Ready(ret)
      ensures ret.HsError? || ((ret.ReadMessage? || ret.PrivateKeyOperation?) && Waited()) || (ret.HsOk? && Advanced())
      ensures old(ssl.log).trace <= ssl.log.trace && Follows(a, ret)
      ensures ret.HsOk? ==> Went(ReadClientCertificateVerify, false, [ClientKeyExchange])
    {
      hide Inv, OnPlan, Sound, SoundAhead, Run, Then, Added, Obeys, Fits, Messages, Received, Rank, EmptyChain;
      hide ServerHandshake.Planned, ServerHandshake.Ready, ServerHandshake.SameParams, Connection.Heard, Answer.Good;
      Begins(a);
      var m := ssl.GetMessage();
      if m.None? {
        return ReadMessage;
      }
      if !m.value.typ.ClientKeyExchange? {
        return HsError;
      }
      if terms.cipher.certificateAuth && !terms.cipher.ecdhe && a.pending {
        // The message is not in the transcript yet.
        WaitsFor(PrivateKeyOperation);
        return PrivateKeyOperation;
      }
      ret := TakeKeyExchange(a, m.value);
    }

    /** The message is at hand; the signature is checked over the transcript without it. */
    method TakeVerify(a: Answer, msg: Msg) returns (ret: Wait)
      requires Ready(HsOk) && state.ReadClientCertificateVerify? && peerPubkey && ssl.current == Some(msg)
      modifies this`state, ssl`log, ssl`current, ssl`transcript
      ensures ret == if msg.typ.CertificateVerify? && a.ok then HsOk else HsError
      ensures !ret.HsError? ==> Ready(ret) && Advanced()
      ensures old(ssl.log).trace <= ssl.log.trace && Follows(a, ret)
      ensures ret.HsOk? ==> Went(ReadCipherChange, false, [CertificateVerify]) && ssl.transcript.buffer.None?
    {
      hide Inv, OnPlan, Sound, SoundAhead, Run, Then, Added, Obeys, Fits, Messages, Received, Rank, EmptyChain;
      hide ServerHandshake.Planned, ServerHandshake.Ready, ServerHandshake.SameParams, Connection.Heard, Answer.Good;
      hide NeedsBuffer, MaySettle;
      Begins(a);
      if !msg.typ.CertificateVerify? || !a.ok {
        return HsError;
      }
      ghost var before := ssl.transcript;
      Dropped(true, ssl.log, ssl.transcript, msg);
      ssl.FreeBuffer();
      ssl.HashMessage(msg);
      TakePlain(msg, before);
      return HsOk;
    }

    /** Checks the signature over the whole transcript, which is still there. */
    method DoReadClientCertificateVerify(a: Answer) returns (ret: Wait)
      requires Ready(HsOk) && state.ReadClientCertificateVerify?
      modifies this`state, ssl`log, ssl`current, ssl`transcript
      ensures ret.HsError? <==> peerPubkey && old(ssl.current).Some? && !(old(Holds(CertificateVerify)) && a.ok)
      ensures ret.ReadMessage? <==> peerPubkey && old(ssl.current).None?
      ensures !ret.HsError? ==> Ready(ret)
      ensures ret.HsError? || (ret.ReadMessage? && Waited()) || (ret.HsOk? && Advanced())
      ensures old(ssl.log).trace <= ssl.log.trace && Follows(a, ret)
      ensures ret.HsOk? ==>
        && Went(ReadCipherChange, false, if peerPubkey then [CertificateVerify] else [])
        && ssl.transcript.buffer.None?
    {
      hide Inv, OnPlan, Sound, SoundAhead, Run, Then, Added, Obeys, Fits, Messages, Received, Rank, EmptyChain;
      hide ServerHandshake.Planned, ServerHandshake.Ready, ServerHandshake.SameParams, Connection.Heard, Answer.Good;
      NothingAdded(ssl.log.trace);
      Begins(a);
      if !peerPubkey {
        ssl.FreeBuffer();
        state := ReadCipherChange;
        WentWithout();
        return HsOk;
      }
      var m := ssl.GetMessage();
      if m.None? {
        return ReadMessage;
      }
      ret := TakeVerify(a, m.value);
    }

    method DoReadCipherChange(a: Answer) returns (ret: Wait)
      requires Ready(HsOk) && state.ReadCipherChange?
      modifies this`state
      ensures ret.ReadChangeCipherSpec? && Ready(ret) && Advanced() && state == ProcessChangeCipherSpec
      ensures Follows(a, ret)
    {
      hide Run, Sound, Added, Obeys, Messages, Honest;
      state := ProcessChangeCipherSpec;
      return ReadChangeCipherSpec;
    }

    method DoProcessChangeCipherSpec(a: Answer) returns (ret: Wait)
      requires Ready(HsOk) && state.ProcessChangeCipherSpec?
      modifies this`state
      ensures ret == if a.ok then HsOk else HsError
      ensures !ret.HsError? ==> Ready(ret) && Advanced() && state == ReadNextProto
      ensures Follows(a, ret)
    {
      hide Run, Sound, Added, Obeys, Messages, Honest;
      if !a.ok {
        return HsError;
      }
      state := ReadNextProto;
      return HsOk;
    }

    /** The message is at hand. */
    method TakeNextProto(a: Answer, msg: Msg) returns (ret: Wait)
      requires Ready(HsOk) && state.ReadNextProto? && terms.nextProtoNegSeen && ssl.current == Some(msg)
      modifies this`state, ssl`log, ssl`current, ssl`transcript
      ensures ret == if msg.typ.NextProto? && a.ok then HsOk else HsError
      ensures !ret.HsError? ==> Ready(ret) && Advanced()
      ensures old(ssl.log).trace <= ssl.log.trace && Follows(a, ret)
      ensures ret.HsOk? ==> Went(ReadChannelId, false, [NextProto])
    {
      hide Inv, OnPlan, Sound, SoundAhead, Run, Then, Added, Obeys, Fits, Messages, Received, Rank, EmptyChain;
      hide ServerHandshake.Planned, ServerHandshake.Ready, ServerHandshake.SameParams, Connection.Heard, Answer.Good;
      hide NeedsBuffer, MaySettle;
      Begins(a);
      if !msg.typ.NextProto? {
        return HsError;
      }
      ghost var before := ssl.transcript;
      ssl.HashMessage(msg);
      if !a.ok {
        return HsError;
      }
      TakePlain(msg, before);
      return HsOk;
    }

    method DoReadNextProto(a: Answer) returns (ret: Wait)
      requires Ready(HsOk) && state.ReadNextProto?
      modifies this`state, ssl`log, ssl`current, ssl`transcript
      ensures ret.HsError? <==> terms.nextProtoNegSeen && old(ssl.current).Some? && !(old(Holds(NextProto)) && a.ok)
      ensures ret.ReadMessage? <==> terms.nextProtoNegSeen && old(ssl.current).None?
      ensures !ret.HsError? ==> Ready(ret)
      ensures ret.HsError? || (ret.ReadMessage? && Waited()) || (ret.HsOk? && Advanced())
      ensures old(ssl.log).trace <= ssl.log.trace && Follows(a, ret)
      ensures ret.HsOk? ==> Went(ReadChannelId, false, if terms.nextProtoNegSeen then [NextProto] else [])
    {
      hide Inv, OnPlan, Sound, SoundAhead, Run, Then, Added, Obeys, Fits, Messages, Received, Rank, EmptyChain;
      hide ServerHandshake.Planned, ServerHandshake.Ready, ServerHandshake.SameParams, Connection.Heard, Answer.Good;
      NothingAdded(ssl.log.trace);
      Begins(a);
      if !terms.nextProtoNegSeen {
        state := ReadChannelId;
        WentWithout();
        return HsOk;
      }
      var m := ssl.GetMessage();
      if m.None? {
        return ReadMessage;
      }
      ret := TakeNextProto(a, m.value);
    }

    /** The message is at hand; it is checked before it is in the transcript. */
    method TakeChannelId(a: Answer, msg: Msg) returns (ret: Wait)
      requires Ready(HsOk) && state.ReadChannelId? && terms.channelIdValid && ssl.current == Some(msg)
      modifies this`state, ssl`log, ssl`current, ssl`transcript
      ensures ret == if msg.typ.ChannelId? && a.ok then HsOk else HsError
      ensures !ret.HsError? ==> Ready(ret) && Advanced()
      ensures old(ssl.log).trace <= ssl.log.trace && Follows(a, ret)
      ensures ret.HsOk? ==> Went(ReadClientFinished, false, [ChannelId])
    {
      hide Inv, OnPlan, Sound, SoundAhead, Run, Then, Added, Obeys, Fits, Messages, Received, Rank, EmptyChain;
      hide ServerHandshake.Planned, ServerHandshake.Ready, ServerHandshake.SameParams, Connection.Heard, Answer.Good;
      hide NeedsBuffer, MaySettle;
      Begins(a);
      if !msg.typ.ChannelId? || !a.ok {
        return HsError;
      }
      ghost var before := ssl.transcript;
      ssl.HashMessage(msg);
      TakePlain(msg, before);
      return HsOk;
    }

    method DoReadChannelId(a: Answer) returns (ret: Wait)
      requires Ready(HsOk) && state.ReadChannelId?
      modifies this`state, ssl`log, ssl`current, ssl`transcript
      ensures ret.HsError? <==> terms.channelIdValid && old(ssl.current).Some? && !(old(Holds(ChannelId)) && a.ok)
      ensures ret.ReadMessage? <==> terms.channelIdValid && old(ssl.current).None?
      ensures !ret.HsError? ==> Ready(ret)
      ensures ret.HsError? || (ret.ReadMessage? && Waited()) || (ret.HsOk? && Advanced())
      ensures old(ssl.log).trace <= ssl.log.trace && Follows(a, ret)
      ensures ret.HsOk? ==> Went(ReadClientFinished, false, if terms.channelIdValid then [ChannelId] else [])
    {
      hide Inv, OnPlan, Sound, SoundAhead, Run, Then, Added, Obeys, Fits, Messages, Received, Rank, EmptyChain;
      hide ServerHandshake.Planned, ServerHandshake.Ready, ServerHandshake.SameParams, Connection.Heard, Answer.Good;
      NothingAdded(ssl.log.trace);
      Begins(a);
      if !terms.channelIdValid {
        state := ReadClientFinished;
        WentWithout();
        return HsOk;
      }
      var m := ssl.GetMessage();
      if m.None? {
        return ReadMessage;
      }
      ret := TakeChannelId(a, m.value);
    }

    /** Hears the client's Finished, if it is there and right. */
    method HearFinished() returns (ret: Wait)
      requires Ready(HsOk) && state.ReadClientFinished?
      modifies this`state, ssl`log, ssl`current, ssl`transcript
      ensures ret == if old(ssl.current).None? then ReadMessage
                     else if old(ssl.current) == Some(Msg(Finished, ssl.finishedMac(old(Messages(ssl.log.trace)), false)))
                     then HsOk else HsError
      ensures !ret.HsOk? ==> unchanged(this`state, ssl`log, ssl`current)
      ensures ret.ReadMessage? ==> unchanged(ssl`transcript)
      ensures ret.HsOk? ==>
        && Ready(HsOk) && Advanced() && (old(Planned(HsOk)) ==> Planned(HsOk))
        && Went(if terms.session then FinishServerHandshake else SendServerFinished, false, [Finished])
      ensures ssl.Heard() == old(ssl.Heard()) && old(ssl.log).trace <= ssl.log.trace
    {
      hide Inv, OnPlan, Sound, Run, Then, Added, Obeys, Fits, Messages, Rank, NeedsBuffer, HelloHeld, Connection.Heard;
      BeginsFinished();
      ghost var log, t := ssl.log, ssl.transcript;
      ret := ssl.GetFinished();
      if !ret.HsOk? {
        return;
      }
      state := if terms.session then FinishServerHandshake else SendServerFinished;
      FinishedRead(ssl.plan, terms, certRequest, peerPubkey, serverParams, log, t, old(ssl.current).value,
                   ssl.log, ssl.transcript);
    }

    method DoReadClientFinished(a: Answer) returns (ret: Wait)
      requires Ready(HsOk) && state.ReadClientFinished?
      modifies this`state, ssl`log, ssl`current, ssl`transcript
      ensures ret.HsError? <==>
        && old(ssl.current).Some?
        && old(ssl.current) != Some(Msg(Finished, ssl.finishedMac(old(Messages(ssl.log.trace)), false)))
      ensures ret.ReadMessage? <==> old(ssl.current).None?
      ensures !ret.HsError? ==> Ready(ret)
      ensures ret.HsError? || (ret.ReadMessage? && Waited()) || (ret.HsOk? && Advanced())
      ensures old(ssl.log).trace <= ssl.log.trace && Follows(a, ret)
      ensures ret.HsOk? ==>
        Went(if terms.session then FinishServerHandshake else SendServerFinished, false, [Finished])
    {
      hide Inv, OnPlan, Added, Messages, Rank, Answer.Good, HelloHeld, Run, Sound, Then, Connection.Heard;
      hide ServerHandshake.Ready, ServerHandshake.Planned, ServerHandshake.SameParams;
      NothingAdded(ssl.log.trace);
      BeginsFinished();
      ret := HearFinished();
    }

    /** A ticket if one is due. */
    method SendTicket(a: Answer)
      requires ssl.server && Sound(true, ssl.log, ssl.transcript) && ssl.transcript.hash.Some?
      requires Run(ssl.log.trace) == Some(if terms.session then ServerSpeaks(0, false) else ClientFinished)
      modifies ssl`log, ssl`transcript
      ensures Sound(true, ssl.log, ssl.transcript) && ssl.transcript.hash.Some? && ssl.log.mac == old(ssl.log).mac
      ensures Run(ssl.log.trace)
           == if terms.ticketExpected then Some(ServerTicket(!terms.session)) else old(Run(ssl.log.trace))
      ensures Added(old(ssl.log).trace, ssl.log.trace, true, if terms.ticketExpected then [NewSessionTicket] else [])
      ensures ssl.log.trace == old(ssl.log).trace + SaidIf(terms.ticketExpected, true, Msg(NewSessionTicket, a.body))
      ensures ssl.Heard() == old(ssl.Heard())
      ensures old(Obeys(ssl.plan, ssl.log.trace)) && terms == ssl.plan.terms ==> Obeys(ssl.plan, ssl.log.trace)
    {
      hide Run, Sound, AfterClient, AfterCipher, Added, Obeys;
      NothingAdded(ssl.log.trace);
      if terms.ticketExpected {
        ssl.AddMessage(Msg(NewSessionTicket, a.body));
      }
    }

    /** A ticket if one is due, and then the Finished under new keys. */
    method SendTicketAndFinished(a: Answer)
      requires ssl.server && Sound(true, ssl.log, ssl.transcript) && ssl.transcript.hash.Some?
      requires Run(ssl.log.trace) == Some(if terms.session then ServerSpeaks(0, false) else ClientFinished)
      requires ssl.log.mac == ssl.finishedMac
      modifies ssl`log, ssl`transcript
      ensures Sound(true, ssl.log, ssl.transcript) && ssl.transcript.hash.Some? && ssl.log.mac == old(ssl.log).mac
      ensures Run(ssl.log.trace) == Some(if terms.session then ServerFinished else Complete(true))
      ensures TicketAndFinished(old(ssl.log).trace, ssl.log.trace, terms.ticketExpected)
      ensures old(ssl.log).trace + SaidIf(terms.ticketExpected, true, Msg(NewSessionTicket, a.body)) <= ssl.log.trace
      ensures old(ssl.log).trace <= ssl.log.trace
      ensures ssl.Heard() == old(ssl.Heard())
      ensures old(Obeys(ssl.plan, ssl.log.trace)) && terms == ssl.plan.terms ==> Obeys(ssl.plan, ssl.log.trace)
    {
      hide Run, Sound, AfterClient, Added, TicketAndFinished, Obeys, Messages, Connection.Heard;
      SendTicket(a);
      ghost var ticketed := ssl.log.trace;
      ssl.Ciphers(true);
      assert Run(ssl.log.trace) == Some(ServerCiphers(!terms.session));
      ssl.SendFinished();
      LastWords(old(ssl.log).trace, ticketed, ssl.log.trace, terms.ticketExpected);
    }

    /** All a server says last, and on to what follows. */
    method SayLast(a: Answer)
      requires Ready(HsOk) && state.SendServerFinished?
      modifies this`state, ssl`log, ssl`transcript
      ensures Ready(Flush) && Advanced() && old(ssl.log).trace <= ssl.log.trace && ssl.Heard() == old(ssl.Heard())
      ensures old(Planned(HsOk)) ==> Planned(Flush)
      ensures state == (if terms.session then ReadCipherChange else FinishServerHandshake)
      ensures TicketAndFinished(old(ssl.log).trace, ssl.log.trace, terms.ticketExpected)
      ensures old(ssl.log).trace + SaidIf(terms.ticketExpected, true, Msg(NewSessionTicket, a.body)) <= ssl.log.trace
    {
      hide Inv, OnPlan, Run, Then, Sound, Added, Obeys, Messages, Fits, Rank, Connection.Heard;
      hide HasParams, TicketAndFinished, SaidIf;
      MaySend(state, terms, certRequest, peerPubkey, ssl.log, ssl.transcript);
      ghost var log, t, planned := ssl.log, ssl.transcript, Planned(HsOk);
      if planned {
        TermsPlanned(ssl.plan, state, terms, certRequest, peerPubkey, serverParams, ssl.log, ssl.current);
      }
      SendTicketAndFinished(a);
      state := if terms.session then ReadCipherChange else FinishServerHandshake;
      FinishedSaid(terms, certRequest, peerPubkey, log, t, ssl.log, ssl.transcript);
      if planned {
        FinishedSaidOnPlan(ssl.plan, terms, certRequest, peerPubkey, serverParams, log, ssl.current, ssl.log);
      }
    }

    method DoSendServerFinished(a: Answer) returns (ret: Wait)
      requires Ready(HsOk) && state.SendServerFinished?
      modifies this`state, ssl`log, ssl`transcript
      ensures ret == if a.ok then Flush else HsError
      ensures !ret.HsError? ==> Ready(ret) && Advanced()
      ensures old(ssl.log).trace <= ssl.log.trace && Follows(a, ret)
      ensures ret.Flush? ==>
        && state == (if terms.session then ReadCipherChange else FinishServerHandshake)
        && TicketAndFinished(old(ssl.log).trace, ssl.log.trace, terms.ticketExpected)
        && old(ssl.log).trace + SaidIf(terms.ticketExpected, true, Msg(NewSessionTicket, a.body)) <= ssl.log.trace
    {
      hide Inv, OnPlan, Added, Rank, Connection.Heard, TicketAndFinished, SaidIf;
      hide ServerHandshake.Planned, ServerHandshake.SameParams;
      if !a.ok {
        return HsError;
      }
      SayLast(a);
      return Flush;
    }

    method DoFinishServerHandshake(a: Answer) returns (ret: Wait)
      requires Ready(HsOk) && state.FinishServerHandshake?
      modifies this`state
      ensures ret.HsOk? && Ready(ret) && state.Done? && Advanced() && Follows(a, ret)
    {
      hide Run, Sound, Added, Obeys, Messages;
      state := Done;
      return HsOk;
    }

    /** Up to the ServerHelloDone. */
    predicate InHello()
      reads this`state
    {
      state.StartAccept? || state.ReadClientHello? || state.SelectCertificate? || state.SelectParameters?
      || state.SendServerHello? || state.SendServerCertificate? || state.SendServerKeyExchange?
      || state.SendServerHelloDone?
    }

    /** One step, whichever the state calls for. */
    method Step(a: Answer) returns (ret: Wait)
      requires Ready(HsOk) && !state.Done?
      modifies this`state, this`terms, this`certRequest, this`peerPubkey, this`serverParams
      modifies ssl`log, ssl`current, ssl`transcript
      ensures !ret.HsError? ==> Ready(ret)
      ensures Retries(ret) ==> Waited()
      ensures !ret.HsError? && !Retries(ret) ==> Advanced()
      ensures old(ssl.log).trace <= ssl.log.trace && Follows(a, ret)
    {
      hide Inv, OnPlan, Added, Rank, ServerHandshake.Went, EmptyChain, HelloHeld, TicketAndFinished;
      hide ServerHandshake.Ready, ServerHandshake.Advanced, ServerHandshake.Waited, ServerHandshake.Follows;
      if InHello() {
        ret := HelloStep(a);
      } else {
        ret := LaterStep(a);
      }
    }

    method HelloStep(a: Answer) returns (ret: Wait)
      requires Ready(HsOk) && InHello()
      modifies this`state, this`terms, this`certRequest, this`peerPubkey, this`serverParams
      modifies ssl`log, ssl`current, ssl`transcript
      ensures !ret.HsError? ==> Ready(ret)
      ensures Retries(ret) ==> Waited()
      ensures !ret.HsError? && !Retries(ret) ==> Advanced()
      ensures old(ssl.log).trace <= ssl.log.trace && Follows(a, ret)
    {
      hide Inv, OnPlan, Added, Rank, ServerHandshake.Went, EmptyChain, HelloHeld, TicketAndFinished;
      hide ServerHandshake.Ready, ServerHandshake.Advanced, ServerHandshake.Waited, ServerHandshake.Follows;
      match state {
        case StartAccept => ret := DoStartAccept(a);
        case ReadClientHello => ret := DoReadClientHello(a);
        case SelectCertificate => ret := DoSelectCertificate(a);
        case SelectParameters => ret := DoSelectParameters(a);
        case SendServerHello => ret := DoSendServerHello(a);
        case SendServerCertificate => ret := DoSendServerCertificate(a);
        case SendServerKeyExchange => ret := DoSendServerKeyExchange(a);
        case SendServerHelloDone => ret := DoSendServerHelloDone(a);
      }
    }

    method LaterStep(a: Answer) returns (ret: Wait)
      requires Ready(HsOk) && !InHello() && !state.Done?
      modifies this`state, this`terms, this`certRequest, this`peerPubkey, this`serverParams
      modifies ssl`log, ssl`current, ssl`transcript
      ensures !ret.HsError? ==> Ready(ret)
      ensures Retries(ret) ==> Waited()
      ensures !ret.HsError? && !Retries(ret) ==> Advanced()
      ensures old(ssl.log).trace <= ssl.log.trace && Follows(a, ret)
    {
      hide Inv, OnPlan, Added, Rank, ServerHandshake.Went, EmptyChain, HelloHeld, TicketAndFinished, Messages;
      hide ServerHandshake.Ready, ServerHandshake.Advanced, ServerHandshake.Waited, ServerHandshake.Follows;
      match state {
        case ReadClientCertificate => ret := DoReadClientCertificate(a);
        case VerifyClientCertificate => ret := DoVerifyClientCertificate(a);
        case ReadClientKeyExchange => ret := DoReadClientKeyExchange(a);
        case ReadClientCertificateVerify => ret := DoReadClientCertificateVerify(a);
        case ReadCipherChange => ret := DoReadCipherChange(a);
        case ProcessChangeCipherSpec => ret := DoProcessChangeCipherSpec(a);
        case ReadNextProto => ret := DoReadNextProto(a);
        case ReadChannelId => ret := DoReadChannelId(a);
        case ReadClientFinished => ret := DoReadClientFinished(a);
        case SendServerFinished => ret := DoSendServerFinished(a);
        case FinishServerHandshake => ret := DoFinishServerHandshake(a);
      }
    }

    /** Takes steps until one has to wait, or the handshake is done. */
    method Handshake() returns (ret: Wait)
      requires Ready(HsOk)
      modifies this`state, this`asked, this`terms, this`certRequest, this`peerPubkey, this`serverParams
      modifies ssl`log, ssl`current, ssl`transcript
      ensures !ret.HsError? ==> Ready(ret)
      ensures ret.HsOk? ==> state.Done?
      ensures old(ssl.log).trace <= ssl.log.trace && WellFollowed(ret)
      ensures !ret.HsError? ==> Rank(state, terms.session) <= old(Rank(state, terms.session))
      ensures ret.Flush? || ret.EarlyReturn? ==> Advanced()
    {
      hide Inv, OnPlan, Received, Rank, HasParams;
      while !state.Done?
        invariant Ready(HsOk) && old(ssl.log).trace <= ssl.log.trace && WellFollowed(HsOk)
        invariant Rank(state, terms.session) <= old(Rank(state, terms.session))
        decreases Rank(state, terms.session)
      {
        var a := world(asked);
        asked := asked + 1;
        ret := Step(a);
        if !ret.HsOk? {
          return;
        }
      }
      return HsOk;
    }

    /** What the machine waits for arrives; anything else is refused, and so is a change of
        cipher that a message is left over before. */
    method Receive(e: Event) returns (ok: bool)
      requires Ready(wait) && Hears(wait) && (!wait.ReadChangeCipherSpec? ==> ssl.current.None?)
      modifies ssl`log, ssl`current
      ensures ok == if wait.ReadChangeCipherSpec? then e == ChangeCipher(false) && old(ssl.current).None?
                    else e.Say? && !e.fromServer
      ensures ok ==> Ready(HsOk) && ssl.Heard() == old(ssl.Heard()) + [e] && old(ssl.log).trace <= ssl.log.trace
      ensures !ok ==> unchanged(ssl)
      ensures old(Planned(wait)) && Honest(ssl.plan, ssl.finishedMac, old(ssl.log).trace, e) ==> ok && Planned(HsOk)
    {
      hide Inv, OnPlan, Run, Sound, Obeys, Stream, Messages, Fits, Honest;
      ghost var log, planned := ssl.log, Planned(wait) && Honest(ssl.plan, ssl.finishedMac, ssl.log.trace, e);
      if planned {
        ArrivesOnPlan(ssl.plan, wait, state, terms, certRequest, peerPubkey, serverParams, log, ssl.transcript, ssl.current, e);
      }
      if wait.ReadChangeCipherSpec? {
        if e != ChangeCipher(false) || ssl.current.Some? {
          return false;
        }
        CipherMay(state, terms, certRequest, peerPubkey, ssl.log, ssl.transcript);
        ssl.Ciphers(false);
        CipherHeard(ssl.plan, state, terms, certRequest, peerPubkey, serverParams, log, ssl.transcript, ssl.log);
      } else {
        if !e.Say? || e.fromServer {
          return false;
        }
        WaitOver(wait, state, terms, certRequest, peerPubkey, ssl.log, ssl.transcript);
        assert Stream(ssl.log.trace, false) + [] == Stream(ssl.log.trace, false);
        ssl.current := Some(e.msg);
      }
      return true;
    }

    ghost predicate Standing()
      reads this`wait, this`state, this`terms, this`certRequest, this`peerPubkey, ssl`log, ssl`transcript, ssl`current
    {
      !wait.HsError? ==> Ready(wait) && (wait.ReadMessage? || wait.ReadServerHello? ==> ssl.current.None?)
    }

    /** All has gone as planned, and nothing is pending. */
    ghost predicate Going()
      reads this`wait, this`state, this`terms, this`certRequest, this`peerPubkey, this`serverParams, ssl`log, ssl`current
    {
      !wait.HsError? && !Pends(wait) && Planned(wait)
    }

    /** Nothing arrives, or the one event that is planned. */
    ghost predicate AsPlanned(arrived: seq<Event>)
      reads this`wait, ssl`log
    {
      arrived != [] ==> |arrived| == 1 && Hears(wait) && Honest(ssl.plan, ssl.finishedMac, ssl.log.trace, arrived[0])
    }

    /** Resolves what the machine waits for, if it can: on says whether the machine goes on
        at once; flushes says whether the transport takes what is to be written, and arrived
        is what it has to be read, of which the first event may be taken. */
    method Resolve(flushes: bool, arrived: seq<Event>) returns (on: bool, ret: int, early: bool, taken: nat)
      requires Standing() && !wait.HsError?
      modifies this`wait, ssl`log, ssl`current
      ensures taken <= 1 && taken <= |arrived| && (taken == 1 ==> on) && (on && taken == 0 ==> old(wait).HsOk? || old(wait).Flush?)
      ensures on ==> Ready(HsOk) && wait == old(wait)
      ensures !on ==> Standing() && (ret > 0 ==> wait.HsOk? && early)
      ensures !on && wait.HsOk? ==> old(wait).EarlyReturn? || Pends(old(wait))
      ensures !wait.HsError? ==> ssl.Heard() == old(ssl.Heard()) + arrived[..taken]
      ensures old(ssl.log).trace <= ssl.log.trace
      ensures flushes && old(Going()) && old(AsPlanned(arrived)) ==>
                && taken == |arrived|
                && if on then Planned(HsOk) else Going() && (wait.HsOk? || Hears(wait)) && (ret > 0 <==> wait.HsOk?)
    {
      hide Inv, OnPlan, Received, Honest, Rank, HasParams, Connection.Heard;
      on, ret, early, taken := false, -1, false, 0;
      assert arrived[..0] == [];
      if wait.Flush? {
        if flushes {
          Over();
          on := true;
        }
      } else if Hears(wait) {
        if |arrived| > 0 {
          on := Receive(arrived[0]);
          if on {
            taken := 1;
            assert arrived[..1] == [arrived[0]];
          } else {
            wait := HsError;
          }
        }
      } else if !wait.HsOk? {
        Over();
        ret, early := if wait.EarlyReturn? then 1 else -1, wait.EarlyReturn?;
        wait := HsOk;
      } else {
        on := true;
      }
    }

    /** What was waited for is there. */
    lemma Over()
      requires Ready(wait) && !wait.ReadChangeCipherSpec?
      ensures Ready(HsOk) && (Planned(wait) ==> Planned(HsOk))
    {
      hide Inv, Run, Sound, Obeys, Honest;
      WaitOver(wait, state, terms, certRequest, peerPubkey, ssl.log, ssl.transcript);
    }

    /** One round: what the machine waits for is resolved, and it goes on; over says whether
        it is done, or blocked. */
    method Round(flushes: bool, arrived: seq<Event>) returns (over: bool, ret: int, early: bool, taken: nat)
      requires Standing() && !wait.HsError?
      modifies this`state, this`asked, this`wait, this`terms, this`certRequest, this`peerPubkey, this`serverParams
      modifies ssl`log, ssl`current, ssl`transcript
      ensures Standing() && old(ssl.log).trace <= ssl.log.trace && taken <= |arrived| && (wait.HsError? ==> over)
      ensures !wait.HsError? ==>
                && ssl.Heard() == old(ssl.Heard()) + arrived[..taken]
                && Rank(state, terms.session) <= old(Rank(state, terms.session))
      ensures over && ret > 0 ==> wait.HsOk? && (early || state.Done?)
      ensures over && wait.HsOk? ==> state.Done? || old(wait).EarlyReturn? || Pends(old(wait))
      ensures !over ==> taken > 0 || Advanced() || (WaitRank(wait) < old(WaitRank(wait)))
      ensures !over && wait.EarlyReturn? ==> Advanced()
      ensures flushes && GoodWorld() && old(Going()) && old(AsPlanned(arrived)) ==>
                && Going() && AsPlanned(arrived[taken..])
                && (over ==> taken == |arrived| && (wait.HsOk? || Hears(wait)) && (ret > 0 <==> wait.HsOk?))
    {
      hide Inv, OnPlan, Received, Honest, Rank, HasParams, Connection.Heard;
      hide ServerHandshake.Ready, ServerHandshake.Planned, ServerHandshake.GoodWorld;
      var on;
      on, ret, early, taken := Resolve(flushes, arrived);
      if !on {
        return true, ret, early, taken;
      }
      wait := Handshake();
      return wait.HsError? || wait.HsOk?, if wait.HsOk? then 1 else -1, false, taken;
    }

    /** Resolves what the machine waits for, and lets it go on, until it is done or blocked
        again. */
    method RunHandshake(flushes: bool, arrived: seq<Event>) returns (ret: int, early: bool, taken: nat)
      requires Standing()
      modifies this`state, this`asked, this`wait, this`terms, this`certRequest, this`peerPubkey, this`serverParams
      modifies ssl`log, ssl`current, ssl`transcript
      ensures Standing() && old(ssl.log).trace <= ssl.log.trace && taken <= |arrived|
      ensures ret > 0 ==> wait.HsOk? && (early || state.Done?)
      ensures !wait.HsError? ==> ssl.Heard() == old(ssl.Heard()) + arrived[..taken]
      ensures !wait.HsError? ==> Rank(state, terms.session) <= old(Rank(state, terms.session))
      ensures flushes && GoodWorld() && old(Going()) && old(AsPlanned(arrived)) ==>
                && Going() && taken == |arrived| && (wait.HsOk? || Hears(wait)) && (ret > 0 <==> wait.HsOk?)
      // What the machine waits for has been resolved, so it has moved on.
      ensures flushes && GoodWorld() && old(Going()) && old(AsPlanned(arrived)) && old(wait.HsOk? || Hears(wait)) ==>
                (wait.HsOk? ==> state.Done? || Rank(state, terms.session) < old(Rank(state, terms.session)))
    {
      hide Rank, Honest, WaitRank, Connection.Heard, ServerHandshake.Ready, ServerHandshake.Planned, ServerHandshake.GoodWorld;
      hide ServerHandshake.Standing;
      ghost var smooth, heard0 := flushes && GoodWorld() && Going() && AsPlanned(arrived), ssl.Heard();
      if wait.HsError? {
        return -1, false, 0;
      }
      ret, early, taken := -1, false, 0;
      assert arrived[..0] == [];
      var over := false;
      while !over
        invariant Standing() && old(ssl.log).trace <= ssl.log.trace && taken <= |arrived| && (wait.HsError? ==> over)
        invariant !wait.HsError? ==>
                    && ssl.Heard() == heard0 + arrived[..taken]
                    && Rank(state, terms.session) <= old(Rank(state, terms.session))
        invariant wait.EarlyReturn? && !over ==> wait == old(wait) || Rank(state, terms.session) < old(Rank(state, terms.session))
        invariant over && ret > 0 ==> wait.HsOk? && (early || state.Done?)
        invariant smooth ==> Going() && AsPlanned(arrived[taken..])
        invariant smooth && over ==>
                    && taken == |arrived| && (wait.HsOk? || Hears(wait)) && (ret > 0 <==> wait.HsOk?)
                    && (wait.HsOk? ==> state.Done? || old(wait).EarlyReturn?
                                       || Rank(state, terms.session) < old(Rank(state, terms.session)))
        decreases !over, |arrived| - taken, Rank(state, terms.session), WaitRank(wait)
      {
        var took;
        ghost var heard := ssl.Heard();
        over, ret, early, took := Round(flushes, arrived[taken..]);
        MoreTaken(heard0, heard, arrived, taken, took);
        taken := taken + took;
      }
    }

    twostate predicate Advanced()
      reads this`state, this`terms
    {
      Rank(state, terms.session) < old(Rank(state, terms.session))
    }

    /** The step went on to next, with messages of these types from one side. */
    twostate predicate Went(next: State, fromServer: bool, types: seq<MsgType>)
      reads this`state, ssl`log
    {
      state == next && Added(old(ssl.log).trace, ssl.log.trace, fromServer, types)
    }

    /** The step changed nothing. */
    twostate predicate Waited()
      reads this, ssl
    {
      && unchanged(this`state, this`wait, this`terms, this`certRequest, this`peerPubkey, this`serverParams)
      && unchanged(ssl`log, ssl`transcript, ssl`current)
    }

    /** No received message is lost or invented; a step waits for a message only if there
        is none; and if all has gone as planned and the answer is good, so has the step. */
    twostate predicate Follows(a: Answer, ret: Wait)
      reads this, ssl
    {
      && ssl.Heard() == old(ssl.Heard())
      && (ret.ReadMessage? || ret.ReadServerHello? ==> ssl.current.None?)
      && (a.Good(ssl.plan) && SameParams() && old(Planned(HsOk)) ==> !ret.HsError? && !Pends(ret) && Planned(ret))
    }

    twostate predicate WellFollowed(ret: Wait)
      reads this, ssl
    {
      && ssl.Heard() == old(ssl.Heard())
      && (ret.ReadMessage? || ret.ReadServerHello? ==> ssl.current.None?)
      && (GoodWorld() && old(Planned(HsOk)) ==> !ret.HsError? && !Pends(ret) && Planned(ret))
    }

    /** The message that waits to be read is of this type. */
    predicate Holds(typ: MsgType)
      reads ssl`current
    {
      ssl.current.Some? && ssl.current.value.typ == typ
    }
  }
}
