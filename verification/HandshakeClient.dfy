/**
 The client's handshake state machine for an initial TLS 1.0-1.2 handshake.  What
 messages hold besides their type is left open, and so is whether they are acceptable.
 */
module HandshakeClient {
  import opened Bytes
  import opened HandshakeGrammar
  import opened HandshakePlan
  import opened HandshakeConnection

  datatype State =
    | StartConnect | EnterEarlyData | ReadServerHelloState | ReadServerCertificate
    | ReadCertificateStatus | VerifyServerCertificate | ReadServerKeyExchange
    | ReadCertificateRequest | ReadServerHelloDone | SendClientCertificate
    | SendClientKeyExchange | SendClientCertificateVerify | SendClientFinished
    | FinishFlight | ReadSessionTicket | ProcessChangeCipherSpec | ReadServerFinished
    | FinishClientHandshake | Done

  /** What the state promises about the conversation, while the machine waits for w. */
  predicate Stands(state: State, w: Wait, session: bool, cipher: Cipher, certRequest: bool, hasCertificate: bool, p: Phase) {
    match state
    case StartConnect => p == Start && !session
    case EnterEarlyData => p == HelloSent && !session
    case ReadServerHelloState => p == HelloSent && !session
    case ReadServerCertificate => p == ServerSpeaks(0, false) && !session
    case ReadCertificateStatus => p == AfterCertificate(cipher) && !session
    case VerifyServerCertificate => AfterStatus(cipher, p) && !session
    case ReadServerKeyExchange => AfterStatus(cipher, p) && !session
    case ReadCertificateRequest =>
      p.ServerSpeaks? && p.pos < 4 && p.cert == cipher.certificateAuth && (cipher.ecdhe ==> p.pos == 3) && !session
    case ReadServerHelloDone =>
      p.ServerSpeaks? && (p.pos == 4 <==> certRequest) && p.cert == cipher.certificateAuth && !session
    case SendClientCertificate => p == ClientStarts(certRequest) && !session
    case SendClientKeyExchange => p == (if certRequest then CertSent(hasCertificate) else ClientStarts(false)) && !session
    case SendClientCertificateVerify => p == KeySent(certRequest && hasCertificate) && !session
    case SendClientFinished => p == (if session then ServerFinished else KeySent(false))
    case FinishFlight => p == (if session then Complete(false) else ClientFinished)
    case ReadSessionTicket => p == BeforeTicket(session)
    case ProcessChangeCipherSpec =>
      if w.ReadChangeCipherSpec? then p == BeforeTicket(session) || p == ServerTicket(!session)
      else p == ServerCiphers(!session)
    case ReadServerFinished => p == ServerCiphers(!session)
    case FinishClientHandshake => p == Complete(!session)
    case Done => p == Complete(!session)
  }

  function BeforeTicket(session: bool): Phase { if session then ServerSpeaks(0, false) else ClientFinished }

  /** The states from which the whole transcript may still be signed. */
  predicate NeedsBuffer(state: State, cipher: Cipher, certRequest: bool, hasCertificate: bool) {
    match state
    case StartConnect => true
    case EnterEarlyData => true
    case ReadServerHelloState => true
    case ReadServerCertificate => cipher.certificateAuth
    case ReadCertificateStatus => cipher.certificateAuth
    case VerifyServerCertificate => cipher.certificateAuth
    case ReadServerKeyExchange => cipher.certificateAuth
    case ReadCertificateRequest => cipher.certificateAuth
    case ReadServerHelloDone => certRequest
    case SendClientCertificate => certRequest
    case SendClientKeyExchange => certRequest && hasCertificate
    case SendClientCertificateVerify => certRequest && hasCertificate
    case _ => false
  }

  /** How many steps are left at most, in the order the states are taken. */
  function Rank(state: State, session: bool): nat {
    match state
    case StartConnect => 22
    case EnterEarlyData => 21
    case ReadServerHelloState => 20
    case ReadServerCertificate => 19
    case ReadCertificateStatus => 18
    case VerifyServerCertificate => 17
    case ReadServerKeyExchange => 16
    case ReadCertificateRequest => 15
    case ReadServerHelloDone => 14
    case SendClientCertificate => 13
    case SendClientKeyExchange => 12
    case SendClientCertificateVerify => 11
    case SendClientFinished => if session then 3 else 10
    case FinishFlight => if session then 2 else 9
    case ReadSessionTicket => 8
    case ProcessChangeCipherSpec => 7
    case ReadServerFinished => 6
    case FinishClientHandshake => 1
    case Done => 0
  }

  /** Holds between any two steps, while the machine waits for w. */
  ghost predicate Inv(w: Wait, state: State, terms: Terms, certRequest: bool, hasCertificate: bool,
                      log: Ledger, t: Transcript)
  {
    && Sound(false, log, t) && Run(log.trace).Some?
    && Stands(state, w, terms.session, terms.cipher, certRequest, hasCertificate, Run(log.trace).value)
    && (NeedsBuffer(state, terms.cipher, certRequest, hasCertificate) ==> t.buffer.Some?)
    && (Rank(state, terms.session) < 20 ==> t.hash.Some?)
    && (terms.statusExpected ==> terms.cipher.certificateAuth)
    && (certRequest ==> terms.cipher.certificateAuth && Rank(state, terms.session) < 15)
    && (w.ReadChangeCipherSpec? ==> state.ProcessChangeCipherSpec?)
    && (Hears(w) ==> ServersTurn(Run(log.trace).value))
    && (w.ReadMessage? || w.ReadServerHello? ==> MayRead(state, terms) || state.ReadServerKeyExchange?)
  }

  /** Where the planned conversation stands, while the machine waits for w. */
  function Place(plan: Plan, state: State, w: Wait): Phase {
    var session := plan.terms.session;
    match state
    case StartConnect => Start
    case EnterEarlyData => HelloSent
    case ReadServerHelloState => HelloSent
    case ReadServerCertificate => ServerSpeaks(0, false)
    case ReadCertificateStatus => AfterCertificate(plan.terms.cipher)
    case VerifyServerCertificate => plan.StatusPhase()
    case ReadServerKeyExchange => plan.StatusPhase()
    case ReadCertificateRequest => plan.KeyPhase()
    case ReadServerHelloDone => plan.RequestPhase()
    case SendClientCertificate => ClientStarts(plan.asked)
    case SendClientKeyExchange => if plan.asked then CertSent(plan.certificate) else ClientStarts(false)
    case SendClientCertificateVerify => KeySent(plan.certificate)
    case SendClientFinished => if session then ServerFinished else KeySent(false)
    case FinishFlight => if session then Complete(false) else ClientFinished
    case ReadSessionTicket => BeforeTicket(session)
    case ProcessChangeCipherSpec =>
      if !w.ReadChangeCipherSpec? then ServerCiphers(!session)
      else if plan.terms.ticketExpected then ServerTicket(!session) else BeforeTicket(session)
    case ReadServerFinished => ServerCiphers(!session)
    case FinishClientHandshake => Complete(!session)
    case Done => Complete(!session)
  }

  /** What the client sends under its new keys is what is planned. */
  predicate SameOptions(terms: Terms, plan: Plan) {
    terms.session == plan.terms.session && terms.nextProtoNegSeen == plan.terms.nextProtoNegSeen
    && terms.channelIdValid == plan.terms.channelIdValid
  }

  /** So far the handshake has gone as planned, and so will the message at hand. */
  ghost predicate OnPlan(plan: Plan, w: Wait, state: State, terms: Terms, certRequest: bool, log: Ledger, current: Option<Msg>) {
    var rank := Rank(state, terms.session);
    && plan.Sensible() && Obeys(plan, log.trace) && Run(log.trace) == Some(Place(plan, state, w))
    && (rank < 20 ==> terms == plan.terms.(ticketExpected := terms.ticketExpected))
    && (8 <= rank < 20 ==> terms.ticketExpected == plan.terms.ticketExpected)
    && (11 <= rank < 20 ==> !terms.session)
    && (11 <= rank < 15 ==> certRequest == plan.asked) && (15 <= rank ==> !certRequest)
    && (current.Some? ==> Honest(plan, log.mac, log.trace, Say(true, current.value)))
  }

  /** The events of a client under its new keys: what was negotiated, and Finished. */
  function OptionalTypes(nextProto: bool, channelId: bool): seq<MsgType> {
    (if nextProto then [NextProto] else []) + (if channelId then [ChannelId] else [])
  }

  function Options(terms: Terms, a: Answer): seq<Event> {
    SaidIf(terms.nextProtoNegSeen, false, Msg(NextProto, a.body)) + SaidIf(terms.channelIdValid, false, Msg(ChannelId, a.second))
  }

  /** Only a change of cipher is part of the conversation among what is waited for. */
  lemma WaitOver(w: Wait, state: State, terms: Terms, certRequest: bool, hasCertificate: bool, log: Ledger, t: Transcript)
    requires Inv(w, state, terms, certRequest, hasCertificate, log, t) && !w.ReadChangeCipherSpec?
    ensures Inv(HsOk, state, terms, certRequest, hasCertificate, log, t)
  {
    hide Run, Sound;
  }

  /** The message a step reads. */
  function Reads(state: State): MsgType {
    match state
    case ReadServerHelloState => ServerHello
    case ReadServerCertificate => Certificate
    case ReadCertificateStatus => CertificateStatus
    case ReadServerKeyExchange => ServerKeyExchange
    case ReadCertificateRequest => CertificateRequest
    case ReadServerHelloDone => ServerHelloDone
    case ReadSessionTicket => NewSessionTicket
    case ReadServerFinished => Finished
    case _ => OtherMessage
  }

  /** Whether the step reads a message of its type under these terms. */
  predicate MayRead(state: State, terms: Terms) {
    match state
    case ReadServerHelloState => true
    case ReadServerCertificate => terms.cipher.certificateAuth
    case ReadCertificateStatus => terms.statusExpected
    case ReadServerKeyExchange => terms.cipher.ecdhe || !terms.cipher.certificateAuth
    case ReadCertificateRequest => terms.cipher.certificateAuth
    case ReadServerHelloDone => true
    case ReadSessionTicket => terms.ticketExpected
    case ReadServerFinished => true
    case _ => false
  }

  /** The ServerHello settles the terms; a server may change its mind about a ticket. */
  predicate MaySettle(state: State, terms: Terms, agreed: Terms) {
    match state
    case ReadServerHelloState => true
    case ReadSessionTicket => agreed == terms.(ticketExpected := agreed.ticketExpected)
    case _ => agreed == terms
  }

  /** Where a step that reads, or need not, goes on. */
  function Onward(state: State, session: bool): State {
    match state
    case ReadServerHelloState => if session then ReadSessionTicket else ReadServerCertificate
    case ReadServerCertificate => ReadCertificateStatus
    case ReadCertificateStatus => VerifyServerCertificate
    case ReadServerKeyExchange => ReadCertificateRequest
    case ReadCertificateRequest => ReadServerHelloDone
    case ReadServerHelloDone => SendClientCertificate
    case ReadSessionTicket => ProcessChangeCipherSpec
    case ReadServerFinished => if session then SendClientFinished else FinishClientHandshake
    case _ => state
  }

  function Outcome(state: State): Wait { if state.ReadSessionTicket? then ReadChangeCipherSpec else HsOk }

  /** What the message at hand is if all goes as planned. */
  predicate Expected(state: State, terms: Terms, finished: seq<byte>, msg: Msg) {
    match state
    case ReadServerCertificate => msg.typ.Certificate? && !EmptyChain(msg.body)
    case ReadCertificateStatus => true
    case ReadServerKeyExchange => if msg.typ.ServerKeyExchange? then MayRead(state, terms) else !terms.cipher.ecdhe
    case ReadCertificateRequest => msg.typ.ServerHelloDone? || msg.typ.CertificateRequest?
    case ReadServerHelloDone => msg == Msg(ServerHelloDone, [])
    case ReadServerFinished => msg == Msg(Finished, finished)
    case _ => msg.typ == Reads(state)
  }

  /** A step that may read can wait for a message, and the grammar allows the message it
      reads. */
  lemma AtReading(state: State, terms: Terms, certRequest: bool, hasCertificate: bool, log: Ledger, t: Transcript, w: Wait)
    requires Inv(HsOk, state, terms, certRequest, hasCertificate, log, t) && (w.ReadMessage? || w.ReadServerHello?)
    requires MayRead(state, terms) || state.ReadServerKeyExchange?
    ensures Sound(false, log, t) && Run(log.trace).Some?
    ensures state.ReadServerHelloState? || t.hash.Some?
    ensures NeedsBuffer(state, terms.cipher, certRequest, hasCertificate) ==> t.buffer.Some?
    ensures terms.statusExpected ==> terms.cipher.certificateAuth
    ensures MayRead(state, terms) ==> forall msg: Msg :: msg.typ == Reads(state) ==> Then(Run(log.trace), Say(true, msg)).Some?
    ensures Inv(w, state, terms, certRequest, hasCertificate, log, t)
  {
    hide Sound, Run, AfterClient, AfterCipher;
  }

  lemma ReadAllowed(state: State, terms: Terms, certRequest: bool, hasCertificate: bool, log: Ledger, t: Transcript, msg: Msg)
    requires Inv(HsOk, state, terms, certRequest, hasCertificate, log, t)
    requires MayRead(state, terms) && msg.typ == Reads(state)
    ensures Run(log.trace).Some? && Then(Run(log.trace), Say(true, msg)).Some?
  {
    hide Inv;
    AtReading(state, terms, certRequest, hasCertificate, log, t, ReadMessage);
  }

  /** As planned, the message at hand is acceptable. */
  lemma ExpectedHere(plan: Plan, state: State, terms: Terms, certRequest: bool, log: Ledger, current: Option<Msg>, w: Wait)
    requires OnPlan(plan, HsOk, state, terms, certRequest, log, current) && (w.ReadMessage? || w.ReadServerHello?)
    requires MayRead(state, terms) || state.ReadServerKeyExchange?
    ensures OnPlan(plan, w, state, terms, certRequest, log, current)
    ensures current.Some? ==> Expected(state, terms, log.mac(Messages(log.trace), true), current.value)
  {
    hide Run, Obeys, Messages;
  }

  /** A message that was read leads on. */
  lemma ReadOne(state: State, terms: Terms, certRequest: bool, hasCertificate: bool, log: Ledger, t: Transcript,
                msg: Msg, agreed: Terms, request: bool, next: Ledger, u: Transcript)
    requires Inv(HsOk, state, terms, certRequest, hasCertificate, log, t)
    requires MayRead(state, terms) && msg.typ == Reads(state)
    requires Sound(false, next, u) && u.hash.Some?
    requires Run(next.trace) == Then(Run(log.trace), Say(true, msg)) && Run(next.trace).Some?
    requires MaySettle(state, terms, agreed)
    requires agreed.statusExpected ==> agreed.cipher.certificateAuth
    requires request == (certRequest || state.ReadCertificateRequest?)
    requires NeedsBuffer(Onward(state, agreed.session), agreed.cipher, request, hasCertificate) ==> u.buffer.Some?
    ensures Inv(Outcome(state), Onward(state, agreed.session), agreed, request, hasCertificate, next, u)
    ensures Rank(Onward(state, agreed.session), agreed.session) < Rank(state, terms.session)
  {
    hide Sound, Run, AfterClient, AfterCipher, NeedsBuffer;
  }

  lemma ReadOneOnPlan(plan: Plan, state: State, terms: Terms, certRequest: bool, log: Ledger, msg: Msg, agreed: Terms,
                      request: bool, next: Ledger)
    requires OnPlan(plan, HsOk, state, terms, certRequest, log, Some(msg))
    requires MayRead(state, terms) && msg.typ == Reads(state)
    requires Run(next.trace) == Then(Run(log.trace), Say(true, msg)) && Run(next.trace).Some?
    requires Obeys(plan, next.trace) <==> Obeys(plan, log.trace) && Fits(plan, Run(log.trace).value, Say(true, msg))
    requires MaySettle(state, terms, agreed) && (state.ReadServerHelloState? ==> agreed == plan.terms)
    requires request == (certRequest || state.ReadCertificateRequest?)
    ensures OnPlan(plan, Outcome(state), Onward(state, agreed.session), agreed, request, next, None)
  {
    hide Run, Obeys, Messages, AfterClient, AfterCipher;
  }

  /** The server's Finished leads on. */
  lemma FinishedRead(plan: Plan, terms: Terms, certRequest: bool, hasCertificate: bool, log: Ledger, t: Transcript,
                     msg: Msg, next: Ledger, u: Transcript)
    requires Inv(HsOk, ReadServerFinished, terms, certRequest, hasCertificate, log, t) && msg.typ.Finished?
    requires Sound(false, next, u) && u.hash.Some?
    requires Run(next.trace) == Then(Run(log.trace), Say(true, msg)) && Run(next.trace).Some?
    requires Obeys(plan, next.trace) <==> Obeys(plan, log.trace) && Fits(plan, Run(log.trace).value, Say(true, msg))
    ensures var to := if terms.session then SendClientFinished else FinishClientHandshake;
            && Inv(HsOk, to, terms, certRequest, hasCertificate, next, u)
            && Rank(to, terms.session) < Rank(ReadServerFinished, terms.session)
            && (OnPlan(plan, HsOk, ReadServerFinished, terms, certRequest, log, Some(msg))
                ==> OnPlan(plan, HsOk, to, terms, certRequest, next, None))
  {
    hide OnPlan, Sound, Run, Then, Obeys, Fits, Rank, Stands;
    ReadOne(ReadServerFinished, terms, certRequest, hasCertificate, log, t, msg, terms, certRequest, next, u);
    if OnPlan(plan, HsOk, ReadServerFinished, terms, certRequest, log, Some(msg)) {
      ReadOneOnPlan(plan, ReadServerFinished, terms, certRequest, log, msg, terms, certRequest, next);
    }
  }

  /** No message of its type is at hand, and the step goes on without. */
  predicate GoesWithout(state: State, terms: Terms, current: Option<Msg>) {
    match state
    case ReadServerCertificate => !MayRead(state, terms)
    case ReadCertificateStatus => !MayRead(state, terms) || (current.Some? && !current.value.typ.CertificateStatus?)
    case ReadServerKeyExchange => !terms.cipher.ecdhe && current.Some? && !current.value.typ.ServerKeyExchange?
    case ReadCertificateRequest => !MayRead(state, terms) || (current.Some? && current.value.typ.ServerHelloDone?)
    case ReadSessionTicket => !MayRead(state, terms)
    case _ => false
  }

  lemma ReadNone(state: State, terms: Terms, certRequest: bool, hasCertificate: bool, log: Ledger, t: Transcript,
                 current: Option<Msg>, u: Transcript)
    requires Inv(HsOk, state, terms, certRequest, hasCertificate, log, t) && GoesWithout(state, terms, current)
    requires u == t || (u == t.(buffer := None) && u.hash.Some? && state.ReadCertificateRequest?)
    ensures Inv(Outcome(state), Onward(state, terms.session), terms, certRequest, hasCertificate, log, u)
    ensures Rank(Onward(state, terms.session), terms.session) < Rank(state, terms.session)
  {
    hide Run, AfterClient, AfterCipher;
  }

  lemma ReadNoneOnPlan(plan: Plan, state: State, terms: Terms, certRequest: bool, log: Ledger, current: Option<Msg>)
    requires OnPlan(plan, HsOk, state, terms, certRequest, log, current) && GoesWithout(state, terms, current)
    ensures OnPlan(plan, Outcome(state), Onward(state, terms.session), terms, certRequest, log, current)
  {
    hide Run, Obeys, Messages, AfterClient, AfterCipher;
  }

  /** The client may send its certificate if it was asked for one. */
  lemma MaySend(terms: Terms, certRequest: bool, hasCertificate: bool, log: Ledger, t: Transcript)
    requires Inv(HsOk, SendClientCertificate, terms, certRequest, hasCertificate, log, t)
    ensures Sound(false, log, t) && t.hash.Some? && (certRequest ==> t.buffer.Some?) && Run(log.trace).Some?
    ensures certRequest ==> forall body :: Then(Run(log.trace), Say(false, Msg(Certificate, body))).Some?
  {
    hide Sound, Run;
  }

  /** No certificate is asked for, or one is sent. */
  lemma NoneSent(plan: Plan, terms: Terms, hasCertificate: bool, log: Ledger, t: Transcript, current: Option<Msg>)
    requires Inv(HsOk, SendClientCertificate, terms, false, hasCertificate, log, t)
    ensures Inv(HsOk, SendClientKeyExchange, terms, false, hasCertificate, log, t)
    ensures Rank(SendClientKeyExchange, terms.session) < Rank(SendClientCertificate, terms.session)
    ensures OnPlan(plan, HsOk, SendClientCertificate, terms, false, log, current)
            ==> OnPlan(plan, HsOk, SendClientKeyExchange, terms, false, log, current)
  {
    hide Sound, Run, Obeys;
  }

  lemma CertificateSent(terms: Terms, log: Ledger, t: Transcript, chain: seq<byte>, found: bool, next: Ledger, u: Transcript)
    requires exists has :: Inv(HsOk, SendClientCertificate, terms, true, has, log, t)
    requires Sound(false, next, u) && u.hash.Some? && (found ==> u.buffer.Some?) && found == !EmptyChain(chain)
    requires Run(next.trace) == Then(Run(log.trace), Say(false, Msg(Certificate, chain))) && Run(next.trace).Some?
    ensures Inv(HsOk, SendClientKeyExchange, terms, true, found, next, u)
    ensures Rank(SendClientKeyExchange, terms.session) < Rank(SendClientCertificate, terms.session)
  {
    hide Sound, Run;
  }

  lemma CertificateSentOnPlan(plan: Plan, terms: Terms, log: Ledger, current: Option<Msg>, chain: seq<byte>, next: Ledger)
    requires OnPlan(plan, HsOk, SendClientCertificate, terms, true, log, current) && plan.certificate == !EmptyChain(chain)
    requires Run(next.trace) == Then(Run(log.trace), Say(false, Msg(Certificate, chain))) && Run(next.trace).Some?
    requires Obeys(plan, next.trace)
             <==> Obeys(plan, log.trace) && Fits(plan, Run(log.trace).value, Say(false, Msg(Certificate, chain)))
    ensures OnPlan(plan, HsOk, SendClientKeyExchange, terms, true, next, current)
  {
    hide Run, Obeys, EmptyChain;
  }

  /** The client's Finished leads on. */
  lemma FinishedSent(terms: Terms, certRequest: bool, hasCertificate: bool, log: Ledger, t: Transcript,
                     next: Ledger, u: Transcript)
    requires Inv(HsOk, SendClientFinished, terms, certRequest, hasCertificate, log, t)
    requires Sound(false, next, u) && u.hash.Some?
    requires Run(next.trace) == Some(if terms.session then Complete(false) else ClientFinished)
    ensures Inv(Flush, FinishFlight, terms, certRequest, hasCertificate, next, u)
    ensures Rank(FinishFlight, terms.session) < Rank(SendClientFinished, terms.session)
  {
    hide Sound, Run;
  }

  lemma FinishedSentOnPlan(plan: Plan, terms: Terms, certRequest: bool, log: Ledger, current: Option<Msg>, next: Ledger)
    requires OnPlan(plan, HsOk, SendClientFinished, terms, certRequest, log, current)
    requires Run(next.trace) == Some(if terms.session then Complete(false) else ClientFinished) && Obeys(plan, next.trace)
    ensures OnPlan(plan, Flush, FinishFlight, terms, certRequest, next, current)
  {
    hide Run, Obeys;
  }

  /** The client may sign if it sent a certificate. */
  lemma MayVerify(terms: Terms, certRequest: bool, hasCertificate: bool, log: Ledger, t: Transcript)
    requires Inv(HsOk, SendClientCertificateVerify, terms, certRequest, hasCertificate, log, t)
    ensures Sound(false, log, t) && t.hash.Some? && Run(log.trace).Some?
    ensures certRequest && hasCertificate ==> t.buffer.Some?
    ensures certRequest && hasCertificate ==>
              forall body :: Then(Run(log.trace), Say(false, Msg(CertificateVerify, body))).Some?
  {
    hide Sound, Run;
  }

  lemma NotVerified(plan: Plan, terms: Terms, certRequest: bool, hasCertificate: bool, log: Ledger, t: Transcript,
                    current: Option<Msg>)
    requires Inv(HsOk, SendClientCertificateVerify, terms, certRequest, hasCertificate, log, t)
    requires !certRequest || !hasCertificate
    ensures Inv(HsOk, SendClientFinished, terms, certRequest, hasCertificate, log, t)
    ensures Rank(SendClientFinished, terms.session) < Rank(SendClientCertificateVerify, terms.session)
    ensures OnPlan(plan, HsOk, SendClientCertificateVerify, terms, certRequest, log, current)
            ==> OnPlan(plan, HsOk, SendClientFinished, terms, certRequest, log, current)
  {
    hide Sound, Run, Obeys;
  }

  lemma Verified(plan: Plan, terms: Terms, log: Ledger, t: Transcript, current: Option<Msg>, msg: Msg, next: Ledger,
                 u: Transcript)
    requires Inv(HsOk, SendClientCertificateVerify, terms, true, true, log, t)
    requires Sound(false, next, u) && u.hash.Some? && msg.typ.CertificateVerify?
    requires Run(next.trace) == Then(Run(log.trace), Say(false, msg)) && Run(next.trace).Some?
    requires Obeys(plan, next.trace) <==> Obeys(plan, log.trace) && Fits(plan, Run(log.trace).value, Say(false, msg))
    ensures Inv(HsOk, SendClientFinished, terms, true, true, next, u)
    ensures Rank(SendClientFinished, terms.session) < Rank(SendClientCertificateVerify, terms.session)
    ensures OnPlan(plan, HsOk, SendClientCertificateVerify, terms, true, log, current)
            ==> OnPlan(plan, HsOk, SendClientFinished, terms, true, next, current)
  {
    hide Sound, Run, Obeys;
  }

  /** The change of cipher is what the machine waits for. */
  lemma CipherMay(state: State, terms: Terms, certRequest: bool, hasCertificate: bool, log: Ledger, t: Transcript)
    requires Inv(ReadChangeCipherSpec, state, terms, certRequest, hasCertificate, log, t)
    ensures Sound(false, log, t) && Run(log.trace).Some? && Then(Run(log.trace), ChangeCipher(true)).Some?
  {
    hide Sound, Run;
  }

  lemma CipherHeard(plan: Plan, state: State, terms: Terms, certRequest: bool, hasCertificate: bool, log: Ledger,
                    t: Transcript, next: Ledger)
    requires Inv(ReadChangeCipherSpec, state, terms, certRequest, hasCertificate, log, t) && Sound(false, next, t)
    requires Run(next.trace) == Then(Run(log.trace), ChangeCipher(true)) && Run(next.trace).Some?
    requires Obeys(plan, next.trace) <==> Obeys(plan, log.trace) && Fits(plan, Run(log.trace).value, ChangeCipher(true))
    ensures Inv(HsOk, state, terms, certRequest, hasCertificate, next, t)
    ensures OnPlan(plan, ReadChangeCipherSpec, state, terms, certRequest, log, None)
            ==> OnPlan(plan, HsOk, state, terms, certRequest, next, None)
  {
    hide Sound, Run, Obeys;
  }

  /** As planned, what arrives is what the machine waits for. */
  lemma ArrivesOnPlan(plan: Plan, w: Wait, state: State, terms: Terms, certRequest: bool, hasCertificate: bool, log: Ledger,
                      t: Transcript, current: Option<Msg>, e: Event)
    requires Inv(w, state, terms, certRequest, hasCertificate, log, t) && Hears(w)
    requires OnPlan(plan, w, state, terms, certRequest, log, current) && Honest(plan, log.mac, log.trace, e)
    ensures if w.ReadChangeCipherSpec? then e == ChangeCipher(true) && current.None? else e.Say? && e.fromServer
    ensures !w.ReadChangeCipherSpec? ==> OnPlan(plan, HsOk, state, terms, certRequest, log, Some(e.msg))
  {
    hide Sound, Run, Obeys, Messages, NeedsBuffer;
  }

  lemma StartsReady(terms: Terms, log: Ledger, t: Transcript)
    requires !terms.session && !terms.statusExpected && t.buffer.Some?
    requires Sound(false, log, t) && Run(log.trace) == Some(Start)
    ensures Inv(HsOk, StartConnect, terms, false, false, log, t)
  {
  }

  class ClientHandshake {
    const ssl: Connection
    const falseStart: bool
    // what code outside the machine answers, step by step
    const world: nat -> Answer
    var asked: nat
    var state: State
    var wait: Wait
    var terms: Terms
    var certRequest: bool
    var hasCertificate: bool

    ghost predicate Ready(w: Wait)
      reads this`state, this`terms, this`certRequest, this`hasCertificate, ssl`log, ssl`transcript
    {
      && !ssl.server && ssl.log.mac == ssl.finishedMac
      && Inv(w, state, terms, certRequest, hasCertificate, ssl.log, ssl.transcript)
    }

    /** So far all has gone as planned. */
    ghost predicate Planned(w: Wait)
      reads this`state, this`terms, this`certRequest, ssl`log, ssl`current
    {
      OnPlan(ssl.plan, w, state, terms, certRequest, ssl.log, ssl.current)
    }

    constructor (finishedMac: Mac, falseStart: bool, channelId: bool, world: nat -> Answer, ghost plan: Plan)
      ensures Ready(HsOk) && state.StartConnect? && wait.HsOk? && fresh(ssl)
      ensures ssl.plan == plan && ssl.finishedMac == finishedMac && this.world == world && ssl.Heard() == []
      ensures plan.Sensible() ==> Planned(HsOk)
    {
      hide Inv, Sound, Run;
      ssl := new Connection(false, finishedMac, plan);
      this.falseStart, state, wait, certRequest, hasCertificate := falseStart, StartConnect, HsOk, false, false;
      this.world, asked := world, 0;
      terms := Terms(false, Cipher(false, false), false, false, false, channelId);
      new;
      StartsReady(terms, ssl.log, ssl.transcript);
    }

    /** A step that waits for the application changes nothing. */
    lemma WaitsFor(w: Wait)
      requires Ready(HsOk) && !Hears(w)
      requires !state.ProcessChangeCipherSpec?
      ensures Ready(w) && (Planned(HsOk) ==> Planned(w))
    {
      hide Run, Sound, Obeys, NeedsBuffer, Honest;
    }

    method DoStartConnect(a: Answer) returns (ret: Wait)
      requires Ready(HsOk) && state.StartConnect?
      modifies this`state, this`terms, ssl`log, ssl`transcript
      ensures ret == if a.ok then Flush else HsError
      ensures !ret.HsError? ==> Ready(ret) && Advanced()
      ensures old(ssl.log).trace <= ssl.log.trace && Follows(a, ret)
      ensures ret.Flush? ==>
        && Went(EnterEarlyData, false, [ClientHello])
        && ssl.log.trace == old(ssl.log).trace + [Say(false, Msg(ClientHello, a.body))]
    {
      hide Run, Sound, Added, Obeys;
      NothingAdded(ssl.log.trace);
      terms := terms.(session := false);
      if !a.ok {
        return HsError;
      }
      ssl.AddMessage(Msg(ClientHello, a.body));
      state := EnterEarlyData;
      return Flush;
    }

    method DoEnterEarlyData(a: Answer) returns (ret: Wait)
      requires Ready(HsOk) && state.EnterEarlyData?
      modifies this`state
      ensures ret.HsOk? && Ready(ret) && Advanced() && state == ReadServerHelloState
      ensures Follows(a, ret)
    {
      hide Run, Sound, Added, Obeys;
      state := ReadServerHelloState;
      return HsOk;
    }

    /** Starts the hash with everything so far and msg, and keeps the transcript whole if
        it may have to be signed. */
    method StartHash(msg: Msg, keep: bool)
      requires Sound(false, ssl.log, ssl.transcript) && ssl.transcript.buffer.Some? && !ssl.server
      modifies ssl`transcript
      ensures SoundAhead(false, ssl.log, ssl.transcript, msg)
      ensures ssl.transcript.hash.Some? && ssl.transcript.buffer.Some? == keep
    {
      hide Run, Sound, SoundAhead;
      ssl.InitHash();
      ssl.HashMessage(msg);
      if !keep {
        Dropped(false, ssl.log, ssl.transcript, msg);
        ssl.FreeBuffer();
      }
    }

    /** A step that reads may wait; as planned, what is at hand is acceptable. */
    lemma Begins(w: Wait, a: Answer)
      requires Ready(HsOk) && (w.ReadMessage? || w.ReadServerHello?) && !Reads(state).OtherMessage?
      ensures a.Good(ssl.plan) ==> a.ok && a.laterOk && !a.pending && a.terms == ssl.plan.terms
      ensures !ssl.server && ssl.log.mac == ssl.finishedMac
      ensures Inv(HsOk, state, terms, certRequest, hasCertificate, ssl.log, ssl.transcript)
      ensures Sound(false, ssl.log, ssl.transcript) && Run(ssl.log.trace).Some?
      ensures NeedsBuffer(state, terms.cipher, certRequest, hasCertificate) ==> ssl.transcript.buffer.Some?
      ensures state.ReadCertificateRequest? ==> !certRequest
      ensures state.ReadServerHelloState? || ssl.transcript.hash.Some?
      ensures terms.statusExpected ==> terms.cipher.certificateAuth
      ensures MayRead(state, terms) || state.ReadServerKeyExchange? ==> Ready(w)
      ensures MayRead(state, terms) ==>
                forall msg: Msg :: msg.typ == Reads(state) ==> Then(Run(ssl.log.trace), Say(true, msg)).Some?
      ensures Planned(HsOk) == OnPlan(ssl.plan, HsOk, state, terms, certRequest, ssl.log, ssl.current)
      ensures Planned(HsOk) ==> ssl.plan.Sensible()
      ensures Planned(HsOk) && (MayRead(state, terms) || state.ReadServerKeyExchange?) ==>
                && Planned(w)
                && (ssl.current.Some? ==>
                      Expected(state, terms, ssl.finishedMac(Messages(ssl.log.trace), true), ssl.current.value))
    {
      hide Sound, Run, Messages, MayRead, Expected, NeedsBuffer, Stands, Place, Obeys, Honest;
      if MayRead(state, terms) || state.ReadServerKeyExchange? {
        AtReading(state, terms, certRequest, hasCertificate, ssl.log, ssl.transcript, w);
        if Planned(HsOk) {
          ExpectedHere(ssl.plan, state, terms, certRequest, ssl.log, ssl.current, w);
        }
      }
    }

    /** The same for the step that reads the Finished. */
    lemma BeginsFinished(a: Answer)
      requires Ready(HsOk) && state.ReadServerFinished?
      ensures !ssl.server && ssl.log.mac == ssl.finishedMac && Ready(ReadMessage)
      ensures Inv(HsOk, state, terms, certRequest, hasCertificate, ssl.log, ssl.transcript)
      ensures Sound(false, ssl.log, ssl.transcript) && ssl.transcript.hash.Some? && Run(ssl.log.trace).Some?
      ensures forall body :: Then(Run(ssl.log.trace), Say(true, Msg(Finished, body))).Some?
      ensures Planned(HsOk) == OnPlan(ssl.plan, HsOk, state, terms, certRequest, ssl.log, ssl.current)
      ensures Planned(HsOk) ==>
                && Planned(ReadMessage)
                && (ssl.current.Some? ==>
                      ssl.current == Some(Msg(Finished, ssl.finishedMac(Messages(ssl.log.trace), true))))
    {
      hide Inv, OnPlan, Sound, Run, Then, Messages, NeedsBuffer, Answer.Good;
      Begins(ReadMessage, a);
      forall body ensures Then(Run(ssl.log.trace), Say(true, Msg(Finished, body))).Some? {
        assert Msg(Finished, body).typ == Reads(state);
      }
    }

    /** There was nothing to read, and the machine has moved on. */
    twostate lemma WentWithout()
      requires old(Ready(HsOk)) && GoesWithout(old(state), old(terms), old(ssl.current))
      requires unchanged(ssl`log, ssl`current, this`terms, this`certRequest, this`hasCertificate)
      requires ssl.transcript == old(ssl.transcript)
               || (old(state).ReadCertificateRequest? && ssl.transcript == old(ssl.transcript).(buffer := None)
                   && ssl.transcript.hash.Some?)
      requires state == Onward(old(state), terms.session)
      ensures Ready(Outcome(old(state))) && Advanced()
      ensures old(Planned(HsOk)) ==> Planned(Outcome(old(state)))
    {
      hide Inv, OnPlan, GoesWithout, Onward, Outcome, Rank;
      ReadNone(old(state), terms, certRequest, hasCertificate, ssl.log, old(ssl.transcript), ssl.current, ssl.transcript);
      if old(Planned(HsOk)) {
        ReadNoneOnPlan(ssl.plan, old(state), terms, certRequest, ssl.log, ssl.current);
      }
    }

    /** Done with the message at hand, which is in the transcript; t is the transcript
        without it, and was and asked what the terms and the request were. */
    method Take(msg: Msg, ghost was: Terms, ghost asked: bool, ghost t: Transcript)
      requires !ssl.server && ssl.log.mac == ssl.finishedMac
      requires Inv(HsOk, state, was, asked, hasCertificate, ssl.log, t)
      requires SoundAhead(false, ssl.log, ssl.transcript, msg) && ssl.transcript.hash.Some? && ssl.current == Some(msg)
      requires MayRead(state, was) && msg.typ == Reads(state) && !msg.typ.Finished?
      requires MaySettle(state, was, terms) && (terms.statusExpected ==> terms.cipher.certificateAuth)
      requires certRequest == (asked || state.ReadCertificateRequest?)
      requires NeedsBuffer(Onward(state, terms.session), terms.cipher, certRequest, hasCertificate)
               ==> ssl.transcript.buffer.Some?
      modifies this`state, ssl`log, ssl`current
      ensures Ready(Outcome(old(state))) && ssl.current.None? && ssl.Heard() == old(ssl.Heard())
      ensures Rank(state, terms.session) < Rank(old(state), was.session)
      ensures Went(Onward(old(state), terms.session), true, [msg.typ]) && old(ssl.log).trace <= ssl.log.trace
      ensures OnPlan(ssl.plan, HsOk, old(state), was, asked, old(ssl.log), Some(msg))
              && (old(state).ReadServerHelloState? ==> terms == ssl.plan.terms)
              ==> Planned(Outcome(old(state)))
    {
      hide Inv, OnPlan, Sound, SoundAhead, Run, Then, Added, Obeys, Fits, Messages, Received, Rank, Onward, MayRead;
      hide Reads, NeedsBuffer, Outcome, MaySettle, Connection.Heard;
      ReadAllowed(state, was, asked, hasCertificate, ssl.log, t, msg);
      ghost var from, log := state, ssl.log;
      ssl.NextMessage(msg);
      state := Onward(state, terms.session);
      ReadOne(from, was, asked, hasCertificate, log, t, msg, terms, certRequest, ssl.log, ssl.transcript);
      if OnPlan(ssl.plan, HsOk, from, was, asked, log, Some(msg)) && (from.ReadServerHelloState? ==> terms == ssl.plan.terms) {
        ReadOneOnPlan(ssl.plan, from, was, asked, log, msg, terms, certRequest, ssl.log);
      }
    }

    /** The ServerHello is in the transcript, and good; t is the transcript without it. */
    method KeepHello(msg: Msg, agreed: Terms, ghost t: Transcript)
      requires !ssl.server && ssl.log.mac == ssl.finishedMac && state.ReadServerHelloState?
      requires Inv(HsOk, state, terms, certRequest, hasCertificate, ssl.log, t)
      requires SoundAhead(false, ssl.log, ssl.transcript, msg) && ssl.transcript.hash.Some? && ssl.current == Some(msg)
      requires msg.typ.ServerHello? && (agreed.statusExpected ==> agreed.cipher.certificateAuth)
      requires ssl.transcript.buffer.Some? == (!agreed.session && agreed.cipher.certificateAuth)
      modifies this`state, this`terms, ssl`log, ssl`current
      ensures Ready(HsOk) && Advanced() && ssl.current.None? && ssl.Heard() == old(ssl.Heard()) && terms == agreed
      ensures Went(if terms.session then ReadSessionTicket else ReadServerCertificate, true, [ServerHello])
      ensures old(ssl.log).trace <= ssl.log.trace
      ensures OnPlan(ssl.plan, HsOk, old(state), old(terms), certRequest, old(ssl.log), Some(msg)) && agreed == ssl.plan.terms
              ==> Planned(HsOk)
    {
      hide Inv, OnPlan, SoundAhead, Added, Rank, Connection.Heard, ClientHandshake.Planned, ClientHandshake.Ready;
      terms := agreed;
      Take(msg, old(terms), certRequest, t);
    }

    /** The message is at hand; the version, the session, the cipher and the extensions are
        what it says. */
    method TakeHello(a: Answer, msg: Msg) returns (ret: Wait)
      requires Ready(HsOk) && state.ReadServerHelloState? && ssl.current == Some(msg)
      modifies this`state, this`terms, ssl`log, ssl`current, ssl`transcript
      ensures ret == if msg.typ.ServerHello? && a.ok && a.laterOk
                        && (a.terms.statusExpected ==> a.terms.cipher.certificateAuth) then HsOk else HsError
      ensures !ret.HsError? ==> Ready(ret) && Advanced()
      ensures old(ssl.log).trace <= ssl.log.trace && Follows(a, ret)
      ensures ret.HsOk? ==>
        && terms == a.terms
        && Went(if terms.session then ReadSessionTicket else ReadServerCertificate, true, [ServerHello])
        // The transcript is kept whole exactly where it may have to be signed.
        && (ssl.transcript.buffer.Some? <==> !terms.session && terms.cipher.certificateAuth)
    {
      hide Inv, OnPlan, Sound, SoundAhead, Run, Then, Added, Obeys, Fits, Messages, Received, Rank, EmptyChain;
      hide ClientHandshake.Planned, ClientHandshake.Ready, Connection.Heard, Answer.Good;
      hide MaySettle, Outcome, Onward;
      Begins(ReadServerHello, a);
      if !msg.typ.ServerHello? {
        return HsError;
      }
      if !a.ok {
        return HsError;
      }
      ghost var before := ssl.transcript;
      StartHash(msg, !a.terms.session && a.terms.cipher.certificateAuth);
      if !a.laterOk || (a.terms.statusExpected && !a.terms.cipher.certificateAuth) {
        return HsError;
      }
      KeepHello(msg, a.terms, before);
      return HsOk;
    }

    method DoReadServerHello(a: Answer) returns (ret: Wait)
      requires Ready(HsOk) && state.ReadServerHelloState?
      modifies this`state, this`terms, ssl`log, ssl`current, ssl`transcript
      ensures ret.HsError? <==>
        && old(ssl.current).Some?
        && !(old(Holds(ServerHello)) && a.ok && a.laterOk && (a.terms.statusExpected ==> a.terms.cipher.certificateAuth))
      ensures ret.ReadServerHello? <==> old(ssl.current).None?
      ensures !ret.HsError? ==> Ready(ret)
      ensures ret.HsError? || (ret.ReadServerHello? && Waited()) || (ret.HsOk? && Advanced())
      ensures old(ssl.log).trace <= ssl.log.trace && Follows(a, ret)
      ensures ret.HsOk? ==>
        && terms == a.terms
        && Went(if terms.session then ReadSessionTicket else ReadServerCertificate, true, [ServerHello])
        && (ssl.transcript.buffer.Some? <==> !terms.session && terms.cipher.certificateAuth)
    {
      hide Inv, OnPlan, Sound, SoundAhead, Run, Then, Added, Obeys, Fits, Messages, Received, Rank, EmptyChain;
      hide ClientHandshake.Planned, ClientHandshake.Ready, Connection.Heard, Answer.Good;
      var m := ssl.GetMessage();
      Begins(ReadServerHello, a);
      if m.None? {
        return ReadServerHello;
      }
      ret := TakeHello(a, m.value);
    }

    method DoReadServerCertificate(a: Answer) returns (ret: Wait)
      requires Ready(HsOk) && state.ReadServerCertificate?
      modifies this`state, ssl`log, ssl`current, ssl`transcript
      ensures ret.HsError? <==>
        && terms.cipher.certificateAuth && old(ssl.current).Some?
        && !(old(Holds(Certificate)) && a.ok && !EmptyChain(old(ssl.current).value.body))
      ensures ret.ReadMessage? <==> terms.cipher.certificateAuth && old(ssl.current).None?
      ensures !ret.HsError? ==> Ready(ret)
      ensures ret.HsError? || (ret.ReadMessage? && Waited()) || (ret.HsOk? && Advanced())
      ensures old(ssl.log).trace <= ssl.log.trace && Follows(a, ret)
      ensures ret.HsOk? ==>
        Went(ReadCertificateStatus, true, if terms.cipher.certificateAuth then [Certificate] else [])
    {
      hide Inv, OnPlan, Sound, SoundAhead, Run, Then, Added, Obeys, Fits, Messages, Received, Rank, EmptyChain;
      hide ClientHandshake.Planned, ClientHandshake.Ready, Connection.Heard, Answer.Good;
      NothingAdded(ssl.log.trace);
      Begins(ReadMessage, a);
      if !terms.cipher.certificateAuth {
        state := ReadCertificateStatus;
        WentWithout();
        return HsOk;
      }
      var m := ssl.GetMessage();
      if m.None? {
        return ReadMessage;
      }
      var msg := m.value;
      if !msg.typ.Certificate? {
        return HsError;
      }
      ghost var before := ssl.transcript;
      ssl.HashMessage(msg);
      if !a.ok || EmptyChain(msg.body) {
        return HsError;
      }
      Take(msg, old(terms), old(certRequest), before);
      return HsOk;
    }

    /** A server may promise a status and then send none. */
    method DoReadCertificateStatus(a: Answer) returns (ret: Wait)
      requires Ready(HsOk) && state.ReadCertificateStatus?
      modifies this`state, ssl`log, ssl`current, ssl`transcript
      ensures ret.HsError? <==> terms.statusExpected && old(Holds(CertificateStatus)) && !a.ok
      ensures ret.ReadMessage? <==> terms.statusExpected && old(ssl.current).None?
      ensures !ret.HsError? ==> Ready(ret)
      ensures ret.HsError? || (ret.ReadMessage? && Waited()) || (ret.HsOk? && Advanced())
      ensures old(ssl.log).trace <= ssl.log.trace && Follows(a, ret)
      ensures ret.HsOk? ==>
        Went(VerifyServerCertificate, true,
             if terms.statusExpected && old(Holds(CertificateStatus)) then [CertificateStatus] else [])
    {
      hide Inv, OnPlan, Sound, SoundAhead, Run, Then, Added, Obeys, Fits, Messages, Received, Rank, EmptyChain;
      hide ClientHandshake.Planned, ClientHandshake.Ready, Connection.Heard, Answer.Good;
      NothingAdded(ssl.log.trace);
      Begins(ReadMessage, a);
      if !terms.statusExpected {
        state := VerifyServerCertificate;
        WentWithout();
        return HsOk;
      }
      var m := ssl.GetMessage();
      if m.None? {
        return ReadMessage;
      }
      var msg := m.value;
      if !msg.typ.CertificateStatus? {
        state := VerifyServerCertificate;
        WentWithout();
        return HsOk;
      }
      ghost var before := ssl.transcript;
      ssl.HashMessage(msg);
      if !a.ok {
        return HsError;
      }
      Take(msg, old(terms), old(certRequest), before);
      return HsOk;
    }

    method DoVerifyServerCertificate(a: Answer) returns (ret: Wait)
      requires Ready(HsOk) && state.VerifyServerCertificate?
      modifies this`state
      ensures ret == if !terms.cipher.certificateAuth then HsOk
                     else if a.pending then CertificateVerification else if a.ok then HsOk else HsError
      ensures !ret.HsError? ==> Ready(ret)
      ensures ret.HsError? || (ret.CertificateVerification? && Waited()) || (ret.HsOk? && Advanced())
      ensures Follows(a, ret)
      ensures ret.HsOk? ==> state == ReadServerKeyExchange
    {
      hide Run, Sound, Added, Obeys;
      if !terms.cipher.certificateAuth {
        state := ReadServerKeyExchange;
        return HsOk;
      }
      if a.pending {
        return CertificateVerification;
      }
      if !a.ok {
        return HsError;
      }
      state := ReadServerKeyExchange;
      return HsOk;
    }

    method DoReadServerKeyExchange(a: Answer) returns (ret: Wait)
      requires Ready(HsOk) && state.ReadServerKeyExchange?
      modifies this`state, ssl`log, ssl`current, ssl`transcript
      ensures ret.HsError? <==>
        if old(Holds(ServerKeyExchange)) then !a.ok || (!terms.cipher.ecdhe && terms.cipher.certificateAuth)
        else old(ssl.current).Some? && terms.cipher.ecdhe
      ensures ret.ReadMessage? <==> old(ssl.current).None?
      ensures !ret.HsError? ==> Ready(ret)
      ensures ret.HsError? || (ret.ReadMessage? && Waited()) || (ret.HsOk? && Advanced())
      ensures old(ssl.log).trace <= ssl.log.trace && Follows(a, ret)
      ensures ret.HsOk? ==>
        Went(ReadCertificateRequest, true, if old(Holds(ServerKeyExchange)) then [ServerKeyExchange] else [])
    {
      hide Inv, OnPlan, Sound, SoundAhead, Run, Then, Added, Obeys, Fits, Messages, Received, Rank, EmptyChain;
      hide ClientHandshake.Planned, ClientHandshake.Ready, Connection.Heard, Answer.Good;
      NothingAdded(ssl.log.trace);
      var m := ssl.GetMessage();
      Begins(ReadMessage, a);
      if m.None? {
        return ReadMessage;
      }
      var msg := m.value;
      if !msg.typ.ServerKeyExchange? {
        if terms.cipher.ecdhe {
          return HsError;
        }
        state := ReadCertificateRequest;
        WentWithout();
        return HsOk;
      }
      ghost var before := ssl.transcript;
      ssl.HashMessage(msg);
      // Only ECDHE and plain PSK have a message of this kind.
      if !a.ok || (!terms.cipher.ecdhe && terms.cipher.certificateAuth) {
        return HsError;
      }
      Take(msg, old(terms), old(certRequest), before);
      return HsOk;
    }

    method DoReadCertificateRequest(a: Answer) returns (ret: Wait)
      requires Ready(HsOk) && state.ReadCertificateRequest?
      modifies this`state, this`certRequest, ssl`log, ssl`current, ssl`transcript
      ensures ret.HsError? <==>
        && terms.cipher.certificateAuth && old(ssl.current).Some?
        && !old(Holds(ServerHelloDone)) && !(old(Holds(CertificateRequest)) && a.ok)
      ensures ret.ReadMessage? <==> terms.cipher.certificateAuth && old(ssl.current).None?
      ensures !ret.HsError? ==> Ready(ret)
      ensures ret.HsError? || (ret.ReadMessage? && Waited()) || (ret.HsOk? && Advanced())
      ensures old(ssl.log).trace <= ssl.log.trace && Follows(a, ret)
      ensures ret.HsOk? ==>
        && Went(ReadServerHelloDone, true, if certRequest then [CertificateRequest] else [])
        && certRequest == (terms.cipher.certificateAuth && old(Holds(CertificateRequest)))
        && (terms.cipher.certificateAuth && !certRequest ==> ssl.transcript.buffer.None?)
    {
      hide Inv, OnPlan, Sound, SoundAhead, Run, Then, Added, Obeys, Fits, Messages, Received, Rank, EmptyChain;
      hide ClientHandshake.Planned, ClientHandshake.Ready, Connection.Heard, Answer.Good;
      NothingAdded(ssl.log.trace);
      Begins(ReadMessage, a);
      if !terms.cipher.certificateAuth {
        state := ReadServerHelloDone;
        WentWithout();
        return HsOk;
      }
      var m := ssl.GetMessage();
      if m.None? {
        return ReadMessage;
      }
      var msg := m.value;
      if msg.typ.ServerHelloDone? {
        // There will be nothing to sign.
        Dropped(false, ssl.log, ssl.transcript, msg);
        ssl.FreeBuffer();
        state := ReadServerHelloDone;
        WentWithout();
        return HsOk;
      }
      if !msg.typ.CertificateRequest? {
        return HsError;
      }
      ghost var before := ssl.transcript;
      ssl.HashMessage(msg);
      if !a.ok {
        return HsError;
      }
      certRequest := true;
      Take(msg, old(terms), old(certRequest), before);
      return HsOk;
    }

    method DoReadServerHelloDone(a: Answer) returns (ret: Wait)
      requires Ready(HsOk) && state.ReadServerHelloDone?
      modifies this`state, ssl`log, ssl`current, ssl`transcript
      ensures ret.HsError? <==> old(ssl.current).Some? && old(ssl.current) != Some(Msg(ServerHelloDone, []))
      ensures ret.ReadMessage? <==> old(ssl.current).None?
      ensures !ret.HsError? ==> Ready(ret)
      ensures ret.HsError? || (ret.ReadMessage? && Waited()) || (ret.HsOk? && Advanced())
      ensures old(ssl.log).trace <= ssl.log.trace && Follows(a, ret)
      ensures ret.HsOk? ==> Went(SendClientCertificate, true, [ServerHelloDone])
    {
      hide Inv, OnPlan, Sound, SoundAhead, Run, Then, Added, Obeys, Fits, Messages, Received, Rank, EmptyChain;
      hide ClientHandshake.Planned, ClientHandshake.Ready, Connection.Heard, Answer.Good;
      NothingAdded(ssl.log.trace);
      var m := ssl.GetMessage();
      Begins(ReadMessage, a);
      if m.None? {
        return ReadMessage;
      }
      var msg := m.value;
      if !msg.typ.ServerHelloDone? {
        return HsError;
      }
      ghost var before := ssl.transcript;
      ssl.HashMessage(msg);
      if |msg.body| != 0 {
        return HsError;
      }
      Take(msg, old(terms), old(certRequest), before);
      return HsOk;
    }

    /** Asks the application for a certificate; sends an empty one if there is none. */
    method DoSendClientCertificate(a: Answer) returns (ret: Wait)
      requires Ready(HsOk) && state.SendClientCertificate?
      modifies this`state, this`hasCertificate, ssl`log, ssl`transcript
      ensures ret == if !certRequest then HsOk
                     else if a.pending then X509Lookup
                     // A certificate that is set makes a chain that is not empty.
                     else if a.certificate && EmptyChain(a.body) then HsError else HsOk
      ensures !ret.HsError? ==> Ready(ret)
      ensures ret.HsError? || (ret.X509Lookup? && Waited()) || (ret.HsOk? && Advanced())
      ensures old(ssl.log).trace <= ssl.log.trace && Follows(a, ret)
      ensures ret.HsOk? ==>
        && Went(SendClientKeyExchange, false, if certRequest then [Certificate] else [])
        && (certRequest ==>
              hasCertificate == a.certificate
              && ssl.log.trace
                 == old(ssl.log).trace + [Say(false, Msg(Certificate, if a.certificate then a.body else [0, 0, 0]))])
    {
      hide Inv, OnPlan, Run, Then, Sound, Added, Obeys, Messages, Connection.Heard, Fits;
      MaySend(terms, certRequest, hasCertificate, ssl.log, ssl.transcript);
      ghost var plan, log, t, planned := ssl.plan, ssl.log, ssl.transcript, Planned(HsOk);
      NothingAdded(ssl.log.trace);
      if !certRequest {
        state := SendClientKeyExchange;
        NoneSent(plan, terms, hasCertificate, log, t, ssl.current);
        return HsOk;
      }
      if a.pending {
        WaitsFor(X509Lookup);
        return X509Lookup;
      }
      hasCertificate := a.certificate;
      var chain := a.body;
      if !hasCertificate {
        Dropped(false, ssl.log, ssl.transcript, Msg(Certificate, []));
        ssl.FreeBuffer();
        chain := [0, 0, 0];
      } else if EmptyChain(chain) {
        return HsError;
      }
      ssl.AddMessage(Msg(Certificate, chain));
      state := SendClientKeyExchange;
      CertificateSent(terms, log, t, chain, hasCertificate, ssl.log, ssl.transcript);
      if planned && a.Good(plan) {
        CertificateSentOnPlan(plan, terms, log, ssl.current, chain, ssl.log);
      }
      return HsOk;
    }

    method DoSendClientKeyExchange(a: Answer) returns (ret: Wait)
      requires Ready(HsOk) && state.SendClientKeyExchange?
      modifies this`state, ssl`log, ssl`transcript
      ensures ret == if a.ok && a.laterOk then HsOk else HsError
      ensures !ret.HsError? ==> Ready(ret) && Advanced()
      ensures old(ssl.log).trace <= ssl.log.trace && Follows(a, ret)
      ensures ret.HsOk? ==>
        && Went(SendClientCertificateVerify, false, [ClientKeyExchange])
        && ssl.log.trace == old(ssl.log).trace + [Say(false, Msg(ClientKeyExchange, a.body))]
    {
      hide Run, Sound, AfterServer, AfterCipher, Added, Obeys;
      NothingAdded(ssl.log.trace);
      if !a.ok {
        return HsError;
      }
      ssl.AddMessage(Msg(ClientKeyExchange, a.body));
      if !a.laterOk {
        return HsError;
      }
      state := SendClientCertificateVerify;
      return HsOk;
    }

    /** Signs the whole transcript, which is still there. */
    method DoSendClientCertificateVerify(a: Answer) returns (ret: Wait)
      requires Ready(HsOk) && state.SendClientCertificateVerify?
      modifies this`state, ssl`log, ssl`transcript
      ensures ret == if !certRequest || !hasCertificate then HsOk
                     else if a.pending then PrivateKeyOperation else if a.ok then HsOk else HsError
      ensures !ret.HsError? ==> Ready(ret)
      ensures ret.HsError? || (ret.PrivateKeyOperation? && Waited()) || (ret.HsOk? && Advanced())
      ensures old(ssl.log).trace <= ssl.log.trace && Follows(a, ret)
      ensures ret.HsOk? ==>
        && Went(SendClientFinished, false, if certRequest && hasCertificate then [CertificateVerify] else [])
        && ssl.log.trace == old(ssl.log).trace + SaidIf(certRequest && hasCertificate, false, Msg(CertificateVerify, a.body))
    {
      hide Inv, OnPlan, Run, Then, Sound, Added, Obeys, Messages, Connection.Heard, Fits;
      MayVerify(terms, certRequest, hasCertificate, ssl.log, ssl.transcript);
      ghost var plan, log, t, planned := ssl.plan, ssl.log, ssl.transcript, Planned(HsOk);
      NothingAdded(ssl.log.trace);
      if !certRequest || !hasCertificate {
        state := SendClientFinished;
        NotVerified(plan, terms, certRequest, hasCertificate, log, t, ssl.current);
        return HsOk;
      }
      WholeTranscript(false, ssl.log, ssl.transcript);
      if a.pending {
        WaitsFor(PrivateKeyOperation);
        return PrivateKeyOperation;
      }
      if !a.ok {
        return HsError;
      }
      var msg := Msg(CertificateVerify, a.body);
      ssl.AddMessage(msg);
      Dropped(false, ssl.log, ssl.transcript, msg);
      ssl.FreeBuffer();
      state := SendClientFinished;
      Verified(plan, terms, log, t, ssl.current, msg, ssl.log, ssl.transcript);
      return HsOk;
    }

    /** The optional messages a client sends under its new keys. */
    method SendOptional(a: Answer)
      requires !ssl.server && Sound(false, ssl.log, ssl.transcript) && ssl.transcript.hash.Some?
      requires Run(ssl.log.trace) == Some(ClientCiphers(!terms.session, 0))
      modifies ssl`log, ssl`transcript
      ensures Sound(false, ssl.log, ssl.transcript) && ssl.transcript.hash.Some?
      ensures ssl.log == old(ssl.log).(trace := ssl.log.trace) && ssl.Heard() == old(ssl.Heard())
      ensures Added(old(ssl.log).trace, ssl.log.trace, false,
                    OptionalTypes(terms.nextProtoNegSeen, terms.channelIdValid))
      ensures ssl.log.trace == old(ssl.log).trace + Options(terms, a)
      ensures Run(ssl.log.trace) == Some(ClientCiphers(!terms.session,
                if terms.channelIdValid then 2 else if terms.nextProtoNegSeen then 1 else 0))
      ensures old(Obeys(ssl.plan, ssl.log.trace)) && SameOptions(terms, ssl.plan) ==> Obeys(ssl.plan, ssl.log.trace)
    {
      hide Run, Sound, AfterServer, AfterCipher, Added, Obeys;
      ghost var start := ssl.log.trace;
      NothingAdded(start);
      ghost var types := if terms.nextProtoNegSeen then [NextProto] else [];
      assert types + [] == types;
      if terms.nextProtoNegSeen {
        ssl.AddMessage(Msg(NextProto, a.body));
      }
      if terms.channelIdValid {
        ghost var before := ssl.log.trace;
        ssl.AddMessage(Msg(ChannelId, a.second));
        AddedJoin(start, before, ssl.log.trace, false, types, [ChannelId]);
      }
    }

    /** The messages a client sends under its new keys, up to Finished. */
    method SendUnderNewKeys(a: Answer)
      requires !ssl.server && Sound(false, ssl.log, ssl.transcript) && ssl.transcript.hash.Some?
      requires Run(ssl.log.trace) == Some(ClientCiphers(!terms.session, 0)) && ssl.log.mac == ssl.finishedMac
      modifies ssl`log, ssl`transcript
      ensures Sound(false, ssl.log, ssl.transcript) && ssl.transcript.hash.Some? && ssl.log.mac == old(ssl.log).mac
      ensures Run(ssl.log.trace) == Some(if terms.session then Complete(false) else ClientFinished)
      ensures ssl.Heard() == old(ssl.Heard())
      ensures Added(old(ssl.log).trace, ssl.log.trace, false,
                    OptionalTypes(terms.nextProtoNegSeen, terms.channelIdValid) + [Finished])
      ensures old(ssl.log).trace + Options(terms, a) <= ssl.log.trace
      ensures old(Obeys(ssl.plan, ssl.log.trace)) && SameOptions(terms, ssl.plan) ==> Obeys(ssl.plan, ssl.log.trace)
    {
      hide Run, Sound, AfterServer, AfterCipher, OptionalTypes, Options, Added, Obeys, Messages, Connection.Heard;
      ghost var start, types := ssl.log.trace, OptionalTypes(terms.nextProtoNegSeen, terms.channelIdValid);
      SendOptional(a);
      ghost var before := ssl.log.trace;
      ssl.SendFinished();
      AddedJoin(start, before, ssl.log.trace, false, types, [Finished]);
    }

    /** Under the new keys, up to Finished. */
    method ChangeAndFinish(a: Answer)
      requires Ready(HsOk) && state.SendClientFinished?
      modifies ssl`log, ssl`transcript
      ensures Sound(false, ssl.log, ssl.transcript) && ssl.transcript.hash.Some? && ssl.log.mac == old(ssl.log).mac
      ensures Run(ssl.log.trace) == Some(if terms.session then Complete(false) else ClientFinished)
      ensures ssl.Heard() == old(ssl.Heard()) && old(ssl.log).trace <= ssl.log.trace
      ensures Added(old(ssl.log).trace + [ChangeCipher(false)], ssl.log.trace, false,
                    OptionalTypes(terms.nextProtoNegSeen, terms.channelIdValid) + [Finished])
      ensures old(ssl.log).trace + [ChangeCipher(false)] + Options(terms, a) <= ssl.log.trace
      ensures old(Planned(HsOk)) ==> Obeys(ssl.plan, ssl.log.trace)
    {
      hide Run, Sound, AfterServer, Obeys, Messages, Received, SaidBy, OptionalTypes, Options, NeedsBuffer;
      ssl.Ciphers(false);
      SendUnderNewKeys(a);
    }

    method DoSendClientFinished(a: Answer) returns (ret: Wait)
      requires Ready(HsOk) && state.SendClientFinished?
      modifies this`state, ssl`log, ssl`transcript
      // The key is asked for before anything that cannot be done twice.
      ensures ret == if terms.channelIdValid && a.pending then ChannelIdLookup else if a.ok then Flush else HsError
      ensures !ret.HsError? ==> Ready(ret)
      ensures ret.HsError? || (ret.ChannelIdLookup? && Waited()) || (ret.Flush? && Advanced())
      ensures old(ssl.log).trace <= ssl.log.trace && Follows(a, ret)
      ensures ret.Flush? ==>
        && state == FinishFlight
        && Added(old(ssl.log).trace + [ChangeCipher(false)], ssl.log.trace, false,
                 OptionalTypes(terms.nextProtoNegSeen, terms.channelIdValid) + [Finished])
        && old(ssl.log).trace + [ChangeCipher(false)] + Options(terms, a) <= ssl.log.trace
    {
      hide Inv, OnPlan, Run, Sound, Obeys, Messages, Added, OptionalTypes, Options, Connection.Heard;
      if terms.channelIdValid && a.pending {
        WaitsFor(ChannelIdLookup);
        return ChannelIdLookup;
      }
      if !a.ok {
        return HsError;
      }
      ghost var log, t, planned := ssl.log, ssl.transcript, Planned(HsOk);
      ChangeAndFinish(a);
      state := FinishFlight;
      FinishedSent(terms, certRequest, hasCertificate, log, t, ssl.log, ssl.transcript);
      if planned {
        FinishedSentOnPlan(ssl.plan, terms, certRequest, log, ssl.current, ssl.log);
      }
      return Flush;
    }

    method DoFinishFlight(a: Answer) returns (ret: Wait)
      requires Ready(HsOk) && state.FinishFlight?
      modifies this`state
      ensures Ready(ret) && Advanced() && Follows(a, ret)
      ensures ret == if !terms.session && falseStart then EarlyReturn else HsOk
      ensures state == if terms.session then FinishClientHandshake else ReadSessionTicket
    {
      hide Run, Sound, Added, Obeys;
      if terms.session {
        state := FinishClientHandshake;
        return HsOk;
      }
      state := ReadSessionTicket;
      // Data may be sent already under False Start.
      return if falseStart then EarlyReturn else HsOk;
    }

    /** The ticket is in the transcript, and good; t is the transcript without it. */
    method KeepTicket(msg: Msg, empty: bool, ghost t: Transcript)
      requires !ssl.server && ssl.log.mac == ssl.finishedMac && state.ReadSessionTicket? && terms.ticketExpected
      requires Inv(HsOk, state, terms, certRequest, hasCertificate, ssl.log, t)
      requires SoundAhead(false, ssl.log, ssl.transcript, msg) && ssl.transcript.hash.Some? && ssl.current == Some(msg)
      requires msg.typ.NewSessionTicket? && (terms.statusExpected ==> terms.cipher.certificateAuth)
      modifies this`state, this`terms, ssl`log, ssl`current
      ensures Ready(ReadChangeCipherSpec) && Advanced() && ssl.current.None? && ssl.Heard() == old(ssl.Heard())
      ensures Went(ProcessChangeCipherSpec, true, [NewSessionTicket]) && old(ssl.log).trace <= ssl.log.trace
      // The server may change its mind about the ticket.
      ensures terms == old(terms).(ticketExpected := !empty)
      ensures OnPlan(ssl.plan, HsOk, old(state), old(terms), certRequest, old(ssl.log), Some(msg))
              ==> Planned(ReadChangeCipherSpec)
    {
      hide Inv, OnPlan, SoundAhead, Added, Rank, Connection.Heard, ClientHandshake.Planned, ClientHandshake.Ready;
      terms := terms.(ticketExpected := !empty);
      Take(msg, old(terms), certRequest, t);
    }

    /** A ticket is due, and there is a message. */
    method TakeTicket(a: Answer, msg: Msg) returns (ret: Wait)
      requires Ready(HsOk) && state.ReadSessionTicket? && terms.ticketExpected && ssl.current == Some(msg)
      modifies this`state, this`terms, ssl`log, ssl`current, ssl`transcript
      ensures ret == if msg.typ.NewSessionTicket? && a.ok then ReadChangeCipherSpec else HsError
      ensures !ret.HsError? ==> Ready(ret) && Advanced()
      ensures old(ssl.log).trace <= ssl.log.trace && Follows(a, ret)
      ensures ret.ReadChangeCipherSpec? ==>
        && Went(ProcessChangeCipherSpec, true, [NewSessionTicket])
        && terms == old(terms).(ticketExpected := !a.emptyTicket)
    {
      hide Inv, OnPlan, Sound, SoundAhead, Run, Then, Added, Obeys, Fits, Messages, Received, Rank, EmptyChain;
      hide ClientHandshake.Planned, ClientHandshake.Ready, Connection.Heard, Answer.Good;
      hide NeedsBuffer, MaySettle, Outcome, Onward;
      Begins(ReadMessage, a);
      if !msg.typ.NewSessionTicket? {
        return HsError;
      }
      ghost var before := ssl.transcript;
      ssl.HashMessage(msg);
      if !a.ok {
        return HsError;
      }
      KeepTicket(msg, a.emptyTicket, before);
      return ReadChangeCipherSpec;
    }

    method DoReadSessionTicket(a: Answer) returns (ret: Wait)
      requires Ready(HsOk) && state.ReadSessionTicket?
      modifies this`state, this`terms, ssl`log, ssl`current, ssl`transcript
      ensures ret.HsError? <==>
        old(terms).ticketExpected && old(ssl.current).Some? && !(old(Holds(NewSessionTicket)) && a.ok)
      ensures ret.ReadMessage? <==> old(terms).ticketExpected && old(ssl.current).None?
      ensures !ret.HsError? ==> Ready(ret)
      ensures ret.HsError? || (ret.ReadMessage? && Waited()) || (ret.ReadChangeCipherSpec? && Advanced())
      ensures old(ssl.log).trace <= ssl.log.trace && Follows(a, ret)
      ensures ret.ReadChangeCipherSpec? ==>
        && Went(ProcessChangeCipherSpec, true, if old(terms).ticketExpected then [NewSessionTicket] else [])
        && terms == old(terms).(ticketExpected := old(terms).ticketExpected && !a.emptyTicket)
    {
      hide Inv, OnPlan, Sound, SoundAhead, Run, Then, Added, Obeys, Fits, Messages, Received, Rank, EmptyChain;
      hide ClientHandshake.Planned, ClientHandshake.Ready, Connection.Heard, Answer.Good;
      NothingAdded(ssl.log.trace);
      Begins(ReadMessage, a);
      if !terms.ticketExpected {
        state := ProcessChangeCipherSpec;
        WentWithout();
        return ReadChangeCipherSpec;
      }
      var m := ssl.GetMessage();
      if m.None? {
        return ReadMessage;
      }
      ret := TakeTicket(a, m.value);
    }

    method DoProcessChangeCipherSpec(a: Answer) returns (ret: Wait)
      requires Ready(HsOk) && state.ProcessChangeCipherSpec?
      modifies this`state
      ensures ret == if a.ok then HsOk else HsError
      ensures !ret.HsError? ==> Ready(ret) && Advanced() && state == ReadServerFinished
      ensures Follows(a, ret)
    {
      hide Run, Sound, Added, Obeys;
      if !a.ok {
        return HsError;
      }
      state := ReadServerFinished;
      return HsOk;
    }

    method DoReadServerFinished(a: Answer) returns (ret: Wait)
      requires Ready(HsOk) && state.ReadServerFinished?
      modifies this`state, ssl`log, ssl`current, ssl`transcript
      ensures ret.HsError? <==>
        && old(ssl.current).Some?
        && old(ssl.current) != Some(Msg(Finished, ssl.finishedMac(old(Messages(ssl.log.trace)), true)))
      ensures ret.ReadMessage? <==> old(ssl.current).None?
      ensures !ret.HsError? ==> Ready(ret)
      ensures ret.HsError? || (ret.ReadMessage? && Waited()) || (ret.HsOk? && Advanced())
      ensures old(ssl.log).trace <= ssl.log.trace && Follows(a, ret)
      ensures ret.HsOk? ==>
        Went(if terms.session then SendClientFinished else FinishClientHandshake, true, [Finished])
    {
      hide Inv, OnPlan, Sound, Run, Then, Added, Obeys, Fits, Messages, Rank, NeedsBuffer, Answer.Good, Connection.Heard;
      NothingAdded(ssl.log.trace);
      BeginsFinished(a);
      ghost var log, t := ssl.log, ssl.transcript;
      ret := ssl.GetFinished();
      if !ret.HsOk? {
        return;
      }
      state := if terms.session then SendClientFinished else FinishClientHandshake;
      FinishedRead(ssl.plan, terms, certRequest, hasCertificate, log, t, old(ssl.current).value, ssl.log, ssl.transcript);
      return HsOk;
    }

    method DoFinishClientHandshake(a: Answer) returns (ret: Wait)
      requires Ready(HsOk) && state.FinishClientHandshake?
      modifies this`state
      ensures ret.HsOk? && Ready(ret) && state.Done? && Advanced() && Follows(a, ret)
    {
      hide Run, Sound, Added, Obeys;
      state := Done;
      return HsOk;
    }

    /** One step, whichever the state calls for. */
    method Step(a: Answer) returns (ret: Wait)
      requires Ready(HsOk) && !state.Done?
      modifies this`state, this`terms, this`certRequest, this`hasCertificate
      modifies ssl`log, ssl`current, ssl`transcript
      ensures !ret.HsError? ==> Ready(ret)
      ensures Retries(ret) ==> Waited()
      ensures !ret.HsError? && !Retries(ret) ==> Advanced()
      ensures old(ssl.log).trace <= ssl.log.trace && Follows(a, ret)
    {
      hide Inv, Added, Rank, ClientHandshake.Went, EmptyChain, OptionalTypes, Messages, OnPlan, Received;
      hide ClientHandshake.Follows, ClientHandshake.Ready, ClientHandshake.Advanced, ClientHandshake.Waited;
      match state {
        case StartConnect => ret := DoStartConnect(a);
        case EnterEarlyData => ret := DoEnterEarlyData(a);
        case ReadServerHelloState => ret := DoReadServerHello(a);
        case ReadServerCertificate => ret := DoReadServerCertificate(a);
        case ReadCertificateStatus => ret := DoReadCertificateStatus(a);
        case VerifyServerCertificate => ret := DoVerifyServerCertificate(a);
        case ReadServerKeyExchange => ret := DoReadServerKeyExchange(a);
        case ReadCertificateRequest => ret := DoReadCertificateRequest(a);
        case ReadServerHelloDone => ret := DoReadServerHelloDone(a);
        case SendClientCertificate => ret := DoSendClientCertificate(a);
        case SendClientKeyExchange => ret := DoSendClientKeyExchange(a);
        case SendClientCertificateVerify => ret := DoSendClientCertificateVerify(a);
        case SendClientFinished => ret := DoSendClientFinished(a);
        case FinishFlight => ret := DoFinishFlight(a);
        case ReadSessionTicket => ret := DoReadSessionTicket(a);
        case ProcessChangeCipherSpec => ret := DoProcessChangeCipherSpec(a);
        case ReadServerFinished => ret := DoReadServerFinished(a);
        case FinishClientHandshake => ret := DoFinishClientHandshake(a);
      }
    }

    /** Takes steps until one has to wait, or the handshake is done. */
    method Handshake() returns (ret: Wait)
      requires Ready(HsOk)
      modifies this`state, this`asked, this`terms, this`certRequest, this`hasCertificate
      modifies ssl`log, ssl`current, ssl`transcript
      ensures !ret.HsError? ==> Ready(ret)
      ensures ret.HsOk? ==> state.Done?
      ensures old(ssl.log).trace <= ssl.log.trace && WellFollowed(ret)
      ensures !ret.HsError? ==> Rank(state, terms.session) <= old(Rank(state, terms.session))
      ensures ret.Flush? || ret.EarlyReturn? ==> Advanced()
    {
      hide Inv, OnPlan, Received, Rank;
      while !state.Done?
        invariant Ready(HsOk) && old(ssl.log).trace <= ssl.log.trace && WellFollowed(HsOk)
        invariant Rank(state, terms.session) <= old(Rank(state, terms.session))
        decreases Rank(state, terms.session)
      {
        var a := world(asked);
        asked := asked + 1;
        ret := Step(a);
        if !ret.HsOk? {
          return;
        }
      }
      return HsOk;
    }

    /** What the machine waits for arrives; anything else is refused, and so is a change of
        cipher that a message is left over before. */
    method Receive(e: Event) returns (ok: bool)
      requires Ready(wait) && Hears(wait) && (!wait.ReadChangeCipherSpec? ==> ssl.current.None?)
      modifies ssl`log, ssl`current
      ensures ok == if wait.ReadChangeCipherSpec? then e == ChangeCipher(true) && old(ssl.current).None?
                    else e.Say? && e.fromServer
      ensures ok ==> Ready(HsOk) && ssl.Heard() == old(ssl.Heard()) + [e] && old(ssl.log).trace <= ssl.log.trace
      ensures !ok ==> unchanged(ssl)
      ensures old(Planned(wait)) && Honest(ssl.plan, ssl.finishedMac, old(ssl.log).trace, e) ==> ok && Planned(HsOk)
    {
      hide Inv, OnPlan, Run, Sound, Obeys, Stream, Messages, Fits, Honest;
      ghost var log, planned := ssl.log, Planned(wait) && Honest(ssl.plan, ssl.finishedMac, ssl.log.trace, e);
      if planned {
        ArrivesOnPlan(ssl.plan, wait, state, terms, certRequest, hasCertificate, log, ssl.transcript, ssl.current, e);
      }
      if wait.ReadChangeCipherSpec? {
        if e != ChangeCipher(true) || ssl.current.Some? {
          return false;
        }
        CipherMay(state, terms, certRequest, hasCertificate, ssl.log, ssl.transcript);
        ssl.Ciphers(true);
        CipherHeard(ssl.plan, state, terms, certRequest, hasCertificate, log, ssl.transcript, ssl.log);
      } else {
        if !e.Say? || !e.fromServer {
          return false;
        }
        WaitOver(wait, state, terms, certRequest, hasCertificate, ssl.log, ssl.transcript);
        assert Stream(ssl.log.trace, true) + [] == Stream(ssl.log.trace, true);
        ssl.current := Some(e.msg);
      }
      return true;
    }

    ghost predicate Standing()
      reads this`wait, this`state, this`terms, this`certRequest, this`hasCertificate, ssl`log, ssl`transcript, ssl`current
    {
      !wait.HsError? ==> Ready(wait) && (wait.ReadMessage? || wait.ReadServerHello? ==> ssl.current.None?)
    }

    /** All has gone as planned, and nothing is pending. */
    ghost predicate Going()
      reads this`wait, this`state, this`terms, this`certRequest, ssl`log, ssl`current
    {
      !wait.HsError? && !Pends(wait) && Planned(wait)
    }

    /** Nothing arrives, or the one event that is planned. */
    ghost predicate AsPlanned(arrived: seq<Event>)
      reads this`wait, ssl`log
    {
      arrived != [] ==> |arrived| == 1 && Hears(wait) && Honest(ssl.plan, ssl.finishedMac, ssl.log.trace, arrived[0])
    }

    /** Resolves what the machine waits for, if it can: on says whether the machine goes on
        at once; flushes says whether the transport takes what is to be written, and arrived
        is what it has to be read, of which the first event may be taken. */
    method Resolve(flushes: bool, arrived: seq<Event>) returns (on: bool, ret: int, early: bool, taken: nat)
      requires Standing() && !wait.HsError?
      modifies this`wait, ssl`log, ssl`current
      ensures taken <= 1 && taken <= |arrived| && (taken == 1 ==> on) && (on && taken == 0 ==> old(wait).HsOk? || old(wait).Flush?)
      ensures on ==> Ready(HsOk) && wait == old(wait)
      ensures !on ==> Standing() && (ret > 0 ==> wait.HsOk? && early)
      ensures !on && wait.HsOk? ==> old(wait).EarlyReturn? || Pends(old(wait))
      ensures !wait.HsError? ==> ssl.Heard() == old(ssl.Heard()) + arrived[..taken]
      ensures old(ssl.log).trace <= ssl.log.trace
      ensures flushes && old(Going()) && old(AsPlanned(arrived)) ==>
                && taken == |arrived|
                && if on then Planned(HsOk) else Going() && (wait.HsOk? || Hears(wait)) && (ret > 0 <==> wait.HsOk?)
    {
      hide Inv, OnPlan, Received, Honest, Rank, Connection.Heard;
      on, ret, early, taken := false, -1, false, 0;
      assert arrived[..0] == [];
      if wait.Flush? {
        if flushes {
          Over();
          on := true;
        }
      } else if Hears(wait) {
        if |arrived| > 0 {
          on := Receive(arrived[0]);
          if on {
            taken := 1;
            assert arrived[..1] == [arrived[0]];
          } else {
            wait := HsError;
          }
        }
      } else if !wait.HsOk? {
        Over();
        ret, early := if wait.EarlyReturn? then 1 else -1, wait.EarlyReturn?;
        wait := HsOk;
      } else {
        on := true;
      }
    }

    /** What was waited for is there. */
    lemma Over()
      requires Ready(wait) && !wait.ReadChangeCipherSpec?
      ensures Ready(HsOk) && (Planned(wait) ==> Planned(HsOk))
    {
      hide Inv, Run, Sound, Obeys, Honest;
      WaitOver(wait, state, terms, certRequest, hasCertificate, ssl.log, ssl.transcript);
    }

    /** One round: what the machine waits for is resolved, and it goes on; over says whether
        it is done, or blocked. */
    method Round(flushes: bool, arrived: seq<Event>) returns (over: bool, ret: int, early: bool, taken: nat)
      requires Standing() && !wait.HsError?
      modifies this`state, this`asked, this`wait, this`terms, this`certRequest, this`hasCertificate
      modifies ssl`log, ssl`current, ssl`transcript
      ensures Standing() && old(ssl.log).trace <= ssl.log.trace && taken <= |arrived| && (wait.HsError? ==> over)
      ensures !wait.HsError? ==>
                && ssl.Heard() == old(ssl.Heard()) + arrived[..taken]
                && Rank(state, terms.session) <= old(Rank(state, terms.session))
      ensures over && ret > 0 ==> wait.HsOk? && (early || state.Done?)
      ensures over && wait.HsOk? ==> state.Done? || old(wait).EarlyReturn? || Pends(old(wait))
      ensures !over ==> taken > 0 || Advanced() || (WaitRank(wait) < old(WaitRank(wait)))
      ensures !over && wait.EarlyReturn? ==> Advanced()
      ensures flushes && GoodWorld() && old(Going()) && old(AsPlanned(arrived)) ==>
                && Going() && AsPlanned(arrived[taken..])
                && (over ==> taken == |arrived| && (wait.HsOk? || Hears(wait)) && (ret > 0 <==> wait.HsOk?))
    {
      hide Inv, OnPlan, Received, Honest, Rank, Connection.Heard;
      hide ClientHandshake.Ready, ClientHandshake.Planned, ClientHandshake.GoodWorld;
      var on;
      on, ret, early, taken := Resolve(flushes, arrived);
      if !on {
        return true, ret, early, taken;
      }
      wait := Handshake();
      return wait.HsError? || wait.HsOk?, if wait.HsOk? then 1 else -1, false, taken;
    }

    /** Resolves what the machine waits for, and lets it go on, until it is done or blocked
        again. */
    method RunHandshake(flushes: bool, arrived: seq<Event>) returns (ret: int, early: bool, taken: nat)
      requires Standing()
      modifies this`state, this`asked, this`wait, this`terms, this`certRequest, this`hasCertificate
      modifies ssl`log, ssl`current, ssl`transcript
      ensures Standing() && old(ssl.log).trace <= ssl.log.trace && taken <= |arrived|
      ensures ret > 0 ==> wait.HsOk? && (early || state.Done?)
      ensures !wait.HsError? ==> ssl.Heard() == old(ssl.Heard()) + arrived[..taken]
      ensures !wait.HsError? ==> Rank(state, terms.session) <= old(Rank(state, terms.session))
      ensures flushes && GoodWorld() && old(Going()) && old(AsPlanned(arrived)) ==>
                && Going() && taken == |arrived| && (wait.HsOk? || Hears(wait)) && (ret > 0 <==> wait.HsOk?)
      // What the machine waits for has been resolved, so it has moved on.
      ensures flushes && GoodWorld() && old(Going()) && old(AsPlanned(arrived)) && old(wait.HsOk? || Hears(wait)) ==>
                (wait.HsOk? ==> state.Done? || Rank(state, terms.session) < old(Rank(state, terms.session)))
    {
      hide Rank, Honest, WaitRank, Connection.Heard, ClientHandshake.Ready, ClientHandshake.Planned, ClientHandshake.GoodWorld;
      hide ClientHandshake.Standing;
      ghost var smooth, heard0 := flushes && GoodWorld() && Going() && AsPlanned(arrived), ssl.Heard();
      if wait.HsError? {
        return -1, false, 0;
      }
      ret, early, taken := -1, false, 0;
      assert arrived[..0] == [];
      var over := false;
      while !over
        invariant Standing() && old(ssl.log).trace <= ssl.log.trace && taken <= |arrived| && (wait.HsError? ==> over)
        invariant !wait.HsError? ==>
                    && ssl.Heard() == heard0 + arrived[..taken]
                    && Rank(state, terms.session) <= old(Rank(state, terms.session))
        invariant wait.EarlyReturn? && !over ==> wait == old(wait) || Rank(state, terms.session) < old(Rank(state, terms.session))
        invariant over && ret > 0 ==> wait.HsOk? && (early || state.Done?)
        invariant smooth ==> Going() && AsPlanned(arrived[taken..])
        invariant smooth && over ==>
                    && taken == |arrived| && (wait.HsOk? || Hears(wait)) && (ret > 0 <==> wait.HsOk?)
                    && (wait.HsOk? ==> state.Done? || old(wait).EarlyReturn?
                                       || Rank(state, terms.session) < old(Rank(state, terms.session)))
        decreases !over, |arrived| - taken, Rank(state, terms.session), WaitRank(wait)
      {
        var took;
        ghost var heard := ssl.Heard();
        over, ret, early, took := Round(flushes, arrived[taken..]);
        MoreTaken(heard0, heard, arrived, taken, took);
        taken := taken + took;
      }
    }

    twostate predicate Advanced()
      reads this`state, this`terms
    {
      Rank(state, terms.session) < old(Rank(state, terms.session))
    }

    /** The step went on to next, with messages of these types from one side. */
    twostate predicate Went(next: State, fromServer: bool, types: seq<MsgType>)
      reads this`state, ssl`log
    {
      state == next && Added(old(ssl.log).trace, ssl.log.trace, fromServer, types)
    }

    /** The step changed nothing. */
    twostate predicate Waited()
      reads this, ssl
    {
      && unchanged(this`state, this`wait, this`terms, this`certRequest, this`hasCertificate)
      && unchanged(ssl`log, ssl`transcript, ssl`current)
    }

    /** No received message is lost or invented; a step waits for a message only if there
        is none; and if all has gone as planned and the answer is good, so has the step. */
    twostate predicate Follows(a: Answer, ret: Wait)
      reads this, ssl
    {
      && ssl.Heard() == old(ssl.Heard())
      && (ret.ReadMessage? || ret.ReadServerHello? ==> ssl.current.None?)
      && (a.Good(ssl.plan) && old(Planned(HsOk)) ==> !ret.HsError? && !Pends(ret) && Planned(ret))
    }

    twostate predicate WellFollowed(ret: Wait)
      reads this, ssl
    {
      && ssl.Heard() == old(ssl.Heard())
      && (ret.ReadMessage? || ret.ReadServerHello? ==> ssl.current.None?)
      && (GoodWorld() && old(Planned(HsOk)) ==> !ret.HsError? && !Pends(ret) && Planned(ret))
    }

    ghost predicate GoodWorld() {
      forall i :: world(i).Good(ssl.plan)
    }

    /** The message that waits to be read is of this type. */
    predicate Holds(typ: MsgType)
      reads ssl`current
    {
      ssl.current.Some? && ssl.current.value.typ == typ
    }
  }
}
