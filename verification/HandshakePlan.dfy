/**
 What the two sides of a handshake would settle, and the conversation they would then
 have: exactly one event may come next at each point of it.
 */
module HandshakePlan {
  import opened Bytes
  import opened HandshakeGrammar

  /** Key exchange and authentication: ciphers without certificates use a pre-shared key. */
  datatype Cipher = Cipher(certificateAuth: bool, ecdhe: bool)

  /** What the hellos and the configuration settle: whether a session is resumed, the
      cipher, and what both sides agreed on. */
  datatype Terms = Terms(session: bool, cipher: Cipher, statusExpected: bool, ticketExpected: bool,
                         nextProtoNegSeen: bool, channelIdValid: bool)

  /** Behind the server's certificate, if the cipher has one. */
  function AfterCertificate(cipher: Cipher): Phase {
    ServerSpeaks(if cipher.certificateAuth then 1 else 0, cipher.certificateAuth)
  }

  /** Behind the certificate and a status, which there may be. */
  predicate AfterStatus(cipher: Cipher, p: Phase) {
    p == AfterCertificate(cipher) || (cipher.certificateAuth && p == ServerSpeaks(2, true))
  }

  /** The terms, whether the server has a key exchange message to send and asks for a
      certificate, and whether the client has one. */
  datatype Plan = Plan(terms: Terms, keyExchange: bool, asked: bool, certificate: bool)
  {
    predicate Sensible() {
      var cipher := terms.cipher;
      && (terms.statusExpected || asked ==> cipher.certificateAuth)
      && (asked ==> !terms.session) && (certificate ==> asked)
      && (cipher.ecdhe ==> keyExchange) && (cipher.certificateAuth && !cipher.ecdhe ==> !keyExchange)
    }

    /** Behind the certificate, and the status if there is one. */
    function StatusPhase(): Phase {
      if terms.statusExpected then ServerSpeaks(2, terms.cipher.certificateAuth) else AfterCertificate(terms.cipher)
    }

    function KeyPhase(): Phase {
      if keyExchange then ServerSpeaks(3, terms.cipher.certificateAuth) else StatusPhase()
    }

    function RequestPhase(): Phase {
      if asked then ServerSpeaks(4, terms.cipher.certificateAuth) else KeyPhase()
    }
  }

  datatype Turn = Says(fromServer: bool, typ: MsgType) | Ciphers(fromServer: bool) | Nothing

  /** What comes next at a point of the conversation. */
  function TurnAt(plan: Plan, p: Phase): Turn {
    var Terms(session, cipher, status, ticket, nextProto, channelId) := plan.terms;
    match p
    case Start => Says(false, ClientHello)
    case HelloSent => Says(true, ServerHello)
    case ServerSpeaks(pos, cert) =>
      if session then (if ticket then Says(true, NewSessionTicket) else Ciphers(true))
      else if pos < 1 && cipher.certificateAuth then Says(true, Certificate)
      else if pos < 2 && status then Says(true, CertificateStatus)
      else if pos < 3 && plan.keyExchange then Says(true, ServerKeyExchange)
      else if pos < 4 && plan.asked then Says(true, CertificateRequest)
      else Says(true, ServerHelloDone)
    case ClientStarts(asked) => Says(false, if asked then Certificate else ClientKeyExchange)
    case CertSent(_) => Says(false, ClientKeyExchange)
    case KeySent(verify) => if verify then Says(false, CertificateVerify) else Ciphers(false)
    case ClientCiphers(_, pos) =>
      Says(false, if pos < 1 && nextProto then NextProto else if pos < 2 && channelId then ChannelId else Finished)
    case ClientFinished => if ticket then Says(true, NewSessionTicket) else Ciphers(true)
    case ServerTicket(_) => Ciphers(true)
    case ServerCiphers(_) => Says(true, Finished)
    case ServerFinished => Ciphers(false)
    case Complete(_) => Nothing
  }

  /** What a message must hold for the plan: a certificate message is empty if and only if
      the client has none, and the last message of the server's hello is empty. */
  predicate BodyFits(plan: Plan, fromServer: bool, msg: Msg) {
    && (msg.typ.Certificate? ==> (EmptyChain(msg.body) <==> !fromServer && !plan.certificate))
    && (msg.typ.ServerHelloDone? ==> msg.body == [])
  }

  /** e is what comes next. */
  predicate Fits(plan: Plan, p: Phase, e: Event) {
    match e
    case Say(fromServer, msg) => TurnAt(plan, p) == Says(fromServer, msg.typ) && BodyFits(plan, fromServer, msg)
    case ChangeCipher(fromServer) => TurnAt(plan, p) == Ciphers(fromServer)
  }

  /** Every event was what came next. */
  ghost predicate Obeys(plan: Plan, t: seq<Event>) {
    |t| > 0 ==>
      var before := t[..|t| - 1];
      Obeys(plan, before) && Run(before).Some? && Fits(plan, Run(before).value, t[|t| - 1])
  }

  /** e is what comes next, and a Finished holds what it should. */
  ghost predicate Honest(plan: Plan, mac: Mac, t: seq<Event>, e: Event) {
    && Run(t).Some? && Fits(plan, Run(t).value, e)
    && (e.Say? && e.msg.typ.Finished? ==> e.msg.body == mac(Messages(t), e.fromServer))
  }

  lemma OneMoreObeys(plan: Plan, t: seq<Event>, e: Event)
    requires Run(t).Some?
    ensures Obeys(plan, t + [e]) <==> Obeys(plan, t) && Fits(plan, Run(t).value, e)
  {
    assert (t + [e])[..|t|] == t;
  }

  lemma {:induction false} ObeysAt(plan: Plan, t: seq<Event>, i: nat)
    requires Obeys(plan, t) && Run(t).Some? && i < |t|
    ensures Run(t[..i]).Some? && Fits(plan, Run(t[..i]).value, t[i])
    decreases |t|
  {
    hide Fits, Next, AfterClient, AfterServer, AfterCipher;
    if i < |t| - 1 {
      var shorter := t[..|t| - 1];
      assert Run(t) == Then(Run(shorter), t[|t| - 1]);
      ObeysAt(plan, shorter, i);
      assert shorter[..i] == t[..i];
    }
  }

  /** How many events there can still be. */
  function Left(p: Phase): nat {
    match p
    case Start => 17
    case HelloSent => 16
    case ServerSpeaks(pos, _) => 15 - if pos < 5 then pos else 4
    case ClientStarts(_) => 10
    case CertSent(_) => 9
    case KeySent(verify) => if verify then 8 else 7
    case ClientFinished => 3
    case ClientCiphers(full, pos) => (if full then 4 else 1) + 2 - if pos < 2 then pos else 2
    case ServerTicket(full) => if full then 2 else 6
    case ServerCiphers(full) => if full then 1 else 5
    case ServerFinished => 4
    case Complete(_) => 0
  }

  lemma LeftDrops(p: Phase, e: Event)
    requires Next(p, e).Some?
    ensures Left(Next(p, e).value) < Left(p)
  {
  }

  /** A conversation has at most seventeen events. */
  lemma {:induction false} AtMost(t: seq<Event>)
    requires Run(t).Some?
    ensures |t| + Left(Run(t).value) <= 17
    decreases |t|
  {
    if |t| > 0 {
      var shorter := t[..|t| - 1];
      assert Run(t) == Then(Run(shorter), t[|t| - 1]);
      AtMost(shorter);
      hide Left, Next;
      LeftDrops(Run(shorter).value, t[|t| - 1]);
    }
  }
}
