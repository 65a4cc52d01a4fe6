/**
 The TLS 1.0-1.2 handshake as a conversation: which message may follow which, full or
 resumed (section 7.3 of RFC 5246, with the tickets of RFC 5077 and the two messages
 clients may send under the new keys).
 */
module HandshakeGrammar {
  import opened Bytes

  datatype MsgType =
    | ClientHello | ServerHello | Certificate | CertificateStatus | ServerKeyExchange
    | CertificateRequest | ServerHelloDone | ClientKeyExchange | CertificateVerify
    | NextProto | ChannelId | NewSessionTicket | Finished | OtherMessage

  datatype Msg = Msg(typ: MsgType, body: seq<byte>)

  /** What one side says to the other, in the order both put it into the conversation. */
  datatype Event = Say(fromServer: bool, msg: Msg) | ChangeCipher(fromServer: bool)

  /** Where a conversation stands.  In ServerSpeaks, pos is the rank of the server's last
      message: hello, certificate, status, key exchange, certificate request. */
  datatype Phase =
    | Start
    | HelloSent
    | ServerSpeaks(pos: nat, cert: bool)
    | ClientStarts(asked: bool)
    | CertSent(verify: bool)
    | KeySent(verify: bool)
    | ClientCiphers(full: bool, pos: nat)
    | ClientFinished
    | ServerTicket(full: bool)
    | ServerCiphers(full: bool)
    | ServerFinished
    | Complete(full: bool)

  /** The certificate message of a client that has none. */
  predicate EmptyChain(body: seq<byte>) { body == [0, 0, 0] }

  function AfterClient(p: Phase, typ: MsgType, body: seq<byte>): Option<Phase> {
    match p
    case Start => if typ.ClientHello? then Some(HelloSent) else None
    case ClientStarts(asked) =>
      if asked && typ.Certificate? then Some(CertSent(!EmptyChain(body)))
      else if !asked && typ.ClientKeyExchange? then Some(KeySent(false))
      else None
    case CertSent(verify) => if typ.ClientKeyExchange? then Some(KeySent(verify)) else None
    case KeySent(verify) => if verify && typ.CertificateVerify? then Some(KeySent(false)) else None
    case ClientCiphers(full, pos) =>
      if typ.NextProto? && pos < 1 then Some(ClientCiphers(full, 1))
      else if typ.ChannelId? && pos < 2 then Some(ClientCiphers(full, 2))
      else if typ.Finished? then Some(if full then ClientFinished else Complete(false))
      else None
    case _ => None
  }

  function AfterServer(p: Phase, typ: MsgType): Option<Phase> {
    match p
    case HelloSent => if typ.ServerHello? then Some(ServerSpeaks(0, false)) else None
    case ServerSpeaks(pos, cert) =>
      if typ.Certificate? && pos == 0 then Some(ServerSpeaks(1, true))
      else if typ.CertificateStatus? && pos == 1 then Some(ServerSpeaks(2, cert))
      else if typ.ServerKeyExchange? && pos < 3 then Some(ServerSpeaks(3, cert))
      else if typ.CertificateRequest? && pos < 4 && cert then Some(ServerSpeaks(4, cert))
      else if typ.ServerHelloDone? then Some(ClientStarts(pos == 4))
      else if typ.NewSessionTicket? && pos == 0 then Some(ServerTicket(false))
      else None
    case ClientFinished => if typ.NewSessionTicket? then Some(ServerTicket(true)) else None
    case ServerCiphers(full) =>
      if typ.Finished? then Some(if full then Complete(true) else ServerFinished) else None
    case _ => None
  }

  function AfterCipher(p: Phase, fromServer: bool): Option<Phase> {
    match p
    case KeySent(verify) => if !fromServer && !verify then Some(ClientCiphers(true, 0)) else None
    case ServerFinished => if !fromServer then Some(ClientCiphers(false, 0)) else None
    case ServerSpeaks(pos, _) => if fromServer && pos == 0 then Some(ServerCiphers(false)) else None
    case ClientFinished => if fromServer then Some(ServerCiphers(true)) else None
    case ServerTicket(full) => if fromServer then Some(ServerCiphers(full)) else None
    case _ => None
  }

  function Next(p: Phase, e: Event): Option<Phase> {
    match e
    case Say(fromServer, msg) => if fromServer then AfterServer(p, msg.typ) else AfterClient(p, msg.typ, msg.body)
    case ChangeCipher(fromServer) => AfterCipher(p, fromServer)
  }

  function Then(p: Option<Phase>, e: Event): Option<Phase> {
    if p.None? then None else Next(p.value, e)
  }

  /** Where the conversation stands; None if it broke the grammar. */
  ghost function Run(t: seq<Event>): Option<Phase> {
    if |t| == 0 then Some(Start) else Then(Run(t[..|t| - 1]), t[|t| - 1])
  }

  ghost function Messages(t: seq<Event>): seq<Msg> {
    if |t| == 0 then []
    else
      var last := t[|t| - 1];
      Messages(t[..|t| - 1]) + (if last.Say? then [last.msg] else [])
  }

  predicate IsFinished(e: Event, fromServer: bool) {
    e.Say? && e.fromServer == fromServer && e.msg.typ.Finished?
  }

  /** The messages a side's Finished covers, once it is said. */
  ghost function Covered(t: seq<Event>, fromServer: bool): Option<seq<Msg>> {
    if |t| == 0 then None
    else
      var before := t[..|t| - 1];
      if IsFinished(t[|t| - 1], fromServer) then Some(Messages(before)) else Covered(before, fromServer)
  }

  /** What a Finished holds, for the messages before it and the side that says it. */
  type Mac = (seq<Msg>, bool) -> seq<byte>

  /** Every Finished holds what it should. */
  ghost predicate MacsOk(t: seq<Event>, mac: Mac) {
    |t| > 0 ==>
      var before, last := t[..|t| - 1], t[|t| - 1];
      MacsOk(before, mac)
      && (last.Say? && last.msg.typ.Finished? ==> last.msg.body == mac(Messages(before), last.fromServer))
  }

  /** Messages of these types from one side. */
  predicate SaidBy(events: seq<Event>, fromServer: bool, types: seq<MsgType>) {
    && |events| == |types|
    && forall i | 0 <= i < |events| ::
         events[i].Say? && events[i].fromServer == fromServer && events[i].msg.typ == types[i]
  }

  /** after is before and then messages of these types from one side. */
  predicate Added(before: seq<Event>, after: seq<Event>, fromServer: bool, types: seq<MsgType>) {
    before <= after && SaidBy(after[|before|..], fromServer, types)
  }

  /** The message, if it is due. */
  function SaidIf(due: bool, fromServer: bool, msg: Msg): seq<Event> {
    if due then [Say(fromServer, msg)] else []
  }

  lemma NothingAdded(t: seq<Event>)
    ensures forall side :: Added(t, t, side, [])
  {
  }

  lemma AddedJoin(a: seq<Event>, b: seq<Event>, c: seq<Event>, fromServer: bool, first: seq<MsgType>, second: seq<MsgType>)
    requires Added(a, b, fromServer, first) && Added(b, c, fromServer, second)
    ensures Added(a, c, fromServer, first + second)
  {
    assert c[|a|..] == b[|a|..] + c[|b|..];
  }

  lemma OneMoreMac(t: seq<Event>, e: Event, mac: Mac)
    ensures MacsOk(t + [e], mac)
            == (MacsOk(t, mac) && (e.Say? && e.msg.typ.Finished? ==> e.msg.body == mac(Messages(t), e.fromServer)))
  {
    assert (t + [e])[..|t|] == t;
  }

  /** One more event. */
  lemma OneMore(t: seq<Event>, e: Event)
    ensures Run(t + [e]) == Then(Run(t), e)
    ensures Messages(t + [e]) == Messages(t) + (if e.Say? then [e.msg] else [])
    ensures forall side :: Covered(t + [e], side) == if IsFinished(e, side) then Some(Messages(t)) else Covered(t, side)
  {
    assert (t + [e])[..|t|] == t;
  }

  // What the grammar implies.

  /** Whose turn it is: at every point only one side may speak. */
  predicate ServersTurn(p: Phase) {
    p.HelloSent? || p.ServerSpeaks? || p.ClientFinished? || p.ServerTicket? || p.ServerCiphers?
  }

  predicate ClientsTurn(p: Phase) { !ServersTurn(p) && !p.Complete? }

  lemma OneSpeaker(p: Phase, e: Event)
    requires Next(p, e).Some?
    ensures e.fromServer == ServersTurn(p)
  {
  }

  lemma {:induction false} PrefixRuns(t: seq<Event>, i: nat)
    requires Run(t).Some? && i <= |t|
    ensures Run(t[..i]).Some?
    ensures i < |t| ==> Then(Run(t[..i]), t[i]) == Run(t[..i + 1]) && Run(t[..i + 1]).Some?
    decreases |t|
  {
    if i < |t| {
      if i + 1 == |t| {
        assert t[..i + 1] == t;
      } else {
        PrefixRuns(t[..|t| - 1], i);
        assert t[..|t| - 1][..i] == t[..i] && t[..|t| - 1][..i + 1] == t[..i + 1];
      }
    } else {
      assert t[..i] == t;
    }
  }

  function Count(t: seq<Event>, p: Event -> bool): nat {
    if |t| == 0 then 0 else Count(t[..|t| - 1], p) + (if p(t[|t| - 1]) then 1 else 0)
  }

  predicate FinishedBy(fromServer: bool, p: Phase) {
    if fromServer then (p.ServerFinished? || p == Complete(true) || p == Complete(false)) || (p.ClientCiphers? && !p.full)
    else p.ClientFinished? || (p.ServerTicket? && p.full) || (p.ServerCiphers? && p.full) || p.Complete?
  }

  predicate CipheredBy(fromServer: bool, p: Phase) {
    FinishedBy(fromServer, p) || (if fromServer then p.ServerCiphers? else p.ClientCiphers?)
  }

  /** Each side says one Finished, after one change of cipher. */
  lemma {:induction false} OneFinishedEach(t: seq<Event>, fromServer: bool)
    requires Run(t).Some?
    ensures Count(t, e => IsFinished(e, fromServer)) == (if FinishedBy(fromServer, Run(t).value) then 1 else 0)
    ensures Count(t, e => e == ChangeCipher(fromServer)) == (if CipheredBy(fromServer, Run(t).value) then 1 else 0)
    decreases |t|
  {
    if |t| > 0 {
      OneFinishedEach(t[..|t| - 1], fromServer);
    }
  }

  /** A completed conversation has one Finished and one change of cipher from each side. */
  lemma CompleteHasAll(t: seq<Event>, fromServer: bool)
    requires Run(t).Some? && Run(t).value.Complete?
    ensures Count(t, e => IsFinished(e, fromServer)) == 1
    ensures Count(t, e => e == ChangeCipher(fromServer)) == 1
  {
    OneFinishedEach(t, fromServer);
  }

  // Two views of one conversation.

  /** What one side says. */
  function Stream(t: seq<Event>, fromServer: bool): seq<Event> {
    if |t| == 0 then []
    else Stream(t[..|t| - 1], fromServer) + (if t[|t| - 1].fromServer == fromServer then [t[|t| - 1]] else [])
  }

  lemma OneMoreStream(t: seq<Event>, e: Event)
    ensures forall side :: Stream(t + [e], side) == Stream(t, side) + (if e.fromServer == side then [e] else [])
  {
    assert (t + [e])[..|t|] == t;
    forall side ensures Stream(t + [e], side) == Stream(t, side) + (if e.fromServer == side then [e] else []) {
      assert Stream(t, side) + [] == Stream(t, side);
    }
  }

  lemma {:induction false} StreamPrefix(t: seq<Event>, side: bool, i: nat)
    requires i <= |t|
    ensures Stream(t[..i], side) <= Stream(t, side)
    ensures i < |t| && t[i].fromServer == side ==>
              |Stream(t[..i], side)| < |Stream(t, side)| && Stream(t, side)[|Stream(t[..i], side)|] == t[i]
    decreases |t|
  {
    if i == |t| {
      assert t[..i] == t;
    } else {
      var shorter := t[..|t| - 1];
      StreamPrefix(shorter, side, i);
      assert shorter[..i] == t[..i];
    }
  }

  predicate Comparable<T(==)>(a: seq<T>, b: seq<T>) { a <= b || b <= a }

  /** If each side has received what the other sent, so far as it goes, their two views
      of the conversation agree so far as they go. */
  lemma {:induction false} ViewsAgree(t: seq<Event>, u: seq<Event>, i: nat)
    requires Run(t).Some? && Run(u).Some? && i <= |t| && i <= |u|
    requires forall side :: Comparable(Stream(t, side), Stream(u, side))
    ensures t[..i] == u[..i]
    decreases i
  {
    hide AfterClient, AfterServer, AfterCipher, Next, ServersTurn, Run, Stream;
    if i > 0 {
      ViewsAgree(t, u, i - 1);
      PrefixRuns(t, i - 1);
      PrefixRuns(u, i - 1);
      var p := Run(t[..i - 1]).value;
      OneSpeaker(p, t[i - 1]);
      OneSpeaker(p, u[i - 1]);
      var side := ServersTurn(p);
      StreamPrefix(t, side, i - 1);
      StreamPrefix(u, side, i - 1);
      assert Comparable(Stream(t, side), Stream(u, side));
      assert t[..i] == t[..i - 1] + [t[i - 1]] && u[..i] == u[..i - 1] + [u[i - 1]];
    }
  }

  /** A side that has said its Finished cannot say it again. */
  lemma NoSecondFinished(p: Phase, e: Event, side: bool)
    requires FinishedBy(side, p) && IsFinished(e, side)
    ensures Next(p, e).None?
  {
  }

  lemma FinishedOnce(p: Phase, e: Event, side: bool)
    requires Next(p, e).Some?
    ensures FinishedBy(side, Next(p, e).value) == (FinishedBy(side, p) || IsFinished(e, side))
  {
  }

  lemma {:induction false} CoveredIsFinished(t: seq<Event>, side: bool)
    requires Run(t).Some?
    ensures Covered(t, side).Some? == FinishedBy(side, Run(t).value)
    decreases |t|
  {
    if |t| > 0 {
      var shorter := t[..|t| - 1];
      assert Run(t) == Then(Run(shorter), t[|t| - 1]);
      CoveredIsFinished(shorter, side);
      hide FinishedBy, AfterClient, AfterServer, AfterCipher, Next;
      FinishedOnce(Run(shorter).value, t[|t| - 1], side);
    }
  }

  /** The Finished of a side holds the value for what it covers. */
  lemma {:induction false} CoveredMac(t: seq<Event>, e: Event, side: bool, mac: Mac)
    requires Run(t).Some? && MacsOk(t, mac) && e in t && IsFinished(e, side)
    ensures Covered(t, side).Some? && e.msg.body == mac(Covered(t, side).value, side)
    decreases |t|
  {
    hide FinishedBy, AfterClient, AfterServer, AfterCipher, Next;
    var shorter, last := t[..|t| - 1], t[|t| - 1];
    assert Run(t) == Then(Run(shorter), last);
    if e in shorter {
      CoveredMac(shorter, e, side, mac);
      CoveredIsFinished(shorter, side);
      if IsFinished(last, side) {
        NoSecondFinished(Run(shorter).value, last, side);
      }
    } else {
      assert t == shorter + [last];
    }
  }

  lemma {:induction false} InStream(t: seq<Event>, side: bool, e: Event)
    requires e in Stream(t, side)
    ensures e in t
  {
    if e != t[|t| - 1] {
      InStream(t[..|t| - 1], side, e);
    }
  }

  lemma {:induction false} CoveredStays(t: seq<Event>, side: bool, i: nat)
    requires Run(t).Some? && i <= |t| && Covered(t[..i], side).Some?
    ensures Covered(t, side) == Covered(t[..i], side)
    decreases |t|
  {
    hide FinishedBy, AfterClient, AfterServer, AfterCipher, Next;
    if i == |t| {
      assert t[..i] == t;
    } else {
      var shorter, last := t[..|t| - 1], t[|t| - 1];
      assert Run(t) == Then(Run(shorter), last);
      assert shorter[..i] == t[..i];
      CoveredStays(shorter, side, i);
      CoveredIsFinished(shorter, side);
      if IsFinished(last, side) {
        NoSecondFinished(Run(shorter).value, last, side);
      }
    }
  }

  /** The two sides compute and check each Finished over the same messages: client is
      the client's view, server the server's, and neither has received what the other
      did not send.  If both views are complete they are the same conversation. */
  lemma FinishedOverSameMessages(client: seq<Event>, server: seq<Event>, side: bool)
    requires Run(client).Some? && Run(server).Some?
    requires Stream(server, false) <= Stream(client, false)
    requires Stream(client, true) <= Stream(server, true)
    ensures Covered(client, side).Some? && Covered(server, side).Some? ==> Covered(client, side) == Covered(server, side)
    ensures Run(client).value.Complete? && Run(server).value.Complete? ==> client == server
  {
    hide AfterClient, AfterServer, AfterCipher, Next, Run, Covered, Stream;
    assert forall s :: Comparable(Stream(client, s), Stream(server, s));
    if |client| <= |server| {
      ViewsAgree(client, server, |client|);
      assert client[..|client|] == client && server[..|client|] == client;
      Extends(client, server, side);
    } else {
      ViewsAgree(client, server, |server|);
      assert server[..|server|] == server && client[..|server|] == server;
      Extends(server, client, side);
    }
  }

  /** A longer view keeps what each Finished covers, and a complete one has no longer. */
  lemma Extends(t: seq<Event>, u: seq<Event>, side: bool)
    requires Run(u).Some? && |t| <= |u| && u[..|t|] == t
    ensures Covered(t, side).Some? ==> Covered(u, side) == Covered(t, side)
    ensures Run(t).Some? && (Run(t).value.Complete? ==> t == u)
  {
    hide AfterClient, AfterServer, AfterCipher;
    PrefixRuns(u, |t|);
    if Covered(t, side).Some? {
      CoveredStays(u, side, |t|);
    }
    if |t| == |u| {
      assert u[..|u|] == u;
    } else {
      NothingAfterComplete(Run(t).value, u[|t|]);
    }
  }

  lemma NothingAfterComplete(p: Phase, e: Event)
    ensures p.Complete? ==> Next(p, e).None?
  {
  }
}
