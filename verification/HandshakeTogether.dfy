/** A client and a server that run against each other until both are done. */
module HandshakeTogether {
  import opened Bytes
  import opened HandshakeGrammar
  import opened HandshakePlan
  import opened HandshakeConnection
  import HandshakeAgreement
  import C = HandshakeClient
  import S = HandshakeServer

  lemma {:induction false} StreamGrows(t: seq<Event>, u: seq<Event>, side: bool)
    requires t <= u
    ensures Stream(t, side) <= Stream(u, side)
  {
    StreamPrefix(u, side, |t|);
    assert u[..|t|] == t;
  }

  lemma {:induction false} StreamShorter(t: seq<Event>, side: bool)
    ensures |Stream(t, side)| <= |t|
  {
    if |t| > 0 {
      StreamShorter(t[..|t| - 1], side);
    }
  }

  predicate TurnOf(p: Phase, fromServer: bool) { if fromServer then ServersTurn(p) else ClientsTurn(p) }

  /** What the other side has said and this side has not heard comes next in this side's
      view, if it is the other's turn. */
  lemma Unheard(mine: seq<Event>, theirs: seq<Event>, other: bool)
    requires Run(mine).Some? && Run(theirs).Some? && TurnOf(Run(mine).value, other)
    requires Stream(theirs, !other) <= Stream(mine, !other)
    requires Stream(mine, other) < Stream(theirs, other)
    ensures |mine| < |theirs| && theirs[..|mine|] == mine
    ensures Stream(theirs, other)[|Stream(mine, other)|] == theirs[|mine|]
    ensures Then(Run(mine), theirs[|mine|]).Some?
  {
    hide AfterClient, AfterServer, AfterCipher, Next, Run, Stream, ServersTurn;
    assert forall side :: Comparable(Stream(mine, side), Stream(theirs, side));
    if |theirs| <= |mine| {
      ViewsAgree(mine, theirs, |theirs|);
      assert theirs[..|theirs|] == theirs;
      StreamGrows(theirs, mine, other);
      assert false;
    }
    ViewsAgree(mine, theirs, |mine|);
    assert mine[..|mine|] == mine;
    PrefixRuns(theirs, |mine|);
    OneSpeaker(Run(mine).value, theirs[|mine|]);
    StreamPrefix(theirs, other, |mine|);
  }

  /** It is honest: what comes next in the plan, and if it is a Finished the right one. */
  lemma UnheardIsHonest(plan: Plan, mine: Ledger, t: Transcript, theirs: Ledger, u: Transcript, other: bool)
    requires Sound(!other, mine, t) && Sound(other, theirs, u) && mine.mac == theirs.mac
    requires Obeys(plan, theirs.trace) && TurnOf(Run(mine.trace).value, other)
    requires Stream(theirs.trace, !other) <= Stream(mine.trace, !other)
    requires Stream(mine.trace, other) < Stream(theirs.trace, other)
    ensures Honest(plan, mine.mac, mine.trace, Stream(theirs.trace, other)[|Stream(mine.trace, other)|])
  {
    hide Run, Stream, Then, Fits, Obeys, Covered, Messages, MacsOk, ServersTurn;
    Unheard(mine.trace, theirs.trace, other);
    var e := theirs.trace[|mine.trace|];
    ObeysAt(plan, theirs.trace, |mine.trace|);
    if e.Say? && e.msg.typ.Finished? {
      var said, heard := Stream(theirs.trace, other), Stream(mine.trace, other);
      assert heard + [e] == said[..|heard| + 1];
      SpokenBy(plan, Run(mine.trace).value, e, other);
      if other {
        HandshakeAgreement.ClientAcceptsFinished(mine, t, theirs, u, e);
      } else {
        HandshakeAgreement.ServerAcceptsFinished(theirs, u, mine, t, e);
      }
    }
  }

  /** What is planned is planned for the side whose turn it is. */
  lemma SpokenBy(plan: Plan, p: Phase, e: Event, side: bool)
    requires TurnOf(p, side) && Fits(plan, p, e)
    ensures e.fromServer == side
  {
  }

  /** There is no deadlock: while both sides wait for each other, something is under way. */
  lemma SomethingUnderWay(client: seq<Event>, server: seq<Event>)
    requires Run(client).Some? && Run(server).Some?
    requires Stream(server, false) <= Stream(client, false) && Stream(client, true) <= Stream(server, true)
    requires ServersTurn(Run(client).value) || Run(client).value.Complete?
    requires ClientsTurn(Run(server).value) || Run(server).value.Complete?
    requires !(Run(client).value.Complete? && Run(server).value.Complete?)
    ensures (ServersTurn(Run(client).value) && Stream(client, true) < Stream(server, true))
            || (ClientsTurn(Run(server).value) && Stream(server, false) < Stream(client, false))
  {
    hide AfterClient, AfterServer, AfterCipher, Next, Run, Stream;
    assert forall side :: Comparable(Stream(client, side), Stream(server, side));
    if |client| < |server| {
      ViewsAgree(client, server, |client|);
      NextIsTheirs(client, server);
    } else if |server| < |client| {
      ViewsAgree(server, client, |server|);
      NextIsTheirs(server, client);
    } else {
      ViewsAgree(client, server, |client|);
      WholeViews(client, server);
    }
  }

  lemma WholeViews(t: seq<Event>, u: seq<Event>)
    requires |t| == |u| && t[..|t|] == u[..|t|]
    ensures t == u
  {
    assert t[..|t|] == t && u[..|u|] == u;
  }

  /** A view that goes on says whose turn it was. */
  lemma NextIsTheirs(t: seq<Event>, u: seq<Event>)
    requires Run(u).Some? && |t| < |u| && u[..|t|] == t[..|t|]
    ensures Run(t).Some? && !Run(t).value.Complete?
    ensures |Stream(t, ServersTurn(Run(t).value))| < |Stream(u, ServersTurn(Run(t).value))|
  {
    hide AfterClient, AfterServer, AfterCipher, Next, Stream, ServersTurn;
    assert t[..|t|] == t;
    PrefixRuns(u, |t|);
    NothingAfterComplete(Run(t).value, u[|t|]);
    OneSpeaker(Run(t).value, u[|t|]);
    StreamPrefix(u, u[|t|].fromServer, |t|);
  }

  /** A machine that waits to hear something has nothing at hand, and it is the other's turn. */
  lemma ClientListens(client: C.ClientHandshake)
    requires client.Standing() && client.Going() && Hears(client.wait)
    ensures client.ssl.current.None? && Run(client.ssl.log.trace).Some? && ServersTurn(Run(client.ssl.log.trace).value)
    ensures !client.state.Done?
  {
    hide Run, Sound, Obeys;
  }

  lemma ServerListens(server: S.ServerHandshake)
    requires server.Standing() && server.Going() && Hears(server.wait)
    ensures server.ssl.current.None? && Run(server.ssl.log.trace).Some? && ClientsTurn(Run(server.ssl.log.trace).value)
    ensures !server.state.Done?
  {
    hide Run, Sound, Obeys;
  }

  lemma ClientSound(client: C.ClientHandshake)
    requires client.Standing() && !client.wait.HsError?
    ensures !client.ssl.server && Sound(false, client.ssl.log, client.ssl.transcript)
    ensures Run(client.ssl.log.trace).Some? && client.ssl.log.mac == client.ssl.finishedMac
    ensures client.state.Done? ==> Run(client.ssl.log.trace).value.Complete?
  {
    hide Run, Sound, C.NeedsBuffer;
  }

  lemma ServerSound(server: S.ServerHandshake)
    requires server.Standing() && !server.wait.HsError?
    ensures server.ssl.server && Sound(true, server.ssl.log, server.ssl.transcript)
    ensures Run(server.ssl.log.trace).Some? && server.ssl.log.mac == server.ssl.finishedMac
    ensures server.state.Done? ==> Run(server.ssl.log.trace).value.Complete?
  {
    hide Run, Sound, S.NeedsBuffer;
  }

  /** The client is on its way, or waits to hear something. */
  ghost predicate ClientFine(client: C.ClientHandshake, plan: Plan, mac: Mac)
    reads client, client.ssl
  {
    && client.Standing() && client.Going() && (client.wait.HsOk? || Hears(client.wait))
    && client.GoodWorld() && client.ssl.plan == plan && client.ssl.finishedMac == mac
  }

  ghost predicate ServerFine(server: S.ServerHandshake, plan: Plan, mac: Mac)
    reads server, server.ssl
  {
    && server.Standing() && server.Going() && (server.wait.HsOk? || Hears(server.wait))
    && server.GoodWorld() && server.ssl.plan == plan && server.ssl.finishedMac == mac
  }

  /** Neither side has heard what the other did not say. */
  ghost predicate Heard(client: Connection, server: Connection)
    reads client, server
  {
    client.Heard() <= Stream(server.log.trace, true) && server.Heard() <= Stream(client.log.trace, false)
  }

  /** What the server has said and the client has not heard is honest. */
  lemma ForClient(client: C.ClientHandshake, server: S.ServerHandshake, plan: Plan, mac: Mac)
    requires ClientFine(client, plan, mac) && ServerFine(server, plan, mac) && Heard(client.ssl, server.ssl)
    requires Hears(client.wait)
    requires Stream(client.ssl.log.trace, true) < Stream(server.ssl.log.trace, true)
    ensures var said, heard := Stream(server.ssl.log.trace, true), Stream(client.ssl.log.trace, true);
            client.AsPlanned([said[|heard|]]) && heard + [said[|heard|]] <= said
  {
    hide Run, Stream, Honest, ServersTurn, S.Inv, C.Inv, Sound;
    ClientListens(client);
    ClientSound(client);
    ServerSound(server);
    hide C.ClientHandshake.Standing, S.ServerHandshake.Standing;
    UnheardIsHonest(plan, client.ssl.log, client.ssl.transcript, server.ssl.log, server.ssl.transcript, true);
  }

  lemma ForServer(client: C.ClientHandshake, server: S.ServerHandshake, plan: Plan, mac: Mac)
    requires ClientFine(client, plan, mac) && ServerFine(server, plan, mac) && Heard(client.ssl, server.ssl)
    requires Hears(server.wait)
    requires Stream(server.ssl.log.trace, false) < Stream(client.ssl.log.trace, false)
    ensures var said, heard := Stream(client.ssl.log.trace, false), Stream(server.ssl.log.trace, false);
            server.AsPlanned([said[|heard|]]) && heard + [said[|heard|]] <= said
  {
    hide Run, Stream, Honest, ServersTurn, S.Inv, C.Inv, Sound;
    ServerListens(server);
    ClientSound(client);
    ServerSound(server);
    hide C.ClientHandshake.Standing, S.ServerHandshake.Standing;
    UnheardIsHonest(plan, server.ssl.log, server.ssl.transcript, client.ssl.log, client.ssl.transcript, false);
  }

  /** The client goes on, or hears the next event the server has said. */
  method LetClient(client: C.ClientHandshake, server: S.ServerHandshake, hear: bool, ghost plan: Plan, ghost mac: Mac)
    requires ClientFine(client, plan, mac) && ServerFine(server, plan, mac) && Heard(client.ssl, server.ssl)
    requires client.ssl != server.ssl
    requires if hear then Hears(client.wait) && Stream(client.ssl.log.trace, true) < Stream(server.ssl.log.trace, true)
             else client.wait.HsOk?
    modifies client, client.ssl
    ensures ClientFine(client, plan, mac) && Heard(client.ssl, server.ssl)
    ensures |client.ssl.Heard()| == |old(client.ssl.Heard())| + (if hear then 1 else 0)
    ensures C.Rank(client.state, client.terms.session) <= old(C.Rank(client.state, client.terms.session))
    ensures client.wait.HsOk? ==>
              client.state.Done? || C.Rank(client.state, client.terms.session) < old(C.Rank(client.state, client.terms.session))
  {
    hide C.Inv, C.OnPlan, Honest, Stream, C.Rank, Received;
    var arrived := [];
    if hear {
      ForClient(client, server, plan, mac);
      ClientListens(client);
      arrived := [Stream(server.ssl.log.trace, true)[|Stream(client.ssl.log.trace, true)|]];
      NothingAtHand(client.ssl);
    }
    ghost var before := client.ssl.log.trace;
    var ret, early, taken := client.RunHandshake(true, arrived);
    assert arrived[..taken] == arrived;
    StreamGrows(before, client.ssl.log.trace, false);
  }

  lemma NothingAtHand(c: Connection)
    requires c.current.None?
    ensures c.Heard() == Stream(c.log.trace, !c.server)
  {
    assert Stream(c.log.trace, !c.server) + [] == Stream(c.log.trace, !c.server);
  }

  method LetServer(client: C.ClientHandshake, server: S.ServerHandshake, hear: bool, ghost plan: Plan, ghost mac: Mac)
    requires ClientFine(client, plan, mac) && ServerFine(server, plan, mac) && Heard(client.ssl, server.ssl)
    requires client.ssl != server.ssl
    requires if hear then Hears(server.wait) && Stream(server.ssl.log.trace, false) < Stream(client.ssl.log.trace, false)
             else server.wait.HsOk?
    modifies server, server.ssl
    ensures ServerFine(server, plan, mac) && Heard(client.ssl, server.ssl)
    ensures |server.ssl.Heard()| == |old(server.ssl.Heard())| + (if hear then 1 else 0)
    ensures S.Rank(server.state, server.terms.session) <= old(S.Rank(server.state, server.terms.session))
    ensures server.wait.HsOk? ==>
              server.state.Done? || S.Rank(server.state, server.terms.session) < old(S.Rank(server.state, server.terms.session))
  {
    hide S.Inv, S.OnPlan, Honest, Stream, S.Rank, Received;
    var arrived := [];
    if hear {
      ForServer(client, server, plan, mac);
      ServerListens(server);
      arrived := [Stream(client.ssl.log.trace, false)[|Stream(server.ssl.log.trace, false)|]];
      NothingAtHand(server.ssl);
    }
    ghost var before := server.ssl.log.trace;
    var ret, early, taken := server.RunHandshake(true, arrived);
    assert arrived[..taken] == arrived;
    StreamGrows(before, server.ssl.log.trace, true);
  }

  /** No side can hear more events than a conversation has. */
  lemma HearAtMost(client: C.ClientHandshake, server: S.ServerHandshake, plan: Plan, mac: Mac)
    requires ClientFine(client, plan, mac) && ServerFine(server, plan, mac) && Heard(client.ssl, server.ssl)
    ensures |client.ssl.Heard()| <= 17 && |server.ssl.Heard()| <= 17 && !client.ssl.server && server.ssl.server
  {
    hide Run, Stream, Sound, Received, C.Inv, S.Inv, C.OnPlan, S.OnPlan, Left;
    ClientSound(client);
    ServerSound(server);
    AtMost(client.ssl.log.trace);
    AtMost(server.ssl.log.trace);
    StreamShorter(client.ssl.log.trace, false);
    StreamShorter(server.ssl.log.trace, true);
  }

  /** While not both are done, one of them can go on, or has something to hear. */
  lemma OneGoesOn(client: C.ClientHandshake, server: S.ServerHandshake, plan: Plan, mac: Mac)
    requires ClientFine(client, plan, mac) && ServerFine(server, plan, mac) && Heard(client.ssl, server.ssl)
    requires !(client.state.Done? && server.state.Done?)
    requires client.wait.HsOk? ==> client.state.Done?
    requires server.wait.HsOk? ==> server.state.Done?
    ensures (Hears(client.wait) && Stream(client.ssl.log.trace, true) < Stream(server.ssl.log.trace, true))
            || (Hears(server.wait) && Stream(server.ssl.log.trace, false) < Stream(client.ssl.log.trace, false))
  {
    hide Run, Stream, Sound, C.Inv, S.Inv, C.OnPlan, S.OnPlan, ServersTurn;
    ClientSound(client);
    ServerSound(server);
    if Hears(client.wait) {
      ClientListens(client);
    }
    if Hears(server.wait) {
      ServerListens(server);
    }
    CompleteIsNobodys(Run(client.ssl.log.trace).value);
    CompleteIsNobodys(Run(server.ssl.log.trace).value);
    SomethingUnderWay(client.ssl.log.trace, server.ssl.log.trace);
  }

  lemma CompleteIsNobodys(p: Phase)
    ensures p.Complete? ==> !ServersTurn(p) && !ClientsTurn(p)
    ensures !(ServersTurn(p) && ClientsTurn(p))
  {
  }

  /** When both are done they agree. */
  lemma DoneTogether(client: C.ClientHandshake, server: S.ServerHandshake, plan: Plan, mac: Mac)
    requires ClientFine(client, plan, mac) && ServerFine(server, plan, mac) && Heard(client.ssl, server.ssl)
    requires client.state.Done? && server.state.Done?
    ensures client.ssl.log.trace == server.ssl.log.trace && client.terms.session == server.terms.session
    ensures client.ssl.log.sentOver == server.ssl.log.checkedOver && client.ssl.log.sentOver.Some?
    ensures server.ssl.log.sentOver == client.ssl.log.checkedOver && server.ssl.log.sentOver.Some?
    ensures Obeys(plan, client.ssl.log.trace)
  {
    hide Run, Stream, Sound, C.Inv, S.Inv, Obeys;
    if Hears(client.wait) {
      ClientListens(client);
    }
    if Hears(server.wait) {
      ServerListens(server);
    }
    HandshakeAgreement.ClientDone(client.terms, client.certRequest, client.hasCertificate, client.ssl.log,
                                  client.ssl.transcript, false);
    HandshakeAgreement.ServerDone(server.terms, server.certRequest, server.peerPubkey, server.ssl.log,
                                  server.ssl.transcript, false);
    HandshakeAgreement.BothDone(client.terms, client.certRequest, client.hasCertificate, client.ssl.log, client.ssl.transcript,
                                server.terms, server.certRequest, server.peerPubkey, server.ssl.log, server.ssl.transcript);
  }

  /** Whatever is planned, two machines that are told nothing bad get there: no message is
      refused, neither side is stuck, and both are done after one and the same conversation,
      which is the planned one. */
  method Converse(client: C.ClientHandshake, server: S.ServerHandshake, ghost plan: Plan, ghost mac: Mac)
    requires ClientFine(client, plan, mac) && ServerFine(server, plan, mac) && Heard(client.ssl, server.ssl)
    requires client.ssl != server.ssl
    modifies client, client.ssl, server, server.ssl
    ensures client.state.Done? && server.state.Done? && client.wait.HsOk? && server.wait.HsOk?
    ensures client.ssl.log.trace == server.ssl.log.trace && client.terms.session == server.terms.session
    ensures client.ssl.log.sentOver == server.ssl.log.checkedOver && client.ssl.log.sentOver.Some?
    ensures server.ssl.log.sentOver == client.ssl.log.checkedOver && server.ssl.log.sentOver.Some?
    ensures Obeys(plan, client.ssl.log.trace)
  {
    hide ClientFine, ServerFine, Heard, Received, Stream, C.Rank, S.Rank, Obeys;
    while !(client.state.Done? && server.state.Done?)
      invariant ClientFine(client, plan, mac) && ServerFine(server, plan, mac) && Heard(client.ssl, server.ssl)
      decreases 34 - |client.ssl.Heard()| - |server.ssl.Heard()|,
                C.Rank(client.state, client.terms.session) + S.Rank(server.state, server.terms.session),
                (if client.wait.HsOk? && !client.state.Done? then 1 else 0) + (if server.wait.HsOk? && !server.state.Done? then 1 else 0)
    {
      HearAtMost(client, server, plan, mac);
      if client.wait.HsOk? && !client.state.Done? {
        LetClient(client, server, false, plan, mac);
      } else if server.wait.HsOk? && !server.state.Done? {
        LetServer(client, server, false, plan, mac);
      } else {
        OneGoesOn(client, server, plan, mac);
        if Hears(client.wait) && |Stream(client.ssl.log.trace, true)| < |Stream(server.ssl.log.trace, true)| {
          InOrder(client.ssl, server.ssl);
          LetClient(client, server, true, plan, mac);
        } else {
          InOrder(client.ssl, server.ssl);
          LetServer(client, server, true, plan, mac);
        }
      }
      HearAtMost(client, server, plan, mac);
    }
    DoneTogether(client, server, plan, mac);
    DoneWaits(client, server, plan, mac);
  }

  lemma InOrder(client: Connection, server: Connection)
    requires Heard(client, server) && !client.server && server.server
    ensures Stream(client.log.trace, true) <= Stream(server.log.trace, true)
    ensures Stream(server.log.trace, false) <= Stream(client.log.trace, false)
  {
    hide Stream;
  }

  lemma DoneWaits(client: C.ClientHandshake, server: S.ServerHandshake, plan: Plan, mac: Mac)
    requires ClientFine(client, plan, mac) && ServerFine(server, plan, mac)
    requires client.state.Done? && server.state.Done?
    ensures client.wait.HsOk? && server.wait.HsOk?
  {
    hide Run, Sound, C.Inv, S.Inv;
    if Hears(client.wait) {
      ClientListens(client);
    }
    if Hears(server.wait) {
      ServerListens(server);
    }
  }

  /** So does every handshake from its start, for every plan that makes sense. */
  method Shake(mac: Mac, falseStart: bool, channelId: bool, hint: bool, toClient: nat -> Answer, toServer: nat -> Answer,
               ghost plan: Plan) returns (client: C.ClientHandshake, server: S.ServerHandshake)
    requires plan.Sensible() && (plan.terms.session || S.HasParams(plan.terms.cipher, hint) == plan.keyExchange)
    requires forall i :: toClient(i).Good(plan)
    requires forall i :: toServer(i).Good(plan)
    ensures client.state.Done? && server.state.Done? && client.wait.HsOk? && server.wait.HsOk?
    ensures client.ssl.log.trace == server.ssl.log.trace && Obeys(plan, client.ssl.log.trace)
    ensures client.ssl.log.sentOver == server.ssl.log.checkedOver && client.ssl.log.sentOver.Some?
    ensures server.ssl.log.sentOver == client.ssl.log.checkedOver && server.ssl.log.sentOver.Some?
  {
    hide C.Inv, S.Inv, C.OnPlan, S.OnPlan, Stream, Received, Obeys, S.HelloHeld;
    client := new C.ClientHandshake(mac, falseStart, channelId, toClient, plan);
    server := new S.ServerHandshake(mac, hint, toServer, plan);
    Converse(client, server, plan, mac);
  }
}
