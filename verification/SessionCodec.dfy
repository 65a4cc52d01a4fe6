/** The session serializer and parser as they run: one appends to a byte string, the other
    consumes one, field by field. */
module SessionCodec {
  import opened Bits
  import opened Bytes
  import opened Der
  import opened Session

  // Writing.

  /** Appends an optional field. */
  method AddField(cbb: seq<byte>, n: nat, content: Option<seq<byte>>) returns (out: seq<byte>)
    requires n < 31
    ensures out == cbb + OptionalField(n, content)
  {
    out := cbb;
    if content.Some? {
      out := out + Tlv(Context(n), content.value);
    }
  }

  method AddChain(certs: seq<seq<byte>>) returns (child: seq<byte>)
    requires |certs| > 0
    ensures child == Concat(certs[1..])
  {
    child := [];
    var i := 1;
    while i < |certs|
      invariant 1 <= i <= |certs| && Concat(certs[1..]) == child + Concat(certs[i..])
    {
      assert certs[i..][1..] == certs[i + 1..];
      child := child + certs[i];
      i := i + 1;
    }
  }

  method AddHead(s: SslSession, forTicket: bool) returns (out: seq<byte>)
    requires s.cipher.Some?
    ensures out == Head(s, forTicket)
  {
    hide Tlv, Uint, Octets, BeBytes;
    out := Uint(K_VERSION);
    out := out + Uint(s.sslVersion);
    out := out + Octets(BeBytes(s.cipher.value, 2));
    // A ticket does not need the session ID.
    out := out + Octets(if forTicket then [] else s.sessionId);
    out := out + Octets(s.masterKey);
    out := out + Tlv(Context(1), Uint(s.time));
    out := out + Tlv(Context(2), Uint(s.timeout));
  }

  method AddPeer(cbb: seq<byte>, s: SslSession, forTicket: bool) returns (out: seq<byte>)
    ensures out == cbb + Peer(s, forTicket)
  {
    hide OptionalField, Tlv, Uint, Octets, Unsigned;
    var leaf: Option<seq<byte>> := None;
    if s.certs.Some? && |s.certs.value| > 0 && s.peerSha256.None? {
      leaf := Some(s.certs.value[0]);
    }
    out := AddField(cbb, 3, leaf);
    // The context is always written, even though it may be empty.
    out := AddField(out, 4, Some(Octets(s.sidCtx)));
    out := AddField(out, 5, When(s.verifyResult != X509_V_OK, Uint(Unsigned(s.verifyResult))));
    out := AddField(out, 8, Wrapped(s.pskIdentity));
    out := AddField(out, 9, When(s.tickLifetimeHint > 0, Uint(s.tickLifetimeHint)));
    out := AddField(out, 10, if forTicket then None else Wrapped(s.tick));
  }

  method AddSecrets(cbb: seq<byte>, s: SslSession) returns (out: seq<byte>)
    ensures out == cbb + Secrets(s)
  {
    hide OptionalField, Tlv, Uint, Octets, Bool, Concat;
    out := AddField(cbb, 13, Wrapped(s.peerSha256));
    out := AddField(out, 14, When(|s.originalHandshakeHash| > 0, Octets(s.originalHandshakeHash)));
    out := AddField(out, 15, Wrapped(s.sctList));
    out := AddField(out, 16, Wrapped(s.ocspResponse));
    out := AddField(out, 17, When(s.extendedMasterSecret, Bool(true)));
    out := AddField(out, 18, When(s.groupId > 0, Uint(s.groupId)));
    var chain: Option<seq<byte>> := None;
    if s.certs.Some? && s.peerSha256.None? && |s.certs.value| >= 2 {
      var child := AddChain(s.certs.value);
      chain := Some(child);
    }
    assert chain == Chain(s);
    hide Chain;
    out := AddField(out, 19, chain);
  }

  method AddExtras(cbb: seq<byte>, s: SslSession) returns (out: seq<byte>)
    ensures out == cbb + Extras(s)
  {
    hide OptionalField, Tlv, Uint, Octets, Bool, BeBytes;
    out := AddField(cbb, 21, if s.ticketAgeAdd.None? then None else Some(Octets(BeBytes(s.ticketAgeAdd.value, 4))));
    out := AddField(out, 22, When(!s.isServer, Bool(false)));
    out := AddField(out, 23, When(s.peerSignatureAlgorithm != 0, Uint(s.peerSignatureAlgorithm)));
    out := AddField(out, 24, When(s.ticketMaxEarlyData != 0, Uint(s.ticketMaxEarlyData)));
    out := AddField(out, 25, When(s.timeout != s.authTimeout, Uint(s.authTimeout)));
    out := AddField(out, 26, Wrapped(s.earlyAlpn));
  }

  method ToBytesFull(s: SslSession, forTicket: bool) returns (out: Option<seq<byte>>)
    ensures out == Serialize(s, forTicket)
  {
    hide Head, Peer, Secrets, Extras, Tlv;
    if s.cipher.None? {
      return None;
    }
    var session := AddHead(s, forTicket);
    session := AddPeer(session, s, forTicket);
    session := AddSecrets(session, s);
    session := AddExtras(session, s);
    assert session == Body(s, forTicket);
    if |session| > MAX_LENGTH {
      return None;
    }
    return Some(Tlv(SEQUENCE, session));
  }

  // Reading.

  function First<A, B>(r: Option<(A, B)>): Option<A> { if r.None? then None else Some(r.value.0) }

  class Cbs {
    var rest: seq<byte>

    constructor (rest: seq<byte>)
      ensures this.rest == rest
    {
      this.rest := rest;
    }

    method GetAsn1(tag: byte) returns (r: Option<seq<byte>>)
      modifies this
      ensures r == First(Get(old(rest), tag)) && (r.Some? ==> rest == Get(old(rest), tag).value.1)
    {
      var e := Get(rest, tag);
      if e.None? { return None; }
      rest := e.value.1;
      return Some(e.value.0);
    }

    method GetAsn1Uint64() returns (r: Option<nat>)
      modifies this
      ensures r == First(GetUint(old(rest))) && (r.Some? ==> rest == GetUint(old(rest)).value.1)
    {
      hide Get, ParseUint;
      var bytes := GetAsn1(INTEGER);
      if bytes.None? { return None; }
      return ParseUint(bytes.value);
    }

    method GetOptionalAsn1(n: nat) returns (r: Option<Option<seq<byte>>>)
      requires n < 31
      modifies this
      ensures r == First(GetOptional(old(rest), n)) && (r.Some? ==> rest == GetOptional(old(rest), n).value.1)
    {
      hide Get;
      if |rest| > 0 && rest[0] == Context(n) {
        var child := GetAsn1(Context(n));
        if child.None? { return None; }
        return Some(child);
      }
      return Some(None);
    }

    method GetOptionalOctets(n: nat) returns (r: Option<Option<seq<byte>>>)
      requires n < 31
      modifies this
      ensures r == First(OptionalOctets(old(rest), n)) && (r.Some? ==> rest == OptionalOctets(old(rest), n).value.1)
    {
      hide Get, GetOptional;
      var field := GetOptionalAsn1(n);
      if field.None? { return None; }
      if field.value.None? { return Some(None); }
      var child := new Cbs(field.value.value);
      var value := child.GetAsn1(OCTETSTRING);
      if value.None? || |child.rest| != 0 { return None; }
      return Some(value);
    }

    /** The optional integers: their bounds are those of the type they are stored in. */
    method ParseNumber(n: nat, dflt: nat, max: nat) returns (r: Option<nat>)
      requires n < 31
      modifies this
      ensures r == First(OptionalUint(old(rest), n, dflt, max))
      ensures r.Some? ==> rest == OptionalUint(old(rest), n, dflt, max).value.1
    {
      hide Get, GetOptional, GetUint;
      var value := dflt;
      var field := GetOptionalAsn1(n);
      if field.None? { return None; }
      if field.value.Some? {
        var child := new Cbs(field.value.value);
        var v := child.GetAsn1Uint64();
        if v.None? || |child.rest| != 0 { return None; }
        value := v.value;
      }
      if value > max { return None; }
      return Some(value);
    }

    method GetOptionalBool(n: nat, dflt: bool) returns (r: Option<bool>)
      requires n < 31
      modifies this
      ensures r == First(OptionalBool(old(rest), n, dflt)) && (r.Some? ==> rest == OptionalBool(old(rest), n, dflt).value.1)
    {
      hide Get, GetOptional;
      var field := GetOptionalAsn1(n);
      if field.None? { return None; }
      if field.value.None? { return Some(dflt); }
      var child := new Cbs(field.value.value);
      var value := child.GetAsn1(BOOLEAN);
      if value.None? || |value.value| != 1 || |child.rest| != 0 { return None; }
      if value.value[0] == 0 { return Some(false); }
      if value.value[0] == 0xff { return Some(true); }
      return None;
    }

    method ParseTagged(n: nat, max: nat) returns (r: Option<nat>)
      requires n < 31
      modifies this
      ensures r == First(TaggedUint(old(rest), n, max)) && (r.Some? ==> rest == TaggedUint(old(rest), n, max).value.1)
    {
      hide Get, GetUint;
      var field := GetAsn1(Context(n));
      if field.None? { return None; }
      var child := new Cbs(field.value);
      var v := child.GetAsn1Uint64();
      if v.None? || v.value > max { return None; }
      return v;
    }

    method GetBounded(max: nat) returns (r: Option<seq<byte>>)
      modifies this
      ensures r == First(BoundedOctets(old(rest), max)) && (r.Some? ==> rest == BoundedOctets(old(rest), max).value.1)
    {
      hide Get;
      var bs := GetAsn1(OCTETSTRING);
      if bs.None? || |bs.value| > max { return None; }
      return bs;
    }

    method ReadVersion() returns (r: Option<nat>)
      modifies this
      ensures r == First(ParseVersion(old(rest))) && (r.Some? ==> rest == ParseVersion(old(rest)).value.1)
    {
      hide GetUint;
      var version := GetAsn1Uint64();
      if version.None? || version.value != K_VERSION { return None; }
      var ssl := GetAsn1Uint64();
      if ssl.None? || ssl.value > UINT16_MAX || !KnownVersion(ssl.value) { return None; }
      return ssl;
    }

    method ReadCipher(ciphers: set<nat>) returns (r: Option<nat>)
      modifies this
      ensures r == First(ParseCipher(ciphers, old(rest))) && (r.Some? ==> rest == ParseCipher(ciphers, old(rest)).value.1)
    {
      hide Get, Be;
      var cipher := GetAsn1(OCTETSTRING);
      if cipher.None? || |cipher.value| != 2 { return None; }
      var value := Be(cipher.value);
      if value !in ciphers { return None; }
      return Some(value);
    }

    method ReadHead(ciphers: set<nat>) returns (r: Option<HeadFields>)
      modifies this
      ensures r == First(ParseHead(ciphers, old(rest))) && (r.Some? ==> rest == ParseHead(ciphers, old(rest)).value.1)
    {
      hide ParseVersion, ParseCipher, BoundedOctets, TaggedUint;
      var version := ReadVersion();
      if version.None? { return None; }
      var cipher := ReadCipher(ciphers);
      if cipher.None? { return None; }
      var id := GetBounded(MAX_SESSION_ID);
      if id.None? { return None; }
      var key := GetBounded(MAX_MASTER_KEY);
      if key.None? { return None; }
      var time := ParseTagged(1, TWO_64);
      if time.None? { return None; }
      var timeout := ParseTagged(2, UINT32_MAX);
      if timeout.None? { return None; }
      return Some(HeadFields(version.value, cipher.value, id.value, key.value, time.value, timeout.value));
    }

    method ReadPeer() returns (r: Option<PeerFields>)
      modifies this
      ensures r == First(ParsePeer(old(rest))) && (r.Some? ==> rest == ParsePeer(old(rest)).value.1)
    {
      hide GetOptional, OptionalOctets, OptionalUint;
      var leaf := GetOptionalAsn1(3);
      if leaf.None? || (leaf.value.Some? && |leaf.value.value| == 0) { return None; }
      var sidCtx := GetOptionalOctets(4);
      if sidCtx.None? || |OrEmpty(sidCtx.value)| > MAX_SID_CTX { return None; }
      var verify := ParseNumber(5, 0, LONG_MAX);
      if verify.None? { return None; }
      var hostName := GetOptionalAsn1(6);
      if hostName.None? { return None; }
      var psk := GetOptionalOctets(8);
      if psk.None? || 0 in OrEmpty(psk.value) { return None; }
      var hint := ParseNumber(9, 0, UINT32_MAX);
      if hint.None? { return None; }
      var tick := GetOptionalOctets(10);
      if tick.None? { return None; }
      return Some(PeerFields(leaf.value, OrEmpty(sidCtx.value), verify.value, psk.value, hint.value, Stowed(tick.value)));
    }

    method ReadSecrets() returns (r: Option<SecretFields>)
      modifies this
      ensures r == First(ParseSecrets(old(rest))) && (r.Some? ==> rest == ParseSecrets(old(rest)).value.1)
    {
      hide GetOptional, OptionalOctets, OptionalUint, OptionalBool;
      var sha := GetOptionalOctets(13);
      if sha.None? || (sha.value.Some? && |sha.value.value| != SHA256_LENGTH) { return None; }
      var hash := GetOptionalOctets(14);
      if hash.None? || |OrEmpty(hash.value)| > MAX_MD_SIZE { return None; }
      var sct := GetOptionalOctets(15);
      if sct.None? { return None; }
      var ocsp := GetOptionalOctets(16);
      if ocsp.None? { return None; }
      var ems := GetOptionalBool(17, false);
      if ems.None? { return None; }
      var group := ParseNumber(18, 0, UINT16_MAX);
      if group.None? { return None; }
      var chain := GetOptionalAsn1(19);
      if chain.None? || (chain.value.Some? && |chain.value.value| == 0) { return None; }
      return Some(SecretFields(sha.value, OrEmpty(hash.value), sct.value, ocsp.value, ems.value, group.value, chain.value));
    }

    method ReadExtras(timeout: nat) returns (r: Option<ExtraFields>)
      modifies this
      ensures r == First(ParseExtras(old(rest), timeout)) && (r.Some? ==> rest == ParseExtras(old(rest), timeout).value.1)
    {
      hide OptionalOctets, OptionalUint, OptionalBool, Be;
      var age := GetOptionalOctets(21);
      if age.None? || (age.value.Some? && |age.value.value| != 4) { return None; }
      var server := GetOptionalBool(22, true);
      if server.None? { return None; }
      var sigAlg := ParseNumber(23, 0, UINT16_MAX);
      if sigAlg.None? { return None; }
      var early := ParseNumber(24, 0, UINT32_MAX);
      if early.None? { return None; }
      var auth := ParseNumber(25, timeout, UINT32_MAX);
      if auth.None? { return None; }
      var alpn := GetOptionalOctets(26);
      if alpn.None? { return None; }
      return Some(ExtraFields(if age.value.None? then None else Some(Be(age.value.value)), server.value, sigAlg.value,
                              early.value, auth.value, Stowed(alpn.value)));
    }

    /** The certificates that follow the leaf. */
    method ReadChain() returns (r: Option<seq<seq<byte>>>)
      modifies this
      ensures r == ParseChain(old(rest))
    {
      var certs: seq<seq<byte>> := [];
      AfterNone(rest);
      while |rest| > 0
        invariant ParseChain(old(rest)) == ChainAfter(certs, rest)
        decreases |rest|
      {
        AfterOneMore(certs, rest);
        var e := GetElement(rest);
        if e.None? {
          return None;
        }
        certs := certs + [rest[..|rest| - |e.value.2|]];
        rest := e.value.2;
      }
      AfterAll(certs);
      return Some(certs);
    }

    method ParseSession(ciphers: set<nat>) returns (r: Option<SslSession>)
      modifies this
      ensures r == First(Parse(ciphers, old(rest))) && (r.Some? ==> rest == Parse(ciphers, old(rest)).value.1)
    {
      hide Get, ParseHead, ParsePeer, ParseSecrets, ParseChain, ParseExtras;
      var body := GetAsn1(SEQUENCE);
      if body.None? { return None; }
      var session := new Cbs(body.value);
      var h := session.ReadHead(ciphers);
      if h.None? { return None; }
      var p := session.ReadPeer();
      if p.None? { return None; }
      var x := session.ReadSecrets();
      if x.None? { return None; }
      if x.value.chain.Some? && p.value.leaf.None? { return None; }
      var certs: Option<seq<seq<byte>>> := None;
      if p.value.leaf.Some? {
        var chain := new Cbs(OrEmpty(x.value.chain));
        var more := chain.ReadChain();
        if more.None? { return None; }
        certs := Some([p.value.leaf.value] + more.value);
      }
      var e := session.ReadExtras(h.value.timeout);
      if e.None? || |session.rest| != 0 { return None; }
      return Some(Assemble(h.value, p.value, x.value, certs, e.value));
    }
  }

  /** The chain when some certificates are read and s is to come. */
  function ChainAfter(certs: seq<seq<byte>>, s: seq<byte>): Option<seq<seq<byte>>> {
    var more := ParseChain(s);
    if more.None? then None else Some(certs + more.value)
  }

  lemma AfterNone(s: seq<byte>)
    ensures ChainAfter([], s) == ParseChain(s)
  {
    if ParseChain(s).Some? {
      assert [] + ParseChain(s).value == ParseChain(s).value;
    }
  }

  lemma AfterAll(certs: seq<seq<byte>>)
    ensures ChainAfter(certs, []) == Some(certs)
  {
    assert certs + [] == certs;
  }

  lemma AfterOneMore(certs: seq<seq<byte>>, s: seq<byte>)
    requires |s| > 0
    ensures GetElement(s).None? ==> ChainAfter(certs, s).None?
    ensures GetElement(s).Some? ==>
              ChainAfter(certs, s) == ChainAfter(certs + [s[..|s| - |GetElement(s).value.2|]], GetElement(s).value.2)
  {
    hide GetElement;
    if GetElement(s).Some? {
      var c, rest := s[..|s| - |GetElement(s).value.2|], ParseChain(GetElement(s).value.2);
      assert rest.Some? ==> certs + ([c] + rest.value) == certs + [c] + rest.value;
    }
  }
}
