/** Sessions, and the DER they are kept as. */
module Session {
  import opened Bits
  import opened Bytes
  import opened Der

  const K_VERSION: nat := 1
  const X509_V_OK: int := 0
  const LONG_MAX: nat := 0x7fff_ffff_ffff_ffff
  const UINT32_MAX: nat := 0xffff_ffff
  const UINT16_MAX: nat := 0xffff
  const MAX_SESSION_ID: nat := 32
  const MAX_MASTER_KEY: nat := 48
  const MAX_SID_CTX: nat := 32
  const SHA256_LENGTH: nat := 32
  const MAX_MD_SIZE: nat := 64

  datatype SslSession = SslSession(
    sslVersion: nat, cipher: Option<nat>, sessionId: seq<byte>, masterKey: seq<byte>, time: nat, timeout: nat,
    certs: Option<seq<seq<byte>>>, sidCtx: seq<byte>, verifyResult: int, pskIdentity: Option<seq<byte>>,
    tickLifetimeHint: nat, tick: Option<seq<byte>>, peerSha256: Option<seq<byte>>,
    originalHandshakeHash: seq<byte>, sctList: Option<seq<byte>>, ocspResponse: Option<seq<byte>>,
    extendedMasterSecret: bool, groupId: nat, ticketAgeAdd: Option<nat>, isServer: bool,
    peerSignatureAlgorithm: nat, ticketMaxEarlyData: nat, authTimeout: nat, earlyAlpn: Option<seq<byte>>)

  /** The versions the wire knows: SSL 3.0 to TLS 1.2, a TLS 1.3 draft, and DTLS. */
  predicate KnownVersion(v: nat) {
    v == 0x300 || v == 0x301 || v == 0x302 || v == 0x303 || v == 0x7f17 || v == 0xfeff || v == 0xfefd
  }

  // Writing.

  function OptionalField(n: nat, content: Option<seq<byte>>): seq<byte>
    requires n < 31
  {
    if content.None? then [] else Tlv(Context(n), content.value)
  }

  function Octets(bs: seq<byte>): seq<byte> { Tlv(OCTETSTRING, bs) }

  function Bool(b: bool): seq<byte> { Tlv(BOOLEAN, [if b then 0xff else 0]) }

  function When(present: bool, content: seq<byte>): Option<seq<byte>> { if present then Some(content) else None }

  function Wrapped(bs: Option<seq<byte>>): Option<seq<byte>> { if bs.None? then None else Some(Octets(bs.value)) }

  /** A long as the unsigned number it is written as. */
  function Unsigned(n: int): nat { n % TWO_64 }

  /** The fields before the optional ones. */
  function Head(s: SslSession, forTicket: bool): seq<byte>
    requires s.cipher.Some?
  {
    Uint(K_VERSION) + Uint(s.sslVersion) + Octets(BeBytes(s.cipher.value, 2))
    + Octets(if forTicket then [] else s.sessionId) + Octets(s.masterKey)
    + Tlv(Context(1), Uint(s.time)) + Tlv(Context(2), Uint(s.timeout))
  }

  function Leaf(s: SslSession): Option<seq<byte>> {
    if s.certs.Some? && |s.certs.value| > 0 && s.peerSha256.None? then Some(s.certs.value[0]) else None
  }

  function Chain(s: SslSession): Option<seq<byte>> {
    if s.certs.Some? && s.peerSha256.None? && |s.certs.value| >= 2 then Some(Concat(s.certs.value[1..])) else None
  }

  function Peer(s: SslSession, forTicket: bool): seq<byte> {
    OptionalField(3, Leaf(s))
    + (OptionalField(4, Some(Octets(s.sidCtx)))
    + (OptionalField(5, When(s.verifyResult != X509_V_OK, Uint(Unsigned(s.verifyResult))))
    + (OptionalField(8, Wrapped(s.pskIdentity))
    + (OptionalField(9, When(s.tickLifetimeHint > 0, Uint(s.tickLifetimeHint)))
    + OptionalField(10, if forTicket then None else Wrapped(s.tick))))))
  }

  function Secrets(s: SslSession): seq<byte> {
    OptionalField(13, Wrapped(s.peerSha256))
    + (OptionalField(14, When(|s.originalHandshakeHash| > 0, Octets(s.originalHandshakeHash)))
    + (OptionalField(15, Wrapped(s.sctList))
    + (OptionalField(16, Wrapped(s.ocspResponse))
    + (OptionalField(17, When(s.extendedMasterSecret, Bool(true)))
    + (OptionalField(18, When(s.groupId > 0, Uint(s.groupId)))
    + OptionalField(19, Chain(s)))))))
  }

  function Extras(s: SslSession): seq<byte> {
    OptionalField(21, if s.ticketAgeAdd.None? then None else Some(Octets(BeBytes(s.ticketAgeAdd.value, 4))))
    + (OptionalField(22, When(!s.isServer, Bool(false)))
    + (OptionalField(23, When(s.peerSignatureAlgorithm != 0, Uint(s.peerSignatureAlgorithm)))
    + (OptionalField(24, When(s.ticketMaxEarlyData != 0, Uint(s.ticketMaxEarlyData)))
    + (OptionalField(25, When(s.timeout != s.authTimeout, Uint(s.authTimeout)))
    + OptionalField(26, Wrapped(s.earlyAlpn))))))
  }

  function Body(s: SslSession, forTicket: bool): seq<byte>
    requires s.cipher.Some?
  {
    Head(s, forTicket) + (Peer(s, forTicket) + (Secrets(s) + Extras(s)))
  }

  /** None for a session without a cipher, or too long for DER. */
  function Serialize(s: SslSession, forTicket: bool): Option<seq<byte>> {
    if s.cipher.None? || |Body(s, forTicket)| > MAX_LENGTH then None else Some(Tlv(SEQUENCE, Body(s, forTicket)))
  }

  // Reading.

  type Rest = seq<byte>

  function OptionalOctets(s: seq<byte>, n: nat): Option<(Option<seq<byte>>, Rest)>
    requires n < 31
  {
    var f := GetOptional(s, n);
    if f.None? then None
    else if f.value.0.None? then Some((None, f.value.1))
    else
      var inner := Get(f.value.0.value, OCTETSTRING);
      if inner.None? || |inner.value.1| != 0 then None else Some((Some(inner.value.0), f.value.1))
  }

  /** What a field left out and an empty field both come to. */
  function OrEmpty(bs: Option<seq<byte>>): seq<byte> { if bs.None? then [] else bs.value }

  /** Stowing an empty string leaves nothing. */
  function Stowed(bs: Option<seq<byte>>): Option<seq<byte>> { if |OrEmpty(bs)| == 0 then None else bs }

  function OptionalUint(s: seq<byte>, n: nat, dflt: nat, max: nat): Option<(nat, Rest)>
    requires n < 31
  {
    var f := GetOptional(s, n);
    if f.None? then None
    else if f.value.0.None? then if dflt > max then None else Some((dflt, f.value.1))
    else
      var v := GetUint(f.value.0.value);
      if v.None? || |v.value.1| != 0 || v.value.0 > max then None else Some((v.value.0, f.value.1))
  }

  function OptionalBool(s: seq<byte>, n: nat, dflt: bool): Option<(bool, Rest)>
    requires n < 31
  {
    var f := GetOptional(s, n);
    if f.None? then None
    else if f.value.0.None? then Some((dflt, f.value.1))
    else
      var inner := Get(f.value.0.value, BOOLEAN);
      if inner.None? || |inner.value.1| != 0 || |inner.value.0| != 1 then None
      else if inner.value.0[0] != 0 && inner.value.0[0] != 0xff then None
      else Some((inner.value.0[0] == 0xff, f.value.1))
  }

  /** An integer under a tag that must be there; what follows it is not looked at. */
  function TaggedUint(s: seq<byte>, n: nat, max: nat): Option<(nat, Rest)>
    requires n < 31
  {
    var f := Get(s, Context(n));
    if f.None? then None
    else
      var v := GetUint(f.value.0);
      if v.None? || v.value.0 > max then None else Some((v.value.0, f.value.1))
  }

  datatype HeadFields = HeadFields(sslVersion: nat, cipher: nat, sessionId: seq<byte>, masterKey: seq<byte>,
                                   time: nat, timeout: nat)

  function ParseVersion(s: seq<byte>): Option<(nat, Rest)> {
    var version := GetUint(s);
    if version.None? || version.value.0 != K_VERSION then None
    else
      var ssl := GetUint(version.value.1);
      if ssl.None? || ssl.value.0 > UINT16_MAX || !KnownVersion(ssl.value.0) then None else ssl
  }

  function ParseCipher(ciphers: set<nat>, s: seq<byte>): Option<(nat, Rest)> {
    var cipher := Get(s, OCTETSTRING);
    if cipher.None? || |cipher.value.0| != 2 || Be(cipher.value.0) !in ciphers then None
    else Some((Be(cipher.value.0), cipher.value.1))
  }

  function BoundedOctets(s: seq<byte>, max: nat): Option<(seq<byte>, Rest)> {
    var bs := Get(s, OCTETSTRING);
    if bs.None? || |bs.value.0| > max then None else bs
  }

  function ParseHead(ciphers: set<nat>, s: seq<byte>): Option<(HeadFields, Rest)> {
    var version := ParseVersion(s);
    if version.None? then None
    else
      var cipher := ParseCipher(ciphers, version.value.1);
      if cipher.None? then None
      else
        var id := BoundedOctets(cipher.value.1, MAX_SESSION_ID);
        if id.None? then None
        else
          var key := BoundedOctets(id.value.1, MAX_MASTER_KEY);
          if key.None? then None
          else
            var time := TaggedUint(key.value.1, 1, TWO_64);
            if time.None? then None
            else
              var timeout := TaggedUint(time.value.1, 2, UINT32_MAX);
              if timeout.None? then None
              else Some((HeadFields(version.value.0, cipher.value.0, id.value.0, key.value.0, time.value.0, timeout.value.0),
                         timeout.value.1))
  }

  datatype PeerFields = PeerFields(leaf: Option<seq<byte>>, sidCtx: seq<byte>, verifyResult: nat,
                                   pskIdentity: Option<seq<byte>>, tickLifetimeHint: nat, tick: Option<seq<byte>>)

  function ParsePeer(s: seq<byte>): Option<(PeerFields, Rest)> {
    var leaf := GetOptional(s, 3);
    if leaf.None? || (leaf.value.0.Some? && |leaf.value.0.value| == 0) then None
    else
      var sidCtx := OptionalOctets(leaf.value.1, 4);
      if sidCtx.None? || |OrEmpty(sidCtx.value.0)| > MAX_SID_CTX then None
      else
        var verify := OptionalUint(sidCtx.value.1, 5, 0, LONG_MAX);
        if verify.None? then None
        else
          // The historical host name is skipped.
          var hostName := GetOptional(verify.value.1, 6);
          if hostName.None? then None
          else
            var psk := OptionalOctets(hostName.value.1, 8);
            if psk.None? || 0 in OrEmpty(psk.value.0) then None
            else
              var hint := OptionalUint(psk.value.1, 9, 0, UINT32_MAX);
              if hint.None? then None
              else
                var tick := OptionalOctets(hint.value.1, 10);
                if tick.None? then None
                else Some((PeerFields(leaf.value.0, OrEmpty(sidCtx.value.0), verify.value.0, psk.value.0,
                                      hint.value.0, Stowed(tick.value.0)), tick.value.1))
  }

  datatype SecretFields = SecretFields(peerSha256: Option<seq<byte>>, originalHandshakeHash: seq<byte>,
                                       sctList: Option<seq<byte>>, ocspResponse: Option<seq<byte>>,
                                       extendedMasterSecret: bool, groupId: nat, chain: Option<seq<byte>>)

  function ParseSecrets(s: seq<byte>): Option<(SecretFields, Rest)> {
    var sha := OptionalOctets(s, 13);
    if sha.None? || (sha.value.0.Some? && |sha.value.0.value| != SHA256_LENGTH) then None
    else
      var hash := OptionalOctets(sha.value.1, 14);
      if hash.None? || |OrEmpty(hash.value.0)| > MAX_MD_SIZE then None
      else
        var sct := OptionalOctets(hash.value.1, 15);
        if sct.None? then None
        else
          var ocsp := OptionalOctets(sct.value.1, 16);
          if ocsp.None? then None
          else
            var ems := OptionalBool(ocsp.value.1, 17, false);
            if ems.None? then None
            else
              var group := OptionalUint(ems.value.1, 18, 0, UINT16_MAX);
              if group.None? then None
              else
                var chain := GetOptional(group.value.1, 19);
                if chain.None? || (chain.value.0.Some? && |chain.value.0.value| == 0) then None
                else Some((SecretFields(sha.value.0, OrEmpty(hash.value.0), sct.value.0, ocsp.value.0, ems.value.0,
                                        group.value.0, chain.value.0), chain.value.1))
  }

  /** The certificates after the leaf, each one element. */
  function ParseChain(s: seq<byte>): Option<seq<seq<byte>>>
    decreases |s|
  {
    if |s| == 0 then Some([])
    else
      var e := GetElement(s);
      if e.None? then None
      else
        var rest := ParseChain(e.value.2);
        if rest.None? then None else Some([s[..|s| - |e.value.2|]] + rest.value)
  }

  function ParseCerts(leaf: Option<seq<byte>>, chain: Option<seq<byte>>): Option<Option<seq<seq<byte>>>> {
    if leaf.None? then if chain.Some? then None else Some(None)
    else
      var more := ParseChain(OrEmpty(chain));
      if more.None? then None else Some(Some([leaf.value] + more.value))
  }

  datatype ExtraFields = ExtraFields(ticketAgeAdd: Option<nat>, isServer: bool, peerSignatureAlgorithm: nat,
                                     ticketMaxEarlyData: nat, authTimeout: nat, earlyAlpn: Option<seq<byte>>)

  function ParseExtras(s: seq<byte>, timeout: nat): Option<(ExtraFields, Rest)> {
    var age := OptionalOctets(s, 21);
    if age.None? || (age.value.0.Some? && |age.value.0.value| != 4) then None
    else
      var server := OptionalBool(age.value.1, 22, true);
      if server.None? then None
      else
        var sigAlg := OptionalUint(server.value.1, 23, 0, UINT16_MAX);
        if sigAlg.None? then None
        else
          var early := OptionalUint(sigAlg.value.1, 24, 0, UINT32_MAX);
          if early.None? then None
          else
            var auth := OptionalUint(early.value.1, 25, timeout, UINT32_MAX);
            if auth.None? then None
            else
              var alpn := OptionalOctets(auth.value.1, 26);
              if alpn.None? then None
              else Some((ExtraFields(if age.value.0.None? then None else Some(Be(age.value.0.value)), server.value.0,
                                     sigAlg.value.0, early.value.0, auth.value.0, Stowed(alpn.value.0)), alpn.value.1))
  }

  function Assemble(h: HeadFields, p: PeerFields, x: SecretFields, certs: Option<seq<seq<byte>>>, e: ExtraFields): SslSession
  {
    SslSession(h.sslVersion, Some(h.cipher), h.sessionId, h.masterKey, h.time, h.timeout, certs, p.sidCtx, p.verifyResult,
               p.pskIdentity, p.tickLifetimeHint, p.tick, x.peerSha256, x.originalHandshakeHash, x.sctList, x.ocspResponse,
               x.extendedMasterSecret, x.groupId, e.ticketAgeAdd, e.isServer, e.peerSignatureAlgorithm,
               e.ticketMaxEarlyData, e.authTimeout, e.earlyAlpn)
  }

  function ParseBody(ciphers: set<nat>, s: seq<byte>): Option<SslSession> {
    var h := ParseHead(ciphers, s);
    if h.None? then None
    else
      var p := ParsePeer(h.value.1);
      if p.None? then None
      else
        var x := ParseSecrets(p.value.1);
        if x.None? then None
        else
          var certs := ParseCerts(p.value.0.leaf, x.value.0.chain);
          if certs.None? then None
          else
            var e := ParseExtras(x.value.1, h.value.0.timeout);
            if e.None? || |e.value.1| != 0 then None
            else Some(Assemble(h.value.0, p.value.0, x.value.0, certs.value, e.value.0))
  }

  /** A session, and what follows it. */
  function Parse(ciphers: set<nat>, s: seq<byte>): Option<(SslSession, Rest)> {
    var e := Get(s, SEQUENCE);
    if e.None? then None
    else
      var session := ParseBody(ciphers, e.value.0);
      if session.None? then None else Some((session.value, e.value.1))
  }
}
