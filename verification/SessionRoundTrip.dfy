/** Parsing inverts serialization exactly for the sessions in normal form. */
module SessionRoundTrip {
  import opened Bits
  import opened Bytes
  import opened Der
  import opened Session

  /** One whole element. */
  predicate IsElement(c: seq<byte>) { GetElement(c).Some? && GetElement(c).value.2 == [] }

  predicate CertsNormal(certs: Option<seq<seq<byte>>>) {
    certs.Some? ==>
      && |certs.value| > 0 && |certs.value[0]| > 0
      && forall c <- certs.value[1..] :: IsElement(c)
  }

  /** Sizes and numbers in the bounds of their fields, and one way only to say that there
      is none of something. */
  predicate Normal(s: SslSession, ciphers: set<nat>) {
    && KnownVersion(s.sslVersion) && s.cipher.Some? && s.cipher.value <= UINT16_MAX && s.cipher.value in ciphers
    && |s.sessionId| <= MAX_SESSION_ID && |s.masterKey| <= MAX_MASTER_KEY
    && s.time < TWO_64 && s.timeout <= UINT32_MAX
    && CertsNormal(s.certs) && (s.peerSha256.Some? ==> s.certs.None? && |s.peerSha256.value| == SHA256_LENGTH)
    && |s.sidCtx| <= MAX_SID_CTX && 0 <= s.verifyResult <= LONG_MAX
    && 0 !in OrEmpty(s.pskIdentity) && s.tickLifetimeHint <= UINT32_MAX && s.tick == Stowed(s.tick)
    && |s.originalHandshakeHash| <= MAX_MD_SIZE && s.groupId <= UINT16_MAX
    && (s.ticketAgeAdd.Some? ==> s.ticketAgeAdd.value <= UINT32_MAX)
    && s.peerSignatureAlgorithm <= UINT16_MAX && s.ticketMaxEarlyData <= UINT32_MAX
    && s.authTimeout <= UINT32_MAX && s.earlyAlpn == Stowed(s.earlyAlpn)
  }

  /** What follows starts with a tag above [n], or is nothing. */
  predicate Above(s: seq<byte>, n: nat) { |s| > 0 ==> s[0] as nat > 0xa0 + n }

  lemma TlvSize(tag: byte, content: seq<byte>)
    ensures |Tlv(tag, content)| >= |content| + 2
  {
  }

  // Reading one optional field back.

  lemma ReadField(n: nat, content: Option<seq<byte>>, tail: seq<byte>)
    requires 0 < n < 31 && Above(tail, n) && |OptionalField(n, content)| <= MAX_LENGTH
    ensures GetOptional(OptionalField(n, content) + tail, n) == Some((content, tail))
    ensures Above(OptionalField(n, content) + tail, n - 1)
  {
    hide GetElement, Get;
    if content.Some? {
      TlvSize(Context(n), content.value);
      ElementRoundTrip(Context(n), content.value, tail);
    } else {
      assert [] + tail == tail;
    }
  }

  lemma ReadOctets(n: nat, bs: Option<seq<byte>>, tail: seq<byte>)
    requires 0 < n < 31 && Above(tail, n) && |OptionalField(n, Wrapped(bs))| <= MAX_LENGTH
    ensures OptionalOctets(OptionalField(n, Wrapped(bs)) + tail, n) == Some((bs, tail))
    ensures Above(OptionalField(n, Wrapped(bs)) + tail, n - 1)
  {
    hide GetElement, Get, GetOptional;
    ReadField(n, Wrapped(bs), tail);
    if bs.Some? {
      TlvSize(Context(n), Octets(bs.value));
      TlvSize(OCTETSTRING, bs.value);
      ElementRoundTrip(OCTETSTRING, bs.value, []);
      assert Octets(bs.value) + [] == Octets(bs.value);
    }
  }

  lemma ReadUint(n: nat, v: nat, dflt: nat, max: nat, tail: seq<byte>)
    requires 0 < n < 31 && Above(tail, n) && v <= max < TWO_64 && dflt <= max
    ensures OptionalUint(OptionalField(n, When(v != dflt, Uint(v))) + tail, n, dflt, max) == Some((v, tail))
    ensures Above(OptionalField(n, When(v != dflt, Uint(v))) + tail, n - 1)
  {
    UintRoundTrip(v, []);
    UintIsShort(v);
    hide GetElement, Get, GetOptional, GetUint, UintContent, Uint;
    ReadField(n, When(v != dflt, Uint(v)), tail);
    assert Uint(v) + [] == Uint(v);
  }

  lemma UintIsShort(v: nat)
    requires v < TWO_64
    ensures |Uint(v)| <= 11
    ensures forall n | 0 <= n < 31 :: |OptionalField(n, Some(Uint(v)))| <= 13
  {
    UintRoundTrip(v, []);
  }

  lemma ReadBool(n: nat, b: bool, dflt: bool, tail: seq<byte>)
    requires 0 < n < 31 && Above(tail, n)
    ensures OptionalBool(OptionalField(n, When(b != dflt, Bool(b))) + tail, n, dflt) == Some((b, tail))
    ensures Above(OptionalField(n, When(b != dflt, Bool(b))) + tail, n - 1)
  {
    var content: seq<byte> := [if b then 0xff else 0];
    ElementRoundTrip(BOOLEAN, content, []);
    hide GetElement, Get, GetOptional;
    ReadField(n, When(b != dflt, Bool(b)), tail);
    assert Bool(b) + [] == Bool(b);
  }

  lemma Reassociate(a: seq<byte>, b: seq<byte>, c: seq<byte>)
    ensures (a + b) + c == a + (b + c)
  {
  }

  // The parts of a session, from the last field to the first.

  function ExtraOf(s: SslSession): ExtraFields {
    ExtraFields(s.ticketAgeAdd, s.isServer, s.peerSignatureAlgorithm, s.ticketMaxEarlyData, s.authTimeout, s.earlyAlpn)
  }

  lemma AgeAddRoundTrip(v: nat)
    requires v <= UINT32_MAX
    ensures Be(BeBytes(v, 4)) == v
  {
    SmallPowers();
    BeRoundTrip(v, 4);
  }

  function AgeAdd(s: SslSession): Option<seq<byte>> {
    if s.ticketAgeAdd.None? then None else Some(BeBytes(s.ticketAgeAdd.value, 4))
  }

  lemma ReadExtras(s: SslSession, ciphers: set<nat>, tail: seq<byte>)
    requires Normal(s, ciphers) && |Extras(s)| <= MAX_LENGTH && Above(tail, 26)
    ensures ParseExtras(Extras(s) + tail, s.timeout) == Some((ExtraOf(s), tail))
    ensures Above(Extras(s) + tail, 20)
  {
    hide OptionalOctets, OptionalUint, OptionalBool, OptionalField, Uint, Bool, BeBytes, Be;
    var alpn := OptionalField(26, Wrapped(s.earlyAlpn));
    ReadOctets(26, s.earlyAlpn, tail);
    var f26 := alpn + tail;
    ReadUint(25, s.authTimeout, s.timeout, UINT32_MAX, f26);
    var f25 := OptionalField(25, When(s.timeout != s.authTimeout, Uint(s.authTimeout))) + f26;
    ReadUint(24, s.ticketMaxEarlyData, 0, UINT32_MAX, f25);
    var f24 := OptionalField(24, When(s.ticketMaxEarlyData != 0, Uint(s.ticketMaxEarlyData))) + f25;
    ReadUint(23, s.peerSignatureAlgorithm, 0, UINT16_MAX, f24);
    var f23 := OptionalField(23, When(s.peerSignatureAlgorithm != 0, Uint(s.peerSignatureAlgorithm))) + f24;
    ReadBool(22, s.isServer, true, f23);
    var f22 := OptionalField(22, When(!s.isServer, Bool(false))) + f23;
    ReadOctets(21, AgeAdd(s), f22);
    if s.ticketAgeAdd.Some? {
      AgeAddRoundTrip(s.ticketAgeAdd.value);
    }
    ExtrasParts(s, tail);
  }

  lemma ExtrasParts(s: SslSession, tail: seq<byte>)
    ensures Extras(s) + tail
         == OptionalField(21, if s.ticketAgeAdd.None? then None else Some(Octets(BeBytes(s.ticketAgeAdd.value, 4))))
            + (OptionalField(22, When(!s.isServer, Bool(false)))
            + (OptionalField(23, When(s.peerSignatureAlgorithm != 0, Uint(s.peerSignatureAlgorithm)))
            + (OptionalField(24, When(s.ticketMaxEarlyData != 0, Uint(s.ticketMaxEarlyData)))
            + (OptionalField(25, When(s.timeout != s.authTimeout, Uint(s.authTimeout)))
            + (OptionalField(26, Wrapped(s.earlyAlpn)) + tail)))))
  {
    hide OptionalField, Uint, Bool, BeBytes, Octets;
  }

  function SecretOf(s: SslSession): SecretFields {
    SecretFields(s.peerSha256, s.originalHandshakeHash, s.sctList, s.ocspResponse, s.extendedMasterSecret, s.groupId, Chain(s))
  }

  /** A field that is left out when it is empty. */
  lemma ReadNonEmpty(n: nat, bs: seq<byte>, tail: seq<byte>)
    requires 0 < n < 31 && Above(tail, n) && |OptionalField(n, When(|bs| > 0, Octets(bs)))| <= MAX_LENGTH
    ensures var r := OptionalOctets(OptionalField(n, When(|bs| > 0, Octets(bs))) + tail, n);
            r.Some? && OrEmpty(r.value.0) == bs && r.value.1 == tail
    ensures Above(OptionalField(n, When(|bs| > 0, Octets(bs))) + tail, n - 1)
  {
    hide OptionalOctets, OptionalField;
    ReadOctets(n, When(|bs| > 0, bs), tail);
  }

  lemma ReadSecrets(s: SslSession, ciphers: set<nat>, tail: seq<byte>)
    requires Normal(s, ciphers) && |Secrets(s)| <= MAX_LENGTH && Above(tail, 19)
    requires Chain(s).Some? ==> |Chain(s).value| > 0
    ensures ParseSecrets(Secrets(s) + tail) == Some((SecretOf(s), tail))
    ensures Above(Secrets(s) + tail, 12)
  {
    hide OptionalOctets, OptionalUint, OptionalBool, OptionalField, GetOptional, Uint, Bool, Octets, Chain;
    var chain := OptionalField(19, Chain(s));
    ReadField(19, Chain(s), tail);
    var g, f19 := OptionalField(18, When(s.groupId > 0, Uint(s.groupId))), chain + tail;
    ReadUint(18, s.groupId, 0, UINT16_MAX, f19);
    var ems, f18 := OptionalField(17, When(s.extendedMasterSecret, Bool(true))), g + f19;
    ReadBool(17, s.extendedMasterSecret, false, f18);
    var ocsp, f17 := OptionalField(16, Wrapped(s.ocspResponse)), ems + f18;
    ReadOctets(16, s.ocspResponse, f17);
    var sct, f16 := OptionalField(15, Wrapped(s.sctList)), ocsp + f17;
    ReadOctets(15, s.sctList, f16);
    var hash, f15 := OptionalField(14, When(|s.originalHandshakeHash| > 0, Octets(s.originalHandshakeHash))), sct + f16;
    ReadNonEmpty(14, s.originalHandshakeHash, f15);
    var sha, f14 := OptionalField(13, Wrapped(s.peerSha256)), hash + f15;
    ReadOctets(13, s.peerSha256, f14);
    assert Secrets(s) + tail == sha + f14;
  }

  function PeerOf(s: SslSession): PeerFields {
    PeerFields(Leaf(s), s.sidCtx, if s.verifyResult < 0 then 0 else s.verifyResult, s.pskIdentity,
               s.tickLifetimeHint, s.tick)
  }

  function HintAndTick(s: SslSession): seq<byte> {
    OptionalField(9, When(s.tickLifetimeHint > 0, Uint(s.tickLifetimeHint))) + OptionalField(10, Wrapped(s.tick))
  }

  lemma ReadTicket(s: SslSession, ciphers: set<nat>, tail: seq<byte>)
    requires Normal(s, ciphers) && Above(tail, 10)
    requires |OptionalField(8, Wrapped(s.pskIdentity))| <= MAX_LENGTH && |HintAndTick(s)| <= MAX_LENGTH
    ensures OptionalOctets(OptionalField(8, Wrapped(s.pskIdentity)) + (HintAndTick(s) + tail), 8)
         == Some((s.pskIdentity, HintAndTick(s) + tail))
    ensures OptionalUint(HintAndTick(s) + tail, 9, 0, UINT32_MAX)
         == Some((s.tickLifetimeHint, OptionalField(10, Wrapped(s.tick)) + tail))
    ensures OptionalOctets(OptionalField(10, Wrapped(s.tick)) + tail, 10) == Some((s.tick, tail))
    ensures GetOptional(OptionalField(8, Wrapped(s.pskIdentity)) + (HintAndTick(s) + tail), 6)
         == Some((None, OptionalField(8, Wrapped(s.pskIdentity)) + (HintAndTick(s) + tail)))
    ensures Above(OptionalField(8, Wrapped(s.pskIdentity)) + (HintAndTick(s) + tail), 7)
  {
    hide OptionalOctets, OptionalUint, OptionalField, GetOptional, Uint, Octets;
    var tick := OptionalField(10, Wrapped(s.tick));
    var hint := OptionalField(9, When(s.tickLifetimeHint > 0, Uint(s.tickLifetimeHint)));
    ReadOctets(10, s.tick, tail);
    Reassociate(hint, tick, tail);
    ReadUint(9, s.tickLifetimeHint, 0, UINT32_MAX, tick + tail);
    ReadOctets(8, s.pskIdentity, HintAndTick(s) + tail);
    NoHostName(OptionalField(8, Wrapped(s.pskIdentity)) + (HintAndTick(s) + tail));
  }

  function Verify(s: SslSession): seq<byte> {
    OptionalField(5, When(s.verifyResult != X509_V_OK, Uint(Unsigned(s.verifyResult))))
  }

  lemma ReadVerify(s: SslSession, tail: seq<byte>)
    requires 0 <= s.verifyResult <= LONG_MAX && Above(tail, 5)
    ensures OptionalUint(Verify(s) + tail, 5, 0, LONG_MAX) == Some((s.verifyResult, tail)) && Above(Verify(s) + tail, 4)
  {
    assert Unsigned(s.verifyResult) == s.verifyResult;
    hide OptionalUint, Uint;
    ReadUint(5, s.verifyResult, 0, LONG_MAX, tail);
  }

  lemma PeerParts(s: SslSession, tail: seq<byte>)
    ensures Peer(s, false) + tail
         == OptionalField(3, Leaf(s)) + (OptionalField(4, Some(Octets(s.sidCtx)))
            + (Verify(s) + (OptionalField(8, Wrapped(s.pskIdentity)) + (HintAndTick(s) + tail))))
    ensures |Peer(s, false)| == |OptionalField(3, Leaf(s))| + |OptionalField(4, Some(Octets(s.sidCtx)))|
            + |Verify(s)| + |OptionalField(8, Wrapped(s.pskIdentity))| + |HintAndTick(s)|
  {
    hide OptionalField, Leaf, Octets, Uint, Unsigned;
  }

  lemma ReadPeer(s: SslSession, ciphers: set<nat>, tail: seq<byte>)
    requires Normal(s, ciphers) && |Peer(s, false)| <= MAX_LENGTH && Above(tail, 10)
    ensures ParsePeer(Peer(s, false) + tail) == Some((PeerOf(s), tail))
    ensures Above(Peer(s, false) + tail, 2)
  {
    LeafNotEmpty(s, ciphers);
    PeerParts(s, tail);
    hide OptionalOctets, OptionalUint, OptionalField, GetOptional, Octets, Leaf, Verify, HintAndTick, Peer, KnownVersion;
    ReadTicket(s, ciphers, tail);
    var f8 := OptionalField(8, Wrapped(s.pskIdentity)) + (HintAndTick(s) + tail);
    ReadVerify(s, f8);
    ReadOctets(4, Some(s.sidCtx), Verify(s) + f8);
    ReadField(3, Leaf(s), OptionalField(4, Some(Octets(s.sidCtx))) + (Verify(s) + f8));
  }

  lemma LeafNotEmpty(s: SslSession, ciphers: set<nat>)
    requires Normal(s, ciphers)
    ensures Leaf(s).Some? ==> |Leaf(s).value| > 0
  {
  }

  lemma NoHostName(s: seq<byte>)
    requires Above(s, 7)
    ensures GetOptional(s, 6) == Some((None, s))
  {
  }

  // The fields in front.

  function HeadOf(s: SslSession): HeadFields
    requires s.cipher.Some?
  {
    HeadFields(s.sslVersion, s.cipher.value, s.sessionId, s.masterKey, s.time, s.timeout)
  }

  lemma ReadTaggedUint(n: nat, v: nat, max: nat, tail: seq<byte>)
    requires n < 31 && v <= max && v < TWO_64
    ensures TaggedUint(Tlv(Context(n), Uint(v)) + tail, n, max) == Some((v, tail))
  {
    UintRoundTrip(v, []);
    UintIsShort(v);
    ElementRoundTrip(Context(n), Uint(v), tail);
    hide Get, GetElement, GetUint, Uint;
    assert Uint(v) + [] == Uint(v);
  }

  lemma ReadCipher(ciphers: set<nat>, value: nat, tail: seq<byte>)
    requires value <= UINT16_MAX && value in ciphers
    ensures ParseCipher(ciphers, Octets(BeBytes(value, 2)) + tail) == Some((value, tail))
  {
    SmallPowers();
    BeRoundTrip(value, 2);
    ElementRoundTrip(OCTETSTRING, BeBytes(value, 2), tail);
    hide Get, GetElement, BeBytes, Be;
  }

  lemma ReadVersion(version: nat, tail: seq<byte>)
    requires KnownVersion(version)
    ensures ParseVersion(Uint(K_VERSION) + (Uint(version) + tail)) == Some((version, tail))
  {
    UintRoundTrip(K_VERSION, Uint(version) + tail);
    UintRoundTrip(version, tail);
    hide GetUint, Uint;
  }

  lemma ReadBounded(bs: seq<byte>, max: nat, tail: seq<byte>)
    requires |bs| <= max <= MAX_LENGTH
    ensures BoundedOctets(Octets(bs) + tail, max) == Some((bs, tail))
  {
    hide Get, GetElement;
    ElementRoundTrip(OCTETSTRING, bs, tail);
  }

  lemma HeadParts(s: SslSession, tail: seq<byte>)
    requires s.cipher.Some?
    ensures Head(s, false) + tail
         == Uint(K_VERSION) + (Uint(s.sslVersion) + (Octets(BeBytes(s.cipher.value, 2)) + (Octets(s.sessionId)
            + (Octets(s.masterKey) + (Tlv(Context(1), Uint(s.time)) + (Tlv(Context(2), Uint(s.timeout)) + tail))))))
  {
    hide Uint, Octets, Tlv, BeBytes;
  }

  lemma ReadHead(s: SslSession, ciphers: set<nat>, tail: seq<byte>)
    requires Normal(s, ciphers)
    ensures ParseHead(ciphers, Head(s, false) + tail) == Some((HeadOf(s), tail))
  {
    HeadParts(s, tail);
    hide ParseVersion, ParseCipher, TaggedUint, BoundedOctets, Tlv, Octets, Uint, BeBytes, Head, KnownVersion;
    var timeout := Tlv(Context(2), Uint(s.timeout)) + tail;
    ReadTaggedUint(2, s.timeout, UINT32_MAX, tail);
    ReadTaggedUint(1, s.time, TWO_64, timeout);
    var time := Tlv(Context(1), Uint(s.time)) + timeout;
    ReadBounded(s.masterKey, MAX_MASTER_KEY, time);
    var key := Octets(s.masterKey) + time;
    ReadBounded(s.sessionId, MAX_SESSION_ID, key);
    var id := Octets(s.sessionId) + key;
    ReadCipher(ciphers, s.cipher.value, id);
    ReadVersion(s.sslVersion, Octets(BeBytes(s.cipher.value, 2)) + id);
  }

  // The certificates.

  lemma LengthExtends(s: seq<byte>, more: seq<byte>)
    requires GetLength(s).Some?
    ensures GetLength(s + more) == Some((GetLength(s).value.0, GetLength(s).value.1 + more))
  {
    hide Be;
    if s[0] < 0x80 {
      assert (s + more)[1..] == s[1..] + more;
    } else {
      var n := s[0] as nat - 0x80;
      assert (s + more)[1..1 + n] == s[1..1 + n] && (s + more)[1 + n..] == s[1 + n..] + more;
    }
  }

  /** An element is the same element whatever follows it. */
  lemma ElementExtends(s: seq<byte>, more: seq<byte>)
    requires GetElement(s).Some?
    ensures var e := GetElement(s).value; GetElement(s + more) == Some((e.0, e.1, e.2 + more))
  {
    LengthExtends(s[1..], more);
    hide GetLength;
    assert (s + more)[1..] == s[1..] + more;
    var len := GetLength(s[1..]).value;
    assert (len.1 + more)[..len.0] == len.1[..len.0] && (len.1 + more)[len.0..] == len.1[len.0..] + more;
  }

  lemma {:induction false} ReadChain(certs: seq<seq<byte>>)
    requires forall c <- certs :: IsElement(c)
    ensures ParseChain(Concat(certs)) == Some(certs)
    ensures |certs| > 0 ==> |Concat(certs)| > 0
  {
    hide ParseChain, IsElement;
    if |certs| == 0 {
      EmptyChainParses();
    } else {
      assert certs[0] in certs && certs == [certs[0]] + certs[1..];
      ReadChain(certs[1..]);
      ChainStep(certs[0], Concat(certs[1..]));
    }
  }

  lemma ChainStep(first: seq<byte>, rest: seq<byte>)
    requires IsElement(first) && ParseChain(rest).Some?
    ensures |first| > 0 && ParseChain(first + rest) == Some([first] + ParseChain(rest).value)
  {
    ElementExtends(first, rest);
    ElementNotEmpty(first);
    hide GetElement, GetLength;
    assert [] + rest == rest && (first + rest)[..|first|] == first;
  }

  lemma ElementNotEmpty(s: seq<byte>)
    requires GetElement(s).Some?
    ensures |s| > 0
  {
  }

  lemma ReadCerts(s: SslSession, ciphers: set<nat>)
    requires Normal(s, ciphers)
    ensures ParseCerts(Leaf(s), Chain(s)) == Some(s.certs)
    ensures Chain(s).Some? ==> |Chain(s).value| > 0
  {
    if s.certs.Some? {
      var certs := s.certs.value;
      ReadChain(certs[1..]);
      hide ParseChain, Concat;
      assert [certs[0]] + certs[1..] == certs;
      assert |certs| == 1 ==> certs[1..] == [] && OrEmpty(Chain(s)) == [];
      EmptyChainParses();
    }
  }

  lemma EmptyChainParses()
    ensures ParseChain([]) == Some([])
  {
  }

  // Whole sessions.

  /** The fields are read back, whatever follows them that does not pass for one. */
  lemma ReadFields(s: SslSession, ciphers: set<nat>, more: seq<byte>)
    requires Normal(s, ciphers) && |Body(s, false)| <= MAX_LENGTH && Above(more, 26)
    ensures ParseBody(ciphers, Body(s, false) + more) == if more == [] then Some(s) else None
  {
    hide ParseHead, ParsePeer, ParseSecrets, ParseExtras, ParseCerts, Head, Peer, Secrets, Extras, Leaf, Chain, KnownVersion;
    var extras := Extras(s) + more;
    ReadExtras(s, ciphers, more);
    ReadCerts(s, ciphers);
    ReadSecrets(s, ciphers, extras);
    ReadPeer(s, ciphers, Secrets(s) + extras);
    ReadHead(s, ciphers, Peer(s, false) + (Secrets(s) + extras));
    assert Body(s, false) + more == Head(s, false) + (Peer(s, false) + (Secrets(s) + extras));
  }

  lemma ReadBody(s: SslSession, ciphers: set<nat>)
    requires Normal(s, ciphers) && |Body(s, false)| <= MAX_LENGTH
    ensures ParseBody(ciphers, Body(s, false)) == Some(s)
  {
    hide ParseBody, Body;
    ReadFields(s, ciphers, []);
    assert Body(s, false) + [] == Body(s, false);
  }

  /** A session with a field behind those this version knows is refused. */
  lemma LaterFieldRefused(s: SslSession, ciphers: set<nat>, more: seq<byte>, rest: seq<byte>)
    requires Normal(s, ciphers) && Serialize(s, false).Some? && |Body(s, false) + more| <= MAX_LENGTH
    requires |more| > 0 && more[0] as nat > 0xa0 + 26
    ensures Parse(ciphers, Tlv(SEQUENCE, Body(s, false) + more) + rest).None?
  {
    hide ParseBody, Body, GetElement;
    ReadFields(s, ciphers, more);
    ElementRoundTrip(SEQUENCE, Body(s, false) + more, rest);
  }

  // What serialization always has room for.

  function Len(bs: Option<seq<byte>>): nat { if bs.None? then 0 else |bs.value| }

  function Total(parts: seq<seq<byte>>): nat { if |parts| == 0 then 0 else |parts[0]| + Total(parts[1..]) }

  /** The length of all the strings a session holds. */
  function FieldBytes(s: SslSession): nat {
    |s.sessionId| + |s.masterKey| + (if s.certs.None? then 0 else Total(s.certs.value)) + |s.sidCtx|
    + Len(s.pskIdentity) + Len(s.tick) + Len(s.peerSha256) + |s.originalHandshakeHash| + Len(s.sctList)
    + Len(s.ocspResponse) + Len(s.earlyAlpn)
  }

  // more than all the tags, lengths and numbers of a session
  const FRAMING: nat := 400

  /** The session has a cipher, numbers of at most 64 bits, and strings that fit. */
  predicate Fits(s: SslSession) {
    && s.cipher.Some? && s.sslVersion < TWO_64 && s.time < TWO_64 && s.timeout < TWO_64 && s.tickLifetimeHint < TWO_64
    && s.groupId < TWO_64 && s.peerSignatureAlgorithm < TWO_64 && s.ticketMaxEarlyData < TWO_64
    && s.authTimeout < TWO_64 && FieldBytes(s) + FRAMING <= MAX_LENGTH
  }

  lemma TlvAtMost(tag: byte, content: seq<byte>)
    ensures |Tlv(tag, content)| <= |content| + 6
  {
  }

  lemma FieldAtMost(n: nat, content: Option<seq<byte>>)
    requires n < 31
    ensures |OptionalField(n, content)| <= (if content.None? then 0 else Len(content) + 6)
  {
    if content.Some? {
      TlvAtMost(Context(n), content.value);
    }
  }

  lemma WrappedAtMost(n: nat, bs: Option<seq<byte>>)
    requires n < 31
    ensures |OptionalField(n, Wrapped(bs))| <= Len(bs) + 12
  {
    FieldAtMost(n, Wrapped(bs));
    if bs.Some? {
      TlvAtMost(OCTETSTRING, bs.value);
    }
  }

  lemma NumberAtMost(n: nat, present: bool, v: nat)
    requires n < 31 && v < TWO_64
    ensures |OptionalField(n, When(present, Uint(v)))| <= 17
  {
    UintIsShort(v);
    FieldAtMost(n, When(present, Uint(v)));
  }

  lemma HeadAtMost(s: SslSession, forTicket: bool)
    requires s.cipher.Some? && s.sslVersion < TWO_64 && s.time < TWO_64 && s.timeout < TWO_64
    ensures |Head(s, forTicket)| <= |s.sessionId| + |s.masterKey| + 100
  {
    hide Uint, Tlv, BeBytes;
    UintIsShort(K_VERSION);
    UintIsShort(s.sslVersion);
    UintIsShort(s.time);
    UintIsShort(s.timeout);
    TlvAtMost(OCTETSTRING, BeBytes(s.cipher.value, 2));
    TlvAtMost(OCTETSTRING, if forTicket then [] else s.sessionId);
    TlvAtMost(OCTETSTRING, s.masterKey);
    TlvAtMost(Context(1), Uint(s.time));
    TlvAtMost(Context(2), Uint(s.timeout));
  }

  lemma {:induction false} ConcatLength(parts: seq<seq<byte>>)
    ensures |Concat(parts)| == Total(parts)
  {
    if |parts| > 0 {
      ConcatLength(parts[1..]);
    }
  }

  lemma CertsAtMost(s: SslSession)
    ensures Len(Leaf(s)) + Len(Chain(s)) <= (if s.certs.None? then 0 else Total(s.certs.value))
  {
    if s.certs.Some? && |s.certs.value| > 0 {
      ConcatLength(s.certs.value[1..]);
    }
  }

  lemma PeerAtMost(s: SslSession, forTicket: bool)
    requires s.tickLifetimeHint < TWO_64
    ensures |Peer(s, forTicket)| <= Len(Leaf(s)) + |s.sidCtx| + Len(s.pskIdentity) + Len(s.tick) + 80
  {
    FieldAtMost(3, Leaf(s));
    WrappedAtMost(4, Some(s.sidCtx));
    NumberAtMost(5, s.verifyResult != X509_V_OK, Unsigned(s.verifyResult));
    WrappedAtMost(8, s.pskIdentity);
    NumberAtMost(9, s.tickLifetimeHint > 0, s.tickLifetimeHint);
    WrappedAtMost(10, if forTicket then None else s.tick);
    hide OptionalField, Uint, Leaf, Octets;
  }

  lemma SecretsAtMost(s: SslSession)
    requires s.groupId < TWO_64
    ensures |Secrets(s)| <= Len(s.peerSha256) + |s.originalHandshakeHash| + Len(s.sctList) + Len(s.ocspResponse)
                            + Len(Chain(s)) + 90
  {
    WrappedAtMost(13, s.peerSha256);
    WrappedAtMost(14, if |s.originalHandshakeHash| > 0 then Some(s.originalHandshakeHash) else None);
    WrappedAtMost(15, s.sctList);
    WrappedAtMost(16, s.ocspResponse);
    TlvAtMost(BOOLEAN, [0xff]);
    FieldAtMost(17, When(s.extendedMasterSecret, Bool(true)));
    NumberAtMost(18, s.groupId > 0, s.groupId);
    FieldAtMost(19, Chain(s));
    hide OptionalField, Uint, Chain, Tlv;
  }

  lemma ExtrasAtMost(s: SslSession)
    requires s.peerSignatureAlgorithm < TWO_64 && s.ticketMaxEarlyData < TWO_64 && s.authTimeout < TWO_64
    ensures |Extras(s)| <= Len(s.earlyAlpn) + 100
  {
    WrappedAtMost(21, if s.ticketAgeAdd.None? then None else Some(BeBytes(s.ticketAgeAdd.value, 4)));
    TlvAtMost(BOOLEAN, [0]);
    FieldAtMost(22, When(!s.isServer, Bool(false)));
    NumberAtMost(23, s.peerSignatureAlgorithm != 0, s.peerSignatureAlgorithm);
    NumberAtMost(24, s.ticketMaxEarlyData != 0, s.ticketMaxEarlyData);
    NumberAtMost(25, s.timeout != s.authTimeout, s.authTimeout);
    WrappedAtMost(26, s.earlyAlpn);
    hide OptionalField, Uint, Tlv, BeBytes;
  }

  /** Every session that fits is serialized, for a ticket too. */
  lemma FitsSerializes(s: SslSession, forTicket: bool)
    requires Fits(s)
    ensures Serialize(s, forTicket).Some?
  {
    HeadAtMost(s, forTicket);
    PeerAtMost(s, forTicket);
    SecretsAtMost(s);
    ExtrasAtMost(s);
    CertsAtMost(s);
    hide Head, Peer, Secrets, Extras, Leaf, Chain, Total;
  }

  lemma NormalFits(s: SslSession, ciphers: set<nat>)
    requires Normal(s, ciphers) && FieldBytes(s) + FRAMING <= MAX_LENGTH
    ensures Fits(s)
  {
    hide CertsNormal, KnownVersion, FieldBytes, Stowed;
    assert s.sslVersion < TWO_64 by { KnownIsSmall(s.sslVersion); }
  }

  lemma KnownIsSmall(v: nat)
    requires KnownVersion(v)
    ensures v < TWO_64
  {
  }

  /** A session in normal form is serialized, if its strings fit, and comes back as it was. */
  lemma SessionRoundTrip(s: SslSession, ciphers: set<nat>, rest: seq<byte>)
    requires Normal(s, ciphers)
    ensures FieldBytes(s) + FRAMING <= MAX_LENGTH ==> Serialize(s, false).Some?
    ensures Serialize(s, false).Some? ==> Parse(ciphers, Serialize(s, false).value + rest) == Some((s, rest))
  {
    hide Body, ParseBody, Get, GetElement, Tlv, Normal, Fits, FieldBytes;
    if FieldBytes(s) + FRAMING <= MAX_LENGTH {
      NormalFits(s, ciphers);
      FitsSerializes(s, false);
    }
    if Serialize(s, false).Some? {
      ReadBody(s, ciphers);
      ElementRoundTrip(SEQUENCE, Body(s, false), rest);
    }
  }

  /** What of a session goes into a ticket. */
  function ForTicket(s: SslSession): SslSession { s.(sessionId := [], tick := None) }

  lemma TicketIsSession(s: SslSession)
    ensures Serialize(s, true) == Serialize(ForTicket(s), false)
  {
    hide OptionalField, Tlv, Uint, Octets, Bool, BeBytes;
  }

  lemma TicketNormal(s: SslSession, ciphers: set<nat>)
    requires Normal(s, ciphers)
    ensures Normal(ForTicket(s), ciphers)
  {
    hide CertsNormal, KnownVersion;
  }

  /** What is serialized for a ticket comes back as the session without its identity and
      without the ticket it came with. */
  lemma TicketRoundTrip(s: SslSession, ciphers: set<nat>, rest: seq<byte>)
    requires Normal(s, ciphers)
    ensures FieldBytes(s) + FRAMING <= MAX_LENGTH ==> Serialize(s, true).Some?
    ensures Serialize(s, true).Some? ==> Parse(ciphers, Serialize(s, true).value + rest) == Some((ForTicket(s), rest))
  {
    hide Serialize, Parse, Normal, Fits, FieldBytes, ForTicket;
    TicketIsSession(s);
    TicketNormal(s, ciphers);
    if FieldBytes(s) + FRAMING <= MAX_LENGTH {
      NormalFits(s, ciphers);
      FitsSerializes(s, true);
    }
    SessionRoundTrip(ForTicket(s), ciphers, rest);
  }

  // What parsing can yield.

  /** Serialization leaves the certificates out when it keeps the digest of the leaf. */
  function Kept(s: SslSession): SslSession { if s.peerSha256.Some? then s.(certs := None) else s }

  lemma LengthIsPrefix(s: seq<byte>, k: nat)
    requires GetLength(s).Some? && k <= |GetLength(s).value.1|
    ensures var len := GetLength(s).value; GetLength(s[..|s| - k]) == Some((len.0, len.1[..|len.1| - k]))
  {
    hide Be;
    var t := s[..|s| - k];
    if s[0] < 0x80 {
      assert t[1..] == s[1..][..|s| - 1 - k];
    } else {
      var n := s[0] as nat - 0x80;
      assert t[1..1 + n] == s[1..1 + n] && t[1 + n..] == s[1 + n..][..|s| - 1 - n - k];
    }
  }

  lemma ElementIsWhole(s: seq<byte>)
    requires GetElement(s).Some?
    ensures IsElement(s[..|s| - |GetElement(s).value.2|])
  {
    var len, rest := GetLength(s[1..]).value, GetElement(s).value.2;
    var t := s[..|s| - |rest|];
    LengthIsPrefix(s[1..], |rest|);
    hide GetLength;
    assert t[1..] == s[1..][..|s| - 1 - |rest|];
  }

  lemma {:induction false} ChainIsElements(s: seq<byte>)
    requires ParseChain(s).Some?
    ensures forall c <- ParseChain(s).value :: IsElement(c)
    decreases |s|
  {
    if |s| > 0 {
      ElementIsWhole(s);
      ChainIsElements(GetElement(s).value.2);
      hide GetElement, IsElement;
    }
  }

  lemma {:induction false} BeIsSmall(bs: seq<byte>)
    requires |bs| <= 4
    ensures Be(bs) <= UINT32_MAX && (|bs| <= 2 ==> Be(bs) <= UINT16_MAX)
  {
    BeBelow(bs);
    SmallPowers();
    Pow2Monotone(8 * |bs|, 32);
    if |bs| <= 2 {
      Pow2Monotone(8 * |bs|, 16);
    }
  }

  lemma HeadInBounds(ciphers: set<nat>, s: seq<byte>)
    requires ParseHead(ciphers, s).Some?
    ensures var h := ParseHead(ciphers, s).value.0;
            && KnownVersion(h.sslVersion) && h.cipher in ciphers && h.cipher <= UINT16_MAX
            && |h.sessionId| <= MAX_SESSION_ID && |h.masterKey| <= MAX_MASTER_KEY && h.time < TWO_64 && h.timeout <= UINT32_MAX
  {
    hide Get, GetElement, Be, ParseUint, BoundedOctets, ParseVersion, ParseCipher, TaggedUint, KnownVersion;
    var version := ParseVersion(s);
    VersionInBounds(s);
    CipherInBounds(ciphers, version.value.1);
    var cipher := ParseCipher(ciphers, version.value.1);
    OctetsInBounds(cipher.value.1, MAX_SESSION_ID);
    var id := BoundedOctets(cipher.value.1, MAX_SESSION_ID);
    OctetsInBounds(id.value.1, MAX_MASTER_KEY);
    var key := BoundedOctets(id.value.1, MAX_MASTER_KEY);
    TaggedInBounds(key.value.1, 1, TWO_64);
    TaggedInBounds(TaggedUint(key.value.1, 1, TWO_64).value.1, 2, UINT32_MAX);
  }

  lemma VersionInBounds(s: seq<byte>)
    ensures ParseVersion(s).Some? ==> KnownVersion(ParseVersion(s).value.0)
  {
  }

  lemma CipherInBounds(ciphers: set<nat>, s: seq<byte>)
    ensures var c := ParseCipher(ciphers, s); c.Some? ==> c.value.0 in ciphers && c.value.0 <= UINT16_MAX
  {
    if ParseCipher(ciphers, s).Some? {
      BeIsSmall(Get(s, OCTETSTRING).value.0);
    }
  }

  lemma OctetsInBounds(s: seq<byte>, max: nat)
    ensures BoundedOctets(s, max).Some? ==> |BoundedOctets(s, max).value.0| <= max
  {
  }

  lemma TaggedInBounds(s: seq<byte>, n: nat, max: nat)
    requires n < 31
    ensures TaggedUint(s, n, max).Some? ==> TaggedUint(s, n, max).value.0 <= max && TaggedUint(s, n, max).value.0 < TWO_64
  {
    hide GetElement, Be;
  }

  lemma UintInBounds(s: seq<byte>, n: nat, dflt: nat, max: nat)
    requires n < 31
    ensures OptionalUint(s, n, dflt, max).Some? ==> OptionalUint(s, n, dflt, max).value.0 <= max
  {
    hide GetOptional, GetUint;
  }

  lemma ExtrasInBounds(s: seq<byte>, timeout: nat)
    requires ParseExtras(s, timeout).Some?
    ensures var e := ParseExtras(s, timeout).value.0;
            && (e.ticketAgeAdd.Some? ==> e.ticketAgeAdd.value <= UINT32_MAX) && e.peerSignatureAlgorithm <= UINT16_MAX
            && e.ticketMaxEarlyData <= UINT32_MAX && e.authTimeout <= UINT32_MAX && e.earlyAlpn == Stowed(e.earlyAlpn)
  {
    hide OptionalOctets, OptionalUint, OptionalBool, Be;
    var age := OptionalOctets(s, 21);
    if age.value.0.Some? {
      BeIsSmall(age.value.0.value);
    }
    var server := OptionalBool(age.value.1, 22, true);
    UintInBounds(server.value.1, 23, 0, UINT16_MAX);
    var sigAlg := OptionalUint(server.value.1, 23, 0, UINT16_MAX);
    UintInBounds(sigAlg.value.1, 24, 0, UINT32_MAX);
    var early := OptionalUint(sigAlg.value.1, 24, 0, UINT32_MAX);
    UintInBounds(early.value.1, 25, timeout, UINT32_MAX);
  }

  lemma PeerInBounds(s: seq<byte>)
    requires ParsePeer(s).Some?
    ensures var p := ParsePeer(s).value.0;
            && (p.leaf.Some? ==> |p.leaf.value| > 0) && |p.sidCtx| <= MAX_SID_CTX && p.verifyResult <= LONG_MAX
            && 0 !in OrEmpty(p.pskIdentity) && p.tickLifetimeHint <= UINT32_MAX && p.tick == Stowed(p.tick)
  {
    hide OptionalOctets, OptionalUint, GetOptional;
    var sidCtx := OptionalOctets(GetOptional(s, 3).value.1, 4);
    UintInBounds(sidCtx.value.1, 5, 0, LONG_MAX);
    var verify := OptionalUint(sidCtx.value.1, 5, 0, LONG_MAX);
    var psk := OptionalOctets(GetOptional(verify.value.1, 6).value.1, 8);
    UintInBounds(psk.value.1, 9, 0, UINT32_MAX);
  }

  lemma SecretsInBounds(s: seq<byte>)
    requires ParseSecrets(s).Some?
    ensures var x := ParseSecrets(s).value.0;
            && (x.peerSha256.Some? ==> |x.peerSha256.value| == SHA256_LENGTH)
            && |x.originalHandshakeHash| <= MAX_MD_SIZE && x.groupId <= UINT16_MAX
  {
    hide OptionalOctets, OptionalUint, OptionalBool, GetOptional;
    var ocsp := OptionalOctets(OptionalOctets(OptionalOctets(OptionalOctets(s, 13).value.1, 14).value.1, 15).value.1, 16);
    UintInBounds(OptionalBool(ocsp.value.1, 17, false).value.1, 18, 0, UINT16_MAX);
  }

  lemma CertsInBounds(leaf: Option<seq<byte>>, chain: Option<seq<byte>>)
    requires ParseCerts(leaf, chain).Some? && (leaf.Some? ==> |leaf.value| > 0)
    ensures CertsNormal(ParseCerts(leaf, chain).value)
  {
    if leaf.Some? {
      ChainIsElements(OrEmpty(chain));
      hide ParseChain, IsElement;
      var more := ParseChain(OrEmpty(chain)).value;
      assert ([leaf.value] + more)[1..] == more;
    }
  }

  /** Whatever is parsed is in normal form, but for certificates next to a digest. */
  lemma ParsedIsNormal(ciphers: set<nat>, b: seq<byte>)
    ensures Parse(ciphers, b).Some? ==> Normal(Kept(Parse(ciphers, b).value.0), ciphers)
  {
    if Parse(ciphers, b).None? {
      return;
    }
    hide Get, GetElement, ParseHead, ParsePeer, ParseSecrets, ParseExtras, ParseCerts;
    hide KnownVersion, CertsNormal, Stowed, OrEmpty;
    var s := Get(b, SEQUENCE).value.0;
    var h := ParseHead(ciphers, s);
    HeadInBounds(ciphers, s);
    var p := ParsePeer(h.value.1);
    PeerInBounds(h.value.1);
    var x := ParseSecrets(p.value.1);
    SecretsInBounds(p.value.1);
    CertsInBounds(p.value.0.leaf, x.value.0.chain);
    NoCertsNormal();
    ExtrasInBounds(x.value.1, h.value.0.timeout);
  }

  lemma NoCertsNormal()
    ensures CertsNormal(None)
  {
  }

  /** A session that comes back as it was is in normal form. */
  lemma BackIsNormal(s: SslSession, ciphers: set<nat>)
    requires Serialize(s, false).Some? && Parse(ciphers, Serialize(s, false).value) == Some((s, []))
    ensures Normal(s, ciphers)
  {
    hide Serialize, Parse, Normal, FieldBytes, Kept;
    var b := Serialize(s, false).value;
    ParsedIsNormal(ciphers, b);
    SameWithoutCerts(s);
    SessionRoundTrip(Kept(s), ciphers, []);
    assert b + [] == b;
  }

  /** Sessions come back as they were exactly if they are in normal form; those that fit
      are serialized. */
  lemma RoundTripIffNormal(s: SslSession, ciphers: set<nat>)
    requires Serialize(s, false).Some? || Fits(s)
    ensures Serialize(s, false).Some?
    ensures Parse(ciphers, Serialize(s, false).value) == Some((s, [])) <==> Normal(s, ciphers)
  {
    hide FieldBytes, Fits, Serialize, Parse, Normal;
    if Fits(s) {
      FitsSerializes(s, false);
    }
    var b := Serialize(s, false).value;
    if Normal(s, ciphers) {
      SessionRoundTrip(s, ciphers, []);
      assert b + [] == b;
    } else if Parse(ciphers, b) == Some((s, [])) {
      BackIsNormal(s, ciphers);
    }
  }

  lemma SameWithoutCerts(s: SslSession)
    ensures Serialize(Kept(s), false) == Serialize(s, false)
  {
    hide OptionalField, Tlv, Uint, Octets, Bool, BeBytes;
  }
}
