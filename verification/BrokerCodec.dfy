/**
 The broker's packets: REGISTER, the two NOTIFY payloads and the NOTIFY envelope.
 Builders pad or cut their byte fields to size; parsers read at fixed offsets and
 ignore what follows, except that a NOTIFY's sealed part is the rest of the packet.
 */
module BrokerCodec {
  import opened Encoding
  import opened Wrappers

  const TOKEN_SIZE := 16
  const KEY_SIZE := 32
  const IPV4_SIZE := 4
  const NONCE_SIZE := 24
  const REGISTER_SIZE := 60
  const NOTIFY_HEADER_SIZE := 38
  const PEER_MATCHED_SIZE := 55
  const TOKEN_ASSIGNED_SIZE := 21

  const MAGIC: Bytes := Ascii("KBRK")

  datatype Error = ShortPacket | BadMagic | BadVersion | BadOpcode

  /** padOrTruncate. */
  function Sized(b: Bytes, n: nat): (r: Bytes)
    ensures |r| == n
    ensures |b| == n ==> r == b
  {
    if |b| >= n then b[..n] else b + seq<Byte>(n - |b|, _ => 0)
  }

  /** net.IP.To4: a 4-byte address, or a 16-byte one that wraps it. */
  function To4(ip: Bytes): (r: Option<Bytes>)
    ensures r.Some? ==> |r.value| == IPV4_SIZE
  {
    if |ip| == 4 then Some(ip)
    else if |ip| == 16 && (forall i :: 0 <= i < 10 ==> ip[i] == 0) && ip[10] == 255 && ip[11] == 255 then Some(ip[12..])
    else None
  }

  /** The address written: zero for anything that is not IPv4. */
  function Written4(ip: Bytes): (r: Bytes)
    ensures |r| == IPV4_SIZE
  {
    match To4(ip) case Some(a) => Sized(a, IPV4_SIZE) case None => Sized([], IPV4_SIZE)
  }

  function Header(opcode: Byte): (r: Bytes)
    ensures |r| == 6
  {
    MAGIC + [1, opcode]
  }

  /** The checks every parser makes, in order. */
  function CheckHeader(pkt: Bytes, size: nat, opcode: Byte): (r: Option<Error>)
    requires size >= 6
  {
    if |pkt| < size then Some(ShortPacket)
    else if pkt[..4] != MAGIC then Some(BadMagic)
    else if pkt[4] != 1 then Some(BadVersion)
    else if pkt[5] != opcode then Some(BadOpcode)
    else None
  }

  lemma HeaderIff(pkt: Bytes, size: nat, opcode: Byte)
    requires size >= 6
    ensures CheckHeader(pkt, size, opcode).None? <==> |pkt| >= size && pkt[..6] == Header(opcode)
  {
    if |pkt| >= size {
      assert pkt[..6] == pkt[..4] + [pkt[4], pkt[5]];
      assert Header(opcode)[..4] == MAGIC;
    }
  }

  /** Which error a packet gets: its size is looked at first, then magic, version and opcode. */
  lemma HeaderErrors(pkt: Bytes, size: nat, opcode: Byte)
    requires size >= 6
    ensures CheckHeader(pkt, size, opcode) == Some(ShortPacket) <==> |pkt| < size
    ensures CheckHeader(pkt, size, opcode) == Some(BadMagic) <==> |pkt| >= size && !(MAGIC <= pkt)
    ensures CheckHeader(pkt, size, opcode) == Some(BadVersion) <==> |pkt| >= size && MAGIC <= pkt && pkt[4] != 1
    ensures CheckHeader(pkt, size, opcode) == Some(BadOpcode) <==>
            |pkt| >= size && MAGIC + [1] <= pkt && pkt[5] != opcode
  {
    if |pkt| >= size {
      assert MAGIC <= pkt <==> pkt[..4] == MAGIC;
      assert pkt[..5] == pkt[..4] + [pkt[4]];
      assert MAGIC + [1] <= pkt <==> pkt[..5] == MAGIC + [1];
    }
  }

  // ---- REGISTER ----

  datatype Register = Register(token: Bytes, pub: Bytes, ip: Bytes, port: Uint16)

  function BuildRegister(r: Register): (pkt: Bytes)
    ensures |pkt| == REGISTER_SIZE
  {
    Header(2) + Sized(r.token, TOKEN_SIZE) + Sized(r.pub, KEY_SIZE) + Written4(r.ip) + BigEndian(r.port, 2)
  }

  function ParseRegister(pkt: Bytes): (r: Result<Register, Error>)
  {
    match CheckHeader(pkt, REGISTER_SIZE, 2)
    case Some(e) => Err(e)
    case None => Ok(Register(pkt[6..22], pkt[22..54], pkt[54..58], ReadUint16(pkt[58..60])))
  }

  /** What is sent for a registration: every field at its size. */
  function Normal(r: Register): (n: Register)
  {
    Register(Sized(r.token, TOKEN_SIZE), Sized(r.pub, KEY_SIZE), Written4(r.ip), r.port)
  }

  lemma PortDecodes(port: Uint16)
    ensures ReadUint16(BigEndian(port, 2)) == port
  {
    BigEndianDecodes(port, 2);
    Pow256Values();
  }

  /** A built packet parses, whatever follows it, to the fields cut or padded to size. */
  lemma RegisterParses(r: Register, rest: Bytes)
    ensures ParseRegister(BuildRegister(r) + rest) == Ok(Normal(r))
  {
    var pkt := BuildRegister(r) + rest;
    assert pkt[..6] == Header(2);
    HeaderIff(pkt, REGISTER_SIZE, 2);
    assert pkt[6..22] == Sized(r.token, TOKEN_SIZE);
    assert pkt[22..54] == Sized(r.pub, KEY_SIZE);
    assert pkt[54..58] == Written4(r.ip);
    assert pkt[58..60] == BigEndian(r.port, 2);
    PortDecodes(r.port);
  }

  /** The 16-byte form of an IPv4 address. */
  function Mapped(ip4: Bytes): (r: Bytes)
    requires |ip4| == IPV4_SIZE
    ensures |r| == 16
  {
    [0, 0, 0, 0, 0, 0, 0, 0, 0, 0, 255, 255] + ip4
  }

  /** Both forms of an IPv4 address build the same packet, and any other address builds the one for 0.0.0.0. */
  lemma AddressForms(r: Register)
    ensures |r.ip| == IPV4_SIZE ==> BuildRegister(r.(ip := Mapped(r.ip))) == BuildRegister(r)
    ensures (|r.ip| != IPV4_SIZE && forall a: Bytes :: |a| == IPV4_SIZE ==> r.ip != Mapped(a)) ==>
              BuildRegister(r) == BuildRegister(r.(ip := [0, 0, 0, 0]))
  {
    if |r.ip| == IPV4_SIZE {
      assert Mapped(r.ip)[12..] == r.ip;
    } else if To4(r.ip).Some? {
      assert r.ip == Mapped(r.ip[12..]);
    } else {
      assert Sized([], IPV4_SIZE) == [0, 0, 0, 0];
    }
  }

  /** Parsing inverts building if and only if token, key and address have their wire sizes. */
  lemma RegisterRoundTripIff(r: Register)
    ensures ParseRegister(BuildRegister(r)) == Ok(r) <==>
            |r.token| == TOKEN_SIZE && |r.pub| == KEY_SIZE && |r.ip| == IPV4_SIZE
  {
    RegisterParses(r, []);
    assert BuildRegister(r) + [] == BuildRegister(r);
  }

  /** Any accepted packet is the one its fields build, followed by ignored bytes. */
  lemma RegisterRebuilds(pkt: Bytes)
    requires ParseRegister(pkt).Ok?
    ensures BuildRegister(ParseRegister(pkt).value) == pkt[..REGISTER_SIZE]
  {
    HeaderIff(pkt, REGISTER_SIZE, 2);
    BigEndianOf(pkt[58..60]);
    assert pkt[..60] == pkt[..6] + pkt[6..22] + pkt[22..54] + pkt[54..58] + pkt[58..60];
  }

  // ---- NOTIFY payloads ----

  datatype Payload =
    | PeerMatched(token: Bytes, other: Bytes, ip: Bytes, port: Uint16)
    | TokenAssigned(token: Bytes, ttlSeconds: Uint32)

  /** PeerMatchedPlaintext and TokenAssignedPlaintext. */
  function BuildPayload(p: Payload): (s: Bytes)
  {
    match p
    case PeerMatched(token, other, ip, port) =>
      [1] + Sized(token, TOKEN_SIZE) + Sized(other, KEY_SIZE) + Written4(ip) + BigEndian(port, 2)
    case TokenAssigned(token, ttl) => [2] + Sized(token, TOKEN_SIZE) + BigEndian(ttl, 4)
  }

  function ParsePayload(s: Bytes): (r: Result<Payload, Error>)
  {
    if |s| < 1 then Err(ShortPacket)
    else if s[0] == 1 then
      if |s| < PEER_MATCHED_SIZE then Err(ShortPacket)
      else Ok(PeerMatched(s[1..17], s[17..49], s[49..53], ReadUint16(s[53..55])))
    else if s[0] == 2 then
      if |s| < TOKEN_ASSIGNED_SIZE then Err(ShortPacket)
      else Ok(TokenAssigned(s[1..17], ReadUint32(s[17..21])))
    else Err(BadOpcode)
  }

  /** The fields have their wire sizes. */
  predicate Fits(p: Payload)
  {
    |p.token| == TOKEN_SIZE && (p.PeerMatched? ==> |p.other| == KEY_SIZE && |p.ip| == IPV4_SIZE)
  }

  /** Both payloads come back, for every port and lifetime, if and only if their byte fields have their wire sizes. */
  lemma PayloadRoundTripIff(p: Payload)
    ensures ParsePayload(BuildPayload(p)) == Ok(p) <==> Fits(p)
  {
    var s := BuildPayload(p);
    match p
    case PeerMatched(token, other, ip, port) =>
      assert s[1..17] == Sized(token, TOKEN_SIZE);
      assert s[17..49] == Sized(other, KEY_SIZE);
      assert s[49..53] == Written4(ip);
      assert s[53..55] == BigEndian(port, 2);
      PortDecodes(port);
    case TokenAssigned(token, ttl) =>
      assert s[1..17] == Sized(token, TOKEN_SIZE);
      assert s[17..21] == BigEndian(ttl, 4);
      BigEndianDecodes(ttl, 4);
      Pow256Values();
  }

  /** Which error a payload gets: an unknown type first of all, unless there is no type byte. */
  lemma PayloadErrors(s: Bytes)
    ensures ParsePayload(s) == Err(BadOpcode) <==> s != [] && s[0] !in {1, 2}
    ensures ParsePayload(s) == Err(ShortPacket) <==> s == [] || (s[0] == 1 && |s| < 55) || (s[0] == 2 && |s| < 21)
  {
  }

  /** Any accepted payload starts with the bytes its fields build. */
  lemma PayloadRebuilds(s: Bytes)
    requires ParsePayload(s).Ok?
    ensures BuildPayload(ParsePayload(s).value) <= s
  {
    if s[0] == 1 {
      BigEndianOf(s[53..55]);
      assert s[..55] == [s[0]] + s[1..17] + s[17..49] + s[49..53] + s[53..55];
    } else {
      BigEndianOf(s[17..21]);
      assert s[..21] == [s[0]] + s[1..17] + s[17..21];
    }
  }

  // ---- NOTIFY envelope ----

  datatype Notify = Notify(brokerPub: Bytes, nonce: Bytes, sealed: Bytes)

  /** buildNotify writes its fields as they are. */
  function BuildNotify(n: Notify): (pkt: Bytes)
  {
    Header(3) + n.brokerPub + n.nonce + n.sealed
  }

  function ParseNotify(pkt: Bytes): (r: Result<Notify, Error>)
  {
    match CheckHeader(pkt, NOTIFY_HEADER_SIZE + NONCE_SIZE, 3)
    case Some(e) => Err(e)
    case None => Ok(Notify(pkt[6..38], pkt[38..62], pkt[62..]))
  }

  /** Parsing inverts building, for any sealed part, if and only if key and nonce have their wire sizes. */
  lemma NotifyRoundTripIff(n: Notify)
    ensures ParseNotify(BuildNotify(n)) == Ok(n) <==> |n.brokerPub| == KEY_SIZE && |n.nonce| == NONCE_SIZE
  {
    var pkt := BuildNotify(n);
    assert pkt[..6] == Header(3);
    HeaderIff(pkt, NOTIFY_HEADER_SIZE + NONCE_SIZE, 3);
    if |n.brokerPub| == KEY_SIZE && |n.nonce| == NONCE_SIZE {
      assert pkt[6..38] == n.brokerPub && pkt[38..62] == n.nonce && pkt[62..] == n.sealed;
    }
  }

  /** Every byte of an accepted NOTIFY is accounted for. */
  lemma NotifyRebuilds(pkt: Bytes)
    requires ParseNotify(pkt).Ok?
    ensures BuildNotify(ParseNotify(pkt).value) == pkt
  {
    HeaderIff(pkt, NOTIFY_HEADER_SIZE + NONCE_SIZE, 3);
    assert pkt == pkt[..6] + pkt[6..38] + pkt[38..62] + pkt[62..];
  }
}
