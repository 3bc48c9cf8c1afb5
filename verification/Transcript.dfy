/**
 The bytes the handshake binds its keys to: HKDF info labels, the transcript that
 is hashed, and the challenge info. Each determines what went into it.
 */
module Transcript {
  import opened Encoding

  const HANDSHAKE_INFO: Bytes := Ascii("kamune/handshake/v1")
  const C2S_INFO: Bytes := Ascii("kamune/handshake/client-to-server/v1/")
  const S2C_INFO: Bytes := Ascii("kamune/handshake/server-to-client/v1/")
  const BAR: Bytes := [124]

  /** pb.Handshake: the request carries a public key, the response a KEM ciphertext. */
  datatype Handshake = Handshake(key: Bytes, salt: Bytes, sessionKey: Bytes)

  lemma DirectionsDiffer()
    ensures |C2S_INFO| == |S2C_INFO|
    ensures C2S_INFO != S2C_INFO
  {
    assert C2S_INFO[17] == 99 && S2C_INFO[17] == 115;
  }

  /** A direction label followed by a session ID splits in only one way. */
  lemma InfoInjective(d: Bytes, d': Bytes, sid: Bytes, sid': Bytes)
    requires d in [C2S_INFO, S2C_INFO] && d' in [C2S_INFO, S2C_INFO]
    requires d + sid == d' + sid'
    ensures d == d' && sid == sid'
  {
    DirectionsDiffer();
    SplitAt(d, d', sid, sid');
  }

  lemma SplitAt(a: Bytes, a': Bytes, b: Bytes, b': Bytes)
    requires |a| == |a'| && a + b == a' + b'
    ensures a == a' && b == b'
  {
    assert a == (a + b)[..|a|] && a' == (a' + b')[..|a|];
    assert b == (a + b)[|a|..] && b' == (a' + b')[|a|..];
  }

  /** A 4-byte big-endian length and the field itself, as written to the hash. */
  function Field(x: Bytes): (r: Bytes)
  {
    BigEndian(|x|, 4) + x
  }

  lemma FieldPrefixFree(a: Bytes, b: Bytes, x: Bytes, y: Bytes)
    requires |a| < 0x1_0000_0000 && |b| < 0x1_0000_0000
    requires Field(a) + x == Field(b) + y
    ensures a == b && x == y
  {
    assert Pow256(4) == 0x1_0000_0000 by { assert Pow256(2) == 65536; }
    assert Field(a) + x == BigEndian(|a|, 4) + (a + x);
    assert Field(b) + y == BigEndian(|b|, 4) + (b + y);
    SplitAt(BigEndian(|a|, 4), BigEndian(|b|, 4), a + x, b + y);
    BigEndianInjective(|a|, |b|, 4);
    SplitAt(a, b, x, y);
  }

  /** The three fields of one side, in hashing order. */
  function HandshakeBytes(h: Handshake): (r: Bytes)
  {
    Field(h.key) + (Field(h.salt) + Field(h.sessionKey))
  }

  /** What handshakeTranscriptHash feeds to SHA-256. */
  function TranscriptBytes(req: Handshake, resp: Handshake): (r: Bytes)
  {
    HANDSHAKE_INFO + (HandshakeBytes(req) + HandshakeBytes(resp))
  }

  /** Field lengths fit the 32-bit prefix, as every field of a 16-bit frame does. */
  predicate Fits(h: Handshake)
  {
    |h.key| < 0x1_0000_0000 && |h.salt| < 0x1_0000_0000 && |h.sessionKey| < 0x1_0000_0000
  }

  lemma HandshakePrefixFree(g: Handshake, h: Handshake, x: Bytes, y: Bytes)
    requires Fits(g) && Fits(h)
    requires HandshakeBytes(g) + x == HandshakeBytes(h) + y
    ensures g == h && x == y
  {
    HandshakeSplits(g, x);
    HandshakeSplits(h, y);
    FieldPrefixFree(g.key, h.key, Field(g.salt) + (Field(g.sessionKey) + x), Field(h.salt) + (Field(h.sessionKey) + y));
    FieldPrefixFree(g.salt, h.salt, Field(g.sessionKey) + x, Field(h.sessionKey) + y);
    FieldPrefixFree(g.sessionKey, h.sessionKey, x, y);
  }

  lemma HandshakeSplits(h: Handshake, x: Bytes)
    ensures HandshakeBytes(h) + x == Field(h.key) + (Field(h.salt) + (Field(h.sessionKey) + x))
  {
    Assoc(Field(h.salt), Field(h.sessionKey), x);
    Assoc(Field(h.key), Field(h.salt) + Field(h.sessionKey), x);
  }

  lemma Assoc(a: Bytes, b: Bytes, c: Bytes)
    ensures (a + b) + c == a + (b + c)
  {
  }

  /** Equal hash inputs come from equal handshakes, all six fields. */
  lemma TranscriptInjective(req: Handshake, resp: Handshake, req': Handshake, resp': Handshake)
    requires Fits(req) && Fits(resp) && Fits(req') && Fits(resp')
    requires TranscriptBytes(req, resp) == TranscriptBytes(req', resp')
    ensures req == req' && resp == resp'
  {
    SplitAt(HANDSHAKE_INFO, HANDSHAKE_INFO,
            HandshakeBytes(req) + HandshakeBytes(resp), HandshakeBytes(req') + HandshakeBytes(resp'));
    HandshakePrefixFree(req, req', HandshakeBytes(resp), HandshakeBytes(resp'));
    assert HandshakeBytes(resp) + [] == HandshakeBytes(resp);
    assert HandshakeBytes(resp') + [] == HandshakeBytes(resp');
    HandshakePrefixFree(resp, resp', [], []);
  }

  /** deriveChallengeInfo: session ID, direction and transcript hash, bar-separated. */
  function ChallengeInfo(sid: Bytes, direction: Bytes, hash: Bytes): (r: Bytes)
  {
    sid + (BAR + (direction + (BAR + hash)))
  }

  /** Challenge info determines the session, the direction and the hash, so the two directions never collide. */
  lemma ChallengeInfoInjective(
      sid: Bytes, d: Bytes, hash: Bytes, sid': Bytes, d': Bytes, hash': Bytes)
    requires d in [C2S_INFO, S2C_INFO] && d' in [C2S_INFO, S2C_INFO]
    requires |hash| == 32 && |hash'| == 32
    requires ChallengeInfo(sid, d, hash) == ChallengeInfo(sid', d', hash')
    ensures sid == sid' && d == d' && hash == hash'
  {
    DirectionsDiffer();
    assert |ChallengeInfo(sid, d, hash)| == |sid| + 1 + |d| + 1 + 32;
    assert |ChallengeInfo(sid', d', hash')| == |sid'| + 1 + |d'| + 1 + 32;
    var r, r' := d + (BAR + hash), d' + (BAR + hash');
    SplitAt(sid, sid', BAR + r, BAR + r');
    SplitAt(BAR, BAR, r, r');
    SplitAt(d, d', BAR + hash, BAR + hash');
    SplitAt(BAR, BAR, hash, hash');
  }
}
