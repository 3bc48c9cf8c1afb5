/**
 The handshake as any number of initiators and responders over a network that
 may drop, duplicate, reorder and replay everything ever sent. Signatures are
 ideal: a message names its sender. The hash function is arbitrary.

 acceptChallenge echoes whatever it receives, so agreement rests on the keys.
 */
module HandshakeProtocol {
  import opened Crypto
  import opened Encoding
  import opened Transcript
  import opened Transport
  import opened Wrappers

  type Peer = nat

  const SALT_SIZE := 16
  const SESSION_ID_LENGTH := 24
  const TOKEN_COUNT := 20
  const ROOT_INFO: Bytes := Ascii("kamune/resumption-root/v1")
  const TOKEN_INFO: Bytes := Ascii("kamune/resumption/token/v1/")

  datatype Msg =
    | Hello(from: Peer, route: Route, body: Handshake)
    | Sealed(key: Term, from: Peer, route: Route, number: nat, payload: Term)

  /** The Transport built once the secret is known. */
  datatype Channel = Channel(
    secret: Term, localSalt: Bytes, remoteSalt: Bytes, sid: Bytes,
    encoder: Term, decoder: Term, sendSequence: nat, recvSequence: nat)

  function NewChannel(
      secret: Term, localSalt: Bytes, remoteSalt: Bytes, sid: Bytes, outInfo: Bytes, inInfo: Bytes): (t: Channel)
  {
    Channel(secret, localSalt, remoteSalt, sid,
            Kdf(secret, Atom(localSalt), outInfo + sid), Kdf(secret, Atom(remoteSalt), inInfo + sid), 0, 0)
  }

  datatype Received = Received(t: Channel, route: Route, payload: Term)

  /** Transport.Receive: decrypt, verify the signature, reject close frames, check the sequence. */
  function Receive(t: Channel, remote: Peer, m: Msg): (r: Option<Received>)
  {
    if !m.Sealed? || m.key != t.decoder || m.from != remote then None
    else if !Accepts(t.recvSequence, m.route, m.number) then None
    else Some(Received(t.(recvSequence := m.number), m.route, m.payload))
  }

  /** Transport.Send. */
  function Send(t: Channel, self: Peer, route: Route, payload: Term): (r: (Channel, Msg))
  {
    var t' := t.(sendSequence := Succ(t.sendSequence));
    (t', Sealed(t.encoder, self, route, t'.sendSequence, payload))
  }

  /** sendChallenge's value. */
  function Challenge(sha: Bytes -> Bytes, t: Channel, direction: Bytes, req: Handshake, resp: Handshake): (r: Term)
  {
    Kdf(t.secret, Atom([]), ChallengeInfo(t.sid, direction, sha(TranscriptBytes(req, resp))))
  }

  /** validateHandshakeFields. */
  predicate ValidFields(h: Handshake)
  {
    |h.salt| == SALT_SIZE && (|h.sessionKey| == SESSION_ID_LENGTH / 2 || |h.sessionKey| == SESSION_ID_LENGTH)
  }

  /** setResumptionRoot, then deriveResumptionTokens. */
  function ResumptionTokens(secret: Term, sid: Bytes): (r: seq<Term>)
  {
    var root := Kdf(secret, Atom(sid), ROOT_INFO);
    seq(TOKEN_COUNT, i requires 0 <= i < TOKEN_COUNT => Kdf(root, Atom([]), TOKEN_INFO + BigEndian(i, 4)))
  }

  // ---- What the derived values depend on ----

  /** A direction key determines exactly the secret, its sender's salt, the session ID and the direction. */
  lemma KeysDetermineSession(
      secret: Term, ls: Bytes, rs: Bytes, sid: Bytes, out: Bytes, inn: Bytes,
      secret': Term, ls': Bytes, rs': Bytes, sid': Bytes, out': Bytes, inn': Bytes)
    requires out in [C2S_INFO, S2C_INFO] && inn in [C2S_INFO, S2C_INFO]
    requires out' in [C2S_INFO, S2C_INFO] && inn' in [C2S_INFO, S2C_INFO]
    ensures var t, t' := NewChannel(secret, ls, rs, sid, out, inn), NewChannel(secret', ls', rs', sid', out', inn');
            && (t.encoder == t'.encoder <==> secret == secret' && ls == ls' && sid == sid' && out == out')
            && (t.decoder == t'.decoder <==> secret == secret' && rs == rs' && sid == sid' && inn == inn')
            && (t.encoder == t'.decoder <==> secret == secret' && ls == rs' && sid == sid' && out == inn')
  {
    if out + sid == out' + sid' {
      InfoInjective(out, out', sid, sid');
    }
    if inn + sid == inn' + sid' {
      InfoInjective(inn, inn', sid, sid');
    }
    if out + sid == inn' + sid' {
      InfoInjective(out, inn', sid, sid');
    }
  }

  /** Equal challenges come from one secret, session, direction and transcript hash. */
  lemma ChallengeDetermines(
      sha: Bytes -> Bytes, t: Channel, d: Bytes, req: Handshake, resp: Handshake,
      t': Channel, d': Bytes, req': Handshake, resp': Handshake)
    requires d in [C2S_INFO, S2C_INFO] && d' in [C2S_INFO, S2C_INFO]
    requires |sha(TranscriptBytes(req, resp))| == 32 && |sha(TranscriptBytes(req', resp'))| == 32
    ensures Challenge(sha, t, d, req, resp) == Challenge(sha, t', d', req', resp') <==>
            && t.secret == t'.secret && t.sid == t'.sid && d == d'
            && sha(TranscriptBytes(req, resp)) == sha(TranscriptBytes(req', resp'))
  {
    var h, h' := sha(TranscriptBytes(req, resp)), sha(TranscriptBytes(req', resp'));
    if ChallengeInfo(t.sid, d, h) == ChallengeInfo(t'.sid, d', h') {
      ChallengeInfoInjective(t.sid, d, h, t'.sid, d', h');
    }
  }

  /** A resumption token is determined by, and determines, the secret, the session and its place in the list. */
  lemma TokenDetermines(secret: Term, sid: Bytes, i: nat, secret': Term, sid': Bytes, j: nat)
    requires i < TOKEN_COUNT && j < TOKEN_COUNT
    ensures ResumptionTokens(secret, sid)[i] == ResumptionTokens(secret', sid')[j] <==>
            secret == secret' && sid == sid' && i == j
  {
    if TOKEN_INFO + BigEndian(i, 4) == TOKEN_INFO + BigEndian(j, 4) {
      SplitAt(TOKEN_INFO, TOKEN_INFO, BigEndian(i, 4), BigEndian(j, 4));
      Pow256Values();
      BigEndianInjective(i, j, 4);
    }
  }

  // ---- Endpoints ----

  datatype InitiatorStage = AwaitResponse | AwaitEcho | AwaitChallenge | Completed

  datatype Initiator = Initiator(
    self: Peer, remote: Peer, req: Handshake, resume: Option<Bytes>,
    stage: InitiatorStage, resp: Option<Handshake>, t: Option<Channel>, failed: bool)

  datatype ResponderStage = AwaitFirst | AwaitLast | Accepted

  datatype Responder = Responder(
    self: Peer, remote: Peer, req: Handshake, resp: Handshake, resume: Option<Bytes>,
    stage: ResponderStage, t: Channel, failed: bool)

  /** requestHandshake up to writing the request. */
  function StartInitiator(
      pk: Bytes, self: Peer, remote: Peer, salt: Bytes, prefix: Bytes, resume: Option<Bytes>): (r: (Initiator, Msg))
  {
    var req := Handshake(pk, salt, if resume.Some? then resume.value else prefix);
    (Initiator(self, remote, req, resume, AwaitResponse, None, None, false), Hello(self, RequestHandshake, req))
  }

  /** Cold: the initiator's prefix and the responder's suffix. Resumed: the predetermined ID. */
  function SessionID(req: Handshake, resp: Handshake, resume: Option<Bytes>): (sid: Bytes)
  {
    if resume.Some? then resume.value else req.sessionKey + resp.sessionKey
  }

  /** requestHandshake from each read to the next; any unexpected message ends it with an error. */
  function InitiatorReads(sha: Bytes -> Bytes, i: Initiator, m: Msg): (r: (Initiator, set<Msg>))
  {
    match i.stage
    case AwaitResponse =>
      if m.Hello? && m.from == i.remote && m.route == AcceptHandshake && ValidFields(m.body) then
        var sid := SessionID(i.req, m.body, i.resume);
        var t := NewChannel(Shared(i.req.key, m.body.key), i.req.salt, m.body.salt, sid, C2S_INFO, S2C_INFO);
        var (t', c) := Send(t, i.self, SendChallenge, Challenge(sha, t, C2S_INFO, i.req, m.body));
        (i.(stage := AwaitEcho, resp := Some(m.body), t := Some(t')), {c})
      else (i.(failed := true), {})
    case AwaitEcho =>
      if i.t.None? || i.resp.None? then (i.(failed := true), {})
      else (
        match Receive(i.t.value, i.remote, m)
        case Some(Received(t', VerifyChallenge, v)) =>
          if v == Challenge(sha, t', C2S_INFO, i.req, i.resp.value)
          then (i.(stage := AwaitChallenge, t := Some(t')), {})
          else (i.(failed := true), {})
        case _ => (i.(failed := true), {}))
    case AwaitChallenge =>
      if i.t.None? then (i.(failed := true), {})
      else (
        match Receive(i.t.value, i.remote, m)
        case Some(Received(t', SendChallenge, v)) =>
          var (t'', echo) := Send(t', i.self, VerifyChallenge, v);
          (i.(stage := Completed, t := Some(t'')), {echo})
        case _ => (i.(failed := true), {}))
    case Completed => (i, {})
  }

  /** acceptHandshake up to writing the response; None when the request is refused. */
  function StartResponder(
      ct: Bytes, self: Peer, remote: Peer, m: Msg, salt: Bytes, suffix: Bytes, resume: Option<Bytes>)
    : (r: Option<(Responder, Msg)>)
  {
    if m.Hello? && m.from == remote && m.route == RequestHandshake && ValidFields(m.body) then
      var resp := Handshake(ct, salt, if resume.Some? then resume.value else suffix);
      var t := NewChannel(Shared(m.body.key, ct), salt, m.body.salt,
                          SessionID(m.body, resp, resume), S2C_INFO, C2S_INFO);
      Some((Responder(self, remote, m.body, resp, resume, AwaitFirst, t, false), Hello(self, AcceptHandshake, resp)))
    else None
  }

  /** acceptHandshake from each read to the next. */
  function ResponderReads(sha: Bytes -> Bytes, r: Responder, m: Msg): (out: (Responder, set<Msg>))
  {
    match r.stage
    case AwaitFirst => (
      match Receive(r.t, r.remote, m)
      case Some(Received(t', SendChallenge, v)) =>
        var (t1, echo) := Send(t', r.self, VerifyChallenge, v);
        var (t2, c) := Send(t1, r.self, SendChallenge, Challenge(sha, t1, S2C_INFO, r.req, r.resp));
        (r.(stage := AwaitLast, t := t2), {echo, c})
      case _ => (r.(failed := true), {}))
    case AwaitLast => (
      match Receive(r.t, r.remote, m)
      case Some(Received(t', VerifyChallenge, v)) =>
        if v == Challenge(sha, t', S2C_INFO, r.req, r.resp)
        then (r.(stage := Accepted, t := t'), {})
        else (r.(failed := true), {})
      case _ => (r.(failed := true), {}))
    case Accepted => (r, {})
  }

  // ---- Exactly which messages move an endpoint on ----

  /** Sizes a peer's handshake fields must have: a 16-byte salt, and half of a session ID or a whole one. */
  predicate WireSized(h: Handshake)
  {
    |h.salt| == 16 && |h.sessionKey| in {12, 24}
  }

  /** Sealed by the peer, in sequence. */
  predicate NextFrom(t: Channel, remote: Peer, m: Msg)
  {
    m.Sealed? && m.key == t.decoder && m.from == remote && m.number == Succ(t.recvSequence)
  }

  /**
   An initiator moves on exactly on a well-sized response, then on the echo of its own
   challenge, then on the peer's challenge, which it echoes; on anything else it fails
   and says nothing.
   */
  lemma InitiatorAdvancesIff(sha: Bytes -> Bytes, i: Initiator, m: Msg)
    requires i.stage != Completed && (i.stage != AwaitResponse ==> i.t.Some? && i.resp.Some?)
    ensures var (i', out) := InitiatorReads(sha, i, m);
            && (i.stage == AwaitResponse ==>
                  (i'.stage == AwaitEcho <==>
                   m.Hello? && m.from == i.remote && m.route == AcceptHandshake && WireSized(m.body)))
            && (i.stage == AwaitEcho ==>
                  (i'.stage == AwaitChallenge <==>
                   && NextFrom(i.t.value, i.remote, m) && m.route == VerifyChallenge
                   && m.payload == Challenge(sha, i.t.value, C2S_INFO, i.req, i.resp.value)))
            && (i.stage == AwaitChallenge ==>
                  (i'.stage == Completed <==> NextFrom(i.t.value, i.remote, m) && m.route == SendChallenge))
            && (i'.stage == Completed ==>
                  out == {Sealed(i.t.value.encoder, i.self, VerifyChallenge, Succ(i.t.value.sendSequence), m.payload)})
            && (i'.stage == i.stage ==> i' == i.(failed := true) && out == {})
  {
  }

  /** A responder starts exactly on a well-sized request, and moves on likewise. */
  lemma ResponderAdvancesIff(sha: Bytes -> Bytes, r: Responder, m: Msg)
    requires r.stage != Accepted
    ensures var (r', out) := ResponderReads(sha, r, m);
            && (r.stage == AwaitFirst ==>
                  (r'.stage == AwaitLast <==> NextFrom(r.t, r.remote, m) && m.route == SendChallenge))
            && (r'.stage == AwaitLast && r.stage == AwaitFirst ==>
                  var n := Succ(r.t.sendSequence);
                  out == {Sealed(r.t.encoder, r.self, VerifyChallenge, n, m.payload),
                          Sealed(r.t.encoder, r.self, SendChallenge, Succ(n),
                                 Challenge(sha, r.t, S2C_INFO, r.req, r.resp))})
            && (r.stage == AwaitLast ==>
                  (r'.stage == Accepted <==>
                   && NextFrom(r.t, r.remote, m) && m.route == VerifyChallenge
                   && m.payload == Challenge(sha, r.t, S2C_INFO, r.req, r.resp)))
            && (r'.stage == r.stage ==> r' == r.(failed := true) && out == {})
  {
  }

  lemma ResponderStartsIff(
      ct: Bytes, self: Peer, remote: Peer, m: Msg, salt: Bytes, suffix: Bytes, resume: Option<Bytes>)
    ensures StartResponder(ct, self, remote, m, salt, suffix, resume).Some? <==>
            m.Hello? && m.from == remote && m.route == RequestHandshake && WireSized(m.body)
  {
  }

  // ---- The system ----

  /**
   Initiators are named by their public key and responders by their ciphertext;
   both are fresh. `net` only grows: delivering any of it, at any time and any
   number of times, covers loss, duplication, reordering and replay.
   */
  datatype System = System(initiators: map<Bytes, Initiator>, responders: map<Bytes, Responder>, net: set<Msg>)

  const START: System := System.System(map[], map[], {})

  datatype Event =
    | Dial(pk: Bytes, self: Peer, remote: Peer, salt: Bytes, prefix: Bytes, resume: Option<Bytes>)
    | DeliverToInitiator(pk: Bytes, m: Msg)
    | AbortInitiator(pk: Bytes)
    | Serve(ct: Bytes, self: Peer, remote: Peer, m: Msg, salt: Bytes, suffix: Bytes, resume: Option<Bytes>)
    | DeliverToResponder(ct: Bytes, m: Msg)
    | AbortResponder(ct: Bytes)

  predicate Enabled(s: System, e: Event)
  {
    match e
    case Dial(pk, _, _, _, _, _) => pk !in s.initiators
    case DeliverToInitiator(pk, m) => pk in s.initiators && !s.initiators[pk].failed && m in s.net
    case AbortInitiator(pk) => pk in s.initiators && s.initiators[pk].stage != Completed
    case Serve(ct, _, _, m, _, _, _) => ct !in s.responders && m in s.net
    case DeliverToResponder(ct, m) => ct in s.responders && !s.responders[ct].failed && m in s.net
    case AbortResponder(ct) => ct in s.responders && s.responders[ct].stage != Accepted
  }

  function Next(sha: Bytes -> Bytes, s: System, e: Event): (s': System)
    requires Enabled(s, e)
  {
    match e
    case Dial(pk, self, remote, salt, prefix, resume) =>
      var (i, m) := StartInitiator(pk, self, remote, salt, prefix, resume);
      s.(initiators := s.initiators[pk := i], net := s.net + {m})
    case DeliverToInitiator(pk, m) =>
      var (i, out) := InitiatorReads(sha, s.initiators[pk], m);
      s.(initiators := s.initiators[pk := i], net := s.net + out)
    case AbortInitiator(pk) => s.(initiators := s.initiators[pk := s.initiators[pk].(failed := true)])
    case Serve(ct, self, remote, m, salt, suffix, resume) => (
      match StartResponder(ct, self, remote, m, salt, suffix, resume)
      case None => s
      case Some((r, out)) => s.(responders := s.responders[ct := r], net := s.net + {out}))
    case DeliverToResponder(ct, m) =>
      var (r, out) := ResponderReads(sha, s.responders[ct], m);
      s.(responders := s.responders[ct := r], net := s.net + out)
    case AbortResponder(ct) => s.(responders := s.responders[ct := s.responders[ct].(failed := true)])
  }

  // ---- Invariant ----

  predicate InitiatorHasChannel(i: Initiator)
  {
    && i.t.Some? && i.resp.Some?
    && i.t.value.(sendSequence := 0, recvSequence := 0) ==
       NewChannel(Shared(i.req.key, i.resp.value.key), i.req.salt, i.resp.value.salt,
                  SessionID(i.req, i.resp.value, i.resume), C2S_INFO, S2C_INFO)
  }

  predicate ResponderHasChannel(r: Responder)
  {
    r.t.(sendSequence := 0, recvSequence := 0) ==
    NewChannel(Shared(r.req.key, r.resp.key), r.resp.salt, r.req.salt,
               SessionID(r.req, r.resp, r.resume), S2C_INFO, C2S_INFO)
  }

  /** `r` has heard from initiator `i`, which holds the key `r` decrypts with. */
  predicate Asked(i: Initiator, r: Responder)
  {
    i.stage != AwaitResponse && i.t.Some? && i.t.value.encoder == r.t.decoder && i.self == r.remote
  }

  /** `i` has heard from responder `r`, which holds the key `i` decrypts with. */
  predicate Answered(i: Initiator, r: Responder)
  {
    i.t.Some? && i.t.value.decoder == r.t.encoder && r.self == i.remote && r.stage != AwaitFirst
  }

  predicate InitiatorLocal(i: Initiator, pk: Bytes)
  {
    && i.req.key == pk
    && (i.stage != AwaitResponse ==> InitiatorHasChannel(i))
    && (i.stage == AwaitEcho ==> i.t.value.sendSequence == 1 && i.t.value.recvSequence == 0)
    && (i.stage == AwaitChallenge ==> i.t.value.sendSequence == 1 && i.t.value.recvSequence == 1)
    && (i.stage == Completed ==> i.t.value.sendSequence == 2 && i.t.value.recvSequence == 2)
  }

  predicate HeardBack(i: Initiator)
  {
    i.stage == AwaitChallenge || i.stage == Completed
  }

  predicate InitiatorOk(s: System, pk: Bytes)
    requires pk in s.initiators
  {
    var i := s.initiators[pk];
    && InitiatorLocal(i, pk)
    && (i.stage != AwaitResponse ==>
          i.resp.value.key in s.responders && s.responders[i.resp.value.key].resp == i.resp.value)
    && (HeardBack(i) ==> Answered(i, s.responders[i.resp.value.key]))
  }

  predicate ResponderLocal(r: Responder, ct: Bytes)
  {
    && r.resp.key == ct
    && ResponderHasChannel(r)
    && (r.stage == AwaitFirst ==> r.t.sendSequence == 0 && r.t.recvSequence == 0)
    && (r.stage == AwaitLast ==> r.t.sendSequence == 2 && r.t.recvSequence == 1)
    && (r.stage == Accepted ==> r.t.sendSequence == 2 && r.t.recvSequence == 2)
  }

  predicate ResponderOk(s: System, ct: Bytes)
    requires ct in s.responders
  {
    var r := s.responders[ct];
    && ResponderLocal(r, ct)
    && r.req.key in s.initiators && s.initiators[r.req.key].req == r.req
    && (r.stage != AwaitFirst ==> Asked(s.initiators[r.req.key], r))
    && (r.stage == Accepted ==> s.initiators[r.req.key].stage == Completed)
  }

  /** Sealed by initiator `i` at the point of its run the number says. */
  predicate SealedByInitiator(i: Initiator, m: Msg)
    requires m.Sealed?
  {
    && i.stage != AwaitResponse && i.t.Some? && i.t.value.encoder == m.key && i.self == m.from
    && ((m.route == SendChallenge && m.number == 1) ||
        (m.route == VerifyChallenge && m.number == 2 && i.stage == Completed))
  }

  predicate SealedByResponder(r: Responder, m: Msg)
    requires m.Sealed?
  {
    && r.stage != AwaitFirst && r.t.encoder == m.key && r.self == m.from
    && ((m.route == VerifyChallenge && m.number == 1) || (m.route == SendChallenge && m.number == 2))
  }

  /** The key itself names the key pair and the ciphertext behind its secret. */
  predicate FromInitiator(s: System, m: Msg)
    requires m.Sealed?
  {
    && m.key.Kdf? && m.key.ikm.Shared? && m.key.ikm.pk in s.initiators
    && SealedByInitiator(s.initiators[m.key.ikm.pk], m)
  }

  predicate FromResponder(s: System, m: Msg)
    requires m.Sealed?
  {
    && m.key.Kdf? && m.key.ikm.Shared? && m.key.ikm.ct in s.responders
    && SealedByResponder(s.responders[m.key.ikm.ct], m)
  }

  predicate MsgOk(s: System, m: Msg)
  {
    match m
    case Hello(from, RequestHandshake, h) =>
      h.key in s.initiators && s.initiators[h.key].req == h && s.initiators[h.key].self == from
    case Hello(from, AcceptHandshake, h) =>
      h.key in s.responders && s.responders[h.key].resp == h && s.responders[h.key].self == from
    case Hello(_, _, _) => false
    case Sealed(_, _, _, _, _) => FromInitiator(s, m) || FromResponder(s, m)
  }

  ghost predicate InitiatorsOk(s: System)
  {
    forall pk :: pk in s.initiators ==> InitiatorOk(s, pk)
  }

  ghost predicate RespondersOk(s: System)
  {
    forall ct :: ct in s.responders ==> ResponderOk(s, ct)
  }

  ghost predicate NetOk(s: System)
  {
    forall m :: m in s.net ==> MsgOk(s, m)
  }

  ghost predicate Inv(s: System)
  {
    InitiatorsOk(s) && RespondersOk(s) && NetOk(s)
  }

  // ---- Progress is never undone ----

  function Rank(st: InitiatorStage): (r: nat)
  {
    match st case AwaitResponse => 0 case AwaitEcho => 1 case AwaitChallenge => 2 case Completed => 3
  }

  predicate InitiatorGrows(i: Initiator, i': Initiator)
  {
    && i'.self == i.self && i'.remote == i.remote && i'.req == i.req && i'.resume == i.resume
    && Rank(i.stage) <= Rank(i'.stage)
    && (i.stage != AwaitResponse ==>
          && i'.resp == i.resp && i.t.Some? && i'.t.Some?
          && i'.t.value.encoder == i.t.value.encoder && i'.t.value.decoder == i.t.value.decoder)
  }

  predicate ResponderGrows(r: Responder, r': Responder)
  {
    && r'.self == r.self && r'.remote == r.remote && r'.req == r.req && r'.resp == r.resp && r'.resume == r.resume
    && (r.stage != AwaitFirst ==> r'.stage != AwaitFirst)
    && (r.stage == Accepted ==> r'.stage == Accepted)
    && r'.t.encoder == r.t.encoder && r'.t.decoder == r.t.decoder
  }

  ghost predicate Grows(s: System, s': System)
  {
    && (forall pk :: pk in s.initiators ==> pk in s'.initiators && InitiatorGrows(s.initiators[pk], s'.initiators[pk]))
    && (forall ct :: ct in s.responders ==> ct in s'.responders && ResponderGrows(s.responders[ct], s'.responders[ct]))
  }

  lemma MsgOkMonotone(s: System, s': System, m: Msg)
    requires Grows(s, s') && MsgOk(s, m)
    ensures MsgOk(s', m)
  {
  }

  /** One read of an initiator, on its own: what it keeps, what it emits, what moved it on. */
  lemma InitiatorReadsLocal(sha: Bytes -> Bytes, i: Initiator, pk: Bytes, m: Msg)
    requires InitiatorLocal(i, pk)
    ensures var (i', out) := InitiatorReads(sha, i, m);
            && InitiatorLocal(i', pk) && InitiatorGrows(i, i')
            && (forall o :: o in out ==> o.Sealed? && SealedByInitiator(i', o))
            && (i.stage == AwaitResponse && i'.stage != AwaitResponse ==>
                  m.Hello? && m.route == AcceptHandshake && i'.resp == Some(m.body))
            && (HeardBack(i') && !HeardBack(i) ==>
                  i.stage == AwaitEcho && m.Sealed? && m.key == i.t.value.decoder && m.from == i.remote)
  {
  }

  lemma ResponderReadsLocal(sha: Bytes -> Bytes, r: Responder, ct: Bytes, m: Msg)
    requires ResponderLocal(r, ct)
    ensures var (r', out) := ResponderReads(sha, r, m);
            && ResponderLocal(r', ct) && ResponderGrows(r, r')
            && (forall o :: o in out ==> o.Sealed? && SealedByResponder(r', o))
            && (r'.stage != r.stage ==> m.Sealed? && m.key == r.t.decoder && m.from == r.remote)
            && (r'.stage == Accepted && r.stage != Accepted ==> m.route == VerifyChallenge && m.number == 2)
  {
  }

  /** A message sealed for the initiator's decoder comes from the one responder holding that secret. */
  lemma SenderToInitiator(s: System, pk: Bytes, m: Msg)
    requires Inv(s) && pk in s.initiators && m in s.net && m.Sealed?
    requires InitiatorHasChannel(s.initiators[pk]) && m.key == s.initiators[pk].t.value.decoder
    ensures FromResponder(s, m) && m.key.ikm.ct == s.initiators[pk].resp.value.key
  {
    assert MsgOk(s, m);
    if FromInitiator(s, m) {
      var j := s.initiators[m.key.ikm.pk];
      assert InitiatorOk(s, m.key.ikm.pk);
      DirectionsNeverCollide(j.t.value.sid, s.initiators[pk].t.value.sid);
    }
  }

  lemma SenderToResponder(s: System, ct: Bytes, m: Msg)
    requires Inv(s) && ct in s.responders && m in s.net && m.Sealed?
    requires m.key == s.responders[ct].t.decoder
    ensures FromInitiator(s, m) && m.key.ikm.pk == s.responders[ct].req.key
  {
    assert ResponderOk(s, ct);
    assert MsgOk(s, m);
    if FromResponder(s, m) {
      var r := s.responders[m.key.ikm.ct];
      assert ResponderOk(s, m.key.ikm.ct);
      DirectionsNeverCollide(s.responders[ct].t.sid, r.t.sid);
    }
  }

  lemma DirectionsNeverCollide(sid: Bytes, sid': Bytes)
    ensures C2S_INFO + sid != S2C_INFO + sid'
  {
    DirectionsDiffer();
    if C2S_INFO + sid == S2C_INFO + sid' {
      InfoInjective(C2S_INFO, S2C_INFO, sid, sid');
    }
  }

  // ---- Each step keeps the invariant ----

  lemma InitiatorOkMonotone(s: System, s': System, pk: Bytes)
    requires pk in s.initiators && InitiatorOk(s, pk) && Grows(s, s')
    requires s'.initiators[pk] == s.initiators[pk]
    ensures InitiatorOk(s', pk)
  {
    var i := s.initiators[pk];
    if i.stage != AwaitResponse {
      assert ResponderGrows(s.responders[i.resp.value.key], s'.responders[i.resp.value.key]);
    }
  }

  lemma ResponderOkMonotone(s: System, s': System, ct: Bytes)
    requires ct in s.responders && ResponderOk(s, ct) && Grows(s, s')
    requires s'.responders[ct] == s.responders[ct]
    ensures ResponderOk(s', ct)
  {
    var k := s.responders[ct].req.key;
    assert InitiatorGrows(s.initiators[k], s'.initiators[k]);
  }

  /** The invariant after a step that touched only the named endpoints and sent `out`. */
  lemma StepKeeps(s: System, s': System, pks: set<Bytes>, cts: set<Bytes>, out: set<Msg>)
    requires Inv(s) && Grows(s, s')
    requires forall k :: k in s'.initiators && k !in pks ==> k in s.initiators && s'.initiators[k] == s.initiators[k]
    requires forall k :: k in s'.responders && k !in cts ==> k in s.responders && s'.responders[k] == s.responders[k]
    requires forall k :: k in pks ==> k in s'.initiators && InitiatorOk(s', k)
    requires forall k :: k in cts ==> k in s'.responders && ResponderOk(s', k)
    requires forall m :: m in s'.net ==> m in s.net || m in out
    requires forall o :: o in out ==> MsgOk(s', o)
    ensures Inv(s')
  {
    forall k | k in s'.initiators
      ensures InitiatorOk(s', k)
    {
      if k !in pks {
        InitiatorOkMonotone(s, s', k);
      }
    }
    forall k | k in s'.responders
      ensures ResponderOk(s', k)
    {
      if k !in cts {
        ResponderOkMonotone(s, s', k);
      }
    }
    forall m | m in s'.net
      ensures MsgOk(s', m)
    {
      if m !in out {
        MsgOkMonotone(s, s', m);
      }
    }
  }

  lemma InitiatorGrowth(s: System, pk: Bytes, i': Initiator, net: set<Msg>)
    requires pk in s.initiators ==> InitiatorGrows(s.initiators[pk], i')
    requires forall k :: k in s.initiators && s.initiators[k].stage != AwaitResponse ==> s.initiators[k].t.Some?
    ensures Grows(s, s.(initiators := s.initiators[pk := i'], net := net))
  {
  }

  lemma ResponderGrowth(s: System, ct: Bytes, r': Responder, net: set<Msg>)
    requires ct in s.responders ==> ResponderGrows(s.responders[ct], r')
    requires forall k :: k in s.initiators && s.initiators[k].stage != AwaitResponse ==> s.initiators[k].t.Some?
    ensures Grows(s, s.(responders := s.responders[ct := r'], net := net))
  {
  }

  lemma ChannelsPresent(s: System)
    requires Inv(s)
    ensures forall k :: k in s.initiators && s.initiators[k].stage != AwaitResponse ==> s.initiators[k].t.Some?
  {
    forall k | k in s.initiators && s.initiators[k].stage != AwaitResponse
      ensures s.initiators[k].t.Some?
    {
      assert InitiatorOk(s, k);
    }
  }

  lemma InitiatorMoved(s: System, s': System, pk: Bytes, i': Initiator, out: set<Msg>)
    requires Inv(s) && pk in s.initiators
    requires s' == s.(initiators := s.initiators[pk := i'], net := s.net + out)
    requires InitiatorLocal(i', pk) && InitiatorGrows(s.initiators[pk], i')
    requires forall o :: o in out ==> o.Sealed? && SealedByInitiator(i', o)
    requires i'.stage != AwaitResponse ==>
               i'.resp.value.key in s.responders && s.responders[i'.resp.value.key].resp == i'.resp.value
    requires HeardBack(i') ==> Answered(i', s.responders[i'.resp.value.key])
    ensures Inv(s')
  {
    ChannelsPresent(s);
    InitiatorGrowth(s, pk, i', s.net + out);
    forall o | o in out
      ensures MsgOk(s', o)
    {
      assert o.key.ikm.pk == pk;
    }
    StepKeeps(s, s', {pk}, {}, out);
  }

  lemma ResponderMoved(s: System, s': System, ct: Bytes, r': Responder, out: set<Msg>)
    requires Inv(s) && ct in s.responders
    requires s' == s.(responders := s.responders[ct := r'], net := s.net + out)
    requires ResponderLocal(r', ct) && ResponderGrows(s.responders[ct], r')
    requires forall o :: o in out ==> o.Sealed? && SealedByResponder(r', o)
    requires r'.req.key in s.initiators && s.initiators[r'.req.key].req == r'.req
    requires r'.stage != AwaitFirst ==> Asked(s.initiators[r'.req.key], r')
    requires r'.stage == Accepted ==> s.initiators[r'.req.key].stage == Completed
    ensures Inv(s')
  {
    ChannelsPresent(s);
    ResponderGrowth(s, ct, r', s.net + out);
    forall o | o in out
      ensures MsgOk(s', o)
    {
      assert o.key.ikm.ct == ct;
    }
    StepKeeps(s, s', {}, {ct}, out);
  }

  lemma DeliverToInitiatorKeeps(sha: Bytes -> Bytes, s: System, pk: Bytes, m: Msg)
    requires Inv(s) && Enabled(s, DeliverToInitiator(pk, m))
    ensures Inv(Next(sha, s, DeliverToInitiator(pk, m)))
  {
    var i := s.initiators[pk];
    var (i', out) := InitiatorReads(sha, i, m);
    assert InitiatorOk(s, pk);
    InitiatorReadsLocal(sha, i, pk, m);
    assert MsgOk(s, m);
    if HeardBack(i') && !HeardBack(i) {
      SenderToInitiator(s, pk, m);
    }
    InitiatorMoved(s, Next(sha, s, DeliverToInitiator(pk, m)), pk, i', out);
  }

  lemma DeliverToResponderKeeps(sha: Bytes -> Bytes, s: System, ct: Bytes, m: Msg)
    requires Inv(s) && Enabled(s, DeliverToResponder(ct, m))
    ensures Inv(Next(sha, s, DeliverToResponder(ct, m)))
  {
    var r := s.responders[ct];
    var (r', out) := ResponderReads(sha, r, m);
    assert ResponderOk(s, ct);
    ResponderReadsLocal(sha, r, ct, m);
    if r'.stage != r.stage {
      SenderToResponder(s, ct, m);
    }
    ResponderMoved(s, Next(sha, s, DeliverToResponder(ct, m)), ct, r', out);
  }

  lemma DialKeeps(s: System, s': System, pk: Bytes, i: Initiator, m: Msg)
    requires Inv(s) && pk !in s.initiators
    requires s' == s.(initiators := s.initiators[pk := i], net := s.net + {m})
    requires i.stage == AwaitResponse && i.req.key == pk && m == Hello(i.self, RequestHandshake, i.req)
    ensures Inv(s')
  {
    ChannelsPresent(s);
    InitiatorGrowth(s, pk, i, s.net + {m});
    StepKeeps(s, s', {pk}, {}, {m});
  }

  lemma ServeKeeps(s: System, s': System, ct: Bytes, r: Responder, m: Msg)
    requires Inv(s) && ct !in s.responders
    requires s' == s.(responders := s.responders[ct := r], net := s.net + {m})
    requires r.req.key in s.initiators && s.initiators[r.req.key].req == r.req
    requires r.stage == AwaitFirst && ResponderLocal(r, ct) && m == Hello(r.self, AcceptHandshake, r.resp)
    ensures Inv(s')
  {
    ChannelsPresent(s);
    ResponderGrowth(s, ct, r, s.net + {m});
    StepKeeps(s, s', {}, {ct}, {m});
  }

  /** No step of any endpoint, and no behaviour of the network, breaks the invariant. */
  lemma NextKeepsInv(sha: Bytes -> Bytes, s: System, e: Event)
    requires Inv(s) && Enabled(s, e)
    ensures Inv(Next(sha, s, e))
  {
    var s' := Next(sha, s, e);
    match e
    case Dial(pk, self, remote, salt, prefix, resume) =>
      var (i, m) := StartInitiator(pk, self, remote, salt, prefix, resume);
      DialKeeps(s, s', pk, i, m);
    case DeliverToInitiator(pk, m) => DeliverToInitiatorKeeps(sha, s, pk, m);
    case AbortInitiator(pk) =>
      assert InitiatorOk(s, pk);
      assert s.net + {} == s.net;
      InitiatorMoved(s, s', pk, s'.initiators[pk], {});
    case Serve(ct, self, remote, m, salt, suffix, resume) =>
      var started := StartResponder(ct, self, remote, m, salt, suffix, resume);
      assert MsgOk(s, m);
      if started.Some? {
        ServeKeeps(s, s', ct, started.value.0, started.value.1);
      }
    case DeliverToResponder(ct, m) => DeliverToResponderKeeps(sha, s, ct, m);
    case AbortResponder(ct) =>
      assert ResponderOk(s, ct);
      assert s.net + {} == s.net;
      ResponderMoved(s, s', ct, s'.responders[ct], {});
  }

  // ---- Runs ----

  ghost predicate ValidRun(sha: Bytes -> Bytes, s: System, events: seq<Event>)
    decreases |events|
  {
    events == [] || (Enabled(s, events[0]) && ValidRun(sha, Next(sha, s, events[0]), events[1..]))
  }

  ghost function Run(sha: Bytes -> Bytes, s: System, events: seq<Event>): (r: System)
    requires ValidRun(sha, s, events)
    decreases |events|
  {
    if events == [] then s else Run(sha, Next(sha, s, events[0]), events[1..])
  }

  lemma {:induction false} RunKeepsInv(sha: Bytes -> Bytes, s: System, events: seq<Event>)
    requires Inv(s) && ValidRun(sha, s, events)
    ensures Inv(Run(sha, s, events))
    decreases |events|
  {
    if events != [] {
      NextKeepsInv(sha, s, events[0]);
      RunKeepsInv(sha, Next(sha, s, events[0]), events[1..]);
    }
  }

  /** An endpoint that has not finished can give up at any time. */
  lemma UnfinishedCanAbort(sha: Bytes -> Bytes, s: System, pk: Bytes, ct: Bytes)
    ensures pk in s.initiators && s.initiators[pk].stage != Completed ==>
              && Enabled(s, AbortInitiator(pk)) && Next(sha, s, AbortInitiator(pk)).initiators[pk].failed
    ensures ct in s.responders && s.responders[ct].stage != Accepted ==>
              && Enabled(s, AbortResponder(ct)) && Next(sha, s, AbortResponder(ct)).responders[ct].failed
  {
  }

  /** One that gave up, or was failed by a message, never moves again. */
  lemma {:induction false} FailedStaysFailed(sha: Bytes -> Bytes, s: System, events: seq<Event>, pk: Bytes, ct: Bytes)
    requires ValidRun(sha, s, events)
    ensures pk in s.initiators && s.initiators[pk].failed ==>
              pk in Run(sha, s, events).initiators && Run(sha, s, events).initiators[pk] == s.initiators[pk]
    ensures ct in s.responders && s.responders[ct].failed ==>
              ct in Run(sha, s, events).responders && Run(sha, s, events).responders[ct] == s.responders[ct]
    decreases |events|
  {
    if events != [] {
      FailedStaysFailed(sha, Next(sha, s, events[0]), events[1..], pk, ct);
    }
  }

  // ---- Agreement ----

  /** Both ends hold one session: identities, handshake fields, salts, keys and tokens all match up. */
  predicate Agree(i: Initiator, r: Responder)
  {
    && i.self == r.remote && i.remote == r.self
    && i.req == r.req && i.resp == Some(r.resp)
    && i.t.Some?
    && i.t.value.secret == r.t.secret && i.t.value.sid == r.t.sid
    && i.t.value.localSalt == r.t.remoteSalt && i.t.value.remoteSalt == r.t.localSalt
    && i.t.value.encoder == r.t.decoder && i.t.value.decoder == r.t.encoder
    && ResumptionTokens(i.t.value.secret, i.t.value.sid) == ResumptionTokens(r.t.secret, r.t.sid)
  }

  /** The initiator's side of a session. */
  predicate Holds(t: Option<Channel>, pk: Bytes, ct: Bytes, salt: Bytes, salt': Bytes, sid: Bytes)
  {
    && t.Some? && t.value.secret == Shared(pk, ct) && t.value.sid == sid
    && t.value.localSalt == salt && t.value.remoteSalt == salt'
    && t.value.encoder == Kdf(Shared(pk, ct), Atom(salt), C2S_INFO + sid)
    && t.value.decoder == Kdf(Shared(pk, ct), Atom(salt'), S2C_INFO + sid)
  }

  /** Crossed keys force everything they were derived from to be equal. */
  lemma CrossedKeysAgree(s: System, pk: Bytes, ct: Bytes)
    requires Inv(s) && pk in s.initiators && ct in s.responders
    requires Asked(s.initiators[pk], s.responders[ct]) && Answered(s.initiators[pk], s.responders[ct])
    ensures Agree(s.initiators[pk], s.responders[ct])
  {
    var i, r := s.initiators[pk], s.responders[ct];
    assert InitiatorOk(s, pk) && ResponderOk(s, ct);
    InfoInjective(C2S_INFO, C2S_INFO, i.t.value.sid, r.t.sid);
  }

  /**
   If a responder completes, exactly one initiator has completed with it: it sent
   its final echo, and both hold the same secret, session ID, salts, crossed keys,
   20 tokens and counters.
   */
  lemma ResponderAgreement(sha: Bytes -> Bytes, events: seq<Event>, ct: Bytes)
    requires ValidRun(sha, START, events)
    requires ct in Run(sha, START, events).responders
    requires Run(sha, START, events).responders[ct].stage == Accepted
    ensures var s := Run(sha, START, events);
            var r := s.responders[ct];
            && r.req.key in s.initiators
            && var i := s.initiators[r.req.key];
            && i.stage == Completed && Agree(i, r)
            && Holds(i.t, r.req.key, ct, r.req.salt, r.resp.salt, r.t.sid)
            && i.t.value.sendSequence == 2 && i.t.value.recvSequence == 2
            && r.t.sendSequence == 2 && r.t.recvSequence == 2
            && (forall pk :: pk in s.initiators && Agree(s.initiators[pk], r) ==> pk == r.req.key)
  {
    RunKeepsInv(sha, START, events);
    var s := Run(sha, START, events);
    var r := s.responders[ct];
    assert ResponderOk(s, ct);
    assert InitiatorOk(s, r.req.key);
    CrossedKeysAgree(s, r.req.key, ct);
    forall pk | pk in s.initiators && Agree(s.initiators[pk], r)
      ensures pk == r.req.key
    {
      assert InitiatorOk(s, pk);
    }
  }

  /**
   If an initiator completes, exactly one responder has sent its challenge with
   the same secret, session ID, salts, crossed keys and tokens.
   */
  lemma InitiatorAgreement(sha: Bytes -> Bytes, events: seq<Event>, pk: Bytes)
    requires ValidRun(sha, START, events)
    requires pk in Run(sha, START, events).initiators
    requires Run(sha, START, events).initiators[pk].stage == Completed
    ensures var s := Run(sha, START, events);
            var i := s.initiators[pk];
            && i.resp.Some? && i.resp.value.key in s.responders
            && var r := s.responders[i.resp.value.key];
            && r.stage != AwaitFirst && Agree(i, r)
            && Holds(i.t, pk, i.resp.value.key, i.req.salt, i.resp.value.salt, r.t.sid)
            && i.t.value.sendSequence == 2 && i.t.value.recvSequence == 2 && r.t.sendSequence == 2
            && (forall ct :: ct in s.responders && Agree(i, s.responders[ct]) ==> ct == i.resp.value.key)
  {
    RunKeepsInv(sha, START, events);
    var s := Run(sha, START, events);
    var i := s.initiators[pk];
    assert InitiatorOk(s, pk);
    assert ResponderOk(s, i.resp.value.key);
    CrossedKeysAgree(s, pk, i.resp.value.key);
    forall ct | ct in s.responders && Agree(i, s.responders[ct])
      ensures ct == i.resp.value.key
    {
      assert ResponderOk(s, ct);
    }
  }

  /** The 20 tokens of a session are pairwise different. */
  lemma TokensDistinct(secret: Term, sid: Bytes)
    ensures |ResumptionTokens(secret, sid)| == TOKEN_COUNT
    ensures forall i, j :: 0 <= i < j < TOKEN_COUNT ==>
              ResumptionTokens(secret, sid)[i] != ResumptionTokens(secret, sid)[j]
  {
    forall i, j | 0 <= i < j < TOKEN_COUNT
      ensures ResumptionTokens(secret, sid)[i] != ResumptionTokens(secret, sid)[j]
    {
      if TOKEN_INFO + BigEndian(i, 4) == TOKEN_INFO + BigEndian(j, 4) {
        SplitAt(TOKEN_INFO, TOKEN_INFO, BigEndian(i, 4), BigEndian(j, 4));
        assert Pow256(4) > TOKEN_COUNT by { assert Pow256(2) == 65536; }
        BigEndianInjective(i, j, 4);
        assert false;
      }
    }
  }

  /**
   Cold or resumed, with nothing lost, there is a run in which both sides complete.
   The initiator then holds the secret of this key pair and ciphertext, both salts, the
   agreed session ID, and one key per direction made of all of these; by
   `ResponderAgreement` the responder holds the same, crossed.
   */
  lemma HonestRunCompletes(
      sha: Bytes -> Bytes, pk: Bytes, ct: Bytes, a: Peer, b: Peer, salt: Bytes, salt': Bytes,
      prefix: Bytes, suffix: Bytes, resume: Option<Bytes>)
    requires |salt| == SALT_SIZE && |salt'| == SALT_SIZE
    requires |prefix| == SESSION_ID_LENGTH / 2 && |suffix| == SESSION_ID_LENGTH / 2
    requires resume.Some? ==> |resume.value| == SESSION_ID_LENGTH
    ensures var sid := if resume.Some? then resume.value else prefix + suffix;
            exists s :: Reaches(sha, s) && BothDone(s, pk, ct) && Holds(s.initiators[pk].t, pk, ct, salt, salt', sid)
  {
    var (i, hello) := StartInitiator(pk, a, b, salt, prefix, resume);
    var e0 := Dial(pk, a, b, salt, prefix, resume);
    assert START == Run(sha, START, []);
    ReachesStep(sha, START, e0);
    var s1 := Next(sha, START, e0);
    var e1 := Serve(ct, b, a, hello, salt', suffix, resume);
    ReachesStep(sha, s1, e1);
    var s2 := Next(sha, s1, e1);
    var e2 := DeliverToInitiator(pk, StartResponder(ct, b, a, hello, salt', suffix, resume).value.1);
    ReachesStep(sha, s2, e2);
    var s3 := Next(sha, s2, e2);
    HonestChallengesComplete(sha, s3, pk, ct);
    var s :| Reaches(sha, s) && BothDone(s, pk, ct) && SameKeys(s.initiators[pk], s3.initiators[pk]);
    var sid := if resume.Some? then resume.value else prefix + suffix;
    assert Holds(s3.initiators[pk].t, pk, ct, salt, salt', sid);
  }

  predicate BothDone(s: System, pk: Bytes, ct: Bytes)
  {
    && pk in s.initiators && s.initiators[pk].stage == Completed
    && ct in s.responders && s.responders[ct].stage == Accepted
  }

  /** Only the counters moved. */
  predicate SameKeys(i: Initiator, i': Initiator)
  {
    && i.t.Some? && i'.t.Some?
    && i.t.value.(sendSequence := 0, recvSequence := 0) == i'.t.value.(sendSequence := 0, recvSequence := 0)
  }

  ghost predicate Reaches(sha: Bytes -> Bytes, s: System)
  {
    exists events :: ValidRun(sha, START, events) && Run(sha, START, events) == s
  }

  lemma ReachesStep(sha: Bytes -> Bytes, s: System, e: Event)
    requires Reaches(sha, s) && Enabled(s, e)
    ensures Reaches(sha, Next(sha, s, e))
  {
    var events :| ValidRun(sha, START, events) && Run(sha, START, events) == s;
    RunSnoc(sha, START, events, e);
  }

  lemma {:induction false} RunSnoc(sha: Bytes -> Bytes, s: System, events: seq<Event>, e: Event)
    requires ValidRun(sha, s, events) && Enabled(Run(sha, s, events), e)
    ensures ValidRun(sha, s, events + [e])
    ensures Run(sha, s, events + [e]) == Next(sha, Run(sha, s, events), e)
    decreases |events|
  {
    if events == [] {
      assert (events + [e])[1..] == [];
    } else {
      assert (events + [e])[1..] == events[1..] + [e];
      RunSnoc(sha, Next(sha, s, events[0]), events[1..], e);
    }
  }

  /** From exchanged hellos, four deliveries finish the challenge exchange. */
  lemma HonestChallengesComplete(sha: Bytes -> Bytes, s3: System, pk: Bytes, ct: Bytes)
    requires Reaches(sha, s3) && pk in s3.initiators && ct in s3.responders
    requires var i, r := s3.initiators[pk], s3.responders[ct];
             && i.stage == AwaitEcho && r.stage == AwaitFirst && !i.failed && !r.failed
             && i.t.Some? && i.resp == Some(r.resp) && i.req == r.req && i.self == r.remote && i.remote == r.self
             && i.t.value.sendSequence == 1 && i.t.value.recvSequence == 0
             && r.t.sendSequence == 0 && r.t.recvSequence == 0
             && i.t.value.encoder == r.t.decoder && i.t.value.decoder == r.t.encoder
             && i.t.value.secret == r.t.secret && i.t.value.sid == r.t.sid
             && Sealed(i.t.value.encoder, i.self, SendChallenge, 1,
                       Challenge(sha, i.t.value, C2S_INFO, i.req, r.resp)) in s3.net
    ensures exists s :: Reaches(sha, s) && BothDone(s, pk, ct) && SameKeys(s.initiators[pk], s3.initiators[pk])
  {
    var i, r := s3.initiators[pk], s3.responders[ct];
    var ci, cr := Challenge(sha, i.t.value, C2S_INFO, i.req, r.resp), Challenge(sha, r.t, S2C_INFO, r.req, r.resp);
    var e3 := DeliverToResponder(ct, Sealed(i.t.value.encoder, i.self, SendChallenge, 1, ci));
    ReachesStep(sha, s3, e3);
    var s4 := Next(sha, s3, e3);
    HonestEchoesComplete(sha, s4, pk, ct, ci, cr);
  }

  lemma HonestEchoesComplete(sha: Bytes -> Bytes, s4: System, pk: Bytes, ct: Bytes, ci: Term, cr: Term)
    requires Reaches(sha, s4) && pk in s4.initiators && ct in s4.responders
    requires var i, r := s4.initiators[pk], s4.responders[ct];
             && i.stage == AwaitEcho && r.stage == AwaitLast && !i.failed && !r.failed
             && i.t.Some? && i.resp == Some(r.resp) && i.self == r.remote && i.remote == r.self
             && i.t.value.sendSequence == 1 && i.t.value.recvSequence == 0
             && r.t.sendSequence == 2 && r.t.recvSequence == 1
             && i.t.value.encoder == r.t.decoder && i.t.value.decoder == r.t.encoder
             && ci == Challenge(sha, i.t.value, C2S_INFO, i.req, r.resp)
             && cr == Challenge(sha, r.t, S2C_INFO, r.req, r.resp)
             && Sealed(r.t.encoder, r.self, VerifyChallenge, 1, ci) in s4.net
             && Sealed(r.t.encoder, r.self, SendChallenge, 2, cr) in s4.net
    ensures exists s :: Reaches(sha, s) && BothDone(s, pk, ct) && SameKeys(s.initiators[pk], s4.initiators[pk])
  {
    var i, r := s4.initiators[pk], s4.responders[ct];
    var m4 := Sealed(r.t.encoder, r.self, VerifyChallenge, 1, ci);
    var t4 := i.t.value.(recvSequence := 1);
    assert InitiatorReads(sha, i, m4) == (i.(stage := AwaitChallenge, t := Some(t4)), {});
    ReachesStep(sha, s4, DeliverToInitiator(pk, m4));
    var s5 := Next(sha, s4, DeliverToInitiator(pk, m4));
    var m5 := Sealed(r.t.encoder, r.self, SendChallenge, 2, cr);
    var m6 := Sealed(r.t.decoder, i.self, VerifyChallenge, 2, cr);
    assert InitiatorReads(sha, s5.initiators[pk], m5).1 == {m6};
    ReachesStep(sha, s5, DeliverToInitiator(pk, m5));
    HonestLastEcho(sha, Next(sha, s5, DeliverToInitiator(pk, m5)), pk, ct, cr);
  }

  lemma HonestLastEcho(sha: Bytes -> Bytes, s6: System, pk: Bytes, ct: Bytes, cr: Term)
    requires Reaches(sha, s6) && pk in s6.initiators && ct in s6.responders
    requires s6.initiators[pk].stage == Completed && s6.initiators[pk].t.Some?
    requires var r := s6.responders[ct];
             && r.stage == AwaitLast && !r.failed && r.t.recvSequence == 1
             && cr == Challenge(sha, r.t, S2C_INFO, r.req, r.resp)
             && Sealed(r.t.decoder, r.remote, VerifyChallenge, 2, cr) in s6.net
    ensures exists s :: Reaches(sha, s) && BothDone(s, pk, ct) && SameKeys(s.initiators[pk], s6.initiators[pk])
  {
    var r := s6.responders[ct];
    var m6 := Sealed(r.t.decoder, r.remote, VerifyChallenge, 2, cr);
    assert ResponderReads(sha, r, m6).0.stage == Accepted;
    ReachesStep(sha, s6, DeliverToResponder(ct, m6));
    assert BothDone(Next(sha, s6, DeliverToResponder(ct, m6)), pk, ct);
  }
}
