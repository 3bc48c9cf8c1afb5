/**
 The relay's session table: a token pairs one listening channel with one dialing
 channel, and frames are forwarded to the partner found by token lookup. Every
 locked section is one step, so a run interleaves any number of connections.
 */
module RelaySessions {
  import opened Encoding
  import opened Wrappers

  type Channel = nat
  type Token = Bytes
  type Time = int

  datatype Session = Session(listener: Channel, dialer: Option<Channel>, expiry: Time, sessionExpiry: Option<Time>)

  type Table = map<Token, Session>

  datatype Error = SessionFull | TokenNotFound | TokenConsumed | PeerNotFound | SessionExpired | TokenInUse | BadToken

  // ---- The locked sections as functions ----

  predicate Expired(s: Session, now: Time)
  {
    if s.dialer.None? then now > s.expiry else s.sessionExpiry.Some? && now > s.sessionExpiry.value
  }

  function Purged(t: Table, now: Time): (r: Table)
    ensures r.Keys <= t.Keys
  {
    map k | k in t && !Expired(t[k], now) :: t[k]
  }

  /** A random token: an entry under the same token would be replaced. */
  function Created(t: Table, maxConns: int, listener: Channel, token: Token, expiry: Time): (r: Result<Table, Error>)
  {
    if |t| >= maxConns then Err(SessionFull) else Ok(t[token := Session(listener, None, expiry, None)])
  }

  /** A caller-provided token: capacity is checked before uniqueness. */
  function CreatedWith(t: Table, maxConns: int, listener: Channel, token: Token, expiry: Time)
    : (r: Result<Table, Error>)
  {
    if |t| >= maxConns then Err(SessionFull)
    else if token in t then Err(TokenInUse)
    else Created(t, maxConns, listener, token, expiry)
  }

  /** Expiry is looked at before the dialer slot, so a late join also removes a paired session. */
  function Joined(t: Table, token: Token, dialer: Channel, now: Time, sessionTTL: nat): (r: (Table, Result<(), Error>))
  {
    if token !in t then (t, Err(TokenNotFound))
    else if now > t[token].expiry then (t - {token}, Err(SessionExpired))
    else if t[token].dialer.Some? then (t, Err(TokenConsumed))
    else (t[token := t[token].(dialer := Some(dialer),
                               sessionExpiry := if sessionTTL > 0 then Some(now + sessionTTL) else None)],
          Ok(()))
  }

  function Recipient(t: Table, token: Token, sender: Channel): (r: Result<Channel, Error>)
  {
    if token !in t then Err(TokenNotFound)
    else if sender == t[token].listener then
      if t[token].dialer.None? then Err(PeerNotFound) else Ok(t[token].dialer.value)
    else if t[token].dialer == Some(sender) then Ok(t[token].listener)
    else Err(PeerNotFound)
  }

  // ---- When the locked sections succeed, and what follows ----

  /** A purge keeps a waiting session up to its token's expiry, and a paired one up to its own, if it has one. */
  lemma PurgeKeepsIff(t: Table, now: Time, k: Token)
    ensures k in Purged(t, now) <==>
            && k in t
            && (t[k].dialer.None? ==> now <= t[k].expiry)
            && (t[k].dialer.Some? && t[k].sessionExpiry.Some? ==> now <= t[k].sessionExpiry.value)
    ensures k in Purged(t, now) ==> Purged(t, now)[k] == t[k]
  {
  }

  /** No other session is touched. */
  ghost predicate OthersKept(t: Table, t': Table, token: Token)
  {
    forall k :: k != token ==> (k in t' <==> k in t) && (k in t ==> t'[k] == t[k])
  }

  /** A new session waits: nobody to forward to yet, open to a dialer and kept by purges until it expires. */
  ghost predicate Waits(t: Table, token: Token, listener: Channel, expiry: Time)
  {
    && Recipient(t, token, listener) == Err(PeerNotFound)
    && (forall d, now, ttl :: Joined(t, token, d, now, ttl).1.Ok? <==> now <= expiry)
    && (forall now :: token in Purged(t, now) <==> now <= expiry)
  }

  lemma CreatedIff(t: Table, maxConns: int, listener: Channel, token: Token, expiry: Time)
    ensures Created(t, maxConns, listener, token, expiry).Ok? <==> |t| < maxConns
    ensures CreatedWith(t, maxConns, listener, token, expiry).Ok? <==> |t| < maxConns && token !in t
    ensures CreatedWith(t, maxConns, listener, token, expiry) == Err(TokenInUse) <==> |t| < maxConns && token in t
    ensures CreatedWith(t, maxConns, listener, token, expiry) == Err(SessionFull) <==> |t| >= maxConns
    ensures Created(t, maxConns, listener, token, expiry) == Err(SessionFull) <==> |t| >= maxConns
    ensures Created(t, maxConns, listener, token, expiry).Ok? ==>
              var t' := Created(t, maxConns, listener, token, expiry).value;
              Waits(t', token, listener, expiry) && OthersKept(t, t', token)
    ensures CreatedWith(t, maxConns, listener, token, expiry).Ok? ==>
              CreatedWith(t, maxConns, listener, token, expiry) == Created(t, maxConns, listener, token, expiry)
  {
  }

  /** Each end finds the other, and purges keep the session for `ttl`, or for ever if it is zero. */
  ghost predicate Pairs(t: Table, token: Token, listener: Channel, dialer: Channel, now: Time, ttl: nat)
  {
    && Recipient(t, token, listener) == Ok(dialer) && Recipient(t, token, dialer) == Ok(listener)
    && (forall later :: token in Purged(t, later) <==> ttl == 0 || later <= now + ttl)
  }

  /**
   A join pairs exactly a waiting session that has not expired. An expired one, paired or
   not, is removed; a taken or unknown token changes nothing.
   */
  lemma JoinedIff(t: Table, token: Token, dialer: Channel, now: Time, ttl: nat)
    ensures var (t', r) := Joined(t, token, dialer, now, ttl);
            && (r.Ok? <==> token in t && now <= t[token].expiry && t[token].dialer.None?)
            && (r == Err(TokenNotFound) <==> token !in t)
            && (r == Err(SessionExpired) <==> token in t && now > t[token].expiry)
            && (r == Err(TokenConsumed) <==> token in t && now <= t[token].expiry && t[token].dialer.Some?)
            && (r.Ok? ==> Pairs(t', token, t[token].listener, dialer, now, ttl))
            && (r == Err(SessionExpired) ==> token !in t')
            && (r == Err(TokenNotFound) || r == Err(TokenConsumed) ==> t' == t)
            && OthersKept(t, t', token)
  {
  }

  // ---- The manager ----

  class SessionManager {
    var sessions: Table
    const ttl: nat
    const sessionTTL: nat
    const maxConns: int

    constructor (ttl: nat, maxConns: int, sessionTTL: nat)
      ensures sessions == map[] && this.ttl == ttl && this.maxConns == maxConns && this.sessionTTL == sessionTTL
    {
      sessions, this.ttl, this.maxConns, this.sessionTTL := map[], ttl, maxConns, sessionTTL;
    }

    /** Drop every expired session; returns the channels to close. */
    method PurgeExpired(now: Time) returns (closing: set<Channel>)
      modifies this
      ensures sessions == Purged(old(sessions), now)
      ensures forall c :: c in closing <==>
                exists k :: k in old(sessions) && Expired(old(sessions)[k], now)
                            && (c == old(sessions)[k].listener || old(sessions)[k].dialer == Some(c))
    {
      closing := {};
      var todo := sessions.Keys;
      ghost var t0 := sessions;
      while todo != {}
        invariant todo <= t0.Keys
        invariant sessions == map k | k in t0 && (k in todo || !Expired(t0[k], now)) :: t0[k]
        invariant forall c :: c in closing <==>
                    exists k :: k in t0 && k !in todo && Expired(t0[k], now)
                                && (c == t0[k].listener || t0[k].dialer == Some(c))
        decreases |todo|
      {
        var k :| k in todo;
        var s := sessions[k];
        if s.dialer.None? && now > s.expiry {
          sessions := sessions - {k};
          closing := closing + {s.listener};
        } else if s.dialer.Some? && s.sessionExpiry.Some? && now > s.sessionExpiry.value {
          sessions := sessions - {k};
          closing := closing + {s.listener, s.dialer.value};
        }
        todo := todo - {k};
      }
    }

    method Create(listener: Channel, random: Token, purgeAt: Time, now: Time) returns (r: Result<Token, Error>)
      modifies this
      ensures var t := Purged(old(sessions), purgeAt);
              match Created(t, maxConns, listener, random, now + ttl)
              case Ok(t') => r == Ok(random) && sessions == t'
              case Err(e) => r == Err(e) && sessions == t
      ensures |sessions| <= maxConns || |sessions| <= |old(sessions)|
    {
      var _ := PurgeExpired(purgeAt);
      PurgedSmaller(old(sessions), purgeAt);
      if |sessions| >= maxConns {
        return Err(SessionFull);
      }
      sessions := sessions[random := Session(listener, None, now + ttl, None)];
      return Ok(random);
    }

    method CreateWith(listener: Channel, token: Token, tokenOk: bool, purgeAt: Time, now: Time)
      returns (r: Result<(), Error>)
      modifies this
      ensures !tokenOk ==> r == Err(BadToken) && sessions == old(sessions)
      ensures tokenOk ==>
                var t := Purged(old(sessions), purgeAt);
                match CreatedWith(t, maxConns, listener, token, now + ttl)
                case Ok(t') => r == Ok(()) && sessions == t'
                case Err(e) => r == Err(e) && sessions == t
    {
      if !tokenOk {
        return Err(BadToken);
      }
      var _ := PurgeExpired(purgeAt);
      if |sessions| >= maxConns {
        return Err(SessionFull);
      }
      if token in sessions {
        return Err(TokenInUse);
      }
      sessions := sessions[token := Session(listener, None, now + ttl, None)];
      return Ok(());
    }

    method Join(token: Token, dialer: Channel, now: Time) returns (r: Result<(), Error>)
      modifies this
      ensures (sessions, r) == Joined(old(sessions), token, dialer, now, sessionTTL)
      ensures r.Ok? <==>
              token in old(sessions) && now <= old(sessions)[token].expiry && old(sessions)[token].dialer.None?
      ensures r.Ok? ==> Pairs(sessions, token, old(sessions)[token].listener, dialer, now, sessionTTL)
      ensures r == Err(SessionExpired) ==> token !in sessions
      ensures OthersKept(old(sessions), sessions, token)
    {
      JoinedIff(sessions, token, dialer, now, sessionTTL);
      if token !in sessions {
        return Err(TokenNotFound);
      }
      var s := sessions[token];
      if now > s.expiry {
        sessions := sessions - {token};
        return Err(SessionExpired);
      }
      if s.dialer.Some? {
        return Err(TokenConsumed);
      }
      s := s.(dialer := Some(dialer));
      s := s.(sessionExpiry := if sessionTTL > 0 then Some(now + sessionTTL) else None);
      sessions := sessions[token := s];
      return Ok(());
    }

    /** The locked half of ClosePeerChannel: the channel to close, if any, is the one Recipient would find. */
    method PeerToClose(token: Token, gone: Channel) returns (peer: Option<Channel>)
      ensures peer == match Recipient(sessions, token, gone) case Ok(c) => Some(c) case Err(_) => None
    {
      if token !in sessions {
        return None;
      }
      var s := sessions[token];
      if gone == s.listener {
        return s.dialer;
      }
      if s.dialer == Some(gone) {
        return Some(s.listener);
      }
      return None;
    }

    method Remove(token: Token)
      modifies this
      ensures sessions == old(sessions) - {token}
    {
      sessions := sessions - {token};
    }
  }

  lemma PurgedSmaller(t: Table, now: Time)
    ensures |Purged(t, now)| <= |t|
  {
    SubsetSize(Purged(t, now).Keys, t.Keys);
  }

  lemma {:induction false} SubsetSize<T>(a: set<T>, b: set<T>)
    requires a <= b
    ensures |a| <= |b|
  {
    if a != {} {
      var x :| x in a;
      SubsetSize(a - {x}, b - {x});
    }
  }

  // ---- The relay as a whole ----

  datatype Role = Listener | Dialer

  datatype Pairing = Pairing(listener: Channel, dialer: Channel)

  /**
   `role` and `token` of every channel that registered (a connection registers at
   most once), every pairing ever made, every peer looked up, and the forwards and
   closes carried out on peers looked up earlier.
   */
  datatype Relay = Relay(
    table: Table, role: map<Channel, Role>, token: map<Channel, Token>, spent: set<Channel>,
    pairings: seq<Pairing>, pending: set<(Channel, Channel)>,
    forwarded: seq<(Channel, Channel)>, closed: seq<(Channel, Channel)>)

  const START: Relay := Relay(map[], map[], map[], {}, [], {}, [], [])

  datatype Event =
    | Create(ch: Channel, random: Token, expiry: Time)
    | CreateWith(ch: Channel, chosen: Token, expiry: Time)
    | Join(ch: Channel, offered: Token, now: Time)
    | Purge(now: Time)
    // Recipient and the locked half of ClosePeerChannel find the same channel.
    | Lookup(sender: Channel)
    | WriteToRecipient(sender: Channel, recipient: Channel)
    // ClosePeerChannel after its lookup, or a failed write's close of the recipient.
    | ClosePeer(sender: Channel, recipient: Channel)
    | Unregister(ch: Channel)

  predicate Enabled(s: Relay, e: Event)
  {
    match e
    case Create(ch, _, _) => ch !in s.spent
    case CreateWith(ch, _, _) => ch !in s.spent
    case Join(ch, _, _) => ch !in s.spent
    case Purge(_) => true
    case Lookup(sender) => sender in s.token
    case WriteToRecipient(sender, recipient) => (sender, recipient) in s.pending
    case ClosePeer(sender, recipient) => (sender, recipient) in s.pending
    case Unregister(ch) => ch in s.token
  }

  function Listening(s: Relay, ch: Channel, token: Token, r: Result<Table, Error>): (s': Relay)
  {
    match r
    case Err(_) => s.(spent := s.spent + {ch})
    case Ok(t) => s.(table := t, role := s.role[ch := Listener], token := s.token[ch := token], spent := s.spent + {ch})
  }

  function Next(s: Relay, maxConns: int, sessionTTL: nat, e: Event): (s': Relay)
    requires Enabled(s, e)
  {
    match e
    case Create(ch, random, expiry) => Listening(s, ch, random, Created(s.table, maxConns, ch, random, expiry))
    case CreateWith(ch, chosen, expiry) => Listening(s, ch, chosen, CreatedWith(s.table, maxConns, ch, chosen, expiry))
    case Join(ch, offered, now) => (
      var (t, r) := Joined(s.table, offered, ch, now, sessionTTL);
      match r
      case Err(_) => s.(table := t, spent := s.spent + {ch})
      case Ok(_) =>
        s.(table := t, role := s.role[ch := Dialer], token := s.token[ch := offered], spent := s.spent + {ch},
           pairings := s.pairings + [Pairing(t[offered].listener, ch)]))
    case Purge(now) => s.(table := Purged(s.table, now))
    case Lookup(sender) => (
      match Recipient(s.table, s.token[sender], sender)
      case Err(_) => s
      case Ok(recipient) => s.(pending := s.pending + {(sender, recipient)}))
    case WriteToRecipient(sender, recipient) => s.(forwarded := s.forwarded + [(sender, recipient)])
    case ClosePeer(sender, recipient) => s.(closed := s.closed + [(sender, recipient)])
    case Unregister(ch) => s.(table := s.table - {s.token[ch]})
  }

  // ---- Invariant ----

  predicate Paired(s: Relay, a: Channel, b: Channel)
  {
    Pairing(a, b) in s.pairings || Pairing(b, a) in s.pairings
  }

  predicate SessionOk(s: Relay, token: Token)
    requires token in s.table
  {
    var sess := s.table[token];
    && sess.listener in s.role && s.role[sess.listener] == Listener
    && sess.listener in s.token && s.token[sess.listener] == token
    && (match sess.dialer
        case None => forall p :: p in s.pairings ==> p.listener != sess.listener
        case Some(d) => Pairing(sess.listener, d) in s.pairings)
  }

  predicate RolesOk(s: Relay, p: Pairing)
  {
    && p.listener in s.role && s.role[p.listener] == Listener
    && p.dialer in s.role && s.role[p.dialer] == Dialer
  }

  /** Every pairing joins a listener and a dialer, and no channel is in two. */
  ghost predicate PairingsOk(s: Relay)
  {
    && (forall p :: p in s.pairings ==> RolesOk(s, p))
    && (forall i, j :: 0 <= i < j < |s.pairings| ==>
                         && s.pairings[i].listener != s.pairings[j].listener
                         && s.pairings[i].dialer != s.pairings[j].dialer)
  }

  ghost predicate Inv(s: Relay, maxConns: int)
  {
    && s.role.Keys == s.token.Keys <= s.spent
    && (forall k :: k in s.table ==> SessionOk(s, k))
    && PairingsOk(s)
    && (forall a, b :: (a, b) in s.pending ==> Paired(s, a, b))
    && (forall i :: 0 <= i < |s.forwarded| ==> s.forwarded[i] in s.pending)
    && (forall i :: 0 <= i < |s.closed| ==> s.closed[i] in s.pending)
    && (|s.table| == 0 || |s.table| <= maxConns)
  }

  lemma ListeningKeeps(s: Relay, maxConns: int, ch: Channel, token: Token, expiry: Time)
    requires Inv(s, maxConns) && ch !in s.spent
    ensures Inv(Listening(s, ch, token, Created(s.table, maxConns, ch, token, expiry)), maxConns)
  {
    var s' := Listening(s, ch, token, Created(s.table, maxConns, ch, token, expiry));
    if |s.table| < maxConns {
      forall k | k in s'.table
        ensures SessionOk(s', k)
      {
        if k != token {
          assert SessionOk(s, k);
        } else {
          forall p | p in s'.pairings
            ensures p.listener != ch
          {
            assert RolesOk(s, p);
          }
        }
      }
      forall p | p in s'.pairings
        ensures RolesOk(s', p)
      {
        assert RolesOk(s, p);
      }
    } else {
      FrameKeeps(s, s', maxConns);
    }
  }

  /** Steps that only shrink the table, or touch nothing but `spent`, keep everything. */
  lemma FrameKeeps(s: Relay, s': Relay, maxConns: int)
    requires Inv(s, maxConns)
    requires s' == s.(table := s'.table, spent := s'.spent) && s.spent <= s'.spent
    requires s'.table.Keys <= s.table.Keys && forall k :: k in s'.table ==> s'.table[k] == s.table[k]
    ensures Inv(s', maxConns)
  {
    SubsetSize(s'.table.Keys, s.table.Keys);
    forall k | k in s'.table
      ensures SessionOk(s', k)
    {
      assert SessionOk(s, k);
    }
    forall p | p in s'.pairings
      ensures RolesOk(s', p)
    {
      assert RolesOk(s, p);
    }
  }

  lemma JoinKeepsSessions(s: Relay, maxConns: int, sessionTTL: nat, ch: Channel, token: Token, now: Time)
    requires Inv(s, maxConns) && ch !in s.spent
    requires Joined(s.table, token, ch, now, sessionTTL).1.Ok?
    ensures var s' := Next(s, maxConns, sessionTTL, Join(ch, token, now));
            forall k :: k in s'.table ==> SessionOk(s', k)
  {
    var s' := Next(s, maxConns, sessionTTL, Join(ch, token, now));
    assert SessionOk(s, token);
    forall k | k in s'.table
      ensures SessionOk(s', k)
    {
      assert SessionOk(s, k);
      assert s'.table[k].listener == s.table[k].listener;
    }
  }

  lemma PairingAdded(s: Relay, s': Relay, p: Pairing)
    requires PairingsOk(s) && s'.pairings == s.pairings + [p]
    requires p.dialer !in s.role && s'.role == s.role[p.dialer := Dialer]
    requires p.listener in s.role && s.role[p.listener] == Listener
    requires forall q :: q in s.pairings ==> q.listener != p.listener
    ensures PairingsOk(s')
  {
    forall q | q in s'.pairings
      ensures RolesOk(s', q)
    {
      assert q != p ==> RolesOk(s, q);
    }
    forall i | 0 <= i < |s.pairings|
      ensures s.pairings[i].listener != p.listener && s.pairings[i].dialer != p.dialer
    {
      assert s.pairings[i] in s.pairings && RolesOk(s, s.pairings[i]);
    }
  }

  lemma JoinKeeps(s: Relay, maxConns: int, sessionTTL: nat, ch: Channel, token: Token, now: Time)
    requires Inv(s, maxConns) && ch !in s.spent
    requires Joined(s.table, token, ch, now, sessionTTL).1.Ok?
    ensures Inv(Next(s, maxConns, sessionTTL, Join(ch, token, now)), maxConns)
  {
    var s' := Next(s, maxConns, sessionTTL, Join(ch, token, now));
    assert SessionOk(s, token);
    JoinKeepsSessions(s, maxConns, sessionTTL, ch, token, now);
    PairingAdded(s, s', Pairing(s.table[token].listener, ch));
    assert s'.table.Keys == s.table.Keys;
    forall a, b | (a, b) in s'.pending
      ensures Paired(s', a, b)
    {
      assert Paired(s, a, b);
    }
  }

  /** The channel found by a lookup is the sender's partner, also when the token was reused. */
  lemma RecipientIsPartner(s: Relay, maxConns: int, sender: Channel)
    requires Inv(s, maxConns) && sender in s.token
    requires Recipient(s.table, s.token[sender], sender).Ok?
    ensures Paired(s, sender, Recipient(s.table, s.token[sender], sender).value)
  {
    assert SessionOk(s, s.token[sender]);
  }

  lemma CreateWithKeeps(s: Relay, maxConns: int, sessionTTL: nat, ch: Channel, chosen: Token, expiry: Time)
    requires Inv(s, maxConns) && ch !in s.spent
    ensures Inv(Next(s, maxConns, sessionTTL, CreateWith(ch, chosen, expiry)), maxConns)
  {
    if |s.table| < maxConns && chosen in s.table {
      FrameKeeps(s, Next(s, maxConns, sessionTTL, CreateWith(ch, chosen, expiry)), maxConns);
    } else {
      ListeningKeeps(s, maxConns, ch, chosen, expiry);
    }
  }

  lemma JoinAttemptKeeps(s: Relay, maxConns: int, sessionTTL: nat, ch: Channel, offered: Token, now: Time)
    requires Inv(s, maxConns) && ch !in s.spent
    ensures Inv(Next(s, maxConns, sessionTTL, Join(ch, offered, now)), maxConns)
  {
    if Joined(s.table, offered, ch, now, sessionTTL).1.Ok? {
      JoinKeeps(s, maxConns, sessionTTL, ch, offered, now);
    } else {
      FrameKeeps(s, Next(s, maxConns, sessionTTL, Join(ch, offered, now)), maxConns);
    }
  }

  /** Lookups and what is done on their results. */
  lemma TrafficKeeps(s: Relay, maxConns: int, sessionTTL: nat, e: Event)
    requires Inv(s, maxConns) && Enabled(s, e) && (e.Lookup? || e.WriteToRecipient? || e.ClosePeer?)
    ensures Inv(Next(s, maxConns, sessionTTL, e), maxConns)
  {
    if e.Lookup? && Recipient(s.table, s.token[e.sender], e.sender).Ok? {
      RecipientIsPartner(s, maxConns, e.sender);
    }
    LookupKeeps(s, Next(s, maxConns, sessionTTL, e), maxConns);
  }

  lemma NextKeepsInv(s: Relay, maxConns: int, sessionTTL: nat, e: Event)
    requires Inv(s, maxConns) && Enabled(s, e)
    ensures Inv(Next(s, maxConns, sessionTTL, e), maxConns)
  {
    match e
    case Create(ch, random, expiry) => ListeningKeeps(s, maxConns, ch, random, expiry);
    case CreateWith(ch, chosen, expiry) => CreateWithKeeps(s, maxConns, sessionTTL, ch, chosen, expiry);
    case Join(ch, offered, now) => JoinAttemptKeeps(s, maxConns, sessionTTL, ch, offered, now);
    case Purge(_) => FrameKeeps(s, Next(s, maxConns, sessionTTL, e), maxConns);
    case Unregister(_) => FrameKeeps(s, Next(s, maxConns, sessionTTL, e), maxConns);
    case _ => TrafficKeeps(s, maxConns, sessionTTL, e);
  }

  lemma LookupKeeps(s: Relay, s': Relay, maxConns: int)
    requires Inv(s, maxConns)
    requires s' == s.(pending := s'.pending, forwarded := s'.forwarded, closed := s'.closed)
    requires s.pending <= s'.pending && forall a, b :: (a, b) in s'.pending ==> (a, b) in s.pending || Paired(s, a, b)
    requires forall i :: 0 <= i < |s'.forwarded| ==> s'.forwarded[i] in s'.pending
    requires forall i :: 0 <= i < |s'.closed| ==> s'.closed[i] in s'.pending
    ensures Inv(s', maxConns)
  {
    forall k | k in s'.table
      ensures SessionOk(s', k)
    {
      assert SessionOk(s, k);
    }
    forall p | p in s'.pairings
      ensures RolesOk(s', p)
    {
      assert RolesOk(s, p);
    }
    forall a, b | (a, b) in s'.pending
      ensures Paired(s', a, b)
    {
      assert Paired(s, a, b);
    }
  }

  // ---- Runs ----

  ghost predicate ValidRun(s: Relay, maxConns: int, sessionTTL: nat, events: seq<Event>)
    decreases |events|
  {
    events == [] ||
    (Enabled(s, events[0]) && ValidRun(Next(s, maxConns, sessionTTL, events[0]), maxConns, sessionTTL, events[1..]))
  }

  ghost function Run(s: Relay, maxConns: int, sessionTTL: nat, events: seq<Event>): (r: Relay)
    requires ValidRun(s, maxConns, sessionTTL, events)
    decreases |events|
  {
    if events == [] then s
    else Run(Next(s, maxConns, sessionTTL, events[0]), maxConns, sessionTTL, events[1..])
  }

  lemma {:induction false} RunKeepsInv(s: Relay, maxConns: int, sessionTTL: nat, events: seq<Event>)
    requires Inv(s, maxConns) && ValidRun(s, maxConns, sessionTTL, events)
    ensures Inv(Run(s, maxConns, sessionTTL, events), maxConns)
    decreases |events|
  {
    if events != [] {
      NextKeepsInv(s, maxConns, sessionTTL, events[0]);
      RunKeepsInv(Next(s, maxConns, sessionTTL, events[0]), maxConns, sessionTTL, events[1..]);
    }
  }

  /** Some channel takes part in both pairings, in whichever role. */
  predicate Share(p: Pairing, q: Pairing)
  {
    p.listener == q.listener || p.listener == q.dialer || p.dialer == q.listener || p.dialer == q.dialer
  }

  lemma SharedIsSame(s: Relay, i: nat, j: nat)
    requires PairingsOk(s) && i < |s.pairings| && j < |s.pairings| && Share(s.pairings[i], s.pairings[j])
    ensures i == j
  {
    assert RolesOk(s, s.pairings[i]) && RolesOk(s, s.pairings[j]);
  }

  lemma OnePartner(s: Relay, a: Channel, b: Channel, c: Channel)
    requires PairingsOk(s) && Paired(s, a, b) && Paired(s, a, c)
    ensures b == c && a != b
  {
    var p := if Pairing(a, b) in s.pairings then Pairing(a, b) else Pairing(b, a);
    var q := if Pairing(a, c) in s.pairings then Pairing(a, c) else Pairing(c, a);
    var i :| 0 <= i < |s.pairings| && s.pairings[i] == p;
    var j :| 0 <= j < |s.pairings| && s.pairings[j] == q;
    SharedIsSame(s, i, j);
    assert RolesOk(s, p);
  }

  /** What was looked up once was a partner, so everything done on it reached one. */
  lemma ActsReachPartners(s: Relay, maxConns: int, acts: seq<(Channel, Channel)>)
    requires Inv(s, maxConns) && forall i :: 0 <= i < |acts| ==> acts[i] in s.pending
    ensures forall i :: 0 <= i < |acts| ==> Paired(s, acts[i].0, acts[i].1)
  {
    forall i | 0 <= i < |acts|
      ensures Paired(s, acts[i].0, acts[i].1)
    {
      var (a, b) := acts[i];
      assert (a, b) in s.pending;
    }
  }

  /**
   In every run: a channel takes part in one pairing in its whole life, in the role
   it registered for, and so has at most one partner; a frame or a close reaches only
   its sender's partner, even after the token is reused; and the table never exceeds
   its capacity.
   */
  lemma OnePartnerForLife(maxConns: int, sessionTTL: nat, events: seq<Event>)
    requires ValidRun(START, maxConns, sessionTTL, events)
    ensures var s := Run(START, maxConns, sessionTTL, events);
            && (forall i, j :: 0 <= i < |s.pairings| && 0 <= j < |s.pairings| && Share(s.pairings[i], s.pairings[j])
                               ==> i == j)
            && (forall i :: 0 <= i < |s.pairings| ==> RolesOk(s, s.pairings[i]))
            && (forall a, b, c :: Paired(s, a, b) && Paired(s, a, c) ==> b == c)
            && (forall a, b :: Paired(s, a, b) ==> a != b)
            && (forall i :: 0 <= i < |s.forwarded| ==> Paired(s, s.forwarded[i].0, s.forwarded[i].1))
            && (forall i :: 0 <= i < |s.closed| ==> Paired(s, s.closed[i].0, s.closed[i].1))
            && (|s.table| == 0 || |s.table| <= maxConns)
  {
    RunKeepsInv(START, maxConns, sessionTTL, events);
    var s := Run(START, maxConns, sessionTTL, events);
    forall i, j | 0 <= i < |s.pairings| && 0 <= j < |s.pairings| && Share(s.pairings[i], s.pairings[j])
      ensures i == j
    {
      SharedIsSame(s, i, j);
    }
    forall a, b, c | Paired(s, a, b) && Paired(s, a, c)
      ensures b == c && a != b
    {
      OnePartner(s, a, b, c);
    }
    ActsReachPartners(s, maxConns, s.forwarded);
    ActsReachPartners(s, maxConns, s.closed);
  }

  /**
   A session created and joined up to its expiry adds exactly that pairing and opens
   both directions; joined later it adds none and is gone. Unregistering ends it.
   Either way the dialing channel cannot register again.
   */
  lemma CreateThenJoin(
      s: Relay, maxConns: int, ttl: nat, l: Channel, d: Channel, token: Token, expiry: Time, now: Time)
    requires Inv(s, maxConns) && l !in s.spent && d !in s.spent && l != d && |s.table| < maxConns
    ensures var s1 := Next(s, maxConns, ttl, Create(l, token, expiry));
            && Enabled(s1, Join(d, token, now))
            && var s2 := Next(s1, maxConns, ttl, Join(d, token, now));
            && s2.pairings == (if now <= expiry then s.pairings + [Pairing(l, d)] else s.pairings)
            && (token in s2.table <==> now <= expiry) && l in s2.spent && d in s2.spent
            && (now <= expiry ==>
                  && Enabled(s2, Lookup(l)) && Next(s2, maxConns, ttl, Lookup(l)).pending == s.pending + {(l, d)}
                  && Enabled(s2, Lookup(d)) && Next(s2, maxConns, ttl, Lookup(d)).pending == s.pending + {(d, l)}
                  && (forall later :: Enabled(s2, Purge(later)) &&
                        (token in Next(s2, maxConns, ttl, Purge(later)).table <==> ttl == 0 || later <= now + ttl))
                  && Enabled(s2, Unregister(l))
                  && Recipient(Next(s2, maxConns, ttl, Unregister(l)).table, token, d) == Err(TokenNotFound))
  {
    CreatedIff(s.table, maxConns, l, token, expiry);
    var s1 := Next(s, maxConns, ttl, Create(l, token, expiry));
    JoinedIff(s1.table, token, d, now, ttl);
  }

  /** A lookup finds the other end of a pair, and nothing for a stranger, a lone listener or an unknown token. */
  lemma RecipientIff(t: Table, token: Token, sender: Channel, r: Channel)
    ensures Recipient(t, token, sender) == Err(TokenNotFound) <==> token !in t
    ensures Recipient(t, token, sender) == Err(PeerNotFound) <==>
            token in t && t[token].dialer != Some(sender) && (sender != t[token].listener || t[token].dialer.None?)
    ensures Recipient(t, token, sender) == Ok(r) <==>
            && token in t && t[token].dialer.Some?
            && ((sender == t[token].listener && r == t[token].dialer.value) ||
                (sender == t[token].dialer.value && r == t[token].listener))
  {
  }

  /** Whatever the table, the lookup is symmetric: each end of a session finds exactly the other. */
  lemma RecipientSymmetric(t: Table, token: Token, a: Channel, b: Channel)
    ensures Recipient(t, token, a) == Ok(b) <==> Recipient(t, token, b) == Ok(a)
  {
  }
}
