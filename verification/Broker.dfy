/**
 The UDP broker's matchmaking registry. A REGISTER with a zero token is given a
 random one; with a token it is held, refreshed or matched with the holder. The
 broker matches without testing expiry: entries only leave by match, purge or
 being overwritten by an equal random token.
 */
module Broker {
  import opened Encoding
  import opened Wrappers

  type Token = Bytes
  type PublicKey = Bytes
  type Time = int

  datatype Addr = Addr(ip: Bytes, port: nat)

  /** A parsed REGISTER: the token, the peer's ephemeral key and the address it claims. */
  datatype Register = Register(token: Token, pub: PublicKey, claimed: Addr)

  /** `id` numbers registrations in creation order. */
  datatype Entry = Entry(id: nat, addr: Addr, pub: PublicKey, expires: Time)

  /** A NOTIFY handed to sendNotify, sealed for `sealedFor`. */
  datatype Notify =
    | TokenAssigned(to: Addr, sealedFor: PublicKey, token: Token)
    | PeerMatched(to: Addr, sealedFor: PublicKey, token: Token, other: PublicKey, at: Addr)

  predicate IsZero(b: Bytes)
  {
    forall i :: 0 <= i < |b| ==> b[i] == 0
  }

  /** The checks of handleRegister before the token is looked at. */
  predicate Acceptable(p: Register, src: Option<Addr>, allowed: bool)
  {
    allowed && !IsZero(p.claimed.ip) && p.claimed.port != 0 && !IsZero(p.pub) && src.Some?
  }

  function Purged(r: map<Token, Entry>, now: Time): (r': map<Token, Entry>)
    ensures r'.Keys <= r.Keys
  {
    map k | k in r && now <= r[k].expires :: r[k]
  }

  /** The two crossed notifications of a match: each side learns the other's key and address. */
  function Crossed(token: Token, held: Entry, pub: PublicKey, src: Addr, claimed: Addr): (r: seq<Notify>)
  {
    [PeerMatched(src, pub, token, held.pub, held.addr), PeerMatched(held.addr, held.pub, token, pub, claimed)]
  }

  /** What a REGISTER does to the registry, and the NOTIFYs it causes. */
  function Registered(
      r: map<Token, Entry>, next: nat, p: Register, src: Option<Addr>, allowed: bool, random: Token, expires: Time)
    : (out: (map<Token, Entry>, seq<Notify>))
  {
    if !Acceptable(p, src, allowed) then (r, [])
    else if IsZero(p.token) then
      (r[random := Entry(next, src.value, p.pub, expires)], [TokenAssigned(src.value, p.pub, random)])
    else if p.token in r && r[p.token].pub == p.pub then (r[p.token := r[p.token].(expires := expires)], [])
    else if p.token !in r then (r[p.token := Entry(next, src.value, p.pub, expires)], [])
    else (r - {p.token}, Crossed(p.token, r[p.token], p.pub, src.value, p.claimed))
  }

  class BrokerServer {
    var registry: map<Token, Entry>
    var next: nat
    const ttl: nat

    constructor (ttl: nat)
      ensures registry == map[] && next == 0 && this.ttl == ttl
    {
      registry, next, this.ttl := map[], 0, ttl;
    }

    method HandleRegister(p: Register, src: Option<Addr>, allowed: bool, random: Token, now: Time)
      returns (out: seq<Notify>)
      modifies this
      ensures (registry, out) == Registered(old(registry), old(next), p, src, allowed, random, now + ttl)
      ensures next == if Creates(old(registry), p, src, allowed) then old(next) + 1 else old(next)
    {
      if !allowed || IsZero(p.claimed.ip) || p.claimed.port == 0 || IsZero(p.pub) || src.None? {
        return [];
      }
      if IsZero(p.token) {
        registry := registry[random := Entry(next, src.value, p.pub, now + ttl)];
        next := next + 1;
        return [TokenAssigned(src.value, p.pub, random)];
      }
      if p.token in registry && registry[p.token].pub == p.pub {
        registry := registry[p.token := registry[p.token].(expires := now + ttl)];
        return [];
      }
      if p.token !in registry {
        registry := registry[p.token := Entry(next, src.value, p.pub, now + ttl)];
        next := next + 1;
        return [];
      }
      var held := registry[p.token];
      registry := registry - {p.token};
      out := [PeerMatched(src.value, p.pub, p.token, held.pub, held.addr)];
      out := out + [PeerMatched(held.addr, held.pub, p.token, p.pub, p.claimed)];
      assert out == Crossed(p.token, held, p.pub, src.value, p.claimed);
    }

    method PurgeExpired(now: Time)
      modifies this
      ensures registry == Purged(old(registry), now) && next == old(next)
    {
      var todo := registry.Keys;
      ghost var r0 := registry;
      while todo != {}
        invariant todo <= r0.Keys && next == old(next)
        invariant registry == map k | k in r0 && (k in todo || now <= r0[k].expires) :: r0[k]
        decreases |todo|
      {
        var k :| k in todo;
        if now > registry[k].expires {
          registry := registry - {k};
        }
        todo := todo - {k};
      }
    }
  }

  predicate Creates(r: map<Token, Entry>, p: Register, src: Option<Addr>, allowed: bool)
  {
    Acceptable(p, src, allowed) && (IsZero(p.token) || p.token !in r)
  }

  predicate Matches(r: map<Token, Entry>, p: Register, src: Option<Addr>, allowed: bool)
  {
    Acceptable(p, src, allowed) && !IsZero(p.token) && p.token in r && r[p.token].pub != p.pub
  }

  // ---- Whole runs ----

  /** A match: the entry it consumed and the registration that consumed it. */
  datatype Match = Match(token: Token, held: Entry, pub: PublicKey, src: Addr, claimed: Addr)

  /** The registry with its history: entries as created, matches, ids purged and overwritten, all NOTIFYs. */
  datatype Log = Log(
    registry: map<Token, Entry>, created: seq<Entry>, matches: seq<Match>,
    purged: set<nat>, overwritten: set<nat>, outbox: seq<Notify>)

  const START: Log := Log(map[], [], [], {}, {}, [])

  datatype Event =
    | Receive(p: Register, src: Option<Addr>, allowed: bool, random: Token, expires: Time)
    | Tick(now: Time)

  function Next(s: Log, e: Event): (s': Log)
  {
    match e
    case Tick(now) =>
      s.(registry := Purged(s.registry, now),
         purged := s.purged + set k | k in s.registry && s.registry[k].expires < now :: s.registry[k].id)
    case Receive(p, src, allowed, random, expires) =>
      var (r, out) := Registered(s.registry, |s.created|, p, src, allowed, random, expires);
      var s1 := s.(registry := r, outbox := s.outbox + out);
      if Creates(s.registry, p, src, allowed) then
        s1.(created := s.created + [Entry(|s.created|, src.value, p.pub, expires)],
            overwritten := if IsZero(p.token) && random in s.registry
                           then s.overwritten + {s.registry[random].id} else s.overwritten)
      else if Matches(s.registry, p, src, allowed) then
        s1.(matches := s.matches + [Match(p.token, s.registry[p.token], p.pub, src.value, p.claimed)])
      else s1
  }

  ghost function Run(s: Log, events: seq<Event>): (r: Log)
    decreases |events|
  {
    if events == [] then s else Run(Next(s, events[0]), events[1..])
  }

  /** The NOTIFYs a sequence of matches should have produced. */
  function Expected(ms: seq<Match>): (r: seq<Notify>)
  {
    if ms == [] then []
    else
      var m := ms[|ms| - 1];
      Expected(ms[..|ms| - 1]) + Crossed(m.token, m.held, m.pub, m.src, m.claimed)
  }

  /** Each side of a match is told, under its own key, the other side's key and where to find it. */
  predicate Introduces(m: Match, toNew: Notify, toHeld: Notify)
  {
    && toNew.PeerMatched? && toHeld.PeerMatched? && toNew.token == toHeld.token == m.token
    && toNew.to == m.src && toNew.sealedFor == m.pub
    && toHeld.to == m.held.addr && toHeld.sealedFor == m.held.pub
    && toNew.other == toHeld.sealedFor && toHeld.other == toNew.sealedFor
    && toNew.at == toHeld.to && toHeld.at == m.claimed
  }

  lemma {:induction false} ExpectedIntroduces(ms: seq<Match>, i: nat)
    requires i < |ms|
    ensures 2 * i + 1 < |Expected(ms)| && Introduces(ms[i], Expected(ms)[2 * i], Expected(ms)[2 * i + 1])
  {
    var init := ms[..|ms| - 1];
    ExpectedLength(init);
    if i < |init| {
      ExpectedIntroduces(init, i);
    }
  }

  function MatchNotices(out: seq<Notify>): (r: seq<Notify>)
  {
    if out == [] then []
    else
      var n := out[|out| - 1];
      MatchNotices(out[..|out| - 1]) + (if n.PeerMatched? then [n] else [])
  }

  lemma {:induction false} MatchNoticesAppend(a: seq<Notify>, b: seq<Notify>)
    ensures MatchNotices(a + b) == MatchNotices(a) + MatchNotices(b)
  {
    if b == [] {
      assert a + b == a;
    } else {
      assert (a + b)[..|a + b| - 1] == a + b[..|b| - 1];
      MatchNoticesAppend(a, b[..|b| - 1]);
    }
  }

  /** Address and key of an entry are those it was created with. */
  predicate Unaltered(s: Log, e: Entry)
  {
    e.id < |s.created| && s.created[e.id].addr == e.addr && s.created[e.id].pub == e.pub
  }

  ghost function Ids(r: map<Token, Entry>): (ids: set<nat>)
  {
    set k | k in r :: r[k].id
  }

  ghost predicate IdsInjective(r: map<Token, Entry>)
  {
    forall j, k :: j in r && k in r && r[j].id == r[k].id ==> j == k
  }

  ghost function MatchedIds(ms: seq<Match>): (r: set<nat>)
  {
    set i | 0 <= i < |ms| :: ms[i].held.id
  }

  ghost predicate EntriesOk(s: Log)
  {
    && (forall k :: k in s.registry ==> Unaltered(s, s.registry[k]))
    && IdsInjective(s.registry)
  }

  ghost predicate MatchesOk(s: Log)
  {
    && (forall i :: 0 <= i < |s.matches| ==>
                      Unaltered(s, s.matches[i].held) && s.matches[i].held.pub != s.matches[i].pub)
    && (forall i, j :: 0 <= i < j < |s.matches| ==> s.matches[i].held.id != s.matches[j].held.id)
    && MatchNotices(s.outbox) == Expected(s.matches)
  }

  /** Every entry ever created is in exactly one place: live, matched, purged or overwritten. */
  ghost predicate Accounted(n: nat, live: set<nat>, matched: set<nat>, purged: set<nat>, overwritten: set<nat>)
  {
    && (forall id: nat :: id < n <==> id in live || id in matched || id in purged || id in overwritten)
    && live !! matched && live !! purged && live !! overwritten
    && matched !! purged && matched !! overwritten && purged !! overwritten
  }

  ghost predicate Inv(s: Log)
  {
    && EntriesOk(s) && MatchesOk(s)
    && Accounted(|s.created|, Ids(s.registry), MatchedIds(s.matches), s.purged, s.overwritten)
  }

  // ---- Moving ids between places ----

  lemma IdsWithout(r: map<Token, Entry>, t: Token)
    requires IdsInjective(r) && t in r
    ensures IdsInjective(r - {t}) && Ids(r - {t}) == Ids(r) - {r[t].id} && r[t].id in Ids(r)
  {
    forall n
      ensures n in Ids(r - {t}) <==> n in Ids(r) - {r[t].id}
    {
      if n in Ids(r) && n != r[t].id {
        var k :| k in r && r[k].id == n;
        assert k in r - {t} && (r - {t})[k].id == n;
      }
    }
  }

  lemma IdsWith(r: map<Token, Entry>, t: Token, e: Entry)
    requires IdsInjective(r) && t !in r && e.id !in Ids(r)
    ensures IdsInjective(r[t := e]) && Ids(r[t := e]) == Ids(r) + {e.id}
  {
    var r' := r[t := e];
    forall n
      ensures n in Ids(r') <==> n in Ids(r) + {e.id}
    {
      if n in Ids(r) {
        var k :| k in r && r[k].id == n;
        assert k in r' && r'[k].id == n;
      }
      if n == e.id {
        assert t in r' && r'[t].id == n;
      }
    }
    forall j, k | j in r' && k in r' && r'[j].id == r'[k].id
      ensures j == k
    {
      assert j in r ==> r[j].id in Ids(r);
      assert k in r ==> r[k].id in Ids(r);
    }
  }

  lemma AccountedCreate(n: nat, live: set<nat>, matched: set<nat>, purged: set<nat>, overwritten: set<nat>)
    requires Accounted(n, live, matched, purged, overwritten)
    ensures n !in live && Accounted(n + 1, live + {n}, matched, purged, overwritten)
  {
  }

  lemma AccountedMove(n: nat, live: set<nat>, matched: set<nat>, purged: set<nat>, overwritten: set<nat>, id: nat)
    requires Accounted(n, live, matched, purged, overwritten) && id in live
    ensures Accounted(n, live - {id}, matched + {id}, purged, overwritten)
    ensures Accounted(n, live - {id}, matched, purged, overwritten + {id})
  {
  }

  lemma AccountedPurge(
      n: nat, live: set<nat>, matched: set<nat>, purged: set<nat>, overwritten: set<nat>, gone: set<nat>)
    requires Accounted(n, live, matched, purged, overwritten) && gone <= live
    ensures Accounted(n, live - gone, matched, purged + gone, overwritten)
  {
  }

  // ---- Each kind of step ----

  lemma TickKeeps(s: Log, now: Time)
    requires Inv(s)
    ensures Inv(Next(s, Tick(now)))
  {
    var s' := Next(s, Tick(now));
    var gone := set k | k in s.registry && s.registry[k].expires < now :: s.registry[k].id;
    forall n
      ensures n in Ids(s'.registry) <==> n in Ids(s.registry) - gone
    {
      if n in Ids(s.registry) - gone {
        var k :| k in s.registry && s.registry[k].id == n;
        assert k in s'.registry && s'.registry[k].id == n;
      }
    }
    assert Ids(s'.registry) == Ids(s.registry) - gone;
    AccountedPurge(|s.created|, Ids(s.registry), MatchedIds(s.matches), s.purged, s.overwritten, gone);
  }

  /** A random token may displace an entry; then the displaced one is accounted as overwritten. */
  lemma Displaced(s: Log, token: Token) returns (r: Log)
    requires Inv(s)
    ensures r == s.(registry := s.registry - {token},
                    overwritten := if token in s.registry
                                   then s.overwritten + {s.registry[token].id} else s.overwritten)
    ensures Inv(r)
  {
    r := s.(registry := s.registry - {token});
    if token in s.registry {
      var id := s.registry[token].id;
      r := r.(overwritten := s.overwritten + {id});
      IdsWithout(s.registry, token);
      AccountedMove(|s.created|, Ids(s.registry), MatchedIds(s.matches), s.purged, s.overwritten, id);
    } else {
      assert s.registry - {token} == s.registry;
    }
  }

  lemma CreationKeeps(s: Log, s': Log, token: Token, e: Entry)
    requires Inv(s) && e.id == |s.created| && token !in s.registry
    requires s' == s.(registry := s.registry[token := e], created := s.created + [e], outbox := s'.outbox)
    requires MatchNotices(s'.outbox) == MatchNotices(s.outbox)
    ensures Inv(s')
  {
    AccountedCreate(|s.created|, Ids(s.registry), MatchedIds(s.matches), s.purged, s.overwritten);
    IdsWith(s.registry, token, e);
    assert forall x :: Unaltered(s, x) ==> Unaltered(s', x);
  }

  lemma MatchKeeps(s: Log, s': Log, m: Match)
    requires Inv(s) && m.token in s.registry && s.registry[m.token] == m.held && m.held.pub != m.pub
    requires s' == s.(registry := s.registry - {m.token}, matches := s.matches + [m],
                      outbox := s.outbox + Crossed(m.token, m.held, m.pub, m.src, m.claimed))
    ensures Inv(s')
  {
    IdsWithout(s.registry, m.token);
    MatchedSnoc(s.matches, m);
    AccountedMove(|s.created|, Ids(s.registry), MatchedIds(s.matches), s.purged, s.overwritten, m.held.id);
    assert MatchesOk(s') by {
      MatchLogged(s, s', m);
    }
  }

  lemma MatchLogged(s: Log, s': Log, m: Match)
    requires MatchesOk(s) && Unaltered(s, m.held) && m.held.pub != m.pub && m.held.id !in MatchedIds(s.matches)
    requires s'.created == s.created && s'.matches == s.matches + [m]
    requires s'.outbox == s.outbox + Crossed(m.token, m.held, m.pub, m.src, m.claimed)
    ensures MatchesOk(s')
  {
    forall i | 0 <= i < |s.matches|
      ensures s.matches[i].held.id != m.held.id
    {
      assert s.matches[i].held.id in MatchedIds(s.matches);
    }
    NoticesLogged(s.outbox, s.matches, m);
    forall i | 0 <= i < |s'.matches|
      ensures Unaltered(s', s'.matches[i].held) && s'.matches[i].held.pub != s'.matches[i].pub
    {
      assert i < |s.matches| ==> s'.matches[i] == s.matches[i];
    }
  }

  lemma NoticesLogged(out: seq<Notify>, ms: seq<Match>, m: Match)
    requires MatchNotices(out) == Expected(ms)
    ensures MatchNotices(out + Crossed(m.token, m.held, m.pub, m.src, m.claimed)) == Expected(ms + [m])
  {
    var c := Crossed(m.token, m.held, m.pub, m.src, m.claimed);
    assert (ms + [m])[..|ms + [m]| - 1] == ms;
    assert Expected(ms + [m]) == Expected(ms) + c;
    MatchNoticesAppend(out, c);
    CrossedAreNotices(m.token, m.held, m.pub, m.src, m.claimed);
  }

  lemma MatchedSnoc(ms: seq<Match>, m: Match)
    ensures MatchedIds(ms + [m]) == MatchedIds(ms) + {m.held.id}
  {
    forall n
      ensures n in MatchedIds(ms + [m]) <==> n in MatchedIds(ms) + {m.held.id}
    {
      if n in MatchedIds(ms) {
        var i :| 0 <= i < |ms| && ms[i].held.id == n;
        assert (ms + [m])[i].held.id == n;
      }
      if n == m.held.id {
        assert (ms + [m])[|ms|].held.id == n;
      }
    }
  }

  lemma CrossedAreNotices(token: Token, held: Entry, pub: PublicKey, src: Addr, claimed: Addr)
    ensures MatchNotices(Crossed(token, held, pub, src, claimed)) == Crossed(token, held, pub, src, claimed)
  {
    var c := Crossed(token, held, pub, src, claimed);
    assert c[..1] == [c[0]] && c[..1][..0] == [];
    assert MatchNotices([c[0]]) == MatchNotices([]) + [c[0]];
  }

  lemma RefreshKeeps(s: Log, s': Log, token: Token, expires: Time)
    requires Inv(s) && token in s.registry
    requires s' == s.(registry := s.registry[token := s.registry[token].(expires := expires)])
    ensures Inv(s')
  {
    forall n
      ensures n in Ids(s'.registry) <==> n in Ids(s.registry)
    {
      if n in Ids(s.registry) {
        var k :| k in s.registry && s.registry[k].id == n;
        assert k in s'.registry && s'.registry[k].id == n;
      }
    }
    assert Ids(s'.registry) == Ids(s.registry);
  }

  lemma CreatedKeeps(s: Log, p: Register, src: Option<Addr>, allowed: bool, random: Token, expires: Time)
    requires Inv(s) && Creates(s.registry, p, src, allowed)
    ensures Inv(Next(s, Receive(p, src, allowed, random, expires)))
  {
    var s' := Next(s, Receive(p, src, allowed, random, expires));
    var token := if IsZero(p.token) then random else p.token;
    var note := if IsZero(p.token) then [TokenAssigned(src.value, p.pub, random)] else [];
    MatchNoticesAppend(s.outbox, note);
    assert MatchNotices(note) == [];
    var d := Displaced(s, token);
    var e := Entry(|s.created|, src.value, p.pub, expires);
    assert s'.registry == d.registry[token := e];
    assert s' == d.(registry := d.registry[token := e], created := d.created + [e], outbox := s.outbox + note);
    CreationKeeps(d, s', token, e);
  }

  lemma NextKeepsInv(s: Log, e: Event)
    requires Inv(s)
    ensures Inv(Next(s, e))
  {
    match e
    case Tick(now) => TickKeeps(s, now);
    case Receive(p, src, allowed, random, expires) =>
      var s' := Next(s, e);
      assert s.outbox + [] == s.outbox;
      if Creates(s.registry, p, src, allowed) {
        CreatedKeeps(s, p, src, allowed, random, expires);
      } else if Matches(s.registry, p, src, allowed) {
        MatchKeeps(s, s', Match(p.token, s.registry[p.token], p.pub, src.value, p.claimed));
      } else if Acceptable(p, src, allowed) {
        RefreshKeeps(s, s', p.token, expires);
      }
  }

  lemma {:induction false} RunKeepsInv(s: Log, events: seq<Event>)
    requires Inv(s)
    ensures Inv(Run(s, events))
    decreases |events|
  {
    if events != [] {
      NextKeepsInv(s, events[0]);
      RunKeepsInv(Next(s, events[0]), events[1..]);
    }
  }

  // ---- What one registration does, in every state ----

  /** The broker holds `token` for this peer, up to and including `expires`. */
  ghost predicate HeldUntil(s: Log, token: Token, src: Addr, pub: PublicKey, expires: Time)
  {
    && token in s.registry && s.registry[token].addr == src && s.registry[token].pub == pub
    && forall now :: token in Next(s, Tick(now)).registry <==> now <= expires
  }

  /** Within the limit, with an IPv4 source, a claimed address and port, and a key. */
  ghost predicate Usable(p: Register)
  {
    && p.claimed.port != 0
    && (exists i :: 0 <= i < |p.claimed.ip| && p.claimed.ip[i] != 0)
    && (exists i :: 0 <= i < |p.pub| && p.pub[i] != 0)
  }

  /** A registration over the limit, without a usable address or key, is ignored. */
  lemma UnusableIsIgnored(s: Log, p: Register, src: Option<Addr>, allowed: bool, random: Token, expires: Time)
    requires !allowed || src.None? || !Usable(p)
    ensures Next(s, Receive(p, src, allowed, random, expires)) == s
  {
  }

  /** An empty token is answered with the token that is held from then on for this very peer. */
  lemma AssignedTokenIsHeld(s: Log, p: Register, src: Addr, random: Token, expires: Time)
    requires Usable(p) && IsZero(p.token)
    ensures var s' := Next(s, Receive(p, Some(src), true, random, expires));
            && |s'.outbox| == |s.outbox| + 1 && s.outbox <= s'.outbox
            && var n := s'.outbox[|s.outbox|];
            && n.TokenAssigned? && n.to == src && n.sealedFor == p.pub
            && HeldUntil(s', n.token, src, p.pub, expires)
  {
  }

  /** A first registration under a token is held without a notice; repeating it only moves the expiry. */
  lemma HeldAndRefreshed(s: Log, p: Register, src: Addr, src': Addr, random: Token, expires: Time, later: Time)
    requires Usable(p) && !IsZero(p.token) && p.token !in s.registry
    ensures var s1 := Next(s, Receive(p, Some(src), true, random, expires));
            var s2 := Next(s1, Receive(p, Some(src'), true, random, later));
            && HeldUntil(s1, p.token, src, p.pub, expires) && s1.outbox == s.outbox
            && HeldUntil(s2, p.token, src, p.pub, later) && s2.outbox == s.outbox && s2.created == s1.created
  {
  }

  /** A second peer under a held token is matched with the holder, expired or not, and both are introduced. */
  lemma SecondPeerIsMatched(s: Log, p: Register, src: Addr, random: Token, expires: Time)
    requires Usable(p) && !IsZero(p.token)
    requires p.token in s.registry && s.registry[p.token].pub != p.pub
    ensures var s' := Next(s, Receive(p, Some(src), true, random, expires));
            var m := Match(p.token, s.registry[p.token], p.pub, src, p.claimed);
            && s'.matches == s.matches + [m] && p.token !in s'.registry
            && |s'.outbox| == |s.outbox| + 2 && s.outbox <= s'.outbox
            && Introduces(m, s'.outbox[|s.outbox|], s'.outbox[|s.outbox| + 1])
  {
  }

  // ---- Results over every run ----

  /**
   A held entry keeps the address and key it was created with; no entry is matched
   twice or with its own key; and the PEER_MATCHED notices sent are exactly two
   for each match, in order, introducing its two sides to each other.
   */
  lemma MatchmakingIsSound(events: seq<Event>)
    ensures var s := Run(START, events);
            && (forall k :: k in s.registry ==> Unaltered(s, s.registry[k]))
            && (forall i :: 0 <= i < |s.matches| ==>
                              Unaltered(s, s.matches[i].held) && s.matches[i].held.pub != s.matches[i].pub)
            && (forall i, j :: 0 <= i < j < |s.matches| ==> s.matches[i].held.id != s.matches[j].held.id)
            && |MatchNotices(s.outbox)| == 2 * |s.matches|
            && (forall i :: 0 <= i < |s.matches| ==>
                  Introduces(s.matches[i], MatchNotices(s.outbox)[2 * i], MatchNotices(s.outbox)[2 * i + 1]))
  {
    StartOk();
    RunKeepsInv(START, events);
    var s := Run(START, events);
    ExpectedLength(s.matches);
    forall i | 0 <= i < |s.matches|
      ensures Introduces(s.matches[i], MatchNotices(s.outbox)[2 * i], MatchNotices(s.outbox)[2 * i + 1])
    {
      ExpectedIntroduces(s.matches, i);
    }
  }

  lemma StartOk()
    ensures Inv(START)
  {
    assert Ids(START.registry) == {} && MatchedIds(START.matches) == {};
  }

  lemma {:induction false} ExpectedLength(ms: seq<Match>)
    ensures |Expected(ms)| == 2 * |ms|
  {
    if ms != [] {
      ExpectedLength(ms[..|ms| - 1]);
    }
  }

  /** Entries created = matched + purged + overwritten + live, after every run. */
  lemma RegistrationsConserved(events: seq<Event>)
    ensures var s := Run(START, events);
            |s.created| == |s.matches| + |s.purged| + |s.overwritten| + |s.registry|
  {
    StartOk();
    RunKeepsInv(START, events);
    var s := Run(START, events);
    var live, matched := Ids(s.registry), MatchedIds(s.matches);
    LiveCount(s.registry);
    MatchedCount(s.matches);
    FourParts(Upto(|s.created|), live, matched, s.purged, s.overwritten);
  }

  function Upto(n: nat): (r: set<nat>)
    ensures |r| == n && forall i: nat :: i in r <==> i < n
  {
    if n == 0 then {} else Upto(n - 1) + {n - 1}
  }

  lemma FourParts(all: set<nat>, a: set<nat>, b: set<nat>, c: set<nat>, d: set<nat>)
    requires forall n :: n in all <==> n in a || n in b || n in c || n in d
    requires a !! b && a !! c && a !! d && b !! c && b !! d && c !! d
    ensures |all| == |a| + |b| + |c| + |d|
  {
    assert all == ((a + b) + c) + d;
    assert |(a + b) + c| == |a + b| + |c|;
  }

  lemma {:induction false} LiveCount(r: map<Token, Entry>)
    requires IdsInjective(r)
    ensures |Ids(r)| == |r|
    decreases |r|
  {
    if r == map[] {
      assert Ids(r) == {};
    } else {
      var t :| t in r;
      var r' := r - {t};
      assert r'.Keys == r.Keys - {t} && |r'| == |r'.Keys| == |r.Keys| - 1;
      IdsWithout(r, t);
      LiveCount(r');
    }
  }

  lemma {:induction false} MatchedCount(ms: seq<Match>)
    requires forall i, j :: 0 <= i < j < |ms| ==> ms[i].held.id != ms[j].held.id
    ensures |MatchedIds(ms)| == |ms|
  {
    if ms == [] {
      assert MatchedIds(ms) == {};
    } else {
      var init, m := ms[..|ms| - 1], ms[|ms| - 1];
      MatchedCount(init);
      assert ms == init + [m];
      MatchedSnoc(init, m);
      assert m.held.id !in MatchedIds(init);
    }
  }
}
