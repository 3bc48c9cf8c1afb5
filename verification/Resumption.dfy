/**
 The two resumption-token pools. A client attempt pops the head of its list and
 sends it; the server removes the token before any other check. Requests may be
 lost, repeated or reordered, and anyone may offer a token the server never held.
 */
module Resumption {
  import opened Crypto
  import opened Encoding
  import opened TokenList
  import opened Wrappers
  import HandshakeProtocol

  const TOKEN_COUNT := HandshakeProtocol.TOKEN_COUNT

  ghost predicate Distinct<T(!new)>(s: seq<T>)
  {
    forall x :: multiset(s)[x] <= 1
  }

  /**
   `pops` counts attempts since the client's list was set; `seen` are the requests
   the server has looked up; `used` every token ever placed in its pool.
   */
  datatype System<T> = System(
    client: seq<T>, pops: nat, server: seq<T>,
    requests: set<T>, seen: set<T>, accepted: seq<T>, sinceRefresh: nat, used: set<T>)

  function Start<T>(tokens: seq<T>): (s: System<T>)
  {
    System(tokens, 0, tokens, {}, {}, [], 0, set x | x in tokens)
  }

  datatype Event<T> =
    // attemptResume: pop, then send unless an error comes first.
    | ClientPops(sent: bool)
    // handleResume on a delivered request; `passes` is the outcome of the later checks.
    | ServerHandles(token: T, passes: bool)
    // SetMeta after a completed handshake, on either side.
    | ServerRefreshes(tokens: seq<T>)
    | ClientRefreshes(tokens: seq<T>)

  ghost predicate Enabled<T(!new)>(s: System<T>, e: Event<T>)
  {
    match e
    case ClientPops(_) => s.client != []
    case ServerHandles(token, _) => token in s.requests || token !in s.server
    case ServerRefreshes(tokens) =>
      Distinct(tokens) && |tokens| <= TOKEN_COUNT && (set x | x in tokens) !! s.used
    case ClientRefreshes(_) => true
  }

  function Next<T(==)>(s: System<T>, e: Event<T>): (s': System<T>)
    requires e.ClientPops? ==> s.client != []
  {
    match e
    case ClientPops(sent) =>
      s.(client := s.client[1..], pops := s.pops + 1,
         requests := if sent then s.requests + {s.client[0]} else s.requests)
    case ServerHandles(token, passes) => (
      var looked := s.(seen := if token in s.requests then s.seen + {token} else s.seen);
      match SwapRemove(s.server, token)
      case None => looked
      case Some(rest) =>
        if passes
        then looked.(server := rest, accepted := s.accepted + [token], sinceRefresh := s.sinceRefresh + 1)
        else looked.(server := rest))
    case ServerRefreshes(tokens) =>
      s.(server := tokens, sinceRefresh := 0, used := s.used + set x | x in tokens)
    case ClientRefreshes(tokens) => s.(client := tokens, pops := 0)
  }

  ghost predicate ValidRun<T(!new)>(s: System<T>, events: seq<Event<T>>)
    decreases |events|
  {
    events == [] || (Enabled(s, events[0]) && ValidRun(Next(s, events[0]), events[1..]))
  }

  ghost function Run<T(!new)>(s: System<T>, events: seq<Event<T>>): (r: System<T>)
    requires ValidRun(s, events)
    decreases |events|
  {
    if events == [] then s else Run(Next(s, events[0]), events[1..])
  }

  /** A request is accepted exactly if its token is in the pool and the later checks pass; the token goes either way. */
  lemma HandledIff<T(!new)>(s: System<T>, token: T, passes: bool)
    ensures token !in s.server ==> Enabled(s, ServerHandles(token, passes))
    ensures var s' := Next(s, ServerHandles(token, passes));
            && s'.accepted == (if token in s.server && passes then s.accepted + [token] else s.accepted)
            && s'.sinceRefresh == (if token in s.server && passes then s.sinceRefresh + 1 else s.sinceRefresh)
            && multiset(s'.server) == multiset(s.server) - multiset{token}
            && s'.client == s.client && s'.requests == s.requests
  {
    SwapRemoveOne(s.server, token, 0);
    if token !in s.server {
      assert token !in multiset(s.server);
    }
  }

  // ---- Until either side refreshes ----

  /** Both pools come from `tokens`; requests made before that carried other tokens, `earlier`. */
  ghost predicate InStep<T(!new)>(tokens: seq<T>, earlier: set<T>, s: System<T>)
  {
    && s.pops <= |tokens| && s.client == tokens[s.pops..]
    && (forall x :: x in s.requests ==> x in earlier || x in tokens[..s.pops])
    && (forall x :: x in earlier ==> x !in tokens)
    && s.seen <= s.requests
    && Distinct(s.server)
    && (forall x :: x in s.server <==> x in tokens && x !in s.seen)
  }

  lemma DistinctSplit<T(!new)>(tokens: seq<T>, k: nat)
    requires Distinct(tokens) && k <= |tokens|
    ensures Distinct(tokens[k..])
    ensures forall x :: x in tokens[..k] ==> x !in tokens[k..]
  {
    assert tokens == tokens[..k] + tokens[k..];
    forall x
      ensures multiset(tokens[k..])[x] <= 1
      ensures x in tokens[..k] ==> x !in tokens[k..]
    {
      assert multiset(tokens)[x] == multiset(tokens[..k])[x] + multiset(tokens[k..])[x];
      assert x in tokens[..k] ==> x in multiset(tokens[..k]);
      assert x in tokens[k..] ==> x in multiset(tokens[k..]);
    }
  }

  lemma RemoveDistinct<T(!new)>(server: seq<T>, token: T)
    requires Distinct(server)
    ensures SwapRemove(server, token).None? <==> token !in server
    ensures SwapRemove(server, token).Some? ==>
              && Distinct(SwapRemove(server, token).value)
              && |SwapRemove(server, token).value| == |server| - 1
              && (forall x :: x in SwapRemove(server, token).value <==> x in server && x != token)
  {
    SwapRemoveOne(server, token, 0);
    if SwapRemove(server, token).Some? {
      var rest := SwapRemove(server, token).value;
      assert |multiset(rest)| == |multiset(server)| - 1;
      forall x
        ensures multiset(rest)[x] <= 1
        ensures x in rest <==> x in server && x != token
      {
        assert multiset(server)[x] <= 1 && multiset(server)[token] <= 1;
        assert x in rest <==> x in multiset(rest);
        assert x in server <==> x in multiset(server);
      }
    }
  }

  lemma InStepKept<T(!new)>(tokens: seq<T>, earlier: set<T>, s: System<T>, e: Event<T>)
    requires Distinct(tokens) && InStep(tokens, earlier, s) && Enabled(s, e)
    requires e.ClientPops? || e.ServerHandles?
    ensures InStep(tokens, earlier, Next(s, e))
  {
    match e
    case ClientPops(sent) =>
      assert tokens[s.pops..][1..] == tokens[s.pops + 1..];
      assert tokens[..s.pops + 1] == tokens[..s.pops] + [tokens[s.pops]];
    case ServerHandles(token, passes) =>
      RemoveDistinct(s.server, token);
  }

  lemma {:induction false} InStepRun<T(!new)>(tokens: seq<T>, earlier: set<T>, s: System<T>, events: seq<Event<T>>)
    requires Distinct(tokens) && InStep(tokens, earlier, s) && ValidRun(s, events)
    requires forall i :: 0 <= i < |events| ==> events[i].ClientPops? || events[i].ServerHandles?
    ensures InStep(tokens, earlier, Run(s, events))
    decreases |events|
  {
    if events != [] {
      assert events[0].ClientPops? || events[0].ServerHandles?;
      InStepKept(tokens, earlier, s, events[0]);
      InStepRun(tokens, earlier, Next(s, events[0]), events[1..]);
    }
  }

  /** The client's tokens are all in the server's pool, and so is every request of its list not looked up yet. */
  ghost predicate PoolsAgree<T(!new)>(s: System<T>, tokens: seq<T>)
  {
    && multiset(s.client) <= multiset(s.server)
    && (forall x :: x in s.client ==> SwapRemove(s.server, x).Some?)
    && (forall x :: x in tokens && x in s.requests && x !in s.seen ==> SwapRemove(s.server, x).Some?)
  }

  lemma InStepAgrees<T(!new)>(tokens: seq<T>, earlier: set<T>, s: System<T>)
    requires Distinct(tokens) && InStep(tokens, earlier, s)
    ensures PoolsAgree(s, tokens)
  {
    DistinctSplit(tokens, s.pops);
    forall x
      ensures multiset(s.client)[x] <= multiset(s.server)[x]
      ensures x in s.client || (x in tokens && x in s.requests && x !in s.seen) ==> SwapRemove(s.server, x).Some?
    {
      RemoveDistinct(s.server, x);
      assert x in s.client <==> x in multiset(s.client);
      assert x in s.server <==> x in multiset(s.server);
    }
  }

  ghost predicate NoRefresh<T(!new)>(events: seq<Event<T>>)
  {
    forall i :: 0 <= i < |events| ==> events[i].ClientPops? || events[i].ServerHandles?
  }

  /**
   From equal lists and until either side refreshes, whatever requests are lost or
   repeated: the client's remaining tokens are a sub-multiset of the server's, and
   a popped token the server has not looked up yet is not rejected as unknown.
   */
  lemma ClientPoolInsideServerPool<T(!new)>(tokens: seq<T>, events: seq<Event<T>>)
    requires Distinct(tokens) && ValidRun(Start(tokens), events) && NoRefresh(events)
    ensures var s := Run(Start(tokens), events);
            && PoolsAgree(s, tokens)
            && (forall x :: x in s.requests && x !in s.seen ==> SwapRemove(s.server, x).Some?)
  {
    assert tokens[0..] == tokens;
    InStepRun(tokens, {}, Start(tokens), events);
    var s := Run(Start(tokens), events);
    InStepAgrees(tokens, {}, s);
    forall x | x in s.requests && x !in s.seen
      ensures SwapRemove(s.server, x).Some?
    {
      assert x in tokens[..s.pops];
    }
  }

  /**
   From equal lists and until either side refreshes: the first lookup of a request is
   accepted if and only if the later checks pass. A token that is popped and sent can be
   looked up; one that is popped and not sent cannot.
   */
  lemma FirstLookupAcceptedIff<T(!new)>(tokens: seq<T>, events: seq<Event<T>>, x: T, passes: bool)
    requires Distinct(tokens) && ValidRun(Start(tokens), events) && NoRefresh(events)
    ensures var s := Run(Start(tokens), events);
            && (x in s.requests && x !in s.seen ==>
                  && Enabled(s, ServerHandles(x, passes))
                  && Next(s, ServerHandles(x, passes)).accepted == if passes then s.accepted + [x] else s.accepted)
            && (s.client != [] ==>
                  && Enabled(s, ClientPops(true))
                  && Enabled(Next(s, ClientPops(true)), ServerHandles(s.client[0], passes))
                  && Next(Next(s, ClientPops(true)), ServerHandles(s.client[0], passes)).accepted ==
                     (if passes then s.accepted + [s.client[0]] else s.accepted)
                  && !Enabled(Next(s, ClientPops(false)), ServerHandles(s.client[0], passes)))
  {
    ClientPoolInsideServerPool(tokens, events);
    assert tokens[0..] == tokens;
    InStepRun(tokens, {}, Start(tokens), events);
    var s := Run(Start(tokens), events);
    RemoveDistinct(s.server, x);
    HandledIff(s, x, passes);
    if s.client != [] {
      var y := s.client[0];
      assert y == tokens[s.pops] && y in tokens[s.pops..];
      DistinctSplit(tokens, s.pops);
      RemoveDistinct(s.server, y);
      HandledIff(Next(s, ClientPops(true)), y, passes);
      assert y !in s.requests;
    }
  }

  /** After both sides refresh with the same new tokens everything holds again, whatever came before. */
  lemma RefreshRestarts<T(!new)>(s: System<T>, tokens: seq<T>, events: seq<Event<T>>)
    requires Distinct(tokens) && s.seen <= s.requests && forall x :: x in tokens ==> x !in s.requests
    requires var s0 := Next(Next(s, ServerRefreshes(tokens)), ClientRefreshes(tokens));
             ValidRun(s0, events) && NoRefresh(events)
    ensures var s0 := Next(Next(s, ServerRefreshes(tokens)), ClientRefreshes(tokens));
            && Enabled(Next(s, ServerRefreshes(tokens)), ClientRefreshes(tokens))
            && s0.client == s0.server == tokens && s0.sinceRefresh == 0
            && InStep(tokens, s.requests, Run(s0, events)) && PoolsAgree(Run(s0, events), tokens)
  {
    var s0 := Next(Next(s, ServerRefreshes(tokens)), ClientRefreshes(tokens));
    assert tokens[0..] == tokens;
    InStepRun(tokens, s.requests, s0, events);
    InStepAgrees(tokens, s.requests, Run(s0, events));
  }

  // ---- Across refreshes ----

  ghost predicate OnceOnly<T(!new)>(s: System<T>)
  {
    && Distinct(s.server) && Distinct(s.accepted)
    && (forall x :: x in s.server ==> x in s.used && x !in s.accepted)
    && (forall x :: x in s.accepted ==> x in s.used)
    && s.sinceRefresh + |s.server| <= TOKEN_COUNT
  }

  lemma OnceOnlyKept<T(!new)>(s: System<T>, e: Event<T>)
    requires OnceOnly(s) && Enabled(s, e)
    ensures OnceOnly(Next(s, e))
  {
    match e
    case ServerHandles(token, passes) =>
      RemoveDistinct(s.server, token);
      if SwapRemove(s.server, token).Some? && passes {
        var s' := Next(s, e);
        forall x
          ensures multiset(s'.accepted)[x] <= 1
        {
          assert x in s.accepted <==> x in multiset(s.accepted);
        }
      }
    case _ =>
  }

  /**
   Over any run, refreshes included: no token is accepted twice, and at most 20
   attempts succeed between two refreshes of the server's pool.
   */
  lemma {:induction false} EachTokenAcceptedOnce<T(!new)>(s: System<T>, events: seq<Event<T>>)
    requires OnceOnly(s) && ValidRun(s, events)
    ensures OnceOnly(Run(s, events))
    ensures Distinct(Run(s, events).accepted) && Run(s, events).sinceRefresh <= TOKEN_COUNT
    decreases |events|
  {
    if events != [] {
      OnceOnlyKept(s, events[0]);
      EachTokenAcceptedOnce(Next(s, events[0]), events[1..]);
    }
  }

  // ---- Where the pools come from ----

  lemma {:induction false} IndexwiseDistinct<T(!new)>(s: seq<T>)
    requires forall i, j :: 0 <= i < j < |s| ==> s[i] != s[j]
    ensures Distinct(s)
  {
    if s != [] {
      var init, last := s[..|s| - 1], s[|s| - 1];
      IndexwiseDistinct(init);
      assert s == init + [last];
      assert last !in init;
      forall x
        ensures multiset(s)[x] <= 1
      {
        assert multiset(s)[x] == multiset(init)[x] + multiset([last])[x];
        assert last in init <==> last in multiset(init);
      }
    }
  }

  /** Two endpoints that agreed in a handshake start with equal, sound pools. */
  lemma AgreedPoolsAreSound(i: HandshakeProtocol.Initiator, r: HandshakeProtocol.Responder)
    requires HandshakeProtocol.Agree(i, r)
    ensures var tokens := HandshakeProtocol.ResumptionTokens(r.t.secret, r.t.sid);
            && tokens == HandshakeProtocol.ResumptionTokens(i.t.value.secret, i.t.value.sid)
            && |tokens| == TOKEN_COUNT && Distinct(tokens)
            && InStep(tokens, {}, Start(tokens)) && OnceOnly(Start(tokens))
  {
    var tokens := HandshakeProtocol.ResumptionTokens(r.t.secret, r.t.sid);
    HandshakeProtocol.TokensDistinct(r.t.secret, r.t.sid);
    IndexwiseDistinct(tokens);
    assert tokens[0..] == tokens;
  }

  /** The key-encapsulation ciphertext behind a token: what each responder draws afresh. */
  ghost predicate TokenOf(x: Term, cts: set<Bytes>)
  {
    x.Kdf? && x.ikm.Kdf? && x.ikm.ikm.Shared? && x.ikm.ikm.ct in cts
  }

  /** Everything ever placed in the server's pool was derived in one of these handshakes. */
  ghost predicate DerivedIn(s: System<Term>, cts: set<Bytes>)
  {
    forall x :: x in s.used ==> TokenOf(x, cts)
  }

  /** Refreshing after a handshake with a ciphertext not seen before is always an allowed step of the pools. */
  lemma RefreshIsFresh(s: System<Term>, cts: set<Bytes>, pk: Bytes, ct: Bytes, sid: Bytes)
    requires DerivedIn(s, cts) && ct !in cts
    ensures var e := ServerRefreshes(HandshakeProtocol.ResumptionTokens(Shared(pk, ct), sid));
            Enabled(s, e) && DerivedIn(Next(s, e), cts + {ct})
  {
    var tokens := HandshakeProtocol.ResumptionTokens(Shared(pk, ct), sid);
    HandshakeProtocol.TokensDistinct(Shared(pk, ct), sid);
    IndexwiseDistinct(tokens);
  }

  /** The ciphertext a pool was derived with. */
  ghost function PoolCiphertext(tokens: seq<Term>): (ct: Bytes)
  {
    if tokens != [] && tokens[0].Kdf? && tokens[0].ikm.Kdf? && tokens[0].ikm.ikm.Shared?
    then tokens[0].ikm.ikm.ct else []
  }

  ghost predicate Derived(tokens: seq<Term>)
  {
    exists pk, ct, sid :: tokens == HandshakeProtocol.ResumptionTokens(Shared(pk, ct), sid)
  }

  /** A run whose refreshes all come from handshakes, each with a ciphertext not seen before; `cts` are those seen. */
  ghost predicate HandshakeRun(s: System<Term>, cts: set<Bytes>, events: seq<Event<Term>>)
    decreases |events|
  {
    if events == [] then true
    else
      match events[0]
      case ServerRefreshes(tokens) =>
        && Derived(tokens) && PoolCiphertext(tokens) !in cts
        && HandshakeRun(Next(s, events[0]), cts + {PoolCiphertext(tokens)}, events[1..])
      case _ => Enabled(s, events[0]) && HandshakeRun(Next(s, events[0]), cts, events[1..])
  }

  lemma {:induction false} HandshakeRunIsValid(s: System<Term>, cts: set<Bytes>, events: seq<Event<Term>>)
    requires DerivedIn(s, cts) && HandshakeRun(s, cts, events)
    ensures ValidRun(s, events)
    decreases |events|
  {
    if events != [] {
      var e := events[0];
      if e.ServerRefreshes? {
        var pk, ct, sid :| e.tokens == HandshakeProtocol.ResumptionTokens(Shared(pk, ct), sid);
        assert PoolCiphertext(e.tokens) == ct;
        RefreshIsFresh(s, cts, pk, ct, sid);
        HandshakeRunIsValid(Next(s, e), cts + {ct}, events[1..]);
      } else {
        HandshakeRunIsValid(Next(s, e), cts, events[1..]);
      }
    }
  }

  /**
   From the pools of a first handshake, through any run refreshed by further
   handshakes: no token is accepted twice, and at most 20 attempts succeed between
   refreshes. Nothing about the tokens is assumed.
   */
  lemma HandshakePoolsAcceptOnce(pk: Bytes, ct: Bytes, sid: Bytes, events: seq<Event<Term>>)
    requires HandshakeRun(Start(HandshakeProtocol.ResumptionTokens(Shared(pk, ct), sid)), {ct}, events)
    ensures var s0 := Start(HandshakeProtocol.ResumptionTokens(Shared(pk, ct), sid));
            && ValidRun(s0, events)
            && Distinct(Run(s0, events).accepted) && Run(s0, events).sinceRefresh <= TOKEN_COUNT
  {
    var tokens := HandshakeProtocol.ResumptionTokens(Shared(pk, ct), sid);
    HandshakeProtocol.TokensDistinct(Shared(pk, ct), sid);
    IndexwiseDistinct(tokens);
    assert DerivedIn(Start(tokens), {ct});
    HandshakeRunIsValid(Start(tokens), {ct}, events);
    EachTokenAcceptedOnce(Start(tokens), events);
  }
}
