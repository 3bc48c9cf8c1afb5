/**
 The sequenced transport in one direction. `Send` takes its number under the lock
 and serialises and writes later, so concurrent sends are interleavings of an
 allocation step and a write (or failure) step. The network delivers anything
 written, in any order, any number of times, or never.
 */
module Transport {
  import opened Wrappers

  const UINT64 := 0x1_0000_0000_0000_0000

  /** The routes of a handshake, the close frame, and all the others. */
  datatype Route =
    | RequestHandshake | AcceptHandshake | SendChallenge | VerifyChallenge | CloseTransport | Other(id: nat)

  datatype Packet = Packet(number: nat, route: Route, body: nat)

  datatype ReceiveError = Undecryptable | PeerDisconnected | OutOfSync

  /** uint64 increment. */
  function Succ(n: nat): (r: nat)
  {
    (n + 1) % UINT64
  }

  /** Receive's rule for a frame that decrypts and verifies. */
  predicate Accepts(recvSequence: nat, route: Route, number: nat)
  {
    route != CloseTransport && number == Succ(recvSequence)
  }

  /** Receive on a delivered frame; None stands for a frame that does not decrypt or verify. */
  function Judge(recvSequence: nat, p: Option<Packet>): (r: Result<Packet, ReceiveError>)
  {
    if p.None? then Err(Undecryptable)
    else if p.value.route == CloseTransport then Err(PeerDisconnected)
    else if !Accepts(recvSequence, p.value.route, p.value.number) then Err(OutOfSync)
    else Ok(p.value)
  }

  /** What each frame gets: a close frame is reported whatever its number, any other out of order is refused. */
  lemma JudgedIff(recvSequence: nat, p: Packet)
    ensures Judge(recvSequence, Some(p)) == Err(PeerDisconnected) <==> p.route == CloseTransport
    ensures Judge(recvSequence, Some(p)) == Err(OutOfSync) <==>
            p.route != CloseTransport && p.number != (recvSequence + 1) % UINT64
    ensures Judge(recvSequence, Some(p)) == Ok(p) <==>
            p.route != CloseTransport && p.number == (recvSequence + 1) % UINT64
    ensures Judge(recvSequence, None) == Err(Undecryptable)
  {
  }

  /** The endpoint's own state. */
  class Endpoint {
    var sendSequence: nat
    var recvSequence: nat

    constructor ()
      ensures sendSequence == 0 && recvSequence == 0
    {
      sendSequence, recvSequence := 0, 0;
    }

    /** The locked section of Send. */
    method Allocate() returns (number: nat)
      modifies this
      ensures number == Succ(old(sendSequence)) && sendSequence == number
      ensures recvSequence == old(recvSequence)
    {
      sendSequence := (sendSequence + 1) % UINT64;
      number := sendSequence;
    }

    method Receive(p: Option<Packet>) returns (r: Result<Packet, ReceiveError>)
      modifies this
      ensures r == Judge(old(recvSequence), p)
      ensures recvSequence == if r.Ok? then r.value.number else old(recvSequence)
      ensures sendSequence == old(sendSequence)
    {
      if p.None? {
        return Err(Undecryptable);
      }
      if p.value.route == CloseTransport {
        return Err(PeerDisconnected);
      }
      var expected := (recvSequence + 1) % UINT64;
      if p.value.number != expected {
        return Err(OutOfSync);
      }
      recvSequence := p.value.number;
      return Ok(p.value);
    }
  }

  // ---- The system ----

  /**
   Sends are named 1, 2, 3, ... in allocation order. A send is pending, written or
   failed. Written means the whole frame is on the wire, even if the write reported
   an error after its last byte; failed means the receiver can never read it.
   */
  datatype System = System(
    sendSequence: nat, sends: nat,
    pending: map<nat, Packet>, written: map<nat, Packet>, failed: set<nat>,
    recvSequence: nat, accepted: seq<Packet>)

  const START: System := System(0, 0, map[], map[], {}, 0, [])

  datatype Event =
    | Allocate(route: Route, body: nat)
    | Write(send: nat)
    | Fail(send: nat)
    | Deliver(send: nat)
    | DeliverGarbage

  predicate Enabled(s: System, e: Event)
  {
    match e
    case Allocate(_, _) => true
    case Write(n) => n in s.pending
    case Fail(n) => n in s.pending
    case Deliver(n) => n in s.written
    case DeliverGarbage => true
  }

  function Received(s: System, p: Option<Packet>): (s': System)
  {
    match Judge(s.recvSequence, p)
    case Err(_) => s
    case Ok(q) => s.(recvSequence := q.number, accepted := s.accepted + [q])
  }

  function Next(s: System, e: Event): (s': System)
    requires Enabled(s, e)
  {
    match e
    case Allocate(route, body) =>
      var number := Succ(s.sendSequence);
      s.(sendSequence := number, sends := s.sends + 1,
         pending := s.pending[s.sends + 1 := Packet(number, route, body)])
    case Write(n) => s.(pending := s.pending - {n}, written := s.written[n := s.pending[n]])
    case Fail(n) => s.(pending := s.pending - {n}, failed := s.failed + {n})
    case Deliver(n) => Received(s, Some(s.written[n]))
    case DeliverGarbage => Received(s, None)
  }

  ghost predicate ValidRun(s: System, events: seq<Event>)
    decreases |events|
  {
    events == [] || (Enabled(s, events[0]) && ValidRun(Next(s, events[0]), events[1..]))
  }

  ghost function Run(s: System, events: seq<Event>): (r: System)
    requires ValidRun(s, events)
    decreases |events|
  {
    if events == [] then s else Run(Next(s, events[0]), events[1..])
  }

  // ---- What every run keeps while fewer than 2^64 sends were made ----

  /** The message accepted at position `k` is send `k + 1`. */
  predicate AcceptedAt(s: System, k: nat)
    requires k < |s.accepted|
  {
    && k + 1 in s.written && s.accepted[k] == s.written[k + 1]
    && s.accepted[k].number == k + 1 && s.accepted[k].route != CloseTransport
  }

  /** Every number handed out is pending, written or failed, and only one of these. */
  ghost predicate SendsOk(s: System)
  {
    && s.sendSequence == s.sends < UINT64
    && (forall n :: n in s.pending ==> 1 <= n <= s.sends && s.pending[n].number == n)
    && (forall n :: n in s.written ==> 1 <= n <= s.sends && s.written[n].number == n)
    && (forall n: nat :: 1 <= n <= s.sends <==> n in s.pending || n in s.written || n in s.failed)
    && s.pending.Keys !! s.written.Keys && s.pending.Keys !! s.failed && s.written.Keys !! s.failed
  }

  /** The accepted messages are the first sends, in order. */
  ghost predicate AcceptedOk(s: System)
  {
    && |s.accepted| == s.recvSequence <= s.sends
    && (forall k :: 0 <= k < |s.accepted| ==> AcceptedAt(s, k))
  }

  ghost predicate Inv(s: System)
  {
    SendsOk(s) && AcceptedOk(s)
  }

  lemma NextKeepsSends(s: System, e: Event)
    requires SendsOk(s) && Enabled(s, e) && Next(s, e).sends < UINT64
    ensures SendsOk(Next(s, e))
  {
  }

  lemma DeliverKeepsAccepted(s: System, n: nat)
    requires Inv(s) && n in s.written
    ensures AcceptedOk(Next(s, Deliver(n)))
  {
    var t := Next(s, Deliver(n));
    forall k | 0 <= k < |t.accepted|
      ensures AcceptedAt(t, k)
    {
      assert k < |s.accepted| ==> AcceptedAt(s, k);
    }
  }

  /** Steps on the sending side only add to what was written. */
  lemma SenderKeepsAccepted(s: System, e: Event)
    requires Inv(s) && Enabled(s, e) && !e.Deliver?
    ensures AcceptedOk(Next(s, e))
  {
    var t := Next(s, e);
    forall k | 0 <= k < |t.accepted|
      ensures AcceptedAt(t, k)
    {
      assert AcceptedAt(s, k);
    }
  }

  lemma NextKeepsInv(s: System, e: Event)
    requires Inv(s) && Enabled(s, e) && Next(s, e).sends < UINT64
    ensures Inv(Next(s, e))
  {
    NextKeepsSends(s, e);
    if e.Deliver? {
      DeliverKeepsAccepted(s, e.send);
    } else {
      SenderKeepsAccepted(s, e);
    }
  }

  /** A delivered send is accepted exactly if it is the next one and no close frame; otherwise nothing changes. */
  lemma DeliveredIsAcceptedIff(s: System, n: nat)
    requires Inv(s) && n in s.written
    ensures Next(s, Deliver(n)) ==
            if n == s.recvSequence + 1 && s.written[n].route != CloseTransport
            then s.(recvSequence := n, accepted := s.accepted + [s.written[n]])
            else s
  {
  }

  /** What does not decrypt can arrive at any time and changes nothing. */
  lemma GarbageChangesNothing(s: System)
    ensures Enabled(s, DeliverGarbage) && Next(s, DeliverGarbage) == s
  {
  }

  lemma PassedIsWritten(s: System, n: nat)
    requires Inv(s) && 1 <= n <= s.recvSequence
    ensures n in s.written && !Gap(s, n)
  {
    assert AcceptedAt(s, n - 1);
  }

  lemma SendsGrow(s: System, events: seq<Event>)
    requires ValidRun(s, events)
    ensures s.sends <= Run(s, events).sends
    decreases |events|
  {
    if events != [] {
      SendsGrow(Next(s, events[0]), events[1..]);
    }
  }

  lemma {:induction false} RunKeepsInv(s: System, events: seq<Event>)
    requires Inv(s) && ValidRun(s, events) && Run(s, events).sends < UINT64
    ensures Inv(Run(s, events))
    decreases |events|
  {
    if events != [] {
      SendsGrow(Next(s, events[0]), events[1..]);
      NextKeepsInv(s, events[0]);
      RunKeepsInv(Next(s, events[0]), events[1..]);
    }
  }

  /** `n` was allocated but nothing usable carries its number. */
  predicate Gap(s: System, n: nat)
  {
    n in s.pending || n in s.failed || (n in s.written && s.written[n].route == CloseTransport)
  }

  /**
   The receiver has accepted exactly sends 1..recvSequence, each once and in
   order, and has not passed any send that was never written or was a close frame.
   */
  lemma AcceptedExactlyInOrder(events: seq<Event>)
    requires ValidRun(START, events) && Run(START, events).sends < UINT64
    ensures var s := Run(START, events);
            && |s.accepted| == s.recvSequence
            && (forall k :: 0 <= k < |s.accepted| ==> AcceptedAt(s, k))
            && (forall n: nat :: Gap(s, n) ==> s.recvSequence < n)
  {
    RunKeepsInv(START, events);
    var s := Run(START, events);
    forall n: nat | Gap(s, n)
      ensures s.recvSequence < n
    {
      if 1 <= n <= s.recvSequence {
        PassedIsWritten(s, n);
      }
    }
  }

  /** A send that took a number and put no whole frame on the wire blocks the stream for good. */
  lemma {:induction false} FailedSendBlocksForever(s: System, events: seq<Event>, n: nat)
    requires Inv(s) && ValidRun(s, events) && Run(s, events).sends < UINT64
    requires n in s.failed
    ensures n in Run(s, events).failed && Run(s, events).recvSequence < n
    decreases |events|
  {
    if events == [] {
      if n <= s.recvSequence {
        PassedIsWritten(s, n);
      }
    } else {
      SendsGrow(Next(s, events[0]), events[1..]);
      NextKeepsInv(s, events[0]);
      FailedSendBlocksForever(Next(s, events[0]), events[1..], n);
    }
  }

  // ---- The bound is exact ----

  ghost predicate Reaches(s: System)
  {
    exists events :: ValidRun(START, events) && Run(START, events) == s
  }

  lemma {:induction false} RunSnoc(s: System, events: seq<Event>, e: Event)
    requires ValidRun(s, events) && Enabled(Run(s, events), e)
    ensures ValidRun(s, events + [e]) && Run(s, events + [e]) == Next(Run(s, events), e)
    decreases |events|
  {
    if events == [] {
      assert (events + [e])[1..] == [];
    } else {
      assert (events + [e])[1..] == events[1..] + [e];
      RunSnoc(Next(s, events[0]), events[1..], e);
    }
  }

  lemma ReachesStep(s: System, e: Event)
    requires Reaches(s) && Enabled(s, e)
    ensures Reaches(Next(s, e))
  {
    var events :| ValidRun(START, events) && Run(START, events) == s;
    RunSnoc(START, events, e);
  }

  /** `n` sends, each written and delivered at once. */
  ghost predicate Lockstep(s: System, n: nat)
  {
    && s.sends == n && s.sendSequence == n % UINT64 && s.recvSequence == n % UINT64
    && |s.accepted| == n && s.pending == map[]
    && (n >= 1 ==> 1 in s.written && s.written[1] == Packet(1, Other(0), 0))
  }

  lemma LockstepRound(s: System, n: nat)
    requires Reaches(s) && Lockstep(s, n) && n < UINT64
    ensures exists s' :: Reaches(s') && Lockstep(s', n + 1)
  {
    var s1 := Next(s, Allocate(Other(0), 0));
    ReachesStep(s, Allocate(Other(0), 0));
    var s2 := Next(s1, Write(n + 1));
    ReachesStep(s1, Write(n + 1));
    var s3 := Next(s2, Deliver(n + 1));
    ReachesStep(s2, Deliver(n + 1));
    assert s2.written[n + 1] == Packet((n + 1) % UINT64, Other(0), 0);
    assert Lockstep(s3, n + 1);
  }

  lemma {:induction false} LockstepReachable(n: nat)
    requires n <= UINT64
    ensures exists s :: Reaches(s) && Lockstep(s, n)
  {
    if n == 0 {
      assert Run(START, []) == START;
      assert Lockstep(START, 0);
    } else {
      LockstepReachable(n - 1);
      var s :| Reaches(s) && Lockstep(s, n - 1);
      LockstepRound(s, n - 1);
    }
  }

  /** At 2^64 sends the counter has wrapped and the first message is accepted again on redelivery. */
  lemma WrapAcceptsDuplicate()
    ensures exists s :: Reaches(s) && s.sends == UINT64 && |s.accepted| > s.sends
  {
    LockstepReachable(UINT64);
    var s :| Reaches(s) && Lockstep(s, UINT64);
    ReachesStep(s, Deliver(1));
    assert Next(s, Deliver(1)).accepted == s.accepted + [s.written[1]];
  }
}
