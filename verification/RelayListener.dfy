/**
 The relay listener before Stop and Close: one pump turns message frames into
 connections and hands each new connection over through an accept channel of
 capacity one, while callers accept connections and close the ones they hold.
 deliver is two steps: the locked part, then the non-blocking send. A connection's
 Close runs closeFn, which forgets the current connection whichever one it is.
 */
module RelayListener {
  import opened Encoding
  import opened Wrappers

  /** Connections are numbered as deliver creates them. */
  type Id = nat

  datatype State = State(
    conn: Option<Id>,             // l.conn
    slot: Option<Id>,             // the accept channel
    offering: Option<Id>,         // deliver has created it and not yet sent it
    received: seq<seq<Bytes>>,    // data pushed into each connection
    accepted: seq<Id>,            // connections Accept has returned
    dropped: seq<Id>,             // connections deliver gave up
    arrivals: seq<Bytes>)         // message frames the pump has read

  const START := State(None, None, None, [], [], [], [])

  datatype Event =
    | Deliver(data: Bytes)
    | Offer
    | Accept
    | CloseConn(id: Id)

  /** The pump delivers one frame at a time; only an accepted connection can be closed, any number of times. */
  predicate Enabled(s: State, e: Event)
  {
    match e
    case Deliver(_) => s.offering.None?
    case Offer => s.offering.Some?
    case Accept => s.slot.Some?
    case CloseConn(id) => id in s.accepted
  }

  function Next(s: State, e: Event): (r: State)
    requires Enabled(s, e)
  {
    match e
    case Deliver(x) =>
      var t := s.(arrivals := s.arrivals + [x]);
      if s.conn.Some? && s.conn.value < |s.received| then
        t.(received := s.received[s.conn.value := s.received[s.conn.value] + [x]])
      else
        t.(conn := Some(|s.received|), offering := Some(|s.received|), received := s.received + [[x]])
    case Offer =>
      if s.slot.None? then s.(slot := s.offering, offering := None)
      else s.(conn := None, offering := None, dropped := s.dropped + [s.offering.value])
    case Accept => s.(slot := None, accepted := s.accepted + [s.slot.value])
    case CloseConn(_) => s.(conn := None)
  }

  ghost predicate ValidRun(s: State, es: seq<Event>)
    decreases |es|
  {
    es == [] || (Enabled(s, es[0]) && ValidRun(Next(s, es[0]), es[1..]))
  }

  function Run(s: State, es: seq<Event>): (r: State)
    requires ValidRun(s, es)
    decreases |es|
  {
    if es == [] then s else Run(Next(s, es[0]), es[1..])
  }

  // ---- What a run delivers ----

  function Flatten(runs: seq<seq<Bytes>>): (r: seq<Bytes>)
  {
    if runs == [] then [] else Flatten(runs[..|runs| - 1]) + runs[|runs| - 1]
  }

  function Ids(n: nat): (r: seq<Id>)
    ensures |r| == n && forall i :: 0 <= i < n ==> r[i] == i
  {
    seq(n, i => i)
  }

  /** The connection on its way to a caller, if there is one. */
  function Pending(s: State): (r: seq<Id>)
  {
    (if s.slot.Some? then [s.slot.value] else []) + (if s.offering.Some? then [s.offering.value] else [])
  }

  /** A connection waits to be accepted. */
  predicate Occupied(s: State)
  {
    s.slot.Some? || s.offering.Some?
  }

  /** The frames read so far, cut into contiguous runs in order, one non-empty run per connection. */
  ghost predicate Partitioned(s: State)
  {
    && s.arrivals == Flatten(s.received)
    && (forall i :: 0 <= i < |s.received| ==> s.received[i] != [])
  }

  /** Nothing dropped: callers got, or will get, every connection in the order of creation. */
  ghost predicate NothingDropped(s: State)
  {
    s.dropped == [] && s.accepted + Pending(s) == Ids(|s.received|)
  }

  ghost predicate Inv(s: State)
  {
    && Partitioned(s) && NothingDropped(s)
    && (s.conn.Some? ==> s.conn.value + 1 == |s.received|)
    && (s.slot.Some? ==> s.slot == s.conn)
    && (s.offering.Some? ==> s.offering == s.conn && s.slot.None?)
  }

  lemma DeliverKeepsPartition(s: State, x: Bytes)
    requires Inv(s) && s.offering.None?
    ensures Partitioned(Next(s, Deliver(x)))
  {
    var n := |s.received|;
    var t := Next(s, Deliver(x));
    if s.conn.Some? {
      assert t.received[..n - 1] == s.received[..n - 1];
      assert Flatten(s.received[..n - 1]) + (s.received[n - 1] + [x]) == s.arrivals + [x];
    } else {
      assert t.received[..n] == s.received;
    }
  }

  lemma NextKeepsInv(s: State, e: Event)
    requires Inv(s) && Enabled(s, e) && (e.CloseConn? ==> !Occupied(s))
    ensures Inv(Next(s, e))
  {
    var t := Next(s, e);
    match e
    case Deliver(x) =>
      DeliverKeepsPartition(s, x);
      assert s.conn.None? ==> t.accepted + Pending(t) == Ids(|s.received|) + [|s.received|];
    case Accept =>
      assert t.accepted + Pending(t) == s.accepted + Pending(s);
    case _ =>
  }

  // ---- Frames stay with the connection that is open ----

  function Closes(es: seq<Event>): (r: nat)
  {
    if es == [] then 0 else (if es[0].CloseConn? then 1 else 0) + Closes(es[1..])
  }

  /** Each connection after the first takes a close or a dropped session: an open one gets every frame. */
  lemma {:induction false} NewConnectionNeedsClose(s: State, es: seq<Event>)
    requires ValidRun(s, es) && (s.conn.Some? ==> s.conn.value < |s.received|)
    ensures var t := Run(s, es);
            |t.received| + (if t.conn.Some? then 0 else 1) <=
            |s.received| + (if s.conn.Some? then 0 else 1) + Closes(es) + |t.dropped| - |s.dropped|
    decreases |es|
  {
    if es != [] {
      NewConnectionNeedsClose(Next(s, es[0]), es[1..]);
    }
  }

  // ---- The exact condition on closes ----

  /** No connection is closed while another waits to be accepted. */
  ghost predicate Guarded(s: State, es: seq<Event>)
    requires ValidRun(s, es)
    decreases |es|
  {
    es != [] ==>
      && (es[0].CloseConn? ==> !Occupied(s))
      && Guarded(Next(s, es[0]), es[1..])
  }

  lemma {:induction false} GuardedRunKeepsInv(s: State, es: seq<Event>)
    requires Inv(s) && ValidRun(s, es) && Guarded(s, es)
    ensures Inv(Run(s, es))
    decreases |es|
  {
    if es != [] {
      NextKeepsInv(s, es[0]);
      GuardedRunKeepsInv(Next(s, es[0]), es[1..]);
    }
  }

  /** The frames that make a stray close visible. */
  function Exposing(s: State, x: Bytes): (es: seq<Event>)
  {
    (if s.offering.Some? then [Offer] else []) + [Deliver(x), Offer]
  }

  /** One more frame after a close that hit an occupied slot, and deliver drops a session. */
  lemma StrayCloseDrops(s: State, id: Id, x: Bytes)
    requires Inv(s) && Enabled(s, CloseConn(id)) && Occupied(s)
    ensures var t := Next(s, CloseConn(id));
            && ValidRun(t, Exposing(t, x))
            && var w := Run(t, Exposing(t, x));
            && w.dropped == [|s.received|] && w.conn.None? && w.offering.None? && w.slot == s.conn
  {
    var t := Next(s, CloseConn(id));
    var es := Exposing(t, x);
    var u := if t.offering.Some? then Next(t, Offer) else t;
    var v := Next(u, Deliver(x));
    var w := Next(v, Offer);
    assert [Deliver(x), Offer][1..] == [Offer] && [Offer][1..] == [];
    assert Run(w, []) == w;
    assert Run(v, [Offer]) == w;
    assert ValidRun(u, [Deliver(x), Offer]) && Run(u, [Deliver(x), Offer]) == w;
    if t.offering.Some? {
      assert es == [Offer] + [Deliver(x), Offer] && es[1..] == [Deliver(x), Offer];
    } else {
      assert es == [Deliver(x), Offer];
    }
  }

  /** From `s` no continuation without a stray close ever drops a session. */
  ghost predicate NeverDrops(s: State)
  {
    forall es :: ValidRun(s, es) && Guarded(s, es) ==> Run(s, es).dropped == s.dropped
  }

  /** Closing is harmless exactly when no connection waits to be accepted. */
  lemma CloseIsSafeIff(s: State, id: Id)
    requires Inv(s) && Enabled(s, CloseConn(id))
    ensures NeverDrops(Next(s, CloseConn(id))) <==> !Occupied(s)
  {
    var t := Next(s, CloseConn(id));
    if Occupied(s) {
      StrayCloseDrops(s, id, []);
      var es := Exposing(t, []);
      NoCloseIsGuarded(t, es);
    } else {
      NextKeepsInv(s, CloseConn(id));
      forall es | ValidRun(t, es) && Guarded(t, es)
        ensures Run(t, es).dropped == t.dropped
      {
        GuardedRunKeepsInv(t, es);
      }
    }
  }

  lemma {:induction false} NoCloseIsGuarded(s: State, es: seq<Event>)
    requires ValidRun(s, es) && forall i :: 0 <= i < |es| ==> !es[i].CloseConn?
    ensures Guarded(s, es)
    decreases |es|
  {
    if es != [] {
      NoCloseIsGuarded(Next(s, es[0]), es[1..]);
    }
  }

  // ---- Callers that close each connection at most once ----

  ghost predicate ClosedOnce(es: seq<Event>)
  {
    forall i, j :: 0 <= i < j < |es| && es[i].CloseConn? && es[j].CloseConn? ==> es[i].id != es[j].id
  }

  /** `closed` are the connections closed so far: every connection but the current one is among them. */
  ghost predicate OnlyCurrentOpen(s: State, closed: set<Id>)
  {
    && (forall id :: 0 <= id < |s.received| && s.conn != Some(id) ==> id in closed)
    && (forall id <- closed :: id < |s.received|)
  }

  lemma {:induction false} ClosedOnceIsGuarded(s: State, es: seq<Event>, closed: set<Id>)
    requires Inv(s) && OnlyCurrentOpen(s, closed) && ValidRun(s, es) && ClosedOnce(es)
    requires forall i :: 0 <= i < |es| && es[i].CloseConn? ==> es[i].id !in closed
    ensures Guarded(s, es)
    decreases |es|
  {
    if es != [] {
      var e := es[0];
      if e.CloseConn? {
        assert e.id in s.accepted + Pending(s);
        assert s.conn == Some(e.id);
        AcceptedIsNotPending(s, e.id);
      }
      NextKeepsInv(s, e);
      var closed' := if e.CloseConn? then closed + {e.id} else closed;
      ClosedOnceIsGuarded(Next(s, e), es[1..], closed');
    }
  }

  lemma AcceptedIsNotPending(s: State, id: Id)
    requires NothingDropped(s) && id in s.accepted
    ensures id !in Pending(s)
  {
    var all := s.accepted + Pending(s);
    var i :| 0 <= i < |s.accepted| && s.accepted[i] == id;
    assert all[i] == id;
    forall j | 0 <= j < |Pending(s)|
      ensures Pending(s)[j] != id
    {
      assert all[|s.accepted| + j] == Pending(s)[j];
    }
  }

  /**
   With each connection closed at most once, an occupied slot holds the current
   connection, no session is dropped, and the frames read are partitioned into
   contiguous in-order runs, one per connection, accepted in order.
   */
  lemma ClosedOnceDeliversEverything(es: seq<Event>)
    requires ValidRun(START, es) && ClosedOnce(es)
    ensures var s := Run(START, es);
            && (s.slot.Some? ==> s.slot == s.conn)
            && Partitioned(s) && NothingDropped(s)
  {
    ClosedOnceIsGuarded(START, es, {});
    GuardedRunKeepsInv(START, es);
  }

  lemma {:induction false} RunJoin(s: State, es: seq<Event>, fs: seq<Event>)
    requires ValidRun(s, es) && ValidRun(Run(s, es), fs)
    ensures ValidRun(s, es + fs) && Run(s, es + fs) == Run(Run(s, es), fs)
    decreases |es|
  {
    if es == [] {
      assert es + fs == fs;
    } else {
      assert (es + fs)[1..] == es[1..] + fs;
      RunJoin(Next(s, es[0]), es[1..], fs);
    }
  }

  lemma OneStep(s: State, a: Event)
    requires Enabled(s, a)
    ensures ValidRun(s, [a]) && Run(s, [a]) == Next(s, a)
  {
    assert [a][1..] == [];
    assert Run(Next(s, a), []) == Next(s, a);
  }

  lemma ThreeSteps(s: State, a: Event, b: Event, c: Event)
    requires Enabled(s, a) && Enabled(Next(s, a), b) && Enabled(Next(Next(s, a), b), c)
    ensures ValidRun(s, [a, b, c]) && Run(s, [a, b, c]) == Next(Next(Next(s, a), b), c)
  {
    OneStep(s, a);
    OneStep(Next(s, a), b);
    RunJoin(s, [a], [b]);
    assert [a] + [b] == [a, b];
    OneStep(Next(Next(s, a), b), c);
    RunJoin(s, [a, b], [c]);
    assert [a, b] + [c] == [a, b, c];
  }

  /** Closing one connection twice is enough: the second close forgets its successor. */
  lemma DoubleCloseDrops(x: Bytes, y: Bytes, z: Bytes) returns (es: seq<Event>)
    ensures es == [Deliver(x), Offer, Accept] + [CloseConn(0), Deliver(y), Offer] + [CloseConn(0), Deliver(z), Offer]
    ensures ValidRun(START, es) && Run(START, es).dropped == [2]
  {
    var a, b, c := [Deliver(x), Offer, Accept], [CloseConn(0), Deliver(y), Offer], [CloseConn(0), Deliver(z), Offer];
    ThreeSteps(START, Deliver(x), Offer, Accept);
    ThreeSteps(Run(START, a), CloseConn(0), Deliver(y), Offer);
    RunJoin(START, a, b);
    ThreeSteps(Run(START, a + b), CloseConn(0), Deliver(z), Offer);
    RunJoin(START, a + b, c);
    es := a + b + c;
  }

  // ---- The listener object ----

  class Listener {
    var conn: Option<Id>
    var slot: Option<Id>
    var received: seq<seq<Bytes>>
    ghost var offering: Option<Id>
    ghost var accepted: seq<Id>
    ghost var dropped: seq<Id>
    ghost var arrivals: seq<Bytes>

    ghost function Abs(): (s: State)
      reads this
    {
      State(conn, slot, offering, received, accepted, dropped, arrivals)
    }

    ghost predicate Valid()
      reads this
    {
      conn.Some? ==> conn.value < |received|
    }

    constructor ()
      ensures Valid() && Abs() == START
    {
      conn, slot, received := None, None, [];
      offering, accepted, dropped, arrivals := None, [], [], [];
    }

    /** deliver under the mutex; the result is the connection to offer next, if one was created. */
    method DeliverLocked(data: Bytes) returns (created: Option<Id>)
      requires Valid() && offering.None?
      modifies this
      ensures Valid() && Abs() == Next(old(Abs()), Deliver(data))
      ensures created == offering
    {
      arrivals := arrivals + [data];
      if conn.Some? {
        received := received[conn.value := received[conn.value] + [data]];
        return None;
      }
      var id := |received|;
      conn, received, offering := Some(id), received + [[data]], Some(id);
      return Some(id);
    }

    /** deliver's select after the mutex is released. */
    method OfferCreated(id: Id) returns (sent: bool)
      requires Valid() && offering == Some(id)
      modifies this
      ensures Valid() && Abs() == Next(old(Abs()), Offer)
      ensures sent <==> old(slot).None?
    {
      offering := None;
      if slot.None? {
        slot := Some(id);
        return true;
      }
      conn := None;
      dropped := dropped + [id];
      return false;
    }

    /**
     deliver with nobody else between its two halves. Where the slot agrees with the
     current connection it keeps the listener's invariant, so it drops no session.
     */
    method DeliverFrame(data: Bytes)
      requires Valid() && offering.None?
      modifies this
      ensures Valid() && offering.None? && arrivals == old(arrivals) + [data]
      ensures old(Inv(Abs())) ==> Inv(Abs()) && dropped == old(dropped)
      ensures old(conn).None? && old(slot).None? ==> conn.Some? && slot == conn
    {
      ghost var s := Abs();
      var created := DeliverLocked(data);
      ghost var t := Abs();
      if created.Some? {
        var _ := OfferCreated(created.value);
      }
      if Inv(s) {
        NextKeepsInv(s, Deliver(data));
        if created.Some? {
          NextKeepsInv(t, Offer);
        }
      }
    }

    /** Accept's select, when a connection is there. */
    method TakeAccepted() returns (id: Id)
      requires Valid() && slot.Some?
      modifies this
      ensures Valid() && Abs() == Next(old(Abs()), Accept) && old(slot) == Some(id)
    {
      id := slot.value;
      slot, accepted := None, accepted + [id];
    }

    /** closeFn of any connection created by deliver. */
    method ConnClosed(ghost id: Id)
      requires Valid() && id in accepted
      modifies this
      ensures Valid() && Abs() == Next(old(Abs()), CloseConn(id))
    {
      conn := None;
    }
  }
}
