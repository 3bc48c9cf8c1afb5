/**
 A relay connection: a buffer behind a mutex and a signal channel of capacity one.
 Pushers append under the lock and signal after it; readers check under the lock
 and park in a select. Every locked section and every channel operation is one
 step, and any number of pushers and readers interleave.
 */
module RelayConn {
  import opened Encoding
  import opened Wrappers

  /** Where a reader is: outside ReadBytes, before the locked check, or in the select. */
  datatype Phase = Idle | Checking | Parked

  datatype State = State(
    buf: seq<Bytes>, signal: bool, unsignalled: nat, cancelled: bool, readers: seq<Phase>,
    pushed: seq<Bytes>, returned: seq<Bytes>)

  datatype Event =
    | Append(data: Bytes)                    // pushData, locked part
    | Signal                             // pushData, non-blocking send
    | Call(reader: nat)                  // enter ReadBytes
    | Check(reader: nat, expired: bool)  // locked check; `expired` is a deadline already in the past
    | Wake(reader: nat)                  // the select takes the signal
    | Expire(reader: nat)                // the select takes the deadline timer
    | Cancel                             // Close, or the pump's exit
    | EndOfFile(reader: nat)             // the select takes the cancelled context

  predicate At(s: State, reader: nat, phase: Phase)
  {
    reader < |s.readers| && s.readers[reader] == phase
  }

  predicate Enabled(s: State, e: Event)
  {
    match e
    case Append(_) => true
    case Signal => s.unsignalled > 0
    case Call(r) => At(s, r, Idle)
    case Check(r, _) => At(s, r, Checking)
    case Wake(r) => At(s, r, Parked) && s.signal
    case Expire(r) => At(s, r, Parked)
    case Cancel => true
    case EndOfFile(r) => At(s, r, Parked) && s.cancelled
  }

  function Next(s: State, e: Event): (r: State)
    requires Enabled(s, e)
  {
    match e
    case Append(x) => s.(buf := s.buf + [x], unsignalled := s.unsignalled + 1, pushed := s.pushed + [x])
    case Signal => s.(signal := true, unsignalled := s.unsignalled - 1)
    case Call(r) => s.(readers := s.readers[r := Checking])
    case Check(r, expired) =>
      if s.buf != [] then
        s.(buf := s.buf[1..], returned := s.returned + [s.buf[0]], readers := s.readers[r := Idle])
      else
        s.(readers := s.readers[r := if expired then Idle else Parked])
    case Wake(r) => s.(signal := false, readers := s.readers[r := Checking])
    case Expire(r) => s.(readers := s.readers[r := Idle])
    case Cancel => s.(cancelled := true)
    case EndOfFile(r) => s.(readers := s.readers[r := Idle])
  }

  ghost predicate ValidRun(s: State, es: seq<Event>)
    decreases |es|
  {
    es == [] || (Enabled(s, es[0]) && ValidRun(Next(s, es[0]), es[1..]))
  }

  function Run(s: State, es: seq<Event>): (r: State)
    requires ValidRun(s, es)
    decreases |es|
  {
    if es == [] then s else Run(Next(s, es[0]), es[1..])
  }

  /** A fresh connection with `n` goroutines that may read it. */
  function Fresh(n: nat): (s: State)
  {
    State([], false, 0, false, seq(n, _ => Idle), [], [])
  }

  // ---- No datum lost, duplicated or reordered ----

  ghost predicate Conserved(s: State)
  {
    s.pushed == s.returned + s.buf
  }

  lemma NextConserves(s: State, e: Event)
    requires Conserved(s) && Enabled(s, e)
    ensures Conserved(Next(s, e))
  {
    if e.Check? && s.buf != [] {
      assert s.buf == [s.buf[0]] + s.buf[1..];
    }
  }

  /** In every run, whatever was pushed is what was returned followed by what is buffered. */
  lemma {:induction false} RunConserves(s: State, es: seq<Event>)
    requires Conserved(s) && ValidRun(s, es)
    ensures Conserved(Run(s, es))
    decreases |es|
  {
    if es != [] {
      NextConserves(s, es[0]);
      RunConserves(Next(s, es[0]), es[1..]);
    }
  }

  /** A parked reader can leave with an end of file exactly once the connection is closed; what is buffered stays. */
  lemma CloseReleasesReaders(s: State, r: nat)
    requires At(s, r, Parked)
    ensures Enabled(s, EndOfFile(r)) <==> s.cancelled
    ensures var t := Next(s, Cancel);
            && Enabled(t, EndOfFile(r))
            && var u := Next(t, EndOfFile(r));
            && At(u, r, Idle) && u.cancelled && u.buf == s.buf && u.returned == s.returned
            && (s.buf != [] ==>
                  && Enabled(u, Call(r))
                  && Next(Next(u, Call(r)), Check(r, true)).returned == s.returned + [s.buf[0]])
  {
    var u := Next(Next(s, Cancel), EndOfFile(r));
    assert At(Next(u, Call(r)), r, Checking);
  }

  // ---- No lost wakeup, for a single reader ----

  /** Nobody sleeps on data: some wakeup is present or on its way. */
  ghost predicate NoLostWakeup(s: State)
  {
    (exists r :: At(s, r, Parked)) && s.buf != [] ==> s.signal || s.unsignalled > 0
  }

  lemma {:induction false} OneReaderRun(s: State, es: seq<Event>)
    requires |s.readers| <= 1 && NoLostWakeup(s) && ValidRun(s, es)
    ensures NoLostWakeup(Run(s, es))
    decreases |es|
  {
    if es != [] {
      var t := Next(s, es[0]);
      forall r | At(t, r, Parked) && t.buf != []
        ensures t.signal || t.unsignalled > 0
      {
        assert es[0].Check? || At(s, r, Parked);
      }
      OneReaderRun(t, es[1..]);
    }
  }

  ghost predicate Reaches(n: nat, s: State)
  {
    exists es :: ValidRun(Fresh(n), es) && Run(Fresh(n), es) == s
  }

  lemma {:induction false} RunSnoc(s: State, es: seq<Event>, e: Event)
    requires ValidRun(s, es) && Enabled(Run(s, es), e)
    ensures ValidRun(s, es + [e]) && Run(s, es + [e]) == Next(Run(s, es), e)
    decreases |es|
  {
    if es == [] {
      assert (es + [e])[1..] == [];
    } else {
      assert (es + [e])[1..] == es[1..] + [e];
      RunSnoc(Next(s, es[0]), es[1..], e);
    }
  }

  lemma TwoSteps(s: State, a: Event, b: Event)
    requires Enabled(s, a) && Enabled(Next(s, a), b)
    ensures ValidRun(s, [a, b]) && Run(s, [a, b]) == Next(Next(s, a), b)
  {
    RunSnoc(s, [], a);
    assert [] + [a] == [a];
    RunSnoc(s, [a], b);
    assert [a] + [b] == [a, b];
  }

  lemma Step(n: nat, s: State, e: Event) returns (t: State)
    requires Reaches(n, s) && Enabled(s, e)
    ensures Reaches(n, t) && t == Next(s, e)
  {
    var es :| ValidRun(Fresh(n), es) && Run(Fresh(n), es) == s;
    RunSnoc(Fresh(n), es, e);
    t := Next(s, e);
  }

  /** Two parked readers, two pushes whose signals merge: one reader sleeps on the second datum. */
  lemma TwoReadersLoseAWakeup(n: nat) returns (s: State)
    requires n >= 2
    ensures Reaches(n, s) && !NoLostWakeup(s)
  {
    s := Fresh(n);
    assert Run(s, []) == s;
    s := Step(n, s, Call(0));
    s := Step(n, s, Check(0, false));
    s := Step(n, s, Call(1));
    s := Step(n, s, Check(1, false));
    s := Step(n, s, Append([1]));
    s := Step(n, s, Append([2]));
    s := Step(n, s, Signal);
    s := Step(n, s, Signal);
    s := Step(n, s, Wake(0));
    s := Step(n, s, Check(0, false));
    assert At(s, 1, Parked) && |s.buf| == 1;
  }

  /** The wakeup protocol is right for exactly one reader. */
  lemma NoLostWakeupIffOneReader(n: nat)
    ensures (forall s: State :: Reaches(n, s) ==> NoLostWakeup(s)) <==> n <= 1
  {
    if n <= 1 {
      forall s: State | Reaches(n, s)
        ensures NoLostWakeup(s)
      {
        var es :| ValidRun(Fresh(n), es) && Run(Fresh(n), es) == s;
        OneReaderRun(Fresh(n), es);
      }
    } else {
      var s := TwoReadersLoseAWakeup(n);
    }
  }

  // ---- Progress ----

  /** Steps of goroutines that are already running and need nothing from outside. */
  predicate Internal(e: Event)
  {
    e.Signal? || e.Check? || e.Wake?
  }

  ghost predicate InternalRun(es: seq<Event>)
  {
    forall i :: 0 <= i < |es| ==> Internal(es[i])
  }

  ghost predicate Quiet(s: State)
  {
    forall e :: Internal(e) ==> !Enabled(s, e)
  }

  function CheckingCount(readers: seq<Phase>): (r: nat)
  {
    if readers == [] then 0
    else CheckingCount(readers[..|readers| - 1]) + (if readers[|readers| - 1] == Checking then 1 else 0)
  }

  lemma {:induction false} CheckingMoved(readers: seq<Phase>, r: nat, phase: Phase)
    requires r < |readers|
    ensures CheckingCount(readers[r := phase]) ==
            CheckingCount(readers) - (if readers[r] == Checking then 1 else 0) + (if phase == Checking then 1 else 0)
  {
    var n := |readers| - 1;
    if r < n {
      CheckingMoved(readers[..n], r, phase);
      assert readers[r := phase][..n] == readers[..n][r := phase];
    } else {
      assert readers[r := phase][..n] == readers[..n];
    }
  }

  /** What internal steps use up. */
  function Fuel(s: State): (r: nat)
  {
    4 * s.unsignalled + (if s.signal then 3 else 0) + CheckingCount(s.readers)
  }

  /** Internal steps cannot go on for ever, however many readers there are. */
  lemma {:induction false} InternalRunsEnd(s: State, es: seq<Event>)
    requires ValidRun(s, es) && InternalRun(es)
    ensures |es| <= Fuel(s)
    decreases |es|
  {
    if es != [] {
      assert Internal(es[0]);
      var t := Next(s, es[0]);
      if !es[0].Signal? {
        CheckingMoved(s.readers, es[0].reader, t.readers[es[0].reader]);
      }
      InternalRunsEnd(t, es[1..]);
    }
  }

  lemma {:induction false} ReturnedGrows(s: State, es: seq<Event>)
    requires ValidRun(s, es)
    ensures s.returned <= Run(s, es).returned
    decreases |es|
  {
    if es != [] {
      ReturnedGrows(Next(s, es[0]), es[1..]);
    }
  }

  /** Some reader is about to look at the buffer, or is parked with a wakeup present or on its way. */
  ghost predicate Awake(s: State)
  {
    || (exists r :: At(s, r, Checking))
    || ((exists r :: At(s, r, Parked)) && (s.signal || s.unsignalled > 0))
  }

  /** With one reader inside ReadBytes and data buffered, `NoLostWakeup` says exactly that. */
  lemma OneReaderAwake(s: State)
    requires |s.readers| == 1 && s.readers[0] != Idle && s.buf != []
    ensures NoLostWakeup(s) <==> Awake(s)
  {
    assert At(s, 0, s.readers[0]);
  }

  lemma SomebodyMoves(s: State)
    requires Awake(s)
    ensures !Quiet(s)
  {
    if r :| At(s, r, Checking) {
      assert Internal(Check(r, false)) && Enabled(s, Check(r, false));
    } else {
      var r :| At(s, r, Parked);
      var e := if s.signal then Wake(r) else Signal;
      assert Internal(e) && Enabled(s, e);
    }
  }

  /** Nothing before the first look at the buffer puts everybody to sleep. */
  lemma StaysAwake(s: State, e: Event)
    requires Awake(s) && Enabled(s, e) && (e.Signal? || e.Wake?)
    ensures Awake(Next(s, e)) && Next(s, e).buf == s.buf && Next(s, e).returned == s.returned
  {
    var t := Next(s, e);
    if e.Wake? {
      assert At(t, e.reader, Checking);
    } else if r :| At(s, r, Checking) {
      assert At(t, r, Checking);
    } else {
      var r :| At(s, r, Parked);
      assert At(t, r, Parked);
    }
  }

  /**
   Data is buffered: whichever way the running goroutines are scheduled, once none
   of them can move the oldest buffered datum has been returned next if and only
   if somebody was awake.
   */
  lemma {:induction false} BufferedDataIsReturned(s: State, es: seq<Event>)
    requires s.buf != [] && ValidRun(s, es) && InternalRun(es) && Quiet(Run(s, es))
    ensures s.returned + [s.buf[0]] <= Run(s, es).returned <==> Awake(s)
    decreases |es|
  {
    if Awake(s) {
      SomebodyMoves(s);
      if es != [] {
        assert Internal(es[0]);
        var t := Next(s, es[0]);
        if es[0].Check? {
          ReturnedGrows(t, es[1..]);
        } else {
          StaysAwake(s, es[0]);
          BufferedDataIsReturned(t, es[1..]);
        }
      }
    } else {
      AsleepReturnsNothing(s, es);
    }
  }

  lemma {:induction false} AsleepReturnsNothing(s: State, es: seq<Event>)
    requires !Awake(s) && ValidRun(s, es) && InternalRun(es)
    ensures Run(s, es).returned == s.returned
    decreases |es|
  {
    if es != [] {
      assert Internal(es[0]) && es[0].Signal?;
      var t := Next(s, es[0]);
      assert !Awake(t) by {
        assert forall r :: At(t, r, Checking) ==> At(s, r, Checking);
        assert forall r :: At(t, r, Parked) ==> At(s, r, Parked);
      }
      AsleepReturnsNothing(t, es[1..]);
    }
  }

  // ---- The connection object: every atomic section is a step of the machine above ----

  class Conn {
    var buf: seq<Bytes>
    var signal: bool
    var cancelled: bool
    // Bookkeeping of the machine that the object does not store.
    ghost var unsignalled: nat
    ghost var readers: seq<Phase>
    ghost var pushed: seq<Bytes>
    ghost var returned: seq<Bytes>

    ghost function Abs(): (s: State)
      reads this
    {
      State(buf, signal, unsignalled, cancelled, readers, pushed, returned)
    }

    constructor (ghost n: nat)
      ensures Abs() == Fresh(n)
    {
      buf, signal, cancelled := [], false, false;
      unsignalled, readers, pushed, returned := 0, seq(n, _ => Idle), [], [];
    }

    /** pushData under bufMu. */
    method Append(data: Bytes)
      modifies this
      ensures Abs() == Next(old(Abs()), Event.Append(data))
    {
      buf := buf + [data];
      unsignalled, pushed := unsignalled + 1, pushed + [data];
    }

    /** pushData's select: a full channel drops the signal. */
    method Signal()
      requires unsignalled > 0
      modifies this
      ensures Abs() == Next(old(Abs()), Event.Signal)
    {
      if !signal {
        signal := true;
      }
      unsignalled := unsignalled - 1;
    }

    method Cancel()
      modifies this
      ensures Abs() == Next(old(Abs()), Event.Cancel)
    {
      cancelled := true;
    }

    /** ReadBytes under bufMu, and the deadline test when the buffer is empty. */
    method Check(ghost reader: nat, expired: bool) returns (r: Option<Bytes>)
      requires At(Abs(), reader, Checking)
      modifies this
      ensures Abs() == Next(old(Abs()), Event.Check(reader, expired))
      ensures r == if old(buf) == [] then None else Some(old(buf)[0])
    {
      if |buf| > 0 {
        r := Some(buf[0]);
        buf := buf[1..];
        returned := returned + [r.value];
        readers := readers[reader := Idle];
      } else {
        r := None;
        readers := readers[reader := if expired then Idle else Parked];
      }
    }

    /** One turn of ReadBytes' select, `choice` resolving which ready case is taken. */
    method Select(ghost reader: nat, choice: Event) returns (r: bool)
      requires choice.Wake? || choice.Expire? || choice.EndOfFile?
      requires choice.reader == reader && Enabled(Abs(), choice)
      modifies this
      ensures Abs() == Next(old(Abs()), choice)
      ensures r <==> choice.Wake?
    {
      if choice.Wake? {
        signal := false;
        readers := readers[reader := Checking];
        return true;
      }
      readers := readers[reader := Idle];
      return false;
    }

    /** pushData with nobody else between its two halves. */
    method PushData(data: Bytes)
      modifies this
      ensures ValidRun(old(Abs()), [Event.Append(data), Event.Signal])
      ensures Abs() == Run(old(Abs()), [Event.Append(data), Event.Signal])
      ensures buf == old(buf) + [data] && signal
    {
      ghost var s := Abs();
      Append(data);
      Signal();
      TwoSteps(s, Event.Append(data), Event.Signal);
    }

    /**
     ReadBytes with nobody else moving: the oldest datum if there is one; otherwise a
     signal left behind by an earlier read costs one more look, and the call ends with
     the deadline or the closed connection.
     */
    method ReadBytes(reader: nat, expired: bool) returns (r: Option<Bytes>)
      requires At(Abs(), reader, Idle)
      modifies this
      ensures r == if old(buf) == [] then None else Some(old(buf)[0])
      ensures buf == (if old(buf) == [] then [] else old(buf)[1..]) && pushed == old(pushed)
      ensures Conserved(old(Abs())) ==> Conserved(Abs())
      ensures old(buf) != [] ==> signal == old(signal)
      ensures readers == old(readers)
    {
      readers := readers[reader := Checking];
      while true
        invariant At(Abs(), reader, Checking) && buf == old(buf) && returned == old(returned) && pushed == old(pushed)
        invariant readers == old(readers)[reader := Checking]
        invariant buf != [] ==> signal == old(signal)
        decreases if signal then 1 else 0
      {
        r := Check(reader, expired);
        if r.Some? {
          assert old(buf) == [old(buf)[0]] + old(buf)[1..];
          assert readers == old(readers);
          return;
        }
        if expired {
          assert readers == old(readers);
          return;
        }
        var choice := if signal then Wake(reader) else Expire(reader);
        var woken := Select(reader, choice);
        if !woken {
          assert readers == old(readers);
          return None;
        }
      }
    }
  }
}
