/**
 Length-prefixed frames over a byte stream whose Write may accept any number of
 bytes at a time and may fail at any point. Deadlines are not modelled.
 */
module Framing {
  import opened Encoding
  import opened Wrappers

  const MAX_FRAME := 65535

  // ---- Frames and streams as values ----

  function Frame(data: Bytes): (r: Bytes)
  {
    BigEndian(|data|, 2) + data
  }

  function Frames(fs: seq<Bytes>): (r: Bytes)
  {
    if fs == [] then [] else Frame(fs[0]) + Frames(fs[1..])
  }

  /** ReadBytes: two bytes of length, then the payload; None when the stream ends first. */
  function ReadFrame(s: Bytes): (r: Option<(Bytes, Bytes)>)
    ensures r.Some? ==> |r.value.1| < |s|
  {
    if |s| < 2 then None
    else
      var l := FromBigEndian(s[..2]);
      if |s| < 2 + l then None else Some((s[2..2 + l], s[2 + l..]))
  }

  /** Every frame a reader gets out of the stream, and the bytes left over. */
  function ReadAll(s: Bytes): (r: (seq<Bytes>, Bytes))
    decreases |s|
  {
    match ReadFrame(s)
    case None => ([], s)
    case Some((f, rest)) => var (fs, left) := ReadAll(rest); ([f] + fs, left)
  }

  lemma ReadFramed(data: Bytes, rest: Bytes)
    requires |data| <= MAX_FRAME
    ensures ReadFrame(Frame(data) + rest) == Some((data, rest))
  {
    assert Pow256(2) == 65536;
    BigEndianDecodes(|data|, 2);
    var s := Frame(data) + rest;
    assert s[..2] == BigEndian(|data|, 2);
    assert s[2..2 + |data|] == data;
    assert s[2 + |data|..] == rest;
  }

  /** A frame cut short yields nothing. */
  lemma CutFrame(data: Bytes, p: Bytes)
    requires |data| <= MAX_FRAME && p < Frame(data)
    ensures ReadFrame(p).None?
  {
    if |p| >= 2 {
      assert Pow256(2) == 65536;
      BigEndianDecodes(|data|, 2);
      assert p[..2] == Frame(data)[..2] == BigEndian(|data|, 2);
    }
  }

  /**
   Whatever was written whole is read back in order; a frame cut off by a failed
   write is never read as anything.
   */
  lemma {:induction false} StreamReadsBack(fs: seq<Bytes>, last: Bytes, p: Bytes)
    requires forall i :: 0 <= i < |fs| ==> |fs[i]| <= MAX_FRAME
    requires |last| <= MAX_FRAME && p <= Frame(last)
    ensures ReadAll(Frames(fs) + p) == if p == Frame(last) then (fs + [last], []) else (fs, p)
  {
    if fs == [] {
      assert Frames(fs) + p == p;
      if p == Frame(last) {
        assert p == Frame(last) + [];
        ReadFramed(last, []);
        assert ReadAll([]) == ([], []);
        assert [last] + [] == fs + [last];
      } else {
        CutFrame(last, p);
      }
    } else {
      var rest := Frames(fs[1..]) + p;
      assert Frames(fs) + p == Frame(fs[0]) + rest;
      ReadFramed(fs[0], rest);
      StreamReadsBack(fs[1..], last, p);
      assert [fs[0]] + fs[1..] == fs;
      assert [fs[0]] + (fs[1..] + [last]) == fs + [last];
    }
  }

  lemma {:induction false} FramesSnoc(fs: seq<Bytes>, f: Bytes)
    ensures Frames(fs + [f]) == Frames(fs) + Frame(f)
  {
    if fs == [] {
      assert fs + [f] == [f] && [f][1..] == [];
      assert Frames([f]) == Frame(f) + Frames([]);
    } else {
      assert (fs + [f])[1..] == fs[1..] + [f];
      FramesSnoc(fs[1..], f);
    }
  }

  // ---- Writing ----

  datatype WriteError = Closed | TooLarge | Broken

  /**
   What happens in one call of the underlying Write: it accepts up to `n` bytes and
   perhaps reports an error, and a concurrent Close, which does not wait for the
   writer, may have taken effect when it returns.
   */
  datatype Behaviour = Behaviour(n: nat, fails: bool, closes: bool)

  class FrameConn {
    var closed: bool
    var wire: Bytes
    var script: seq<Behaviour>

    constructor (script: seq<Behaviour>)
      ensures !closed && wire == [] && this.script == script
    {
      closed, wire, this.script := false, [], script;
    }

    /** net.Conn.Write. An exhausted script is a broken connection. */
    method RawWrite(data: Bytes) returns (n: nat, ok: bool)
      modifies this
      ensures n <= |data| && wire == old(wire) + data[..n]
      ensures old(closed) ==> closed
      ensures script == if old(script) == [] then [] else old(script)[1..]
      ensures old(script) == [] ==> !ok
    {
      if script == [] {
        n, ok := 0, false;
        assert wire + data[..0] == wire;
        return;
      }
      n := if script[0].n < |data| then script[0].n else |data|;
      ok := !script[0].fails;
      closed := closed || script[0].closes;
      script := script[1..];
      wire := wire + data[..n];
    }

    /** The retry loops of writeLenLocked and WriteBytes. */
    method WriteFull(data: Bytes) returns (ok: bool)
      modifies this
      ensures old(closed) ==> closed
      ensures ok ==> wire == old(wire) + data
      ensures old(wire) <= wire <= old(wire) + data
    {
      var written := 0;
      assert wire + data[..0] == wire;
      while written < |data|
        invariant 0 <= written <= |data|
        invariant wire == old(wire) + data[..written]
        invariant old(closed) ==> closed
      {
        var n, good := RawWrite(data[written..]);
        assert data[..written] + data[written..][..n] == data[..written + n];
        if !good || n == 0 {
          PrefixOf(old(wire), data, written + n);
          return false;
        }
        written := written + n;
      }
      assert data[..written] == data;
      return true;
    }

    /**
     WriteBytes: on a closed connection, or with too much data, it puts no byte on the
     wire. The connection is looked at again between length prefix and payload, so a
     Close in between leaves exactly the prefix.
     */
    method WriteBytes(data: Bytes) returns (r: Result<(), WriteError>)
      modifies this
      ensures old(closed) ==> r == Err(Closed) && closed && wire == old(wire)
      ensures r == Err(TooLarge) <==> !old(closed) && |data| > MAX_FRAME
      ensures r == Err(TooLarge) ==> wire == old(wire)
      ensures r == Err(Closed) && !old(closed) ==> closed && wire == old(wire) + BigEndian(|data|, 2)
      ensures r.Ok? ==> wire == old(wire) + Frame(data)
      ensures r.Err? ==> old(wire) <= wire <= old(wire) + Frame(data)
    {
      if closed {
        return Err(Closed);
      }
      if |data| > MAX_FRAME {
        return Err(TooLarge);
      }
      var prefix := BigEndian(|data|, 2);
      ghost var w0 := wire;
      assert w0 + Frame(data) == (w0 + prefix) + data;
      var ok := WriteFull(prefix);
      if !ok {
        assert wire <= w0 + prefix <= (w0 + prefix) + data;
        return Err(Broken);
      }
      if closed {
        return Err(Closed);
      }
      ok := WriteFull(data);
      if !ok {
        return Err(Broken);
      }
      return Ok(());
    }

    /**
     Any number of frames, written until the first failure. Under every pattern of
     short writes and whenever the connection is closed the reader gets back exactly
     the frames that succeeded, plus at most the one that was whole on the wire when
     its writer got an error.
     */
    method SendAll(fs: seq<Bytes>) returns (k: nat, broken: bool)
      requires forall i :: 0 <= i < |fs| ==> |fs[i]| <= MAX_FRAME
      modifies this
      ensures k <= |fs| && (!broken ==> k == |fs|) && (broken ==> k < |fs|)
      ensures old(wire) <= wire
      ensures var got := ReadAll(wire[|old(wire)|..]).0;
              got == fs[..k] || (broken && got == fs[..k + 1])
    {
      k := 0;
      ghost var w0 := wire;
      assert fs[..0] == [] && w0 + Frames([]) == w0;
      while k < |fs|
        invariant 0 <= k <= |fs|
        invariant wire == w0 + Frames(fs[..k])
      {
        var r := WriteBytes(fs[k]);
        assert fs[..k + 1] == fs[..k] + [fs[k]];
        FramesSnoc(fs[..k], fs[k]);
        assert (w0 + Frames(fs[..k])) + Frame(fs[k]) == w0 + Frames(fs[..k + 1]);
        if r.Err? {
          CutStream(w0, fs, k, wire);
          return k, true;
        }
        k := k + 1;
      }
      broken := false;
      assert fs[..k] == fs;
      assert wire[|w0|..] == Frames(fs) + [];
      StreamReadsBack(fs, [], []);
    }
  }

  /** After `k` whole frames and part of the next one. */
  lemma CutStream(w0: Bytes, fs: seq<Bytes>, k: nat, w: Bytes)
    requires k < |fs| && forall i :: 0 <= i < |fs| ==> |fs[i]| <= MAX_FRAME
    requires w0 + Frames(fs[..k]) <= w <= (w0 + Frames(fs[..k])) + Frame(fs[k])
    ensures w0 <= w
    ensures var got := ReadAll(w[|w0|..]).0; got == fs[..k] || got == fs[..k + 1]
  {
    var base := w0 + Frames(fs[..k]);
    var p := w[|base|..];
    assert w == base + p;
    assert w[|w0|..] == Frames(fs[..k]) + p;
    assert p == (base + Frame(fs[k]))[|base|..|w|] == Frame(fs[k])[..|p|];
    StreamReadsBack(fs[..k], fs[k], p);
    assert fs[..k + 1] == fs[..k] + [fs[k]];
  }

  lemma PrefixOf(w: Bytes, data: Bytes, n: nat)
    requires n <= |data|
    ensures w <= w + data[..n] <= w + data
  {
    assert w + data == (w + data[..n]) + data[n..];
  }
}
