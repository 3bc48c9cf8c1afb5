/**
 The packed token list kept in a session's metadata: a 4-byte count and 32-byte
 elements, with the two operations resumption uses on it.
 */
module TokenList {
  import opened Encoding
  import opened Wrappers

  const ELEM_SIZE := 32
  const UINT32 := 0x1_0000_0000

  // ---- Packing ----

  /** Where element `i` starts: after the 4-byte count and `i` elements of ELEM_SIZE bytes. */
  function Offset(i: nat): (r: nat)
  {
    4 + 32 * i
  }

  function Min(a: nat, b: nat): (r: nat)
  {
    if a < b then a else b
  }

  /** Go's copy(buf[off:], item): as much as fits. */
  function Copied(buf: Bytes, off: nat, item: Bytes): (r: Bytes)
    requires off <= |buf|
    ensures |r| == |buf|
  {
    var m := Min(|item|, |buf| - off);
    buf[..off] + item[..m] + buf[off + m..]
  }

  function Zeros(n: nat): (r: Bytes)
    ensures |r| == n
  {
    seq<Byte>(n, j => 0)
  }

  /** The buffer after the first `i` elements were copied in. */
  function Filled(list: seq<Bytes>, i: nat): (r: Bytes)
    requires i <= |list|
    ensures |r| == Offset(|list|)
  {
    if i == 0 then Copied(Zeros(Offset(|list|)), 0, BigEndian(|list|, 4))
    else Copied(Filled(list, i - 1), Offset(i - 1), list[i - 1])
  }

  function Serialize(list: seq<Bytes>): (r: Bytes)
  {
    Filled(list, |list|)
  }

  method CopyInto(buf: array<Byte>, off: nat, item: Bytes)
    requires off <= buf.Length
    modifies buf
    ensures buf[..] == Copied(old(buf[..]), off, item)
  {
    var m := Min(|item|, buf.Length - off);
    forall j | 0 <= j < m { buf[off + j] := item[j]; }
    assert buf[..off] == old(buf[..off]);
    assert buf[off..off + m] == item[..m];
    assert buf[off + m..] == old(buf[off + m..]);
    assert buf[..] == buf[..off] + buf[off..off + m] + buf[off + m..];
  }

  method SerializeList(list: seq<Bytes>) returns (data: Bytes)
    ensures data == Serialize(list)
  {
    var buf := new Byte[Offset(|list|)](j => 0);
    assert buf[..] == Zeros(Offset(|list|));
    CopyInto(buf, 0, BigEndian(|list|, 4));
    var i := 0;
    while i < |list|
      invariant 0 <= i <= |list|
      invariant buf[..] == Filled(list, i)
    {
      CopyInto(buf, Offset(i), list[i]);
      i := i + 1;
    }
    return buf[..];
  }

  datatype Error = NotFound

  function Elem(data: Bytes, i: nat): (r: Bytes)
    requires Offset(i + 1) <= |data|
  {
    data[Offset(i)..Offset(i + 1)]
  }

  function Deserialize(data: Bytes): (r: Result<seq<Bytes>, Error>)
  {
    if |data| < 4 then Ok([])
    else
      var count := FromBigEndian(data[..4]);
      if Offset(count) != |data| then Err(NotFound)
      else Ok(seq(count, i requires 0 <= i < count => Elem(data, i)))
  }

  method DeserializeList(data: Bytes) returns (r: Result<seq<Bytes>, Error>)
    ensures r == Deserialize(data)
  {
    if |data| < 4 {
      return Ok([]);
    }
    var count := FromBigEndian(data[..4]);
    if Offset(count) != |data| {
      return Err(NotFound);
    }
    var list: seq<Bytes> := [];
    while |list| < count
      invariant |list| <= count
      invariant forall j :: 0 <= j < |list| ==> list[j] == Elem(data, j)
    {
      var off := Offset(|list|);
      list := list + [data[off..off + ELEM_SIZE]];
    }
    assert list == seq(count, i requires 0 <= i < count => Elem(data, i));
    return Ok(list);
  }

  /** Copying elements of full size leaves the count and the earlier elements in place. */
  lemma {:induction false} FilledElements(list: seq<Bytes>, i: nat)
    requires i <= |list|
    requires forall j :: 0 <= j < |list| ==> |list[j]| == ELEM_SIZE
    ensures Filled(list, i)[..4] == BigEndian(|list|, 4)
    ensures forall j :: 0 <= j < i ==> Elem(Filled(list, i), j) == list[j]
  {
    if i > 0 {
      FilledElements(list, i - 1);
      var b, off := Filled(list, i - 1), Offset(i - 1);
      var r := Copied(b, off, list[i - 1]);
      assert r == b[..off] + list[i - 1] + b[off + ELEM_SIZE..];
      assert r[..off] == b[..off];
      assert r[..4] == r[..off][..4] == b[..off][..4] == b[..4];
      forall j | 0 <= j < i
        ensures Elem(r, j) == list[j]
      {
        if j < i - 1 {
          assert Offset(j + 1) <= off;
          assert Elem(r, j) == r[..off][Offset(j)..Offset(j + 1)] == Elem(b, j);
        }
      }
    }
  }

  predicate Packable(list: seq<Bytes>)
  {
    |list| < UINT32 && forall j :: 0 <= j < |list| ==> |list[j]| == ELEM_SIZE
  }

  lemma PackThenUnpack(list: seq<Bytes>)
    requires Packable(list)
    ensures Deserialize(Serialize(list)) == Ok(list)
  {
    Pow256Values();
    FilledElements(list, |list|);
    BigEndianDecodes(|list|, 4);
    var data := Serialize(list);
    assert FromBigEndian(data[..4]) == |list|;
    assert seq(|list|, i requires 0 <= i < |list| => Elem(data, i)) == list;
  }

  /** Only packable lists ever come out of unpacking. */
  lemma UnpackedIsPackable(data: Bytes)
    requires Deserialize(data).Ok?
    ensures Packable(Deserialize(data).value)
  {
    Pow256Values();
    if |data| >= 4 {
      FromBigEndianBound(data[..4]);
    }
  }

  /** Packing what was unpacked gives the bytes back, unless they were too short to hold a count. */
  lemma UnpackThenPack(data: Bytes)
    requires Deserialize(data).Ok?
    ensures |data| >= 4 ==> Serialize(Deserialize(data).value) == data
    ensures |data| < 4 ==> Deserialize(data) == Ok([])
  {
    if |data| >= 4 {
      var list := Deserialize(data).value;
      var packed := Serialize(list);
      UnpackedIsPackable(data);
      FilledElements(list, |list|);
      BigEndianOf(data[..4]);
      assert |packed| == |data| && packed[..4] == data[..4];
      forall j | 0 <= j < |data|
        ensures packed[j] == data[j]
      {
        if j < 4 {
          assert packed[j] == packed[..4][j] && data[j] == data[..4][j];
        } else {
          var i, o := (j - 4) / 32, (j - 4) % 32;
          assert Elem(packed, i) == list[i] == Elem(data, i);
          assert packed[j] == Elem(packed, i)[o] && data[j] == Elem(data, i)[o];
        }
      }
    }
  }

  /** Unpacking undoes packing exactly for lists of 32-byte elements shorter than 2^32. */
  lemma RoundTrip(list: seq<Bytes>)
    ensures Deserialize(Serialize(list)) == Ok(list) <==> Packable(list)
  {
    if Packable(list) {
      PackThenUnpack(list);
    }
    if Deserialize(Serialize(list)) == Ok(list) {
      UnpackedIsPackable(Serialize(list));
    }
  }

  // ---- Removal ----

  /** Remove the first occurrence by moving the last element into its place. */
  function SwapRemove<T(==)>(list: seq<T>, x: T, i: nat := 0): (r: Option<seq<T>>)
    requires i <= |list|
    decreases |list| - i
  {
    if i == |list| then None
    else if list[i] == x then Some(list[i := list[|list| - 1]][..|list| - 1])
    else SwapRemove(list, x, i + 1)
  }

  lemma Exchanged<T>(a: seq<T>, x: T, b: seq<T>, last: T)
    ensures multiset(a + [last] + b) == multiset(a + [x] + b + [last]) - multiset{x}
  {
  }

  lemma SwapLast<T>(list: seq<T>, i: nat)
    requires i < |list|
    ensures multiset(list[i := list[|list| - 1]][..|list| - 1]) == multiset(list) - multiset{list[i]}
  {
    var n := |list| - 1;
    var last := list[n];
    var r := list[i := last][..n];
    if i == n {
      assert r == list[..n];
      assert list == list[..n] + [last];
    } else {
      var a, b := list[..i], list[i + 1..n];
      assert r == a + [last] + b;
      assert list == a + [list[i]] + b + [last];
      Exchanged(a, list[i], b, last);
    }
  }

  /** Exactly one occurrence goes, as a multiset; None exactly when there is none. */
  lemma {:induction false} SwapRemoveOne<T>(list: seq<T>, x: T, i: nat)
    requires i <= |list| && x !in list[..i]
    ensures SwapRemove(list, x, i).None? <==> x !in list
    ensures SwapRemove(list, x, i).Some? ==>
              multiset(SwapRemove(list, x, i).value) == multiset(list) - multiset{x}
    decreases |list| - i
  {
    if i == |list| {
      assert list[..i] == list;
    } else if list[i] == x {
      SwapLast(list, i);
    } else {
      assert list[..i + 1] == list[..i] + [list[i]];
      SwapRemoveOne(list, x, i + 1);
    }
  }

  lemma {:induction false} SwapRemovePackable(list: seq<Bytes>, x: Bytes, i: nat)
    requires i <= |list| && Packable(list)
    ensures SwapRemove(list, x, i).Some? ==> Packable(SwapRemove(list, x, i).value)
    decreases |list| - i
  {
    if i < |list| && list[i] != x {
      SwapRemovePackable(list, x, i + 1);
    }
  }

  /** The scan of RemoveListItem: the first equal element takes the last one's place. */
  method RemoveFirst<T(==)>(list: seq<T>, entry: T) returns (r: Option<seq<T>>)
    ensures r == SwapRemove(list, entry)
  {
    var i := 0;
    while i < |list|
      invariant 0 <= i <= |list|
      invariant SwapRemove(list, entry) == SwapRemove(list, entry, i)
    {
      if list[i] == entry {
        return Some(list[i := list[|list| - 1]][..|list| - 1]);
      }
      i := i + 1;
    }
    return None;
  }

  // ---- The stored list ----

  /** One key of a session's meta namespace. Without a session record nothing can be stored. */
  class StoredList {
    const recorded: bool
    var data: Option<Bytes>

    constructor (recorded: bool)
      ensures this.recorded == recorded && data == None
    {
      this.recorded := recorded;
      data := None;
    }

    /** What a reader finds: None when missing or malformed. */
    ghost function Contents(): (r: Option<seq<Bytes>>)
      reads this
    {
      if data.None? then None
      else match Deserialize(data.value) case Ok(l) => Some(l) case Err(_) => None
    }

    /** SetMeta of NewByteSlicesMeta: reaches the record with Sub, so it needs one. */
    method SetList(list: seq<Bytes>) returns (ok: bool)
      modifies this
      ensures ok <==> recorded
      ensures !ok ==> data == old(data)
      ensures ok && Packable(list) ==> Contents() == Some(list)
    {
      if !recorded {
        return false;
      }
      var packed := SerializeList(list);
      RoundTrip(list);
      data := Some(packed);
      return true;
    }

    method PopList() returns (r: Result<Bytes, Error>)
      modifies this
      ensures r.Ok? <==> old(Contents()).Some? && old(Contents()).value != []
      ensures r.Ok? ==> r.value == old(Contents()).value[0] && Contents() == Some(old(Contents()).value[1..])
      ensures r.Err? ==> data == old(data)
    {
      if data.None? {
        return Err(NotFound);
      }
      var unpacked := DeserializeList(data.value);
      if unpacked.Err? || unpacked.value == [] {
        return Err(NotFound);
      }
      var list := unpacked.value;
      UnpackedIsPackable(data.value);
      var packed := SerializeList(list[1..]);
      RoundTrip(list[1..]);
      data := Some(packed);
      return Ok(list[0]);
    }

    method RemoveListItem(entry: Bytes) returns (r: Result<(), Error>)
      modifies this
      ensures r.Ok? <==> old(Contents()).Some? && entry in old(Contents()).value
      ensures r.Ok? ==> Contents() == SwapRemove(old(Contents()).value, entry)
      ensures r.Ok? ==>
                && Contents().Some?
                && multiset(Contents().value) == multiset(old(Contents()).value) - multiset{entry}
      ensures r.Err? ==> data == old(data)
    {
      if data.None? {
        return Err(NotFound);
      }
      var unpacked := DeserializeList(data.value);
      if unpacked.Err? {
        return Err(NotFound);
      }
      var list := unpacked.value;
      UnpackedIsPackable(data.value);
      SwapRemoveOne(list, entry, 0);
      SwapRemovePackable(list, entry, 0);
      var rest := RemoveFirst(list, entry);
      if rest.Some? {
        var packed := SerializeList(rest.value);
        RoundTrip(rest.value);
        data := Some(packed);
        return Ok(());
      }
      return Err(NotFound);
    }
  }
}
