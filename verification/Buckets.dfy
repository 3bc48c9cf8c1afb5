/**
 The bbolt tree: nested buckets whose keys hold either a value or a sub-bucket.
 The same tree type serves as the plaintext view, a plain nested map.

 A tree is characterised by two observations: which paths are buckets
 (`IsBucket`) and which value each (path, key) holds (`ValueAt`). Every
 operation is described through them, and `TreeExtensionality` turns equal
 observations back into equal trees.
 */
module Buckets {
  import opened Crypto
  import opened Paths
  import opened Wrappers

  datatype Bucket = Bucket(vals: map<Name, Term>, subs: map<Name, Bucket>)

  datatype Error = MissingNamespace | MissingItem | Incompatible | DecryptFailed

  const EMPTY: Bucket := Bucket(map[], map[])

  type Path = seq<Name>

  // ---- Observations ----

  function Find(b: Bucket, p: Path): (r: Option<Bucket>)
  {
    if p == [] then Some(b)
    else if p[0] in b.subs then Find(b.subs[p[0]], p[1..])
    else None
  }

  predicate IsBucket(b: Bucket, p: Path)
  {
    Find(b, p).Some?
  }

  function ValueAt(b: Bucket, p: Path, k: Name): (r: Option<Term>)
  {
    match Find(b, p)
    case None => None
    case Some(c) => if k in c.vals then Some(c.vals[k]) else None
  }

  /** No key is empty and no key is both a value and a sub-bucket, at any depth. */
  ghost predicate WellFormed(b: Bucket)
  {
    && (forall p, k :: ValueAt(b, p, k).Some? ==> k != "" && !IsBucket(b, p + [k]))
    && b.vals == map[]
  }

  lemma {:induction false} FindAppend(b: Bucket, p: Path, q: Path)
    ensures Find(b, p + q) == match Find(b, p) case None => None case Some(c) => Find(c, q)
  {
    if p == [] {
      assert p + q == q;
    } else {
      assert (p + q)[1..] == p[1..] + q;
      if p[0] in b.subs {
        FindAppend(b.subs[p[0]], p[1..], q);
      }
    }
  }

  ghost predicate SameObservations(b: Bucket, c: Bucket)
  {
    && (forall p :: IsBucket(b, p) <==> IsBucket(c, p))
    && (forall p, k :: ValueAt(b, p, k) == ValueAt(c, p, k))
  }

  lemma {:induction false} TreeExtensionality(b: Bucket, c: Bucket)
    requires SameObservations(b, c)
    ensures b == c
    decreases b
  {
    forall k
      ensures k in b.vals <==> k in c.vals
      ensures k in b.vals ==> b.vals[k] == c.vals[k]
    {
      assert ValueAt(b, [], k) == ValueAt(c, [], k);
    }
    assert b.vals == c.vals;
    forall n
      ensures n in b.subs <==> n in c.subs
    {
      assert IsBucket(b, [n]) <==> IsBucket(c, [n]);
      assert Find(b, [n]) == if n in b.subs then Find(b.subs[n], [n][1..]) else None;
      assert Find(c, [n]) == if n in c.subs then Find(c.subs[n], [n][1..]) else None;
    }
    forall n | n in b.subs
      ensures b.subs[n] == c.subs[n]
    {
      SubObservations(b, c, n);
      TreeExtensionality(b.subs[n], c.subs[n]);
    }
    assert b.subs == c.subs;
  }

  lemma SubObservations(b: Bucket, c: Bucket, n: Name)
    requires SameObservations(b, c) && n in b.subs && n in c.subs
    ensures SameObservations(b.subs[n], c.subs[n])
  {
    forall p
      ensures IsBucket(b.subs[n], p) <==> IsBucket(c.subs[n], p)
    {
      var np := [n] + p;
      assert np[0] == n && np[1..] == p;
      assert IsBucket(b, np) <==> IsBucket(c, np);
    }
    forall p, k
      ensures ValueAt(b.subs[n], p, k) == ValueAt(c.subs[n], p, k)
    {
      var np := [n] + p;
      assert np[0] == n && np[1..] == p;
      assert ValueAt(b, np, k) == ValueAt(c, np, k);
    }
  }

  // ---- Updates ----

  /** The tree with the bucket at `p` exchanged for `nb`. */
  function Replace(b: Bucket, p: Path, nb: Bucket): (r: Bucket)
    requires IsBucket(b, p)
  {
    if p == [] then nb
    else b.(subs := b.subs[p[0] := Replace(b.subs[p[0]], p[1..], nb)])
  }

  /** What `Find` sees after a replacement: the new bucket below `p`, the old tree elsewhere. */
  lemma {:induction false} FindReplace(b: Bucket, p: Path, nb: Bucket, q: Path)
    requires IsBucket(b, p)
    ensures p <= q ==> Find(Replace(b, p, nb), q) == Find(nb, q[|p|..])
    ensures !(p <= q) && !(q <= p) ==> Find(Replace(b, p, nb), q) == Find(b, q)
    ensures q < p ==> IsBucket(b, q) && IsBucket(Replace(b, p, nb), q)
    ensures q < p ==> Find(Replace(b, p, nb), q).value.vals == Find(b, q).value.vals
  {
    if p == [] {
      assert q[0..] == q;
    } else if q == [] {
    } else if q[0] == p[0] {
      FindReplace(b.subs[p[0]], p[1..], nb, q[1..]);
      assert p <= q <==> p[1..] <= q[1..] by { HeadTailPrefix(p, q); }
      assert q <= p <==> q[1..] <= p[1..] by { HeadTailPrefix(q, p); }
      if p <= q {
        assert q[1..][|p[1..]|..] == q[|p|..];
      }
    }
  }

  lemma HeadTailPrefix(p: Path, q: Path)
    requires p != [] && q != [] && p[0] == q[0]
    ensures p <= q <==> p[1..] <= q[1..]
  {
    assert p == [p[0]] + p[1..] && q == [q[0]] + q[1..];
    if p[1..] <= q[1..] {
      assert q[..|p|] == [q[0]] + q[1..][..|p| - 1];
    }
  }

  /**
   Bucket.Put below a navigated path: ErrMissingNamespace without a bucket (the
   transaction root holds no values), ErrIncompatibleValue / ErrKeyRequired when
   the key names a sub-bucket or is empty.
   */
  function PutAt(b: Bucket, p: Path, k: Name, v: Term): (r: Result<Bucket, Error>)
  {
    if p == [] || !IsBucket(b, p) then Err(MissingNamespace)
    else
      var c := Find(b, p).value;
      if k == "" || k in c.subs then Err(Incompatible)
      else Ok(Replace(b, p, c.(vals := c.vals[k := v])))
  }

  /** Bucket.Delete: a missing key is no error, a sub-bucket is. */
  function DeleteAt(b: Bucket, p: Path, k: Name): (r: Result<Bucket, Error>)
  {
    if p == [] || !IsBucket(b, p) then Err(MissingNamespace)
    else
      var c := Find(b, p).value;
      if k in c.subs then Err(Incompatible)
      else Ok(Replace(b, p, c.(vals := c.vals - {k})))
  }

  /** Bucket.DeleteBucket of child `n`, with everything below it. */
  function DeleteBucketAt(b: Bucket, p: Path, n: Name): (r: Result<Bucket, Error>)
  {
    if n == "" || p == [] || !IsBucket(b, p) then Err(MissingNamespace)
    else
      var c := Find(b, p).value;
      if n in c.subs then Ok(Replace(b, p, c.(subs := c.subs - {n})))
      else if n in c.vals then Err(Incompatible)
      else Err(MissingNamespace)
  }

  /** One `Ensure`: CreateBucketIfNotExists of child `n` of the bucket at `p`. */
  function EnsureAt(b: Bucket, p: Path, n: Name): (r: Result<Bucket, Error>)
  {
    if !IsBucket(b, p) then Err(MissingNamespace)
    else
      var c := Find(b, p).value;
      if n in c.subs then Ok(b)
      else if n == "" || n in c.vals then Err(MissingNamespace)
      else Ok(Replace(b, p, c.(subs := c.subs[n := EMPTY])))
  }

  lemma SubIsBucket(t: Bucket, p: Path, k: Name)
    requires IsBucket(t, p)
    ensures k in Find(t, p).value.subs <==> IsBucket(t, p + [k])
  {
    var c := Find(t, p).value;
    FindAppend(t, p, [k]);
    assert Find(c, [k]) == if k in c.subs then Find(c.subs[k], [k][1..]) else None;
  }

  /** A put succeeds exactly in an existing bucket below the root, under a non-empty key that names no sub-bucket. */
  lemma PutOutcome(b: Bucket, p: Path, k: Name, v: Term)
    ensures PutAt(b, p, k, v).Ok? <==> p != [] && IsBucket(b, p) && k != "" && !IsBucket(b, p + [k])
    ensures PutAt(b, p, k, v).Err? ==>
              (PutAt(b, p, k, v).error == MissingNamespace <==> p == [] || !IsBucket(b, p)) &&
              (PutAt(b, p, k, v).error == Incompatible <==> p != [] && IsBucket(b, p))
  {
    if IsBucket(b, p) {
      SubIsBucket(b, p, k);
    }
  }

  /** A delete succeeds exactly in an existing bucket below the root, whether or not the key is there. */
  lemma DeleteOutcome(b: Bucket, p: Path, k: Name)
    ensures DeleteAt(b, p, k).Ok? <==> p != [] && IsBucket(b, p) && !IsBucket(b, p + [k])
    ensures DeleteAt(b, p, k).Err? ==>
              (DeleteAt(b, p, k).error == MissingNamespace <==> p == [] || !IsBucket(b, p)) &&
              (DeleteAt(b, p, k).error == Incompatible <==> p != [] && IsBucket(b, p))
  {
    if IsBucket(b, p) {
      SubIsBucket(b, p, k);
    }
  }

  lemma ParentIsBucket(b: Bucket, p: Path, n: Name)
    requires IsBucket(b, p + [n])
    ensures IsBucket(b, p)
  {
    FindAppend(b, p, [n]);
  }

  /** A namespace is deleted exactly if it exists below the root, whatever it holds. */
  lemma DeleteBucketOutcome(b: Bucket, p: Path, n: Name)
    ensures DeleteBucketAt(b, p, n).Ok? <==> n != "" && p != [] && IsBucket(b, p + [n])
    ensures DeleteBucketAt(b, p, n).Err? ==>
              (DeleteBucketAt(b, p, n).error == Incompatible <==> n != "" && p != [] && ValueAt(b, p, n).Some?) &&
              (DeleteBucketAt(b, p, n).error == MissingNamespace <==> n == "" || p == [] || ValueAt(b, p, n).None?)
  {
    if IsBucket(b, p + [n]) {
      ParentIsBucket(b, p, n);
    }
    if IsBucket(b, p) {
      SubIsBucket(b, p, n);
    }
  }

  /** A namespace can be ensured exactly if it exists, or its parent does and no value has its name. */
  lemma EnsureOutcome(b: Bucket, p: Path, n: Name)
    ensures EnsureAt(b, p, n).Ok? <==>
            IsBucket(b, p + [n]) || (IsBucket(b, p) && n != "" && ValueAt(b, p, n).None?)
    ensures EnsureAt(b, p, n).Err? ==> EnsureAt(b, p, n).error == MissingNamespace
  {
    if IsBucket(b, p + [n]) {
      ParentIsBucket(b, p, n);
    }
    if IsBucket(b, p) {
      SubIsBucket(b, p, n);
    }
  }

  /** Putting changes the one (path, key) it names and no bucket. */
  lemma PutObserved(b: Bucket, p: Path, k: Name, v: Term)
    requires PutAt(b, p, k, v).Ok?
    ensures forall q :: IsBucket(PutAt(b, p, k, v).value, q) <==> IsBucket(b, q)
    ensures forall q, k' ::
              ValueAt(PutAt(b, p, k, v).value, q, k') ==
              if q == p && k' == k then Some(v) else ValueAt(b, q, k')
  {
    var c := Find(b, p).value;
    var nc := c.(vals := c.vals[k := v]);
    var r := PutAt(b, p, k, v).value;
    forall q
      ensures IsBucket(r, q) <==> IsBucket(b, q)
    {
      SubsKept(b, p, nc, q);
    }
    forall q, k'
      ensures ValueAt(r, q, k') == if q == p && k' == k then Some(v) else ValueAt(b, q, k')
    {
      SubsKept(b, p, nc, q);
    }
  }

  /** Exchanging a bucket for one with the same sub-buckets moves no bucket and no other value. */
  lemma SubsKept(b: Bucket, p: Path, nc: Bucket, q: Path)
    requires IsBucket(b, p) && nc.subs == Find(b, p).value.subs
    ensures IsBucket(Replace(b, p, nc), q) <==> IsBucket(b, q)
    ensures q != p ==> forall k :: ValueAt(Replace(b, p, nc), q, k) == ValueAt(b, q, k)
    ensures q == p ==> Find(Replace(b, p, nc), q) == Some(nc)
  {
    FindReplace(b, p, nc, q);
    if p <= q {
      var s := q[|p|..];
      assert p + s == q;
      FindAppend(b, p, s);
      if q != p {
        assert s != [];
      }
    }
  }

  /** Deleting removes the one value it names and no bucket. */
  lemma DeleteObserved(b: Bucket, p: Path, k: Name)
    requires DeleteAt(b, p, k).Ok?
    ensures forall q :: IsBucket(DeleteAt(b, p, k).value, q) <==> IsBucket(b, q)
    ensures forall q, k' ::
              ValueAt(DeleteAt(b, p, k).value, q, k') ==
              if q == p && k' == k then None else ValueAt(b, q, k')
  {
    var c := Find(b, p).value;
    var nc := c.(vals := c.vals - {k});
    var r := DeleteAt(b, p, k).value;
    forall q
      ensures IsBucket(r, q) <==> IsBucket(b, q)
    {
      SubsKept(b, p, nc, q);
    }
    forall q, k'
      ensures ValueAt(r, q, k') == if q == p && k' == k then None else ValueAt(b, q, k')
    {
      SubsKept(b, p, nc, q);
    }
  }

  /** Deleting a namespace removes exactly the paths at or below it. */
  lemma DeleteBucketObserved(b: Bucket, p: Path, n: Name)
    requires DeleteBucketAt(b, p, n).Ok?
    ensures forall q :: IsBucket(DeleteBucketAt(b, p, n).value, q) <==> IsBucket(b, q) && !(p + [n] <= q)
    ensures forall q, k ::
              ValueAt(DeleteBucketAt(b, p, n).value, q, k) ==
              if p + [n] <= q then None else ValueAt(b, q, k)
  {
    var r := DeleteBucketAt(b, p, n).value;
    forall q
      ensures IsBucket(r, q) <==> IsBucket(b, q) && !(p + [n] <= q)
    {
      DeleteBucketFind(b, p, n, q);
    }
    forall q, k
      ensures ValueAt(r, q, k) == if p + [n] <= q then None else ValueAt(b, q, k)
    {
      DeleteBucketFind(b, p, n, q);
    }
  }

  lemma DeleteBucketFind(b: Bucket, p: Path, n: Name, q: Path)
    requires DeleteBucketAt(b, p, n).Ok?
    ensures p + [n] <= q ==> Find(DeleteBucketAt(b, p, n).value, q).None?
    ensures !(p + [n] <= q) ==> (IsBucket(DeleteBucketAt(b, p, n).value, q) <==> IsBucket(b, q))
    ensures !(p + [n] <= q) && IsBucket(b, q) ==>
              Find(DeleteBucketAt(b, p, n).value, q).value.vals == Find(b, q).value.vals
  {
    var c := Find(b, p).value;
    FindReplace(b, p, c.(subs := c.subs - {n}), q);
    if p <= q {
      var s := q[|p|..];
      assert p + s == q;
      FindAppend(b, p, s);
      assert p + [n] <= q <==> s != [] && s[0] == n;
    }
  }

  /** Ensuring a namespace adds at most that one empty bucket. */
  lemma EnsureObserved(b: Bucket, p: Path, n: Name)
    requires EnsureAt(b, p, n).Ok?
    ensures forall q :: IsBucket(EnsureAt(b, p, n).value, q) <==> IsBucket(b, q) || q == p + [n]
    ensures forall q, k :: ValueAt(EnsureAt(b, p, n).value, q, k) == ValueAt(b, q, k)
  {
    var r := EnsureAt(b, p, n).value;
    forall q
      ensures IsBucket(r, q) <==> IsBucket(b, q) || q == p + [n]
    {
      EnsureFind(b, p, n, q);
    }
    forall q, k
      ensures ValueAt(r, q, k) == ValueAt(b, q, k)
    {
      EnsureFind(b, p, n, q);
    }
  }

  lemma EnsureFind(b: Bucket, p: Path, n: Name, q: Path)
    requires EnsureAt(b, p, n).Ok?
    ensures IsBucket(EnsureAt(b, p, n).value, q) <==> IsBucket(b, q) || q == p + [n]
    ensures IsBucket(b, q) ==> Find(EnsureAt(b, p, n).value, q).value.vals == Find(b, q).value.vals
    ensures q == p + [n] && !IsBucket(b, q) ==> Find(EnsureAt(b, p, n).value, q) == Some(EMPTY)
  {
    var c := Find(b, p).value;
    FindAppend(b, p, [n]);
    assert Find(c, [n]) == if n in c.subs then Find(c.subs[n], [n][1..]) else None;
    if n !in c.subs {
      FindReplace(b, p, c.(subs := c.subs[n := EMPTY]), q);
    }
    if p <= q {
      var s := q[|p|..];
      assert p + s == q;
      FindAppend(b, p, s);
      assert q == p + [n] <==> s == [n];
      if s != [] {
        assert s == [s[0]] + s[1..];
      }
    }
  }

  // ---- The decrypted view ----

  /** The plain nested map a reader with `key` sees: values that open, and every bucket. */
  function View(b: Bucket, key: Term): (r: Bucket)
  {
    Bucket(map k | k in b.vals && Dec(key, b.vals[k]).Some? :: Dec(key, b.vals[k]).value,
           map n | n in b.subs :: View(b.subs[n], key))
  }

  function Opened(key: Term, c: Option<Term>): (r: Option<Term>)
  {
    if c.None? then None else Dec(key, c.value)
  }

  lemma {:induction false} FindView(b: Bucket, key: Term, p: Path)
    ensures IsBucket(View(b, key), p) <==> IsBucket(b, p)
    ensures IsBucket(b, p) ==> Find(View(b, key), p) == Some(View(Find(b, p).value, key))
  {
    if p != [] && p[0] in b.subs {
      FindView(b.subs[p[0]], key, p[1..]);
    }
  }

  /** The view of a tree, observation by observation. */
  lemma ViewObserved(b: Bucket, key: Term)
    ensures forall p :: IsBucket(View(b, key), p) <==> IsBucket(b, p)
    ensures forall p, k :: ValueAt(View(b, key), p, k) == Opened(key, ValueAt(b, p, k))
  {
    forall p
      ensures IsBucket(View(b, key), p) <==> IsBucket(b, p)
    {
      FindView(b, key, p);
    }
    forall p, k
      ensures ValueAt(View(b, key), p, k) == Opened(key, ValueAt(b, p, k))
    {
      FindView(b, key, p);
    }
  }
}
