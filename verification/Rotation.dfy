/**
 RotateDataKey's two phases: flatten the tree to (slash-joined path, key,
 ciphertext) triples, then re-encrypt every value by resolving its path again.
 The results are about any enumeration order and any nonces.
 */
module Rotation {
  import opened Buckets
  import opened Crypto
  import opened Paths
  import opened Wrappers

  datatype Entry = Entry(path: Name, key: Name, value: Term)

  // ---- Read phase ----

  ghost predicate IsEntryAt(t: Bucket, prefix: Path, q: Path, e: Entry)
  {
    && prefix + q != []
    && e.path == Join(prefix + q)
    && ValueAt(t, q, e.key) == Some(e.value)
  }

  /** `es` lists exactly the values below `t`, each with its joined path. */
  ghost predicate EnumeratesBelow(t: Bucket, prefix: Path, es: seq<Entry>)
  {
    && (forall e :: e in es ==> exists q :: IsEntryAt(t, prefix, q, e))
    && (forall q, k :: prefix + q != [] && ValueAt(t, q, k).Some? ==>
                         Entry(Join(prefix + q), k, ValueAt(t, q, k).value) in es)
  }

  ghost predicate Enumerates(t: Bucket, es: seq<Entry>)
  {
    EnumeratesBelow(t, [], es)
  }

  /** What is still to be listed while the collector iterates over a bucket's keys. */
  ghost predicate CollectedKeys(t: Bucket, prefix: Path, todo: set<Name>, es: seq<Entry>)
  {
    && (forall e :: e in es ==> exists q :: IsEntryAt(t, prefix, q, e))
    && (forall k :: prefix != [] && k in t.vals && k !in todo ==> Entry(Join(prefix), k, t.vals[k]) in es)
    && (forall q, k :: q != [] && q[0] !in todo && ValueAt(t, q, k).Some? ==>
                         Entry(Join(prefix + q), k, ValueAt(t, q, k).value) in es)
  }

  lemma JoinChild(prefix: Path, k: Name)
    requires prefix != []
    ensures Join(prefix + [k]) == Join(prefix) + "/" + k
  {
    assert (prefix + [k])[..|prefix + [k]| - 1] == prefix;
  }

  lemma CollectedChild(t: Bucket, prefix: Path, todo: set<Name>, es: seq<Entry>, k: Name, sub: seq<Entry>)
    requires CollectedKeys(t, prefix, todo, es)
    requires k in t.subs && k !in t.vals
    requires EnumeratesBelow(t.subs[k], prefix + [k], sub)
    ensures CollectedKeys(t, prefix, todo - {k}, es + sub)
  {
    forall e | e in es + sub
      ensures exists q :: IsEntryAt(t, prefix, q, e)
    {
      if e in sub {
        var q :| IsEntryAt(t.subs[k], prefix + [k], q, e);
        assert prefix + [k] + q == prefix + ([k] + q);
        assert ([k] + q)[1..] == q;
        assert IsEntryAt(t, prefix, [k] + q, e);
      }
    }
    forall q, k' | q != [] && q[0] !in todo - {k} && ValueAt(t, q, k').Some?
      ensures Entry(Join(prefix + q), k', ValueAt(t, q, k').value) in es + sub
    {
      if q[0] == k {
        assert q == [k] + q[1..];
        assert prefix + [k] + q[1..] == prefix + q;
        assert ValueAt(t.subs[k], q[1..], k').Some?;
      }
    }
  }

  /**
   `collect`: bucket.ForEach visits every key once (in any order here), descends
   into sub-buckets and appends an entry for every value.
   */
  method Collect(t: Bucket, path: Name, ghost prefix: Path) returns (es: seq<Entry>)
    requires prefix != [] && path == Join(prefix)
    requires forall p :: IsBucket(t, p) ==> Find(t, p).value.vals.Keys !! Find(t, p).value.subs.Keys
    ensures EnumeratesBelow(t, prefix, es)
    decreases t
  {
    es := [];
    var todo := t.vals.Keys + t.subs.Keys;
    assert Find(t, []) == Some(t);
    assert IsBucket(t, []);
    assert CollectedKeys(t, prefix, todo, es) by {
      forall q, k | q != [] && q[0] !in todo
        ensures ValueAt(t, q, k).None?
      {
        assert Find(t, q).None?;
      }
    }
    while todo != {}
      invariant todo <= t.vals.Keys + t.subs.Keys
      invariant CollectedKeys(t, prefix, todo, es)
      decreases |todo|
    {
      var k :| k in todo;
      if k in t.subs {
        ChildDisjoint(t, k);
        JoinChild(prefix, k);
        var sub := Collect(t.subs[k], path + "/" + k, prefix + [k]);
        CollectedChild(t, prefix, todo, es, k, sub);
        es := es + sub;
      } else {
        var e := Entry(path, k, t.vals[k]);
        CollectedValue(t, prefix, todo, es, k);
        es := es + [e];
      }
      todo := todo - {k};
    }
    CollectedAll(t, prefix, es);
  }

  lemma ChildDisjoint(t: Bucket, k: Name)
    requires k in t.subs
    requires forall p :: IsBucket(t, p) ==> Find(t, p).value.vals.Keys !! Find(t, p).value.subs.Keys
    ensures forall p :: IsBucket(t.subs[k], p) ==>
                          Find(t.subs[k], p).value.vals.Keys !! Find(t.subs[k], p).value.subs.Keys
  {
    forall p | IsBucket(t.subs[k], p)
      ensures Find(t.subs[k], p).value.vals.Keys !! Find(t.subs[k], p).value.subs.Keys
    {
      assert ([k] + p)[1..] == p;
      assert IsBucket(t, [k] + p);
    }
  }

  lemma CollectedValue(t: Bucket, prefix: Path, todo: set<Name>, es: seq<Entry>, k: Name)
    requires CollectedKeys(t, prefix, todo, es)
    requires prefix != [] && k in t.vals && k !in t.subs
    ensures CollectedKeys(t, prefix, todo - {k}, es + [Entry(Join(prefix), k, t.vals[k])])
  {
    var e := Entry(Join(prefix), k, t.vals[k]);
    assert IsEntryAt(t, prefix, [], e) by { assert prefix + [] == prefix; }
    forall e' | e' in es + [e]
      ensures exists q :: IsEntryAt(t, prefix, q, e')
    {
      if e' in es {
      } else {
        assert e' == e;
      }
    }
    forall q, k' | q != [] && q[0] !in todo - {k} && ValueAt(t, q, k').Some?
      ensures Entry(Join(prefix + q), k', ValueAt(t, q, k').value) in es + [e]
    {
      if q[0] == k {
        assert Find(t, q).None?;
      }
    }
  }

  lemma CollectedAll(t: Bucket, prefix: Path, es: seq<Entry>)
    requires prefix != [] && CollectedKeys(t, prefix, {}, es)
    ensures EnumeratesBelow(t, prefix, es)
  {
    forall q, k | prefix + q != [] && ValueAt(t, q, k).Some?
      ensures Entry(Join(prefix + q), k, ValueAt(t, q, k).value) in es
    {
      if q == [] {
        assert prefix + q == prefix;
      }
    }
  }

  /** tx.ForEach over the root buckets: the whole read phase. */
  method CollectAll(root: Bucket) returns (es: seq<Entry>)
    requires WellFormed(root)
    ensures Enumerates(root, es)
  {
    es := [];
    var todo := root.subs.Keys;
    KeysDisjoint(root);
    assert CollectedKeys(root, [], todo, es) by {
      forall q, k | q != [] && q[0] !in todo
        ensures ValueAt(root, q, k).None?
      {
        assert Find(root, q).None?;
      }
    }
    while todo != {}
      invariant todo <= root.subs.Keys
      invariant CollectedKeys(root, [], todo, es)
      decreases |todo|
    {
      var name :| name in todo;
      ChildDisjoint(root, name);
      assert [] + [name] == [name];
      var sub := Collect(root.subs[name], name, [name]);
      CollectedChild(root, [], todo, es, name, sub);
      es := es + sub;
      todo := todo - {name};
    }
    assert Enumerates(root, es) by {
      forall q, k | [] + q != [] && ValueAt(root, q, k).Some?
        ensures Entry(Join([] + q), k, ValueAt(root, q, k).value) in es
      {
        assert [] + q == q;
      }
    }
  }

  lemma KeysDisjoint(t: Bucket)
    requires WellFormed(t)
    ensures forall p :: IsBucket(t, p) ==> Find(t, p).value.vals.Keys !! Find(t, p).value.subs.Keys
  {
    forall p, k | IsBucket(t, p) && k in Find(t, p).value.vals && k in Find(t, p).value.subs
      ensures false
    {
      assert ValueAt(t, p, k).Some?;
      SubIsBucket(t, p, k);
    }
  }

  // ---- Write phase ----

  /** tx.Bucket(path), then navigateBucket(tx, path). */
  function Resolve(t: Bucket, path: Name): (r: Option<Path>)
  {
    if IsBucket(t, [path]) then Some([path])
    else if IsBucket(t, Split(path)) then Some(Split(path))
    else None
  }

  /** navigateBucket: walk the segments from the transaction root. */
  method NavigateBucket(t: Bucket, path: Name) returns (r: Option<Bucket>)
    ensures r == Find(t, Split(path))
  {
    var parts := Split(path);
    r := if parts[0] in t.subs then Some(t.subs[parts[0]]) else None;
    var i := 1;
    assert Find(t, parts) == match r case None => None case Some(c) => Find(c, parts[i..]);
    while i < |parts|
      invariant 1 <= i <= |parts|
      invariant Find(t, parts) == match r case None => None case Some(c) => Find(c, parts[i..])
    {
      if r.None? {
        return None;
      }
      assert parts[i..][1..] == parts[i + 1..];
      r := if parts[i] in r.value.subs then Some(r.value.subs[parts[i]]) else None;
      i := i + 1;
    }
  }

  /** One round of the write loop; a Put error aborts the transaction. */
  function Rewrite(t: Bucket, e: Entry, nonce: nat, old_: Term, new_: Term): (r: Result<Bucket, Error>)
  {
    match Dec(old_, e.value)
    case None => Ok(t)
    case Some(plain) =>
      match Resolve(t, e.path)
      case None => Ok(t)
      case Some(q) => PutAt(t, q, e.key, Seal(new_, nonce, plain))
  }

  /** The write loop over `es`, in order. */
  function WriteAll(t: Bucket, es: seq<Entry>, nonces: seq<nat>, old_: Term, new_: Term): (r: Result<Bucket, Error>)
    requires |nonces| >= |es|
  {
    if es == [] then Ok(t)
    else
      var i := |es| - 1;
      match WriteAll(t, es[..i], nonces, old_, new_)
      case Err(e) => Err(e)
      case Ok(u) => Rewrite(u, es[i], nonces[i], old_, new_)
  }

  // ---- When does a collected path lead home? ----

  ghost predicate Home(t: Bucket, p: Path)
    requires p != []
  {
    Resolve(t, Join(p)) == Some(p)
  }

  ghost predicate AllHome(t: Bucket)
  {
    forall p :: p != [] && IsBucket(t, p) ==> Home(t, p)
  }

  /** A nested path leads home exactly when it has no slash in a name and is not itself a root bucket's name. */
  lemma HomeIff(t: Bucket, p: Path)
    requires p != [] && IsBucket(t, p)
    ensures Home(t, p) <==> |p| == 1 || (SlashFree(p) && !IsBucket(t, [Join(p)]))
  {
    SplitJoin(p);
    if |p| == 1 {
      assert p == [p[0]];
    }
  }

  /** Slash-free bucket names are enough, whatever the tree. */
  lemma SlashFreeIsHome(t: Bucket)
    requires forall p :: IsBucket(t, p) ==> SlashFree(p)
    ensures AllHome(t)
  {
    forall p | p != [] && IsBucket(t, p)
      ensures Home(t, p)
    {
      HomeIff(t, p);
      if |p| > 1 {
        JoinHasSlash(p);
        var j := Join(p);
        assert !SlashFree([j]) by { assert j in [j]; }
        assert IsBucket(t, [j]) ==> SlashFree([j]);
      }
    }
  }

  /** The exact condition for one tree: every bucket holding a value that opens is found again by its path. */
  ghost predicate Routed(t: Bucket, key: Term)
  {
    forall p, k :: p != [] && Opened(key, ValueAt(t, p, k)).Some? ==> Home(t, p)
  }

  lemma HomeIsRouted(t: Bucket, key: Term)
    requires AllHome(t)
    ensures Routed(t, key)
  {
    forall p, k | p != [] && Opened(key, ValueAt(t, p, k)).Some?
      ensures Home(t, p)
    {
      assert IsBucket(t, p);
    }
  }

  /** A path resolves to a bucket only if it is that bucket's own path. */
  lemma ResolvedIsOwn(t: Bucket, path: Name, p: Path)
    requires p != [] && Resolve(t, path) == Some(p)
    ensures path == Join(p) && Home(t, p)
  {
    JoinSplit(path);
  }

  // ---- What the write loop keeps ----

  /** A value part way through: original, or re-sealed with the same plaintext. */
  ghost predicate ValueRekeyed(c0: Option<Term>, c1: Option<Term>, done: bool, old_: Term, new_: Term)
  {
    match c0
    case None => c1 == None
    case Some(x) =>
      match Dec(old_, x)
      case None => c1 == c0
      case Some(plain) =>
        || (c1 == c0 && !done)
        || (c1.Some? && c1.value.Seal? && c1.value.key == new_ && c1.value.plain == plain)
  }

  ghost predicate Listed(t: Bucket, p: Path, k: Name, es: seq<Entry>)
  {
    p != [] && ValueAt(t, p, k).Some? && Entry(Join(p), k, ValueAt(t, p, k).value) in es
  }

  ghost predicate Rekeyed(t: Bucket, u: Bucket, es: seq<Entry>, old_: Term, new_: Term)
  {
    && (forall p :: IsBucket(u, p) <==> IsBucket(t, p))
    && (forall p, k :: ValueRekeyed(ValueAt(t, p, k), ValueAt(u, p, k), Listed(t, p, k, es), old_, new_))
  }

  ghost predicate FromTree(t: Bucket, e: Entry)
  {
    exists p :: IsEntryAt(t, [], p, e)
  }

  ghost predicate AllFromTree(t: Bucket, es: seq<Entry>)
  {
    forall i :: 0 <= i < |es| ==> FromTree(t, es[i])
  }

  lemma EnumeratedFromTree(t: Bucket, es: seq<Entry>)
    requires Enumerates(t, es)
    ensures AllFromTree(t, es)
  {
    forall i | 0 <= i < |es|
      ensures FromTree(t, es[i])
    {
      assert es[i] in es;
    }
  }

  /** An entry that does not open, listed by whatever bucket, asks for nothing. */
  lemma RekeyedSkip(t: Bucket, u: Bucket, es: seq<Entry>, e: Entry, old_: Term, new_: Term)
    requires Rekeyed(t, u, es, old_, new_) && Dec(old_, e.value).None?
    ensures Rekeyed(t, u, es + [e], old_, new_)
  {
    forall q, k
      ensures ValueRekeyed(ValueAt(t, q, k), ValueAt(u, q, k), Listed(t, q, k, es + [e]), old_, new_)
    {
      assert ValueRekeyed(ValueAt(t, q, k), ValueAt(u, q, k), Listed(t, q, k, es), old_, new_);
    }
  }

  /** An entry that opens comes from one bucket only, and that is where it is written. */
  lemma RekeyedPut(t: Bucket, u: Bucket, es: seq<Entry>, e: Entry, p: Path, nonce: nat, old_: Term, new_: Term)
    requires WellFormed(t) && Routed(t, old_) && Rekeyed(t, u, es, old_, new_)
    requires p != [] && IsEntryAt(t, [], p, e) && Dec(old_, e.value).Some?
    ensures Rewrite(u, e, nonce, old_, new_).Ok?
    ensures Rekeyed(t, Rewrite(u, e, nonce, old_, new_).value, es + [e], old_, new_)
  {
    assert [] + p == p;
    assert Opened(old_, ValueAt(t, p, e.key)).Some?;
    assert Home(t, p);
    assert Resolve(u, e.path) == Resolve(t, e.path) == Some(p);
    SubIsBucket(u, p, e.key);
    PutObserved(u, p, e.key, Seal(new_, nonce, Dec(old_, e.value).value));
    var w := Rewrite(u, e, nonce, old_, new_).value;
    forall q, k
      ensures ValueRekeyed(ValueAt(t, q, k), ValueAt(w, q, k), Listed(t, q, k, es + [e]), old_, new_)
    {
      assert ValueRekeyed(ValueAt(t, q, k), ValueAt(u, q, k), Listed(t, q, k, es), old_, new_);
      if Listed(t, q, k, es + [e]) && !Listed(t, q, k, es) {
        assert Entry(Join(q), k, ValueAt(t, q, k).value) == e;
        assert Opened(old_, ValueAt(t, q, k)).Some? && Home(t, q);
      }
    }
  }

  lemma RekeyedStep(t: Bucket, u: Bucket, es: seq<Entry>, e: Entry, nonce: nat, old_: Term, new_: Term)
    requires WellFormed(t) && Routed(t, old_)
    requires Rekeyed(t, u, es, old_, new_) && FromTree(t, e)
    ensures Rewrite(u, e, nonce, old_, new_).Ok?
    ensures Rekeyed(t, Rewrite(u, e, nonce, old_, new_).value, es + [e], old_, new_)
  {
    if Dec(old_, e.value).Some? {
      var p :| IsEntryAt(t, [], p, e);
      assert [] + p == p;
      RekeyedPut(t, u, es, e, p, nonce, old_, new_);
    } else {
      RekeyedSkip(t, u, es, e, old_, new_);
    }
  }

  /** Where the values that open are found again the write loop never fails and re-keys what it has visited. */
  lemma {:induction false} WriteAllRekeys(
      t: Bucket, es: seq<Entry>, nonces: seq<nat>, old_: Term, new_: Term)
    requires |nonces| >= |es|
    requires WellFormed(t) && Routed(t, old_)
    requires AllFromTree(t, es)
    ensures WriteAll(t, es, nonces, old_, new_).Ok?
    ensures Rekeyed(t, WriteAll(t, es, nonces, old_, new_).value, es, old_, new_)
  {
    if es != [] {
      var i := |es| - 1;
      WriteAllRekeys(t, es[..i], nonces, old_, new_);
      RekeyedStep(t, WriteAll(t, es[..i], nonces, old_, new_).value, es[..i], es[i], nonces[i], old_, new_);
      assert es == es[..i] + [es[i]];
    }
  }

  /** Nothing in the tree opens under `key`: the new data key is fresh. */
  ghost predicate Unused(t: Bucket, key: Term)
  {
    forall p, k :: Opened(key, ValueAt(t, p, k)).None?
  }

  /** The write phase did what it is for. */
  ghost predicate Preserves(t: Bucket, r: Result<Bucket, Error>, old_: Term, new_: Term)
  {
    && r.Ok?
    && View(r.value, new_) == View(t, old_)
    && (forall p, k :: ValueAt(t, p, k).Some? && Opened(old_, ValueAt(t, p, k)).None? ==>
                         ValueAt(r.value, p, k) == ValueAt(t, p, k))
  }

  /**
   Re-encryption keeps the whole decrypted tree: same buckets, same keys, same
   plaintexts, and values that did not open are untouched.
   */
  lemma RotationPreservesView(t: Bucket, es: seq<Entry>, nonces: seq<nat>, old_: Term, new_: Term)
    requires WellFormed(t) && Routed(t, old_) && Enumerates(t, es) && |nonces| >= |es|
    requires Unused(t, new_)
    ensures Preserves(t, WriteAll(t, es, nonces, old_, new_), old_, new_)
    ensures WellFormed(WriteAll(t, es, nonces, old_, new_).value)
  {
    EnumeratedFromTree(t, es);
    WriteAllRekeys(t, es, nonces, old_, new_);
    var u := WriteAll(t, es, nonces, old_, new_).value;
    var vt, vu := View(t, old_), View(u, new_);
    ViewObserved(t, old_);
    ViewObserved(u, new_);
    forall p, k
      ensures Opened(new_, ValueAt(u, p, k)) == Opened(old_, ValueAt(t, p, k))
      ensures ValueAt(u, p, k).Some? == ValueAt(t, p, k).Some?
    {
      assert ValueRekeyed(ValueAt(t, p, k), ValueAt(u, p, k), Listed(t, p, k, es), old_, new_);
      assert Opened(new_, ValueAt(t, p, k)).None?;
      assert Find(t, []) == Some(t) && ValueAt(t, [], k).None?;
      if ValueAt(t, p, k).Some? {
        assert [] + p == p;
        assert Listed(t, p, k, es);
      }
    }
    forall p, k
      ensures ValueAt(vu, p, k) == ValueAt(vt, p, k)
    {
      assert ValueAt(vu, p, k) == Opened(new_, ValueAt(u, p, k));
    }
    TreeExtensionality(vu, vt);
    forall p, k | ValueAt(t, p, k).Some? && Opened(old_, ValueAt(t, p, k)).None?
      ensures ValueAt(u, p, k) == ValueAt(t, p, k)
    {
      assert ValueRekeyed(ValueAt(t, p, k), ValueAt(u, p, k), Listed(t, p, k, es), old_, new_);
    }
    assert u.vals == map[] by {
      forall k
        ensures k !in u.vals
      {
        assert ValueAt(u, [], k).Some? <==> ValueAt(t, [], k).Some?;
        assert Find(u, []) == Some(u) && Find(t, []) == Some(t);
      }
    }
  }

  // ---- Exactly which trees are safe to rotate ----

  /** No write ever reaches a bucket whose path does not lead home. */
  lemma {:induction false} StrayUntouched(
      t: Bucket, es: seq<Entry>, nonces: seq<nat>, old_: Term, new_: Term, p: Path, k: Name)
    requires |nonces| >= |es| && WriteAll(t, es, nonces, old_, new_).Ok?
    requires p != [] && !Home(t, p)
    ensures var u := WriteAll(t, es, nonces, old_, new_).value;
            && (forall q :: IsBucket(u, q) <==> IsBucket(t, q))
            && ValueAt(u, p, k) == ValueAt(t, p, k)
  {
    if es != [] {
      var i := |es| - 1;
      var e := es[i];
      StrayUntouched(t, es[..i], nonces, old_, new_, p, k);
      var u := WriteAll(t, es[..i], nonces, old_, new_).value;
      if Dec(old_, e.value).Some? && Resolve(u, e.path).Some? {
        var q := Resolve(u, e.path).value;
        assert Resolve(t, e.path) == Some(q);
        PutObserved(u, q, e.key, Seal(new_, nonces[i], Dec(old_, e.value).value));
        ResolvedIsOwn(t, e.path, q);
      }
    }
  }

  /**
   The exact condition for a given tree, order and nonces: rotation preserves it if
   and only if every bucket that holds a value that opens is found again by its path.
   */
  lemma PreservesIffRouted(t: Bucket, es: seq<Entry>, nonces: seq<nat>, old_: Term, new_: Term)
    requires WellFormed(t) && Enumerates(t, es) && |nonces| >= |es| && Unused(t, new_)
    ensures Preserves(t, WriteAll(t, es, nonces, old_, new_), old_, new_) <==> Routed(t, old_)
  {
    var r := WriteAll(t, es, nonces, old_, new_);
    if Routed(t, old_) {
      RotationPreservesView(t, es, nonces, old_, new_);
    } else if r.Ok? {
      var p, k :| p != [] && Opened(old_, ValueAt(t, p, k)).Some? && !Home(t, p);
      StrayUntouched(t, es, nonces, old_, new_, p, k);
      ViewObserved(r.value, new_);
      ViewObserved(t, old_);
      assert ValueAt(View(r.value, new_), p, k) != ValueAt(View(t, old_), p, k);
    }
  }

  /** The bucket structure alone. */
  function Strip(b: Bucket): (r: Bucket)
  {
    Bucket(map[], map n | n in b.subs :: Strip(b.subs[n]))
  }

  lemma {:induction false} StripFind(b: Bucket, p: Path)
    ensures IsBucket(Strip(b), p) <==> IsBucket(b, p)
    ensures IsBucket(b, p) ==> Find(Strip(b), p) == Some(Strip(Find(b, p).value))
  {
    if p != [] && p[0] in b.subs {
      StripFind(b.subs[p[0]], p[1..]);
    }
  }

  /** Every way of filling the buckets of `t` with values survives a rotation. */
  ghost predicate SafeForEveryFilling(t: Bucket)
  {
    forall f, es, nonces, old_, new_ ::
      Strip(f) == Strip(t) && WellFormed(f) && Enumerates(f, es) && |nonces| >= |es| && Unused(f, new_)
      ==> Preserves(f, WriteAll(f, es, nonces, old_, new_), old_, new_)
  }

  lemma {:induction false} FreshName(names: set<Name>) returns (k: Name)
    ensures k != "" && k !in names
    ensures forall n :: n in names ==> |n| < |k|
  {
    if names == {} {
      k := "x";
    } else {
      var n :| n in names;
      var k' := FreshName(names - {n});
      k := k' + n + "x";
    }
  }

  /** The structure of `t` with a single value, sealed, in the bucket at `p`. */
  lemma OneValue(t: Bucket, p: Path, c: Term) returns (f: Bucket, k: Name)
    requires p != [] && IsBucket(t, p)
    ensures Strip(f) == Strip(t) && WellFormed(f) && Enumerates(f, [Entry(Join(p), k, c)])
    ensures forall q :: IsBucket(f, q) <==> IsBucket(t, q)
    ensures forall q, k' :: ValueAt(f, q, k') == if q == p && k' == k then Some(c) else None
    ensures k != "" && !IsBucket(f, p + [k])
  {
    var s := Strip(t);
    StripFind(t, p);
    k := FreshName(Find(s, p).value.subs.Keys);
    SubIsBucket(s, p, k);
    f := PutAt(s, p, k, c).value;
    PutObserved(s, p, k, c);
    StrippedEmpty(t);
    StripOfFilled(t, f);
    forall q
      ensures IsBucket(f, q) <==> IsBucket(t, q)
    {
      StripFind(t, q);
    }
    OneValueListed(f, p, k, c);
  }

  lemma OneValueListed(f: Bucket, p: Path, k: Name, c: Term)
    requires p != [] && k != "" && !IsBucket(f, p + [k])
    requires forall q, k' :: ValueAt(f, q, k') == if q == p && k' == k then Some(c) else None
    ensures WellFormed(f) && Enumerates(f, [Entry(Join(p), k, c)])
  {
    var es := [Entry(Join(p), k, c)];
    assert Find(f, []) == Some(f);
    forall k'
      ensures k' !in f.vals
    {
      assert ValueAt(f, [], k').None?;
    }
    assert [] + p == p;
    assert IsEntryAt(f, [], p, es[0]);
    forall q, k' | [] + q != [] && ValueAt(f, q, k').Some?
      ensures Entry(Join([] + q), k', ValueAt(f, q, k').value) in es
    {
      assert [] + q == q;
      assert q == p && k' == k;
    }
  }

  /** One value in a bucket whose path does not lead home is lost by the rotation. */
  lemma StrayValueIsLost(t: Bucket, p: Path)
    requires p != [] && IsBucket(t, p) && !Home(t, p)
    ensures !SafeForEveryFilling(t)
  {
    var old_, new_ := Atom([0]), Atom([1]);
    var c := Seal(old_, 0, Atom([]));
    var f, k := OneValue(t, p, c);
    var es := [Entry(Join(p), k, c)];
    assert Unused(f, new_);
    assert Opened(old_, ValueAt(f, p, k)).Some? && !Home(f, p);
    PreservesIffRouted(f, es, [0], old_, new_);
  }

  /** Root bucket "a/b" beside root bucket "a" with sub-bucket "b", holding `nested` and `top`. */
  function Colliding(nested: map<Name, Term>, top: map<Name, Term>): (t: Bucket)
  {
    Bucket(map[], map["a" := Bucket(map[], map["b" := Bucket(nested, map[])]), "a/b" := Bucket(top, map[])])
  }

  function CollidingAt(nested: map<Name, Term>, top: map<Name, Term>, p: Path): (r: Option<Bucket>)
  {
    if p == [] then Some(Colliding(nested, top))
    else if p == ["a"] then Some(Bucket(map[], map["b" := Bucket(nested, map[])]))
    else if p == ["a", "b"] then Some(Bucket(nested, map[]))
    else if p == ["a/b"] then Some(Bucket(top, map[]))
    else None
  }

  lemma CollidingFind(nested: map<Name, Term>, top: map<Name, Term>, p: Path)
    ensures Find(Colliding(nested, top), p) == CollidingAt(nested, top, p)
  {
    var t := Colliding(nested, top);
    if |p| == 1 {
      assert p == [p[0]] && p[1..] == [];
    } else if |p| > 1 {
      var q := p[1..];
      assert p[0] in t.subs ==> Find(t, p) == Find(t.subs[p[0]], q);
      if p[0] == "a" && q[0] == "b" {
        assert Find(t.subs["a"], q) == Find(Bucket(nested, map[]), q[1..]);
        assert |p| == 2 ==> p == ["a", "b"] && q[1..] == [];
      }
    }
  }

  /** The write meant for the nested bucket goes to the root bucket that its joined path names. */
  lemma CollidingWrite(nested: map<Name, Term>, k: Name, v: Term)
    requires k != ""
    ensures Resolve(Colliding(nested, map[]), "a/b") == Some(["a/b"])
    ensures PutAt(Colliding(nested, map[]), ["a/b"], k, v) == Ok(Colliding(nested, map[k := v]))
  {
    var t := Colliding(nested, map[]);
    CollidingFind(nested, map[], ["a/b"]);
    var nb := Bucket(map[k := v], map[]);
    assert Replace(t, ["a/b"], nb) == t.(subs := t.subs["a/b" := Replace(t.subs["a/b"], ["a/b"][1..], nb)]);
    assert t.subs["a/b" := nb] == Colliding(nested, map[k := v]).subs;
    assert map[][k := v] == map[k := v];
  }

  /** A concrete loss: the value below "a" is re-encrypted into "a/b", and its own copy stays under the old key. */
  lemma SlashedNamesAreUnsafe(old_: Term, new_: Term, x: Term)
    requires old_ != new_
    ensures var c, c' := Seal(old_, 0, x), Seal(new_, 0, x);
            var t, es := Colliding(map["k" := c], map[]), [Entry("a/b", "k", c)];
            && WellFormed(t) && Enumerates(t, es) && Unused(t, new_)
            && WriteAll(t, es, [0], old_, new_) == Ok(Colliding(map["k" := c], map["k" := c']))
            && !Preserves(t, WriteAll(t, es, [0], old_, new_), old_, new_)
  {
    var c, c' := Seal(old_, 0, x), Seal(new_, 0, x);
    var t, es := Colliding(map["k" := c], map[]), [Entry("a/b", "k", c)];
    var p := ["a", "b"];
    forall q
      ensures Find(t, q) == CollidingAt(map["k" := c], map[], q)
    {
      CollidingFind(map["k" := c], map[], q);
    }
    assert p[..1] == ["a"] && Join(p) == "a/b";
    OneValueListed(t, p, "k", c);
    CollidingWrite(map["k" := c], "k", c');
    assert WriteAll(t, es[..0], [0], old_, new_) == Ok(t);
    assert WriteAll(t, es, [0], old_, new_) == Rewrite(t, es[0], 0, old_, new_);
    assert Opened(old_, ValueAt(t, p, "k")).Some? && !Home(t, p);
    PreservesIffRouted(t, es, [0], old_, new_);
  }

  lemma StrippedEmpty(t: Bucket)
    ensures forall p, k :: ValueAt(Strip(t), p, k).None?
  {
    forall p, k
      ensures ValueAt(Strip(t), p, k).None?
    {
      StripFind(t, p);
    }
  }

  lemma StripOfFilled(t: Bucket, f: Bucket)
    requires forall p :: IsBucket(f, p) <==> IsBucket(Strip(t), p)
    ensures Strip(f) == Strip(t)
  {
    forall p
      ensures IsBucket(Strip(f), p) <==> IsBucket(Strip(t), p)
    {
      StripFind(f, p);
    }
    StrippedEmpty(t);
    StrippedEmpty(f);
    TreeExtensionality(Strip(f), Strip(t));
  }

  /**
   The exact condition. A bucket structure is safe to rotate, whatever values it
   holds, if and only if every bucket path leads home: by `HomeIff`, no nested
   path has a slash in a name or spells a root bucket's name.
   */
  lemma SafeIffAllHome(t: Bucket)
    ensures SafeForEveryFilling(t) <==> AllHome(t)
  {
    if AllHome(t) {
      forall f, es, nonces, old_, new_ |
        Strip(f) == Strip(t) && WellFormed(f) && Enumerates(f, es) && |nonces| >= |es| && Unused(f, new_)
        ensures Preserves(f, WriteAll(f, es, nonces, old_, new_), old_, new_)
      {
        SameBucketsSameHome(t, f);
        HomeIsRouted(f, old_);
        RotationPreservesView(f, es, nonces, old_, new_);
      }
    } else {
      var p :| p != [] && IsBucket(t, p) && !Home(t, p);
      StrayValueIsLost(t, p);
    }
  }

  lemma SameBucketsSameHome(t: Bucket, f: Bucket)
    requires Strip(f) == Strip(t) && AllHome(t)
    ensures AllHome(f)
  {
    forall p | p != [] && IsBucket(f, p)
      ensures Home(f, p)
    {
      StripFind(f, p);
      StripFind(t, p);
      assert Home(t, p);
      StripFind(f, [Join(p)]);
      StripFind(t, [Join(p)]);
      StripFind(f, Split(Join(p)));
      StripFind(t, Split(Join(p)));
    }
  }
}
