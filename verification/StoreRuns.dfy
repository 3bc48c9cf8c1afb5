/**
 Namespace operations inside commands, whole runs of the store, and its class
 form. A run's state carries the plain nested map beside the encrypted tree.
 */
module StoreRuns {
  import opened Buckets
  import opened Crypto
  import opened Paths
  import opened Rotation
  import opened Store
  import opened Wrappers

  // ---- Namespace operations ----

  /** One call on a namespace reached from the root by `Sub`. */
  datatype NsOp =
    | Ensure(path: Path, name: Name)
    | PutEncrypted(path: Path, key: Name, value: Term, nonce: nat)
    | Delete(path: Path, key: Name)
    | DeleteNamespace(path: Path, name: Name)

  /** The call neither writes a metadata entry nor asks for a bucket in its place; `CallRefinesIff` says why. */
  predicate Allowed(op: NsOp)
  {
    match op
    case Ensure(p, n) => !MetaKey(p, n)
    case PutEncrypted(p, k, _, _) => !MetaKey(p, k)
    case Delete(p, k) => !MetaKey(p, k)
    case DeleteNamespace(_, _) => true
  }

  function Apply(root: Bucket, cipher: Term, op: NsOp): (r: Result<Bucket, Error>)
  {
    match op
    case Ensure(p, n) => EnsureAt(root, p, n)
    case PutEncrypted(p, k, v, nonce) => PutAt(root, p, k, Seal(cipher, nonce, v))
    case Delete(p, k) => DeleteAt(root, p, k)
    case DeleteNamespace(p, n) => DeleteBucketAt(root, p, n)
  }

  /** The same call on a plain nested map. */
  function ApplyPlain(plain: Bucket, op: NsOp): (r: Result<Bucket, Error>)
  {
    match op
    case Ensure(p, n) => EnsureAt(plain, p, n)
    case PutEncrypted(p, k, v, _) => PutAt(plain, p, k, v)
    case Delete(p, k) => DeleteAt(plain, p, k)
    case DeleteNamespace(p, n) => DeleteBucketAt(plain, p, n)
  }

  function GetEncrypted(root: Bucket, cipher: Term, p: Path, k: Name): (r: Result<Term, Error>)
  {
    if p == [] || !IsBucket(root, p) then Err(MissingNamespace)
    else match ValueAt(root, p, k)
      case None => Err(MissingItem)
      case Some(c) => match Dec(cipher, c) case None => Err(DecryptFailed) case Some(v) => Ok(v)
  }

  function GetPlain(plain: Bucket, p: Path, k: Name): (r: Result<Term, Error>)
  {
    if p == [] || !IsBucket(plain, p) then Err(MissingNamespace)
    else match ValueAt(plain, p, k) case None => Err(MissingItem) case Some(v) => Ok(v)
  }

  /** When a read answers, and which error it gives otherwise, whatever the tree. */
  lemma GetOutcome(root: Bucket, cipher: Term, p: Path, k: Name, v: Term)
    ensures GetEncrypted(root, cipher, p, k) == Ok(v) <==> p != [] && Opened(cipher, ValueAt(root, p, k)) == Some(v)
    ensures GetEncrypted(root, cipher, p, k) == Err(MissingNamespace) <==> p == [] || !IsBucket(root, p)
    ensures GetEncrypted(root, cipher, p, k) == Err(MissingItem) <==>
            p != [] && IsBucket(root, p) && ValueAt(root, p, k).None?
    ensures GetEncrypted(root, cipher, p, k) == Err(DecryptFailed) <==>
            p != [] && ValueAt(root, p, k).Some? && Opened(cipher, ValueAt(root, p, k)).None?
  {
  }

  /** What a read finds after a call, in terms of what it found before. */
  function ReadAfter(root: Bucket, cipher: Term, op: NsOp, q: Path, k: Name): (r: Result<Term, Error>)
  {
    match op
    case Ensure(p, n) =>
      if q == p + [n] && !IsBucket(root, q) then Err(MissingItem) else GetEncrypted(root, cipher, q, k)
    case PutEncrypted(p, key, v, _) => if q == p && k == key then Ok(v) else GetEncrypted(root, cipher, q, k)
    case Delete(p, key) => if q == p && k == key then Err(MissingItem) else GetEncrypted(root, cipher, q, k)
    case DeleteNamespace(p, n) => if p + [n] <= q then Err(MissingNamespace) else GetEncrypted(root, cipher, q, k)
  }

  /** A put is read back, a deleted key is missing, a new namespace empty, a deleted one gone; nothing else moves. */
  lemma ReadsAfterCall(root: Bucket, cipher: Term, op: NsOp, q: Path, k: Name)
    requires Apply(root, cipher, op).Ok?
    ensures GetEncrypted(Apply(root, cipher, op).value, cipher, q, k) == ReadAfter(root, cipher, op, q, k)
  {
    match op
    case Ensure(p, n) =>
      EnsureObserved(root, p, n);
      if q == p + [n] && !IsBucket(root, q) {
        assert ValueAt(root, q, k).None?;
      }
    case PutEncrypted(p, key, v, nonce) => PutObserved(root, p, key, Seal(cipher, nonce, v));
    case Delete(p, key) => DeleteObserved(root, p, key);
    case DeleteNamespace(p, n) => DeleteBucketObserved(root, p, n);
  }

  lemma ViewKeys(root: Bucket, cipher: Term, pass: Term, p: Path, n: Name)
    requires Sound(root, cipher, pass) && IsBucket(root, p)
    ensures IsBucket(View(root, cipher), p)
    ensures n in Find(View(root, cipher), p).value.subs <==> n in Find(root, p).value.subs
    ensures !MetaKey(p, n) ==>
              (n in Find(View(root, cipher), p).value.vals <==> n in Find(root, p).value.vals)
  {
    FindView(root, cipher, p);
    if n in Find(root, p).value.vals && !MetaKey(p, n) {
      assert ValueAt(root, p, n).Some?;
    }
  }

  /** Every read agrees with the plain map, errors included. */
  lemma GetRefines(root: Bucket, cipher: Term, pass: Term, p: Path, k: Name)
    requires Sound(root, cipher, pass) && !MetaKey(p, k)
    ensures GetEncrypted(root, cipher, p, k) == GetPlain(View(root, cipher), p, k)
  {
    ViewObserved(root, cipher);
  }

  /** Both succeed, or both fail with the same error. */
  predicate SameOutcome(a: Result<Bucket, Error>, b: Result<Bucket, Error>)
  {
    (a.Ok? <==> b.Ok?) && (a.Err? && b.Err? ==> a.error == b.error)
  }

  /** A namespace with the name of a metadata entry: the stored value is in its way, and the plain map has none. */
  predicate NamesMeta(op: NsOp)
  {
    (op.Ensure? || op.DeleteNamespace?) && MetaKey(op.path, op.name)
  }

  predicate WritesMeta(op: NsOp)
  {
    (op.PutEncrypted? || op.Delete?) && MetaKey(op.path, op.key)
  }

  /** Encrypted store and plain map answer alike if and only if the call names no namespace after a metadata entry. */
  lemma OutcomesAgree(root: Bucket, cipher: Term, pass: Term, op: NsOp)
    requires Sound(root, cipher, pass)
    ensures SameOutcome(Apply(root, cipher, op), ApplyPlain(View(root, cipher), op)) <==> !NamesMeta(op)
  {
    ViewObserved(root, cipher);
    if IsBucket(root, op.path) {
      var n := match op case Ensure(_, n) => n case PutEncrypted(_, k, _, _) => k
                        case Delete(_, k) => k case DeleteNamespace(_, n) => n;
      ViewKeys(root, cipher, pass, op.path, n);
      if NamesMeta(op) {
        MetaHidden(root, cipher, pass, n);
      }
    }
  }

  /** A metadata entry is a value in the store and nothing in the view. */
  lemma MetaHidden(root: Bucket, cipher: Term, pass: Term, k: Name)
    requires Sound(root, cipher, pass) && MetaKey(META, k)
    ensures k != "" && k in Find(root, META).value.vals && k !in Find(root, META).value.subs
    ensures IsBucket(View(root, cipher), META)
    ensures k !in Find(View(root, cipher), META).value.vals && k !in Find(View(root, cipher), META).value.subs
  {
    MetaNeverOpens(root, cipher, pass, cipher, META, k);
    SubIsBucket(root, META, k);
    ViewKeys(root, cipher, pass, META, k);
    ViewObserved(root, cipher);
    assert ValueAt(View(root, cipher), META, k).None?;
  }

  lemma EnsureView(root: Bucket, cipher: Term, p: Path, n: Name)
    requires EnsureAt(root, p, n).Ok? && EnsureAt(View(root, cipher), p, n).Ok?
    ensures EnsureAt(View(root, cipher), p, n).value == View(EnsureAt(root, p, n).value, cipher)
  {
    var v := View(root, cipher);
    EnsureObserved(root, p, n);
    EnsureObserved(v, p, n);
    ViewObserved(root, cipher);
    ViewObserved(EnsureAt(root, p, n).value, cipher);
    TreeExtensionality(EnsureAt(v, p, n).value, View(EnsureAt(root, p, n).value, cipher));
  }

  lemma PutView(root: Bucket, cipher: Term, p: Path, k: Name, x: Term, nonce: nat)
    requires PutAt(root, p, k, Seal(cipher, nonce, x)).Ok? && PutAt(View(root, cipher), p, k, x).Ok?
    ensures PutAt(View(root, cipher), p, k, x).value == View(PutAt(root, p, k, Seal(cipher, nonce, x)).value, cipher)
  {
    var v := View(root, cipher);
    PutObserved(root, p, k, Seal(cipher, nonce, x));
    PutObserved(v, p, k, x);
    ViewObserved(root, cipher);
    ViewObserved(PutAt(root, p, k, Seal(cipher, nonce, x)).value, cipher);
    TreeExtensionality(PutAt(v, p, k, x).value, View(PutAt(root, p, k, Seal(cipher, nonce, x)).value, cipher));
  }

  lemma DeleteView(root: Bucket, cipher: Term, p: Path, k: Name)
    requires DeleteAt(root, p, k).Ok? && DeleteAt(View(root, cipher), p, k).Ok?
    ensures DeleteAt(View(root, cipher), p, k).value == View(DeleteAt(root, p, k).value, cipher)
  {
    var v := View(root, cipher);
    DeleteObserved(root, p, k);
    DeleteObserved(v, p, k);
    ViewObserved(root, cipher);
    ViewObserved(DeleteAt(root, p, k).value, cipher);
    TreeExtensionality(DeleteAt(v, p, k).value, View(DeleteAt(root, p, k).value, cipher));
  }

  lemma DeleteNamespaceView(root: Bucket, cipher: Term, p: Path, n: Name)
    requires DeleteBucketAt(root, p, n).Ok? && DeleteBucketAt(View(root, cipher), p, n).Ok?
    ensures DeleteBucketAt(View(root, cipher), p, n).value == View(DeleteBucketAt(root, p, n).value, cipher)
  {
    var v := View(root, cipher);
    DeleteBucketObserved(root, p, n);
    DeleteBucketObserved(v, p, n);
    ViewObserved(root, cipher);
    ViewObserved(DeleteBucketAt(root, p, n).value, cipher);
    TreeExtensionality(DeleteBucketAt(v, p, n).value, View(DeleteBucketAt(root, p, n).value, cipher));
  }

  /** A successful namespace call on the encrypted tree, whatever it names, is the same call on its view. */
  lemma ApplyRefines(root: Bucket, cipher: Term, pass: Term, op: NsOp)
    requires Sound(root, cipher, pass) && Apply(root, cipher, op).Ok?
    ensures ApplyPlain(View(root, cipher), op) == Ok(View(Apply(root, cipher, op).value, cipher))
  {
    if NamesMeta(op) {
      MetaHidden(root, cipher, pass, op.name);
    }
    OutcomesAgree(root, cipher, pass, op);
    match op
    case Ensure(p, n) => EnsureView(root, cipher, p, n);
    case PutEncrypted(p, k, x, nonce) => PutView(root, cipher, p, k, x, nonce);
    case Delete(p, k) => DeleteView(root, cipher, p, k);
    case DeleteNamespace(p, n) => DeleteNamespaceView(root, cipher, p, n);
  }

  // ---- The invariant is kept ----

  /** What a namespace call may do to a sound store. */
  ghost predicate Extends(root: Bucket, u: Bucket, cipher: Term)
  {
    && (forall q, k :: ValueAt(u, q, k).Some? ==> q != [] && k != "" && !IsBucket(u, q + [k]))
    && (forall n :: IsBucket(root, [n]) ==> IsBucket(u, [n]))
    && (forall k :: MetaKey(META, k) ==> ValueAt(u, META, k) == ValueAt(root, META, k))
    && (forall q, k :: ValueAt(u, q, k).Some? && !MetaKey(q, k) ==>
                         ValueAt(u, q, k).value.Seal? && ValueAt(u, q, k).value.key == cipher)
  }

  lemma ExtendsSound(root: Bucket, u: Bucket, cipher: Term, pass: Term)
    requires Sound(root, cipher, pass) && Extends(root, u, cipher)
    ensures Sound(u, cipher, pass)
  {
    assert MetaKey(META, WRAPPED_KEY) && MetaKey(META, WRAPPED_SALT);
    assert MetaKey(META, DERIVE_SALT) && MetaKey(META, SECRET_SALT);
    assert ReadMeta(u) == ReadMeta(root);
    assert u.vals == map[] by {
      forall k
        ensures k !in u.vals
      {
        assert Find(u, []) == Some(u) && ValueAt(u, [], k).None?;
      }
    }
  }

  lemma RootHoldsNoValue(root: Bucket, k: Name)
    requires WellFormed(root)
    ensures ValueAt(root, [], k).None?
  {
    assert Find(root, []) == Some(root);
  }

  lemma EnsureKeeps(root: Bucket, cipher: Term, pass: Term, p: Path, n: Name)
    requires Sound(root, cipher, pass) && Allowed(Ensure(p, n)) && EnsureAt(root, p, n).Ok?
    ensures Extends(root, EnsureAt(root, p, n).value, cipher)
  {
    var u := EnsureAt(root, p, n).value;
    EnsureObserved(root, p, n);
    forall q, k | ValueAt(u, q, k).Some?
      ensures q != [] && k != "" && !IsBucket(u, q + [k])
    {
      RootHoldsNoValue(root, k);
      if q + [k] == p + [n] {
        assert (q + [k])[|q|] == k && (p + [n])[|p|] == n;
        assert q == (q + [k])[..|q|] == (p + [n])[..|p|] == p;
        SubIsBucket(root, p, n);
      }
    }
  }

  lemma PutKeeps(root: Bucket, cipher: Term, pass: Term, p: Path, k: Name, x: Term, nonce: nat)
    requires Sound(root, cipher, pass) && !MetaKey(p, k) && PutAt(root, p, k, Seal(cipher, nonce, x)).Ok?
    ensures Extends(root, PutAt(root, p, k, Seal(cipher, nonce, x)).value, cipher)
  {
    var u := PutAt(root, p, k, Seal(cipher, nonce, x)).value;
    PutObserved(root, p, k, Seal(cipher, nonce, x));
    SubIsBucket(root, p, k);
    forall q, k' | ValueAt(u, q, k').Some?
      ensures q != [] && k' != "" && !IsBucket(u, q + [k'])
    {
      RootHoldsNoValue(root, k');
    }
  }

  lemma DeleteKeeps(root: Bucket, cipher: Term, pass: Term, p: Path, k: Name)
    requires Sound(root, cipher, pass) && !MetaKey(p, k) && DeleteAt(root, p, k).Ok?
    ensures Extends(root, DeleteAt(root, p, k).value, cipher)
  {
    var u := DeleteAt(root, p, k).value;
    DeleteObserved(root, p, k);
    forall q, k' | ValueAt(u, q, k').Some?
      ensures q != [] && k' != "" && !IsBucket(u, q + [k'])
    {
      RootHoldsNoValue(root, k');
    }
  }

  lemma DeleteNamespaceKeeps(root: Bucket, cipher: Term, pass: Term, p: Path, n: Name)
    requires Sound(root, cipher, pass) && DeleteBucketAt(root, p, n).Ok?
    ensures Extends(root, DeleteBucketAt(root, p, n).value, cipher)
  {
    var u := DeleteBucketAt(root, p, n).value;
    DeleteBucketObserved(root, p, n);
    assert forall x: Name :: |p + [n]| > |[x]|;
    forall q, k | ValueAt(u, q, k).Some?
      ensures q != [] && k != "" && !IsBucket(u, q + [k])
    {
      RootHoldsNoValue(root, k);
    }
  }

  /** A successful call keeps the invariant if and only if it writes none of the four metadata entries. */
  lemma ApplySound(root: Bucket, cipher: Term, pass: Term, op: NsOp)
    requires Sound(root, cipher, pass) && Apply(root, cipher, op).Ok?
    ensures Sound(Apply(root, cipher, op).value, cipher, pass) <==> !WritesMeta(op)
    ensures ExtractCipher(Apply(root, cipher, op).value, pass) == Ok(cipher) <==> !WritesMeta(op)
    ensures Provisioned(root) && !WritesMeta(op) ==> Provisioned(Apply(root, cipher, op).value)
  {
    if WritesMeta(op) {
      MetaOverwritten(root, cipher, pass, op);
    } else {
      OtherCallsKeep(root, cipher, pass, op);
    }
  }

  lemma OtherCallsKeep(root: Bucket, cipher: Term, pass: Term, op: NsOp)
    requires Sound(root, cipher, pass) && Apply(root, cipher, op).Ok? && !WritesMeta(op)
    ensures Sound(Apply(root, cipher, op).value, cipher, pass)
    ensures Provisioned(root) ==> Provisioned(Apply(root, cipher, op).value)
  {
    if NamesMeta(op) {
      MetaHidden(root, cipher, pass, op.name);
    }
    match op
    case Ensure(p, n) => EnsureKeeps(root, cipher, pass, p, n);
    case PutEncrypted(p, k, x, nonce) => PutKeeps(root, cipher, pass, p, k, x, nonce);
    case Delete(p, k) => DeleteKeeps(root, cipher, pass, p, k);
    case DeleteNamespace(p, n) => DeleteNamespaceKeeps(root, cipher, pass, p, n);
    ExtendsSound(root, Apply(root, cipher, op).value, cipher, pass);
  }

  lemma MetaOverwritten(root: Bucket, cipher: Term, pass: Term, op: NsOp)
    requires Sound(root, cipher, pass) && Apply(root, cipher, op).Ok? && WritesMeta(op)
    ensures ExtractCipher(Apply(root, cipher, op).value, pass) != Ok(cipher)
  {
    var u := Apply(root, cipher, op).value;
    LabelsDiffer();
    MetaNamesDistinct();
    if op.Delete? {
      DeleteObserved(root, op.path, op.key);
      assert ReadMeta(u).None?;
    } else {
      PutObserved(root, op.path, op.key, Seal(cipher, op.nonce, op.value));
    }
  }

  /** A failing call leaves the tree as it was. */
  function Attempt(r: Result<Bucket, Error>, before: Bucket): (after: Bucket)
  {
    match r case Ok(w) => w case Err(_) => before
  }

  /** One call, failing or not, keeps the invariant and the agreement with the plain map exactly if it is allowed. */
  lemma CallRefinesIff(root: Bucket, cipher: Term, pass: Term, op: NsOp)
    requires Sound(root, cipher, pass)
    ensures var u := Attempt(Apply(root, cipher, op), root);
            var v := View(root, cipher);
            && (Sound(u, cipher, pass) && View(u, cipher) == Attempt(ApplyPlain(v, op), v) <==> Allowed(op))
            && (Provisioned(root) && Allowed(op) ==> Provisioned(u))
  {
    if Allowed(op) {
      AllowedCallRefines(root, cipher, pass, op);
    } else if op.Ensure? {
      MetaHidden(root, cipher, pass, op.name);
      var v := View(root, cipher);
      EnsureObserved(v, META, op.name);
      SubIsBucket(v, META, op.name);
      assert IsBucket(EnsureAt(v, META, op.name).value, META + [op.name]);
    } else {
      MetaHidden(root, cipher, pass, op.key);
      ApplySound(root, cipher, pass, op);
    }
  }

  lemma AllowedCallRefines(root: Bucket, cipher: Term, pass: Term, op: NsOp)
    requires Sound(root, cipher, pass) && Allowed(op)
    ensures var u := Attempt(Apply(root, cipher, op), root);
            && Sound(u, cipher, pass)
            && View(u, cipher) == Attempt(ApplyPlain(View(root, cipher), op), View(root, cipher))
            && (Provisioned(root) ==> Provisioned(u))
  {
    if NamesMeta(op) {
      MetaHidden(root, cipher, pass, op.name);
    }
    OutcomesAgree(root, cipher, pass, op);
    if Apply(root, cipher, op).Ok? {
      ApplyRefines(root, cipher, pass, op);
      ApplySound(root, cipher, pass, op);
    }
  }

  // ---- Opening ----

  const NAMESPACES: seq<Name> := [DEFAULT_NAMESPACE, SETTINGS_NAMESPACE, PEERS_NAMESPACE, SESSIONS_NAMESPACE]

  predicate Provisioned(root: Bucket)
  {
    forall i :: 0 <= i < |NAMESPACES| ==> IsBucket(root, [NAMESPACES[i]])
  }

  function EnsureAll(root: Bucket, names: seq<Name>): (r: Result<Bucket, Error>)
    decreases |names|
  {
    if names == [] then Ok(root)
    else match EnsureAt(root, [], names[0]) case Err(e) => Err(e) case Ok(u) => EnsureAll(u, names[1..])
  }

  /** NewBoltDB on the tree found in the file: provision, then extract or create the cipher. */
  function OpenSpec(found: Bucket, pass: Term, rnd: Random): (r: Outcome)
  {
    match EnsureAll(found, NAMESPACES)
    case Err(_) => Outcome(false, found, pass)
    case Ok(root) =>
      match ExtractCipher(root, pass)
      case Ok(c) => Outcome(true, root, c)
      case Err(MissingItem) => (
        match PutAll(root, CreatedMeta(pass, rnd))
        case Err(_) => Outcome(false, root, pass)
        case Ok(w) => Outcome(true, w, DataCipher(rnd.secret, Atom(rnd.secretSalt))))
      case Err(_) => Outcome(false, root, pass)
  }

  lemma {:induction false} EnsureAllPresent(root: Bucket, names: seq<Name>)
    requires forall i :: 0 <= i < |names| ==> IsBucket(root, [names[i]])
    ensures EnsureAll(root, names) == Ok(root)
    decreases |names|
  {
    if names != [] {
      assert Find(root, []) == Some(root);
      SubIsBucket(root, [], names[0]);
      assert [] + [names[0]] == [names[0]];
      EnsureAllPresent(root, names[1..]);
    }
  }

  lemma {:induction false} EnsureAllFresh(root: Bucket, names: seq<Name>)
    requires root.vals == map[]
    requires forall i :: 0 <= i < |names| ==> names[i] != ""
    ensures EnsureAll(root, names).Ok?
    ensures forall q :: IsBucket(EnsureAll(root, names).value, q) <==>
                        IsBucket(root, q) || exists i :: 0 <= i < |names| && q == [names[i]]
    ensures forall q, k :: ValueAt(EnsureAll(root, names).value, q, k) == ValueAt(root, q, k)
    ensures EnsureAll(root, names).value.vals == map[]
    decreases |names|
  {
    if names != [] {
      assert Find(root, []) == Some(root);
      EnsureObserved(root, [], names[0]);
      var u := EnsureAt(root, [], names[0]).value;
      assert [] + [names[0]] == [names[0]];
      EnsureAllFresh(u, names[1..]);
      var w := EnsureAll(root, names).value;
      forall q
        ensures IsBucket(w, q) <==> IsBucket(root, q) || exists i :: 0 <= i < |names| && q == [names[i]]
      {
        if IsBucket(w, q) && !IsBucket(u, q) {
          var i :| 0 <= i < |names[1..]| && q == [names[1..][i]];
          assert q == [names[i + 1]];
        }
        if i :| 0 <= i < |names| && q == [names[i]] {
          assert i > 0 ==> q == [names[1..][i - 1]];
        }
      }
    }
  }

  lemma NamespacesSlashFree()
    ensures forall i :: 0 <= i < |NAMESPACES| ==> '/' !in NAMESPACES[i]
  {
  }

  /** The tree NewBoltDB finds after provisioning an empty file. */
  lemma ProvisionedEmpty()
    ensures EnsureAll(EMPTY, NAMESPACES).Ok?
    ensures var root := EnsureAll(EMPTY, NAMESPACES).value;
            && (forall q :: IsBucket(root, q) <==>
                            q == [] || exists i :: 0 <= i < |NAMESPACES| && q == [NAMESPACES[i]])
            && (forall q, k :: ValueAt(root, q, k).None?)
            && WellFormed(root) && IsBucket(root, META) && Provisioned(root)
            && (forall q :: IsBucket(root, q) ==> SlashFree(q))
            && (forall k :: !IsBucket(root, META + [k]))
  {
    EnsureAllFresh(EMPTY, NAMESPACES);
    var root := EnsureAll(EMPTY, NAMESPACES).value;
    assert forall q, k :: ValueAt(EMPTY, q, k).None?;
    assert forall q :: IsBucket(EMPTY, q) <==> q == [];
    assert META == [NAMESPACES[0]];
    NamespacesSlashFree();
    forall q | IsBucket(root, q)
      ensures SlashFree(q) && |q| <= 1
    {
    }
    forall k
      ensures !IsBucket(root, META + [k])
    {
      assert |META + [k]| == 2;
    }
  }

  /** Opening an empty file: any passphrase is accepted and becomes the one that opens it. */
  lemma OpenCreates(pass: Term, rnd: Random)
    ensures var r := OpenSpec(EMPTY, pass, rnd);
            && r.ok && Sound(r.root, r.cipher, pass) && Provisioned(r.root)
            && View(r.root, r.cipher) == EnsureAll(EMPTY, NAMESPACES).value
  {
    ProvisionedEmpty();
    var root := EnsureAll(EMPTY, NAMESPACES).value;
    var kvs := CreatedMeta(pass, rnd);
    var c := DataCipher(rnd.secret, Atom(rnd.secretSalt));
    DataKeyMetaSound(root, pass, rnd, kvs);
    assert ValueAt(root, META, SECRET_SALT).None?;
    assert ReadMeta(root).None?;
    EmptyView(root, c);
    SameViewSameBuckets(root, c, PutAll(root, kvs).value, c);
  }

  /** A concrete lock-out: in a new store, writing the wrapped key succeeds, and then no passphrase opens the file. */
  lemma MetaWriteLocksOut(pass: Term, rnd: Random, other: Term)
    ensures var r := OpenSpec(EMPTY, pass, rnd);
            var w := Apply(r.root, r.cipher, PutEncrypted(META, WRAPPED_KEY, Atom([]), 0));
            w.Ok? && ExtractCipher(w.value, other) == Err(DecryptFailed)
  {
    OpenCreates(pass, rnd);
    LabelsDiffer();
    MetaNamesDistinct();
    var r := OpenSpec(EMPTY, pass, rnd);
    MetaHidden(r.root, r.cipher, pass, WRAPPED_KEY);
    PutObserved(r.root, META, WRAPPED_KEY, Seal(r.cipher, 0, Atom([])));
  }

  /** Whatever is in the file, an opening that succeeds leaves a tree the passphrase opens to the cipher in memory. */
  lemma OpenedMeansOpen(found: Bucket, pass: Term, rnd: Random)
    ensures var r := OpenSpec(found, pass, rnd);
            r.ok ==> EnsureAll(found, NAMESPACES).Ok? && ExtractCipher(r.root, pass) == Ok(r.cipher)
  {
    if EnsureAll(found, NAMESPACES).Ok? && PutAll(EnsureAll(found, NAMESPACES).value, CreatedMeta(pass, rnd)).Ok? {
      MetaWritten(EnsureAll(found, NAMESPACES).value, pass, rnd, CreatedMeta(pass, rnd));
    }
  }

  lemma EmptyView(root: Bucket, key: Term)
    requires forall q, k :: ValueAt(root, q, k).None?
    ensures View(root, key) == root
  {
    ViewObserved(root, key);
    TreeExtensionality(View(root, key), root);
  }

  lemma SameViewSameBuckets(a: Bucket, ka: Term, b: Bucket, kb: Term)
    requires View(a, ka) == View(b, kb) && Provisioned(a)
    ensures Provisioned(b)
  {
    ViewObserved(a, ka);
    ViewObserved(b, kb);
  }

  // ---- Runs ----

  /** The stored tree and in-memory cipher, beside the passphrase and plain map they should stand for. */
  datatype State = State(root: Bucket, cipher: Term, pass: Term, plain: Bucket)

  datatype Event =
    // A transaction: failing calls change nothing; the callback's own error rolls all of it back.
    | Command(ops: seq<NsOp>, commit: bool)
    | RotatePassphrase(old_: Term, new_: Term, rnd: Random)
    | RotateDataKey(old_: Term, new_: Term, rnd: Random, es: seq<Entry>, nonces: seq<nat>)
    | Reopen(attempt: Term, rnd: Random)

  function Execute(root: Bucket, cipher: Term, ops: seq<NsOp>): (r: Bucket)
  {
    if ops == [] then root
    else
      var u := Execute(root, cipher, ops[..|ops| - 1]);
      Attempt(Apply(u, cipher, ops[|ops| - 1]), u)
  }

  function ExecutePlain(plain: Bucket, ops: seq<NsOp>): (r: Bucket)
  {
    if ops == [] then plain
    else
      var u := ExecutePlain(plain, ops[..|ops| - 1]);
      Attempt(ApplyPlain(u, ops[|ops| - 1]), u)
  }

  lemma ExecuteOne(root: Bucket, cipher: Term, op: NsOp)
    ensures Execute(root, cipher, [op]) == Attempt(Apply(root, cipher, op), root)
  {
    assert [op][..0] == [];
    assert Execute(root, cipher, [op][..0]) == root;
  }

  /** A transaction runs its calls in order: the first, then the others on what it left. */
  lemma {:induction false} ExecuteInOrder(root: Bucket, cipher: Term, op: NsOp, ops: seq<NsOp>)
    ensures Execute(root, cipher, [op] + ops) == Execute(Attempt(Apply(root, cipher, op), root), cipher, ops)
    decreases |ops|
  {
    if ops == [] {
      assert [op] + ops == [op];
      ExecuteOne(root, cipher, op);
    } else {
      var n := |ops| - 1;
      ExecuteInOrder(root, cipher, op, ops[..n]);
      assert ([op] + ops)[..1 + n] == [op] + ops[..n];
    }
  }

  lemma {:induction false} ExecuteRefines(root: Bucket, cipher: Term, pass: Term, ops: seq<NsOp>)
    requires Sound(root, cipher, pass) && Provisioned(root)
    requires forall i :: 0 <= i < |ops| ==> Allowed(ops[i])
    ensures Sound(Execute(root, cipher, ops), cipher, pass) && Provisioned(Execute(root, cipher, ops))
    ensures View(Execute(root, cipher, ops), cipher) == ExecutePlain(View(root, cipher), ops)
  {
    if ops != [] {
      var init, op := ops[..|ops| - 1], ops[|ops| - 1];
      ExecuteRefines(root, cipher, pass, init);
      CallRefinesIff(Execute(root, cipher, init), cipher, pass, op);
    }
  }

  ghost predicate ValidEvent(s: State, e: Event)
  {
    match e
    case Command(ops, _) => forall i :: 0 <= i < |ops| ==> Allowed(ops[i])
    case RotateDataKey(o, _, rnd, es, nonces) =>
      && Enumerates(s.root, es) && |nonces| >= |es| && Unused(s.root, DataCipher(rnd.secret, Atom(rnd.secretSalt)))
      && (o == s.pass ==> Routed(s.root, s.cipher))
    case _ => true
  }

  ghost function Next(s: State, e: Event): (r: State)
    requires ValidEvent(s, e)
  {
    match e
    case Command(ops, commit) =>
      if commit then s.(root := Execute(s.root, s.cipher, ops), plain := ExecutePlain(s.plain, ops)) else s
    case RotatePassphrase(o, n, rnd) =>
      var r := RotatePassphraseSpec(s.root, s.cipher, o, n, rnd);
      State(r.root, r.cipher, if r.ok then n else s.pass, s.plain)
    case RotateDataKey(o, n, rnd, es, nonces) =>
      var r := RotateDataKeySpec(s.root, s.cipher, o, n, rnd, es, nonces);
      State(r.root, r.cipher, if r.ok then n else s.pass, s.plain)
    case Reopen(attempt, rnd) =>
      var r := OpenSpec(s.root, attempt, rnd);
      if r.ok then State(r.root, r.cipher, attempt, s.plain) else s.(root := r.root)
  }

  /** The encrypted store stands for its plain map. */
  ghost predicate Refines(s: State)
  {
    && Sound(s.root, s.cipher, s.pass)
    && Provisioned(s.root)
    && View(s.root, s.cipher) == s.plain
  }

  lemma NextRefines(s: State, e: Event)
    requires Refines(s) && ValidEvent(s, e)
    ensures Refines(Next(s, e))
  {
    match e
    case Command(ops, commit) =>
      ExecuteRefines(s.root, s.cipher, s.pass, ops);
    case RotatePassphrase(o, n, rnd) =>
      RotatePassphraseCorrect(s.root, s.cipher, s.pass, o, n, rnd);
      SameViewSameBuckets(s.root, s.cipher, Next(s, e).root, Next(s, e).cipher);
    case RotateDataKey(o, n, rnd, es, nonces) =>
      RotateDataKeyCorrect(s.root, s.cipher, s.pass, o, n, rnd, es, nonces);
      SameViewSameBuckets(s.root, s.cipher, Next(s, e).root, Next(s, e).cipher);
    case Reopen(attempt, rnd) =>
      ReopenIff(s, attempt, rnd);
  }

  /** Reopening succeeds exactly with the most recent passphrase and yields the same tree and cipher. */
  lemma ReopenIff(s: State, attempt: Term, rnd: Random)
    requires Refines(s)
    ensures OpenSpec(s.root, attempt, rnd).ok <==> attempt == s.pass
    ensures OpenSpec(s.root, attempt, rnd).root == s.root
    ensures OpenSpec(s.root, attempt, rnd).ok ==> OpenSpec(s.root, attempt, rnd).cipher == s.cipher
  {
    EnsureAllPresent(s.root, NAMESPACES);
    OnlyPassphraseOpens(s.root, s.cipher, s.pass, attempt);
  }

  ghost predicate ValidRun(s: State, events: seq<Event>)
    decreases |events|
  {
    events == [] || (ValidEvent(s, events[0]) && ValidRun(Next(s, events[0]), events[1..]))
  }

  ghost function Run(s: State, events: seq<Event>): (r: State)
    requires ValidRun(s, events)
    decreases |events|
  {
    if events == [] then s else Run(Next(s, events[0]), events[1..])
  }

  /** Every run of commands, rotations and reopenings, in any order, refines the plain map. */
  lemma {:induction false} RunRefines(s: State, events: seq<Event>)
    requires Refines(s) && ValidRun(s, events)
    ensures Refines(Run(s, events))
    decreases |events|
  {
    if events != [] {
      NextRefines(s, events[0]);
      RunRefines(Next(s, events[0]), events[1..]);
    }
  }

  /** ...from a freshly created store, closed and reopened at the end with the most recent passphrase. */
  lemma ReopenedRunReadsTheSame(pass: Term, rnd: Random, events: seq<Event>, rnd': Random, p: Path, k: Name)
    requires var r := OpenSpec(EMPTY, pass, rnd);
             ValidRun(State(r.root, r.cipher, pass, View(r.root, r.cipher)), events)
    requires !MetaKey(p, k)
    ensures var r := OpenSpec(EMPTY, pass, rnd);
            var s := Run(State(r.root, r.cipher, pass, View(r.root, r.cipher)), events);
            var again := OpenSpec(s.root, s.pass, rnd');
            && again.ok
            && View(again.root, again.cipher) == s.plain
            && GetEncrypted(again.root, again.cipher, p, k) == GetPlain(s.plain, p, k)
  {
    OpenCreates(pass, rnd);
    var r := OpenSpec(EMPTY, pass, rnd);
    var s0 := State(r.root, r.cipher, pass, View(r.root, r.cipher));
    RunRefines(s0, events);
    var s := Run(s0, events);
    ReopenIff(s, s.pass, rnd');
    GetRefines(s.root, s.cipher, s.pass, p, k);
  }

  // ---- Runs that name no bucket with a slash may rotate whenever they like ----

  ghost predicate SlashFreeTree(b: Bucket)
  {
    forall p :: IsBucket(b, p) ==> SlashFree(p)
  }

  predicate SlashFreeName(op: NsOp)
  {
    op.Ensure? ==> '/' !in op.name
  }

  lemma ApplySlashFree(root: Bucket, cipher: Term, op: NsOp)
    requires SlashFreeTree(root) && SlashFreeName(op) && Apply(root, cipher, op).Ok?
    ensures SlashFreeTree(Apply(root, cipher, op).value)
  {
    match op
    case Ensure(p, n) =>
      EnsureObserved(root, p, n);
      assert SlashFree(p + [n]);
    case PutEncrypted(p, k, x, nonce) => PutObserved(root, p, k, Seal(cipher, nonce, x));
    case Delete(p, k) => DeleteObserved(root, p, k);
    case DeleteNamespace(p, n) => DeleteBucketObserved(root, p, n);
  }

  lemma {:induction false} ExecuteSlashFree(root: Bucket, cipher: Term, ops: seq<NsOp>)
    requires SlashFreeTree(root) && forall i :: 0 <= i < |ops| ==> SlashFreeName(ops[i])
    ensures SlashFreeTree(Execute(root, cipher, ops))
  {
    if ops != [] {
      var n := |ops| - 1;
      ExecuteSlashFree(root, cipher, ops[..n]);
      if Apply(Execute(root, cipher, ops[..n]), cipher, ops[n]).Ok? {
        ApplySlashFree(Execute(root, cipher, ops[..n]), cipher, ops[n]);
      }
    }
  }

  /** An event whose only conditions are on names and freshness, not on the shape of the tree. */
  ghost predicate SlashFreeEvent(s: State, e: Event)
  {
    match e
    case Command(ops, _) => forall i :: 0 <= i < |ops| ==> Allowed(ops[i]) && SlashFreeName(ops[i])
    case RotateDataKey(_, _, rnd, es, nonces) =>
      Enumerates(s.root, es) && |nonces| >= |es| && Unused(s.root, DataCipher(rnd.secret, Atom(rnd.secretSalt)))
    case _ => true
  }

  ghost predicate SlashFreeRun(s: State, events: seq<Event>)
    decreases |events|
  {
    events == [] ||
    (SlashFreeEvent(s, events[0]) && (ValidEvent(s, events[0]) ==> SlashFreeRun(Next(s, events[0]), events[1..])))
  }

  lemma NextSlashFree(s: State, e: Event)
    requires Refines(s) && SlashFreeTree(s.root) && SlashFreeEvent(s, e)
    ensures ValidEvent(s, e) && SlashFreeTree(Next(s, e).root)
  {
    SlashFreeIsHome(s.root);
    HomeIsRouted(s.root, s.cipher);
    var t := Next(s, e);
    NextRefines(s, e);
    if e.Command? {
      ExecuteSlashFree(s.root, s.cipher, e.ops);
    } else {
      ViewObserved(s.root, s.cipher);
      ViewObserved(t.root, t.cipher);
    }
  }

  /** In such a run every rotation finds a tree whose paths lead home. */
  lemma {:induction false} SlashFreeRunIsValid(s: State, events: seq<Event>)
    requires Refines(s) && SlashFreeTree(s.root) && SlashFreeRun(s, events)
    ensures ValidRun(s, events) && SlashFreeTree(Run(s, events).root)
    decreases |events|
  {
    if events != [] {
      NextSlashFree(s, events[0]);
      NextRefines(s, events[0]);
      SlashFreeRunIsValid(Next(s, events[0]), events[1..]);
    }
  }

  /** A new store starts that way. */
  lemma CreatedSlashFree(pass: Term, rnd: Random)
    ensures SlashFreeTree(OpenSpec(EMPTY, pass, rnd).root)
  {
    ProvisionedEmpty();
    OpenCreates(pass, rnd);
    var r := OpenSpec(EMPTY, pass, rnd);
    ViewObserved(r.root, r.cipher);
  }

  /**
   From a new file, any run of transactions that name no bucket with a slash, both
   rotations and reopenings, closed and reopened at the end, reads as the plain map.
   */
  lemma SlashFreeRunReadsTheSame(pass: Term, rnd: Random, events: seq<Event>, rnd': Random, p: Path, k: Name)
    requires var r := OpenSpec(EMPTY, pass, rnd);
             SlashFreeRun(State(r.root, r.cipher, pass, View(r.root, r.cipher)), events)
    requires !MetaKey(p, k)
    ensures var r := OpenSpec(EMPTY, pass, rnd);
            var s0 := State(r.root, r.cipher, pass, View(r.root, r.cipher));
            && ValidRun(s0, events)
            && var s := Run(s0, events);
               var again := OpenSpec(s.root, s.pass, rnd');
               && again.ok
               && View(again.root, again.cipher) == s.plain
               && GetEncrypted(again.root, again.cipher, p, k) == GetPlain(s.plain, p, k)
  {
    var r := OpenSpec(EMPTY, pass, rnd);
    OpenCreates(pass, rnd);
    CreatedSlashFree(pass, rnd);
    SlashFreeRunIsValid(State(r.root, r.cipher, pass, View(r.root, r.cipher)), events);
    ReopenedRunReadsTheSame(pass, rnd, events, rnd', p, k);
  }

  // ---- The class ----

  class BoltStore {
    var root: Bucket
    var cipher: Term

    ghost predicate Valid(pass: Term)
      reads this
    {
      Sound(root, cipher, pass) && Provisioned(root)
    }

    /** Command: run the calls in a transaction and keep it if the callback returns no error. */
    method Command(ops: seq<NsOp>, commit: bool, ghost pass: Term)
      requires Valid(pass)
      requires forall i :: 0 <= i < |ops| ==> Allowed(ops[i])
      modifies this
      ensures Valid(pass) && cipher == old(cipher)
      ensures View(root, cipher) ==
              if commit then ExecutePlain(old(View(root, cipher)), ops) else old(View(root, cipher))
      ensures !commit ==> root == old(root)
      ensures root == Next(State(old(root), cipher, pass, old(View(root, cipher))), Event.Command(ops, commit)).root
    {
      var tx := root;
      assert ops[..0] == [];
      for i := 0 to |ops|
        invariant tx == Execute(old(root), cipher, ops[..i])
        invariant root == old(root) && cipher == old(cipher)
      {
        assert ops[..i + 1][..i] == ops[..i];
        match Apply(tx, cipher, ops[i]) {
          case Ok(w) => tx := w;
          case Err(_) =>
        }
      }
      assert ops[..|ops|] == ops;
      ExecuteRefines(root, cipher, pass, ops);
      if commit {
        root := tx;
      }
    }

    method RotatePassphrase(old_: Term, new_: Term, rnd: Random, ghost pass: Term) returns (ok: bool)
      requires Valid(pass)
      modifies this
      ensures ok <==> old_ == pass
      ensures Valid(if ok then new_ else pass)
      ensures cipher == old(cipher)
      ensures View(root, cipher) == old(View(root, cipher))
      ensures !ok ==> root == old(root)
      ensures forall p, k :: !MetaKey(p, k) ==> ValueAt(root, p, k) == old(ValueAt(root, p, k))
    {
      RotatePassphraseCorrect(root, cipher, pass, old_, new_, rnd);
      var secret := ExtractSecret(root, old_);
      if secret.Err? {
        return false;
      }
      var tx := PutAll(root, PassphraseMeta(new_, secret.value, rnd));
      if tx.Err? {
        return false;
      }
      SameViewSameBuckets(root, cipher, tx.value, cipher);
      root := tx.value;
      var c := ExtractCipher(root, new_);
      if c.Err? {
        return false;
      }
      cipher := c.value;
      return true;
    }

    /**
     Read phase, write loop over the collected entries, metadata, then the cipher swap.
     It succeeds with every value kept exactly for the current passphrase and a tree
     whose data is found again by its paths.
     */
    method RotateDataKey(old_: Term, new_: Term, rnd: Random, rng: nat -> nat, ghost pass: Term) returns (ok: bool)
      requires Valid(pass)
      requires Unused(root, DataCipher(rnd.secret, Atom(rnd.secretSalt)))
      modifies this
      ensures ok ==> old_ == pass && cipher == DataCipher(rnd.secret, Atom(rnd.secretSalt))
      ensures !ok ==> root == old(root) && cipher == old(cipher)
      ensures ok && View(root, cipher) == old(View(root, cipher)) <==> old_ == pass && old(Routed(root, cipher))
      ensures ok && old(Routed(root, cipher)) ==> Valid(new_)
    {
      OnlyPassphraseOpens(root, cipher, pass, old_);
      var oldCipher := ExtractCipher(root, old_);
      if oldCipher.Err? {
        return false;
      }
      var newCipher := DataCipher(rnd.secret, Atom(rnd.secretSalt));
      var es := CollectAll(root);
      var nonces := seq(|es|, i requires 0 <= i < |es| => rng(i));
      RotateDataKeyCorrect(root, cipher, pass, old_, new_, rnd, es, nonces);
      var tx := WritePhase(root, es, nonces, oldCipher.value, newCipher);
      if tx.Err? {
        return false;
      }
      var done := PutAll(tx.value, DataKeyMeta(new_, rnd));
      if done.Err? {
        return false;
      }
      if Routed(root, cipher) {
        SameViewSameBuckets(root, cipher, done.value, newCipher);
      }
      root := done.value;
      cipher := newCipher;
      return true;
    }
  }

  /** The write loop: re-encrypt each entry that opens, in the bucket its path resolves to. */
  method WritePhase(root: Bucket, es: seq<Entry>, nonces: seq<nat>, old_: Term, new_: Term)
    returns (r: Result<Bucket, Error>)
    requires |nonces| >= |es|
    ensures r == WriteAll(root, es, nonces, old_, new_)
  {
    var tx := root;
    var i := 0;
    assert es[..0] == [];
    while i < |es|
      invariant 0 <= i <= |es|
      invariant WriteAll(root, es[..i], nonces, old_, new_) == Ok(tx)
    {
      assert es[..i + 1][..i] == es[..i];
      var plain := Dec(old_, es[i].value);
      if plain.Some? {
        var home := Resolve(tx, es[i].path);
        if home.Some? {
          var put := PutAt(tx, home.value, es[i].key, Seal(new_, nonces[i], plain.value));
          if put.Err? {
            WriteAllFails(root, es, i + 1, nonces, old_, new_);
            return put;
          }
          tx := put.value;
        }
      }
      i := i + 1;
    }
    assert es[..i] == es;
    return Ok(tx);
  }

  lemma {:induction false} WriteAllFails(
      t: Bucket, es: seq<Entry>, i: nat, nonces: seq<nat>, old_: Term, new_: Term)
    requires i <= |es| <= |nonces| && WriteAll(t, es[..i], nonces, old_, new_).Err?
    ensures WriteAll(t, es, nonces, old_, new_) == WriteAll(t, es[..i], nonces, old_, new_)
    decreases |es|
  {
    if i == |es| {
      assert es[..i] == es;
    } else {
      var init := es[..|es| - 1];
      assert init[..i] == es[..i];
      WriteAllFails(t, init, i, nonces, old_, new_);
    }
  }
}
