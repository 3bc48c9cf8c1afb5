/**
 BoltStore: an encrypted tree, the cipher held in memory and the key-wrapping
 metadata stored in the default namespace. Over every run of commands, both
 rotations and reopenings the store refines a plain nested map.

 Randomness (secrets, salts, nonces) is a parameter. Passphrases are terms.
 */
module Store {
  import opened Buckets
  import opened Crypto
  import opened Encoding
  import opened Paths
  import opened Rotation
  import opened Wrappers

  const DEFAULT_NAMESPACE: Name := "kamune-store"
  const SETTINGS_NAMESPACE: Name := "settings"
  const PEERS_NAMESPACE: Name := "peers"
  const SESSIONS_NAMESPACE: Name := "sessions"

  const WRAPPED_SALT: Name := "wrapped-salt"
  const WRAPPED_KEY: Name := "wrapped-key"
  const DERIVE_SALT: Name := "derive-salt"
  const SECRET_SALT: Name := "secret-salt"

  const KEK: Bytes := Ascii("key-encryption-key")
  const DEK: Bytes := Ascii("data-encryption-key")
  const DPK: Bytes := Ascii("derived-passphrase-key")

  const META: Path := [DEFAULT_NAMESPACE]

  predicate MetaKey(p: Path, k: Name)
  {
    p == META && k in [WRAPPED_SALT, WRAPPED_KEY, DERIVE_SALT, SECRET_SALT]
  }

  // ---- Ciphers and their metadata ----

  datatype CipherMeta = CipherMeta(secretSalt: Term, deriveSalt: Term, wrappedSalt: Term, wrappedKey: Term)

  function KeyCipher(pass: Term, deriveSalt: Term, wrappedSalt: Term): (r: Term)
  {
    Kdf(Kdf(pass, deriveSalt, DPK), wrappedSalt, KEK)
  }

  function DataCipher(secret: Term, secretSalt: Term): (r: Term)
  {
    Kdf(secret, secretSalt, DEK)
  }

  function ReadMeta(root: Bucket): (r: Option<CipherMeta>)
  {
    var wk, ds, ws, ss :=
      ValueAt(root, META, WRAPPED_KEY), ValueAt(root, META, DERIVE_SALT),
      ValueAt(root, META, WRAPPED_SALT), ValueAt(root, META, SECRET_SALT);
    if ss.None? || ds.None? || ws.None? || wk.None? then None
    else Some(CipherMeta(ss.value, ds.value, ws.value, wk.value))
  }

  /** The unwrapped data secret, the first half of extractCipher. */
  function ExtractSecret(root: Bucket, pass: Term): (r: Result<Term, Error>)
  {
    match ReadMeta(root)
    case None => Err(MissingItem)
    case Some(m) =>
      match Dec(KeyCipher(pass, m.deriveSalt, m.wrappedSalt), m.wrappedKey)
      case None => Err(DecryptFailed)
      case Some(secret) => Ok(secret)
  }

  /** extractCipher. */
  function ExtractCipher(root: Bucket, pass: Term): (r: Result<Term, Error>)
  {
    match ExtractSecret(root, pass)
    case Err(e) => Err(e)
    case Ok(secret) => Ok(DataCipher(secret, ReadMeta(root).value.secretSalt))
  }

  /** Raw Puts into the default namespace, in order, in one transaction. */
  function PutAll(root: Bucket, kvs: seq<(Name, Term)>): (r: Result<Bucket, Error>)
    decreases |kvs|
  {
    if kvs == [] then Ok(root)
    else
      match PutAt(root, META, kvs[0].0, kvs[0].1)
      case Err(e) => Err(e)
      case Ok(u) => PutAll(u, kvs[1..])
  }

  datatype Random = Random(secret: Term, secretSalt: Bytes, deriveSalt: Bytes, wrappedSalt: Bytes, nonce: nat)

  function Wrapped(pass: Term, secret: Term, rnd: Random): (r: Term)
  {
    Seal(KeyCipher(pass, Atom(rnd.deriveSalt), Atom(rnd.wrappedSalt)), rnd.nonce, secret)
  }

  /** The three entries RotatePassphrase rewrites. */
  function PassphraseMeta(pass: Term, secret: Term, rnd: Random): (r: seq<(Name, Term)>)
  {
    [(WRAPPED_KEY, Wrapped(pass, secret, rnd)),
     (WRAPPED_SALT, Atom(rnd.wrappedSalt)),
     (DERIVE_SALT, Atom(rnd.deriveSalt))]
  }

  /** The four entries RotateDataKey writes; createCipher writes the same in `CreatedMeta` order. */
  function DataKeyMeta(pass: Term, rnd: Random): (r: seq<(Name, Term)>)
  {
    [(SECRET_SALT, Atom(rnd.secretSalt))] + PassphraseMeta(pass, rnd.secret, rnd)
  }

  function CreatedMeta(pass: Term, rnd: Random): (r: seq<(Name, Term)>)
  {
    PassphraseMeta(pass, rnd.secret, rnd) + [(SECRET_SALT, Atom(rnd.secretSalt))]
  }

  // ---- The store's invariant ----

  /**
   `pass` opens the store to `cipher`, and every value outside the four metadata
   entries is sealed under `cipher`.
   */
  ghost predicate Sound(root: Bucket, cipher: Term, pass: Term)
  {
    && WellFormed(root)
    && IsBucket(root, META)
    && ReadMeta(root).Some?
    && ReadMeta(root).value.secretSalt.Atom?
    && ReadMeta(root).value.deriveSalt.Atom?
    && ReadMeta(root).value.wrappedSalt.Atom?
    && ReadMeta(root).value.wrappedKey.Seal?
    && ReadMeta(root).value.wrappedKey.key.Kdf?
    && ReadMeta(root).value.wrappedKey.key.info == KEK
    && cipher.Kdf? && cipher.info == DEK
    && ExtractCipher(root, pass) == Ok(cipher)
    && (forall p, k :: ValueAt(root, p, k).Some? && !MetaKey(p, k) ==>
                         ValueAt(root, p, k).value.Seal? && ValueAt(root, p, k).value.key == cipher)
  }

  lemma LabelsDiffer()
    ensures KEK != DEK
  {
    assert KEK[0] == 107 && DEK[0] == 100;
  }

  /** The metadata entries never open under a data key. */
  lemma MetaNeverOpens(root: Bucket, cipher: Term, pass: Term, key: Term, p: Path, k: Name)
    requires Sound(root, cipher, pass) && MetaKey(p, k)
    requires key.Kdf? && key.info == DEK
    ensures ValueAt(root, p, k).Some? && Opened(key, ValueAt(root, p, k)).None?
  {
    LabelsDiffer();
  }

  /** Only the current passphrase opens the store. */
  lemma OnlyPassphraseOpens(root: Bucket, cipher: Term, pass: Term, other: Term)
    requires Sound(root, cipher, pass)
    ensures ExtractCipher(root, other).Ok? <==> other == pass
  {
  }

  lemma {:induction false} PutAllObserved(root: Bucket, kvs: seq<(Name, Term)>)
    requires IsBucket(root, META)
    requires forall i :: 0 <= i < |kvs| ==> kvs[i].0 != "" && !IsBucket(root, META + [kvs[i].0])
    requires forall i, j :: 0 <= i < j < |kvs| ==> kvs[i].0 != kvs[j].0
    ensures PutAll(root, kvs).Ok?
    ensures forall q :: IsBucket(PutAll(root, kvs).value, q) <==> IsBucket(root, q)
    ensures forall q, k :: (q != META || forall i :: 0 <= i < |kvs| ==> kvs[i].0 != k) ==>
                             ValueAt(PutAll(root, kvs).value, q, k) == ValueAt(root, q, k)
    ensures forall i :: 0 <= i < |kvs| ==> ValueAt(PutAll(root, kvs).value, META, kvs[i].0) == Some(kvs[i].1)
    decreases |kvs|
  {
    if kvs != [] {
      SubIsBucket(root, META, kvs[0].0);
      PutObserved(root, META, kvs[0].0, kvs[0].1);
      var u := PutAt(root, META, kvs[0].0, kvs[0].1).value;
      PutAllObserved(u, kvs[1..]);
      forall q, k | q != META || forall i :: 0 <= i < |kvs| ==> kvs[i].0 != k
        ensures ValueAt(PutAll(root, kvs).value, q, k) == ValueAt(root, q, k)
      {
        assert forall i :: 0 <= i < |kvs[1..]| ==> kvs[1..][i] == kvs[i + 1];
      }
      forall i | 0 <= i < |kvs|
        ensures ValueAt(PutAll(root, kvs).value, META, kvs[i].0) == Some(kvs[i].1)
      {
        if i > 0 {
          assert kvs[1..][i - 1] == kvs[i];
        } else {
          assert forall j :: 0 <= j < |kvs[1..]| ==> kvs[1..][j] == kvs[j + 1];
        }
      }
    }
  }

  // ---- The two rotations ----

  datatype Outcome = Outcome(ok: bool, root: Bucket, cipher: Term)

  function RotatePassphraseSpec(root: Bucket, cipher: Term, old_: Term, new_: Term, rnd: Random): (r: Outcome)
  {
    match ExtractSecret(root, old_)
    case Err(_) => Outcome(false, root, cipher)
    case Ok(secret) =>
      match PutAll(root, PassphraseMeta(new_, secret, rnd))
      case Err(_) => Outcome(false, root, cipher)
      case Ok(u) =>
        match ExtractCipher(u, new_)
        case Err(_) => Outcome(false, u, cipher)
        case Ok(c) => Outcome(true, u, c)
  }

  function RotateDataKeySpec(
      root: Bucket, cipher: Term, old_: Term, new_: Term, rnd: Random, es: seq<Entry>, nonces: seq<nat>): (r: Outcome)
    requires |nonces| >= |es|
  {
    match ExtractCipher(root, old_)
    case Err(_) => Outcome(false, root, cipher)
    case Ok(oldCipher) =>
      var newCipher := DataCipher(rnd.secret, Atom(rnd.secretSalt));
      match WriteAll(root, es, nonces, oldCipher, newCipher)
      case Err(_) => Outcome(false, root, cipher)
      case Ok(u) =>
        match PutAll(u, DataKeyMeta(new_, rnd))
        case Err(_) => Outcome(false, root, cipher)
        case Ok(w) => Outcome(true, w, newCipher)
  }

  /** Puts that all succeeded are all there. */
  lemma {:induction false} PutAllWritten(root: Bucket, kvs: seq<(Name, Term)>, i: nat)
    requires PutAll(root, kvs).Ok? && i < |kvs|
    requires forall a, b :: 0 <= a < b < |kvs| ==> kvs[a].0 != kvs[b].0
    ensures ValueAt(PutAll(root, kvs).value, META, kvs[i].0) == Some(kvs[i].1)
    decreases |kvs|
  {
    var u := PutAt(root, META, kvs[0].0, kvs[0].1).value;
    PutObserved(root, META, kvs[0].0, kvs[0].1);
    if i > 0 {
      PutAllWritten(u, kvs[1..], i - 1);
    } else {
      PutAllElsewhere(u, kvs[1..], kvs[0].0);
    }
  }

  lemma {:induction false} PutAllElsewhere(root: Bucket, kvs: seq<(Name, Term)>, k: Name)
    requires PutAll(root, kvs).Ok? && forall i :: 0 <= i < |kvs| ==> kvs[i].0 != k
    ensures ValueAt(PutAll(root, kvs).value, META, k) == ValueAt(root, META, k)
    decreases |kvs|
  {
    if kvs != [] {
      PutObserved(root, META, kvs[0].0, kvs[0].1);
      PutAllElsewhere(PutAt(root, META, kvs[0].0, kvs[0].1).value, kvs[1..], k);
    }
  }

  /**
   Whatever tree is found, even one that is no store: a passphrase rotation that reports
   success leaves a tree that the new passphrase opens to the cipher now in memory, and
   only after the old one opened it; one that fails keeps the cipher.
   */
  lemma RotatedPassphraseOpens(root: Bucket, cipher: Term, old_: Term, new_: Term, rnd: Random)
    ensures var r := RotatePassphraseSpec(root, cipher, old_, new_, rnd);
            && (r.ok ==> ExtractSecret(root, old_).Ok? && ExtractCipher(r.root, new_) == Ok(r.cipher))
            && (!r.ok ==> r.cipher == cipher)
  {
  }

  /** The same for a data-key rotation, which changes nothing at all when it fails. */
  lemma RotatedDataKeyOpens(
      root: Bucket, cipher: Term, old_: Term, new_: Term, rnd: Random, es: seq<Entry>, nonces: seq<nat>)
    requires |nonces| >= |es|
    ensures var r := RotateDataKeySpec(root, cipher, old_, new_, rnd, es, nonces);
            && (r.ok ==> ExtractCipher(root, old_).Ok? && ExtractCipher(r.root, new_) == Ok(r.cipher))
            && (!r.ok ==> r.cipher == cipher && r.root == root)
  {
    match ExtractCipher(root, old_)
    case Err(_) =>
    case Ok(c) =>
      match WriteAll(root, es, nonces, c, DataCipher(rnd.secret, Atom(rnd.secretSalt)))
      case Err(_) =>
      case Ok(u) =>
        if PutAll(u, DataKeyMeta(new_, rnd)).Ok? {
          MetaWritten(u, new_, rnd, DataKeyMeta(new_, rnd));
        }
  }

  lemma MetaWritten(u: Bucket, new_: Term, rnd: Random, kvs: seq<(Name, Term)>)
    requires kvs == DataKeyMeta(new_, rnd) || kvs == CreatedMeta(new_, rnd)
    requires PutAll(u, kvs).Ok?
    ensures ExtractCipher(PutAll(u, kvs).value, new_) == Ok(DataCipher(rnd.secret, Atom(rnd.secretSalt)))
  {
    DataKeyEntries(new_, rnd, kvs);
    forall i | 0 <= i < |kvs|
      ensures ValueAt(PutAll(u, kvs).value, META, kvs[i].0) == Some(kvs[i].1)
    {
      PutAllWritten(u, kvs, i);
    }
    WrittenMeta(PutAll(u, kvs).value, new_, rnd, kvs);
  }

  lemma MetaNamesDistinct()
    ensures WRAPPED_KEY != WRAPPED_SALT && WRAPPED_KEY != DERIVE_SALT && WRAPPED_KEY != SECRET_SALT
    ensures WRAPPED_SALT != DERIVE_SALT && WRAPPED_SALT != SECRET_SALT && DERIVE_SALT != SECRET_SALT
  {
    assert |WRAPPED_SALT| == 12 && |WRAPPED_KEY| == |DERIVE_SALT| == |SECRET_SALT| == 11;
    assert WRAPPED_KEY[0] == 'w' && DERIVE_SALT[0] == 'd' && SECRET_SALT[0] == 's';
  }

  /** A metadata entry as the rotations write it: no data key opens it. */
  predicate MetaEntry(kv: (Name, Term))
  {
    MetaKey(META, kv.0) && (kv.1.Atom? || (kv.1.Seal? && kv.1.key.Kdf? && kv.1.key.info == KEK))
  }

  /** Rewriting metadata entries touches nothing else and is invisible to a reader. */
  lemma MetaRewrite(root: Bucket, kvs: seq<(Name, Term)>, key: Term)
    requires WellFormed(root) && IsBucket(root, META) && key.Kdf? && key.info == DEK
    requires forall i :: 0 <= i < |kvs| ==> MetaEntry(kvs[i])
    requires forall i :: 0 <= i < |kvs| ==>
               !IsBucket(root, META + [kvs[i].0]) && Opened(key, ValueAt(root, META, kvs[i].0)).None?
    requires forall i, j :: 0 <= i < j < |kvs| ==> kvs[i].0 != kvs[j].0
    ensures PutAll(root, kvs).Ok?
    ensures WellFormed(PutAll(root, kvs).value)
    ensures View(PutAll(root, kvs).value, key) == View(root, key)
    ensures forall q :: IsBucket(PutAll(root, kvs).value, q) <==> IsBucket(root, q)
    ensures forall q, k :: (q != META || forall i :: 0 <= i < |kvs| ==> kvs[i].0 != k) ==>
                             ValueAt(PutAll(root, kvs).value, q, k) == ValueAt(root, q, k)
    ensures forall i :: 0 <= i < |kvs| ==> ValueAt(PutAll(root, kvs).value, META, kvs[i].0) == Some(kvs[i].1)
  {
    PutAllObserved(root, kvs);
    LabelsDiffer();
    var u := PutAll(root, kvs).value;
    ViewObserved(root, key);
    ViewObserved(u, key);
    forall q, k
      ensures ValueAt(u, q, k).Some? ==> k != "" && !IsBucket(u, q + [k])
      ensures q == [] ==> ValueAt(u, q, k).None?
      ensures Opened(key, ValueAt(u, q, k)) == Opened(key, ValueAt(root, q, k))
    {
      if q == META && exists i :: 0 <= i < |kvs| && kvs[i].0 == k {
        var i :| 0 <= i < |kvs| && kvs[i].0 == k;
        assert MetaEntry(kvs[i]);
      }
    }
    forall q, k
      ensures ValueAt(View(u, key), q, k) == ValueAt(View(root, key), q, k)
    {
      assert ValueAt(View(u, key), q, k) == Opened(key, ValueAt(u, q, k));
    }
    TreeExtensionality(View(u, key), View(root, key));
    assert u.vals == map[] by {
      forall k
        ensures k !in u.vals
      {
        assert Find(u, []) == Some(u);
        assert ValueAt(u, [], k).None?;
      }
    }
  }

  lemma PassphraseEntries(root: Bucket, cipher: Term, pass: Term, new_: Term, secret: Term, rnd: Random)
    requires Sound(root, cipher, pass)
    ensures var kvs := PassphraseMeta(new_, secret, rnd);
            && (forall i :: 0 <= i < |kvs| ==> MetaEntry(kvs[i]))
            && (forall i :: 0 <= i < |kvs| ==>
                  !IsBucket(root, META + [kvs[i].0]) && Opened(cipher, ValueAt(root, META, kvs[i].0)).None?)
            && (forall i, j :: 0 <= i < j < |kvs| ==> kvs[i].0 != kvs[j].0)
            && (forall i :: 0 <= i < |kvs| ==> kvs[i].0 != SECRET_SALT)
  {
    var kvs := PassphraseMeta(new_, secret, rnd);
    MetaNamesDistinct();
    forall i | 0 <= i < |kvs|
      ensures MetaEntry(kvs[i])
      ensures !IsBucket(root, META + [kvs[i].0]) && Opened(cipher, ValueAt(root, META, kvs[i].0)).None?
    {
      MetaNeverOpens(root, cipher, pass, cipher, META, kvs[i].0);
    }
  }

  /**
   RotatePassphrase: succeeds exactly for the current passphrase, leaves the data
   key and every value outside the three rewritten entries alone, and from then
   on only the new passphrase opens the store.
   */
  lemma RotatePassphraseCorrect(root: Bucket, cipher: Term, pass: Term, old_: Term, new_: Term, rnd: Random)
    requires Sound(root, cipher, pass)
    ensures var r := RotatePassphraseSpec(root, cipher, old_, new_, rnd);
            && (r.ok <==> old_ == pass)
            && (!r.ok ==> r.root == root && r.cipher == cipher)
            && (r.ok ==> && Sound(r.root, r.cipher, new_)
                         && r.cipher == cipher
                         && View(r.root, cipher) == View(root, cipher)
                         && (forall p, k :: !MetaKey(p, k) ==> ValueAt(r.root, p, k) == ValueAt(root, p, k)))
  {
    if old_ == pass {
      var secret := ExtractSecret(root, old_).value;
      var kvs := PassphraseMeta(new_, secret, rnd);
      PassphraseEntries(root, cipher, pass, new_, secret, rnd);
      MetaRewrite(root, kvs, cipher);
      var u := PutAll(root, kvs).value;
      assert ValueAt(u, META, kvs[0].0) == Some(kvs[0].1);
      assert ValueAt(u, META, kvs[1].0) == Some(kvs[1].1);
      assert ValueAt(u, META, kvs[2].0) == Some(kvs[2].1);
      assert ValueAt(u, META, SECRET_SALT) == ValueAt(root, META, SECRET_SALT);
    }
  }

  /** The state between RotateDataKey's value loop and its metadata writes. */
  lemma ValuesReencrypted(
      root: Bucket, cipher: Term, pass: Term, newCipher: Term, es: seq<Entry>, nonces: seq<nat>)
    requires Sound(root, cipher, pass) && Routed(root, cipher)
    requires Enumerates(root, es) && |nonces| >= |es|
    requires Unused(root, newCipher) && newCipher.Kdf? && newCipher.info == DEK
    ensures WriteAll(root, es, nonces, cipher, newCipher).Ok?
    ensures var u := WriteAll(root, es, nonces, cipher, newCipher).value;
            && WellFormed(u)
            && View(u, newCipher) == View(root, cipher)
            && (forall p :: IsBucket(u, p) <==> IsBucket(root, p))
            && (forall k :: MetaKey(META, k) ==>
                              && ValueAt(u, META, k).Some?
                              && Opened(newCipher, ValueAt(u, META, k)).None?)
            && (forall p, k :: ValueAt(u, p, k).Some? && !MetaKey(p, k) ==>
                                 ValueAt(u, p, k).value.Seal? && ValueAt(u, p, k).value.key == newCipher)
  {
    EnumeratedFromTree(root, es);
    WriteAllRekeys(root, es, nonces, cipher, newCipher);
    RotationPreservesView(root, es, nonces, cipher, newCipher);
    var u := WriteAll(root, es, nonces, cipher, newCipher).value;
    forall k | MetaKey(META, k)
      ensures ValueAt(u, META, k).Some? && Opened(newCipher, ValueAt(u, META, k)).None?
    {
      MetaNeverOpens(root, cipher, pass, cipher, META, k);
      MetaNeverOpens(root, cipher, pass, newCipher, META, k);
    }
    forall p, k | ValueAt(u, p, k).Some? && !MetaKey(p, k)
      ensures ValueAt(u, p, k).value.Seal? && ValueAt(u, p, k).value.key == newCipher
    {
      assert ValueRekeyed(ValueAt(root, p, k), ValueAt(u, p, k), Listed(root, p, k, es), cipher, newCipher);
      assert Find(root, []) == Some(root) && ValueAt(root, [], k).None?;
      assert [] + p == p;
      assert Listed(root, p, k, es);
    }
  }

  lemma DataKeyEntries(new_: Term, rnd: Random, kvs: seq<(Name, Term)>)
    requires kvs == DataKeyMeta(new_, rnd) || kvs == CreatedMeta(new_, rnd)
    ensures forall i :: 0 <= i < |kvs| ==> MetaEntry(kvs[i])
    ensures forall i, j :: 0 <= i < j < |kvs| ==> kvs[i].0 != kvs[j].0
  {
    MetaNamesDistinct();
  }

  /** In either order the four writes leave the same metadata. */
  lemma WrittenMeta(w: Bucket, new_: Term, rnd: Random, kvs: seq<(Name, Term)>)
    requires kvs == DataKeyMeta(new_, rnd) || kvs == CreatedMeta(new_, rnd)
    requires forall i :: 0 <= i < |kvs| ==> ValueAt(w, META, kvs[i].0) == Some(kvs[i].1)
    ensures ReadMeta(w) == Some(CipherMeta(
      Atom(rnd.secretSalt), Atom(rnd.deriveSalt), Atom(rnd.wrappedSalt), Wrapped(new_, rnd.secret, rnd)))
    ensures ExtractCipher(w, new_) == Ok(DataCipher(rnd.secret, Atom(rnd.secretSalt)))
  {
    assert ValueAt(w, META, kvs[0].0) == Some(kvs[0].1);
    assert ValueAt(w, META, kvs[1].0) == Some(kvs[1].1);
    assert ValueAt(w, META, kvs[2].0) == Some(kvs[2].1);
    assert ValueAt(w, META, kvs[3].0) == Some(kvs[3].1);
  }

  /** Writing all four metadata entries re-establishes the invariant for the new passphrase. */
  lemma DataKeyMetaSound(u: Bucket, new_: Term, rnd: Random, kvs: seq<(Name, Term)>)
    requires WellFormed(u) && IsBucket(u, META)
    requires kvs == DataKeyMeta(new_, rnd) || kvs == CreatedMeta(new_, rnd)
    requires forall k :: MetaKey(META, k) ==>
               && !IsBucket(u, META + [k])
               && Opened(DataCipher(rnd.secret, Atom(rnd.secretSalt)), ValueAt(u, META, k)).None?
    requires forall p, k :: ValueAt(u, p, k).Some? && !MetaKey(p, k) ==>
               && ValueAt(u, p, k).value.Seal?
               && ValueAt(u, p, k).value.key == DataCipher(rnd.secret, Atom(rnd.secretSalt))
    ensures PutAll(u, kvs).Ok?
    ensures var w := PutAll(u, kvs).value;
            var newCipher := DataCipher(rnd.secret, Atom(rnd.secretSalt));
            Sound(w, newCipher, new_) && View(w, newCipher) == View(u, newCipher)
  {
    var newCipher := DataCipher(rnd.secret, Atom(rnd.secretSalt));
    DataKeyEntries(new_, rnd, kvs);
    MetaRewrite(u, kvs, newCipher);
    var w := PutAll(u, kvs).value;
    WrittenMeta(w, new_, rnd, kvs);
    forall p, k | ValueAt(w, p, k).Some? && !MetaKey(p, k)
      ensures ValueAt(w, p, k).value.Seal? && ValueAt(w, p, k).value.key == newCipher
    {
      assert ValueAt(w, p, k) == ValueAt(u, p, k);
    }
  }

  /** A value whose bucket its path does not find is still under the old key after both phases. */
  lemma StrayIsLost(
      root: Bucket, cipher: Term, pass: Term, new_: Term, rnd: Random, es: seq<Entry>, nonces: seq<nat>)
    requires Sound(root, cipher, pass) && !Routed(root, cipher) && |nonces| >= |es|
    requires Unused(root, DataCipher(rnd.secret, Atom(rnd.secretSalt)))
    ensures var r := RotateDataKeySpec(root, cipher, pass, new_, rnd, es, nonces);
            r.ok ==> View(r.root, r.cipher) != View(root, cipher)
  {
    var newCipher := DataCipher(rnd.secret, Atom(rnd.secretSalt));
    var r := RotateDataKeySpec(root, cipher, pass, new_, rnd, es, nonces);
    if r.ok {
      var kvs := DataKeyMeta(new_, rnd);
      var p, k :| p != [] && Opened(cipher, ValueAt(root, p, k)).Some? && !Home(root, p);
      var u := WriteAll(root, es, nonces, cipher, newCipher).value;
      StrayUntouched(root, es, nonces, cipher, newCipher, p, k);
      if MetaKey(p, k) {
        MetaNeverOpens(root, cipher, pass, cipher, p, k);
      }
      DataKeyEntries(new_, rnd, kvs);
      forall i | 0 <= i < |kvs|
        ensures kvs[i].0 != "" && !IsBucket(u, META + [kvs[i].0])
      {
        assert MetaEntry(kvs[i]);
        MetaNeverOpens(root, cipher, pass, cipher, META, kvs[i].0);
      }
      PutAllObserved(u, kvs);
      assert ValueAt(r.root, p, k) == ValueAt(root, p, k);
      ViewObserved(r.root, newCipher);
      ViewObserved(root, cipher);
      assert ValueAt(View(r.root, newCipher), p, k) != ValueAt(View(root, cipher), p, k);
    }
  }

  /**
   RotateDataKey: a wrong passphrase changes nothing. With the right one it succeeds
   and every value reads the same under the fresh key as it did under the old one if
   and only if every bucket that holds data is found again by its path; only the new
   passphrase opens the store then.
   */
  lemma RotateDataKeyCorrect(
      root: Bucket, cipher: Term, pass: Term, old_: Term, new_: Term, rnd: Random, es: seq<Entry>, nonces: seq<nat>)
    requires Sound(root, cipher, pass)
    requires Enumerates(root, es) && |nonces| >= |es|
    requires Unused(root, DataCipher(rnd.secret, Atom(rnd.secretSalt)))
    ensures var r := RotateDataKeySpec(root, cipher, old_, new_, rnd, es, nonces);
            && (!r.ok ==> r.root == root && r.cipher == cipher)
            && (r.ok ==> old_ == pass && r.cipher == DataCipher(rnd.secret, Atom(rnd.secretSalt)))
            && (r.ok && View(r.root, r.cipher) == View(root, cipher) <==> old_ == pass && Routed(root, cipher))
            && (r.ok && Routed(root, cipher) ==> Sound(r.root, r.cipher, new_))
  {
    if old_ == pass {
      if Routed(root, cipher) {
        var newCipher := DataCipher(rnd.secret, Atom(rnd.secretSalt));
        ValuesReencrypted(root, cipher, pass, newCipher, es, nonces);
        DataKeyMetaSound(WriteAll(root, es, nonces, cipher, newCipher).value, new_, rnd, DataKeyMeta(new_, rnd));
      } else {
        StrayIsLost(root, cipher, pass, new_, rnd, es, nonces);
      }
    } else {
      OnlyPassphraseOpens(root, cipher, pass, old_);
    }
  }
}
