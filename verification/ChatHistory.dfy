/**
 Chat entries of one session: keys ordered by local receive time, values carrying
 the sender's time. Values are taken decrypted, as the store's view shows them, and
 a cursor lists keys in lexicographic byte order.
 */
module ChatHistory {
  import opened Encoding
  import opened Wrappers

  const TWO_63 := 0x8000_0000_0000_0000
  const TWO_64 := 0x1_0000_0000_0000_0000

  /** Nanoseconds since the epoch. */
  type Int64 = x: int | -0x8000_0000_0000_0000 <= x < 0x8000_0000_0000_0000

  type Suffix = s: Bytes | |s| == 4 witness [0, 0, 0, 0]

  const MAGIC: Bytes := Ascii("KMNE") + [1]

  /** One AddChatEntry call: the clock reading and random suffix are its inputs too. */
  datatype Message = Message(now: Int64, sender: Uint16, suffix: Suffix, sent: Int64, payload: Bytes)

  datatype ChatEntry = ChatEntry(timestamp: Int64, data: Bytes, sender: nat)

  // ---- Encoding ----

  /** uint64(t) */
  function Unsigned(t: Int64): (r: nat)
    ensures r < TWO_64
  {
    if t < 0 then t + TWO_64 else t
  }

  /** int64(n) */
  function Signed(n: nat): (r: Int64)
    requires n < TWO_64
    ensures Unsigned(r) == n
  {
    if n < TWO_63 then n else n - TWO_64
  }

  function Key(m: Message): (r: Bytes)
    ensures |r| == 14
  {
    BigEndian(Unsigned(m.now), 8) + BigEndian(m.sender, 2) + m.suffix
  }

  function Envelope(m: Message): (r: Bytes)
    ensures |r| == 13 + |m.payload|
  {
    MAGIC + BigEndian(Unsigned(m.sent), 8) + m.payload
  }

  lemma Uint64Decodes(n: nat)
    requires n < TWO_64
    ensures ReadUint64(BigEndian(n, 8)) == n
  {
    Pow256Values();
    BigEndianDecodes(n, 8);
  }

  /** What GetChatHistory makes of one key and value. */
  function Decode(key: Bytes, value: Bytes): (r: ChatEntry)
    requires |key| >= 14 && |value| >= 13
  {
    ChatEntry(Signed(ReadUint64(value[5..13])), value[13..], FromBigEndian(key[8..10]))
  }

  function Shown(m: Message): (r: ChatEntry)
  {
    ChatEntry(m.sent, m.payload, m.sender)
  }

  /** Any sender time, payload and sender come back as they were added. */
  lemma EntryRoundTrip(m: Message)
    ensures Decode(Key(m), Envelope(m)) == Shown(m)
  {
    Pow256Values();
    var stamp := BigEndian(Unsigned(m.sent), 8);
    assert Envelope(m)[5..13] == stamp && Envelope(m)[13..] == m.payload;
    assert Key(m)[8..10] == BigEndian(m.sender, 2);
    Uint64Decodes(Unsigned(m.sent));
    BigEndianDecodes(m.sender, 2);
  }

  /** The receive time a key starts with. */
  function TimeOf(key: Bytes): (r: Int64)
    requires |key| >= 8
  {
    Signed(ReadUint64(key[..8]))
  }

  lemma TimeOfKey(m: Message)
    ensures TimeOf(Key(m)) == m.now
  {
    assert Key(m)[..8] == BigEndian(Unsigned(m.now), 8);
    Uint64Decodes(Unsigned(m.now));
  }

  // ---- Lexicographic order ----

  predicate Before(s: Bytes, t: Bytes)
  {
    t != [] && (s == [] || s[0] < t[0] || (s[0] == t[0] && Before(s[1..], t[1..])))
  }

  lemma {:induction false} BeforeAsymmetric(s: Bytes, t: Bytes)
    requires Before(s, t)
    ensures !Before(t, s)
  {
    if s != [] && s[0] == t[0] {
      BeforeAsymmetric(s[1..], t[1..]);
    }
  }

  lemma {:induction false} BeforeAfterPrefix(p: Bytes, s: Bytes, t: Bytes)
    requires Before(s, t)
    ensures Before(p + s, p + t)
  {
    if p == [] {
      assert p + s == s && p + t == t;
    } else {
      BeforeAfterPrefix(p[1..], s, t);
      assert (p + s)[1..] == p[1..] + s && (p + t)[1..] == p[1..] + t;
    }
  }

  /** Big-endian keeps order, whatever follows the number. */
  lemma {:induction false} BigEndianOrdered(a: nat, b: nat, width: nat, x: Bytes, y: Bytes)
    requires a < b < Pow256(width)
    ensures Before(BigEndian(a, width) + x, BigEndian(b, width) + y)
  {
    var a', b' := [(a % 256) as Byte] + x, [(b % 256) as Byte] + y;
    var pa, pb := BigEndian(a / 256, width - 1), BigEndian(b / 256, width - 1);
    assert BigEndian(a, width) + x == pa + a';
    assert BigEndian(b, width) + y == pb + b';
    if a / 256 < b / 256 {
      BigEndianOrdered(a / 256, b / 256, width - 1, a', b');
    } else {
      BeforeAfterPrefix(pa, a', b');
    }
  }

  // ---- A bucket and its cursor ----

  datatype Put = Put(key: Bytes, value: Bytes)

  /** The bucket after these puts: a repeated key overwrites. */
  function Stored(puts: seq<Put>): (r: map<Bytes, Bytes>)
  {
    if puts == [] then map[]
    else Stored(puts[..|puts| - 1])[puts[|puts| - 1].key := puts[|puts| - 1].value]
  }

  function Keys(puts: seq<Put>): (r: seq<Bytes>)
    ensures |r| == |puts|
  {
    seq(|puts|, i requires 0 <= i < |puts| => puts[i].key)
  }

  ghost predicate Distinct(keys: seq<Bytes>)
  {
    forall i, j :: 0 <= i < j < |keys| ==> keys[i] != keys[j]
  }

  ghost predicate Ordered(keys: seq<Bytes>)
  {
    forall i, j :: 0 <= i < j < |keys| ==> Before(keys[i], keys[j])
  }

  /** `keys` is what a cursor lists for a bucket with these keys. */
  ghost predicate Cursor(keys: seq<Bytes>, bucket: set<Bytes>)
  {
    Ordered(keys) && forall k :: k in keys <==> k in bucket
  }

  lemma {:induction false} BeforeIrreflexive(s: Bytes)
    ensures !Before(s, s)
  {
    if s != [] {
      BeforeIrreflexive(s[1..]);
    }
  }

  lemma OrderedIsDistinct(keys: seq<Bytes>)
    requires Ordered(keys)
    ensures Distinct(keys)
  {
    forall i, j | 0 <= i < j < |keys|
      ensures keys[i] != keys[j]
    {
      BeforeIrreflexive(keys[i]);
    }
  }

  lemma EmptyCursor(keys: seq<Bytes>)
    requires Cursor(keys, {})
    ensures keys == []
  {
    forall k: Bytes
      ensures multiset(keys)[k] == 0
    {
      assert k !in keys;
    }
    assert multiset(keys) == multiset{};
    assert |keys| == |multiset(keys)|;
  }

  lemma {:induction false} StoredKeys(puts: seq<Put>)
    ensures forall k :: k in Stored(puts) <==> k in Keys(puts)
  {
    if puts != [] {
      var n := |puts| - 1;
      StoredKeys(puts[..n]);
      assert Keys(puts) == Keys(puts[..n]) + [puts[n].key];
    }
  }

  lemma {:induction false} StoredValues(puts: seq<Put>, i: nat)
    requires Distinct(Keys(puts)) && i < |puts|
    ensures puts[i].key in Stored(puts) && Stored(puts)[puts[i].key] == puts[i].value
  {
    var n := |puts| - 1;
    if i < n {
      assert Keys(puts[..n]) == Keys(puts)[..n];
      StoredValues(puts[..n], i);
      assert Keys(puts)[i] != Keys(puts)[n];
    }
  }

  /** A duplicate-free listing holds each of its elements once. */
  lemma {:induction false} DistinctCount(keys: seq<Bytes>, k: Bytes)
    requires Distinct(keys)
    ensures multiset(keys)[k] == if k in keys then 1 else 0
  {
    if keys != [] {
      var n := |keys| - 1;
      DistinctCount(keys[..n], k);
      assert keys == keys[..n] + [keys[n]];
    }
  }

  lemma SameListing(a: seq<Bytes>, b: seq<Bytes>)
    requires Distinct(a) && Distinct(b) && forall k :: k in a <==> k in b
    ensures multiset(a) == multiset(b)
  {
    forall k
      ensures multiset(a)[k] == multiset(b)[k]
    {
      DistinctCount(a, k);
      DistinctCount(b, k);
    }
  }

  // ---- What GetChatHistory's loop decodes ----

  /** Slicing a value out of range. */
  datatype Panic = OutOfRange

  /** The value under `k` is read and is short of its envelope. */
  predicate Truncated(chat: map<Bytes, Bytes>, k: Bytes)
  {
    k in chat && |k| >= 14 && |chat[k]| < 13
  }

  /** No value is; AddChatEntry writes none. */
  ghost predicate Readable(chat: map<Bytes, Bytes>)
  {
    forall k :: k in chat ==> !Truncated(chat, k)
  }

  ghost predicate Within(keys: seq<Bytes>, chat: map<Bytes, Bytes>)
  {
    forall i :: 0 <= i < |keys| ==> keys[i] in chat
  }

  /** What GetChatHistory's loop takes from one key: keys under 14 bytes are passed over. */
  function Reader(chat: map<Bytes, Bytes>): (r: Bytes -> seq<ChatEntry>)
  {
    k => if k in chat && |k| >= 14 && |chat[k]| >= 13 then [Decode(k, chat[k])] else []
  }

  function FlatMap<T, R>(f: T -> seq<R>, s: seq<T>): (r: seq<R>)
  {
    if s == [] then [] else FlatMap(f, s[..|s| - 1]) + f(s[|s| - 1])
  }

  function DecodeAll(chat: map<Bytes, Bytes>, keys: seq<Bytes>): (r: seq<ChatEntry>)
  {
    FlatMap(Reader(chat), keys)
  }

  lemma {:induction false} FlatMapSplit<T, R>(f: T -> seq<R>, a: seq<T>, b: seq<T>)
    ensures FlatMap(f, a + b) == FlatMap(f, a) + FlatMap(f, b)
    decreases |b|
  {
    if b == [] {
      assert a + b == a;
    } else {
      var n := |b| - 1;
      FlatMapSplit(f, a, b[..n]);
      assert (a + b)[..|a| + n] == a + b[..n];
    }
  }

  lemma TakeOut<T, R>(f: T -> seq<R>, s: seq<T>, i: nat) returns (t: seq<T>)
    requires i < |s|
    ensures |t| < |s| && multiset(t) == multiset(s) - multiset{s[i]}
    ensures multiset(FlatMap(f, s)) == multiset(FlatMap(f, t)) + multiset(f(s[i]))
  {
    var l, r := s[..i], s[i + 1..];
    t := l + r;
    assert s == l + [s[i]] + r;
    FlatMapSplit(f, l + [s[i]], r);
    assert (l + [s[i]])[..i] == l;
    FlatMapSplit(f, l, r);
  }

  /** Listing the keys in another order permutes what is taken from them. */
  lemma {:induction false} FlatMapPermuted<T, R>(f: T -> seq<R>, a: seq<T>, b: seq<T>)
    requires multiset(a) == multiset(b)
    ensures multiset(FlatMap(f, a)) == multiset(FlatMap(f, b))
    decreases |a|
  {
    if a == [] {
      assert |multiset(b)| == 0;
    } else {
      var x := a[0];
      assert x in multiset(b);
      var i :| 0 <= i < |b| && b[i] == x;
      var a' := TakeOut(f, a, 0);
      var b' := TakeOut(f, b, i);
      FlatMapPermuted(f, a', b');
    }
  }

  // ---- The messages of a session ----

  function Puts(log: seq<Message>): (r: seq<Put>)
    ensures |r| == |log|
  {
    seq(|log|, i requires 0 <= i < |log| => Put(Key(log[i]), Envelope(log[i])))
  }

  function ShownAll(log: seq<Message>): (r: seq<ChatEntry>)
    ensures |r| == |log|
  {
    seq(|log|, i requires 0 <= i < |log| => Shown(log[i]))
  }

  /** No two messages got the same receive time, sender and random suffix. */
  ghost predicate DistinctKeys(log: seq<Message>)
  {
    Distinct(Keys(Puts(log)))
  }

  lemma {:induction false} StoredIsReadable(puts: seq<Put>)
    requires forall i :: 0 <= i < |puts| ==> |puts[i].key| == 14 && |puts[i].value| >= 13
    ensures Readable(Stored(puts)) && forall k :: k in Stored(puts) ==> |k| == 14
  {
    if puts != [] {
      StoredIsReadable(puts[..|puts| - 1]);
    }
  }

  lemma {:induction false} DecodeInOrder(chat: map<Bytes, Bytes>, log: seq<Message>)
    requires Within(Keys(Puts(log)), chat)
    requires forall i :: 0 <= i < |log| ==> chat[Keys(Puts(log))[i]] == Puts(log)[i].value
    ensures DecodeAll(chat, Keys(Puts(log))) == ShownAll(log)
  {
    if log != [] {
      var n := |log| - 1;
      assert Keys(Puts(log))[..n] == Keys(Puts(log[..n]));
      DecodeInOrder(chat, log[..n]);
      EntryRoundTrip(log[n]);
      assert Reader(chat)(Keys(Puts(log))[n]) == [Shown(log[n])];
      assert ShownAll(log) == ShownAll(log[..n]) + [Shown(log[n])];
    }
  }

  lemma {:induction false} NothingSkipped(chat: map<Bytes, Bytes>, keys: seq<Bytes>)
    requires Readable(chat) && Within(keys, chat) && forall i :: 0 <= i < |keys| ==> |keys[i]| == 14
    ensures |DecodeAll(chat, keys)| == |keys|
  {
    if keys != [] {
      NothingSkipped(chat, keys[..|keys| - 1]);
    }
  }

  lemma BucketFacts(log: seq<Message>, keys: seq<Bytes>)
    requires Cursor(keys, Stored(Puts(log)).Keys)
    ensures Readable(Stored(Puts(log))) && Within(keys, Stored(Puts(log)))
    ensures Distinct(keys) && forall k :: k in keys <==> k in Keys(Puts(log))
    ensures |DecodeAll(Stored(Puts(log)), keys)| == |keys|
  {
    StoredIsReadable(Puts(log));
    StoredKeys(Puts(log));
    OrderedIsDistinct(keys);
    NothingSkipped(Stored(Puts(log)), keys);
  }

  /** The history holds every message added, once each, exactly when no key was used twice. */
  lemma HistoryIsEverythingIff(log: seq<Message>, keys: seq<Bytes>)
    requires Cursor(keys, Stored(Puts(log)).Keys)
    ensures Readable(Stored(Puts(log))) && Within(keys, Stored(Puts(log)))
    ensures multiset(DecodeAll(Stored(Puts(log)), keys)) == multiset(ShownAll(log)) <==> DistinctKeys(log)
    ensures |keys| == |log| <==> DistinctKeys(log)
  {
    var chat, all := Stored(Puts(log)), Keys(Puts(log));
    BucketFacts(log, keys);
    if DistinctKeys(log) {
      SameListing(keys, all);
      assert |multiset(keys)| == |multiset(all)|;
      forall i | 0 <= i < |log|
        ensures all[i] in chat && chat[all[i]] == Puts(log)[i].value
      {
        StoredValues(Puts(log), i);
      }
      FlatMapPermuted(Reader(chat), keys, all);
      DecodeInOrder(chat, log);
    } else {
      RepeatShortens(keys, all);
      assert |multiset(DecodeAll(chat, keys))| == |keys|;
      assert |multiset(ShownAll(log))| == |log|;
    }
  }

  lemma RepeatShortens(keys: seq<Bytes>, all: seq<Bytes>)
    requires Distinct(keys) && !Distinct(all) && forall k :: k in keys <==> k in all
    ensures |keys| < |all|
  {
    var i, j :| 0 <= i < j < |all| && all[i] == all[j];
    forall k
      ensures multiset(keys)[k] <= (multiset(all) - multiset{all[i]})[k]
    {
      DistinctCount(keys, k);
      if k == all[i] {
        assert all == all[..i] + [all[i]] + all[i + 1..j] + [all[j]] + all[j + 1..];
      }
    }
    assert multiset(keys) <= multiset(all) - multiset{all[i]};
    SubBag(multiset(keys), multiset(all) - multiset{all[i]});
  }

  lemma SubBag(a: multiset<Bytes>, b: multiset<Bytes>)
    requires a <= b
    ensures |a| <= |b|
  {
    assert b == a + (b - a);
  }

  /** A second message under the key of the first replaces it: the history shows one entry for two calls. */
  lemma RepeatedKeyHidesMessage(a: Message, b: Message)
    requires a.now == b.now && a.sender == b.sender && a.suffix == b.suffix
    ensures Cursor([Key(a)], Stored(Puts([a, b])).Keys)
    ensures DecodeAll(Stored(Puts([a, b])), [Key(a)]) == [Shown(b)]
  {
    var puts, chat, keys := Puts([a, b]), Stored(Puts([a, b])), [Key(a)];
    assert Key(a) == Key(b);
    StoredKeys(puts);
    assert Keys(puts) == [Key(a), Key(b)];
    assert puts[..1] == [puts[0]] && puts[1] == Put(Key(b), Envelope(b));
    assert chat[Key(b)] == Envelope(b);
    EntryRoundTrip(b);
    assert FlatMap(Reader(chat), keys[..0]) == [];
    assert Reader(chat)(keys[0]) == [Shown(b)];
  }

  lemma RepeatedKeyExample()
    ensures var a, b := Message(0, 0, [0, 0, 0, 0], 0, [1]), Message(0, 0, [0, 0, 0, 0], 0, [2]);
            && Cursor([Key(a)], Stored(Puts([a, b])).Keys)
            && multiset(DecodeAll(Stored(Puts([a, b])), [Key(a)])) != multiset(ShownAll([a, b]))
  {
    var a, b := Message(0, 0, [0, 0, 0, 0], 0, [1]), Message(0, 0, [0, 0, 0, 0], 0, [2]);
    RepeatedKeyHidesMessage(a, b);
    var shown := multiset(DecodeAll(Stored(Puts([a, b])), [Key(a)]));
    assert |shown| == 1 && |multiset(ShownAll([a, b]))| == 2;
  }

  // ---- Receive times ----

  /** Reading the keys' times as unsigned, a cursor lists them in order. */
  lemma UnsignedOrder(a: Message, b: Message)
    requires Unsigned(a.now) < Unsigned(b.now)
    ensures Before(Key(a), Key(b)) && !Before(Key(b), Key(a)) && Key(a) != Key(b)
  {
    Pow256Values();
    var x, y := BigEndian(a.sender, 2) + a.suffix, BigEndian(b.sender, 2) + b.suffix;
    BigEndianOrdered(Unsigned(a.now), Unsigned(b.now), 8, x, y);
    assert Key(a) == BigEndian(Unsigned(a.now), 8) + x;
    assert Key(b) == BigEndian(Unsigned(b.now), 8) + y;
    BeforeAsymmetric(Key(a), Key(b));
  }

  ghost predicate IsMin(t: Int64, log: seq<Message>)
  {
    (exists i :: 0 <= i < |log| && log[i].now == t) && forall i :: 0 <= i < |log| ==> t <= log[i].now
  }

  ghost predicate IsMax(t: Int64, log: seq<Message>)
  {
    (exists i :: 0 <= i < |log| && log[i].now == t) && forall i :: 0 <= i < |log| ==> log[i].now <= t
  }

  /** All receive times lie on one side of the epoch. */
  ghost predicate OneSign(log: seq<Message>)
  {
    (forall i :: 0 <= i < |log| ==> log[i].now >= 0) || (forall i :: 0 <= i < |log| ==> log[i].now < 0)
  }

  lemma FirstAndLast(keys: seq<Bytes>, log: seq<Message>) returns (a: nat, b: nat)
    requires log != [] && Ordered(keys) && forall k :: k in keys <==> k in Keys(Puts(log))
    ensures keys != [] && a < |log| && b < |log| && keys[0] == Key(log[a]) && keys[|keys| - 1] == Key(log[b])
    ensures forall i :: 0 <= i < |log| ==> Unsigned(log[a].now) <= Unsigned(log[i].now) <= Unsigned(log[b].now)
  {
    var all := Keys(Puts(log));
    assert all[0] in keys;
    assert keys[0] in all && keys[|keys| - 1] in all;
    a :| 0 <= a < |log| && all[a] == keys[0];
    b :| 0 <= b < |log| && all[b] == keys[|keys| - 1];
    forall i | 0 <= i < |log|
      ensures Unsigned(log[a].now) <= Unsigned(log[i].now) <= Unsigned(log[b].now)
    {
      assert all[i] in keys;
      var j :| 0 <= j < |keys| && keys[j] == all[i];
      if Unsigned(log[i].now) < Unsigned(log[a].now) {
        UnsignedOrder(log[i], log[a]);
      }
      if Unsigned(log[b].now) < Unsigned(log[i].now) {
        UnsignedOrder(log[b], log[i]);
      }
    }
  }

  /** The first and last key give the earliest and latest receive time exactly when all are on one side of the epoch. */
  lemma EndsAreMinMaxIff(keys: seq<Bytes>, log: seq<Message>)
    requires log != [] && Cursor(keys, Stored(Puts(log)).Keys)
    ensures keys != [] && |keys[0]| == 14 && |keys[|keys| - 1]| == 14
    ensures (IsMin(TimeOf(keys[0]), log) && IsMax(TimeOf(keys[|keys| - 1]), log)) <==> OneSign(log)
  {
    BucketFacts(log, keys);
    var a, b := FirstAndLast(keys, log);
    TimeOfKey(log[a]);
    TimeOfKey(log[b]);
    SignedExtremes(log, a, b);
  }

  /** The unsigned extremes are the signed ones exactly when no time lies across the epoch from another. */
  lemma SignedExtremes(log: seq<Message>, a: nat, b: nat)
    requires a < |log| && b < |log|
    requires forall i :: 0 <= i < |log| ==> Unsigned(log[a].now) <= Unsigned(log[i].now) <= Unsigned(log[b].now)
    ensures (IsMin(log[a].now, log) && IsMax(log[b].now, log)) <==> OneSign(log)
  {
    if OneSign(log) {
      forall i | 0 <= i < |log|
        ensures log[a].now <= log[i].now <= log[b].now
      {
        assert Unsigned(log[a].now) <= Unsigned(log[i].now) <= Unsigned(log[b].now);
      }
    }
  }

  /** A message received before the epoch and one received after it: the cursor lists them the wrong way round. */
  lemma EpochSwapsEnds(a: Message, b: Message)
    requires a.now < 0 <= b.now
    ensures Cursor([Key(b), Key(a)], Stored(Puts([a, b])).Keys)
    ensures TimeOf(Key(b)) == b.now > a.now == TimeOf(Key(a))
  {
    var puts := Puts([a, b]);
    UnsignedOrder(b, a);
    StoredKeys(puts);
    assert Keys(puts) == [Key(a), Key(b)];
    TimeOfKey(a);
    TimeOfKey(b);
  }

  /** One nanosecond before the epoch and the epoch itself: first says 0 and last says -1. */
  lemma EpochExample()
    ensures var a, b := Message(-1, 0, [0, 0, 0, 0], 0, []), Message(0, 0, [0, 0, 0, 0], 0, []);
            && Cursor([Key(b), Key(a)], Stored(Puts([a, b])).Keys)
            && TimeOf(Key(b)) == 0 && TimeOf(Key(a)) == -1
            && !IsMin(TimeOf(Key(b)), [a, b]) && !IsMax(TimeOf(Key(a)), [a, b])
  {
    var a, b := Message(-1, 0, [0, 0, 0, 0], 0, []), Message(0, 0, [0, 0, 0, 0], 0, []);
    EpochSwapsEnds(a, b);
    assert [a, b][0].now == -1 && [a, b][1].now == 0;
  }

  // ---- Sorting ----

  /** The comparison handed to SortFunc. */
  predicate Leq(a: ChatEntry, b: ChatEntry)
  {
    a.timestamp < b.timestamp || (a.timestamp == b.timestamp && a.sender <= b.sender)
  }

  /** By sender time, and by sender where times are equal. */
  ghost predicate Sorted(s: seq<ChatEntry>)
  {
    forall i, j :: 0 <= i < j < |s| ==>
                     && s[i].timestamp <= s[j].timestamp
                     && (s[i].timestamp == s[j].timestamp ==> s[i].sender <= s[j].sender)
  }

  function Inserted(s: seq<ChatEntry>, e: ChatEntry, i: nat): (r: seq<ChatEntry>)
    requires i <= |s|
    ensures multiset(r) == multiset(s) + multiset{e}
  {
    assert s == s[..i] + s[i..];
    s[..i] + [e] + s[i..]
  }

  lemma InsertedSorted(s: seq<ChatEntry>, e: ChatEntry, i: nat)
    requires Sorted(s) && i <= |s|
    requires i > 0 ==> Leq(s[i - 1], e)
    requires forall j :: i <= j < |s| ==> !Leq(s[j], e)
    ensures Sorted(Inserted(s, e, i))
  {
    var r := Inserted(s, e, i);
    forall a, b | 0 <= a < b < |r|
      ensures r[a].timestamp <= r[b].timestamp
      ensures r[a].timestamp == r[b].timestamp ==> r[a].sender <= r[b].sender
    {
      assert r[a] == if a < i then s[a] else if a == i then e else s[a - 1];
      assert r[b] == if b < i then s[b] else if b == i then e else s[b - 1];
    }
  }

  method Insert(s: seq<ChatEntry>, e: ChatEntry) returns (r: seq<ChatEntry>)
    requires Sorted(s)
    ensures Sorted(r) && multiset(r) == multiset(s) + multiset{e}
  {
    var i := |s|;
    while i > 0 && !Leq(s[i - 1], e)
      invariant 0 <= i <= |s| && forall j :: i <= j < |s| ==> !Leq(s[j], e)
    {
      i := i - 1;
    }
    InsertedSorted(s, e, i);
    r := Inserted(s, e, i);
  }

  /** Stands for slices.SortFunc: any sorted permutation would do. */
  method Sort(s: seq<ChatEntry>) returns (r: seq<ChatEntry>)
    ensures Sorted(r) && multiset(r) == multiset(s)
  {
    r := [];
    for n := 0 to |s|
      invariant Sorted(r) && multiset(r) == multiset(s[..n])
    {
      assert s[..n + 1] == s[..n] + [s[n]];
      r := Insert(r, s[n]);
    }
    assert s[..|s|] == s;
  }

  // ---- The session's chat namespace ----

  class ChatNamespace {
    // None when the session record does not exist.
    var chat: Option<map<Bytes, Bytes>>
    ghost var log: seq<Message>

    ghost predicate Valid()
      reads this
    {
      chat.Some? ==> chat.value == Stored(Puts(log))
    }

    ghost predicate Listed(keys: seq<Bytes>)
      reads this
    {
      Cursor(keys, if chat.Some? then chat.value.Keys else {})
    }

    /** The namespace as CreateSession leaves it, or missing. */
    constructor (created: bool)
      ensures Valid() && log == [] && chat.Some? == created
    {
      chat, log := if created then Some(map[]) else None, [];
    }

    /** What AddChatEntry writes can be read. */
    lemma OwnEntriesReadable()
      requires Valid()
      ensures chat.Some? ==> Readable(chat.value)
    {
      StoredIsReadable(Puts(log));
    }

    /** AddChatEntry stores the message, or reports the missing namespace and changes nothing. */
    method AddChatEntry(m: Message) returns (ok: bool)
      requires Valid()
      modifies this
      ensures Valid() && ok == old(chat).Some? == chat.Some?
      ensures log == if ok then old(log) + [m] else old(log)
    {
      if chat.None? {
        return false;
      }
      chat := Some(chat.value[Key(m) := Envelope(m)]);
      log := log + [m];
      assert Puts(log)[..|log| - 1] == Puts(old(log));
      return true;
    }

    /**
     Panics exactly on a value that decrypts to less than its envelope, under a key of
     at least 14 bytes. Otherwise sorted by sender time and sender, and a permutation of
     what the bucket's keys of at least 14 bytes decode to, whoever wrote them; a key
     listed by the cursor and not in `chat` is one whose value does not decrypt. Where
     only AddChatEntry wrote, the history is everything added if and only if no key
     repeated.
     */
    method GetChatHistory(keys: seq<Bytes>) returns (r: Result<seq<ChatEntry>, Panic>)
      requires Ordered(keys)
      ensures r.Err? <==> chat.Some? && exists i :: 0 <= i < |keys| && Truncated(chat.value, keys[i])
      ensures r.Ok? ==> Sorted(r.value)
      ensures r.Ok? && chat.Some? ==> multiset(r.value) == multiset(DecodeAll(chat.value, keys))
      ensures chat.Some? && Valid() && Listed(keys) ==>
                r.Ok? && (multiset(r.value) == multiset(ShownAll(log)) <==> DistinctKeys(log))
      ensures chat.None? ==> r == Ok([])
    {
      if chat.None? {
        return Ok([]);
      }
      if Valid() && Listed(keys) {
        OwnEntriesReadable();
        HistoryIsEverythingIff(log, keys);
      }
      var collected := Collect(chat.value, keys);
      if collected.Err? {
        return collected;
      }
      var entries := Sort(collected.value);
      return Ok(entries);
    }

    /** Zero-valued times are None. */
    method SessionTimestamps(keys: seq<Bytes>) returns (first: Option<Int64>, last: Option<Int64>, count: nat)
      requires Valid() && Listed(keys)
      ensures chat.None? || log == [] ==> first == last == None && count == 0
      ensures chat.Some? ==> (count == |log| <==> DistinctKeys(log))
      ensures chat.Some? && log != [] ==>
                && first.Some? && last.Some?
                && ((IsMin(first.value, log) && IsMax(last.value, log)) <==> OneSign(log))
    {
      if chat.Some? {
        HistoryIsEverythingIff(log, keys);
        if log != [] {
          EndsAreMinMaxIff(keys, log);
        }
      } else {
        EmptyCursor(keys);
      }
      first, last, count := None, None, |keys|;
      if keys != [] && |keys[0]| >= 8 {
        first := Some(TimeOf(keys[0]));
      }
      if keys != [] && |keys[|keys| - 1]| >= 8 {
        last := Some(TimeOf(keys[|keys| - 1]));
      }
    }
  }

  /** The loop of GetChatHistory over IterateEncrypted. */
  method Collect(chat: map<Bytes, Bytes>, keys: seq<Bytes>) returns (r: Result<seq<ChatEntry>, Panic>)
    ensures r.Err? <==> exists i :: 0 <= i < |keys| && Truncated(chat, keys[i])
    ensures r.Ok? ==> r.value == DecodeAll(chat, keys)
  {
    var entries := [];
    for n := 0 to |keys|
      invariant entries == DecodeAll(chat, keys[..n])
      invariant forall i :: 0 <= i < n ==> !Truncated(chat, keys[i])
    {
      assert keys[..n + 1][..n] == keys[..n];
      var key := keys[n];
      if key !in chat || |key| < 14 {
        continue;
      }
      if |chat[key]| < 13 {
        assert Truncated(chat, keys[n]);
        return Err(OutOfRange);
      }
      entries := entries + [Decode(key, chat[key])];
    }
    assert keys[..|keys|] == keys;
    return Ok(entries);
  }
}
