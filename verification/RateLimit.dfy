/**
 The per-key sliding-window limiter over an expiring cache. The clock is monotone
 and the cache is not evicted for capacity; an entry expires 2*window after the
 last accept stored it. With a zero window the cache keeps entries (its default
 lifetime stands for "for ever").
 */
module RateLimit {
  import opened Wrappers

  type Key = string
  type Time = int

  predicate Sorted(s: seq<Time>)
  {
    forall i, j :: 0 <= i < j < |s| ==> s[i] <= s[j]
  }

  /** Stamps in (lo, hi]. */
  function Count(s: seq<Time>, lo: Time, hi: Time): (r: nat)
    ensures r <= |s|
  {
    if s == [] then 0
    else Count(s[..|s| - 1], lo, hi) + (if lo < s[|s| - 1] <= hi then 1 else 0)
  }

  /** With the first `k` stamps at or before `lo` and the rest inside, the count is the rest. */
  lemma {:induction false} CountSuffix(s: seq<Time>, lo: Time, hi: Time, k: nat)
    requires k <= |s|
    requires forall i :: 0 <= i < k ==> s[i] <= lo
    ensures Count(s, lo, hi) <= |s| - k
    ensures (forall i :: k <= i < |s| ==> lo < s[i] <= hi) ==> Count(s, lo, hi) == |s| - k
  {
    if |s| > k {
      CountSuffix(s[..|s| - 1], lo, hi, k);
    } else if s != [] {
      CountSuffix(s[..|s| - 1], lo, hi, k - 1);
    }
  }

  /** Stamps after `hi` at the end do not count. */
  lemma {:induction false} CountPrefix(s: seq<Time>, lo: Time, hi: Time, j: nat)
    requires j <= |s| && forall i :: j <= i < |s| ==> s[i] > hi
    ensures Count(s, lo, hi) == Count(s[..j], lo, hi)
  {
    if |s| > j {
      CountPrefix(s[..|s| - 1], lo, hi, j);
      assert s[..|s| - 1][..j] == s[..j];
    } else {
      assert s[..j] == s;
    }
  }

  /** Accepts `quota` apart are at least a window apart. */
  ghost predicate Spaced(s: seq<Time>, quota: nat, window: nat)
  {
    forall i, j :: 0 <= i && j == i + quota && j < |s| ==> s[i] + window <= s[j]
  }

  lemma {:induction false} AtOrBefore(s: seq<Time>, t: Time) returns (j: nat)
    requires Sorted(s)
    ensures j <= |s|
    ensures forall i :: 0 <= i < j ==> s[i] <= t
    ensures forall i :: j <= i < |s| ==> s[i] > t
  {
    j := 0;
    while j < |s| && s[j] <= t
      invariant j <= |s| && forall i :: 0 <= i < j ==> s[i] <= t
    {
      j := j + 1;
    }
  }

  /** Spaced accepts never put more than `quota` into any window, wherever it is placed. */
  lemma SpacedNeverExceeds(s: seq<Time>, quota: nat, window: nat, t: Time)
    requires Sorted(s) && Spaced(s, quota, window)
    ensures Count(s, t - window, t) <= quota
  {
    var j := AtOrBefore(s, t);
    CountPrefix(s, t - window, t, j);
    if j > quota {
      var k := j - quota;
      forall i | 0 <= i < k
        ensures s[..j][i] <= t - window
      {
        assert s[i] + window <= s[i + quota] by { assert Spaced(s, quota, window); }
        assert s[i + quota] <= t;
      }
      CountSuffix(s[..j], t - window, t, k);
    }
  }

  datatype Cached = Cached(stamps: seq<Time>, added: Time)

  /** The cache's Get: an entry older than its lifetime is gone. */
  function Get(c: Option<Cached>, window: nat, now: Time): (r: seq<Time>)
  {
    if c.Some? && (window == 0 || now <= c.value.added + 2 * window) then c.value.stamps else []
  }

  /** An entry lives for two windows after the accept that stored it, and for ever if the window is zero. */
  lemma EntryLifetime(c: Cached, window: nat, now: Time)
    ensures Get(Some(c), window, now) == if window > 0 && now - c.added > window + window then [] else c.stamps
  {
  }

  predicate Tail(h: seq<Time>, t: seq<Time>)
  {
    |t| <= |h| && forall j :: |h| - |t| <= j < |h| ==> t[j - (|h| - |t|)] == h[j]
  }

  lemma TailOfTail(h: seq<Time>, t: seq<Time>, i: nat)
    requires Tail(h, t) && i <= |t|
    ensures Tail(h, t[i..])
  {
  }

  /**
   A key's accepts `h` and its cached entry: the cache holds the tail that mattered
   at the last accept, everything before it is at least a window older.
   */
  ghost predicate KeyOk(h: seq<Time>, c: Option<Cached>, quota: nat, window: nat, clock: Time)
  {
    && Sorted(h) && Spaced(h, quota, window)
    && (c.None? ==> h == [])
    && (c.Some? ==>
          && c.value.added <= clock
          && Tail(h, c.value.stamps)
          && (forall i :: 0 <= i < |h| ==> h[i] <= c.value.added)
          && (forall i :: 0 <= i < |h| - |c.value.stamps| ==> h[i] <= c.value.added - window))
  }

  /** Get hands out a tail of the accepts that misses nothing newer than the cutoff. */
  lemma GetMissesNothing(h: seq<Time>, c: Option<Cached>, quota: nat, window: nat, clock: Time, now: Time)
    requires KeyOk(h, c, quota, window, clock) && clock <= now
    ensures Tail(h, Get(c, window, now))
    ensures forall j :: 0 <= j < |h| - |Get(c, window, now)| ==> h[j] <= now - window
    ensures forall j :: 0 <= j < |h| ==> h[j] <= now
  {
  }

  /** What is left of a tail after pruning is exactly the window's accepts. */
  lemma PrunedIsWindow(h: seq<Time>, t: seq<Time>, cutoff: Time, now: Time, i: nat)
    requires Sorted(h) && Tail(h, t) && i <= |t|
    requires forall j :: 0 <= j < |h| ==> h[j] <= now
    requires forall j :: 0 <= j < |h| - |t| ==> h[j] <= cutoff
    requires forall j :: 0 <= j < i ==> t[j] <= cutoff
    requires i < |t| ==> t[i] > cutoff
    ensures Tail(h, t[i..]) && Count(h, cutoff, now) == |t| - i
    ensures forall j :: 0 <= j < |h| - |t[i..]| ==> h[j] <= cutoff
  {
    TailOfTail(h, t, i);
    var base := |h| - |t|;
    var k := base + i;
    forall j | 0 <= j < k
      ensures h[j] <= cutoff
    {
      if j >= base {
        assert t[j - base] == h[j];
      }
    }
    forall j | k <= j < |h|
      ensures cutoff < h[j] <= now
    {
      assert t[k - base] == h[k];
    }
    CountSuffix(h, cutoff, now, k);
  }

  lemma TailAppended(h: seq<Time>, t: seq<Time>, now: Time)
    requires Tail(h, t)
    ensures Tail(h + [now], t + [now])
  {
    var h', t' := h + [now], t + [now];
    forall j | |h'| - |t'| <= j < |h'|
      ensures t'[j - (|h'| - |t'|)] == h'[j]
    {
      if j < |h| {
        assert t[j - (|h| - |t|)] == h[j];
      }
    }
  }

  lemma AcceptKeepsKey(
      h: seq<Time>, c: Option<Cached>, quota: nat, window: nat, clock: Time, now: Time, left: seq<Time>)
    requires KeyOk(h, c, quota, window, clock) && clock <= now
    requires Tail(h, left) && Count(h, now - window, now) < quota
    requires forall j :: 0 <= j < |h| - |left| ==> h[j] <= now - window
    ensures KeyOk(h + [now], Some(Cached(left + [now], now)), quota, window, now)
  {
    GetMissesNothing(h, c, quota, window, clock, now);
    AppendSpaced(h, quota, window, now);
    TailAppended(h, left, now);
  }

  /** An accept made with fewer than `quota` stamps in the window keeps the spacing. */
  lemma AppendSpaced(h: seq<Time>, quota: nat, window: nat, now: Time)
    requires Sorted(h) && Spaced(h, quota, window)
    requires forall i :: 0 <= i < |h| ==> h[i] <= now
    requires Count(h, now - window, now) < quota
    ensures Sorted(h + [now]) && Spaced(h + [now], quota, window)
  {
    var n := |h|;
    if n >= quota {
      var i := n - quota;
      var j := AtOrBefore(h, now - window);
      CountSuffix(h, now - window, now, j);
      assert j > i;
      assert h[i] + window <= now;
    }
  }

  // ---- All keys together ----

  function AcceptsOf(accepts: map<Key, seq<Time>>, key: Key): (r: seq<Time>)
  {
    if key in accepts then accepts[key] else []
  }

  function EntryOf(cache: map<Key, Cached>, key: Key): (r: Option<Cached>)
  {
    if key in cache then Some(cache[key]) else None
  }

  ghost predicate AllOk(accepts: map<Key, seq<Time>>, cache: map<Key, Cached>, quota: nat, window: nat, clock: Time)
  {
    forall key :: KeyOk(AcceptsOf(accepts, key), EntryOf(cache, key), quota, window, clock)
  }

  lemma DeniedKeepsAll(
      accepts: map<Key, seq<Time>>, cache: map<Key, Cached>, quota: nat, window: nat, clock: Time, now: Time)
    requires AllOk(accepts, cache, quota, window, clock) && clock <= now
    ensures AllOk(accepts, cache, quota, window, now)
  {
    forall key
      ensures KeyOk(AcceptsOf(accepts, key), EntryOf(cache, key), quota, window, now)
    {
      assert KeyOk(AcceptsOf(accepts, key), EntryOf(cache, key), quota, window, clock);
    }
  }

  lemma AcceptedKeepsAll(
      accepts: map<Key, seq<Time>>, cache: map<Key, Cached>, quota: nat, window: nat, clock: Time, now: Time,
      key: Key, h: seq<Time>, c: Cached)
    requires AllOk(accepts, cache, quota, window, clock) && clock <= now
    requires KeyOk(h, Some(c), quota, window, now)
    ensures AllOk(accepts[key := h], cache[key := c], quota, window, now)
  {
    DeniedKeepsAll(accepts, cache, quota, window, clock, now);
    var accepts', cache' := accepts[key := h], cache[key := c];
    forall k
      ensures KeyOk(AcceptsOf(accepts', k), EntryOf(cache', k), quota, window, now)
    {
      if k != key {
        assert KeyOk(AcceptsOf(accepts, k), EntryOf(cache, k), quota, window, now);
      }
    }
  }

  /** The pruned stamps Allow looks at. */
  function Recent(stamps: seq<Time>, cutoff: Time): (r: seq<Time>)
  {
    if stamps == [] || stamps[0] > cutoff then stamps else Recent(stamps[1..], cutoff)
  }

  lemma {:induction false} RecentIsSuffix(stamps: seq<Time>, cutoff: Time) returns (i: nat)
    ensures i <= |stamps| && Recent(stamps, cutoff) == stamps[i..]
    ensures forall j :: 0 <= j < i ==> stamps[j] <= cutoff
    ensures i < |stamps| ==> stamps[i] > cutoff
  {
    if stamps == [] || stamps[0] > cutoff {
      i := 0;
    } else {
      var i' := RecentIsSuffix(stamps[1..], cutoff);
      i := i' + 1;
      assert stamps[1..][i'..] == stamps[i..];
      assert forall j :: 1 <= j < i ==> stamps[j] == stamps[1..][j - 1];
    }
  }

  /** One decision, for a key with accepts `h` and cached entry `c`. */
  lemma Decision(h: seq<Time>, c: Option<Cached>, quota: nat, window: nat, clock: Time, now: Time)
    requires KeyOk(h, c, quota, window, clock) && clock <= now
    ensures var left := Recent(Get(c, window, now), now - window);
            && |left| == Count(h, now - window, now)
            && (|left| < quota ==> KeyOk(h + [now], Some(Cached(left + [now], now)), quota, window, now))
  {
    var t := Get(c, window, now);
    GetMissesNothing(h, c, quota, window, clock, now);
    var i := RecentIsSuffix(t, now - window);
    PrunedIsWindow(h, t, now - window, now, i);
    if |t[i..]| < quota {
      AcceptKeepsKey(h, c, quota, window, clock, now, t[i..]);
    }
  }

  class RateLimiter {
    const quota: nat
    const window: nat
    var cache: map<Key, Cached>
    // Every accept so far, and the last time Allow was called.
    ghost var accepts: map<Key, seq<Time>>
    ghost var clock: Time

    constructor (quota: nat, window: nat, now: Time)
      ensures Valid() && accepts == map[] && clock == now && this.quota == quota && this.window == window
    {
      this.quota, this.window, cache, accepts, clock := quota, window, map[], map[], now;
    }

    ghost predicate Valid()
      reads this
    {
      AllOk(accepts, cache, quota, window, clock)
    }

    /** The prune loop: drop the stamps at or before the cutoff. */
    method Prune(stamps: seq<Time>, cutoff: Time) returns (r: seq<Time>)
      ensures r == Recent(stamps, cutoff)
    {
      var i := 0;
      while i < |stamps| && stamps[i] <= cutoff
        invariant i <= |stamps| && Recent(stamps, cutoff) == Recent(stamps[i..], cutoff)
      {
        assert stamps[i..][1..] == stamps[i + 1..];
        i := i + 1;
      }
      return stamps[i..];
    }

    /**
     Allow is true exactly when fewer than `quota` earlier accepts of the key lie in
     (now - window, now]: neither pruning nor expiry ever changes an answer.
     */
    method Allow(key: Key, now: Time) returns (ok: bool)
      requires Valid() && clock <= now
      modifies this
      ensures Valid() && clock == now
      ensures ok <==> Count(AcceptsOf(old(accepts), key), now - window, now) < quota
      ensures accepts == if ok then old(accepts)[key := AcceptsOf(old(accepts), key) + [now]] else old(accepts)
      ensures !ok ==> cache == old(cache)
    {
      ghost var h := AcceptsOf(accepts, key);
      assert KeyOk(h, EntryOf(cache, key), quota, window, clock);
      Decision(h, EntryOf(cache, key), quota, window, clock, now);
      var stamps := Prune(Get(EntryOf(cache, key), window, now), now - window);
      if |stamps| >= quota {
        DeniedKeepsAll(accepts, cache, quota, window, clock, now);
        clock := now;
        return false;
      }
      stamps := stamps + [now];
      AcceptedKeepsAll(accepts, cache, quota, window, clock, now, key, h + [now], Cached(stamps, now));
      cache := cache[key := Cached(stamps, now)];
      accepts := accepts[key := h + [now]];
      clock := now;
      return true;
    }

    /** At every moment and for every key, no window holds more than `quota` accepts. */
    lemma NoWindowExceedsQuota(key: Key, t: Time)
      requires Valid()
      ensures Count(AcceptsOf(accepts, key), t - window, t) <= quota
    {
      assert KeyOk(AcceptsOf(accepts, key), EntryOf(cache, key), quota, window, clock);
      SpacedNeverExceeds(AcceptsOf(accepts, key), quota, window, t);
    }
  }
}
