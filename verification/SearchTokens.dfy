/** The cache of search tokens: it forgets the least recently used name, unless that one is blank. */
module SearchTokens {
  const SEARCH_TOKEN_CACHE_LIMIT := 500

  /** A cache key; the key of a blank name is empty. */
  type Key = string

  const BLANK: Key := ""

  // ---- lists of distinct keys, oldest first ----

  function Remove(keys: seq<Key>, k: Key): seq<Key> {
    if keys == [] then [] else if keys[0] == k then Remove(keys[1..], k) else [keys[0]] + Remove(keys[1..], k)
  }

  predicate Distinct(keys: seq<Key>) {
    forall i, j | 0 <= i < j < |keys| :: keys[i] != keys[j]
  }

  lemma {:induction false} RemoveConcat(a: seq<Key>, b: seq<Key>, k: Key)
    ensures Remove(a + b, k) == Remove(a, k) + Remove(b, k)
  {
    if a == [] {
      assert a + b == b;
    } else {
      assert (a + b)[1..] == a[1..] + b;
      RemoveConcat(a[1..], b, k);
    }
  }

  lemma {:induction false} RemoveMeans(keys: seq<Key>, k: Key)
    ensures forall x :: x in Remove(keys, k) <==> x in keys && x != k
    ensures k !in keys ==> Remove(keys, k) == keys
    ensures |Remove(keys, k)| <= |keys|
    ensures Distinct(keys) ==> Distinct(Remove(keys, k))
    ensures Distinct(keys) && k in keys ==> |Remove(keys, k)| == |keys| - 1
  {
    if keys != [] {
      RemoveMeans(keys[1..], k);
      assert keys == [keys[0]] + keys[1..];
      if Distinct(keys) {
        assert forall i | 0 <= i < |keys[1..]| :: keys[1..][i] == keys[i + 1];
        assert keys[0] !in keys[1..];
      }
    }
  }

  /** The most recently used `n` keys. */
  function Newest(keys: seq<Key>, n: nat): seq<Key> {
    if |keys| <= n then keys else keys[|keys| - n..]
  }

  // ---- the specification: recency ----

  /** Every key used, in the order of its last use. */
  function Recency(used: seq<Key>): seq<Key> {
    if used == [] then []
    else
      var last := used[|used| - 1];
      Remove(Recency(used[..|used| - 1]), last) + [last]
  }

  /** The keys used since the last use of `k`. */
  function Since(used: seq<Key>, k: Key): set<Key> {
    if used == [] || used[|used| - 1] == k then {}
    else Since(used[..|used| - 1], k) + {used[|used| - 1]}
  }

  /** Used at some position, with no use of `k` there or behind. */
  ghost predicate UsedAfter(used: seq<Key>, k: Key, x: Key, i: nat) {
    i < |used| && used[i] == x && k !in used[i..]
  }

  lemma {:induction false} SinceMeans(used: seq<Key>, k: Key, x: Key)
    ensures x in Since(used, k) <==> exists i: nat :: UsedAfter(used, k, x, i)
  {
    if used != [] {
      var before, last := used[..|used| - 1], used[|used| - 1];
      SinceMeans(before, k, x);
      forall i: nat | i < |before|
        ensures UsedAfter(before, k, x, i) && last != k <==> UsedAfter(used, k, x, i)
      {
        assert used[i..] == before[i..] + [last];
      }
      assert last != k && last == x ==> UsedAfter(used, k, x, |before|) by {
        assert used[|before|..] == [last];
      }
      if i: nat :| UsedAfter(used, k, x, i) {
        assert last in used[i..] by { assert used[i..][|used| - 1 - i] == last; }
        assert i < |before| ==> UsedAfter(before, k, x, i);
      }
      if last != k && (exists i: nat :: UsedAfter(before, k, x, i)) {
        var i: nat :| UsedAfter(before, k, x, i);
        assert UsedAfter(used, k, x, i);
      }
    }
  }

  lemma {:induction false} RecencyMeans(used: seq<Key>)
    ensures Distinct(Recency(used)) && forall k :: k in Recency(used) <==> k in used
  {
    if used != [] {
      var before, last := used[..|used| - 1], used[|used| - 1];
      RecencyMeans(before);
      RemoveMeans(Recency(before), last);
      assert used == before + [last];
    }
  }

  lemma RemoveAround(a: seq<Key>, k: Key, b: seq<Key>, x: Key)
    requires x != k
    ensures Remove(a + [k] + b, x) == Remove(a, x) + [k] + Remove(b, x)
  {
    RemoveConcat(a + [k], b, x);
    RemoveConcat(a, [k], x);
  }

  /** A used key stands before exactly the keys used since. */
  lemma {:induction false} RecencySplits(used: seq<Key>, k: Key) returns (older: seq<Key>, newer: seq<Key>)
    requires k in used
    ensures Recency(used) == older + [k] + newer
    ensures |newer| == |Since(used, k)| && forall x :: x in newer <==> x in Since(used, k)
  {
    var before, last := used[..|used| - 1], used[|used| - 1];
    RecencyMeans(used);
    if last == k {
      older, newer := Remove(Recency(before), last), [];
    } else {
      assert used == before + [last];
      var a, b := RecencySplits(before, k);
      RemoveAround(a, k, b, last);
      RemoveMeans(b, last);
      older, newer := Remove(a, last), Remove(b, last) + [last];
      assert older + [k] + newer == (older + [k] + Remove(b, last)) + [last];
    }
    SuffixSize(older + [k], newer, Since(used, k));
  }

  lemma SuffixSize(a: seq<Key>, b: seq<Key>, keys: set<Key>)
    requires Distinct(a + b) && forall x :: x in b <==> x in keys
    ensures |b| == |keys|
  {
    assert forall i | 0 <= i < |b| :: b[i] == (a + b)[|a| + i];
    DistinctSize(b, keys);
  }

  lemma {:induction false} DistinctSize(b: seq<Key>, keys: set<Key>)
    requires Distinct(b) && forall x :: x in b <==> x in keys
    ensures |b| == |keys|
  {
    if b == [] {
      assert keys == {};
    } else {
      var last := b[|b| - 1];
      assert last in b;
      assert b == b[..|b| - 1] + [last];
      assert forall x :: x in b[..|b| - 1] <==> x in keys - {last};
      DistinctSize(b[..|b| - 1], keys - {last});
    }
  }

  // ---- the cache ----

  /** What one lookup does to the keys, in insertion order. The oldest key is deleted only when it is
      not empty. */
  function Touch(keys: seq<Key>, k: Key): seq<Key> {
    if k in keys then Remove(keys, k) + [k]
    else
      var grown := keys + [k];
      if |grown| > SEARCH_TOKEN_CACHE_LIMIT && grown[0] != BLANK then Remove(grown, grown[0]) else grown
  }

  function CacheKeys(used: seq<Key>): seq<Key> {
    if used == [] then [] else Touch(CacheKeys(used[..|used| - 1]), used[|used| - 1])
  }

  /** The longest stretch of different keys that ever followed a blank name, that name included. */
  function Reach(used: seq<Key>): nat {
    if used == [] then 0
    else
      var before, now := Reach(used[..|used| - 1]), |Since(used, BLANK)| + 1;
      if BLANK in used && now > before then now else before
  }

  /** How many keys the cache has room for by now. */
  function Capacity(used: seq<Key>): nat {
    if Reach(used) > SEARCH_TOKEN_CACHE_LIMIT then Reach(used) else SEARCH_TOKEN_CACHE_LIMIT
  }

  /** No moment at which five hundred keys have been used since the last blank name. */
  predicate BlankIsRecent(used: seq<Key>) {
    forall p | 0 <= p <= |used| :: "" in used[..p] ==> |Since(used[..p], "")| < 500
  }

  /** Reach is the greatest of these stretches over the prefixes of a run. */
  lemma {:induction false} ReachIsGreatest(used: seq<Key>, p: nat)
    requires p <= |used| && BLANK in used[..p]
    ensures |Since(used[..p], BLANK)| + 1 <= Reach(used)
  {
    var before := used[..|used| - 1];
    if p < |used| {
      assert before[..p] == used[..p];
      ReachIsGreatest(before, p);
    } else {
      assert used[..p] == used;
    }
  }

  lemma {:induction false} ReachIsReached(used: seq<Key>)
    ensures Reach(used) > 0 ==> exists p :: 0 <= p <= |used| && BLANK in used[..p] && |Since(used[..p], BLANK)| + 1 == Reach(used)
  {
    if used != [] {
      var before := used[..|used| - 1];
      ReachIsReached(before);
      assert used[..|used|] == used;
      assert forall p | 0 <= p <= |before| :: before[..p] == used[..p];
    }
  }

  lemma {:induction false} RecentIffWithinLimit(used: seq<Key>)
    ensures BlankIsRecent(used) <==> Capacity(used) == SEARCH_TOKEN_CACHE_LIMIT
  {
    ReachIsReached(used);
    forall p | 0 <= p <= |used| && BLANK in used[..p]
      ensures |Since(used[..p], BLANK)| + 1 <= Reach(used)
    {
      ReachIsGreatest(used, p);
    }
  }

  lemma {:induction false} CacheKeysAreDistinct(used: seq<Key>)
    ensures Distinct(CacheKeys(used))
  {
    if used != [] {
      CacheKeysAreDistinct(used[..|used| - 1]);
      TouchKeepsDistinct(CacheKeys(used[..|used| - 1]), used[|used| - 1]);
    }
  }

  lemma TouchKeepsDistinct(keys: seq<Key>, k: Key)
    requires Distinct(keys)
    ensures Distinct(Touch(keys, k)) && k in Touch(keys, k)
    ensures k !in keys && |keys| >= SEARCH_TOKEN_CACHE_LIMIT && keys[0] != BLANK ==> Touch(keys, k) == keys[1..] + [k]
  {
    RemoveMeans(keys, k);
    if k !in keys {
      var grown := keys + [k];
      RemoveFirst(grown);
      assert |keys| > 0 ==> grown[1..] == keys[1..] + [k];
    }
  }

  lemma RemoveFirst(keys: seq<Key>)
    requires keys != [] && Distinct(keys)
    ensures Remove(keys, keys[0]) == keys[1..]
  {
    assert forall i | 0 <= i < |keys[1..]| :: keys[1..][i] == keys[i + 1];
    RemoveMeans(keys[1..], keys[0]);
  }

  lemma DistinctParts(a: seq<Key>, b: seq<Key>)
    requires Distinct(a + b)
    ensures Distinct(a) && Distinct(b) && forall k | k in b :: k !in a
  {
    assert forall i | 0 <= i < |a| :: a[i] == (a + b)[i];
    assert forall i | 0 <= i < |b| :: b[i] == (a + b)[|a| + i];
  }

  lemma NewestOfConcat(a: seq<Key>, b: seq<Key>, n: nat)
    requires |b| == n || a == []
    requires |b| <= n
    ensures Newest(a + b, n) == b
  {
  }

  /** One lookup of a cached key, where the cache holds the `newer` part of all keys. */
  lemma {:induction false} TouchHit(older: seq<Key>, newer: seq<Key>, k: Key, n: nat)
    requires Distinct(older + newer) && k in newer && (older == [] || |newer| == n) && |newer| <= n
    ensures Touch(newer, k) == Newest(Remove(older + newer, k) + [k], n)
  {
    DistinctParts(older, newer);
    RemoveConcat(older, newer, k);
    RemoveMeans(older, k);
    RemoveMeans(newer, k);
    assert older + Remove(newer, k) + [k] == older + (Remove(newer, k) + [k]);
    NewestOfConcat(older, Remove(newer, k) + [k], n);
  }

  /** One lookup of a key that is not cached, in a full cache: the oldest key goes, */
  lemma {:induction false} TouchMiss(older: seq<Key>, newer: seq<Key>, k: Key, n: nat)
    requires Distinct(older + newer) && k !in newer && |newer| == n >= SEARCH_TOKEN_CACHE_LIMIT && newer[0] != BLANK
    ensures Touch(newer, k) == Newest(Remove(older + newer, k) + [k], n)
  {
    DistinctParts(older, newer);
    RemoveConcat(older, newer, k);
    RemoveMeans(newer, k);
    TouchKeepsDistinct(newer, k);
    NewestAfterMiss(Remove(older, k), newer, k);
  }

  lemma NewestAfterMiss(rest: seq<Key>, newer: seq<Key>, k: Key)
    requires newer != []
    ensures Newest(rest + newer + [k], |newer|) == newer[1..] + [k]
  {
  }

  /** unless it is blank, */
  lemma {:induction false} TouchMissOnBlank(older: seq<Key>, newer: seq<Key>, k: Key, n: nat)
    requires Distinct(older + newer) && k !in newer && |newer| == n >= SEARCH_TOKEN_CACHE_LIMIT && newer[0] == BLANK
    ensures Touch(newer, k) == newer + [k] == Newest(Remove(older + newer, k) + [k], n + 1)
  {
    RemoveConcat(older, newer, k);
    RemoveMeans(newer, k);
    assert (newer + [k])[0] == newer[0];
    assert Remove(older, k) + newer + [k] == Remove(older, k) + (newer + [k]);
    NewestOfConcat(Remove(older, k), newer + [k], n + 1);
  }

  /** or the cache is not full. */
  lemma {:induction false} TouchMissUnderLimit(newer: seq<Key>, k: Key)
    requires Distinct(newer) && k !in newer && |newer| < SEARCH_TOKEN_CACHE_LIMIT
    ensures Touch(newer, k) == Newest(Remove(newer, k) + [k], SEARCH_TOKEN_CACHE_LIMIT)
  {
    RemoveMeans(newer, k);
  }

  lemma SizeOfAdd(s: set<Key>, k: Key)
    ensures |s + {k}| == if k in s then |s| else |s| + 1
  {
    if k in s {
      assert s + {k} == s;
    }
  }

  // ---- how the room grows ----

  /** The keys since the last blank name, as one lookup changes them. */
  lemma {:induction false} SinceStep(before: seq<Key>, k: Key)
    ensures Since(before + [k], BLANK) == if k == BLANK then {} else Since(before, BLANK) + {k}
    ensures Reach(before + [k]) ==
      var now := |Since(before + [k], BLANK)| + 1;
      if BLANK in before + [k] && now > Reach(before) then now else Reach(before)
  {
    assert (before + [k])[..|before|] == before;
  }

  /** A blank name is always cached: it stands in front of exactly the keys used since. */
  lemma {:induction false} BlankIsCached(before: seq<Key>, older: seq<Key>, newer: seq<Key>) returns (since: seq<Key>)
    requires BLANK in before && Recency(before) == older + newer && (older == [] || |newer| >= Reach(before))
    ensures |newer| > |since| == |Since(before, BLANK)| && (forall x :: x in since <==> x in Since(before, BLANK))
    ensures newer[|newer| - |since| - 1] == BLANK && newer[|newer| - |since|..] == since
  {
    var front;
    front, since := RecencySplits(before, BLANK);
    assert before[..|before|] == before;
    ReachIsGreatest(before, |before|);
    SecondPart(older, newer, front, since);
  }

  /** Two ways to part one list. */
  lemma SecondPart(older: seq<Key>, newer: seq<Key>, front: seq<Key>, since: seq<Key>)
    requires older + newer == front + [BLANK] + since && |older| <= |front|
    ensures |newer| > |since| && newer[|newer| - |since| - 1] == BLANK && newer[|newer| - |since|..] == since
  {
    var all := front + [BLANK] + since;
    var n := |newer| - |since|;
    assert newer[n - 1] == all[|front|] == BLANK;
    assert forall i | 0 <= i < |since| :: newer[n + i] == all[|front| + 1 + i] == since[i];
  }

  lemma {:induction false} ReachIsUsed(used: seq<Key>)
    ensures Reach(used) <= |Recency(used)|
  {
    if used != [] {
      var before, last := used[..|used| - 1], used[|used| - 1];
      ReachIsUsed(before);
      RecencyMeans(before);
      RemoveMeans(Recency(before), last);
      if BLANK in used {
        var older, newer := RecencySplits(used, BLANK);
      }
    }
  }

  /** A hit takes no room. */
  lemma {:induction false} CapacityAfterHit(before: seq<Key>, k: Key, older: seq<Key>, newer: seq<Key>)
    requires Recency(before) == older + newer && (older == [] || |newer| >= Reach(before)) && k in newer
    requires |newer| <= Capacity(before)
    ensures Capacity(before + [k]) == Capacity(before)
  {
    SinceStep(before, k);
    if BLANK in before && k != BLANK {
      var since := BlankIsCached(before, older, newer);
      SizeOfAdd(Since(before, BLANK), k);
      HitInFront(newer, since, k);
    }
  }

  /** A cached key that has not been used since the blank one stands before it. */
  lemma HitInFront(newer: seq<Key>, since: seq<Key>, k: Key)
    requires |since| < |newer| && newer[|newer| - |since|..] == since && newer[|newer| - |since| - 1] == BLANK
    requires k in newer && k != BLANK
    ensures k in since || |since| + 2 <= |newer|
  {
    var i :| 0 <= i < |newer| && newer[i] == k;
    if i >= |newer| - |since| {
      assert since[i - (|newer| - |since|)] == k;
    }
  }

  /** Nor does a miss that evicts; a miss behind a blank key takes room for one more. */
  lemma {:induction false} CapacityAfterMiss(before: seq<Key>, k: Key, older: seq<Key>, newer: seq<Key>)
    requires Recency(before) == older + newer && |newer| == Capacity(before) && k !in newer
    ensures Capacity(before + [k]) == if newer[0] == BLANK then Capacity(before) + 1 else Capacity(before)
  {
    SinceStep(before, k);
    RecencyMeans(before);
    if newer[0] == BLANK {
      assert (older + newer)[|older|] == BLANK;
    }
    if BLANK in before {
      var since := BlankIsCached(before, older, newer);
      SizeOfAdd(Since(before, BLANK), k);
      assert newer[|newer| - |since| - 1] in newer;
      assert forall x | x in since :: x in newer;
      if newer[0] == BLANK {
        DistinctParts(older, newer);
      }
    }
  }

  lemma {:induction false} CapacityUnderLimit(before: seq<Key>, k: Key)
    requires |Recency(before)| < SEARCH_TOKEN_CACHE_LIMIT
    ensures Capacity(before) == Capacity(before + [k]) == SEARCH_TOKEN_CACHE_LIMIT
  {
    ReachIsUsed(before);
    ReachIsUsed(before + [k]);
    RemoveMeans(Recency(before), k);
    assert (before + [k])[..|before|] == before;
  }

  /** One lookup, where the cache holds the `newer` part of all keys. */
  lemma {:induction false} TouchStep(before: seq<Key>, k: Key, older: seq<Key>, newer: seq<Key>)
    requires Distinct(older + newer) && Recency(before) == older + newer
    requires |newer| == Capacity(before) || (older == [] && |newer| < Capacity(before) == SEARCH_TOKEN_CACHE_LIMIT)
    ensures Touch(newer, k) == Newest(Remove(older + newer, k) + [k], Capacity(before + [k]))
  {
    var n := Capacity(before);
    if k in newer {
      CapacityAfterHit(before, k, older, newer);
      TouchHit(older, newer, k, n);
    } else if |newer| < n {
      assert older + newer == newer;
      CapacityUnderLimit(before, k);
      TouchMissUnderLimit(newer, k);
    } else {
      CapacityAfterMiss(before, k, older, newer);
      if newer[0] == BLANK {
        TouchMissOnBlank(older, newer, k, n);
      } else {
        TouchMiss(older, newer, k, n);
      }
    }
  }

  lemma {:induction false} CacheStep(before: seq<Key>, k: Key)
    requires CacheKeys(before) == Newest(Recency(before), Capacity(before))
    ensures CacheKeys(before + [k]) == Newest(Recency(before + [k]), Capacity(before + [k]))
  {
    var all, n := Recency(before), Capacity(before);
    var cut := if |all| <= n then 0 else |all| - n;
    assert all == all[..cut] + all[cut..] && all[cut..] == Newest(all, n);
    RecencyMeans(before);
    ReachIsUsed(before);
    TouchStep(before, k, all[..cut], all[cut..]);
    assert (before + [k])[..|before|] == before;
  }

  // ---- what the cache holds, over any run ----

  /** The cache is exactly the most recently used keys, as many as it has room for. */
  lemma {:induction false} CacheIsNewest(used: seq<Key>)
    ensures CacheKeys(used) == Newest(Recency(used), Capacity(used))
  {
    if used != [] {
      CacheIsNewest(used[..|used| - 1]);
      CacheStep(used[..|used| - 1], used[|used| - 1]);
      assert used == used[..|used| - 1] + [used[|used| - 1]];
    }
  }

  /** A key is cached exactly when it was used and fewer keys than there is room for have been used since. */
  lemma {:induction false} CachedIff(used: seq<Key>, k: Key)
    ensures k in CacheKeys(used) <==> k in used && |Since(used, k)| < Capacity(used)
  {
    CacheIsNewest(used);
    RecencyMeans(used);
    if k in used {
      var n := Capacity(used);
      var all := Recency(used);
      var older, newer := RecencySplits(used, k);
      assert all[|older|] == k;
      if |newer| < n {
        assert Newest(all, n)[|older| - (|all| - |Newest(all, n)|)] == k;
      } else {
        var cut := |all| - n;
        assert forall i | 0 <= i < n :: Newest(all, n)[i] == all[cut + i];
      }
    }
  }

  /** The cache is within its limit exactly when blank names have stayed recent, at every moment so far: a
      caller that never looks up a blank name is safe, and once the limit is passed the room never shrinks. */
  lemma {:induction false} CacheIsBoundedIff(used: seq<Key>)
    ensures |CacheKeys(used)| <= 500 <==> BlankIsRecent(used)
    ensures !BlankIsRecent(used) ==> |CacheKeys(used)| == Reach(used)
  {
    CacheIsNewest(used);
    ReachIsUsed(used);
    RecentIffWithinLimit(used);
  }

  lemma NoBlankIsRecent(used: seq<Key>)
    requires "" !in used
    ensures BlankIsRecent(used)
  {
  }

  function As(n: nat): (name: Key)
    ensures |name| == n
  {
    if n == 0 then "" else As(n - 1) + ['a']
  }

  /** One blank name, then `n` different names. */
  function BlankThen(n: nat): seq<Key> {
    if n == 0 then [BLANK] else BlankThen(n - 1) + [As(n)]
  }

  ghost predicate Counts(used: seq<Key>, n: nat) {
    BLANK in used && |Since(used, BLANK)| == n && forall x | x in Since(used, BLANK) :: |x| <= n
  }

  lemma {:induction false} LongerKeyCounts(used: seq<Key>, k: Key, n: nat)
    requires Counts(used, n) && |k| == n + 1
    ensures Counts(used + [k], n + 1)
  {
    SinceStep(used, k);
    SizeOfAdd(Since(used, BLANK), k);
  }

  lemma {:induction false} BlankThenCounts(n: nat)
    ensures Counts(BlankThen(n), n)
  {
    if n > 0 {
      BlankThenCounts(n - 1);
      LongerKeyCounts(BlankThen(n - 1), As(n), n - 1);
    }
  }

  /** There is no bound: one blank name and enough others, and the cache holds them all. */
  lemma {:induction false} CacheHasNoBound(n: nat)
    requires n >= 500
    ensures |CacheKeys(BlankThen(n))| > n
  {
    var used := BlankThen(n);
    BlankThenCounts(n);
    assert used[..|used|] == used;
    ReachIsGreatest(used, |used|);
    CacheIsNewest(used);
    ReachIsUsed(used);
  }

  // ---- the composable's cache ----

  /** One entry of the Map; a list of entries is a Map in insertion order. */
  datatype Entry<T> = Entry(key: Key, tokens: T)

  function KeysOf<T>(entries: seq<Entry<T>>): seq<Key> {
    if entries == [] then [] else [entries[0].key] + KeysOf(entries[1..])
  }

  /** Map.delete */
  function Delete<T>(entries: seq<Entry<T>>, k: Key): seq<Entry<T>> {
    if entries == [] then []
    else if entries[0].key == k then Delete(entries[1..], k)
    else [entries[0]] + Delete(entries[1..], k)
  }

  /** Map.get: the position of a key, or -1. */
  function Find<T>(entries: seq<Entry<T>>, k: Key): (i: int)
    ensures -1 <= i < |entries| && (i >= 0 ==> entries[i].key == k)
    ensures i >= 0 <==> k in KeysOf(entries)
  {
    if entries == [] then -1
    else if entries[0].key == k then 0
    else
      var i := Find(entries[1..], k);
      if i < 0 then -1 else i + 1
  }

  lemma {:induction false} KeysOfDelete<T>(entries: seq<Entry<T>>, k: Key)
    ensures KeysOf(Delete(entries, k)) == Remove(KeysOf(entries), k)
    ensures forall e :: e in Delete(entries, k) ==> e in entries
  {
    if entries != [] {
      KeysOfDelete(entries[1..], k);
      assert KeysOf(entries)[1..] == KeysOf(entries[1..]);
      if entries[0].key != k {
        assert ([entries[0]] + Delete(entries[1..], k))[1..] == Delete(entries[1..], k);
      }
    }
  }

  lemma {:induction false} KeysOfAppend<T>(entries: seq<Entry<T>>, e: Entry<T>)
    ensures KeysOf(entries + [e]) == KeysOf(entries) + [e.key]
  {
    if entries != [] {
      assert (entries + [e])[1..] == entries[1..] + [e];
      KeysOfAppend(entries[1..], e);
    }
  }

  lemma {:induction false} KeysOfLength<T>(entries: seq<Entry<T>>)
    ensures |KeysOf(entries)| == |entries|
  {
    if entries != [] {
      KeysOfLength(entries[1..]);
    }
  }

  class TokenCache<T> {
    /** trim and toLowerCase, and the conversion to pinyin. */
    const keyOf: string -> Key
    const tokensOf: string -> T
    var entries: seq<Entry<T>>
    ghost var names: seq<string>

    ghost predicate Valid()
      reads this
    {
      && KeysOf(entries) == CacheKeys(Keys(names))
      && forall e | e in entries :: Computed(e.key, e.tokens)
    }

    ghost function Keys(names: seq<string>): seq<Key> {
      seq(|names|, i requires 0 <= i < |names| => keyOf(names[i]))
    }

    /** The tokens are those of some name looked up under that key. */
    ghost predicate Computed(k: Key, tokens: T)
      reads this
    {
      exists name :: name in names && keyOf(name) == k && tokens == tokensOf(name)
    }

    constructor (keyOf: string -> Key, tokensOf: string -> T)
      ensures Valid() && names == [] && this.keyOf == keyOf && this.tokensOf == tokensOf
    {
      this.keyOf, this.tokensOf := keyOf, tokensOf;
      entries, names := [], [];
    }

    /** The keys follow the history of names, and the answer was computed for a name with the same key:
        for this very name unless its key was cached. */
    method GetSearchTokens(name: string) returns (tokens: T)
      requires Valid()
      modifies this
      ensures Valid() && names == old(names) + [name]
      ensures Computed(keyOf(name), tokens)
      ensures keyOf(name) !in CacheKeys(Keys(old(names))) ==> tokens == tokensOf(name)
    {
      var cacheKey := keyOf(name);
      names := names + [name];
      assert Keys(names)[..|names| - 1] == Keys(old(names)) && Keys(names)[|names| - 1] == cacheKey;
      assert forall e | e in entries :: Computed(e.key, e.tokens) by {
        forall e | e in entries
          ensures Computed(e.key, e.tokens)
        {
          var n :| n in old(names) && keyOf(n) == e.key && e.tokens == tokensOf(n);
          assert n in names;
        }
      }
      var cached := Find(entries, cacheKey);
      if cached >= 0 {
        tokens := entries[cached].tokens;
        assert entries[cached] in entries;
        KeysOfDelete(entries, cacheKey);
        KeysOfAppend(Delete(entries, cacheKey), Entry(cacheKey, tokens));
        entries := Delete(entries, cacheKey) + [Entry(cacheKey, tokens)];
        return;
      }
      tokens := tokensOf(name);
      assert name in names;
      KeysOfAppend(entries, Entry(cacheKey, tokens));
      entries := entries + [Entry(cacheKey, tokens)];
      KeysOfLength(entries);
      if |entries| > SEARCH_TOKEN_CACHE_LIMIT {
        var oldestKey := entries[0].key;
        if oldestKey != BLANK {
          KeysOfDelete(entries, oldestKey);
          entries := Delete(entries, oldestKey);
        }
      }
    }
  }
}
