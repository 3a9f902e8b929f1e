/** The course store's cache: entries live for five minutes, are dropped lazily, and can be invalidated
    by key prefix. */
module TtlCache {
  import opened Options
  import opened Basics

  /** In milliseconds. */
  const CACHE_TTL := 300000

  datatype Item<T> = Item(data: T, timestamp: int)

  type Cache<T> = map<string, Item<T>>

  /** `set` reads the clock twice: to prune, then to stamp. */
  datatype Event<T> =
    | Get(key: string, now: int)
    | Set(key: string, data: T, pruned: int, now: int)
    | Invalidate(prefix: string)
    | Clear

  predicate Fresh<T>(item: Item<T>, now: int) {
    now - item.timestamp <= CACHE_TTL
  }

  function Pruned<T>(c: Cache<T>, now: int): Cache<T> {
    map k | k in c && Fresh(c[k], now) :: c[k]
  }

  function Without<T>(c: Cache<T>, prefix: string): Cache<T> {
    map k | k in c && !StartsWith(k, prefix) :: c[k]
  }

  function Next<T>(c: Cache<T>, e: Event<T>): Cache<T> {
    match e
    case Get(_, now) => Pruned(c, now)
    case Set(key, data, pruned, now) => Pruned(c, pruned)[key := Item(data, now)]
    case Invalidate(prefix) => Without(c, prefix)
    case Clear => map[]
  }

  function Run<T>(events: seq<Event<T>>): Cache<T> {
    if events == [] then map[] else Next(Run(events[..|events| - 1]), events[|events| - 1])
  }

  // ---- the specification, over the history of calls ----

  /** The latest `set` of a key that no invalidation has followed. */
  function Latest<T>(events: seq<Event<T>>, key: string): Option<Item<T>> {
    if events == [] then None
    else
      var before := Latest(events[..|events| - 1], key);
      match events[|events| - 1]
      case Get(_, _) => before
      case Set(k, data, _, now) => if k == key then Some(Item(data, now)) else before
      case Invalidate(prefix) => if StartsWith(key, prefix) then None else before
      case Clear => None
  }

  /** No call since has found that `set` too old: the last one that could was at the latest time. */
  function Survives<T>(events: seq<Event<T>>, key: string): bool {
    if events == [] then false
    else
      var before := events[..|events| - 1];
      match events[|events| - 1]
      case Get(_, now) => Survives(before, key) && Latest(before, key).Some? && Fresh(Latest(before, key).value, now)
      case Set(k, _, pruned, _) => k == key || (Survives(before, key) && Latest(before, key).Some? && Fresh(Latest(before, key).value, pruned))
      case Invalidate(prefix) => Survives(before, key) && !StartsWith(key, prefix)
      case Clear => false
  }

  /** Whatever the clock does, a key is cached with its latest `set` exactly while that survives. */
  lemma {:induction false} CacheIsLatest<T>(events: seq<Event<T>>, key: string)
    ensures key in Run(events) <==> Survives(events, key)
    ensures Survives(events, key) ==> Latest(events, key) == Some(Run(events)[key])
  {
    if events != [] {
      CacheIsLatest(events[..|events| - 1], key);
    }
  }

  function EndOf<T>(e: Event<T>, before: int): int {
    match e case Get(_, now) => now case Set(_, _, _, now) => now case _ => before
  }

  /** The last time the clock was read, `start` when it never was. */
  function LastTime<T>(events: seq<Event<T>>, start: int): int {
    if events == [] then start else EndOf(events[|events| - 1], LastTime(events[..|events| - 1], start))
  }

  /** The clock never goes back. */
  predicate Monotone<T>(events: seq<Event<T>>, start: int) {
    events == [] ||
    (var before, e := events[..|events| - 1], events[|events| - 1];
     && Monotone(before, start)
     && (e.Get? ==> LastTime(before, start) <= e.now)
     && (e.Set? ==> LastTime(before, start) <= e.pruned <= e.now))
  }

  /** A surviving `set` is not older than the last reading, and one that is young now has survived. */
  lemma {:induction false} YoungSurvives<T>(events: seq<Event<T>>, start: int, key: string, now: int)
    requires Monotone(events, start) && LastTime(events, start) <= now
    ensures Latest(events, key).Some? ==> Latest(events, key).value.timestamp <= LastTime(events, start)
    ensures Latest(events, key).Some? && Fresh(Latest(events, key).value, now) ==> Survives(events, key)
    ensures Survives(events, key) ==> Latest(events, key).Some?
  {
    if events != [] {
      var before, e := events[..|events| - 1], events[|events| - 1];
      YoungSurvives(before, start, key, now);
    }
  }

  function Lookup<T>(c: Cache<T>, key: string, now: int): Option<T> {
    if key in Pruned(c, now) then Some(Pruned(c, now)[key].data) else None
  }

  /** `get` returns exactly the latest `set` of its key that is not older than the limit and has not been
      invalidated since. */
  lemma GetIsLatestFresh<T>(events: seq<Event<T>>, start: int, key: string, now: int)
    requires Monotone(events, start) && LastTime(events, start) <= now
    ensures var latest := Latest(events, key);
      Lookup(Run(events), key, now) == if latest.Some? && Fresh(latest.value, now) then Some(latest.value.data) else None
  {
    CacheIsLatest(events, key);
    YoungSurvives(events, start, key, now);
  }

  /** When the clock goes back, `get` can still miss a young entry, but never returns an old one. */
  lemma GetIsNeverStale<T>(events: seq<Event<T>>, key: string, now: int)
    ensures Lookup(Run(events), key, now).Some? ==>
      Latest(events, key).Some? && Fresh(Latest(events, key).value, now) && Lookup(Run(events), key, now) == Some(Latest(events, key).value.data)
  {
  }

  /** Fresh for five minutes, the last millisecond included. */
  lemma FreshMeans<T>(item: Item<T>, now: int)
    ensures Fresh(item, now) <==> now <= item.timestamp + 5 * 60 * 1000
  {
  }

  // ---- invalidating one department ----

  /** String(n) */
  function Decimal(n: nat): string {
    if n < 10 then ["0123456789"[n]] else Decimal(n / 10) + ["0123456789"[n % 10]]
  }

  function ValueOf(s: string): int {
    if s == [] then 0 else ValueOf(s[..|s| - 1]) * 10 + (s[|s| - 1] as int - '0' as int)
  }

  /** The digits of a number, without a leading zero. */
  lemma {:induction false} DecimalMeans(n: nat)
    ensures Decimal(n) != "" && ValueOf(Decimal(n)) == n
    ensures forall i | 0 <= i < |Decimal(n)| :: '0' <= Decimal(n)[i] <= '9'
    ensures n > 0 ==> Decimal(n)[0] != '0'
  {
    DigitIs(n % 10);
    var last := ["0123456789"[n % 10]];
    if n < 10 {
      assert last[..0] == [] && ValueOf([]) == 0;
    } else {
      DecimalMeans(n / 10);
      assert (Decimal(n / 10) + last)[..|Decimal(n / 10)|] == Decimal(n / 10);
    }
  }

  lemma DigitIs(d: nat)
    requires d < 10
    ensures "0123456789"[d] as int == '0' as int + d
  {
  }

  /** Invalidating a department drops its own entry and no other exactly when no other cached key starts
      with the digits of its id. */
  lemma InvalidationIsExactIff<T>(c: Cache<T>, department: nat)
    ensures Next(c, Invalidate(Decimal(department))) == c - {Decimal(department)} <==>
      forall k | k in c && k != Decimal(department) :: !StartsWith(k, Decimal(department))
  {
    var own := Decimal(department);
    var after := Next(c, Invalidate(own));
    assert own[..|own|] == own;
    if after == c - {own} {
      forall k | k in c && k != own
        ensures !StartsWith(k, own)
      {
        assert k in c - {own};
        assert k in after;
      }
    }
    if forall k | k in c && k != own :: !StartsWith(k, own) {
      assert forall k :: k in after <==> k in c - {own};
    }
  }

  /** Department 1 takes department 10 along. */
  lemma DepartmentOneDropsTen()
    ensures var events: seq<Event<int>> := [Set(Decimal(10), 7, 0, 0), Invalidate(Decimal(1))];
      Latest(events[..1], Decimal(10)) == Some(Item(7, 0)) && Decimal(10) in Run(events[..1]) && Decimal(10) !in Run(events)
  {
  }

  // ---- the cache object ----

  lemma RunAppend<T>(events: seq<Event<T>>, e: Event<T>)
    ensures Run(events + [e]) == Next(Run(events), e)
  {
    assert (events + [e])[..|events|] == events;
  }

  /** No `set` of a key with the prefix counts any more. */
  ghost predicate Forgotten<T>(events: seq<Event<T>>, prefix: string) {
    forall k | StartsWith(k, prefix) :: Latest(events, k) == None
  }

  lemma InvalidateForgets<T>(events: seq<Event<T>>, prefix: string)
    ensures Forgotten(events + [Invalidate(prefix)], prefix)
    ensures Run(events + [Invalidate(prefix)]) == Without(Run(events), prefix)
  {
    assert (events + [Invalidate(prefix)])[..|events|] == events;
  }

  class CacheStore<T> {
    var cache: map<string, Item<T>>
    /** Every call so far. */
    ghost var events: seq<Event<T>>

    /** The map is what those calls leave. */
    ghost predicate Valid()
      reads this
    {
      cache == Run(events)
    }

    constructor ()
      ensures Valid() && events == []
    {
      cache := map[];
      events := [];
    }

    method PruneExpired(now: int)
      modifies this`cache
      ensures cache == Pruned(old(cache), now)
    {
      var todo := cache.Keys;
      while todo != {}
        invariant todo <= old(cache).Keys
        invariant cache.Keys <= old(cache).Keys && forall k | k in cache :: cache[k] == old(cache)[k]
        invariant forall k | k in old(cache) :: k in cache <==> k in todo || Fresh(old(cache)[k], now)
        decreases |todo|
      {
        var key :| key in todo;
        todo := todo - {key};
        if now - cache[key].timestamp > CACHE_TTL {
          cache := cache - {key};
        }
      }
    }

    /** Never a stale entry; and, while the clock does not go back, the latest `set` of the key exactly when
        that is fresh and not invalidated. */
    method GetEntry(key: string, now: int) returns (data: Option<T>)
      requires Valid()
      modifies this
      ensures Valid() && events == old(events) + [Get(key, now)]
      ensures var latest := Latest(old(events), key);
        && (data.Some? ==> latest.Some? && Fresh(latest.value, now) && data == Some(latest.value.data))
        && (forall start: int | Monotone(old(events), start) && LastTime(old(events), start) <= now ::
              data.Some? <==> latest.Some? && Fresh(latest.value, now))
    {
      PruneExpired(now);
      data := if key in cache then Some(cache[key].data) else None;
      RunAppend(events, Get(key, now));
      GetIsNeverStale(events, key, now);
      forall start: int | Monotone(events, start) && LastTime(events, start) <= now
        ensures data.Some? <==> Latest(events, key).Some? && Fresh(Latest(events, key).value, now)
      {
        GetIsLatestFresh(events, start, key, now);
      }
      events := events + [Get(key, now)];
    }

    /** The entry is the latest `set` of its key, stamped by the second reading; of the other keys, those
        expired at the first are gone. */
    method SetEntry(key: string, data: T, pruned: int, now: int)
      requires Valid()
      modifies this
      ensures Valid() && events == old(events) + [Set(key, data, pruned, now)]
      ensures Latest(events, key) == Some(Item(data, now)) && key in cache && cache[key] == Item(data, now)
      ensures forall k | k != key :: Latest(events, k) == Latest(old(events), k)
      ensures cache - {key} == Pruned(old(cache), pruned) - {key}
    {
      PruneExpired(pruned);
      cache := cache[key := Item(data, now)];
      RunAppend(events, Set(key, data, pruned, now));
      events := events + [Set(key, data, pruned, now)];
    }

    /** A missing prefix is the empty one: both clear the cache. */
    method InvalidateKeys(keyPrefix: string)
      requires Valid()
      modifies this
      ensures Valid() && events == old(events) + [Invalidate(keyPrefix)]
      ensures cache == Without(old(cache), keyPrefix)
      ensures Forgotten(events, keyPrefix)
    {
      DropPrefix(keyPrefix);
      assert cache == Without(Run(events), keyPrefix);
      InvalidateForgets(events, keyPrefix);
      events := events + [Invalidate(keyPrefix)];
    }

    method DropPrefix(keyPrefix: string)
      modifies this`cache
      ensures cache == Without(old(cache), keyPrefix)
    {
      if keyPrefix == "" {
        cache := map[];
        assert forall k: string :: StartsWith(k, "");
        return;
      }
      var todo := cache.Keys;
      while todo != {}
        invariant todo <= old(cache).Keys
        invariant cache.Keys <= old(cache).Keys && forall k | k in cache :: cache[k] == old(cache)[k]
        invariant forall k | k in old(cache) :: k in cache <==> k in todo || !StartsWith(k, keyPrefix)
        decreases |todo|
      {
        var key :| key in todo;
        todo := todo - {key};
        if StartsWith(key, keyPrefix) {
          cache := cache - {key};
        }
      }
    }

    method ClearAll()
      requires Valid()
      modifies this
      ensures Valid() && events == old(events) + [Clear]
      ensures cache == map[] && forall key :: Latest(events, key) == None
    {
      RunAppend(events, Clear);
      events := events + [Clear];
      cache := map[];
    }
  }
}
