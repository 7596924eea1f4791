/** The in-memory cache of lib/database.js: a process-wide JavaScript
    `Map` from cache key to `{ data, time }` with a time-to-live of
    60 000 ms and a cap of 1000 entries. `getCached` serves an entry only
    while it is younger than the time-to-live and deletes it otherwise;
    `setCache` writes an entry stamped with the current time and, once the
    map holds more than 1000 entries, deletes the first key in insertion
    order. The clock (`Date.now()`) is the parameter `now`. */
module CacheStore {
  import opened Js

  const Ttl: int := 60000
  const MaxEntries: nat := 1000

  datatype Entry = Entry(data: JsValue, time: int)

  /** The contents of the `Map`: its keys in insertion order, and what each
      key holds. */
  datatype CacheState = CacheState(order: seq<string>, entries: map<string, Entry>)

  const Empty: CacheState := CacheState([], map[])

  /** What a JavaScript `Map` always satisfies: each key occurs once in
      the insertion order, and the order lists exactly the stored keys. */
  ghost predicate WellFormed(st: CacheState) {
    && Distinct(st.order)
    && forall k :: k in st.entries <==> k in st.order
  }

  /** The invariant the cache keeps: well formed and within the cap. */
  ghost predicate Bounded(st: CacheState) {
    WellFormed(st) && |st.order| <= MaxEntries
  }

  /** The insertion order with `key` taken out. */
  function Without(s: seq<string>, key: string): (r: seq<string>)
    ensures forall x :: x in r <==> x in s && x != key
    ensures key !in s ==> r == s
    ensures Distinct(s) ==> Distinct(r)
    ensures Distinct(s) && key in s ==> |r| == |s| - 1
  {
    if s == [] then []
    else if s[0] == key then Without(s[1..], key)
    else
      var rest := Without(s[1..], key);
      DistinctPrepend(s[0], rest);
      assert Distinct(s) ==> s[0] !in s[1..];
      [s[0]] + rest
  }

  lemma DistinctPrepend(a: string, rest: seq<string>)
    ensures a !in rest && Distinct(rest) ==> Distinct([a] + rest)
  {
  }

  /** `cache.delete(key)`: a no-op when the key is absent. */
  function Remove(st: CacheState, key: string): (r: CacheState)
    ensures key !in r.entries
    ensures forall x :: x != key && x in st.entries ==> x in r.entries && r.entries[x] == st.entries[x]
    ensures forall x :: x in r.entries ==> x in st.entries
    ensures WellFormed(st) ==> WellFormed(r)
    ensures WellFormed(st) && key !in st.entries ==> r == st
    ensures WellFormed(st) && key in st.entries ==> |r.order| == |st.order| - 1
  {
    CacheState(Without(st.order, key), st.entries - {key})
  }

  /** Whether `getCached(key)` at time `now` finds an entry it serves:
      the key is present and `now - time < 60000`. */
  predicate Live(st: CacheState, key: string, now: int) {
    key in st.entries && now - st.entries[key].time < Ttl
  }

  /** What `getCached(key)` returns at time `now`. */
  function Lookup(st: CacheState, key: string, now: int): JsValue {
    if Live(st, key, now) then st.entries[key].data else Null
  }

  /** The cache after `getCached(key)` at time `now`. */
  function AfterLookup(st: CacheState, key: string, now: int): CacheState {
    if Live(st, key, now) then st else Remove(st, key)
  }

  /** `cache.set(key, e)`: a new key goes to the end of the insertion
      order, an existing one keeps its place. */
  function Insert(st: CacheState, key: string, e: Entry): (r: CacheState)
    ensures WellFormed(st) ==> WellFormed(r)
  {
    CacheState(if key in st.entries then st.order else st.order + [key], st.entries[key := e])
  }

  /** The cache after `setCache(key, data)` at time `now`. */
  function Store(st: CacheState, key: string, data: JsValue, now: int): CacheState
    requires WellFormed(st)
  {
    var written := Insert(st, key, Entry(data, now));
    SizeIsOrderLength(written);
    if |written.entries| > MaxEntries then Remove(written, written.order[0]) else written
  }

  lemma {:induction false} DistinctCard(s: seq<string>)
    requires Distinct(s)
    ensures |set x | x in s| == |s|
  {
    if s != [] {
      DistinctCard(s[1..]);
      assert (set x | x in s) == {s[0]} + (set x | x in s[1..]);
    }
  }

  /** `cache.size` is the length of the insertion order. */
  lemma SizeIsOrderLength(st: CacheState)
    requires WellFormed(st)
    ensures |st.entries| == |st.order|
  {
    DistinctCard(st.order);
    assert st.entries.Keys == set x | x in st.order;
  }

  /** `setCache(key, d)` followed by `getCached(key)` at the same time
      returns `d` and leaves the cache as `setCache` left it. */
  lemma SetThenGet(st: CacheState, key: string, d: JsValue, now: int)
    requires Bounded(st)
    ensures Lookup(Store(st, key, d, now), key, now) == d
    ensures AfterLookup(Store(st, key, d, now), key, now) == Store(st, key, d, now)
  {
    var written := Insert(st, key, Entry(d, now));
    SizeIsOrderLength(st);
    SizeIsOrderLength(written);
    if |written.entries| > MaxEntries {
      assert key !in st.entries;
      assert written.order[0] == st.order[0];
    }
  }

  /** `setCache` keeps the cache within its cap. */
  lemma StorePreservesBound(st: CacheState, key: string, d: JsValue, now: int)
    requires Bounded(st)
    ensures Bounded(Store(st, key, d, now))
    ensures |Store(st, key, d, now).entries| <= MaxEntries
  {
    var written := Insert(st, key, Entry(d, now));
    SizeIsOrderLength(written);
    SizeIsOrderLength(Store(st, key, d, now));
  }

  /** What `setCache` does to a cache within its cap: overwriting keeps the
      key's place; a new key is appended; when the cap is exceeded exactly
      one key goes, the first in insertion order, which is never the key
      just written. */
  lemma StoreEvictsOldest(st: CacheState, key: string, d: JsValue, now: int)
    requires Bounded(st)
    ensures var r := Store(st, key, d, now);
      if key in st.entries then
        r.order == st.order && r.entries == st.entries[key := Entry(d, now)]
      else if |st.order| < MaxEntries then
        r.order == st.order + [key] && r.entries == st.entries[key := Entry(d, now)]
      else
        && st.order[0] != key
        && r.order == st.order[1..] + [key]
        && r.entries == (st.entries - {st.order[0]})[key := Entry(d, now)]
  {
    SizeIsOrderLength(st);
    SizeIsOrderLength(Insert(st, key, Entry(d, now)));
    if key !in st.entries && |st.order| == MaxEntries {
      StoreAtCapacity(st, key, d, now);
    }
  }

  /** The eviction case: a new key written to a full cache. */
  lemma StoreAtCapacity(st: CacheState, key: string, d: JsValue, now: int)
    requires Bounded(st) && key !in st.entries && |st.order| == MaxEntries
    ensures st.order[0] != key
    ensures Store(st, key, d, now).order == st.order[1..] + [key]
    ensures Store(st, key, d, now).entries == (st.entries - {st.order[0]})[key := Entry(d, now)]
  {
    var e := Entry(d, now);
    var written := Insert(st, key, e);
    var first := st.order[0];
    assert first in st.entries;
    StoreOverflows(st, key, d, now);
    assert written.order == st.order + [key];
    WithoutHead(written.order);
    assert (st.order + [key])[1..] == st.order[1..] + [key];
    RemoveThenWrite(st.entries, first, key, e);
  }

  /** Writing a new key to a full cache takes it over the cap, so
      `setCache` deletes the first key. */
  lemma StoreOverflows(st: CacheState, key: string, d: JsValue, now: int)
    requires Bounded(st) && key !in st.entries && |st.order| == MaxEntries
    ensures Store(st, key, d, now) == Remove(Insert(st, key, Entry(d, now)), st.order[0])
  {
    var written := Insert(st, key, Entry(d, now));
    assert written.order == st.order + [key];
    SizeIsOrderLength(written);
  }

  lemma RemoveThenWrite<K, V>(m: map<K, V>, gone: K, k: K, v: V)
    requires gone != k
    ensures (m - {gone})[k := v] == m[k := v] - {gone}
  {
  }

  lemma WithoutHead(s: seq<string>)
    requires Distinct(s) && |s| > 0
    ensures Without(s, s[0]) == s[1..]
  {
    assert s[0] !in s[1..];
  }

  /** Whatever the size of the cache, `setCache` never evicts the key it
      has just written unless that key was already the oldest. */
  lemma StoreKeepsWrittenKey(st: CacheState, key: string, d: JsValue, now: int)
    requires WellFormed(st)
    ensures key in Store(st, key, d, now).entries || (|st.order| > 0 && st.order[0] == key)
  {
    var written := Insert(st, key, Entry(d, now));
    SizeIsOrderLength(written);
    if key !in st.entries && |written.entries| > MaxEntries {
      assert written.order[0] != key;
    }
  }

  /** Within the cap, `setCache` leaves the key holding exactly what was
      written, stamped with `now`. */
  lemma StoreHoldsWritten(st: CacheState, key: string, d: JsValue, now: int)
    requires Bounded(st)
    ensures key in Store(st, key, d, now).entries
    ensures Store(st, key, d, now).entries[key] == Entry(d, now)
  {
    StoreEvictsOldest(st, key, d, now);
  }

  /** `setCache` leaves every other entry as it was, except the oldest one
      when a new key is written to a full cache. */
  lemma StoreKeepsOthers(st: CacheState, key: string, d: JsValue, now: int, other: string)
    requires Bounded(st) && other != key && other in st.entries
    requires key in st.entries || |st.order| < MaxEntries || st.order[0] != other
    ensures other in Store(st, key, d, now).entries
    ensures Store(st, key, d, now).entries[other] == st.entries[other]
  {
    StoreEvictsOldest(st, key, d, now);
  }

  /** The cache object. Its two fields together are the JavaScript `Map`. */
  class Cache {
    var order: seq<string>
    var entries: map<string, Entry>

    function State(): CacheState
      reads this
    {
      CacheState(order, entries)
    }

    ghost predicate Valid()
      reads this
    {
      Bounded(State())
    }

    constructor ()
      ensures Valid() && State() == Empty
    {
      order := [];
      entries := map[];
    }

    /** `cache.delete(key)` */
    method Delete(key: string)
      requires Valid()
      modifies this
      ensures Valid()
      ensures State() == Remove(old(State()), key)
    {
      entries := entries - {key};
      order := Without(order, key);
    }

    /** `getCached(key)`: the stored data when the entry exists and is
        younger than the time-to-live, with the cache untouched; otherwise
        `null`, the key is gone and every other entry is as it was. */
    method Get(key: string, now: int) returns (r: JsValue)
      requires Valid()
      modifies this
      ensures Valid()
      ensures r == Lookup(old(State()), key, now)
      ensures State() == AfterLookup(old(State()), key, now)
      ensures Live(old(State()), key, now) ==> r == old(entries[key].data) && State() == old(State())
      ensures !Live(old(State()), key, now) ==>
        && r == Null
        && key !in entries
        && (forall x :: x != key ==> (x in entries <==> x in old(entries)))
        && (forall x :: x != key && x in entries ==> entries[x] == old(entries[x]))
    {
      if key in entries && now - entries[key].time < Ttl {
        return entries[key].data;
      }
      Delete(key);
      return Null;
    }

    /** `setCache(key, data)`: the entry is stamped with `now`; when the
        map then holds more than `MaxEntries` keys its first key is
        deleted. */
    method Set(key: string, data: JsValue, now: int)
      requires Valid()
      modifies this
      ensures Valid()
      ensures State() == Store(old(State()), key, data, now)
      ensures key in entries && entries[key] == Entry(data, now)
    {
      ghost var before := State();
      if key !in entries {
        order := order + [key];
      }
      entries := entries[key := Entry(data, now)];
      ghost var written := State();
      assert written == Insert(before, key, Entry(data, now));
      SizeIsOrderLength(written);
      if |entries| > MaxEntries {
        var first := order[0];
        entries := entries - {first};
        order := Without(order, first);
        assert State() == Remove(written, first);
      }
      assert State() == Store(before, key, data, now);
      StorePreservesBound(before, key, data, now);
      StoreHoldsWritten(before, key, data, now);
    }
  }
}
