/** A map with a fixed capacity that evicts its eldest entry when an insert
    would exceed the capacity. `order` lists the keys eldest first. Reads do
    not reorder entries here: see the README for what that leaves out. */
module LruMap {
  import opened Wrappers

  datatype LruMap<K, V> = LruMap(entries: map<K, V>, order: seq<K>)

  /** The empty map. */
  function Empty<K, V>(): LruMap<K, V> {
    LruMap(map[], [])
  }

  /** `order` lists every key exactly once and the capacity holds. */
  ghost predicate Valid<K, V>(m: LruMap<K, V>, limit: nat) {
    && |m.order| == |m.entries|
    && |m.order| <= limit
    && (forall i :: 0 <= i < |m.order| ==> m.order[i] in m.entries)
    && (forall i, j :: 0 <= i < j < |m.order| ==> m.order[i] != m.order[j])
    && (forall k :: k in m.entries ==> k in m.order)
  }

  lemma {:induction false} EmptyValid<K, V>(limit: nat)
    ensures Valid(Empty<K, V>(), limit)
  {
  }

  /** The value stored under `k`, if any. */
  function Get<K, V>(m: LruMap<K, V>, k: K): (r: Option<V>)
    ensures r.Some? <==> k in m.entries
    ensures r.Some? ==> r.value == m.entries[k]
  {
    if k in m.entries then Some(m.entries[k]) else None
  }

  /** Stores `v` under `k`. An existing key has its value replaced. A new key
      is appended as the newest entry; if that makes the map exceed `limit`,
      the eldest entry is evicted (with `limit == 0` that is the new entry). */
  function Put<K, V>(m: LruMap<K, V>, limit: nat, k: K, v: V): (r: LruMap<K, V>)
    requires Valid(m, limit)
    ensures Valid(r, limit)
    ensures 1 <= limit ==> k in r.entries && r.entries[k] == v
    ensures forall k' :: k' in r.entries ==>
      (k' == k && r.entries[k'] == v) || (k' in m.entries && r.entries[k'] == m.entries[k'])
    ensures forall k1, k2 :: k1 in m.entries && k1 !in r.entries && k2 in m.entries && k2 !in r.entries ==> k1 == k2
    ensures |m.entries| < limit ==> m.entries.Keys <= r.entries.Keys
  {
    if k in m.entries then
      LruMap(m.entries[k := v], m.order)
    else if |m.order| < limit then
      LruMap(m.entries[k := v], m.order + [k])
    else if |m.order| == 0 then
      m
    else
      EvictEldestValid(m, limit, k, v);
      LruMap((m.entries - {m.order[0]})[k := v], m.order[1..] + [k])
  }

  /** The eviction branch of `Put` keeps the map well formed and loses only the eldest key. */
  lemma {:induction false} EvictEldestValid<K, V>(m: LruMap<K, V>, limit: nat, k: K, v: V)
    requires Valid(m, limit) && k !in m.entries && |m.order| == limit && 0 < limit
    ensures var r := LruMap((m.entries - {m.order[0]})[k := v], m.order[1..] + [k]);
      && Valid(r, limit)
      && r.entries.Keys == m.entries.Keys - {m.order[0]} + {k}
  {
    EvictedEntries(m, k, v);
    EvictedOrder(m.order, m.entries.Keys, k);
  }

  /** Dropping the eldest key and adding a new one keeps the number of entries. */
  lemma {:induction false} EvictedEntries<K, V>(m: LruMap<K, V>, k: K, v: V)
    requires 0 < |m.order| && m.order[0] in m.entries && k !in m.entries
    ensures var e := (m.entries - {m.order[0]})[k := v];
      && e.Keys == m.entries.Keys - {m.order[0]} + {k}
      && |e| == |m.entries|
  {
    var rest := m.entries - {m.order[0]};
    assert rest.Keys == m.entries.Keys - {m.order[0]};
    assert |rest| == |m.entries| - 1;
  }

  /** Rotating the eldest key out and a new key in keeps an order that lists
      its key set exactly once. */
  lemma {:induction false} EvictedOrder<K>(order: seq<K>, keys: set<K>, k: K)
    requires 0 < |order| && k !in keys
    requires forall i :: 0 <= i < |order| ==> order[i] in keys
    requires forall i, j :: 0 <= i < j < |order| ==> order[i] != order[j]
    requires forall x :: x in keys ==> x in order
    ensures var o := order[1..] + [k];
      && (forall i :: 0 <= i < |o| ==> o[i] in keys - {order[0]} + {k})
      && (forall i, j :: 0 <= i < j < |o| ==> o[i] != o[j])
      && (forall x :: x in keys - {order[0]} + {k} ==> x in o)
  {
    var o := order[1..] + [k];
    forall i | 0 <= i < |o| - 1
      ensures o[i] == order[i + 1]
    {
    }
    forall x | x in keys - {order[0]} + {k}
      ensures x in o
    {
      if x != k {
        var j :| 0 <= j < |order| && order[j] == x;
        assert o[j - 1] == x;
      }
    }
  }

  /** The keys a sequence of inserts names. */
  function KeysOf<K, V>(kvs: seq<(K, V)>): set<K> {
    set i | 0 <= i < |kvs| :: kvs[i].0
  }

  /** The inserts of `kvs`, performed in order. */
  function PutAll<K, V>(m: LruMap<K, V>, limit: nat, kvs: seq<(K, V)>): (r: LruMap<K, V>)
    requires Valid(m, limit)
    ensures Valid(r, limit)
    ensures r.entries.Keys <= m.entries.Keys + KeysOf(kvs)
    decreases |kvs|
  {
    if kvs == [] then m
    else
      var last := kvs[|kvs| - 1];
      Put(PutAll(m, limit, kvs[..|kvs| - 1]), limit, last.0, last.1)
  }

  /** `k` is present with at least `n` keys behind it in the eviction order. */
  ghost predicate HasNewer<K, V>(m: LruMap<K, V>, k: K, n: nat) {
    exists j :: 0 <= j < |m.order| && m.order[j] == k && |m.order| - 1 - j >= n
  }

  /** Inserting a new key either evicts `k` or puts one more key behind it. */
  lemma {:induction false} SurvivorStep<K, V>(m: LruMap<K, V>, limit: nat, k': K, v: V, k: K, n: nat)
    requires Valid(m, limit) && k' !in m.entries && k != k'
    requires k in m.entries ==> HasNewer(m, k, n)
    ensures var r := Put(m, limit, k', v);
      k in r.entries ==> HasNewer(r, k, n + 1)
  {
    var r := Put(m, limit, k', v);
    if k in r.entries {
      var j0 :| 0 <= j0 < |m.order| && m.order[j0] == k && |m.order| - 1 - j0 >= n;
      if |m.order| < limit {
        assert r.order == m.order + [k'];
        assert r.order[j0] == k;
      } else {
        assert r.order == m.order[1..] + [k'];
        assert j0 != 0;
        assert r.order[j0 - 1] == k;
      }
    }
  }

  /** The last key of a run of new, distinct keys is absent when its turn comes. */
  lemma {:induction false} LastIsFresh<K, V>(m: LruMap<K, V>, limit: nat, kvs: seq<(K, V)>)
    requires Valid(m, limit) && kvs != []
    requires forall i :: 0 <= i < |kvs| ==> kvs[i].0 !in m.entries
    requires forall i, j :: 0 <= i < j < |kvs| ==> kvs[i].0 != kvs[j].0
    ensures kvs[|kvs| - 1].0 !in PutAll(m, limit, kvs[..|kvs| - 1]).entries
  {
    var pre := kvs[..|kvs| - 1];
    forall i | 0 <= i < |pre| ensures pre[i].0 != kvs[|kvs| - 1].0 {
      assert pre[i] == kvs[i];
    }
  }

  /** While `k` survives a run of inserts of new, distinct keys, every one of
      those keys sits behind it in the eviction order. */
  lemma {:induction false} SurvivorIsOlder<K, V>(m: LruMap<K, V>, limit: nat, kvs: seq<(K, V)>, k: K)
    requires Valid(m, limit) && k in m.entries
    requires forall i :: 0 <= i < |kvs| ==> kvs[i].0 !in m.entries
    requires forall i, j :: 0 <= i < j < |kvs| ==> kvs[i].0 != kvs[j].0
    ensures k in PutAll(m, limit, kvs).entries ==> HasNewer(PutAll(m, limit, kvs), k, |kvs|)
    decreases |kvs|
  {
    if kvs == [] {
      var j :| 0 <= j < |m.order| && m.order[j] == k;
      assert HasNewer(m, k, 0);
    } else {
      var pre := kvs[..|kvs| - 1];
      var last := kvs[|kvs| - 1];
      SurvivorIsOlder(m, limit, pre, k);
      LastIsFresh(m, limit, kvs);
      SurvivorStep(PutAll(m, limit, pre), limit, last.0, last.1, k, |pre|);
    }
  }

  /** With no reads in between, inserting `limit` or more new, distinct keys
      evicts every key that was present before: a key that is evicted can
      no longer be looked up. */
  lemma {:induction false} FreshInsertsEvict<K, V>(m: LruMap<K, V>, limit: nat, kvs: seq<(K, V)>, k: K)
    requires Valid(m, limit) && k in m.entries
    requires forall i :: 0 <= i < |kvs| ==> kvs[i].0 !in m.entries
    requires forall i, j :: 0 <= i < j < |kvs| ==> kvs[i].0 != kvs[j].0
    requires limit <= |kvs|
    ensures Get(PutAll(m, limit, kvs), k) == None
  {
    SurvivorIsOlder(m, limit, kvs, k);
  }
}
