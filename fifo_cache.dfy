/** The FIFO cache: an insertion-ordered map (`LinkedHashMap`) whose
    `removeEldestEntry` drops the oldest key once the map holds more than
    `capacity` entries. The TTL timer is not part of this model. */
module FifoCaches {
  import opened Wrappers
  import opened Collections

  /** `order` lists the keys of `items` once each, oldest first. */
  ghost predicate WellFormed<K(!new), V>(order: seq<K>, items: map<K, V>) {
    && NoDuplicates(order)
    && (forall k :: k in items <==> k in order)
    && |items| == |order|
  }

  /** `get`: the value stored under `key`, or null. */
  function Lookup<K, V>(items: map<K, V>, key: K): (r: Option<V>)
    ensures r.Some? <==> key in items
    ensures r.Some? ==> r.value == items[key]
  {
    if key in items then Some(items[key]) else None
  }

  /** `put` on the linked map followed by its `removeEldestEntry` check:
      an existing key keeps its place, a new key goes last, and if the map
      then holds more than `capacity` entries the eldest one is dropped. */
  function Put<K, V>(order: seq<K>, items: map<K, V>, capacity: nat, key: K, value: V)
    : (r: (seq<K>, map<K, V>))
    ensures r.1.Keys <= items.Keys + {key}
    ensures forall k :: k in r.1 && k != key ==> r.1[k] == items[k]
  {
    if key in items then
      (order, items[key := value])
    else
      var order', items' := order + [key], items[key := value];
      if |items'| > capacity then (order'[1..], items' - {order'[0]}) else (order', items')
  }

  /** A new key joins at the back. */
  lemma AppendFresh<K(!new), V>(order: seq<K>, items: map<K, V>, key: K, value: V)
    requires WellFormed(order, items) && key !in items
    ensures WellFormed(order + [key], items[key := value])
  {
  }

  /** Dropping the eldest key keeps the correspondence, one entry fewer. */
  lemma DropEldest<K(!new), V>(order: seq<K>, items: map<K, V>)
    requires WellFormed(order, items) && |order| > 0
    ensures WellFormed(order[1..], items - {order[0]})
    ensures |items - {order[0]}| == |items| - 1
  {
    RemoveKeySize(items, order[0]);
    var o, m := order[1..], items - {order[0]};
    forall k ensures k in m <==> k in o {
      if k in o {
        var i :| 0 <= i < |o| && o[i] == k;
        assert order[i + 1] == k;
      }
    }
  }

  /** Every `set` keeps the order/map correspondence and at most `capacity` entries. */
  lemma PutBounded<K(!new), V>(order: seq<K>, items: map<K, V>, capacity: nat, key: K, value: V)
    requires WellFormed(order, items) && |items| <= capacity
    ensures WellFormed(Put(order, items, capacity, key, value).0, Put(order, items, capacity, key, value).1)
    ensures |Put(order, items, capacity, key, value).1| <= capacity
  {
    if key !in items {
      AppendFresh(order, items, key, value);
      if |items| + 1 > capacity {
        DropEldest(order + [key], items[key := value]);
      }
    }
  }

  /** `set` of a key already present replaces its value only: same order, same keys. */
  lemma PutExisting<K, V>(order: seq<K>, items: map<K, V>, capacity: nat, key: K, value: V)
    requires key in items
    ensures Put(order, items, capacity, key, value).0 == order
    ensures Put(order, items, capacity, key, value).1.Keys == items.Keys
    ensures Lookup(Put(order, items, capacity, key, value).1, key) == Some(value)
    ensures forall k :: k != key ==> Lookup(Put(order, items, capacity, key, value).1, k) == Lookup(items, k)
  {
  }

  /** `set` of a new key on a full cache drops exactly the earliest-inserted key. */
  lemma PutNewWhenFull<K(!new), V>(order: seq<K>, items: map<K, V>, capacity: nat, key: K, value: V)
    requires WellFormed(order, items) && key !in items && |items| == capacity > 0
    ensures Put(order, items, capacity, key, value).0 == order[1..] + [key]
    ensures Put(order, items, capacity, key, value).1.Keys == items.Keys - {order[0]} + {key}
    ensures Lookup(Put(order, items, capacity, key, value).1, key) == Some(value)
  {
    assert (order + [key])[1..] == order[1..] + [key];
    assert order[0] != key;
  }

  /** `set` of a new key below capacity appends it and evicts nothing. */
  lemma PutNewWhenRoom<K(!new), V>(order: seq<K>, items: map<K, V>, capacity: nat, key: K, value: V)
    requires WellFormed(order, items) && key !in items && |items| < capacity
    ensures Put(order, items, capacity, key, value) == (order + [key], items[key := value])
  {
  }

  function Excess(n: int, capacity: nat): nat {
    if n > capacity then n - capacity else 0
  }

  /** One `set` of a fresh key keeps the `capacity` most recent keys. */
  lemma PutFresh<K(!new), V>(order: seq<K>, items: map<K, V>, capacity: nat, key: K, value: V)
    requires WellFormed(order, items) && |items| <= capacity && key !in items
    ensures Put(order, items, capacity, key, value).0 == (order + [key])[Excess(|order| + 1, capacity)..]
  {
    if |order| < capacity {
      PutNewWhenRoom(order, items, capacity, key, value);
    } else if capacity > 0 {
      PutNewWhenFull(order, items, capacity, key, value);
    }
  }

  /** After `set`, `get` of that key returns the new value unless the
      capacity is zero (the new entry is then its own eldest entry), and
      every other key still present keeps its value. */
  lemma PutLookup<K(!new), V>(order: seq<K>, items: map<K, V>, capacity: nat, key: K, value: V)
    requires WellFormed(order, items) && |items| <= capacity
    ensures capacity > 0 || key in items ==> Lookup(Put(order, items, capacity, key, value).1, key) == Some(value)
    ensures capacity == 0 && key !in items ==> Put(order, items, capacity, key, value) == (order, items)
    ensures forall k :: k != key && k in Put(order, items, capacity, key, value).1 ==>
              Lookup(Put(order, items, capacity, key, value).1, k) == Lookup(items, k)
  {
    if key !in items && |items| == capacity && capacity > 0 {
      assert order[0] in items && order[0] != key;
    }
    if capacity == 0 && key !in items {
      assert order == [] && items == map[];
      assert (order + [key])[1..] == [];
      assert items[key := value] - {key} == map[];
    }
  }

  /** The cache's visible state follows `Put`, `Lookup` and clearing. */
  class FifoCache<K(==,!new), V> {
    const capacity: nat
    var order: seq<K>
    var itemsMap: map<K, V>

    ghost predicate Valid()
      reads this
    {
      WellFormed(order, itemsMap) && |itemsMap| <= capacity
    }

    constructor (capacity: nat)
      ensures Valid() && this.capacity == capacity
      ensures order == [] && itemsMap == map[]
    {
      this.capacity := capacity;
      order := [];
      itemsMap := map[];
    }

    method Set(key: K, value: V)
      requires Valid()
      modifies this
      ensures Valid()
      ensures (order, itemsMap) == Put(old(order), old(itemsMap), capacity, key, value)
    {
      PutBounded(order, itemsMap, capacity, key, value);
      if key in itemsMap {
        itemsMap := itemsMap[key := value];
        return;
      }
      order := order + [key];
      itemsMap := itemsMap[key := value];
      if |itemsMap| > capacity {
        var eldest := order[0];
        order := order[1..];
        itemsMap := itemsMap - {eldest};
      }
    }

    /** `get` neither reorders nor changes anything. */
    method Get(key: K) returns (r: Option<V>)
      requires Valid()
      ensures r == Lookup(itemsMap, key)
    {
      r := if key in itemsMap then Some(itemsMap[key]) else None;
    }

    method FlushCache()
      requires Valid()
      modifies this
      ensures Valid()
      ensures order == [] && itemsMap == map[]
      ensures forall k :: Lookup(itemsMap, k) == None
    {
      order := [];
      itemsMap := map[];
    }
  }
}
