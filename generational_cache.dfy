/** The generational cache: an approximation of LRU that keeps, per item,
    the reads of the current generation and of the previous one, evicts an
    item with the fewest reads in total, and starts a new generation every
    `GENERATION` reads. The library `PriorityQueue` is modelled as a
    sequence whose order carries no meaning; its comparator reads the two
    counter arrays and therefore throws once an item's index is out of
    their range. */
module Generational {
  import opened Wrappers
  import opened Collections

  const GENERATION: nat := 10

  /** `ArrayIndexOutOfBoundsException` (a read counter indexed past
      `capacity`) and `NullPointerException` (eviction from an empty queue). */
  datatype CacheError = IndexOutOfRange | NullPointer

  /** The static `CacheItem.itemCount`: one counter shared by every cache
      and never reset. */
  class ItemCounter {
    var itemCount: nat

    constructor ()
      ensures itemCount == 0
    {
      itemCount := 0;
    }
  }

  class CacheItem<K, V> {
    const key: K
    var value: V
    const index: nat

    /** Takes the next index from the shared counter. */
    constructor (key: K, value: V, counter: ItemCounter)
      modifies counter
      ensures this.key == key && this.value == value
      ensures index == old(counter.itemCount)
      ensures counter.itemCount == old(counter.itemCount) + 1
    {
      this.key := key;
      this.value := value;
      index := counter.itemCount;
      counter.itemCount := counter.itemCount + 1;
    }
  }

  /** `PriorityQueue.add` compares the new item with a queued one whenever
      the queue is not empty, and the comparison reads the counters of both
      indices. */
  predicate AddThrows<K, V>(queue: seq<CacheItem<K, V>>, item: CacheItem<K, V>, capacity: nat): (r: bool)
    ensures |queue| == 0 ==> !r
    ensures |queue| > 0 && item.index >= capacity ==> r
    ensures (item.index < capacity && forall j :: 0 <= j < |queue| ==> queue[j].index < capacity) ==> !r
  {
    |queue| > 0 && (item.index >= capacity || exists j :: 0 <= j < |queue| && queue[j].index >= capacity)
  }

  /** The queue's items are distinct objects created so far; once two of
      them have been compared, every index is in range. */
  ghost predicate QueueOk<K, V>(queue: seq<CacheItem<K, V>>, capacity: nat, itemCount: nat) {
    && NoDuplicates(queue)
    && (forall i :: 0 <= i < |queue| ==> queue[i].index < itemCount)
    && (|queue| >= 2 ==> forall i :: 0 <= i < |queue| ==> queue[i].index < capacity)
  }

  /** Removing an item from a well-formed queue keeps it well formed. */
  lemma QueueOkRemoveAt<K, V>(queue: seq<CacheItem<K, V>>, i: nat, capacity: nat, itemCount: nat)
    requires QueueOk(queue, capacity, itemCount) && i < |queue|
    ensures QueueOk(RemoveAt(queue, i), capacity, itemCount)
    ensures multiset(RemoveAt(queue, i)) == multiset(queue) - multiset{queue[i]}
    ensures forall x :: x in RemoveAt(queue, i) <==> x in queue && x != queue[i]
  {
    RemoveAtFacts(queue, i);
  }

  /** Every queued item is the one the map holds under its key. */
  ghost predicate Registered<K, V>(queue: seq<CacheItem<K, V>>, m: map<K, CacheItem<K, V>>) {
    forall j :: 0 <= j < |queue| ==> queue[j].key in m && m[queue[j].key] == queue[j]
  }

  /** Evicting the item at `i` from both the queue and the map keeps the
      other queued items registered. */
  lemma RegisteredEvict<K, V>(queue: seq<CacheItem<K, V>>, i: nat, m: map<K, CacheItem<K, V>>)
    requires NoDuplicates(queue) && i < |queue| && Registered(queue, m)
    ensures Registered(RemoveAt(queue, i), m - {queue[i].key})
  {
    var r := RemoveAt(queue, i);
    forall j | 0 <= j < |r| ensures r[j].key in m - {queue[i].key} && (m - {queue[i].key})[r[j].key] == r[j] {
      var k := if j < i then j else j + 1;
      assert r[j] == queue[k] && k != i;
      assert m[queue[i].key] == queue[i];
    }
  }

  /** Evicting the item at `i` from both the queue and the map keeps every
      other mapped item queued. */
  lemma MappedEvict<K, V>(queue: seq<CacheItem<K, V>>, i: nat, m: map<K, CacheItem<K, V>>)
    requires NoDuplicates(queue) && i < |queue|
    requires forall k :: k in m ==> m[k].key == k && m[k] in queue
    ensures forall k :: k in m - {queue[i].key} ==> (m - {queue[i].key})[k] in RemoveAt(queue, i)
  {
    RemoveAtFacts(queue, i);
  }

  /** Re-adding an item that was queued among others cannot throw: the
      queue had two items, so every index in it is in range. */
  lemma RequeueSafe<K, V>(q0: seq<CacheItem<K, V>>, q1: seq<CacheItem<K, V>>, item: CacheItem<K, V>,
                          capacity: nat, itemCount: nat)
    requires QueueOk(q0, capacity, itemCount) && item in q0 && item.index < capacity
    requires forall j :: 0 <= j < |q1| ==> q1[j] in q0 && q1[j] != item
    ensures !AddThrows(q1, item, capacity)
  {
    if |q1| > 0 {
      var i :| 0 <= i < |q0| && q0[i] == item;
      var k :| 0 <= k < |q0| && q0[k] == q1[0];
      assert i != k;
      forall j | 0 <= j < |q1| ensures q1[j].index < capacity {
        var l :| 0 <= l < |q0| && q0[l] == q1[j];
      }
    }
  }

  /** Appending the item the map holds under its key keeps the queue
      registered. */
  lemma RegisteredAppend<K, V>(queue: seq<CacheItem<K, V>>, item: CacheItem<K, V>, m: map<K, CacheItem<K, V>>)
    requires Registered(queue, m) && item.key in m && m[item.key] == item
    ensures Registered(queue + [item], m)
  {
    forall j | 0 <= j < |queue + [item]| ensures (queue + [item])[j].key in m && m[(queue + [item])[j].key] == (queue + [item])[j] {
      if j < |queue| {
        assert (queue + [item])[j] == queue[j];
      }
    }
  }

  /** `PriorityQueue.remove(o)` on the queue's sequence: the item goes if
      it is there, and nothing else changes. */
  function Unqueued<K, V>(queue: seq<CacheItem<K, V>>, item: CacheItem<K, V>): (r: seq<CacheItem<K, V>>)
    requires NoDuplicates(queue)
    ensures multiset(r) == multiset(queue) - multiset{item}
    ensures forall j :: 0 <= j < |r| ==> r[j] in queue && r[j] != item
    ensures forall j :: 0 <= j < |queue| && queue[j] != item ==> queue[j] in r
  {
    if item in queue then
      var i :| 0 <= i < |queue| && queue[i] == item;
      RemoveAtFacts(queue, i);
      RemoveAt(queue, i)
    else
      assert multiset(queue)[item] == 0;
      queue
  }

  /** Unqueueing keeps a queue well formed, and keeps every remaining item
      registered in a map that registered them all. */
  lemma UnqueuedOk<K, V>(queue: seq<CacheItem<K, V>>, item: CacheItem<K, V>, capacity: nat, itemCount: nat,
                         m: map<K, CacheItem<K, V>>)
    requires QueueOk(queue, capacity, itemCount)
    ensures QueueOk(Unqueued(queue, item), capacity, itemCount)
    ensures Registered(queue, m) ==> Registered(Unqueued(queue, item), m)
  {
    var r := Unqueued(queue, item);
    if item in queue {
      var i :| 0 <= i < |queue| && queue[i] == item;
      QueueOkRemoveAt(queue, i, capacity, itemCount);
      assert r == RemoveAt(queue, i) by {
        RemoveAtFacts(queue, i);
        var k :| 0 <= k < |queue| && queue[k] == item && r == RemoveAt(queue, k);
        assert k == i;
      }
    }
  }

  /** A fresh sequence of zeros; `Arrays.fill(a, 0)` leaves `a[..]` equal to it. */
  function Zeros(n: nat): (z: seq<int>)
    ensures |z| == n && forall i :: 0 <= i < n ==> z[i] == 0
  {
    seq(n, _ => 0)
  }

  class GenerationalCache<K(==), V> {
    const capacity: nat
    const counter: ItemCounter
    var readsPriorityQueue: seq<CacheItem<K, V>>
    var cacheItemsMap: map<K, CacheItem<K, V>>
    var currentReads: array<int>
    var previousReads: array<int>
    var readCount: int

    /** What every operation keeps, including the ones that throw. */
    ghost predicate Valid()
      reads this, counter, currentReads, previousReads
    {
      && CountersOk()
      && (forall k :: k in cacheItemsMap ==> cacheItemsMap[k].key == k)
      && (forall k :: k in cacheItemsMap ==> cacheItemsMap[k].index < counter.itemCount)
      && QueueOk(readsPriorityQueue, capacity, counter.itemCount)
    }

    /** Two distinct counter arrays of `capacity` slots; no slot has more
        reads than the generation so far. */
    ghost predicate CountersOk()
      reads this, currentReads, previousReads
    {
      && currentReads.Length == capacity && previousReads.Length == capacity
      && currentReads != previousReads
      && 0 <= readCount <= GENERATION
      && (forall i :: 0 <= i < capacity ==> 0 <= currentReads[i] <= readCount)
      && (forall i :: 0 <= i < capacity ==> 0 <= previousReads[i] <= GENERATION)
    }

    /** Every cached item is queued. */
    ghost predicate MapInQueue()
      reads this
    {
      forall k :: k in cacheItemsMap ==> cacheItemsMap[k] in readsPriorityQueue
    }

    /** Every queued item is the one cached under its key. */
    ghost predicate QueueInMap()
      reads this
    {
      Registered(readsPriorityQueue, cacheItemsMap)
    }

    /** The priority queue holds exactly the cached items. */
    ghost predicate Consistent()
      reads this
    {
      MapInQueue() && QueueInMap()
    }

    /** `counter` stands for the static `itemCount`; caches share it only
        when they are given the same one, and every proof holds either way. */
    constructor (capacity: nat, counter: ItemCounter)
      ensures Valid() && Consistent()
      ensures this.capacity == capacity && this.counter == counter
      ensures readsPriorityQueue == [] && cacheItemsMap == map[] && readCount == 0
      ensures fresh(currentReads) && fresh(previousReads)
      ensures currentReads[..] == Zeros(capacity) && previousReads[..] == Zeros(capacity)
    {
      this.capacity := capacity;
      this.counter := counter;
      readsPriorityQueue := [];
      cacheItemsMap := map[];
      currentReads := new int[capacity](_ => 0);
      previousReads := new int[capacity](_ => 0);
      readCount := 0;
    }

    /** `getTotalReadsByIndex`: the item's reads in this generation and the previous one. */
    function TotalReadsByIndex(index: nat): (r: int)
      requires CountersOk() && index < capacity
      reads this, currentReads, previousReads
      ensures 0 <= r <= readCount + GENERATION <= 2 * GENERATION
    {
      currentReads[index] + previousReads[index]
    }

    /** Every queued item scores at least as low as `item`. */
    ghost predicate IsLeastRead(item: CacheItem<K, V>, queue: seq<CacheItem<K, V>>)
      requires CountersOk() && item.index < capacity
      requires forall i :: 0 <= i < |queue| ==> queue[i].index < capacity
      reads this, currentReads, previousReads
    {
      forall i :: 0 <= i < |queue| ==> TotalReadsByIndex(item.index) <= TotalReadsByIndex(queue[i].index)
    }

    /** `readsPriorityQueue.add(item)`. */
    method Offer(item: CacheItem<K, V>) returns (out: Outcome<CacheError>)
      requires Valid() && item !in readsPriorityQueue && item.index < counter.itemCount
      modifies this
      ensures Valid()
      ensures out.Fail? <==> AddThrows(old(readsPriorityQueue), item, capacity)
      ensures out.Pass? ==> readsPriorityQueue == old(readsPriorityQueue) + [item]
      ensures out.Fail? ==> out.error == IndexOutOfRange && readsPriorityQueue == old(readsPriorityQueue)
      ensures cacheItemsMap == old(cacheItemsMap) && readCount == old(readCount)
      ensures currentReads == old(currentReads) && previousReads == old(previousReads)
    {
      var q := readsPriorityQueue;
      if |q| > 0 && (item.index >= capacity || q[0].index >= capacity) {
        return Fail(IndexOutOfRange);
      }
      if |q| > 0 {
        assert !AddThrows(q, item, capacity) by {
          if |q| >= 2 {
            assert forall j :: 0 <= j < |q| ==> q[j].index < capacity;
          }
        }
      }
      readsPriorityQueue := q + [item];
      return Pass;
    }

    /** `readsPriorityQueue.remove(item)`: drops the item if it is queued. */
    method Unqueue(item: CacheItem<K, V>)
      requires Valid()
      modifies this
      ensures Valid()
      ensures multiset(readsPriorityQueue) == multiset(old(readsPriorityQueue)) - multiset{item}
      ensures forall it :: it in readsPriorityQueue <==> it in old(readsPriorityQueue) && it != item
      ensures forall j :: 0 <= j < |readsPriorityQueue| ==> readsPriorityQueue[j] in old(readsPriorityQueue) && readsPriorityQueue[j] != item
      ensures cacheItemsMap == old(cacheItemsMap) && readCount == old(readCount)
      ensures currentReads == old(currentReads) && previousReads == old(previousReads)
      ensures old(QueueInMap()) ==> QueueInMap()
    {
      UnqueuedOk(readsPriorityQueue, item, capacity, counter.itemCount, cacheItemsMap);
      readsPriorityQueue := Unqueued(readsPriorityQueue, item);
    }

    /** `evict`: polls a least-read item and removes its key from the map,
        whichever item that key stands for now. Polling an empty queue
        yields null, and reading its key throws. */
    method Evict() returns (r: Result<CacheItem<K, V>, CacheError>)
      requires Valid()
      modifies this
      ensures Valid()
      ensures r.Failure? <==> old(readsPriorityQueue) == []
      ensures r.Failure? ==> r.error == NullPointer
      ensures r.Failure? ==> readsPriorityQueue == old(readsPriorityQueue) && cacheItemsMap == old(cacheItemsMap)
      ensures r.Success? ==> r.value in old(readsPriorityQueue)
      ensures r.Success? && |old(readsPriorityQueue)| >= 2 ==>
                r.value.index < capacity && old(IsLeastRead(r.value, readsPriorityQueue))
      ensures r.Success? ==> multiset(readsPriorityQueue) == multiset(old(readsPriorityQueue)) - multiset{r.value}
      ensures r.Success? ==> forall it :: it in readsPriorityQueue <==> it in old(readsPriorityQueue) && it != r.value
      ensures r.Success? ==> cacheItemsMap == old(cacheItemsMap) - {r.value.key}
      ensures readCount == old(readCount) && currentReads == old(currentReads) && previousReads == old(previousReads)
      ensures old(MapInQueue()) ==> MapInQueue()
      ensures old(QueueInMap()) ==> QueueInMap()
    {
      var q := readsPriorityQueue;
      if |q| == 0 {
        return Failure(NullPointer);
      }
      var m := LeastRead();
      var least := q[m];
      RemoveAtFacts(q, m);
      Drop(m);
      r := Success(least);
    }

    /** The rest of `evict` once the head is known: it leaves the queue,
        and its key leaves the map. */
    method Drop(m: nat)
      requires Valid() && m < |readsPriorityQueue|
      modifies this
      ensures Valid()
      ensures readsPriorityQueue == RemoveAt(old(readsPriorityQueue), m)
      ensures cacheItemsMap == old(cacheItemsMap) - {old(readsPriorityQueue)[m].key}
      ensures readCount == old(readCount) && currentReads == old(currentReads) && previousReads == old(previousReads)
      ensures old(MapInQueue()) ==> MapInQueue()
      ensures old(QueueInMap()) ==> QueueInMap()
    {
      var q := readsPriorityQueue;
      var least := q[m];
      QueueOkRemoveAt(q, m, capacity, counter.itemCount);
      if QueueInMap() {
        RegisteredEvict(q, m, cacheItemsMap);
      }
      if MapInQueue() {
        MappedEvict(q, m, cacheItemsMap);
      }
      readsPriorityQueue := RemoveAt(q, m);
      cacheItemsMap := cacheItemsMap - {least.key};
    }

    /** Where the head of the priority queue is: the first queued item with
        the fewest reads over both generations. A lone item is the head
        without being compared, whatever its index. */
    method LeastRead() returns (m: nat)
      requires Valid() && readsPriorityQueue != []
      ensures m < |readsPriorityQueue|
      ensures |readsPriorityQueue| >= 2 ==>
                readsPriorityQueue[m].index < capacity && IsLeastRead(readsPriorityQueue[m], readsPriorityQueue)
      ensures forall j :: 0 <= j < m && |readsPriorityQueue| >= 2 ==>
                TotalReadsByIndex(readsPriorityQueue[m].index) < TotalReadsByIndex(readsPriorityQueue[j].index)
    {
      var q := readsPriorityQueue;
      m := 0;
      if |q| >= 2 {
        var i := 1;
        while i < |q|
          invariant 1 <= i <= |q| && 0 <= m < i
          invariant forall j :: 0 <= j < i ==> TotalReadsByIndex(q[m].index) <= TotalReadsByIndex(q[j].index)
          invariant forall j :: 0 <= j < m ==> TotalReadsByIndex(q[m].index) < TotalReadsByIndex(q[j].index)
        {
          if TotalReadsByIndex(q[i].index) < TotalReadsByIndex(q[m].index) {
            m := i;
          }
          i := i + 1;
        }
      }
    }

    /** `set`: an existing key gets the new value in place; otherwise a full
        map first evicts, then a new item takes the next shared index, goes
        into the map and is offered to the queue. The ghost results name the
        polled item and the queue as the new item found it. */
    method Set(key: K, value: V)
      returns (out: Outcome<CacheError>, ghost evicted: Option<CacheItem<K, V>>, ghost remaining: seq<CacheItem<K, V>>)
      requires Valid()
      modifies this, counter, if key in cacheItemsMap then {cacheItemsMap[key]} else {}
      ensures Valid()
      // no other item's value changes
      ensures forall k :: k in old(cacheItemsMap) && k != key ==> old(cacheItemsMap)[k].value == old(cacheItemsMap[k].value)
      ensures readCount == old(readCount) && currentReads == old(currentReads) && previousReads == old(previousReads)
      ensures unchanged(currentReads, previousReads)
      // an existing key: only the item's value changes
      ensures key in old(cacheItemsMap) ==>
                && out == Pass && evicted == None
                && cacheItemsMap == old(cacheItemsMap) && readsPriorityQueue == old(readsPriorityQueue)
                && cacheItemsMap[key].value == value && counter.itemCount == old(counter.itemCount)
      // a full map with nothing queued: polling yields null
      ensures key !in old(cacheItemsMap) && |old(cacheItemsMap)| == capacity && old(readsPriorityQueue) == [] ==>
                && out == Fail(NullPointer) && evicted == None
                && cacheItemsMap == old(cacheItemsMap) && readsPriorityQueue == old(readsPriorityQueue)
                && counter.itemCount == old(counter.itemCount)
      // a new key otherwise
      ensures key !in old(cacheItemsMap) && !(|old(cacheItemsMap)| == capacity && old(readsPriorityQueue) == []) ==>
                && (evicted.Some? <==> |old(cacheItemsMap)| == capacity)
                && (evicted.Some? ==> evicted.value in old(readsPriorityQueue))
                && (evicted.Some? && |old(readsPriorityQueue)| >= 2 ==>
                      evicted.value.index < capacity && old(IsLeastRead(evicted.value, readsPriorityQueue)))
                && multiset(remaining) == multiset(old(readsPriorityQueue)) - (if evicted.Some? then multiset{evicted.value} else multiset{})
                && key in cacheItemsMap && fresh(cacheItemsMap[key])
                && cacheItemsMap[key].value == value && cacheItemsMap[key].index == old(counter.itemCount)
                && counter.itemCount == old(counter.itemCount) + 1
                && (forall it :: it in old(readsPriorityQueue) ==> it.index < cacheItemsMap[key].index)
                && cacheItemsMap == (if evicted.Some? then old(cacheItemsMap) - {evicted.value.key} else old(cacheItemsMap))[key := cacheItemsMap[key]]
                && (out.Fail? <==> AddThrows(remaining, cacheItemsMap[key], capacity))
                && (out.Fail? ==> out.error == IndexOutOfRange && readsPriorityQueue == remaining)
                && (out.Pass? ==> readsPriorityQueue == remaining + [cacheItemsMap[key]])
      // the queue still holds exactly the cached items, and the map is bounded
      ensures old(Consistent()) && |old(cacheItemsMap)| <= capacity && out.Pass? ==>
                Consistent() && |cacheItemsMap| <= capacity
    {
      if key in cacheItemsMap {
        var item := cacheItemsMap[key];
        item.value := value;
        return Pass, None, readsPriorityQueue;
      }
      out, evicted, remaining := Insert(key, value);
    }

    /** `set` for a key the map lacks: evict if full, then add a new item. */
    method Insert(key: K, value: V)
      returns (out: Outcome<CacheError>, ghost evicted: Option<CacheItem<K, V>>, ghost remaining: seq<CacheItem<K, V>>)
      requires Valid() && key !in cacheItemsMap
      modifies this, counter
      ensures Valid()
      ensures readCount == old(readCount) && currentReads == old(currentReads) && previousReads == old(previousReads)
      ensures unchanged(currentReads, previousReads)
      // a full map with nothing queued: polling yields null
      ensures key !in old(cacheItemsMap) && |old(cacheItemsMap)| == capacity && old(readsPriorityQueue) == [] ==>
                && out == Fail(NullPointer) && evicted == None
                && cacheItemsMap == old(cacheItemsMap) && readsPriorityQueue == old(readsPriorityQueue)
                && counter.itemCount == old(counter.itemCount)
      // a new key otherwise
      ensures key !in old(cacheItemsMap) && !(|old(cacheItemsMap)| == capacity && old(readsPriorityQueue) == []) ==>
                && (evicted.Some? <==> |old(cacheItemsMap)| == capacity)
                && (evicted.Some? ==> evicted.value in old(readsPriorityQueue))
                && (evicted.Some? && |old(readsPriorityQueue)| >= 2 ==>
                      evicted.value.index < capacity && old(IsLeastRead(evicted.value, readsPriorityQueue)))
                && multiset(remaining) == multiset(old(readsPriorityQueue)) - (if evicted.Some? then multiset{evicted.value} else multiset{})
                && key in cacheItemsMap && fresh(cacheItemsMap[key])
                && cacheItemsMap[key].value == value && cacheItemsMap[key].index == old(counter.itemCount)
                && counter.itemCount == old(counter.itemCount) + 1
                && (forall it :: it in old(readsPriorityQueue) ==> it.index < cacheItemsMap[key].index)
                && cacheItemsMap == (if evicted.Some? then old(cacheItemsMap) - {evicted.value.key} else old(cacheItemsMap))[key := cacheItemsMap[key]]
                && (out.Fail? <==> AddThrows(remaining, cacheItemsMap[key], capacity))
                && (out.Fail? ==> out.error == IndexOutOfRange && readsPriorityQueue == remaining)
                && (out.Pass? ==> readsPriorityQueue == remaining + [cacheItemsMap[key]])
      // the queue still holds exactly the cached items, and the map is bounded
      ensures old(Consistent()) && |old(cacheItemsMap)| <= capacity && out.Pass? ==>
                Consistent() && |cacheItemsMap| <= capacity
    {
      var r;
      r, evicted := EvictIfFull();
      remaining := readsPriorityQueue;
      if r.Fail? {
        return r, evicted, remaining;
      }
      out := AddItem(key, value);
    }

    /** The first step of `set` for a new key: a full map evicts. */
    method EvictIfFull() returns (out: Outcome<CacheError>, ghost evicted: Option<CacheItem<K, V>>)
      requires Valid()
      modifies this
      ensures Valid()
      ensures readCount == old(readCount) && currentReads == old(currentReads) && previousReads == old(previousReads)
      ensures out.Fail? <==> |old(cacheItemsMap)| == capacity && old(readsPriorityQueue) == []
      ensures out.Fail? ==> out.error == NullPointer && evicted == None
      ensures out.Fail? || |old(cacheItemsMap)| != capacity ==>
                cacheItemsMap == old(cacheItemsMap) && readsPriorityQueue == old(readsPriorityQueue)
      ensures (evicted.Some? <==> out.Pass? && |old(cacheItemsMap)| == capacity)
      ensures evicted.Some? ==> evicted.value in old(readsPriorityQueue)
      ensures evicted.Some? && |old(readsPriorityQueue)| >= 2 ==>
                evicted.value.index < capacity && old(IsLeastRead(evicted.value, readsPriorityQueue))
      ensures evicted.Some? ==>
                && multiset(readsPriorityQueue) == multiset(old(readsPriorityQueue)) - multiset{evicted.value}
                && cacheItemsMap == old(cacheItemsMap) - {evicted.value.key}
      ensures old(Consistent()) ==> Consistent()
      ensures old(Consistent()) && |old(cacheItemsMap)| <= capacity && out.Pass? ==> |cacheItemsMap| < capacity
    {
      evicted := None;
      out := Pass;
      if |cacheItemsMap| == capacity {
        var r := Evict();
        if r.Failure? {
          return Fail(r.error), evicted;
        }
        evicted := Some(r.value);
        if old(Consistent()) {
          RemoveKeySize(old(cacheItemsMap), r.value.key);
        }
      }
    }

    /** The last step of `set` for a new key: a new item goes into the map and the queue. */
    method AddItem(key: K, value: V) returns (out: Outcome<CacheError>)
      requires Valid() && key !in cacheItemsMap
      modifies this, counter
      ensures Valid()
      ensures readCount == old(readCount) && currentReads == old(currentReads) && previousReads == old(previousReads)
      ensures key in cacheItemsMap && fresh(cacheItemsMap[key]) && cacheItemsMap == old(cacheItemsMap)[key := cacheItemsMap[key]]
      ensures cacheItemsMap[key].value == value && cacheItemsMap[key].index == old(counter.itemCount)
      ensures counter.itemCount == old(counter.itemCount) + 1
      ensures forall it :: it in old(readsPriorityQueue) ==> it.index < cacheItemsMap[key].index
      ensures out.Fail? <==> AddThrows(old(readsPriorityQueue), cacheItemsMap[key], capacity)
      ensures out.Fail? ==> out.error == IndexOutOfRange && readsPriorityQueue == old(readsPriorityQueue)
      ensures out.Pass? ==> readsPriorityQueue == old(readsPriorityQueue) + [cacheItemsMap[key]]
      ensures old(Consistent()) && out.Pass? ==> Consistent()
    {
      var item := new CacheItem(key, value, counter);
      cacheItemsMap := cacheItemsMap[key := item];
      ghost var q1 := readsPriorityQueue;
      out := Offer(item);
      if out.Pass? && old(QueueInMap()) {
        assert forall j :: 0 <= j < |q1| ==> readsPriorityQueue[j] == q1[j];
      }
    }

    /** `get`: every call counts as a read, starting a new generation first
        when this one has had `GENERATION` reads. A hit counts one more read
        of the item and moves it to the back of the queue. */
    method Get(key: K) returns (r: Result<Option<V>, CacheError>)
      requires Valid()
      modifies this, currentReads, previousReads
      ensures Valid() && cacheItemsMap == old(cacheItemsMap)
      // the generation turns over when it is complete
      ensures old(readCount) == GENERATION ==>
                previousReads == old(currentReads) && currentReads == old(previousReads)
                && previousReads[..] == old(currentReads[..])
      ensures old(readCount) < GENERATION ==>
                previousReads == old(previousReads) && currentReads == old(currentReads)
                && previousReads[..] == old(previousReads[..])
      // every read counts, unless filling the new generation's queue threw
      ensures readCount == (if old(readCount) == GENERATION then 1 else old(readCount) + 1)
              || (old(readCount) == GENERATION && readCount == 0 && r == Failure(IndexOutOfRange) && !old(MapInQueue()))
      // a miss
      ensures key !in old(cacheItemsMap) && readCount > 0 ==>
                r == Success(None)
                && currentReads[..] == if old(readCount) == GENERATION then Zeros(capacity) else old(currentReads[..])
      ensures key !in old(cacheItemsMap) && old(readCount) < GENERATION ==> readsPriorityQueue == old(readsPriorityQueue)
      // a hit on an item whose index is past the counter arrays
      ensures key in old(cacheItemsMap) && old(cacheItemsMap)[key].index >= capacity && readCount > 0 ==>
                r == Failure(IndexOutOfRange)
                && currentReads[..] == if old(readCount) == GENERATION then Zeros(capacity) else old(currentReads[..])
      // a hit: one more read of the item, which goes to the back of the queue
      ensures key in old(cacheItemsMap) && old(cacheItemsMap)[key].index < capacity && readCount > 0 ==>
                var item, base := old(cacheItemsMap)[key],
                                  if old(readCount) == GENERATION then Zeros(capacity) else old(currentReads[..]);
                && currentReads[..] == base[item.index := base[item.index] + 1]
                && (r.Success? ==> r == Success(Some(item.value)) && |readsPriorityQueue| > 0 && readsPriorityQueue[|readsPriorityQueue| - 1] == item)
                && (r.Success? && old(readCount) < GENERATION ==>
                      multiset(readsPriorityQueue) == multiset(old(readsPriorityQueue)) - multiset{item} + multiset{item})
                && (r.Failure? ==> r.error == IndexOutOfRange)
      // on a consistent cache, only an index past the counter arrays throws
      ensures old(Consistent()) ==> Consistent() && readCount > 0
      ensures old(MapInQueue()) && key in old(cacheItemsMap) && old(cacheItemsMap)[key].index < capacity ==> r.Success?
    {
      if readCount == GENERATION {
        r := RotateThenRead(key);
      } else {
        r := Read(key);
      }
    }

    /** `get` when the generation is complete: the turnover, then the read. */
    method RotateThenRead(key: K) returns (r: Result<Option<V>, CacheError>)
      requires Valid() && readCount == GENERATION
      modifies this, currentReads, previousReads
      ensures Valid() && cacheItemsMap == old(cacheItemsMap)
      ensures previousReads == old(currentReads) && currentReads == old(previousReads)
              && previousReads[..] == old(currentReads[..])
      ensures readCount == 1 || (readCount == 0 && r == Failure(IndexOutOfRange) && !old(MapInQueue()))
      ensures key !in old(cacheItemsMap) && readCount > 0 ==> r == Success(None) && currentReads[..] == Zeros(capacity)
      ensures key in old(cacheItemsMap) && old(cacheItemsMap)[key].index >= capacity && readCount > 0 ==>
                r == Failure(IndexOutOfRange) && currentReads[..] == Zeros(capacity)
      ensures key in old(cacheItemsMap) && old(cacheItemsMap)[key].index < capacity && readCount > 0 ==>
                var item := old(cacheItemsMap)[key];
                && currentReads[..] == Zeros(capacity)[item.index := 1]
                && (r.Success? ==> r == Success(Some(item.value)) && |readsPriorityQueue| > 0 && readsPriorityQueue[|readsPriorityQueue| - 1] == item)
                && (r.Failure? ==> r.error == IndexOutOfRange)
      ensures old(Consistent()) ==> Consistent() && readCount > 0
      ensures old(MapInQueue()) && key in old(cacheItemsMap) && old(cacheItemsMap)[key].index < capacity ==> r.Success?
    {
      var rotated := ChangeGeneration();
      if rotated.Fail? {
        return Failure(rotated.error);
      }
      r := Read(key);
    }

    /** `get` after any turnover, once the generation has room for one more read. */
    method Read(key: K) returns (r: Result<Option<V>, CacheError>)
      requires Valid() && readCount < GENERATION
      modifies this, currentReads
      ensures Valid()
      ensures readCount == old(readCount) + 1
      ensures cacheItemsMap == old(cacheItemsMap) && currentReads == old(currentReads) && previousReads == old(previousReads)
      ensures key !in old(cacheItemsMap) ==>
                r == Success(None) && currentReads[..] == old(currentReads[..])
                && readsPriorityQueue == old(readsPriorityQueue)
      ensures key in old(cacheItemsMap) && old(cacheItemsMap)[key].index >= capacity ==>
                r == Failure(IndexOutOfRange) && currentReads[..] == old(currentReads[..])
                && readsPriorityQueue == old(readsPriorityQueue)
      ensures key in old(cacheItemsMap) && old(cacheItemsMap)[key].index < capacity ==>
                var item := old(cacheItemsMap)[key];
                && currentReads[..] == old(currentReads[..])[item.index := old(currentReads[item.index]) + 1]
                && (r.Success? ==> r == Success(Some(item.value)) && |readsPriorityQueue| > 0 && readsPriorityQueue[|readsPriorityQueue| - 1] == item
                                   && multiset(readsPriorityQueue) == multiset(old(readsPriorityQueue)) - multiset{item} + multiset{item})
                && (r.Failure? ==> r.error == IndexOutOfRange)
                && (old(MapInQueue()) ==> r.Success?)
      ensures old(MapInQueue()) ==> MapInQueue()
      ensures old(QueueInMap()) ==> QueueInMap()
    {
      readCount := readCount + 1;
      if key !in cacheItemsMap {
        return Success(None);
      }
      var item := cacheItemsMap[key];
      if item.index >= capacity {
        return Failure(IndexOutOfRange);
      }
      currentReads[item.index] := currentReads[item.index] + 1;
      var added := Requeue(item);
      if added.Fail? {
        return Failure(added.error);
      }
      r := Success(Some(item.value));
    }

    /** The requeue step of a `get` hit: the item leaves the queue and is added back. */
    method Requeue(item: CacheItem<K, V>) returns (out: Outcome<CacheError>)
      requires Valid() && item.index < capacity
      requires item.key in cacheItemsMap && cacheItemsMap[item.key] == item
      modifies this
      ensures Valid()
      ensures cacheItemsMap == old(cacheItemsMap) && readCount == old(readCount)
      ensures currentReads == old(currentReads) && previousReads == old(previousReads)
      ensures out.Pass? ==> |readsPriorityQueue| > 0 && readsPriorityQueue[|readsPriorityQueue| - 1] == item
      ensures out.Pass? ==> multiset(readsPriorityQueue) == multiset(old(readsPriorityQueue)) - multiset{item} + multiset{item}
      ensures out.Fail? ==> out.error == IndexOutOfRange
      ensures old(MapInQueue()) ==> out.Pass? && MapInQueue()
      ensures old(QueueInMap()) ==> QueueInMap()
    {
      ghost var q0 := readsPriorityQueue;
      ghost var wasMapped := MapInQueue();
      ghost var wasRegistered := QueueInMap();
      Unqueue(item);
      ghost var q1 := readsPriorityQueue;
      if wasMapped {
        RequeueSafe(q0, q1, item, capacity, counter.itemCount);
      }
      out := Offer(item);
      if out.Pass? && wasRegistered {
        RegisteredAppend(q1, item, cacheItemsMap);
      }
    }

    /** `flushCache` empties the map and leaves the queue as it was, so
        every queued item is then stale. */
    method FlushCache()
      requires Valid()
      modifies this
      ensures Valid()
      ensures cacheItemsMap == map[] && readsPriorityQueue == old(readsPriorityQueue)
      ensures readCount == old(readCount) && currentReads == old(currentReads) && previousReads == old(previousReads)
      ensures MapInQueue()
      ensures old(readsPriorityQueue) != [] ==> !QueueInMap()
    {
      cacheItemsMap := map[];
      if readsPriorityQueue != [] {
        assert readsPriorityQueue[0].key !in cacheItemsMap;
      }
    }

    /** `Arrays.fill(a, 0)`. */
    static method Fill(a: array<int>)
      modifies a
      ensures a[..] == Zeros(a.Length)
    {
      var i := 0;
      while i < a.Length
        invariant 0 <= i <= a.Length
        invariant forall j :: 0 <= j < i ==> a[j] == 0
      {
        a[i] := 0;
        i := i + 1;
      }
    }

    /** `changeGeneration`: the current counters become the previous ones,
        the other array is zeroed and becomes current, and a new queue is
        filled with the cached items in the map's iteration order. Filling
        throws when it compares an item whose index is out of range. */
    method ChangeGeneration() returns (out: Outcome<CacheError>)
      requires Valid()
      modifies this, currentReads, previousReads
      ensures Valid()
      ensures previousReads == old(currentReads) && currentReads == old(previousReads)
      ensures previousReads[..] == old(currentReads[..]) && currentReads[..] == Zeros(capacity)
      ensures readCount == 0 && cacheItemsMap == old(cacheItemsMap)
      ensures QueueInMap()
      ensures out.Pass? ==> MapInQueue()
      ensures out.Fail? ==>
                out.error == IndexOutOfRange && exists k :: k in cacheItemsMap && cacheItemsMap[k].index >= capacity
      ensures old(MapInQueue()) ==> out.Pass?
    {
      if MapInQueue() {
        MappedInRange();
      }
      var temp := previousReads;
      previousReads := currentReads;
      currentReads := temp;
      Fill(currentReads);
      readCount := 0;
      out := RebuildQueue(old(MapInQueue()));
    }

    /** The last step of `changeGeneration`: a new queue receives every
        cached item, one `add` at a time. */
    method RebuildQueue(ghost wasConsistent: bool) returns (out: Outcome<CacheError>)
      requires Valid()
      requires wasConsistent ==>
                 |cacheItemsMap| >= 2 ==> forall k :: k in cacheItemsMap ==> cacheItemsMap[k].index < capacity
      modifies this
      ensures Valid()
      ensures cacheItemsMap == old(cacheItemsMap) && readCount == old(readCount)
      ensures currentReads == old(currentReads) && previousReads == old(previousReads)
      ensures QueueInMap()
      ensures out.Pass? ==> MapInQueue()
      ensures out.Fail? ==>
                out.error == IndexOutOfRange && exists k :: k in cacheItemsMap && cacheItemsMap[k].index >= capacity
      ensures wasConsistent ==> out.Pass?
    {
      readsPriorityQueue := [];
      var keys := cacheItemsMap.Keys;
      out := Pass;
      while keys != {}
        invariant Valid()
        invariant keys <= cacheItemsMap.Keys && cacheItemsMap == old(cacheItemsMap)
        invariant currentReads == old(currentReads) && previousReads == old(previousReads)
        invariant readCount == old(readCount)
        invariant forall i :: 0 <= i < |readsPriorityQueue| ==>
                    readsPriorityQueue[i].key in cacheItemsMap && readsPriorityQueue[i].key !in keys
                    && cacheItemsMap[readsPriorityQueue[i].key] == readsPriorityQueue[i]
        invariant forall k :: k in cacheItemsMap && k !in keys ==> cacheItemsMap[k] in readsPriorityQueue
        invariant out == Pass
        decreases |keys|
      {
        var k :| k in keys;
        var item := cacheItemsMap[k];
        if wasConsistent && |readsPriorityQueue| > 0 {
          TwoKeys(cacheItemsMap, k, readsPriorityQueue[0].key);
          assert !AddThrows(readsPriorityQueue, item, capacity);
        }
        out := Offer(item);
        if out.Fail? {
          if item.index < capacity {
            var j :| 0 <= j < |readsPriorityQueue| && readsPriorityQueue[j].index >= capacity;
            assert cacheItemsMap[readsPriorityQueue[j].key].index >= capacity;
          }
          return;
        }
        keys := keys - {k};
      }
    }

    /** When every cached item is queued, two cached items make two queued
        ones, which have been compared, so every cached index is in range. */
    lemma MappedInRange()
      requires Valid() && MapInQueue()
      ensures |cacheItemsMap| >= 2 ==> forall k :: k in cacheItemsMap ==> cacheItemsMap[k].index < capacity
    {
      var q := readsPriorityQueue;
      if |cacheItemsMap| >= 2 {
        var k1 :| k1 in cacheItemsMap;
        assert |cacheItemsMap.Keys - {k1}| >= 1 by {
          RemoveKeySize(cacheItemsMap, k1);
          assert (cacheItemsMap - {k1}).Keys == cacheItemsMap.Keys - {k1};
        }
        var k2 :| k2 in cacheItemsMap.Keys - {k1};
        assert cacheItemsMap[k1] != cacheItemsMap[k2];
        var i1 :| 0 <= i1 < |q| && q[i1] == cacheItemsMap[k1];
        var i2 :| 0 <= i2 < |q| && q[i2] == cacheItemsMap[k2];
        assert i1 != i2;
        forall k | k in cacheItemsMap ensures cacheItemsMap[k].index < capacity {
          var i :| 0 <= i < |q| && q[i] == cacheItemsMap[k];
        }
      }
    }
  }
}
