# MyBatisDemo core in Dafny

This project models the in-memory core of MyBatisDemo, a small MyBatis-like
persistence layer written in Java:

- `CircularArray` (`circular_array_queue.dfy`): the fixed-capacity ring-buffer
  queue `CircularArrayQueue`. It works over an array with `head`, `tail`
  (which starts at -1) and `size`, and is refined against a ghost sequence of
  its contents, oldest first.
- `ConnectionPool` (`connection_pool.dfy`): the bookkeeping of
  `DatabaseConnectionPool`. It holds an idle ring buffer of connections (the
  queue above) and the tracked map `conInfoMap` from each connection to its
  `isAvailable` flag. Connections are abstract ids handed out by the driver in
  order.
- `FifoCaches` (`fifo_cache.dfy`): `FifoCache`, an insertion-ordered map whose
  eldest entry is dropped once it holds more than `capacity` entries. The
  linked map is a key order plus a map, specified by the functions `Put` and
  `Lookup`.
- `Generational` (`generational_cache.dfy`): `GenerationalCache`, an LRU
  approximation with these parts:
  - a key-to-item map;
  - a priority queue ordered by the reads of the current and previous
    generation;
  - two read-counter arrays;
  - a read count that starts a new generation every `GENERATION` = 10 reads.

  Item indices come from one counter, the static `itemCount` shared by
  every cache. The model passes the counter to each cache's constructor, so
  two caches share it only when they are given the same one; every proof
  holds for any counter, shared or not. The counter is never reset, so an index can go past the counter arrays; the model shows
  exactly where this throws. `flushCache` empties the map but not the queue,
  and the model proves that this breaks the queue/map correspondence.
- `Queries` (`queries.dfy`): the statement compiler of `Query`. Every
  `#{name}` placeholder (`name` a run of word characters) becomes `?`, and the
  normalized name goes to `paramNames`, left to right. Normalizing drops
  underscores and lower-cases upper-case letters. Both snapshots of the class,
  `src/dto/queries/Query.java` and `src/dto/Query.java`, contain the same
  algorithm, and this one model stands for both.
- `Configurations` (`configuration.dfy`): the mapper registry of
  `Configuration`. It holds the id-to-namespace index that
  `setQueriesWithNamespace` builds, and the lookups `getQueryById`,
  `getResultMapById` and `getMapperByNamespace` that go through it.
- `Dispatch` (`dao_handler.dfy`): `DaoHandler`, the proxy behind a mapper
  interface. Writes may flush the namespace's caches. Selects may be answered
  from a cache. Everything else goes to the session, which is modelled as an
  oracle over the calls it has received.
- `Wrappers` and `Collections` hold `Option`/`Result`/`Outcome` and a few
  facts about sequences and maps.

Java `null` becomes `None` or `Null`. Each thrown exception becomes a
`Failure`/`Fail` value naming the exception. Where the Java code iterates a
`HashMap` or `Set` in an unspecified order, the model takes some element of
the remaining set. When the outcome depends on that order, the order chosen is
returned as a ghost out-parameter.

## Model

| member | source | states |
|---|---|---|
| CircularArray.CircularArrayQueue.constructor | src/circular_array/CircularArrayQueue.java:17-20 | a new queue of the given capacity is empty, with `head` 0 and `tail` -1 |
| CircularArray.CircularArrayQueue.Size | src/circular_array/CircularArrayQueue.java:22-25 | the size is the number of queued elements |
| CircularArray.CircularArrayQueue.IsEmpty | src/circular_array/CircularArrayQueue.java:27-30 | true exactly when no element is queued |
| CircularArray.CircularArrayQueue.Clear | src/circular_array/CircularArrayQueue.java:33-37 | the queue becomes empty with `size` 0, `head` 0 and `tail` -1; the slots keep their old values |
| CircularArray.CircularArrayQueue.AddLastElement | src/circular_array/CircularArrayQueue.java:39-44 | below capacity, the element joins the back of the contents and `size` grows by one; `head` stays put |
| CircularArray.CircularArrayQueue.Add | src/circular_array/CircularArrayQueue.java:47-53 | on a full queue, throws "queue is full" and changes nothing; otherwise appends the element and returns true |
| CircularArray.CircularArrayQueue.Offer | src/circular_array/CircularArrayQueue.java:56-62 | returns true exactly when the queue had room; false changes nothing, true appends the element |
| CircularArray.CircularArrayQueue.FirstElement | src/circular_array/CircularArrayQueue.java:64-69 | returns the oldest element and removes it from the front; `size` drops by one and `tail` stays put |
| CircularArray.CircularArrayQueue.Remove | src/circular_array/CircularArrayQueue.java:72-78 | on an empty queue, throws "Queue is empty" and changes nothing; otherwise returns and removes the oldest element |
| CircularArray.CircularArrayQueue.Poll | src/circular_array/CircularArrayQueue.java:81-87 | on an empty queue, returns null and changes nothing; otherwise returns and removes the oldest element |
| CircularArray.CircularArrayQueue.Element | src/circular_array/CircularArrayQueue.java:90-95 | throws on an empty queue; otherwise returns the oldest element without removing it |
| CircularArray.CircularArrayQueue.Peek | src/circular_array/CircularArrayQueue.java:98-100 | returns null on an empty queue; otherwise returns the element the next `poll` returns, changing nothing |
| CircularArray.CircularArrayQueue.AddAll | src/circular_array/CircularArrayQueue.java:124-129 | what fits is appended in order; if some element does not fit, the call throws at the first one that does not, and the elements added before it stay |
| CircularArray.SixSlotScenario | src/circular_array/CircularArrayQueue.java:206-217 | with capacity 6: add 0..5, remove four times, add 7 and 8, and the queue then yields 4, 5, 7, 8 in that order |
| ConnectionPool.DatabaseConnectionPool.constructor | src/utility/DatabaseConnectionPool.java:19-30 | the idle queue holds `poolSize` new connections, and the tracked map covers exactly those connections, all available |
| ConnectionPool.DatabaseConnectionPool.AddConnection | src/utility/DatabaseConnectionPool.java:66-73 | a connection never seen before joins the back of the idle queue and is tracked as available |
| ConnectionPool.DatabaseConnectionPool.GetConnection | src/utility/DatabaseConnectionPool.java:48-64 | a connection is opened only when none is idle and fewer than `poolSize` are tracked, so at most `poolSize` are tracked; if nothing is idle after that, the call throws "All connections are used"; otherwise the head of the idle queue leaves it, is marked unavailable and is returned, and an untracked head throws |
| ConnectionPool.DatabaseConnectionPool.ReleaseConnection | src/utility/DatabaseConnectionPool.java:75-81 | returns false and changes nothing when `poolSize` connections are idle; otherwise queues the connection at the back and returns true; the tracked map is never read or changed |
| FifoCaches.Lookup | src/utility/FifoCache.java:35-37 | the value stored under the key, or null exactly when the key is absent |
| FifoCaches.Put | src/utility/FifoCache.java:19-32 | `set` adds no key other than its own, and no other key's value changes |
| FifoCaches.PutBounded | src/utility/FifoCache.java:19-24 | after any `set`, the key order still lists every key once and the map holds at most `capacity` entries |
| FifoCaches.PutExisting | src/utility/FifoCache.java:30-32 | `set` on a present key replaces its value only: same order, same keys, the other values unchanged |
| FifoCaches.PutNewWhenFull | src/utility/FifoCache.java:19-24 | `set` of a new key on a full cache drops exactly the earliest-inserted key and puts the new one last |
| FifoCaches.PutNewWhenRoom | src/utility/FifoCache.java:19-24 | `set` of a new key below capacity appends it and evicts nothing |
| FifoCaches.PutFresh | src/utility/FifoCache.java:19-32 | the key order after a new key is the `capacity` most recent keys |
| FifoCaches.PutLookup | src/utility/FifoCache.java:30-37 | after `set`, `get` of the key returns the new value (unless the capacity is zero, when nothing changes), and every other remaining key keeps its value |
| FifoCaches.FifoCache.constructor | src/utility/FifoCache.java:17-25 | a new cache is empty |
| FifoCaches.FifoCache.Set | src/utility/FifoCache.java:30-32 | the new order and map are `Put` of the old ones, and the cache stays well formed and within capacity |
| FifoCaches.FifoCache.Get | src/utility/FifoCache.java:35-37 | returns `Lookup` of the key and changes nothing |
| FifoCaches.FifoCache.FlushCache | src/utility/FifoCache.java:40-41 | the cache is empty afterwards and every `get` returns null |
| Generational.ItemCounter.constructor | src/utility/GenerationalCache.java:8 | the shared item counter starts at zero |
| Generational.CacheItem.constructor | src/utility/GenerationalCache.java:13-17 | a new item takes the shared counter's value as its index and advances the counter, so indices increase in creation order |
| Generational.Unqueued | src/utility/GenerationalCache.java:89 | removing an item from the queue takes out that one item if it is queued and keeps every other item |
| Generational.AddThrows | src/utility/GenerationalCache.java:47-53 | when `PriorityQueue.add` throws: the comparator reads the counters of the new item and of a queued item, so an empty queue never throws, a new item whose index is past the counter arrays throws against a non-empty queue, and nothing throws when every index is in range |
| Generational.GenerationalCache.constructor | src/utility/GenerationalCache.java:37-45 | a new cache has an empty map and queue, two zeroed counter arrays of `capacity` slots, and read count 0 |
| Generational.GenerationalCache.TotalReadsByIndex | src/utility/GenerationalCache.java:114-116 | an item's score is its reads in the current and previous generation, between 0 and twice `GENERATION` |
| Generational.GenerationalCache.Offer | src/utility/GenerationalCache.java:68 | adding to a non-empty queue throws exactly when the comparison reads an index past the counter arrays; otherwise the item is queued |
| Generational.GenerationalCache.Unqueue | src/utility/GenerationalCache.java:89 | the item leaves the queue if it is there and nothing else changes; queued items stay registered in the map |
| Generational.GenerationalCache.LeastRead | src/utility/GenerationalCache.java:47-53 | the head of the queue is the first item with the fewest reads over both generations |
| Generational.GenerationalCache.Drop | src/utility/GenerationalCache.java:72-73 | the head leaves the queue and its key leaves the map; both halves of the queue/map correspondence are kept |
| Generational.GenerationalCache.Evict | src/utility/GenerationalCache.java:71-74 | on an empty queue, throws and changes nothing; otherwise a queued item with minimal score is removed from the queue, its key is removed from the map, and the queue/map correspondence is kept |
| Generational.GenerationalCache.EvictIfFull | src/utility/GenerationalCache.java:62-64 | only a full map evicts; evicting keeps the correspondence and leaves the map below capacity |
| Generational.GenerationalCache.AddItem | src/utility/GenerationalCache.java:66-68 | a new item with the next index and a larger index than every queued item goes into the map and is offered to the queue |
| Generational.GenerationalCache.Insert | src/utility/GenerationalCache.java:62-68 | a new key on a full map evicts a least-read item first, then is stored and queued; on a consistent cache the map never exceeds `capacity` |
| Generational.GenerationalCache.Set | src/utility/GenerationalCache.java:55-69 | no other item's value changes; on an existing key, only the item's value changes (same map, queue and counters); on a new key, a full map first evicts a least-read item, and the new item is stored and queued; on a consistent cache the map size stays at most `capacity` and the queue equal to the map's items |
| Generational.GenerationalCache.Read | src/utility/GenerationalCache.java:81-92 | every read counts; a miss returns null and changes no counter; a hit adds one read to the item's current counter, moves it to the back of the queue and returns its value; an index past the counter arrays throws |
| Generational.GenerationalCache.Requeue | src/utility/GenerationalCache.java:89-90 | the item is taken out of the queue and added back at the end; on a consistent cache this cannot throw |
| Generational.GenerationalCache.RotateThenRead | src/utility/GenerationalCache.java:77-92 | a read after a complete generation turns the counters over first, so the item's current count becomes 1 |
| Generational.GenerationalCache.Get | src/utility/GenerationalCache.java:76-93 | the generation turns over when `GENERATION` reads have been counted, and the read count stays within 0..`GENERATION`; a hit adds one read and returns the value, a miss returns null; on a consistent cache the queue still equals the map's items and only an out-of-range index throws |
| Generational.GenerationalCache.FlushCache | src/utility/GenerationalCache.java:96-98 | the map is emptied and the queue kept, so a non-empty queue is then no longer the map's items |
| Generational.GenerationalCache.Fill | src/utility/GenerationalCache.java:105 | `Arrays.fill(a, 0)` leaves every slot zero |
| Generational.GenerationalCache.RebuildQueue | src/utility/GenerationalCache.java:108-111 | the new queue receives every cached item; it throws only when some cached item has an index past the counter arrays, and never on a cache whose queue held every item |
| Generational.GenerationalCache.ChangeGeneration | src/utility/GenerationalCache.java:100-112 | the previous counters become the old current ones, the current ones are zeroed, the read count is 0, and the queue is rebuilt to hold exactly the map's items |
| Generational.GenerationalCache.MappedInRange | src/utility/GenerationalCache.java:47-53 | once two cached items have been compared in the queue, every cached index is within the counter arrays |
| Queries.ToLower | src/dto/queries/Query.java:60-61 | upper-case ASCII letters become their lower-case letter; every other character is kept |
| Queries.NormalizeAppend | src/dto/queries/Query.java:55-64 | normalization works character by character: a concatenation normalizes to the concatenation of the parts |
| Queries.Normalize | src/dto/queries/Query.java:53-67 | normalizing never lengthens a name |
| Queries.NormalizeClean | src/dto/queries/Query.java:53-67 | the normalized name has no underscore and no upper-case letter, and is as long as the input when the input has no underscore |
| Queries.NormalizeFixed | src/dto/Query.java:36-50 | a name without underscores and upper-case letters normalizes to itself |
| Queries.NormalizeIdempotent | src/dto/queries/Query.java:53-67 | normalizing twice is normalizing once |
| Queries.NormalizeExamples | src/dto/queries/Query.java:53-67 | `FIRST_NAME`, `firstName` and `first_name` all normalize to `firstname` |
| Queries.GetNormalizedFieldName | src/dto/queries/Query.java:53-67 | the `StringBuilder` loop computes the normalized name |
| Queries.WordRun | src/dto/queries/Query.java:12 | the longest run of word characters at a position: all word characters, followed by the end or a non-word character |
| Queries.PlaceholderAt | src/dto/queries/Query.java:12 | a match at a position is `#{`, at least one word character, then `}` |
| Queries.NextToken | src/dto/Query.java:27-28 | every scan step makes progress and stays within the template |
| Queries.NextTokenSpells | src/dto/queries/Query.java:12 | each token is exactly its own span of the template, and a placeholder names at least one word character |
| Queries.TokenizeFromSpells | src/dto/queries/Query.java:31-39 | scanning loses nothing: the tokens spell the rest of the template back |
| Queries.Tokenize | src/dto/Query.java:26-34 | every character of the template is either verbatim text or part of a placeholder that becomes `?`: the tokens spell the template back, and each placeholder names at least one word character |
| Queries.QuestionMarksOf | src/dto/queries/Query.java:33-37 | the compiled SQL holds the template's own `?`s plus one per parameter name |
| Queries.FormatQuery | src/dto/queries/Query.java:31-39 | `paramNames` gets exactly one entry for each `?` that compiling adds |
| Queries.PlaceholderAtExact | src/dto/queries/Query.java:12 | a match of `#\{(\w+)}` ends at `e` exactly when the text reads `#{`, one or more word characters, then `}` at `e` |
| Queries.ScanReachesMatch | src/dto/queries/Query.java:31-39 | the left-to-right scan never runs past the start of a match: it arrives there having read tokens that spell the text before it |
| Queries.StopsBeforeMatch | src/dto/queries/Query.java:12 | a token read before a match ends no later than the match begins |
| Queries.MatchIsToken | src/dto/queries/Query.java:31-39 | at the start of a match the scan reads exactly that placeholder and goes on after its `}` |
| Queries.MatchSplitsScan | src/dto/queries/Query.java:31-39 | the tokens of the template are the tokens before a match, its placeholder, and the tokens after it |
| Queries.MatchBecomesParam | src/dto/queries/Query.java:31-39 | every match in the template becomes one `?` in the compiled SQL and contributes its normalized name, in place, to `paramNames` |
| Queries.NoPlaceholderFrom | src/dto/queries/Query.java:31-39 | from a position with no match after it, the text is copied and no name is recorded |
| Queries.NoPlaceholder | src/dto/queries/Query.java:31-39 | a template without placeholders compiles to itself with empty `paramNames` |
| Queries.DottedNameStaysVerbatim | src/dto/queries/Query.java:12 | `#{a.b}` does not match and is left as it is |
| Queries.WhereClauseExample | src/dto/queries/Query.java:31-39 | `id=#{EMP_ID}` compiles to `id=?` with the parameter name `empid` |
| Queries.FormatQueryScan | src/dto/queries/Query.java:31-39 | the left-to-right replacement loop, which appends each normalized name to `fNames`, yields the compiled SQL and the name list `FormatQuery` defines |
| Queries.ScanToken | src/dto/queries/Query.java:33-37 | one matcher step: a match is replaced by `?` and its normalized name collected, any other character is copied, and the scan resumes where the token ends |
| Queries.CompileAround | src/dto/queries/Query.java:33-37 | the text and names of a token land between those of the tokens around it |
| Queries.MakeQuery | src/dto/Query.java:18-24 | a query keeps its id and kind; its SQL has one `?` more per parameter name, and a template without placeholders is kept as it is with no names |
| Configurations.QueryOf | src/dto/Mapper.java:22-24 | the mapper's statement under the id, or null exactly when it has none |
| Configurations.ResultMapOf | src/dto/Mapper.java:26-28 | the mapper's result map under the id, or null exactly when it has none |
| Configurations.EntriesOf | src/dto/Configuration.java:92-94 | one mapper contributes each of its query ids under its own namespace |
| Configurations.IndexFrom | src/dto/Configuration.java:87-96 | filing mappers over an index never removes an id already in it |
| Configurations.IndexFromSnoc | src/dto/Configuration.java:88-95 | filing one more mapper after the others adds its entries over theirs |
| Configurations.IndexFromFacts | src/dto/Configuration.java:87-96 | filing mappers adds exactly their query ids; each id is filed under a namespace whose mapper declares it; every other entry keeps its value |
| Configurations.IndexResolves | src/dto/Configuration.java:88-94 | after filing all mappers in any order, every declared id is indexed under a declaring namespace, and an id declared once is indexed under its only mapper |
| Configurations.Configuration.constructor | src/dto/Configuration.java:20-26 | a new configuration has no mappers and an empty query index |
| Configurations.Configuration.SetMappers | src/dto/Configuration.java:79-81 | the mappers are replaced and the index is left as it was |
| Configurations.Configuration.GetMapperByNamespace | src/dto/Configuration.java:28-30 | throws exactly when no mappers are set; otherwise returns the mapper of the namespace, and null for a missing or null namespace |
| Configurations.Configuration.GetNamespaceByQueryId | src/dto/Configuration.java:48-53 | the indexed namespace of an id, or null exactly when the id is not indexed; result-map ids are looked up in the same index |
| Configurations.Configuration.GetQueryById | src/dto/Configuration.java:59-63 | throws exactly when no mappers are set, the id is not indexed, or its namespace has no mapper; otherwise returns that mapper's statement under the id |
| Configurations.Configuration.GetResultMapById | src/dto/Configuration.java:65-69 | resolves the namespace through the query-id index, so it throws on any id no query uses; otherwise returns that mapper's result map under the id |
| Configurations.Configuration.SetQueriesWithNamespace | src/dto/Configuration.java:87-96 | throws when no mappers are set; otherwise visits every mapper once, in some order, and the index becomes the old index with each mapper's ids filed in that order |
| Configurations.Configuration.IndexMapper | src/dto/Configuration.java:92-94 | the inner loop files every id of one mapper under its namespace |
| Configurations.Configuration.QueryFoundAfterIndexing | src/dto/Configuration.java:59-63 | once the index is built from every mapper, each declared id resolves to that query in a declaring mapper, and to the only mapper's query for an id declared once |
| Dispatch.Session.constructor | src/session/SqlSession.java:48-55 | a new session has received no calls |
| Dispatch.Session.Execute | src/session/SqlSession.java:48-55 | a call is recorded, and its result is whatever the database returns given the earlier calls |
| Dispatch.CacheGet | src/utility/Cache.java:5 | a cache returns the value stored under the key, or null when there is none |
| Dispatch.Flushed | src/handlers/DaoHandler.java:72-77 | flushing every cache keeps the same cache names, each now empty |
| Dispatch.SelectCall | src/handlers/DaoHandler.java:99-103 | a `List` result type reads a list, and any other type reads one object, for the same statement and parameter |
| Dispatch.CallFor | src/handlers/DaoHandler.java:84-94 | each kind of statement makes its own session call: insert, update, delete, or a select by result type |
| Dispatch.Direct | src/handlers/DaoHandler.java:84-94 | a call straight to the session records the call, returns the database's answer and leaves the caches alone |
| Dispatch.CachedSelect | src/handlers/DaoHandler.java:105-120 | a non-null cached value is returned without calling the session; a miss or a cached null calls the session, stores its answer under the parameter and returns it; a method without a cache throws |
| Dispatch.WithoutCache | src/handlers/DaoHandler.java:79-97 | fails exactly on a failed lookup, an unknown statement or a missing argument; otherwise the statement's own session call is made |
| Dispatch.FromCache | src/handlers/DaoHandler.java:34-70 | a flagged write flushes every cache before the session is called; a caching select goes through its cache; any other statement goes straight to the session and leaves the caches alone |
| Dispatch.Dispatch | src/handlers/DaoHandler.java:28-32 | without caches every call goes to the session, and with caches through them; a call makes at most one session call, for its own statement, and returns that call's answer |
| Dispatch.RepeatedSelectHits | src/handlers/DaoHandler.java:105-119 | repeating a caching select whose first run stored a non-null answer returns the same answer without calling the session again |
| Dispatch.CachesKept | src/handlers/DaoHandler.java:40-66 | a write without the flag, and a select that does not cache, leave the caches unchanged |
| Dispatch.DaoHandler.constructor | src/handlers/DaoHandler.java:19-25 | the handler keeps its session, its configuration and the mapper's caches |
| Dispatch.DaoHandler.Invoke | src/handlers/DaoHandler.java:28-32 | the new caches, the session's calls and the result are those `Dispatch` defines for the statement found under the method's name |
| Dispatch.DaoHandler.InvokeWithoutCache | src/handlers/DaoHandler.java:79-97 | the session's calls and the result are those `WithoutCache` defines |
| Dispatch.DaoHandler.InvokeFromCache | src/handlers/DaoHandler.java:34-70 | the new caches, the session's calls and the result are those `FromCache` defines |
| Dispatch.DaoHandler.FlushAllCaches | src/handlers/DaoHandler.java:72-77 | every cache is emptied and the cache names are kept |
| Dispatch.DaoHandler.InvokeSelect | src/handlers/DaoHandler.java:99-103 | exactly one select call is made, by result type, and its answer is returned |
| Dispatch.DaoHandler.InvokeSelectFromCache | src/handlers/DaoHandler.java:105-120 | the new caches, the session's calls and the result are those `CachedSelect` defines |

## Left out

- The timers are not modelled: the cache TTL clears (src/utility/FifoCache.java:9-15,26 and src/utility/GenerationalCache.java:29-35,44), and the pool's keep-awake and not-returned tasks (src/utility/DatabaseConnectionPool.java:83-104,115-121). They are background concurrency.
- FifoCaches.FifoCache.FlushCache: models the clear only. The source then schedules the already-scheduled `timerTask` again (src/utility/FifoCache.java:42), which `java.util.Timer` rejects with an exception, so the source's flush ends in an exception.
- JDBC is not modelled (`DriverManager.getConnection`, the `SELECT 1` probe, `isClosed`). Connections are abstract ids, and every `addConnection` opens a new one.
- The pool singleton is not modelled. `instance` is a `null` constant (src/utility/DatabaseConnectionPool.java:7), so `getConnectionPool` always throws and `init` always builds a new pool; the constructor stands for `init`.
- ConnectionPool.DatabaseConnectionPool.AddConnection: its precondition (room in the idle queue and in the tracked map) is what the constructor loop and `getConnection` guarantee at each call; it is not a check the source makes.
- `CircularArrayQueue.contains`, `containsAll`, `toArray`, `toString` and `iterator` are not modelled (src/circular_array/CircularArrayQueue.java:103-121,131-176,194-204). They read `values[tail]` unconditionally or stop at `tail + 1`, so they misbehave on empty, full and wrapped queues. `remove(Object)`, `removeAll` and `retainAll` return false and do nothing (lines 179-191), so they have nothing to model.
- CircularArray.CircularArrayQueue.AddAll: models the exception as a `Failure` result. In the source the exception propagates out of `addAll`, which otherwise always returns true.
- Capacities, pool sizes and indices are `nat`; a negative Java capacity is not modelled. No counter is treated as wrapping at 32 bits: the read counters stay below 2 * `GENERATION`, and the shared item counter would need more than two billion items to wrap.
- Letter case follows ASCII only: `Character.isUpperCase` and `toLowerCase` are modelled on `A`-`Z`, and `\w` on ASCII letters, digits and `_`, which is Java's default for `\w`.
- `Query.getFieldsMap` (src/dto/queries/Query.java:41-51) and `SelectQuery.resultFieldsMap` are reflection over Java classes and are not modelled. Only the normalization they use is modelled.
- The two `Query` snapshots have textually the same `formatQuery` and `getNormalizedFieldName`, so one model stands for both.
- The query subclasses are reduced to what the dispatcher reads: for a select, whether its result type is `List` and whether it caches; for a write, whether it flushes. Only `DeleteQuery` declares `isFlushCache`, and no class declares `isUseCaching` or `Mapper.getCaches`, so these flags are free parameters of the model.
- Dispatch.DaoHandler.constructor: takes the mapper's caches directly instead of looking the mapper up by the interface's name and calling the missing `getCaches`. The `NullPointerException` for an unknown namespace is not modelled.
- The dispatcher sees each cache through the `Cache` interface as a plain map from parameter to result. A `FifoCache` or `GenerationalCache` behind that interface may also evict on `set`; that interaction is not modelled.
- Dispatch.FromCache and Dispatch.DaoHandler.FlushAllCaches: exceptions thrown by the cache implementations do not reach the dispatcher model. The installed caches are `FifoCache` and `GenerationalCache` (src/parsers/AnnotatedMapperParser.java:49-55,119-123). `FifoCache.flushCache` throws after clearing (src/utility/FifoCache.java:40-43), so in the source a flagged write on a mapper with a FIFO cache throws inside `flushAllCaches` and never calls the session; `GenerationalCache.get` and `set` can also throw during a cached select. The model clears the cache and goes on.
- Dispatch.SelectCall and Dispatch.DaoHandler.InvokeSelect: a mapper-file select with neither `resultType` nor `resultMap` has a null result type (src/parsers/MapperParser.java:119-143). `invokeSelect` then throws `NullPointerException` (src/handlers/DaoHandler.java:99-102), and so does `invokeSelectFromCache` on a cache miss (src/handlers/DaoHandler.java:114-116). The model's `resultIsList` flag sends such a select to `selectOne` instead.
- `SqlSession` declares no `insert`, `update`, `delete`, `selectOne` or `selectList` (the declarations are commented out at src/session/SqlSession.java:48-55). The session is an oracle `Database` from the earlier calls and the new call to a result.
- The `method.invoke(proxy, args)` fallback after each `switch` (src/handlers/DaoHandler.java:69,96) cannot be reached, because the switches cover every query type. It is not modelled.
- The `System.out.println("found")` on a cache hit (src/handlers/DaoHandler.java:110) is output only.
- A mapper method called with no arguments (`args` is `null` in Java) is modelled as the error `MissingArgument`. The model does not separate the `NullPointerException` from the index error.
- Configurations.Configuration.GetNamespaceByQueryId also stands for `getNamespaceByResultMapId` (src/dto/Configuration.java:51-53), which performs the same lookup in the same index.
- Generational: the library `PriorityQueue` is a sequence. Its poll takes the first item with the fewest reads; the library breaks ties by its heap layout. Both the library and the model return a minimum.
- Generational.GenerationalCache.Evict: states the minimal score only when two or more items are queued. A lone item is polled without any comparison, so its index may lie past the counter arrays and it has no score.
- Generational.GenerationalCache.TotalReadsByIndex: requires the index to be within the counter arrays. Every caller checks this first and reports the source's `ArrayIndexOutOfBoundsException` as `IndexOutOfRange`.
- Generational.GenerationalCache.Offer: reports the comparator's `ArrayIndexOutOfBoundsException` when the new item or a queued one has an index past the counter arrays. The library compares only along one heap path, but a queue of two or more items has every index in range, so both rules agree.
- Generational.GenerationalCache.Set: the bound of at most `capacity` mapped items is proved only on a consistent cache. After `flushCache` the queue still holds items whose keys left the map; `evict` may then poll one of them, `map.remove` removes nothing, and the `size() == capacity` test in `set` never fires again, so the map can grow past `capacity`. By then the counter has passed the counter arrays, so each such `set` also throws from the comparator. The contracts allow this run but no lemma exhibits it.
- Generational.GenerationalCache.ChangeGeneration: the new queue is filled in the map's iteration order. That order is unspecified, and the model takes the keys in any order.
- Configurations.Configuration.SetQueriesWithNamespace: the mappers are visited in the `HashMap`'s iteration order. The model returns the order it used as a ghost result, and the index is stated in terms of that order.
