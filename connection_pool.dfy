/** The bookkeeping of the database connection pool: an idle ring buffer of
    connections and a map from each connection the pool has opened to its
    `ConnectionInfo`. Connections are abstract ids; timers and JDBC are not
    part of this model. */
module ConnectionPool {
  import opened Wrappers
  import opened CircularArray

  /** A physical connection, identified by the order in which the driver opened it. */
  type ConnId = nat

  /** The part of `ConnectionInfo` that is not a timer task. */
  datatype ConnectionInfo = ConnectionInfo(isAvailable: bool)

  /** `Exception("All connections are used")`, and the `NullPointerException`
      thrown when the polled connection has no `ConnectionInfo`. */
  datatype PoolError = AllConnectionsUsed | UntrackedConnection

  class DatabaseConnectionPool {
    const poolSize: nat
    const pool: CircularArrayQueue<ConnId>
    var conInfoMap: map<ConnId, ConnectionInfo>
    /** The id the driver hands out next: `DriverManager.getConnection` always opens a new connection. */
    var nextConnection: ConnId

    ghost predicate Valid()
      reads this, pool, pool.values
    {
      && pool.Valid()
      && pool.capacity == poolSize
      && |conInfoMap| <= poolSize
      && forall c :: c in conInfoMap ==> c < nextConnection
    }

    /** Opens `poolSize` connections eagerly, all idle and all available. */
    constructor (poolSize: nat)
      ensures Valid() && fresh(pool) && fresh(pool.values)
      ensures this.poolSize == poolSize
      ensures |pool.Contents| == poolSize && |conInfoMap| == poolSize
      ensures forall j :: 0 <= j < poolSize ==> pool.Contents[j] == j
      ensures forall c :: c in conInfoMap <==> c in pool.Contents
      ensures forall c :: c in conInfoMap ==> conInfoMap[c].isAvailable
    {
      this.poolSize := poolSize;
      pool := new CircularArrayQueue<ConnId>(poolSize);
      conInfoMap := map[];
      nextConnection := 0;
      new;
      var i := 0;
      while i < poolSize
        invariant 0 <= i <= poolSize
        invariant Valid() && fresh(pool) && fresh(pool.values)
        invariant nextConnection == i && |conInfoMap| == i
        invariant |pool.Contents| == i
        invariant forall j :: 0 <= j < i ==> pool.Contents[j] == j
        invariant forall c: ConnId :: c in conInfoMap <==> c < i
        invariant forall c :: c in conInfoMap ==> conInfoMap[c].isAvailable
      {
        AddConnection();
        i := i + 1;
      }
      assert forall c: ConnId :: c in pool.Contents <==> c < poolSize by {
        forall c: ConnId ensures c in pool.Contents <==> c < poolSize {
          if c < poolSize { assert pool.Contents[c] == c; }
        }
      }
    }

    /** Opens one more connection, queues it as idle and tracks it as available. */
    method AddConnection()
      requires Valid()
      requires |pool.Contents| < poolSize && |conInfoMap| < poolSize
      modifies this, pool, pool.values
      ensures Valid()
      ensures old(nextConnection) !in old(conInfoMap)
      ensures nextConnection == old(nextConnection) + 1
      ensures pool.Contents == old(pool.Contents) + [old(nextConnection)]
      ensures conInfoMap == old(conInfoMap)[old(nextConnection) := ConnectionInfo(true)]
      ensures |conInfoMap| == old(|conInfoMap|) + 1
    {
      var con := nextConnection;
      nextConnection := nextConnection + 1;
      var added := pool.Add(con);
      conInfoMap := conInfoMap[con := ConnectionInfo(true)];
    }

    /** Opens a new connection only when none is idle and fewer than `poolSize`
        are tracked; then hands out the oldest idle connection or fails. */
    method GetConnection() returns (r: Result<ConnId, PoolError>)
      requires Valid()
      modifies this, pool, pool.values
      ensures Valid()
      ensures |conInfoMap| <= poolSize
      // a connection is created exactly when the pool is empty and below its size
      ensures old(pool.Contents) == [] && old(|conInfoMap|) < poolSize ==>
                && r == Success(old(nextConnection))
                && nextConnection == old(nextConnection) + 1
                && pool.Contents == []
                && conInfoMap == old(conInfoMap)[old(nextConnection) := ConnectionInfo(false)]
      ensures !(old(pool.Contents) == [] && old(|conInfoMap|) < poolSize) ==>
                nextConnection == old(nextConnection)
      // nothing idle and nothing more may be opened
      ensures old(pool.Contents) == [] && old(|conInfoMap|) >= poolSize ==>
                && r == Failure(AllConnectionsUsed)
                && pool.Contents == [] && conInfoMap == old(conInfoMap)
      // the head of the idle queue is taken out and marked unavailable
      ensures old(pool.Contents) != [] ==>
                && pool.Contents == old(pool.Contents[1..])
                && (old(pool.Contents[0]) in old(conInfoMap) ==>
                      && r == Success(old(pool.Contents[0]))
                      && conInfoMap == old(conInfoMap)[old(pool.Contents[0]) := ConnectionInfo(false)])
                && (old(pool.Contents[0]) !in old(conInfoMap) ==>
                      r == Failure(UntrackedConnection) && conInfoMap == old(conInfoMap))
    {
      var empty := pool.IsEmpty();
      if empty && |conInfoMap| < poolSize {
        AddConnection();
      }
      var con := pool.Poll();
      if con.None? {
        return Failure(AllConnectionsUsed);
      }
      if con.value !in conInfoMap {
        return Failure(UntrackedConnection);
      }
      var info := conInfoMap[con.value];
      conInfoMap := conInfoMap[con.value := info.(isAvailable := false)];
      return Success(con.value);
    }

    /** Queues `connection` as idle unless the idle queue already holds
        `poolSize` connections; the tracked map is neither read nor written. */
    method ReleaseConnection(connection: ConnId) returns (ok: bool)
      requires Valid()
      modifies this, pool, pool.values
      ensures Valid()
      ensures ok <==> old(|pool.Contents|) < poolSize
      ensures ok ==> pool.Contents == old(pool.Contents) + [connection]
      ensures !ok ==> pool.Contents == old(pool.Contents)
      ensures conInfoMap == old(conInfoMap) && nextConnection == old(nextConnection)
    {
      var n := pool.Size();
      if n == poolSize {
        return false;
      }
      var added := pool.Add(connection);
      ok := added.value;
    }
  }
}
