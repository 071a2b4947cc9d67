/** The proxy behind a mapper interface: a call of a mapper method runs the
    statement whose id is the method's name, through the namespace's caches
    when the mapper has any. */
module Dispatch {
  import opened Wrappers
  import opened Queries
  import opened Configurations

  /** An argument or result object as the proxy passes it on; `Null` is
      Java's `null`. */
  datatype Value = Null | Obj(id: nat)

  datatype Op = InsertOp | UpdateOp | DeleteOp | SelectListOp | SelectOneOp

  /** One call into the session: the operation, the statement id and the
      parameter object. */
  datatype SessionCall = SessionCall(op: Op, statement: string, param: Value)

  /** The database behind the session: what a call returns, given the
      calls made before it. */
  type Database = (seq<SessionCall>, SessionCall) -> Value

  /** The session, seen as the sequence of calls it has received. */
  class Session {
    const db: Database
    var log: seq<SessionCall>

    constructor(db: Database)
      ensures this.db == db && log == []
    {
      this.db := db;
      log := [];
    }

    method Execute(call: SessionCall) returns (v: Value)
      modifies this
      ensures log == old(log) + [call] && v == db(old(log), call)
    {
      v := db(log, call);
      log := log + [call];
    }
  }

  /** Why a call fails: the configuration lookup threw, the statement id
      is unknown (`query` is `null`), the method has no argument
      (`args[0]`), or a caching select has no cache under its name. */
  datatype DispatchError = ConfigFailure(cause: ConfigError) | NoSuchQuery | MissingArgument | NoCacheForMethod

  /** The caches of a namespace, by method name; each maps a parameter
      object to a cached result. */
  type Caches = map<string, map<Value, Value>>

  /** `Cache.get`: the cached result, or `null` when there is none. */
  function CacheGet(cache: map<Value, Value>, key: Value): (v: Value)
    ensures key !in cache ==> v == Null
    ensures key in cache ==> v == cache[key]
  {
    if key in cache then cache[key] else Null
  }

  /** What `flushCache` on every cache leaves: the same caches, all empty. */
  function Flushed(cs: Caches): (r: Caches)
    ensures r.Keys == cs.Keys
    ensures forall name :: name in r ==> r[name] == map[]
  {
    map name | name in cs :: map[]
  }

  /** `invokeSelect`: a `List` result type reads a list, any other one
      object. */
  function SelectCall(queryId: string, param: Value, resultIsList: bool): (c: SessionCall)
    ensures c.statement == queryId && c.param == param
    ensures c.op == SelectListOp <==> resultIsList
    ensures c.op == SelectOneOp <==> !resultIsList
  {
    SessionCall(if resultIsList then SelectListOp else SelectOneOp, queryId, param)
  }

  /** The session call a statement of this kind makes. */
  function CallFor(kind: QueryKind, queryId: string, param: Value): (c: SessionCall)
    ensures c.statement == queryId && c.param == param
    ensures c.op == InsertOp <==> kind.Insert?
    ensures c.op == UpdateOp <==> kind.Update?
    ensures c.op == DeleteOp <==> kind.Delete?
    ensures c.op == SelectListOp <==> kind.Select? && kind.resultIsList
  {
    match kind
    case Insert(_) => SessionCall(InsertOp, queryId, param)
    case Update(_) => SessionCall(UpdateOp, queryId, param)
    case Delete(_) => SessionCall(DeleteOp, queryId, param)
    case Select(resultIsList, _) => SelectCall(queryId, param, resultIsList)
  }

  /** What a call leaves behind: the caches, the session's calls, and the
      value returned or the exception thrown. */
  datatype Step = Step(caches: Option<Caches>, log: seq<SessionCall>, result: Result<Value, DispatchError>)

  /** A call straight to the session, leaving the caches alone. */
  function Direct(db: Database, caches: Option<Caches>, log: seq<SessionCall>, call: SessionCall): (s: Step)
    ensures s.caches == caches && s.log == log + [call] && s.result == Success(db(log, call))
  {
    Step(caches, log + [call], Success(db(log, call)))
  }

  /** `invokeSelectFromCache`. */
  function CachedSelect(db: Database, cs: Caches, log: seq<SessionCall>, queryId: string, methodName: string,
                        param: Value, resultIsList: bool): (s: Step)
    ensures methodName !in cs ==> s == Step(Some(cs), log, Failure(NoCacheForMethod))
    ensures methodName in cs && CacheGet(cs[methodName], param) != Null ==>
              s == Step(Some(cs), log, Success(cs[methodName][param]))
    ensures methodName in cs && CacheGet(cs[methodName], param) == Null ==>
              var call := SelectCall(queryId, param, resultIsList);
              s.log == log + [call] && s.result == Success(db(log, call)) &&
              s.caches == Some(cs[methodName := cs[methodName][param := db(log, call)]])
  {
    if methodName !in cs then Step(Some(cs), log, Failure(NoCacheForMethod))
    else
      var hit := CacheGet(cs[methodName], param);
      if hit != Null then Step(Some(cs), log, Success(hit))
      else
        var call := SelectCall(queryId, param, resultIsList);
        var v := db(log, call);
        Step(Some(cs[methodName := cs[methodName][param := v]]), log + [call], Success(v))
  }

  /** `invokeWithoutCache`: every statement goes to the session. */
  function WithoutCache(db: Database, lookup: Result<Option<Query>, ConfigError>, log: seq<SessionCall>,
                        queryId: string, args: seq<Value>): (s: Step)
    ensures s.caches == None
    ensures s.result.Failure? <==> lookup.Failure? || lookup.value.None? || args == []
    ensures s.result.Failure? ==> s.log == log
    ensures s.result.Success? ==> s == Direct(db, None, log, CallFor(lookup.value.value.kind, queryId, args[0]))
  {
    match lookup
    case Failure(e) => Step(None, log, Failure(ConfigFailure(e)))
    case Success(None) => Step(None, log, Failure(NoSuchQuery))
    case Success(Some(q)) =>
      if args == [] then Step(None, log, Failure(MissingArgument))
      else Direct(db, None, log, CallFor(q.kind, queryId, args[0]))
  }

  /** Whether a statement of this kind is a write that flushes the caches. */
  predicate FlushesCaches(kind: QueryKind) {
    !kind.Select? && kind.flushCache
  }

  /** `invokeFromCache`: a flagged write flushes every cache first (and
      then reads `args[0]`); a caching select goes through its cache; any
      other statement goes to the session. */
  function FromCache(db: Database, lookup: Result<Option<Query>, ConfigError>, cs: Caches, log: seq<SessionCall>,
                     queryId: string, args: seq<Value>): (s: Step)
    ensures lookup.Failure? || lookup.value.None? ==> s.caches == Some(cs) && s.log == log && s.result.Failure?
    ensures lookup.Success? && lookup.value.Some? ==>
              var kind := lookup.value.value.kind;
              (FlushesCaches(kind) ==> s.caches == Some(Flushed(cs))) &&
              (!FlushesCaches(kind) && !(kind.Select? && kind.useCaching && args != []) ==> s.caches == Some(cs)) &&
              (args == [] ==> s.log == log && s.result == Failure(MissingArgument)) &&
              (args != [] && !(kind.Select? && kind.useCaching) ==> s.log == log + [CallFor(kind, queryId, args[0])]) &&
              (args != [] && kind.Select? && kind.useCaching ==>
                 s == CachedSelect(db, cs, log, queryId, queryId, args[0], kind.resultIsList))
  {
    match lookup
    case Failure(e) => Step(Some(cs), log, Failure(ConfigFailure(e)))
    case Success(None) => Step(Some(cs), log, Failure(NoSuchQuery))
    case Success(Some(q)) =>
      var cs' := if FlushesCaches(q.kind) then Flushed(cs) else cs;
      if args == [] then Step(Some(cs'), log, Failure(MissingArgument))
      else if q.kind.Select? && q.kind.useCaching then
        CachedSelect(db, cs, log, queryId, queryId, args[0], q.kind.resultIsList)
      else Direct(db, Some(cs'), log, CallFor(q.kind, queryId, args[0]))
  }

  /** `invoke`: without caches straight to the session, otherwise through
      them. */
  function Dispatch(db: Database, lookup: Result<Option<Query>, ConfigError>, caches: Option<Caches>,
                    log: seq<SessionCall>, queryId: string, args: seq<Value>): (s: Step)
    ensures s.caches.None? <==> caches.None?
    ensures s.log == log || (|s.log| == |log| + 1 && s.log[..|log|] == log && s.log[|log|].statement == queryId)
    ensures s.log != log ==> s.result.Success? && s.result.value == db(log, s.log[|log|])
    ensures caches.None? ==> s == WithoutCache(db, lookup, log, queryId, args)
    ensures caches.Some? ==> s == FromCache(db, lookup, caches.value, log, queryId, args)
  {
    if caches.None? then WithoutCache(db, lookup, log, queryId, args)
    else FromCache(db, lookup, caches.value, log, queryId, args)
  }

  /** A cached select that missed and stored a non-null result answers the
      same call again from the cache, without asking the session. */
  lemma RepeatedSelectHits(db: Database, lookup: Result<Option<Query>, ConfigError>, cs: Caches,
                           log: seq<SessionCall>, queryId: string, args: seq<Value>)
    requires lookup.Success? && lookup.value.Some? && lookup.value.value.kind.Select? && lookup.value.value.kind.useCaching
    requires args != [] && queryId in cs && CacheGet(cs[queryId], args[0]) == Null
    requires Dispatch(db, lookup, Some(cs), log, queryId, args).result != Success(Null)
    ensures var first := Dispatch(db, lookup, Some(cs), log, queryId, args);
            var second := Dispatch(db, lookup, first.caches, first.log, queryId, args);
            second.log == first.log && second.result == first.result && second.caches == first.caches
  {
    var first := Dispatch(db, lookup, Some(cs), log, queryId, args);
    var call := SelectCall(queryId, args[0], lookup.value.value.kind.resultIsList);
    var cs1 := cs[queryId := cs[queryId][args[0] := db(log, call)]];
    assert first.caches == Some(cs1);
    assert CacheGet(cs1[queryId], args[0]) == db(log, call);
  }

  /** A write without the flag, or a select that does not cache, leaves
      the caches as they were; a select that caches never flushes. */
  lemma CachesKept(db: Database, lookup: Result<Option<Query>, ConfigError>, caches: Option<Caches>,
                   log: seq<SessionCall>, queryId: string, args: seq<Value>)
    requires lookup.Success? && lookup.value.Some?
    requires !FlushesCaches(lookup.value.value.kind)
    requires !(lookup.value.value.kind.Select? && lookup.value.value.kind.useCaching)
    ensures Dispatch(db, lookup, caches, log, queryId, args).caches == caches
  {
  }

  class DaoHandler {
    const session: Session
    const configuration: Configuration
    /** `null` when the namespace's mapper has no caches. */
    var caches: Option<Caches>

    /** The caches are those the mapper of the proxied interface declares. */
    constructor(session: Session, configuration: Configuration, caches: Option<Caches>)
      ensures this.session == session && this.configuration == configuration && this.caches == caches
    {
      this.session := session;
      this.configuration := configuration;
      this.caches := caches;
    }

    /** `invoke`: a call of the mapper method `methodName` with `args`. */
    method Invoke(methodName: string, args: seq<Value>) returns (r: Result<Value, DispatchError>)
      modifies this, session
      ensures Step(caches, session.log, r) ==
              Dispatch(session.db, configuration.GetQueryById(methodName), old(caches), old(session.log), methodName, args)
    {
      if caches.None? {
        r := InvokeWithoutCache(methodName, args);
      } else {
        r := InvokeFromCache(methodName, args);
      }
    }

    method InvokeWithoutCache(methodName: string, args: seq<Value>) returns (r: Result<Value, DispatchError>)
      requires caches.None?
      modifies session
      ensures Step(caches, session.log, r) ==
              WithoutCache(session.db, configuration.GetQueryById(methodName), old(session.log), methodName, args)
    {
      var queryId := methodName;
      var lookup := configuration.GetQueryById(queryId);
      if lookup.Failure? {
        return Failure(ConfigFailure(lookup.error));
      }
      if lookup.value.None? {
        return Failure(NoSuchQuery);
      }
      var query := lookup.value.value;
      if args == [] {
        return Failure(MissingArgument);
      }
      var v;
      match query.kind {
        case Insert(_) =>
          v := session.Execute(SessionCall(InsertOp, queryId, args[0]));
        case Update(_) =>
          v := session.Execute(SessionCall(UpdateOp, queryId, args[0]));
        case Delete(_) =>
          v := session.Execute(SessionCall(DeleteOp, queryId, args[0]));
        case Select(resultIsList, _) =>
          v := InvokeSelect(queryId, args[0], resultIsList);
      }
      r := Success(v);
    }

    method InvokeFromCache(methodName: string, args: seq<Value>) returns (r: Result<Value, DispatchError>)
      requires caches.Some?
      modifies this, session
      ensures Step(caches, session.log, r) ==
              FromCache(session.db, configuration.GetQueryById(methodName), old(caches.value), old(session.log), methodName, args)
    {
      var queryId := methodName;
      var lookup := configuration.GetQueryById(queryId);
      if lookup.Failure? {
        return Failure(ConfigFailure(lookup.error));
      }
      if lookup.value.None? {
        return Failure(NoSuchQuery);
      }
      var query := lookup.value.value;
      if query.kind.Select? {
        if args == [] {
          return Failure(MissingArgument);
        }
        if query.kind.useCaching {
          r := InvokeSelectFromCache(queryId, methodName, args[0], query.kind.resultIsList);
        } else {
          var v := InvokeSelect(queryId, args[0], query.kind.resultIsList);
          r := Success(v);
        }
        return;
      }
      if query.kind.flushCache {
        FlushAllCaches();
      }
      if args == [] {
        return Failure(MissingArgument);
      }
      var op := match query.kind case Insert(_) => InsertOp case Update(_) => UpdateOp case Delete(_) => DeleteOp;
      var v := session.Execute(SessionCall(op, queryId, args[0]));
      r := Success(v);
    }

    /** `flushAllCaches`: empties every cache, one at a time. */
    method FlushAllCaches()
      requires caches.Some?
      modifies this
      ensures caches == Some(Flushed(old(caches.value)))
    {
      var cs := caches.value;
      var todo := cs.Keys;
      while todo != {}
        invariant todo <= cs.Keys
        invariant caches.Some? && caches.value.Keys == cs.Keys
        invariant forall name :: name in todo ==> caches.value[name] == cs[name]
        invariant forall name :: name in cs && name !in todo ==> caches.value[name] == map[]
        decreases todo
      {
        var name :| name in todo;
        caches := Some(caches.value[name := map[]]);
        todo := todo - {name};
      }
      assert caches.value == Flushed(cs);
    }

    method InvokeSelect(queryId: string, param: Value, resultIsList: bool) returns (v: Value)
      modifies session
      ensures session.log == old(session.log) + [SelectCall(queryId, param, resultIsList)]
      ensures v == session.db(old(session.log), SelectCall(queryId, param, resultIsList))
    {
      if resultIsList {
        v := session.Execute(SessionCall(SelectListOp, queryId, param));
      } else {
        v := session.Execute(SessionCall(SelectOneOp, queryId, param));
      }
    }

    method InvokeSelectFromCache(queryId: string, methodName: string, param: Value, resultIsList: bool)
      returns (r: Result<Value, DispatchError>)
      requires caches.Some?
      modifies this, session
      ensures Step(caches, session.log, r) ==
              CachedSelect(session.db, old(caches.value), old(session.log), queryId, methodName, param, resultIsList)
    {
      var cs := caches.value;
      if methodName !in cs {
        return Failure(NoCacheForMethod);
      }
      var res := CacheGet(cs[methodName], param);
      if res != Null {
        return Success(res);
      }
      res := InvokeSelect(queryId, param, resultIsList);
      caches := Some(cs[methodName := cs[methodName][param := res]]);
      r := Success(res);
    }
  }
}
