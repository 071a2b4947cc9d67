/** The mapper registry of a configuration and its query-id index: every
    query id of every mapper is filed under the namespace of the mapper
    that declares it, and statements are looked up through that index. */
module Configurations {
  import opened Wrappers
  import opened Queries
  import Collections

  /** A result map, identified by its id; its column bindings are not used
      by the lookups below. */
  datatype ResultMap = ResultMap(id: string, typeName: string)

  /** A parsed mapper file: its namespace, its statements by id and its
      result maps by id. */
  datatype Mapper = Mapper(namespace: string, queries: map<string, Query>, resultMaps: map<string, ResultMap>)

  /** A dereference of `null` in a lookup. */
  datatype ConfigError = NullPointer

  /** `Mapper.getQueryById`. */
  function QueryOf(m: Mapper, id: string): (r: Option<Query>)
    ensures r.Some? <==> id in m.queries
    ensures r.Some? ==> r.value == m.queries[id]
  {
    if id in m.queries then Some(m.queries[id]) else None
  }

  /** `Mapper.getResultMapById`. */
  function ResultMapOf(m: Mapper, id: string): (r: Option<ResultMap>)
    ensures r.Some? <==> id in m.resultMaps
    ensures r.Some? ==> r.value == m.resultMaps[id]
  {
    if id in m.resultMaps then Some(m.resultMaps[id]) else None
  }

  /** The namespaces whose mapper declares a query `id`. */
  ghost function DeclaringNamespaces(ms: map<string, Mapper>, id: string): set<string> {
    set ns | ns in ms && id in ms[ns].queries
  }

  /** The ids declared by the mappers of `nss`. */
  ghost function IdsOf(ms: map<string, Mapper>, nss: set<string>): set<string> {
    set ns, id | ns in nss && ns in ms && id in ms[ns].queries :: id
  }

  /** The index entries one mapper contributes: each of its ids under its
      namespace. */
  function EntriesOf(ms: map<string, Mapper>, ns: string): (e: map<string, string>)
    requires ns in ms
    ensures e.Keys == ms[ns].queries.Keys
    ensures forall id :: id in e ==> e[id] == ns
  {
    map id | id in ms[ns].queries :: ns
  }

  /** The index after filing the mappers of `order`, first to last, over
      `index`: an id declared twice ends up under the later namespace. */
  function IndexFrom(index: map<string, string>, ms: map<string, Mapper>, order: seq<string>): (r: map<string, string>)
    requires forall i :: 0 <= i < |order| ==> order[i] in ms
    ensures index.Keys <= r.Keys
    decreases |order|
  {
    if order == [] then index
    else IndexFrom(index + EntriesOf(ms, order[0]), ms, order[1..])
  }

  /** Filing one more mapper at the end of the order. */
  lemma {:induction false} IndexFromSnoc(index: map<string, string>, ms: map<string, Mapper>, order: seq<string>, ns: string)
    requires forall i :: 0 <= i < |order| ==> order[i] in ms
    requires ns in ms
    ensures IndexFrom(index, ms, order + [ns]) == IndexFrom(index, ms, order) + EntriesOf(ms, ns)
    decreases |order|
  {
    if order == [] {
      assert (order + [ns])[1..] == [];
    } else {
      assert (order + [ns])[0] == order[0];
      assert (order + [ns])[1..] == order[1..] + [ns];
      IndexFromSnoc(index + EntriesOf(ms, order[0]), ms, order[1..], ns);
    }
  }

  /** What filing the mappers of `order` does to the index: the ids of
      those mappers are added, each under a namespace among them that
      declares it; every other entry is left as it was. */
  lemma {:induction false} IndexFromFacts(index: map<string, string>, ms: map<string, Mapper>, order: seq<string>)
    requires forall i :: 0 <= i < |order| ==> order[i] in ms
    ensures IndexFrom(index, ms, order).Keys == index.Keys + IdsOf(ms, set i | 0 <= i < |order| :: order[i])
    ensures forall id :: id in IdsOf(ms, set i | 0 <= i < |order| :: order[i]) ==>
              IndexFrom(index, ms, order)[id] in DeclaringNamespaces(ms, id)
    ensures forall id :: id in index && id !in IdsOf(ms, set i | 0 <= i < |order| :: order[i]) ==>
              IndexFrom(index, ms, order)[id] == index[id]
    decreases |order|
  {
    var nss := set i | 0 <= i < |order| :: order[i];
    if order == [] {
      assert nss == {};
      assert IdsOf(ms, nss) == {};
    } else {
      var rest := set i | 0 <= i < |order[1..]| :: order[1..][i];
      var next := index + EntriesOf(ms, order[0]);
      IndexFromFacts(next, ms, order[1..]);
      NamespacesSplit(order);
      assert IdsOf(ms, nss) == ms[order[0]].queries.Keys + IdsOf(ms, rest);
    }
  }

  /** The namespaces of an order: its first one and those of the rest. */
  lemma NamespacesSplit(order: seq<string>)
    requires |order| > 0
    ensures (set i | 0 <= i < |order| :: order[i]) == {order[0]} + (set i | 0 <= i < |order[1..]| :: order[1..][i])
  {
    var nss := set i | 0 <= i < |order| :: order[i];
    var rest := set i | 0 <= i < |order[1..]| :: order[1..][i];
    forall x | x in nss ensures x in {order[0]} + rest {
      var i :| 0 <= i < |order| && order[i] == x;
      if i > 0 {
        assert order[1..][i - 1] == x;
      }
    }
    forall x | x in rest ensures x in nss {
      var i :| 0 <= i < |order[1..]| && order[1..][i] == x;
      assert order[i + 1] == x;
    }
  }

  /** Filing every mapper, in any order, leaves each declared id under a
      namespace that declares it; an id declared by exactly one mapper is
      under that mapper's namespace. */
  lemma IndexResolves(index: map<string, string>, ms: map<string, Mapper>, order: seq<string>, id: string)
    requires forall i :: 0 <= i < |order| ==> order[i] in ms
    requires forall ns :: ns in ms ==> ns in order
    requires DeclaringNamespaces(ms, id) != {}
    ensures id in IndexFrom(index, ms, order)
    ensures IndexFrom(index, ms, order)[id] in DeclaringNamespaces(ms, id)
    ensures forall ns :: DeclaringNamespaces(ms, id) == {ns} ==> IndexFrom(index, ms, order)[id] == ns
  {
    IndexFromFacts(index, ms, order);
    var nss := set i | 0 <= i < |order| :: order[i];
    var ns :| ns in DeclaringNamespaces(ms, id);
    assert ns in order;
    var i :| 0 <= i < |order| && order[i] == ns;
    assert ns in nss;
    assert id in IdsOf(ms, nss);
  }

  class Configuration {
    /** `null` until `setMappers` is called. */
    var mappers: Option<map<string, Mapper>>
    var queriesWithNamespace: map<string, string>

    /** The constructor leaves the mappers unset and the index empty. */
    constructor()
      ensures mappers == None && queriesWithNamespace == map[]
    {
      mappers := None;
      queriesWithNamespace := map[];
    }

    method SetMappers(ms: map<string, Mapper>)
      modifies this
      ensures mappers == Some(ms) && queriesWithNamespace == old(queriesWithNamespace)
    {
      mappers := Some(ms);
    }

    /** `getMapperByNamespace`: a `null` namespace finds no mapper; unset
        mappers throw. */
    function GetMapperByNamespace(namespace: Option<string>): (r: Result<Option<Mapper>, ConfigError>)
      reads this
      ensures r.Failure? <==> mappers.None?
      ensures r.Success? ==> (r.value.Some? <==> namespace.Some? && namespace.value in mappers.value)
      ensures r.Success? && r.value.Some? ==> r.value.value == mappers.value[namespace.value]
    {
      match mappers
      case None => Failure(NullPointer)
      case Some(ms) =>
        if namespace.Some? && namespace.value in ms then Success(Some(ms[namespace.value])) else Success(None)
    }

    /** `getNamespaceByQueryId`, and equally `getNamespaceByResultMapId`,
        which consults the same query-id index. */
    function GetNamespaceByQueryId(queryId: string): (r: Option<string>)
      reads this
      ensures r.Some? <==> queryId in queriesWithNamespace
      ensures r.Some? ==> r.value == queriesWithNamespace[queryId]
    {
      if queryId in queriesWithNamespace then Some(queriesWithNamespace[queryId]) else None
    }

    /** `getQueryById`: through the index to the mapper, then to its
        statement. An id that is not indexed, or whose namespace has no
        mapper, dereferences `null`. */
    function GetQueryById(queryId: string): (r: Result<Option<Query>, ConfigError>)
      reads this
      ensures r.Failure? <==> mappers.None? || queryId !in queriesWithNamespace || queriesWithNamespace[queryId] !in mappers.value
      ensures r.Success? ==> r.value == QueryOf(mappers.value[queriesWithNamespace[queryId]], queryId)
    {
      match GetMapperByNamespace(GetNamespaceByQueryId(queryId))
      case Failure(e) => Failure(e)
      case Success(m) =>
        if m.None? then Failure(NullPointer) else Success(QueryOf(m.value, queryId))
    }

    /** `getResultMapById`: the namespace comes from the query-id index, so
        a result map is found only under an id that some query also uses. */
    function GetResultMapById(resultMapId: string): (r: Result<Option<ResultMap>, ConfigError>)
      reads this
      ensures r.Failure? <==> mappers.None? || resultMapId !in queriesWithNamespace || queriesWithNamespace[resultMapId] !in mappers.value
      ensures r.Success? ==> r.value == ResultMapOf(mappers.value[queriesWithNamespace[resultMapId]], resultMapId)
    {
      match GetMapperByNamespace(GetNamespaceByQueryId(resultMapId))
      case Failure(e) => Failure(e)
      case Success(m) =>
        if m.None? then Failure(NullPointer) else Success(ResultMapOf(m.value, resultMapId))
    }

    /** `setQueriesWithNamespace`: for each mapper, in the map's iteration
        order (`order`), every query id is put into the index under the
        mapper's namespace. Unset mappers throw before anything changes. */
    method SetQueriesWithNamespace() returns (out: Outcome<ConfigError>, ghost order: seq<string>)
      modifies this
      ensures mappers == old(mappers)
      ensures old(mappers).None? ==> out == Fail(NullPointer) && queriesWithNamespace == old(queriesWithNamespace)
      ensures old(mappers).Some? ==>
                out == Pass &&
                Collections.NoDuplicates(order) &&
                (forall i :: 0 <= i < |order| ==> order[i] in mappers.value) &&
                (forall ns :: ns in mappers.value ==> ns in order) &&
                queriesWithNamespace == IndexFrom(old(queriesWithNamespace), mappers.value, order)
    {
      order := [];
      if mappers.None? {
        return Fail(NullPointer), order;
      }
      var ms := mappers.value;
      var todo := ms.Keys;
      while todo != {}
        invariant mappers == Some(ms)
        invariant todo <= ms.Keys
        invariant Collections.NoDuplicates(order)
        invariant forall i :: 0 <= i < |order| ==> order[i] in ms && order[i] !in todo
        invariant forall ns :: ns in ms ==> ns in todo || ns in order
        invariant queriesWithNamespace == IndexFrom(old(queriesWithNamespace), ms, order)
        decreases todo
      {
        var ns :| ns in todo;
        IndexFromSnoc(old(queriesWithNamespace), ms, order, ns);
        IndexMapper(ns, ms[ns].queries.Keys);
        order := order + [ns];
        todo := todo - {ns};
      }
      out := Pass;
    }

    /** The inner loop: every id of one mapper goes under its namespace. */
    method IndexMapper(ns: string, ids: set<string>)
      modifies this
      ensures mappers == old(mappers)
      ensures queriesWithNamespace == old(queriesWithNamespace) + map id | id in ids :: ns
    {
      var todo := ids;
      while todo != {}
        invariant mappers == old(mappers)
        invariant todo <= ids
        invariant queriesWithNamespace == old(queriesWithNamespace) + map id | id in ids - todo :: ns
        decreases todo
      {
        var id :| id in todo;
        queriesWithNamespace := queriesWithNamespace[id := ns];
        todo := todo - {id};
      }
    }

    /** Once the index has been built from every mapper, each declared
        query id resolves to that query in a mapper that declares it, and
        an id declared once resolves to its only mapper's query. */
    lemma QueryFoundAfterIndexing(base: map<string, string>, order: seq<string>, id: string)
      requires mappers.Some?
      requires forall i :: 0 <= i < |order| ==> order[i] in mappers.value
      requires forall ns :: ns in mappers.value ==> ns in order
      requires queriesWithNamespace == IndexFrom(base, mappers.value, order)
      requires DeclaringNamespaces(mappers.value, id) != {}
      ensures GetQueryById(id).Success? && GetQueryById(id).value.Some?
      ensures exists ns :: ns in DeclaringNamespaces(mappers.value, id) && GetQueryById(id).value.value == mappers.value[ns].queries[id]
      ensures forall ns :: DeclaringNamespaces(mappers.value, id) == {ns} ==> GetQueryById(id).value.value == mappers.value[ns].queries[id]
    {
      IndexResolves(base, mappers.value, order, id);
    }
  }
}
