/**
 * The end of the pipeline: the fixed health route and HealthResponse schema,
 * the component maps re-emitted with their keys in ascending order, and the
 * whole transformation from the converter's per-resource link lists to the
 * assembled document.
 */
module Assembly {
  import opened Wrappers
  import opened Json
  import opened Strings
  import opened PathInfos
  import opened Links
  import opened Routes

  /** Keys in strictly ascending order. */
  ghost predicate StrictlySorted(keys: seq<string>) {
    forall i, j :: 0 <= i < j < |keys| ==> Less(keys[i], keys[j])
  }

  /** `entries` is `m` with its keys in strictly ascending order. */
  ghost predicate IsSortedEntriesOf<V>(entries: seq<(string, V)>, m: map<string, V>) {
    && (forall i, j :: 0 <= i < j < |entries| ==> Less(entries[i].0, entries[j].0))
    && (forall i :: 0 <= i < |entries| ==> entries[i].0 in m && entries[i].1 == m[entries[i].0])
    && (forall k :: k in m ==> exists i :: 0 <= i < |entries| && entries[i].0 == k)
  }

  /** Inserts a new key at its place in an ascending sequence of keys. */
  method InsertSorted(sorted: seq<string>, k: string) returns (r: seq<string>)
    requires StrictlySorted(sorted) && k !in sorted
    ensures StrictlySorted(r)
    ensures forall x :: x in r <==> x in sorted || x == k
    ensures |r| == |sorted| + 1
  {
    var p := 0;
    while p < |sorted| && Less(sorted[p], k)
      invariant 0 <= p <= |sorted|
      invariant forall i :: 0 <= i < p ==> Less(sorted[i], k)
    {
      p := p + 1;
    }
    AfterInsertionPoint(sorted, k, p);
    r := sorted[..p] + [k] + sorted[p..];
    InsertionSorted(sorted, k, p);
  }

  /** Every key from the insertion point on comes after the inserted key. */
  lemma AfterInsertionPoint(sorted: seq<string>, k: string, p: int)
    requires StrictlySorted(sorted) && k !in sorted
    requires 0 <= p <= |sorted| && (p < |sorted| ==> !Less(sorted[p], k))
    ensures forall i :: p <= i < |sorted| ==> Less(k, sorted[i])
  {
    forall i | p <= i < |sorted|
      ensures Less(k, sorted[i])
    {
      assert sorted[p] in sorted;
      LessTotal(sorted[p], k);
      if i > p {
        LessTransitive(k, sorted[p], sorted[i]);
      }
    }
  }

  /** Putting a key between the keys before it and the keys after it keeps them ascending. */
  lemma InsertionSorted(sorted: seq<string>, k: string, p: int)
    requires StrictlySorted(sorted) && 0 <= p <= |sorted|
    requires forall i :: 0 <= i < p ==> Less(sorted[i], k)
    requires forall i :: p <= i < |sorted| ==> Less(k, sorted[i])
    ensures StrictlySorted(sorted[..p] + [k] + sorted[p..])
    ensures forall x :: x in sorted[..p] + [k] + sorted[p..] <==> x in sorted || x == k
  {
    var r := sorted[..p] + [k] + sorted[p..];
    forall i, j | 0 <= i < j < |r|
      ensures Less(r[i], r[j])
    {
      var i', j' := if i < p then i else i - 1, if j < p then j else j - 1;
      if i == p {
        assert r[j] == sorted[j'];
      } else if j == p {
        assert r[i] == sorted[i'];
      } else {
        assert r[i] == sorted[i'] && r[j] == sorted[j'];
      }
    }
    assert sorted == sorted[..p] + sorted[p..];
  }

  /** `Object.keys(m).sort()`: the keys of a dictionary in ascending order. */
  method SortKeys(keys: set<string>) returns (sorted: seq<string>)
    ensures StrictlySorted(sorted)
    ensures forall k :: k in sorted <==> k in keys
    ensures |sorted| == |keys|
  {
    sorted := [];
    var remaining := keys;
    while remaining != {}
      invariant remaining <= keys
      invariant StrictlySorted(sorted)
      invariant forall k :: k in sorted <==> k in keys && k !in remaining
      invariant |sorted| + |remaining| == |keys|
      decreases remaining
    {
      var k :| k in remaining;
      sorted := InsertSorted(sorted, k);
      remaining := remaining - {k};
    }
  }

  /**
   * `Object.keys(m).sort().reduce(...)`: the dictionary re-emitted with every
   * key and its value, and nothing else, in ascending key order.
   */
  method SortedEntries<V>(m: map<string, V>) returns (entries: seq<(string, V)>)
    ensures IsSortedEntriesOf(entries, m)
    ensures |entries| == |m|
  {
    var keys := SortKeys(m.Keys);
    entries := [];
    var i := 0;
    while i < |keys|
      invariant 0 <= i <= |keys|
      invariant |entries| == i
      invariant forall j :: 0 <= j < i ==> entries[j] == (keys[j], m[keys[j]])
    {
      entries := entries + [(keys[i], m[keys[i]])];
      i := i + 1;
    }
    forall k | k in m
      ensures exists j :: 0 <= j < |entries| && entries[j].0 == k
    {
      var j :| 0 <= j < |keys| && keys[j] == k;
      assert entries[j].0 == k;
    }
  }

  /** The head of an ascending sequence comes before every other element. */
  lemma SortedHeadLeast(s: seq<string>, x: string)
    requires StrictlySorted(s) && x in s
    ensures x == s[0] || Less(s[0], x)
  {
  }

  /** In an ascending sequence, an element differs from every later one. */
  lemma SortedDistinct(s: seq<string>, i: int, j: int)
    requires StrictlySorted(s) && 0 <= i < j < |s|
    ensures s[i] != s[j]
  {
    LessIrreflexive(s[i]);
  }

  /**
   * Two ascending key sequences with the same keys are the same sequence, so
   * the emitted order does not depend on the order in which keys were added.
   */
  lemma {:induction false} SortedKeysUnique(a: seq<string>, b: seq<string>)
    requires StrictlySorted(a) && StrictlySorted(b)
    requires forall x :: x in a <==> x in b
    ensures a == b
  {
    if a != [] && b != [] {
      SortedHeadLeast(a, b[0]);
      SortedHeadLeast(b, a[0]);
      if Less(a[0], b[0]) {
        LessAsymmetric(a[0], b[0]);
      }
      assert a[0] == b[0];
      assert a == [a[0]] + a[1..] && b == [b[0]] + b[1..];
      forall x
        ensures x in a[1..] <==> x in b[1..]
      {
        if x in a[1..] {
          var i :| 0 <= i < |a| - 1 && a[1..][i] == x;
          SortedDistinct(a, 0, i + 1);
          assert a[i + 1] == x && x in a && x in b;
          var j :| 0 <= j < |b| && b[j] == x;
          assert j != 0 && b[1..][j - 1] == x;
        }
        if x in b[1..] {
          var i :| 0 <= i < |b| - 1 && b[1..][i] == x;
          SortedDistinct(b, 0, i + 1);
          assert b[i + 1] == x && x in b && x in a;
          var j :| 0 <= j < |a| && a[j] == x;
          assert j != 0 && a[1..][j - 1] == x;
        }
      }
      SortedKeysUnique(a[1..], b[1..]);
    } else if a == [] {
      NoElementsEmpty(b);
    } else {
      NoElementsEmpty(a);
    }
  }

  /** A sequence without elements is empty. */
  lemma NoElementsEmpty(s: seq<string>)
    ensures (forall x :: x !in s) ==> s == []
  {
    if s != [] {
      assert s[0] in s;
    }
  }

  /** The keys of a sequence of entries, in order. */
  function KeysOf<V>(entries: seq<(string, V)>): (r: seq<string>)
    ensures |r| == |entries| && forall i :: 0 <= i < |entries| ==> r[i] == entries[i].0
  {
    if entries == [] then [] else [entries[0].0] + KeysOf(entries[1..])
  }

  /** The keys of sorted entries of `m` are ascending and are exactly the keys of `m`. */
  lemma SortedEntriesKeys<V>(e: seq<(string, V)>, m: map<string, V>)
    requires IsSortedEntriesOf(e, m)
    ensures StrictlySorted(KeysOf(e))
    ensures forall x :: x in KeysOf(e) <==> x in m
  {
    var k := KeysOf(e);
    forall x | x in m
      ensures x in k
    {
      var j :| 0 <= j < |e| && e[j].0 == x;
      assert k[j] == x;
    }
  }

  /** The emitted component maps are determined by their contents alone. */
  lemma SortedEntriesUnique<V>(e1: seq<(string, V)>, e2: seq<(string, V)>, m: map<string, V>)
    requires IsSortedEntriesOf(e1, m) && IsSortedEntriesOf(e2, m)
    ensures e1 == e2
  {
    SortedEntriesKeys(e1, m);
    SortedEntriesKeys(e2, m);
    SortedKeysUnique(KeysOf(e1), KeysOf(e2));
    EntriesWithSameKeys(e1, e2, m);
  }

  /** Entries of one map with the same keys in the same order are equal. */
  lemma EntriesWithSameKeys<V>(e1: seq<(string, V)>, e2: seq<(string, V)>, m: map<string, V>)
    requires KeysOf(e1) == KeysOf(e2)
    requires forall i :: 0 <= i < |e1| ==> e1[i].0 in m && e1[i].1 == m[e1[i].0]
    requires forall i :: 0 <= i < |e2| ==> e2[i].0 in m && e2[i].1 == m[e2[i].0]
    ensures e1 == e2
  {
    assert |e1| == |KeysOf(e1)| == |KeysOf(e2)| == |e2|;
    forall i | 0 <= i < |e1|
      ensures e1[i] == e2[i]
    {
      assert e1[i].0 == KeysOf(e1)[i] == KeysOf(e2)[i] == e2[i].0;
    }
  }

  /** The fixed `HealthResponse` component. */
  const HealthResponseSchema: Json := JObj(map[
    "type" := JStr("object"),
    "description" := JStr("Health object"),
    "additionalProperties" := JBool(false),
    "required" := JArr([JStr("status"), JStr("version")]),
    "properties" := JObj(map[
      "status" := JObj(map["type" := JStr("string"), "description" := JStr("Healthy"), "example" := JStr("OK")]),
      "version" := JObj(map[
        "type" := JStr("object"),
        "description" := JStr("The version object"),
        "example" := JObj(map["major" := JNum(2), "minor" := JNum(0), "revision" := JNum(0)]),
        "additionalProperties" := JBool(false),
        "required" := JArr([JStr("major"), JStr("minor"), JStr("revision")]),
        "properties" := JObj(map[
          "major" := JObj(map["type" := JStr("integer"), "minimum" := JNum(0)]),
          "minor" := JObj(map["type" := JStr("integer"), "minimum" := JNum(0)]),
          "revision" := JObj(map["type" := JStr("integer"), "minimum" := JNum(0)])])])])])

  /** The fixed `GET /` health operation. */
  const HealthOperation: Operation := Operation(
    "health", Some("Returns the API health status."), None,
    Response(OkDescription, Some(SchemaRef("HealthResponse"))), None, None, None)

  /** The tables before the first link: only the HealthResponse schema. */
  const InitialTables: Tables := Tables(map[], map["HealthResponse" := HealthResponseSchema], map[])

  /** `{ "/": { get: health }, ...groupedPaths }`: a resource path `/` replaces the health route. */
  function WithHealth(grouping: map<string, map<string, Operation>>): (r: map<string, map<string, Operation>>)
    ensures r.Keys == grouping.Keys + {"/"}
    ensures forall p :: p in grouping ==> r[p] == grouping[p]
    ensures "/" !in grouping ==> r["/"] == map["get" := HealthOperation]
  {
    map["/" := map["get" := HealthOperation]] + grouping
  }

  /** The assembled OpenAPI document, without its constant blocks. */
  datatype Document = Document(
    paths: map<string, map<string, Operation>>,
    schemas: seq<(string, Json)>,
    requestBodies: seq<(string, RequestBody)>)

  /** The tables the generator ends with, or why it aborts. */
  function PipelineTables(resources: seq<Option<seq<Link>>>, table: Table): Result<Tables, Error> {
    match Flatten(resources)
    case Err(e) => Err(e)
    case Ok(links) =>
      match ExpandAll(links)
      case Err(e) => Err(e)
      case Ok(expanded) =>
        match BuildRoutesSpec(Builder(table), expanded)
        case Err(e) => Err(e)
        case Ok(routes) => Ok(ApplyAll(InitialTables, routes))
  }

  /** Writes never remove a schema name. */
  lemma {:induction false} SchemaNamesKept(t: Tables, routes: seq<Route>)
    ensures t.schemas.Keys <= ApplyAll(t, routes).schemas.Keys
  {
    if routes != [] {
      SchemaNamesKept(t, routes[..|routes| - 1]);
    }
  }

  /** The HealthResponse component is always emitted. */
  lemma HealthResponseEmitted(resources: seq<Option<seq<Link>>>, table: Table)
    requires PipelineTables(resources, table).Ok?
    ensures "HealthResponse" in PipelineTables(resources, table).value.schemas
  {
    var links := Flatten(resources).value;
    var routes := BuildRoutesSpec(Builder(table), ExpandAll(links).value).value;
    SchemaNamesKept(InitialTables, routes);
  }

  /**
   * `generate()` from the converter's output onward: flatten, expand, build
   * the routes, then assemble the document with sorted component maps.
   */
  method Generate(resources: seq<Option<seq<Link>>>, table: Table) returns (r: Result<Document, Error>)
    ensures r.Ok? <==> PipelineTables(resources, table).Ok?
    ensures r.Err? ==> r.error == PipelineTables(resources, table).error
    ensures r.Ok? ==>
      var t := PipelineTables(resources, table).value;
      && r.value.paths == WithHealth(t.grouping)
      && IsSortedEntriesOf(r.value.schemas, t.schemas)
      && IsSortedEntriesOf(r.value.requestBodies, t.requestBodies)
  {
    var paths := Flatten(resources);
    if paths.Err? {
      return Err(paths.error);
    }
    var expanded := Expand(paths.value);
    if expanded.Err? {
      return Err(expanded.error);
    }
    var grouped := BuildRoutes(table, expanded.value, InitialTables);
    if grouped.Err? {
      return Err(grouped.error);
    }
    var t := grouped.value;
    var schemas := SortedEntries(t.schemas);
    var requestBodies := SortedEntries(t.requestBodies);
    r := Ok(Document(WithHealth(t.grouping), schemas, requestBodies));
  }
}
