/**
 * The route builder: every expanded link becomes one OpenAPI operation stored
 * at `[pathKey][method]`, and may contribute a response schema component and a
 * request body component. Later writes to the same key overwrite earlier ones.
 */
module Routes {
  import opened Wrappers
  import opened Json
  import opened Strings
  import opened PathInfos
  import opened Links

  /** The `200` entry of an operation's responses; `schemaRef` is the `$ref` of its JSON content. */
  datatype Response = Response(description: string, schemaRef: Option<string>)

  /** `{ description, $ref }` pointing at a request body component. */
  datatype RequestBodyRef = RequestBodyRef(description: string, ref: string)

  /** `{ [scheme]: scopes }`. */
  datatype SecurityRequirement = SecurityRequirement(scheme: string, scopes: seq<string>)

  /** `{ name, in, required, schema: { type } }`. */
  datatype Parameter = Parameter(name: string, location: string, required: bool, schemaType: string)

  /** An OpenAPI Operation Object as the generator builds it; `None` is an absent key. */
  datatype Operation = Operation(
    operationId: string,
    summary: Option<string>,
    tags: Option<seq<string>>,
    response200: Response,
    requestBody: Option<RequestBodyRef>,
    security: Option<seq<SecurityRequirement>>,
    parameters: Option<seq<Parameter>>)

  /** A request body component: `{ content: { "application/json": { schema } } }`. */
  datatype RequestBody = RequestBody(schema: Json)

  /** Everything one link contributes to the output. */
  datatype Route = Route(
    pathKey: string,
    methodKey: string,
    operation: Operation,
    component: Option<(string, Json)>,
    requestBody: Option<(string, RequestBody)>)

  const OkDescription: string := "200 response"
  const BearerUsers: SecurityRequirement := SecurityRequirement("BearerAuth", ["users"])

  function SchemaRef(name: string): string { "#/components/schemas/" + name }
  function RequestBodyPath(name: string): string { "#/components/requestBodies/" + name }

  /** The route's path: the first identity placeholder of the href replaced by `{id}`. */
  function PathKey(href: string): string {
    ReplaceFirst(href, IdentityPlaceholder, "{id}")
  }

  /** `Truthy` for a string field. */
  predicate TruthyString(s: Option<string>) {
    s.Some? && s.value != ""
  }

  /** `targetSchema.type === "array"` for a truthy target schema. */
  predicate IsArraySchema(ts: Json)
    requires ts != JNull
  {
    Member(ts, "type") == Some(JStr("array"))
  }

  /**
   * The component stored for a truthy target schema: an array schema gets its
   * `items` replaced, by a `$ref` to the paired Get response when the link
   * names one, and otherwise by the items wrapped as an object schema; any
   * other schema is stored as it is.
   */
  function ResponseSchema(link: Link, info: PathInfo): (r: Json)
    requires Truthy(link.targetSchema)
    ensures !IsArraySchema(link.targetSchema.value) ==> r == link.targetSchema.value
    ensures IsArraySchema(link.targetSchema.value) ==>
      var ts := link.targetSchema.value;
      && ts.JObj? && r.JObj?
      && r.fields.Keys == ts.fields.Keys + {"items"}
      && (forall k :: k in ts.fields && k != "items" ==> r.fields[k] == ts.fields[k])
      && (TruthyString(link.getRouteTitle) ==>
            r.fields["items"] == Ref(SchemaRef(info.single + RemoveSpaces(link.getRouteTitle.value) + "Response")))
      && (!TruthyString(link.getRouteTitle) ==> r.fields["items"] == ObjectOf(Member(ts, "items")))
  {
    var ts := link.targetSchema.value;
    if IsArraySchema(ts) then
      var items :=
        if TruthyString(link.getRouteTitle) then
          Ref(SchemaRef(info.single + RemoveSpaces(link.getRouteTitle.value) + "Response"))
        else ObjectOf(Member(ts, "items"));
      JObj(ts.fields["items" := items])
    else ts
  }

  /** The required `id` path parameter, typed by the resource's `idType`, integer by default. */
  function IdParameter(info: PathInfo): Parameter {
    Parameter("id", "path", true, info.idType.GetOr("integer"))
  }

  /** The body of the route-building reduce for one link, before the tables are updated. */
  function BuildRoute(table: Table, link: Link): (r: Result<Route, Error>)
    ensures r.Err? <==> GetPathInfo(table, link.href).None?
    ensures r.Err? ==> r.error == UnknownResource(link.href)
    ensures r.Ok? ==>
      var info, op, titlePascal := GetPathInfo(table, link.href).value, r.value.operation, RemoveSpaces(link.title);
      && r.value.pathKey == ReplaceFirst(link.href, IdentityPlaceholder, "{id}")
      && r.value.methodKey == ToLower(link.httpMethod)
      && op.operationId == ToLower(link.httpMethod) + info.single + titlePascal
      && op.summary == link.description
      && op.tags == Some([info.plural])
      && op.response200.description == OkDescription
      // a response component and a reference to it exactly when there is a target schema
      && (r.value.component.Some? <==> Truthy(link.targetSchema))
      && (op.response200.schemaRef.Some? <==> Truthy(link.targetSchema))
      && (Truthy(link.targetSchema) ==>
            && r.value.component == Some((info.single + titlePascal + "Response", ResponseSchema(link, info)))
            && op.response200.schemaRef == Some(SchemaRef(info.single + titlePascal + "Response")))
      // a request body exactly for a non-GET link with a schema
      && (r.value.requestBody.Some? <==> Truthy(link.schema) && link.httpMethod != "GET")
      && (op.requestBody.Some? <==> Truthy(link.schema) && link.httpMethod != "GET")
      && (Truthy(link.schema) && link.httpMethod != "GET" ==>
            && r.value.requestBody == Some((info.single + titlePascal + "Request", RequestBody(link.schema.value)))
            && op.requestBody == Some(RequestBodyRef("Request body", RequestBodyPath(info.single + titlePascal + "Request"))))
      // BearerAuth exactly for private links, and then as the first (and only) requirement
      && (op.security.Some? <==> link.access == Some("private"))
      && (op.security.Some? ==> op.security.value == [BearerUsers])
      // the id parameter exactly when the path has `{id}`
      && (op.parameters.Some? <==> Includes(r.value.pathKey, "{id}"))
      && (op.parameters.Some? ==> op.parameters.value == [IdParameter(info)])
  {
    var pathName := PathKey(link.href);
    var titlePascal := RemoveSpaces(link.title);
    match GetPathInfo(table, link.href)
    case None => Err(UnknownResource(link.href))
    case Some(info) =>
      var routeSpec := Operation(
        ToLower(link.httpMethod) + info.single + titlePascal, link.description, Some([info.plural]),
        Response(OkDescription, None), None, None, None);
      var componentName := info.single + titlePascal + "Response";
      var withResponse :=
        if Truthy(link.targetSchema) then routeSpec.(response200 := Response(OkDescription, Some(SchemaRef(componentName))))
        else routeSpec;
      var component :=
        if Truthy(link.targetSchema) then Some((componentName, ResponseSchema(link, info))) else None;
      var requestBodyName := info.single + titlePascal + "Request";
      var hasBody := Truthy(link.schema) && link.httpMethod != "GET";
      var withBody :=
        if hasBody then withResponse.(requestBody := Some(RequestBodyRef("Request body", RequestBodyPath(requestBodyName))))
        else withResponse;
      var body := if hasBody then Some((requestBodyName, RequestBody(link.schema.value))) else None;
      var withSecurity :=
        if link.access == Some("private") then withBody.(security := Some([BearerUsers] + withBody.security.GetOr([])))
        else withBody;
      var withParameters :=
        if Includes(pathName, "{id}") then withSecurity.(parameters := Some([IdParameter(info)] + withSecurity.parameters.GetOr([])))
        else withSecurity;
      Ok(Route(pathName, ToLower(link.httpMethod), withParameters, component, body))
  }

  /**
   * Component names are prefixed by the resource's singular name: links of two
   * resources with different singular names and the same action title never
   * store their response components under the same name.
   */
  lemma ComponentNamesDiffer(table: Table, link1: Link, link2: Link)
    requires BuildRoute(table, link1).Ok? && BuildRoute(table, link2).Ok?
    requires Truthy(link1.targetSchema) && Truthy(link2.targetSchema)
    requires RemoveSpaces(link1.title) == RemoveSpaces(link2.title)
    requires GetPathInfo(table, link1.href).value.single != GetPathInfo(table, link2.href).value.single
    ensures BuildRoute(table, link1).value.component.Some? && BuildRoute(table, link2).value.component.Some?
    ensures BuildRoute(table, link1).value.component.value.0 != BuildRoute(table, link2).value.component.value.0
  {
    var single1, single2 := GetPathInfo(table, link1.href).value.single, GetPathInfo(table, link2.href).value.single;
    PrefixedNamesDiffer(single1, single2, RemoveSpaces(link1.title), "Response");
  }

  /** Two names with different prefixes followed by the same parts differ. */
  lemma PrefixedNamesDiffer(prefix1: string, prefix2: string, middle: string, suffix: string)
    requires prefix1 != prefix2
    ensures prefix1 + middle + suffix != prefix2 + middle + suffix
  {
    var x, y := prefix1 + middle + suffix, prefix2 + middle + suffix;
    assert x[..|prefix1|] == prefix1 && y[..|prefix2|] == prefix2;
  }

  /** The three tables the reduce accumulates. */
  datatype Tables = Tables(
    grouping: map<string, map<string, Operation>>,
    schemas: map<string, Json>,
    requestBodies: map<string, RequestBody>)

  /** Path/method `(p, m)` has an operation in `g`. */
  predicate HasOperation(g: map<string, map<string, Operation>>, p: string, m: string) {
    p in g && m in g[p]
  }

  /** Stores `op` at `g[p][m]`, creating `g[p]` when it is missing. */
  function Store(g: map<string, map<string, Operation>>, p: string, m: string, op: Operation): (r: map<string, map<string, Operation>>)
    ensures HasOperation(r, p, m) && r[p][m] == op
    ensures r.Keys == g.Keys + {p}
    ensures forall p', m' :: (p', m') != (p, m) ==>
              (HasOperation(r, p', m') <==> HasOperation(g, p', m'))
              && (HasOperation(g, p', m') ==> r[p'][m'] == g[p'][m'])
  {
    var methods := if p in g then g[p] else map[];
    g[p := methods[m := op]]
  }

  /** Writes one link's contributions into the tables. */
  function Apply(t: Tables, route: Route): Tables {
    var g := Store(t.grouping, route.pathKey, route.methodKey, route.operation);
    var s := if route.component.Some? then t.schemas[route.component.value.0 := route.component.value.1] else t.schemas;
    var b := if route.requestBody.Some? then t.requestBodies[route.requestBody.value.0 := route.requestBody.value.1] else t.requestBodies;
    Tables(g, s, b)
  }

  /** The reduce callback with the resource table fixed. */
  function Builder(table: Table): Link -> Result<Route, Error> {
    link => BuildRoute(table, link)
  }

  /** The routes of all links, in order; the first link that does not build aborts the run. */
  function BuildRoutesSpec(build: Link -> Result<Route, Error>, links: seq<Link>): (r: Result<seq<Route>, Error>)
    ensures r.Ok? ==> |r.value| == |links|
    ensures r.Ok? ==> forall i :: 0 <= i < |links| ==> build(links[i]) == Ok(r.value[i])
    ensures r.Ok? <==> forall i :: 0 <= i < |links| ==> build(links[i]).Ok?
  {
    if links == [] then Ok([])
    else
      var init := links[..|links| - 1];
      match BuildRoutesSpec(build, init)
      case Err(e) => Err(e)
      case Ok(rs) =>
        match build(links[|links| - 1])
        case Err(e) => Err(e)
        case Ok(route) =>
          assert forall i :: 0 <= i < |init| ==> init[i] == links[i];
          Ok(rs + [route])
  }

  /** All routes written into the tables in order. */
  function ApplyAll(t: Tables, routes: seq<Route>): Tables {
    if routes == [] then t
    else Apply(ApplyAll(t, routes[..|routes| - 1]), routes[|routes| - 1])
  }

  /**
   * `paths.reduce(...)` at the route builder: for each link, its operation is
   * stored at `grouping[pathKey][method]` and its components are written into
   * the schema and request body dictionaries, each write overwriting an
   * existing entry under the same key.
   */
  method BuildRoutes(table: Table, links: seq<Link>, init: Tables) returns (r: Result<Tables, Error>)
    ensures BuildRoutesSpec(Builder(table), links).Err? ==> r == Err(BuildRoutesSpec(Builder(table), links).error)
    ensures BuildRoutesSpec(Builder(table), links).Ok? ==> r == Ok(ApplyAll(init, BuildRoutesSpec(Builder(table), links).value))
  {
    var grouping, componentSchemas, requestBodies := init.grouping, init.schemas, init.requestBodies;
    ghost var routes: seq<Route> := [];
    var i := 0;
    while i < |links|
      invariant 0 <= i <= |links|
      invariant BuildRoutesSpec(Builder(table), links[..i]) == Ok(routes)
      invariant Tables(grouping, componentSchemas, requestBodies) == ApplyAll(init, routes)
    {
      var path := links[i];
      var built := Builder(table)(path);
      BuildRoutesStep(Builder(table), links, i);
      if built.Err? {
        BuildRoutesErrExtends(Builder(table), links, i + 1);
        return Err(built.error);
      }
      var route := built.value;
      ghost var before := Tables(grouping, componentSchemas, requestBodies);
      if route.component.Some? {
        componentSchemas := componentSchemas[route.component.value.0 := route.component.value.1];
      }
      if route.requestBody.Some? {
        requestBodies := requestBodies[route.requestBody.value.0 := route.requestBody.value.1];
      }
      var methods := if route.pathKey in grouping then grouping[route.pathKey] else map[];
      grouping := grouping[route.pathKey := methods[route.methodKey := route.operation]];
      assert Tables(grouping, componentSchemas, requestBodies) == Apply(before, route);
      assert (routes + [route])[..i] == routes;
      routes := routes + [route];
      i := i + 1;
    }
    assert links[..i] == links;
    r := Ok(Tables(grouping, componentSchemas, requestBodies));
  }

  /** One more step of the reduce: the next link's route is appended, or its error ends the run. */
  lemma BuildRoutesStep(build: Link -> Result<Route, Error>, links: seq<Link>, n: nat)
    requires n < |links| && BuildRoutesSpec(build, links[..n]).Ok?
    ensures BuildRoutesSpec(build, links[..n + 1]) ==
      match build(links[n])
      case Err(e) => Err(e)
      case Ok(route) => Ok(BuildRoutesSpec(build, links[..n]).value + [route])
  {
    assert links[..n + 1][..n] == links[..n];
  }

  /** Once a prefix of the links fails, the whole route build fails the same way. */
  lemma {:induction false} BuildRoutesErrExtends(build: Link -> Result<Route, Error>, links: seq<Link>, n: nat)
    requires n <= |links| && BuildRoutesSpec(build, links[..n]).Err?
    ensures BuildRoutesSpec(build, links) == BuildRoutesSpec(build, links[..n])
    decreases |links| - n
  {
    if n == |links| {
      assert links[..n] == links;
    } else {
      assert links[..n + 1][..n] == links[..n];
      BuildRoutesErrExtends(build, links, n + 1);
    }
  }

  /** Route `i` is the last one written at path `p` and method `m`. */
  ghost predicate LastWriteAt(routes: seq<Route>, i: int, p: string, m: string) {
    && 0 <= i < |routes|
    && routes[i].pathKey == p && routes[i].methodKey == m
    && forall j :: i < j < |routes| ==> !(routes[j].pathKey == p && routes[j].methodKey == m)
  }

  /**
   * Overwrite semantics of the route table: after all writes, `(p, m)` holds the
   * operation of the last route written there.
   */
  lemma {:induction false} GroupingLastWrite(t: Tables, routes: seq<Route>, i: int, p: string, m: string)
    requires LastWriteAt(routes, i, p, m)
    ensures HasOperation(ApplyAll(t, routes).grouping, p, m)
    ensures ApplyAll(t, routes).grouping[p][m] == routes[i].operation
  {
    var init := routes[..|routes| - 1];
    if i < |init| {
      assert LastWriteAt(init, i, p, m);
      GroupingLastWrite(t, init, i, p, m);
    }
  }

  /** A path/method pair no route writes keeps what it had at the start. */
  lemma {:induction false} GroupingUntouched(t: Tables, routes: seq<Route>, p: string, m: string)
    requires forall i :: 0 <= i < |routes| ==> !(routes[i].pathKey == p && routes[i].methodKey == m)
    ensures HasOperation(ApplyAll(t, routes).grouping, p, m) <==> HasOperation(t.grouping, p, m)
    ensures HasOperation(t.grouping, p, m) ==> ApplyAll(t, routes).grouping[p][m] == t.grouping[p][m]
  {
    if routes != [] {
      var init := routes[..|routes| - 1];
      assert forall i :: 0 <= i < |init| ==> init[i] == routes[i];
      GroupingUntouched(t, init, p, m);
    }
  }

  /** Component `name` is written last by route `i`. */
  ghost predicate LastComponentAt(routes: seq<Route>, i: int, name: string) {
    && 0 <= i < |routes|
    && routes[i].component.Some? && routes[i].component.value.0 == name
    && forall j :: i < j < |routes| ==> !(routes[j].component.Some? && routes[j].component.value.0 == name)
  }

  /** The schema table holds, under each name, the schema of the last route that named that component. */
  lemma {:induction false} SchemasLastWrite(t: Tables, routes: seq<Route>, i: int, name: string)
    requires LastComponentAt(routes, i, name)
    ensures name in ApplyAll(t, routes).schemas
    ensures ApplyAll(t, routes).schemas[name] == routes[i].component.value.1
  {
    var init := routes[..|routes| - 1];
    if i < |init| {
      assert LastComponentAt(init, i, name);
      SchemasLastWrite(t, init, i, name);
    }
  }

  /** A schema name no route writes keeps its initial entry, or stays absent. */
  lemma {:induction false} SchemasUntouched(t: Tables, routes: seq<Route>, name: string)
    requires forall i :: 0 <= i < |routes| ==> !(routes[i].component.Some? && routes[i].component.value.0 == name)
    ensures name in ApplyAll(t, routes).schemas <==> name in t.schemas
    ensures name in t.schemas ==> ApplyAll(t, routes).schemas[name] == t.schemas[name]
  {
    if routes != [] {
      var init := routes[..|routes| - 1];
      assert forall i :: 0 <= i < |init| ==> init[i] == routes[i];
      SchemasUntouched(t, init, name);
    }
  }

  /** Request body `name` is written last by route `i`. */
  ghost predicate LastRequestBodyAt(routes: seq<Route>, i: int, name: string) {
    && 0 <= i < |routes|
    && routes[i].requestBody.Some? && routes[i].requestBody.value.0 == name
    && forall j :: i < j < |routes| ==> !(routes[j].requestBody.Some? && routes[j].requestBody.value.0 == name)
  }

  /** The request body table holds, under each name, the last body written there. */
  lemma {:induction false} RequestBodiesLastWrite(t: Tables, routes: seq<Route>, i: int, name: string)
    requires LastRequestBodyAt(routes, i, name)
    ensures name in ApplyAll(t, routes).requestBodies
    ensures ApplyAll(t, routes).requestBodies[name] == routes[i].requestBody.value.1
  {
    var init := routes[..|routes| - 1];
    if i < |init| {
      assert LastRequestBodyAt(init, i, name);
      RequestBodiesLastWrite(t, init, i, name);
    }
  }

  /** A request body name no route writes keeps its initial entry, or stays absent. */
  lemma {:induction false} RequestBodiesUntouched(t: Tables, routes: seq<Route>, name: string)
    requires forall i :: 0 <= i < |routes| ==> !(routes[i].requestBody.Some? && routes[i].requestBody.value.0 == name)
    ensures name in ApplyAll(t, routes).requestBodies <==> name in t.requestBodies
    ensures name in t.requestBodies ==> ApplyAll(t, routes).requestBodies[name] == t.requestBodies[name]
  {
    if routes != [] {
      var init := routes[..|routes| - 1];
      assert forall i :: 0 <= i < |init| ==> init[i] == routes[i];
      RequestBodiesUntouched(t, init, name);
    }
  }
}
