/** Building the OpenAPI document of a route table. */
module OpenApiDocument {
  import opened Prelude
  import opened JsonTrees
  import opened Hoisting
  import opened RefChecker
  import RoutePaths
  import opened Numerals

  datatype Verb = GET | POST | PATCH | PUT | DELETE {
    function Name(): string {
      match this
      case GET => "GET"
      case POST => "POST"
      case PATCH => "PATCH"
      case PUT => "PUT"
      case DELETE => "DELETE"
    }

    /** `method.toLowerCase()`. */
    function Lower(): (r: string)
      ensures |r| == |Name()| && forall i :: 0 <= i < |r| ==> r[i] as int == Name()[i] as int + 32
    {
      match this
      case GET => "get"
      case POST => "post"
      case PATCH => "patch"
      case PUT => "put"
      case DELETE => "delete"
    }
  }

  /** A route with the JSON Schema fragments its Zod schemas render to; "" for no `produces`. */
  datatype Route = Route(
    id: string,
    verb: Verb,
    path: string,
    params: Option<seq<Field>>,
    query: Option<seq<Field>>,
    body: Option<seq<Field>>,
    consumes: seq<string>,
    response: seq<Field>,
    produces: string,
    status: nat,
    errors: seq<nat>)

  datatype Location = InPath | InQuery {
    function Name(): string { if InPath? then "path" else "query" }
  }

  datatype Job = Job(prefix: string, fragment: seq<Field>)

  datatype Document = Document(paths: seq<Field>, schemas: seq<Field>)

  const ERROR := "ErrorResponse"
  const PROPERTIES := "properties"
  const DESCRIPTION := "description"
  const SCHEMA := "schema"
  const JSON_MEDIA := "application/json"
  const STRING_SCHEMA: seq<Field> := [Field("type", Text("string"))]

  // --- Parameters ---

  function Properties(fragment: seq<Field>): seq<Field> {
    match Get(fragment, PROPERTIES)
    case Some(Obj(properties)) => properties
    case _ => []
  }

  function DeclaredRequired(fragment: seq<Field>): set<string> {
    match Get(fragment, "required")
    case Some(Arr(items)) => set i | i in items && i.Text? :: i.text
    case _ => {}
  }

  /** A JavaScript set, in order of insertion. */
  function Union(names: seq<string>, more: seq<string>): (r: seq<string>)
    requires Distinct(names)
    ensures Distinct(r)
    ensures forall n :: n in r <==> n in names || n in more
    decreases |more|
  {
    if more == [] then names
    else
      assert forall n :: n in more <==> n == more[0] || n in more[1..];
      Union(if more[0] in names then names else names + [more[0]], more[1..])
  }

  function KeyList(fields: seq<Field>): seq<string> {
    seq(|fields|, i requires 0 <= i < |fields| => fields[i].key)
  }

  predicate Truthy(value: Json) {
    match value
    case Null => false
    case Bool(b) => b
    case Number(n) => n != 0
    case Text(t) => t != ""
    case _ => true
  }

  /** `properties[name] ?? { type: 'string' }`; a boolean schema spreads to no field. */
  function PropertySchema(properties: seq<Field>, name: string): seq<Field> {
    match Get(properties, name)
    case None => STRING_SCHEMA
    case Some(Null) => STRING_SCHEMA
    case Some(Obj(fields)) => fields
    case Some(_) => []
  }

  function Parameter(name: string, schema: seq<Field>, location: Location, required: bool): Json {
    var fields := [
      Field("name", Text(name)),
      Field("in", Text(location.Name())),
      Field("required", Bool(location.InPath? || required)),
      Field(SCHEMA, Obj(Without(schema, DESCRIPTION)))];
    match Get(schema, DESCRIPTION)
    case Some(d) => Obj(if Truthy(d) then fields + [Field(DESCRIPTION, d)] else fields)
    case None => Obj(fields)
  }

  function ParameterNames(fragment: Option<seq<Field>>, required: seq<string>): seq<string> {
    match fragment
    case None => required
    case Some(f) => Union(Union([], KeyList(Properties(f))), required)
  }

  /** `fragment` is the hoisted one. */
  function Parameters(fragment: Option<seq<Field>>, location: Location, required: seq<string>): seq<Json> {
    var names := ParameterNames(fragment, required);
    match fragment
    case None => seq(|names|, i requires 0 <= i < |names| => Parameter(names[i], STRING_SCHEMA, location, true))
    case Some(f) =>
      seq(|names|, i requires 0 <= i < |names| =>
        Parameter(names[i], PropertySchema(Properties(f), names[i]), location,
                  names[i] in DeclaredRequired(f) || names[i] in required))
  }

  // --- Responses and bodies ---

  function Content(media: string, schema: seq<Field>): seq<Field> { [Field(media, Obj([Field(SCHEMA, Obj(schema))]))] }

  function WithContent(content: seq<Field>): Json { Obj([Field("content", Obj(content))]) }

  const ERROR_CONTENT := WithContent(Content(JSON_MEDIA, [Field(REF, Text(SHARED + ERROR))]))

  function SuccessContent(route: Route, success: seq<Field>): seq<Field> {
    if route.produces != "" then Content(route.produces, STRING_SCHEMA) else Content(JSON_MEDIA, success)
  }

  function WithErrors(responses: seq<Field>, errors: seq<nat>): seq<Field>
    decreases |errors|
  {
    if errors == [] then responses
    else if Decimal(errors[0]) in Keys(responses) then WithErrors(responses, errors[1..])
    else WithErrors(Put(responses, Decimal(errors[0]), ERROR_CONTENT), errors[1..])
  }

  function Responses(route: Route, success: seq<Field>): seq<Field> {
    WithErrors([Field(Decimal(route.status), WithContent(SuccessContent(route, success)))], route.errors)
  }

  function RawBody(types: seq<string>): seq<Field> {
    if types == [] then []
    else
      var last := types[|types| - 1];
      Put(RawBody(types[..|types| - 1]), last,
          Obj([Field(SCHEMA, Obj(STRING_SCHEMA + [Field("contentMediaType", Text(last))]))]))
  }

  function BodyOf(route: Route): seq<Field> {
    match route.body
    case Some(body) => [Field("requestBody", WithContent(Content(JSON_MEDIA, HoistedRest(body, route.id + ".body"))))]
    case None =>
      if |route.consumes| > 0 then [Field("requestBody", WithContent(RawBody(route.consumes)))] else []
  }

  function HoistedPart(part: Option<seq<Field>>, prefix: string): Option<seq<Field>> {
    match part
    case None => None
    case Some(fragment) => Some(HoistedRest(fragment, prefix))
  }

  function AllParameters(route: Route): seq<Json> {
    Parameters(HoistedPart(route.params, route.id + ".path"), InPath,
        RoutePaths.ParamNames(RoutePaths.SegmentsOf(route.path)))
    + Parameters(HoistedPart(route.query, route.id + ".query"), InQuery, [])
  }

  /** What `buildOperation` returns, less its prose and its security requirements. */
  function OperationOf(route: Route): Json {
    var parameters := AllParameters(route);
    Obj([Field("operationId", Text(route.id)),
         Field("responses", Obj(Responses(route, HoistedRest(route.response, route.id + ".response"))))]
        + (if |parameters| > 0 then [Field("parameters", Arr(parameters))] else [])
        + BodyOf(route))
  }

  // --- What is hoisted, in order ---

  function JobOf(part: Option<seq<Field>>, prefix: string): seq<Job> {
    match part
    case None => []
    case Some(fragment) => [Job(prefix, fragment)]
  }

  function JobsOf(route: Route): seq<Job> {
    JobOf(route.params, route.id + ".path")
    + JobOf(route.query, route.id + ".query")
    + [Job(route.id + ".response", route.response)]
    + JobOf(route.body, route.id + ".body")
  }

  function RunJobs(bag: seq<Field>, jobs: seq<Job>): seq<Field> {
    if jobs == [] then bag
    else
      var last := jobs[|jobs| - 1];
      HoistedBag(RunJobs(bag, jobs[..|jobs| - 1]), last.fragment, last.prefix)
  }

  function ErrorBag(error: seq<Field>): seq<Field> {
    Put(HoistedBag([], error, ERROR), ERROR, Obj(HoistedRest(error, ERROR)))
  }

  function Schemas(error: seq<Field>, routes: seq<Route>): seq<Field> {
    if routes == [] then ErrorBag(error)
    else RunJobs(Schemas(error, routes[..|routes| - 1]), JobsOf(routes[|routes| - 1]))
  }

  // --- Paths ---

  function Template(route: Route): string { RoutePaths.ToOpenApiPath(route.path) }

  function ItemAt(paths: seq<Field>, template: string): seq<Field> {
    match Get(paths, template)
    case Some(Obj(item)) => item
    case _ => []
  }

  function AddRoute(paths: seq<Field>, route: Route): Result<seq<Field>, string> {
    var item := ItemAt(paths, Template(route));
    if route.verb.Lower() in Keys(item) then Err(route.id)
    else Ok(Put(paths, Template(route), Obj(Put(item, route.verb.Lower(), OperationOf(route)))))
  }

  /** The paths of a route table, or the id of the first route whose operation is already there. */
  function AllPaths(routes: seq<Route>): Result<seq<Field>, string> {
    if routes == [] then Ok([])
    else
      match AllPaths(routes[..|routes| - 1])
      case Err(id) => Err(id)
      case Ok(paths) => AddRoute(paths, routes[|routes| - 1])
  }

  function DocumentOf(error: seq<Field>, routes: seq<Route>): Result<Document, string> {
    match AllPaths(routes)
    case Err(id) => Err(id)
    case Ok(paths) => Ok(Document(paths, Schemas(error, routes)))
  }

  // --- The builder ---

  method BuildParameters(
      part: Option<seq<Field>>, location: Location, routeId: string, bag: ComponentBag, required: seq<string>)
      returns (parameters: seq<Json>)
    modifies bag
    ensures bag.schemas == RunJobs(old(bag.schemas), JobOf(part, routeId + "." + location.Name()))
    ensures parameters == Parameters(HoistedPart(part, routeId + "." + location.Name()), location, required)
  {
    hide HoistedBag, HoistedRest, Parameters;
    match part
    case None =>
      parameters := Parameters(None, location, required);
    case Some(fragment) =>
      OneJob(bag.schemas, Job(routeId + "." + location.Name(), fragment));
      var hoisted := bag.HoistDefinitions(fragment, routeId + "." + location.Name());
      parameters := Parameters(Some(hoisted), location, required);
  }

  method BuildResponses(route: Route, bag: ComponentBag) returns (responses: seq<Field>)
    modifies bag
    ensures bag.schemas == RunJobs(old(bag.schemas), [Job(route.id + ".response", route.response)])
    ensures responses == Responses(route, HoistedRest(route.response, route.id + ".response"))
  {
    hide HoistedBag, HoistedRest, Put, Decimal;
    OneJob(bag.schemas, Job(route.id + ".response", route.response));
    var success := bag.HoistDefinitions(route.response, route.id + ".response");
    responses := [Field(Decimal(route.status), WithContent(SuccessContent(route, success)))];
    for i := 0 to |route.errors|
      invariant WithErrors(responses, route.errors[i..]) == Responses(route, success)
      invariant bag.schemas == RunJobs(old(bag.schemas), [Job(route.id + ".response", route.response)])
    {
      assert route.errors[i..][1..] == route.errors[i + 1..];
      if Decimal(route.errors[i]) in Keys(responses) {
        continue;
      }
      responses := Put(responses, Decimal(route.errors[i]), ERROR_CONTENT);
    }
  }

  method BuildOperation(route: Route, bag: ComponentBag) returns (operation: Json)
    modifies bag
    ensures bag.schemas == RunJobs(old(bag.schemas), JobsOf(route))
    ensures operation == OperationOf(route)
  {
    hide HoistedBag, HoistedRest, Parameters, Responses, RunJobs, RoutePaths.SegmentsOf, RoutePaths.ParamNames;
    ghost var start := bag.schemas;
    var names := RoutePaths.PathParamNames(route.path);
    var inPath := BuildParameters(route.params, InPath, route.id, bag, names);
    assert route.id + "." + InPath.Name() == route.id + ".path";
    var inQuery := BuildParameters(route.query, InQuery, route.id, bag, []);
    assert route.id + "." + InQuery.Name() == route.id + ".query";
    var responses := BuildResponses(route, bag);
    var parameters := inPath + inQuery;
    operation := Obj([Field("operationId", Text(route.id)), Field("responses", Obj(responses))]
                     + if |parameters| > 0 then [Field("parameters", Arr(parameters))] else []);
    match route.body {
      case Some(body) =>
        OneJob(bag.schemas, Job(route.id + ".body", body));
        var schema := bag.HoistDefinitions(body, route.id + ".body");
        operation := Obj(operation.fields + [Field("requestBody", WithContent(Content(JSON_MEDIA, schema)))]);
      case None =>
        NoJobs(bag.schemas);
        if |route.consumes| > 0 {
          operation := Obj(operation.fields + [Field("requestBody", WithContent(RawBody(route.consumes)))]);
        }
    }
    RunMore(start, JobOf(route.params, route.id + ".path"), JobOf(route.query, route.id + ".query"));
    RunMore(start, JobOf(route.params, route.id + ".path") + JobOf(route.query, route.id + ".query"),
            [Job(route.id + ".response", route.response)]);
    RunMore(start, JobOf(route.params, route.id + ".path") + JobOf(route.query, route.id + ".query")
                   + [Job(route.id + ".response", route.response)], JobOf(route.body, route.id + ".body"));
  }

  method BuildOpenApiDocument(error: seq<Field>, routes: seq<Route>) returns (r: Result<Document, string>)
    ensures r == DocumentOf(error, routes)
  {
    hide HoistedBag, HoistedRest, OperationOf, RunJobs, Put, JobsOf, Template;
    var bag := new ComponentBag();
    var rendered := bag.HoistDefinitions(error, ERROR);
    bag.schemas := Put(bag.schemas, ERROR, Obj(rendered));
    var paths: seq<Field> := [];
    for i := 0 to |routes|
      invariant fresh(bag) && bag.schemas == Schemas(error, routes[..i])
      invariant AllPaths(routes[..i]) == Ok(paths)
    {
      assert routes[..i + 1][..i] == routes[..i];
      var route := routes[i];
      var item := ItemAt(paths, Template(route));
      if route.verb.Lower() in Keys(item) {
        ErrStays(routes, i + 1);
        return Err(route.id);
      }
      var operation := BuildOperation(route, bag);
      paths := Put(paths, Template(route), Obj(Put(item, route.verb.Lower(), operation)));
    }
    assert routes[..|routes|] == routes;
    r := Ok(Document(paths, bag.schemas));
  }

  method CheckDanglingRefs(document: Document) returns (issues: seq<RefIssue>)
    ensures issues == DanglingIssues(document)
  {
    hide RefIssues;
    var walk := new RefWalk(Keys(document.schemas));
    walk.Walk(Obj(document.paths));
    walk.Walk(Obj(document.schemas));
    issues := walk.issues;
  }

  function DanglingIssues(document: Document): seq<RefIssue> {
    RefIssues(Obj(document.paths), Keys(document.schemas)) + RefIssues(Obj(document.schemas), Keys(document.schemas))
  }

  lemma OneJob(bag: seq<Field>, job: Job)
    ensures RunJobs(bag, [job]) == HoistedBag(bag, job.fragment, job.prefix)
  {
    assert [job][..0] == [];
  }

  lemma NoJobs(bag: seq<Field>)
    ensures RunJobs(bag, []) == bag
  {
  }

  lemma {:induction false} RunMore(bag: seq<Field>, first: seq<Job>, more: seq<Job>)
    ensures RunJobs(bag, first + more) == RunJobs(RunJobs(bag, first), more)
  {
    if more == [] {
      assert first + more == first;
    } else {
      var n := |more| - 1;
      assert (first + more)[..|first + more| - 1] == first + more[..n];
      RunMore(bag, first, more[..n]);
    }
  }

  lemma {:induction false} ErrStays(routes: seq<Route>, n: nat)
    requires n <= |routes| && AllPaths(routes[..n]).Err?
    ensures AllPaths(routes) == AllPaths(routes[..n])
    decreases |routes| - n
  {
    if n == |routes| {
      assert routes[..n] == routes;
    } else {
      assert routes[..n + 1][..n] == routes[..n];
      ErrStays(routes, n + 1);
    }
  }
}
