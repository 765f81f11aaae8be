/** Generated documents are reference-closed, and every fragment keeps its meaning in them. */
module OpenApiReferences {
  import opened Prelude
  import opened JsonTrees
  import opened Hoisting
  import opened RefChecker
  import opened OpenApiDocument
  import RoutePaths
  import opened Numerals

  // --- Pointers inside assembled objects ---

  ghost predicate FieldGood(f: Field, good: string -> bool) {
    if IsRef(f) then good(f.value.text) else AllRefs(f.value, good)
  }

  ghost predicate AllGood(fields: seq<Field>, good: string -> bool) { forall f :: f in fields ==> FieldGood(f, good) }

  lemma ObjectGood(fields: seq<Field>, good: string -> bool)
    ensures AllRefs(Obj(fields), good) <==> AllGood(fields, good)
  {
    if AllRefs(Obj(fields), good) {
      forall f | f in fields ensures FieldGood(f, good) {
        var i :| 0 <= i < |fields| && fields[i] == f;
      }
    }
    if AllGood(fields, good) {
      forall i | 0 <= i < |fields| ensures FieldGood(fields[i], good) {}
    }
  }

  lemma OneField(key: string, value: Json, good: string -> bool)
    requires AllRefs(value, good) && (key == REF ==> !value.Text?)
    ensures AllRefs(Obj([Field(key, value)]), good)
  {
    ObjectGood([Field(key, value)], good);
  }

  lemma {:induction false} PutGood(fields: seq<Field>, key: string, value: Json, good: string -> bool)
    requires AllGood(fields, good) && FieldGood(Field(key, value), good)
    ensures AllGood(Put(fields, key, value), good)
  {
    if fields != [] {
      assert fields == [fields[0]] + fields[1..];
      if fields[0].key != key { PutGood(fields[1..], key, value, good); }
    }
  }

  lemma ContentGood(media: string, schema: seq<Field>, good: string -> bool)
    requires AllRefs(Obj(schema), good)
    ensures AllRefs(WithContent(Content(media, schema)), good)
  {
    hide AllRefs;
    OneField(SCHEMA, Obj(schema), good);
    OneField(media, Obj([Field(SCHEMA, Obj(schema))]), good);
    OneField("content", Obj(Content(media, schema)), good);
  }

  lemma StringSchemaGood(good: string -> bool)
    ensures AllRefs(Obj(STRING_SCHEMA), good)
  {
  }

  lemma {:induction false} ErrorsGood(responses: seq<Field>, errors: seq<nat>, good: string -> bool)
    requires AllGood(responses, good) && good(SHARED + ERROR)
    ensures AllGood(WithErrors(responses, errors), good)
    decreases |errors|
  {
    if errors != [] {
      if Decimal(errors[0]) in Keys(responses) {
        ErrorsGood(responses, errors[1..], good);
      } else {
        ContentGood(JSON_MEDIA, [Field(REF, Text(SHARED + ERROR))], good) by {
          ObjectGood([Field(REF, Text(SHARED + ERROR))], good);
        }
        PutGood(responses, Decimal(errors[0]), ERROR_CONTENT, good);
        ErrorsGood(Put(responses, Decimal(errors[0]), ERROR_CONTENT), errors[1..], good);
      }
    }
  }

  lemma ResponsesGood(route: Route, success: seq<Field>, good: string -> bool)
    requires AllRefs(Obj(success), good) && good(SHARED + ERROR)
    ensures AllRefs(Obj(Responses(route, success)), good)
  {
    hide AllRefs, Decimal;
    StringSchemaGood(good);
    if route.produces != "" {
      ContentGood(route.produces, STRING_SCHEMA, good);
    } else {
      ContentGood(JSON_MEDIA, success, good);
    }
    ErrorsGood([Field(Decimal(route.status), WithContent(SuccessContent(route, success)))], route.errors, good);
    ObjectGood(Responses(route, success), good);
  }

  lemma {:induction false} RawBodyGood(types: seq<string>, good: string -> bool)
    ensures AllGood(RawBody(types), good)
  {
    if types != [] {
      var last := types[|types| - 1];
      RawBodyGood(types[..|types| - 1], good);
      var schema := STRING_SCHEMA + [Field("contentMediaType", Text(last))];
      ObjectGood(schema, good);
      OneField(SCHEMA, Obj(schema), good);
      PutGood(RawBody(types[..|types| - 1]), last, Obj([Field(SCHEMA, Obj(schema))]), good);
    }
  }

  lemma PropertyGood(fragment: seq<Field>, name: string, good: string -> bool)
    requires AllRefs(Obj(fragment), good)
    ensures AllRefs(Obj(PropertySchema(Properties(fragment), name)), good)
  {
    ObjectGood(fragment, good);
    var properties := Properties(fragment);
    assert AllGood(properties, good) by {
      if Get(fragment, PROPERTIES).Some? && Get(fragment, PROPERTIES).value.Obj? {
        assert FieldGood(Field(PROPERTIES, Obj(properties)), good);
        ObjectGood(properties, good);
      }
    }
    if Get(properties, name).Some? {
      assert FieldGood(Field(name, Get(properties, name).value), good);
    }
    StringSchemaGood(good);
  }

  lemma ParameterGood(name: string, schema: seq<Field>, location: Location, required: bool, good: string -> bool)
    requires AllRefs(Obj(schema), good)
    ensures AllRefs(Parameter(name, schema, location, required), good)
  {
    ObjectGood(schema, good);
    ObjectGood(Without(schema, DESCRIPTION), good);
    var parameter := Parameter(name, schema, location, required);
    assert Get(schema, DESCRIPTION).Some? ==> FieldGood(Field(DESCRIPTION, Get(schema, DESCRIPTION).value), good);
    ObjectGood(parameter.fields, good);
  }

  lemma ParametersGood(fragment: Option<seq<Field>>, location: Location, required: seq<string>, good: string -> bool)
    requires fragment.Some? ==> AllRefs(Obj(fragment.value), good)
    ensures forall p :: p in Parameters(fragment, location, required) ==> AllRefs(p, good)
  {
    hide AllRefs, Properties, PropertySchema, Parameter, DeclaredRequired, ParameterNames;
    StringSchemaGood(good);
    var names := ParameterNames(fragment, required);
    forall i | 0 <= i < |names| ensures AllRefs(Parameters(fragment, location, required)[i], good) {
      match fragment
      case None => ParameterGood(names[i], STRING_SCHEMA, location, true, good);
      case Some(f) =>
        PropertyGood(f, names[i], good);
        ParameterGood(names[i], PropertySchema(Properties(f), names[i]), location,
                      names[i] in DeclaredRequired(f) || names[i] in required, good);
    }
  }

  lemma ItemsGood(items: seq<Json>, good: string -> bool)
    requires forall i :: i in items ==> AllRefs(i, good)
    ensures AllRefs(Arr(items), good)
  {
  }

  ghost predicate PartsGood(route: Route, good: string -> bool) {
    forall job :: job in JobsOf(route) ==> AllRefs(Obj(HoistedRest(job.fragment, job.prefix)), good)
  }

  lemma BodyGood(route: Route, good: string -> bool)
    requires PartsGood(route, good)
    ensures AllGood(BodyOf(route), good)
  {
    match route.body
    case Some(body) =>
      assert Job(route.id + ".body", body) in JobsOf(route);
      ContentGood(JSON_MEDIA, HoistedRest(body, route.id + ".body"), good);
    case None =>
      RawBodyGood(route.consumes, good);
      ObjectGood(RawBody(route.consumes), good);
      OneField("content", Obj(RawBody(route.consumes)), good);
  }

  /** Assembling an operation adds no pointer but the one to the shared error response. */
  lemma OperationGood(route: Route, good: string -> bool)
    requires PartsGood(route, good) && good(SHARED + ERROR)
    ensures AllRefs(OperationOf(route), good)
  {
    hide AllRefs, Responses, Parameters, BodyOf, HoistedRest, RoutePaths.SegmentsOf, RoutePaths.ParamNames;
    assert route.params.Some? ==> Job(route.id + ".path", route.params.value) in JobsOf(route);
    assert route.query.Some? ==> Job(route.id + ".query", route.query.value) in JobsOf(route);
    assert Job(route.id + ".response", route.response) in JobsOf(route);
    ParametersGood(HoistedPart(route.params, route.id + ".path"), InPath,
                   RoutePaths.ParamNames(RoutePaths.SegmentsOf(route.path)), good);
    ParametersGood(HoistedPart(route.query, route.id + ".query"), InQuery, [], good);
    ItemsGood(AllParameters(route), good);
    ResponsesGood(route, HoistedRest(route.response, route.id + ".response"), good);
    BodyGood(route, good);
    TextGood(route.id, good);
    ObjectGood(OperationOf(route).fields, good);
  }

  lemma TextGood(text: string, good: string -> bool)
    ensures AllRefs(Text(text), good)
  {
  }

  // --- What a hoist leaves behind resolves ---

  ghost function KeysOf(job: Job): set<string> { set d | d in Defs(job.fragment) :: Key(job.prefix, d.key) }

  ghost predicate JobResolved(job: Job, known: set<string>) {
    && AllRefs(Obj(HoistedRest(job.fragment, job.prefix)), Resolves(known))
    && forall d :: d in Defs(job.fragment) ==>
         AllRefs(RewriteRefs(d.value, Renames(Defs(job.fragment), job.prefix)), Resolves(known))
  }

  lemma RewrittenResolves(node: Json, defs: seq<Field>, prefix: string, known: set<string>)
    requires AllRefs(node, Names(defs))
    requires forall d :: d in defs ==> Key(prefix, d.key) in known
    ensures AllRefs(RewriteRefs(node, Renames(defs, prefix)), Resolves(known))
  {
    var renames := Renames(defs, prefix);
    var moved := pointer => Resolves(known)(Repointed(pointer, renames));
    forall pointer | Names(defs)(pointer) ensures moved(pointer) {
      var name := pointer[|LOCAL|..];
      PrefixFacts(Key(prefix, name));
      var d :| d in defs && d.key == name;
      assert Repointed(pointer, renames) == SHARED + Key(prefix, d.key);
      assert Resolves(known)(SHARED + Key(prefix, d.key));
    }
    AllRefsImply(node, Names(defs), moved);
    RewrittenRefs(node, renames, Resolves(known));
  }

  lemma ClosedResolves(job: Job, known: set<string>)
    requires IsClosed(job.fragment) && KeysOf(job) <= known
    ensures JobResolved(job, known)
  {
    var defs := Defs(job.fragment);
    ClosedIsTame(job.fragment);
    RestIsRewritten(job.fragment, job.prefix);
    assert forall d :: d in defs ==> Key(job.prefix, d.key) in KeysOf(job);
    RewrittenResolves(Obj(Rest(job.fragment)), defs, job.prefix, known);
    forall d | d in defs ensures AllRefs(RewriteRefs(d.value, Renames(defs, job.prefix)), Resolves(known)) {
      RewrittenResolves(d.value, defs, job.prefix, known);
    }
  }

  /** The bag's keys are component names, and their contents resolve. */
  ghost predicate BagResolved(bag: seq<Field>, known: set<string>) {
    forall f :: f in bag ==> f.key != REF && AllRefs(f.value, Resolves(known))
  }

  lemma {:induction false} PutFields(fields: seq<Field>, key: string, value: Json)
    ensures forall f :: f in Put(fields, key, value) ==> f in fields || f == Field(key, value)
  {
    if fields != [] {
      assert fields == [fields[0]] + fields[1..];
      if fields[0].key != key { PutFields(fields[1..], key, value); }
    }
  }

  lemma {:induction false} StoredFields(
      bag: seq<Field>, defs: seq<Field>, prefix: string, renames: map<string, string>, known: set<string>)
    requires BagResolved(bag, known)
    requires forall d :: d in defs ==> AllRefs(RewriteRefs(d.value, renames), Resolves(known))
    ensures BagResolved(Stored(bag, defs, prefix, renames), known)
    decreases |defs|
  {
    hide AllRefs, RewriteRefs, Key, Put;
    if defs != [] {
      var key := Key(prefix, defs[0].key);
      assert defs == [defs[0]] + defs[1..];
      KeyIsNoRef(prefix, defs[0].key);
      PutFields(bag, key, RewriteRefs(defs[0].value, renames));
      StoredFields(Put(bag, key, RewriteRefs(defs[0].value, renames)), defs[1..], prefix, renames, known);
    }
  }

  lemma KeyIsNoRef(prefix: string, name: string)
    ensures '.' in Key(prefix, name) && Key(prefix, name) != REF && Key(prefix, name) != ERROR
  {
    assert Key(prefix, name)[|SafePrefix(prefix)|] == '.';
    assert '.' !in REF && '.' !in ERROR;
  }

  lemma {:induction false} JobsResolved(bag: seq<Field>, jobs: seq<Job>, known: set<string>)
    requires BagResolved(bag, known) && forall job :: job in jobs ==> JobResolved(job, known)
    ensures BagResolved(RunJobs(bag, jobs), known)
  {
    if jobs != [] {
      var last := jobs[|jobs| - 1];
      JobsResolved(bag, jobs[..|jobs| - 1], known);
      assert last in jobs;
      StoredFields(RunJobs(bag, jobs[..|jobs| - 1]), Defs(last.fragment), last.prefix,
                   Renames(Defs(last.fragment), last.prefix), known);
    }
  }

  lemma {:induction false} StoredKeys(bag: seq<Field>, defs: seq<Field>, prefix: string, renames: map<string, string>)
    ensures Keys(Stored(bag, defs, prefix, renames)) == Keys(bag) + set d | d in defs :: Key(prefix, d.key)
    decreases |defs|
  {
    hide RewriteRefs, Key, Put;
    if defs != [] {
      assert defs == [defs[0]] + defs[1..];
      StoredKeys(Put(bag, Key(prefix, defs[0].key), RewriteRefs(defs[0].value, renames)), defs[1..], prefix, renames);
      assert (set d | d in defs :: Key(prefix, d.key))
          == {Key(prefix, defs[0].key)} + set d | d in defs[1..] :: Key(prefix, d.key);
    }
  }

  lemma {:induction false} JobsKeys(bag: seq<Field>, jobs: seq<Job>)
    ensures forall key :: key in Keys(RunJobs(bag, jobs)) <==>
              key in Keys(bag) || exists job :: job in jobs && key in KeysOf(job)
  {
    hide KeysOf, Stored;
    if jobs != [] {
      var last := jobs[|jobs| - 1];
      JobsKeys(bag, jobs[..|jobs| - 1]);
      assert jobs == jobs[..|jobs| - 1] + [last];
      HoistKeys(RunJobs(bag, jobs[..|jobs| - 1]), last);
    }
  }

  lemma HoistKeys(bag: seq<Field>, job: Job)
    ensures Keys(HoistedBag(bag, job.fragment, job.prefix)) == Keys(bag) + KeysOf(job)
  {
    StoredKeys(bag, Defs(job.fragment), job.prefix, Renames(Defs(job.fragment), job.prefix));
  }

  // --- The whole document ---

  function AllJobs(routes: seq<Route>): seq<Job> {
    if routes == [] then [] else AllJobs(routes[..|routes| - 1]) + JobsOf(routes[|routes| - 1])
  }

  lemma {:induction false} SchemasAreJobs(error: seq<Field>, routes: seq<Route>)
    ensures Schemas(error, routes) == RunJobs(ErrorBag(error), AllJobs(routes))
  {
    if routes == [] {
      NoJobs(ErrorBag(error));
    } else {
      var n := |routes| - 1;
      SchemasAreJobs(error, routes[..n]);
      RunMore(ErrorBag(error), AllJobs(routes[..n]), JobsOf(routes[n]));
    }
  }

  lemma {:induction false} JobsOfRoutes(routes: seq<Route>)
    ensures forall job :: job in AllJobs(routes) <==> exists route :: route in routes && job in JobsOf(route)
  {
    hide JobsOf;
    if routes != [] {
      JobsOfRoutes(routes[..|routes| - 1]);
      assert routes == routes[..|routes| - 1] + [routes[|routes| - 1]];
    }
  }

  ghost predicate AllClosed(error: seq<Field>, routes: seq<Route>) {
    IsClosed(error) && forall job :: job in AllJobs(routes) ==> IsClosed(job.fragment)
  }

  /** Every component of a document made of closed fragments resolves within the document. */
  lemma SchemasResolve(error: seq<Field>, routes: seq<Route>)
    requires AllClosed(error, routes)
    ensures ERROR in Keys(Schemas(error, routes))
    ensures BagResolved(Schemas(error, routes), Keys(Schemas(error, routes)))
    ensures forall job :: job in AllJobs(routes) ==> JobResolved(job, Keys(Schemas(error, routes)))
  {
    hide AllRefs, HoistedRest, RewriteRefs, Stored, IsClosed;
    var known := Keys(Schemas(error, routes));
    var first := Job(ERROR, error);
    SchemasAreJobs(error, routes);
    JobsKeys(ErrorBag(error), AllJobs(routes));
    HoistKeys([], first);
    assert forall key :: key in KeysOf(first) ==> key in known;
    ClosedResolves(first, known);
    forall job | job in AllJobs(routes) ensures JobResolved(job, known) {
      assert forall key :: key in KeysOf(job) ==> key in known;
      ClosedResolves(job, known);
    }
    StoredFields([], Defs(error), ERROR, Renames(Defs(error), ERROR), known);
    PutFields(HoistedBag([], error, ERROR), ERROR, Obj(HoistedRest(error, ERROR)));
    JobsResolved(ErrorBag(error), AllJobs(routes), known);
  }
}
