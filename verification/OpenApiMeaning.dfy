/** Every fragment of a route table means in the document what it meant on its own. */
module OpenApiMeaning {
  import opened Prelude
  import opened JsonTrees
  import opened Hoisting
  import opened RefChecker
  import opened OpenApiDocument
  import opened OpenApiReferences
  import opened OpenApiContract
  import RoutePaths

  // --- No hoist overwrites another component ---

  ghost predicate OwnedBy(job: Job, id: string) {
    exists location :: IsLocation(location) && job.prefix == id + "." + location
  }

  predicate PrefixesApart(jobs: seq<Job>) {
    forall i, j :: 0 <= i < j < |jobs| ==> jobs[i].prefix != jobs[j].prefix
  }

  lemma ApartTogether(a: seq<Job>, b: seq<Job>)
    requires PrefixesApart(a) && PrefixesApart(b)
    requires forall x, y :: x in a && y in b ==> x.prefix != y.prefix
    ensures PrefixesApart(a + b)
  {
  }

  lemma LocationsApart(id: string)
    ensures id + ".path" != id + ".query" && id + ".path" != id + ".response" && id + ".path" != id + ".body"
    ensures id + ".query" != id + ".response" && id + ".query" != id + ".body" && id + ".response" != id + ".body"
  {
    var n := |id| + 1;
    assert (id + ".path")[n] == 'p' && (id + ".query")[n] == 'q' && (id + ".response")[n] == 'r'
        && (id + ".body")[n] == 'b';
  }

  lemma FourApart(
      a: Option<seq<Field>>, p: string, b: Option<seq<Field>>, q: string,
      c: seq<Field>, r: string, d: Option<seq<Field>>, s: string)
    requires p != q && p != r && p != s && q != r && q != s && r != s
    ensures PrefixesApart(JobOf(a, p) + JobOf(b, q) + [Job(r, c)] + JobOf(d, s))
  {
    ApartTogether(JobOf(a, p), JobOf(b, q));
    ApartTogether(JobOf(a, p) + JobOf(b, q), [Job(r, c)]);
    ApartTogether(JobOf(a, p) + JobOf(b, q) + [Job(r, c)], JobOf(d, s));
  }

  lemma RouteJobsApart(route: Route)
    ensures PrefixesApart(JobsOf(route))
    ensures forall job :: job in JobsOf(route) ==> OwnedBy(job, route.id)
  {
    hide PrefixesApart;
    var id := route.id;
    LocationsApart(id);
    FourApart(route.params, id + ".path", route.query, id + ".query", route.response, id + ".response",
              route.body, id + ".body");
    forall job | job in JobsOf(route) ensures OwnedBy(job, id) {
      OwnedAt(job, id);
    }
  }

  lemma OwnedAt(job: Job, id: string)
    requires job.prefix in {id + ".path", id + ".query", id + ".response", id + ".body"}
    ensures OwnedBy(job, id)
  {
    assert id + ".path" == id + "." + "path" && id + ".query" == id + "." + "query";
    assert id + ".response" == id + "." + "response" && id + ".body" == id + "." + "body";
    assert IsLocation("path") && IsLocation("query") && IsLocation("response") && IsLocation("body");
  }

  lemma OwnersApart(a: Job, id: string, b: Job, id': string)
    requires GoodId(id) && GoodId(id') && OwnedBy(a, id) && OwnedBy(b, id')
    requires a.prefix == b.prefix
    ensures id == id'
  {
    var location, location' :| IsLocation(location) && a.prefix == id + "." + location
                               && IsLocation(location') && b.prefix == id' + "." + location';
    KeysTellPrefixesApart(id, location, "", id', location', "");
  }

  ghost predicate GoodIds(routes: seq<Route>) {
    NoIdTwice(routes) && forall r :: r in routes ==> GoodId(r.id)
  }

  lemma {:induction false} TableJobsApart(routes: seq<Route>)
    requires GoodIds(routes)
    ensures PrefixesApart(AllJobs(routes))
    ensures forall job :: job in AllJobs(routes) ==> exists r :: r in routes && OwnedBy(job, r.id)
  {
    hide JobsOf, OwnedBy, GoodId;
    if routes != [] {
      var n := |routes| - 1;
      var before := routes[..n];
      assert forall r :: r in before ==> r in routes;
      TableJobsApart(before);
      RouteJobsApart(routes[n]);
      forall x, y | x in AllJobs(before) && y in JobsOf(routes[n]) ensures x.prefix != y.prefix {
        var r :| r in before && OwnedBy(x, r.id);
        var i :| 0 <= i < n && routes[i] == r;
        assert r.id != routes[n].id;
        if x.prefix == y.prefix { OwnersApart(x, r.id, y, routes[n].id); }
      }
      ApartTogether(AllJobs(before), JobsOf(routes[n]));
    }
  }

  /** Different prefixes never give one key. */
  lemma OwnedKeysApart(a: Job, id: string, b: Job, id': string)
    requires GoodId(id) && GoodId(id') && OwnedBy(a, id) && OwnedBy(b, id') && a.prefix != b.prefix
    ensures KeysOf(a) !! KeysOf(b)
  {
    var location, location' :| IsLocation(location) && a.prefix == id + "." + location
                               && IsLocation(location') && b.prefix == id' + "." + location';
    forall key | key in KeysOf(a) && key in KeysOf(b) ensures false {
      var d :| d in Defs(a.fragment) && Key(a.prefix, d.key) == key;
      var d' :| d' in Defs(b.fragment) && Key(b.prefix, d'.key) == key;
      KeysTellPrefixesApart(id, location, d.key, id', location', d'.key);
    }
  }

  ghost predicate KeysApart(jobs: seq<Job>) {
    forall i, j :: 0 <= i < j < |jobs| ==> KeysOf(jobs[i]) !! KeysOf(jobs[j])
  }

  lemma TableKeysApart(routes: seq<Route>, error: seq<Field>)
    requires GoodIds(routes)
    ensures KeysApart(AllJobs(routes))
    ensures forall job :: job in AllJobs(routes) ==> KeysOf(job) !! KeysOf(Job(ERROR, error)) && ERROR !in KeysOf(job)
  {
    hide KeysOf, OwnedBy, GoodId;
    var jobs := AllJobs(routes);
    TableJobsApart(routes);
    forall i, j | 0 <= i < j < |jobs| ensures KeysOf(jobs[i]) !! KeysOf(jobs[j]) {
      assert jobs[i] in jobs && jobs[j] in jobs;
      var r :| r in routes && OwnedBy(jobs[i], r.id);
      var s :| s in routes && OwnedBy(jobs[j], s.id);
      OwnedKeysApart(jobs[i], r.id, jobs[j], s.id);
    }
    forall job | job in jobs ensures KeysOf(job) !! KeysOf(Job(ERROR, error)) && ERROR !in KeysOf(job) {
      var r :| r in routes && OwnedBy(job, r.id);
      ErrorApart(job, r.id, error);
    }
  }

  lemma ErrorApart(job: Job, id: string, error: seq<Field>)
    requires GoodId(id) && OwnedBy(job, id)
    ensures KeysOf(job) !! KeysOf(Job(ERROR, error)) && ERROR !in KeysOf(job)
  {
    var location :| IsLocation(location) && job.prefix == id + "." + location;
    forall key | key in KeysOf(job) && key in KeysOf(Job(ERROR, error)) ensures false {
      var d :| d in Defs(job.fragment) && Key(job.prefix, d.key) == key;
      var e :| e in Defs(error) && Key(ERROR, e.key) == key;
      ErrorKeysApart(id, location, d.key, e.key);
    }
    forall d | d in Defs(job.fragment) ensures Key(job.prefix, d.key) != ERROR { KeyIsNoRef(job.prefix, d.key); }
  }

  lemma HoistElsewhere(bag: seq<Field>, job: Job, key: string)
    requires IsObject(Defs(job.fragment)) && key !in KeysOf(job)
    ensures Get(HoistedBag(bag, job.fragment, job.prefix), key) == Get(bag, key)
  {
    HoistStores(bag, job.fragment, job.prefix);
    assert forall d :: d in Defs(job.fragment) ==> Key(job.prefix, d.key) in KeysOf(job);
  }

  /** A later hoist with other keys leaves an earlier one's components alone. */
  lemma HoistKeepsHeld(bag: seq<Field>, earlier: Job, job: Job)
    requires IsObject(Defs(job.fragment)) && KeysOf(earlier) !! KeysOf(job)
    requires Holds(bag, earlier.fragment, earlier.prefix)
    ensures Holds(HoistedBag(bag, job.fragment, job.prefix), earlier.fragment, earlier.prefix)
  {
    hide HoistedBag, RewriteRefs, Key;
    forall d | d in Defs(earlier.fragment)
      ensures Get(HoistedBag(bag, job.fragment, job.prefix), Key(earlier.prefix, d.key))
              == Get(bag, Key(earlier.prefix, d.key))
    {
      assert Key(earlier.prefix, d.key) in KeysOf(earlier);
      HoistElsewhere(bag, job, Key(earlier.prefix, d.key));
    }
  }

  lemma {:induction false} JobsHold(bag: seq<Field>, jobs: seq<Job>)
    requires KeysApart(jobs) && forall job :: job in jobs ==> IsObject(Defs(job.fragment))
    ensures forall job :: job in jobs ==> Holds(RunJobs(bag, jobs), job.fragment, job.prefix)
  {
    hide KeysOf, HoistedBag, IsObject, Holds;
    if jobs != [] {
      var n := |jobs| - 1;
      var before := jobs[..n];
      JobsHold(bag, before);
      HoistStores(RunJobs(bag, before), jobs[n].fragment, jobs[n].prefix);
      forall i | 0 <= i < n ensures Holds(RunJobs(bag, jobs), jobs[i].fragment, jobs[i].prefix) {
        assert jobs[i] in before;
        HoistKeepsHeld(RunJobs(bag, before), jobs[i], jobs[n]);
      }
    }
  }

  lemma {:induction false} JobsElsewhere(bag: seq<Field>, jobs: seq<Job>, key: string)
    requires forall job :: job in jobs ==> IsObject(Defs(job.fragment)) && key !in KeysOf(job)
    ensures Get(RunJobs(bag, jobs), key) == Get(bag, key)
  {
    hide KeysOf, HoistedBag, IsObject, Get;
    if jobs != [] {
      var n := |jobs| - 1;
      JobsElsewhere(bag, jobs[..n], key);
      HoistElsewhere(RunJobs(bag, jobs[..n]), jobs[n], key);
    }
  }

  lemma {:induction false} JobsKeepHeld(bag: seq<Field>, jobs: seq<Job>, earlier: Job)
    requires forall job :: job in jobs ==> IsObject(Defs(job.fragment)) && KeysOf(earlier) !! KeysOf(job)
    requires Holds(bag, earlier.fragment, earlier.prefix)
    ensures Holds(RunJobs(bag, jobs), earlier.fragment, earlier.prefix)
  {
    hide KeysOf, HoistedBag, IsObject, Holds;
    if jobs != [] {
      var n := |jobs| - 1;
      JobsKeepHeld(bag, jobs[..n], earlier);
      HoistKeepsHeld(RunJobs(bag, jobs[..n]), earlier, jobs[n]);
    }
  }

  ghost predicate AllTame(error: seq<Field>, routes: seq<Route>) {
    IsTame(error) && forall job :: job in AllJobs(routes) ==> IsTame(job.fragment)
  }

  /** With valid, distinct route ids every hoisted definition is still in the finished document. */
  lemma NoHoistOverwrites(error: seq<Field>, routes: seq<Route>)
    requires GoodIds(routes) && AllTame(error, routes)
    ensures Holds(Schemas(error, routes), error, ERROR)
    ensures Get(Schemas(error, routes), ERROR) == Some(Obj(HoistedRest(error, ERROR)))
    ensures forall job :: job in AllJobs(routes) ==> Holds(Schemas(error, routes), job.fragment, job.prefix)
  {
    hide KeysOf, HoistedRest, RunJobs, IsObject, AllRefs, JobsOf, GoodId, HoistedBag, KeysApart;
    var jobs := AllJobs(routes);
    assert forall job :: job in jobs ==> IsObject(Defs(job.fragment));
    SchemasAreJobs(error, routes);
    TableKeysApart(routes, error);
    JobsHold(ErrorBag(error), jobs);
    ErrorHeld(error);
    JobsKeepHeld(ErrorBag(error), jobs, Job(ERROR, error));
    JobsElsewhere(ErrorBag(error), jobs, ERROR);
  }

  lemma ErrorHeld(error: seq<Field>)
    requires IsObject(Defs(error))
    ensures Holds(ErrorBag(error), error, ERROR)
    ensures Get(ErrorBag(error), ERROR) == Some(Obj(HoistedRest(error, ERROR)))
  {
    hide HoistedRest, HoistedBag, RewriteRefs;
    var bag := HoistedBag([], error, ERROR);
    HoistStores([], error, ERROR);
    GetPut(bag, ERROR, Obj(HoistedRest(error, ERROR)), ERROR);
    forall d | d in Defs(error) ensures Get(ErrorBag(error), Key(ERROR, d.key)) == Get(bag, Key(ERROR, d.key)) {
      KeyIsNoRef(ERROR, d.key);
      GetPut(bag, ERROR, Obj(HoistedRest(error, ERROR)), Key(ERROR, d.key));
    }
  }

  /** What a piece of a hoisted fragment means in the document, and what it meant before. */
  ghost function Before(k: nat, piece: seq<Field>, fragment: seq<Field>): Tree {
    Unfold(k, Obj(piece), LOCAL, Defs(fragment))
  }

  ghost function After(k: nat, piece: seq<Field>, schemas: seq<Field>): Tree { Unfold(k, Obj(piece), SHARED, schemas) }

  lemma FragmentsKeepMeaning(error: seq<Field>, routes: seq<Route>, job: Job, k: nat)
    requires GoodIds(routes) && AllTame(error, routes)
    requires job in AllJobs(routes) || job == Job(ERROR, error)
    ensures After(k, HoistedRest(job.fragment, job.prefix), Schemas(error, routes))
            == Before(k, Rest(job.fragment), job.fragment)
  {
    hide AllRefs, HoistedRest, Unfold, RewriteRefs, GoodIds, Schemas, Holds;
    NoHoistOverwrites(error, routes);
    assert IsTame(job.fragment);
    RestIsRewritten(job.fragment, job.prefix);
    RewritePreservesMeaning(k, Obj(Rest(job.fragment)), Schemas(error, routes), job.fragment, job.prefix);
  }

  // --- Parameters are cut out of their fragment without changing meaning ---

  function RewriteFields(fields: seq<Field>, renames: map<string, string>): seq<Field> {
    RewriteRefs(Obj(fields), renames).fields
  }

  lemma RewriteFieldsStep(fields: seq<Field>, renames: map<string, string>)
    requires fields != []
    ensures RewriteFields(fields, renames) == RewriteFields(fields[..1], renames) + RewriteFields(fields[1..], renames)
    ensures RewriteFields(fields[..1], renames)[0].key == fields[0].key
  {
  }

  /** Looking a key up before or after rewriting comes to the same. */
  lemma {:induction false} GetRewritten(fields: seq<Field>, key: string, renames: map<string, string>)
    ensures Get(RewriteFields(fields, renames), key)
            == match Get(fields, key)
               case None => None
               case Some(v) =>
                 if IsRef(Field(key, v)) then Some(Text(Repointed(v.text, renames))) else Some(RewriteRefs(v, renames))
  {
    if fields != [] {
      RewriteFieldsStep(fields, renames);
      var after := RewriteFields(fields, renames);
      assert after[1..] == RewriteFields(fields[1..], renames);
      GetRewritten(fields[1..], key, renames);
    }
  }

  lemma WithoutFirst(first: Field, rest: seq<Field>, key: string)
    ensures Without([first] + rest, key) == (if first.key == key then [] else [first]) + Without(rest, key)
  {
    assert ([first] + rest)[1..] == rest;
  }

  function RewriteField(f: Field, renames: map<string, string>): Field {
    if IsRef(f) then Field(REF, Text(Repointed(f.value.text, renames))) else Field(f.key, RewriteRefs(f.value, renames))
  }

  lemma RewriteFirst(first: Field, rest: seq<Field>, renames: map<string, string>)
    ensures RewriteFields([first] + rest, renames) == [RewriteField(first, renames)] + RewriteFields(rest, renames)
    ensures RewriteField(first, renames).key == first.key
  {
  }

  lemma {:induction false} WithoutRewritten(fields: seq<Field>, key: string, renames: map<string, string>)
    ensures Without(RewriteFields(fields, renames), key) == RewriteFields(Without(fields, key), renames)
  {
    if fields != [] {
      hide RewriteFields, RewriteField, Without;
      var first, rest := fields[0], fields[1..];
      assert fields == [first] + rest;
      RewriteFirst(first, rest, renames);
      WithoutFirst(first, rest, key);
      WithoutFirst(RewriteField(first, renames), RewriteFields(rest, renames), key);
      WithoutRewritten(rest, key, renames);
      RewriteFirst(first, Without(rest, key), renames);
      assert [] + Without(rest, key) == Without(rest, key);
      assert [] + Without(RewriteFields(rest, renames), key) == Without(RewriteFields(rest, renames), key);
    }
  }

  lemma PropertiesRewritten(fragment: seq<Field>, renames: map<string, string>)
    ensures Properties(RewriteFields(fragment, renames)) == RewriteFields(Properties(fragment), renames)
  {
    GetRewritten(fragment, PROPERTIES, renames);
  }

  lemma PropertySchemaRewritten(properties: seq<Field>, name: string, renames: map<string, string>)
    ensures PropertySchema(RewriteFields(properties, renames), name)
            == RewriteFields(PropertySchema(properties, name), renames)
  {
    GetRewritten(properties, name, renames);
    assert RewriteFields(STRING_SCHEMA, renames) == STRING_SCHEMA;
  }

  /** The schema of the parameter `name`, as the fragment has it. */
  function ParameterSchema(fragment: seq<Field>, name: string): seq<Field> {
    Without(PropertySchema(Properties(fragment), name), DESCRIPTION)
  }

  lemma ParameterSchemaRewritten(fragment: seq<Field>, name: string, renames: map<string, string>)
    ensures ParameterSchema(RewriteFields(fragment, renames), name)
            == RewriteFields(ParameterSchema(fragment, name), renames)
  {
    hide RewriteFields, PropertySchema, Properties, Without;
    PropertiesRewritten(fragment, renames);
    PropertySchemaRewritten(Properties(fragment), name, renames);
    WithoutRewritten(PropertySchema(Properties(fragment), name), DESCRIPTION, renames);
  }

  lemma ParameterSchemaKeepsOut(fragment: seq<Field>, name: string, good: string -> bool)
    requires AllRefs(Obj(fragment), good)
    ensures AllRefs(Obj(ParameterSchema(fragment, name)), good)
  {
    hide AllRefs;
    PropertyGood(fragment, name, good);
    ObjectGood(PropertySchema(Properties(fragment), name), good);
    ObjectGood(ParameterSchema(fragment, name), good);
  }

  /** A parameter's schema means in the document what the property meant in its fragment. */
  lemma ParametersKeepMeaning(error: seq<Field>, routes: seq<Route>, job: Job, name: string, k: nat)
    requires GoodIds(routes) && AllTame(error, routes) && job in AllJobs(routes)
    ensures After(k, ParameterSchema(HoistedRest(job.fragment, job.prefix), name), Schemas(error, routes))
            == Before(k, ParameterSchema(Rest(job.fragment), name), job.fragment)
  {
    hide AllRefs, HoistedRest, Unfold, RewriteRefs, GoodIds, Schemas, Holds, ParameterSchema;
    var renames := Renames(Defs(job.fragment), job.prefix);
    var piece := ParameterSchema(Rest(job.fragment), name);
    NoHoistOverwrites(error, routes);
    assert IsTame(job.fragment);
    RestIsRewritten(job.fragment, job.prefix);
    ParameterSchemaRewritten(Rest(job.fragment), name, renames);
    ParameterSchemaKeepsOut(Rest(job.fragment), name, KeepsOut(Defs(job.fragment)));
    RewritePreservesMeaning(k, Obj(piece), Schemas(error, routes), job.fragment, job.prefix);
  }
}
