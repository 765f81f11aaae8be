/** What a valid route table makes of its document. */
module OpenApiContract {
  import opened Prelude
  import opened JsonTrees
  import opened Hoisting
  import opened RefChecker
  import opened OpenApiDocument
  import opened OpenApiReferences
  import RoutePaths

  // --- One operation per route ---

  function OperationAt(paths: seq<Field>, template: string, verb: string): Option<Json> {
    Get(ItemAt(paths, template), verb)
  }

  function OperationCount(paths: seq<Field>): nat {
    if paths == [] then 0
    else (if paths[0].value.Obj? then |paths[0].value.fields| else 0) + OperationCount(paths[1..])
  }

  predicate SamePlace(a: Route, b: Route) { Template(a) == Template(b) && a.verb == b.verb }

  predicate NoneClash(routes: seq<Route>) {
    forall i, j :: 0 <= i < j < |routes| ==> !SamePlace(routes[i], routes[j])
  }

  predicate ArePaths(paths: seq<Field>) {
    IsObject(paths) && forall f :: f in paths ==> f.value.Obj? && IsObject(f.value.fields)
  }

  /** Every route has its own operation at its place, and there are no others. */
  ghost predicate Documents(paths: seq<Field>, routes: seq<Route>) {
    && ArePaths(paths)
    && OperationCount(paths) == |routes|
    && (forall r :: r in routes ==> OperationAt(paths, Template(r), r.verb.Lower()) == Some(OperationOf(r)))
    && (forall t, m :: OperationAt(paths, t, m).Some? ==>
          exists r :: r in routes && Template(r) == t && r.verb.Lower() == m)
  }

  lemma VerbsApart(a: Verb, b: Verb)
    ensures a.Lower() == b.Lower() <==> a == b
  {
    assert "get"[0] == 'g' && "post"[1] == 'o' && "patch"[1] == 'a' && "put"[1] == 'u' && "delete"[0] == 'd';
    assert "post"[0] == 'p' && "patch"[0] == 'p' && "put"[0] == 'p';
  }

  lemma {:induction false} CountPut(paths: seq<Field>, key: string, item: seq<Field>)
    ensures OperationCount(Put(paths, key, Obj(item))) == OperationCount(paths) - |ItemAt(paths, key)| + |item|
  {
    if paths != [] {
      var after := Put(paths, key, Obj(item));
      if paths[0].key == key {
        assert after[1..] == paths[1..];
      } else {
        assert after[1..] == Put(paths[1..], key, Obj(item));
        CountPut(paths[1..], key, item);
        assert ItemAt(paths, key) == ItemAt(paths[1..], key);
      }
    }
  }

  lemma ItemAfterPut(paths: seq<Field>, key: string, item: seq<Field>, template: string)
    ensures ItemAt(Put(paths, key, Obj(item)), template) == if template == key then item else ItemAt(paths, template)
  {
    GetPut(paths, key, Obj(item), template);
  }

  /** Two routes clash just when one finds the other's operation in its place. */
  lemma ClashIffTaken(paths: seq<Field>, routes: seq<Route>, route: Route)
    requires Documents(paths, routes)
    ensures AddRoute(paths, route).Err? <==> exists r :: r in routes && SamePlace(r, route)
  {
    hide OperationOf, Put, Template, OperationCount, ArePaths, Verb.Lower;
    var item, verb := ItemAt(paths, Template(route)), route.verb.Lower();
    assert verb in Keys(item) <==> OperationAt(paths, Template(route), verb).Some?;
    forall r: Route ensures r.verb.Lower() == verb <==> r.verb == route.verb { VerbsApart(r.verb, route.verb); }
    forall r | r in routes && SamePlace(r, route) ensures OperationAt(paths, Template(route), verb).Some? {
      assert OperationAt(paths, Template(r), r.verb.Lower()).Some?;
    }
  }

  lemma AddedAt(paths: seq<Field>, route: Route, t: string, m: string)
    requires AddRoute(paths, route).Ok?
    ensures OperationAt(AddRoute(paths, route).value, t, m)
            == if t == Template(route) && m == route.verb.Lower() then Some(OperationOf(route))
               else OperationAt(paths, t, m)
  {
    hide OperationOf, Put, Template, Verb.Lower, Get;
    var item, verb := ItemAt(paths, Template(route)), route.verb.Lower();
    ItemAfterPut(paths, Template(route), Put(item, verb, OperationOf(route)), t);
    GetPut(item, verb, OperationOf(route), m);
  }

  lemma AddedCount(paths: seq<Field>, route: Route)
    requires ArePaths(paths) && AddRoute(paths, route).Ok?
    ensures ArePaths(AddRoute(paths, route).value)
    ensures OperationCount(AddRoute(paths, route).value) == OperationCount(paths) + 1
  {
    hide OperationOf, Put, Template, OperationCount, IsObject, Verb.Lower, Get;
    var item, verb := ItemAt(paths, Template(route)), route.verb.Lower();
    var newItem := Put(item, verb, OperationOf(route));
    CountPut(paths, Template(route), newItem);
    ItemIsObject(paths, Template(route));
    PutIsObject(item, verb, OperationOf(route));
    PutIsObject(paths, Template(route), Obj(newItem));
    PutFields(paths, Template(route), Obj(newItem));
  }

  lemma AddRouteDocuments(paths: seq<Field>, routes: seq<Route>, route: Route)
    requires Documents(paths, routes) && AddRoute(paths, route).Ok?
    ensures Documents(AddRoute(paths, route).value, routes + [route])
  {
    hide OperationOf, Put, Template, OperationCount, ArePaths, Verb.Lower, AddRoute, OperationAt;
    var after := AddRoute(paths, route).value;
    AddedCount(paths, route);
    forall t, m ensures OperationAt(after, t, m)
        == if t == Template(route) && m == route.verb.Lower() then Some(OperationOf(route))
           else OperationAt(paths, t, m)
    {
      AddedAt(paths, route, t, m);
    }
    forall r | r in routes + [route] ensures OperationAt(after, Template(r), r.verb.Lower()) == Some(OperationOf(r)) {
      ClashIffTaken(paths, routes, route);
      VerbsApart(r.verb, route.verb);
    }
    forall t, m | OperationAt(after, t, m).Some?
      ensures exists r :: r in routes + [route] && Template(r) == t && r.verb.Lower() == m
    {
      if t == Template(route) && m == route.verb.Lower() {
        assert route in routes + [route];
      } else {
        var r :| r in routes && Template(r) == t && r.verb.Lower() == m;
        assert r in routes + [route];
      }
    }
  }

  lemma ItemIsObject(paths: seq<Field>, template: string)
    requires ArePaths(paths)
    ensures IsObject(ItemAt(paths, template))
  {
  }

  /** The document is built exactly when no two routes share template and method, and then documents each once. */
  lemma {:induction false} AllPathsExact(routes: seq<Route>)
    ensures AllPaths(routes).Ok? <==> NoneClash(routes)
    ensures AllPaths(routes).Ok? ==> Documents(AllPaths(routes).value, routes)
  {
    hide Documents, SamePlace, AddRoute, NoneClash;
    if routes == [] {
      EmptyDocuments();
    } else {
      var n := |routes| - 1;
      var before := routes[..n];
      AllPathsExact(before);
      assert routes == before + [routes[n]];
      ClashNext(before, routes[n]);
      if AllPaths(before).Ok? {
        ClashIffTaken(AllPaths(before).value, before, routes[n]);
        if AddRoute(AllPaths(before).value, routes[n]).Ok? {
          AddRouteDocuments(AllPaths(before).value, before, routes[n]);
        }
      }
    }
  }

  lemma ClashNext(routes: seq<Route>, route: Route)
    ensures NoneClash(routes + [route]) <==> NoneClash(routes) && !exists r :: r in routes && SamePlace(r, route)
  {
    hide SamePlace;
    var all := routes + [route];
    if NoneClash(routes) && !exists r :: r in routes && SamePlace(r, route) {
      forall i, j | 0 <= i < j < |all| ensures !SamePlace(all[i], all[j]) { assert all[i] in routes; }
    }
    if r :| r in routes && SamePlace(r, route) {
      var i :| 0 <= i < |routes| && routes[i] == r;
      assert SamePlace(all[i], all[|routes|]);
    }
    if i, j :| 0 <= i < j < |routes| && SamePlace(routes[i], routes[j]) {
      assert SamePlace(all[i], all[j]);
    }
  }

  lemma EmptyDocuments()
    ensures Documents([], []) && NoneClash([])
  {
  }

  // --- The duplicate checks of the contract ---

  datatype Duplicate = DuplicateId(index: nat) | DuplicateRoute(index: nat, first: string)

  predicate SameShape(a: Route, b: Route) {
    a.verb == b.verb && RoutePaths.RouteShape(a.path) == RoutePaths.RouteShape(b.path)
  }

  predicate IdSeenBefore(routes: seq<Route>, i: nat)
    requires i < |routes|
  {
    exists j :: 0 <= j < i && routes[j].id == routes[i].id
  }

  /** `j` is the first route of the shape of `i`, and comes before it. */
  predicate FirstOfShape(routes: seq<Route>, j: nat, i: nat): (r: bool)
    requires i < |routes|
    ensures r ==> j < i
  {
    j < i && SameShape(routes[j], routes[i]) && forall l :: 0 <= l < j ==> !SameShape(routes[l], routes[i])
  }

  method FindDuplicates(routes: seq<Route>) returns (issues: seq<Duplicate>)
    ensures forall i: nat :: DuplicateId(i) in issues <==> i < |routes| && IdSeenBefore(routes, i)
    ensures forall i: nat, first :: DuplicateRoute(i, first) in issues <==>
              i < |routes| && exists j: nat :: FirstOfShape(routes, j, i) && first == routes[j].id
  {
    hide RoutePaths.RouteShape, IdSeenBefore, FirstOfShape, Seen;
    issues := [];
    var seenIds: set<string> := {};
    var seenKeys: map<(Verb, string), nat> := map[];
    SeenNone(routes);
    for i := 0 to |routes|
      invariant forall id :: id in seenIds <==> exists j :: 0 <= j < i && routes[j].id == id
      invariant Seen(seenKeys, routes, i)
      invariant forall n: nat :: DuplicateId(n) in issues <==> n < i && IdSeenBefore(routes, n)
      invariant forall n: nat, first :: DuplicateRoute(n, first) in issues <==>
                  n < i && exists j: nat :: FirstOfShape(routes, j, n) && first == routes[j].id
    {
      var route := routes[i];
      assert route.id in seenIds <==> IdSeenBefore(routes, i) by { IdSeen(routes, i); }
      if route.id in seenIds {
        issues := issues + [DuplicateId(i)];
      }
      seenIds := seenIds + {route.id};
      var key := ShapeOf(route);
      SeenFirst(seenKeys, routes, i);
      if key in seenKeys {
        issues := issues + [DuplicateRoute(i, routes[seenKeys[key]].id)];
      } else {
        seenKeys := seenKeys[key := i];
      }
    }
  }

  lemma IdSeen(routes: seq<Route>, i: nat)
    requires i < |routes|
    ensures IdSeenBefore(routes, i) <==> exists j :: 0 <= j < i && routes[j].id == routes[i].id
  {
  }

  /** `seen` gives, for every shape of the first `n` routes, the first route that has it. */
  ghost predicate Seen(seen: map<(Verb, string), nat>, routes: seq<Route>, n: nat)
    requires n <= |routes|
  {
    && (forall j :: 0 <= j < n ==> ShapeOf(routes[j]) in seen)
    && forall key :: key in seen ==>
         && seen[key] < n && ShapeOf(routes[seen[key]]) == key
         && forall l :: 0 <= l < seen[key] ==> ShapeOf(routes[l]) != key
  }

  lemma SeenNone(routes: seq<Route>)
    ensures Seen(map[], routes, 0)
  {
  }

  lemma SeenFirst(seen: map<(Verb, string), nat>, routes: seq<Route>, i: nat)
    requires i < |routes| && Seen(seen, routes, i)
    ensures var key := ShapeOf(routes[i]);
            if key in seen then
              && seen[key] < i && Seen(seen, routes, i + 1)
              && forall j: nat :: FirstOfShape(routes, j, i) <==> j == seen[key]
            else
              Seen(seen[key := i], routes, i + 1) && forall j: nat :: !FirstOfShape(routes, j, i)
  {
    hide RoutePaths.RouteShape;
    assert forall j | 0 <= j < |routes| ::
      SameShape(routes[j], routes[i]) <==> ShapeOf(routes[j]) == ShapeOf(routes[i]);
  }

  function ShapeOf(route: Route): (Verb, string) { (route.verb, RoutePaths.RouteShape(route.path)) }

  predicate NoShapeTwice(routes: seq<Route>) {
    forall i, j :: 0 <= i < j < |routes| ==> !SameShape(routes[i], routes[j])
  }

  predicate NoIdTwice(routes: seq<Route>) {
    forall i, j :: 0 <= i < j < |routes| ==> routes[i].id != routes[j].id
  }

  /** A table with no duplicated shape and no brace in a literal segment is documented route by route. */
  lemma OneOperationPerRoute(error: seq<Field>, routes: seq<Route>)
    requires NoShapeTwice(routes) && forall r :: r in routes ==> RoutePaths.BraceFree(r.path)
    ensures DocumentOf(error, routes).Ok?
    ensures Documents(DocumentOf(error, routes).value.paths, routes)
  {
    hide Documents, RoutePaths.ToOpenApiPath, RoutePaths.RouteShape, RoutePaths.BraceFree;
    AllPathsExact(routes);
    forall i, j | 0 <= i < j < |routes| ensures !SamePlace(routes[i], routes[j]) {
      if SamePlace(routes[i], routes[j]) {
        RoutePaths.TemplateTellsPathsApart(routes[i].path, routes[j].path);
      }
    }
  }

  // --- Reference closure ---

  lemma PathsResolve(paths: seq<Field>, routes: seq<Route>, known: set<string>)
    requires Documents(paths, routes) && ERROR in known
    requires forall job :: job in AllJobs(routes) ==> JobResolved(job, known)
    ensures AllRefs(Obj(paths), Resolves(known))
  {
    var good := Resolves(known);
    JobsOfRoutes(routes);
    PrefixFacts(ERROR);
    forall f | f in paths ensures FieldGood(f, good) {
      var item := f.value.fields;
      forall op | op in item ensures FieldGood(op, good) {
        var i :| 0 <= i < |paths| && paths[i] == f;
        var j :| 0 <= j < |item| && item[j] == op;
        GetOnly(paths, i);
        GetOnly(item, j);
        assert OperationAt(paths, f.key, op.key) == Some(op.value);
        var r :| r in routes && Template(r) == f.key && r.verb.Lower() == op.key;
        RouteResolves(r, routes, known);
        assert op.value == OperationOf(r);
      }
      ObjectGood(item, good);
    }
    ObjectGood(paths, good);
  }

  lemma RouteResolves(route: Route, routes: seq<Route>, known: set<string>)
    requires route in routes && ERROR in known
    requires forall job :: job in AllJobs(routes) ==> JobResolved(job, known)
    ensures AllRefs(OperationOf(route), Resolves(known)) && OperationOf(route).Obj?
  {
    hide AllRefs, JobsOf, HoistedRest, Parameters, Responses;
    JobsOfRoutes(routes);
    PrefixFacts(ERROR);
    forall job | job in JobsOf(route) ensures AllRefs(Obj(HoistedRest(job.fragment, job.prefix)), Resolves(known)) {
      assert job in AllJobs(routes);
      assert JobResolved(job, known);
    }
    OperationGood(route, Resolves(known));
  }

  /** The dangling-reference check finds nothing in a document made of closed fragments. */
  lemma NoDanglingRefs(error: seq<Field>, routes: seq<Route>)
    requires AllClosed(error, routes) && DocumentOf(error, routes).Ok?
    ensures DanglingIssues(DocumentOf(error, routes).value) == []
  {
    hide AllRefs, Documents, AllClosed, JobResolved, RefIssues;
    var document := DocumentOf(error, routes).value;
    var known := Keys(document.schemas);
    AllPathsExact(routes);
    SchemasResolve(error, routes);
    PathsResolve(document.paths, routes, known);
    SilentIffResolved(Obj(document.paths), known);
    BagIsGood(document.schemas, known);
    SilentIffResolved(Obj(document.schemas), known);
  }

  lemma BagIsGood(bag: seq<Field>, known: set<string>)
    requires BagResolved(bag, known)
    ensures AllRefs(Obj(bag), Resolves(known))
  {
    ObjectGood(bag, Resolves(known));
  }

  // --- No hoist overwrites another ---

  predicate IsWord(s: string) {
    && s != "" && 'a' <= s[0] <= 'z'
    && forall c :: c in s ==> 'a' <= c <= 'z' || 'A' <= c <= 'Z' || '0' <= c <= '9'
  }

  /** A dotted camelCase pair: what `BAD_ID` asks for. */
  ghost predicate GoodId(id: string) {
    exists a, b :: IsWord(a) && IsWord(b) && id == a + "." + b
  }

  predicate IsLocation(s: string) { s in {"path", "query", "response", "body"} }

  lemma SafeStays(prefix: string)
    requires forall c :: c in prefix ==> IsSafe(c)
    ensures SafePrefix(prefix) == prefix
  {
  }

  lemma LocationsAreSafe(location: string)
    requires IsLocation(location)
    ensures '.' !in location && forall c :: c in location ==> IsSafe(c)
  {
  }

  lemma WordsAreSafe(word: string)
    requires IsWord(word)
    ensures '.' !in word && forall c :: c in word ==> IsSafe(c)
  {
  }

  lemma PairIsSafe(a: string, b: string)
    requires (forall c :: c in a ==> IsSafe(c)) && forall c :: c in b ==> IsSafe(c)
    ensures forall c :: c in a + "." + b ==> IsSafe(c)
  {
  }

  /** A component key determines the id and location it was made from, and the definition's name. */
  lemma KeysTellPrefixesApart(id: string, location: string, name: string, id': string, location': string, name': string)
    requires GoodId(id) && GoodId(id') && IsLocation(location) && IsLocation(location')
    requires Key(id + "." + location, name) == Key(id' + "." + location', name')
    ensures id == id' && location == location' && name == name'
  {
    hide IsLocation, IsWord, IsSafe;
    var a, b :| IsWord(a) && IsWord(b) && id == a + "." + b;
    var a', b' :| IsWord(a') && IsWord(b') && id' == a' + "." + b';
    PrefixIsSafe(a, b, location);
    PrefixIsSafe(a', b', location');
    var dot := ".";
    var r, r' := location + dot + name, location' + dot + name';
    assert Key(id + dot + location, name) == a + dot + (b + dot + r);
    assert Key(id' + dot + location', name') == a' + dot + (b' + dot + r');
    RoutePaths.HeadBefore('.', a, a', b + dot + r, b' + dot + r');
    RoutePaths.HeadBefore('.', b, b', r, r');
    RoutePaths.HeadBefore('.', location, location', name, name');
  }

  lemma PrefixIsSafe(a: string, b: string, location: string)
    requires IsWord(a) && IsWord(b) && IsLocation(location)
    ensures '.' !in a && '.' !in b && '.' !in location
    ensures SafePrefix(a + "." + b + "." + location) == a + "." + b + "." + location
  {
    hide IsLocation, IsWord, IsSafe;
    WordsAreSafe(a);
    WordsAreSafe(b);
    LocationsAreSafe(location);
    PairIsSafe(a, b);
    PairIsSafe(a + "." + b, location);
    SafeStays(a + "." + b + "." + location);
  }

  /** No route's key is one of the error schema's. */
  lemma ErrorKeysApart(id: string, location: string, name: string, other: string)
    requires GoodId(id) && IsLocation(location)
    ensures Key(id + "." + location, name) != Key(ERROR, other)
  {
    hide IsLocation;
    var a, b :| IsWord(a) && IsWord(b) && id == a + "." + b;
    PrefixIsSafe(a, b, location);
    SafeStays(ERROR) by { assert forall c :: c in ERROR ==> IsSafe(c); }
    assert Key(id + "." + location, name)[0] == a[0];
    assert Key(ERROR, other)[0] == 'E';
  }
}
