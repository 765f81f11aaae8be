/** Where an operation carries its schemas and parameters, and what the reference check can tell. */
module OpenApiCoverage {
  import opened Prelude
  import opened JsonTrees
  import opened Hoisting
  import opened RefChecker
  import opened OpenApiDocument
  import opened OpenApiReferences
  import opened OpenApiContract
  import opened OpenApiMeaning
  import RoutePaths
  import opened Numerals

  // --- The check against fragments that are not closed ---

  /** The definition a pointer into `$defs` names. */
  function Named(pointer: string): string { if StartsWith(pointer, LOCAL) then pointer[|LOCAL|..] else "" }

  /** Where a reference ends up after the hoist: its own definition, or a component that happens to have its name. */
  function Lands(defs: seq<Field>, known: set<string>): string -> bool {
    (pointer: string) =>
      if StartsWith(pointer, LOCAL) then defs != [] && (Named(pointer) in Keys(defs) || Named(pointer) in known)
      else Resolves(known)(pointer)
  }

  /** It names no definition of its fragment, but a component of the document. */
  predicate IsCaptured(defs: seq<Field>, known: set<string>, pointer: string) {
    StartsWith(pointer, LOCAL) && defs != [] && Named(pointer) !in Keys(defs) && Named(pointer) in known
  }

  lemma AllRefsIff(node: Json, given: string -> bool, a: string -> bool, b: string -> bool)
    requires AllRefs(node, given) && forall s :: given(s) ==> (a(s) <==> b(s))
    ensures AllRefs(node, a) <==> AllRefs(node, b)
    decreases node
  {
    match node
    case Arr(items) =>
      forall i | 0 <= i < |items| ensures AllRefs(items[i], a) <==> AllRefs(items[i], b) {
        AllRefsIff(items[i], given, a, b);
      }
    case Obj(fields) =>
      forall i | 0 <= i < |fields| && !IsRef(fields[i])
        ensures AllRefs(fields[i].value, a) <==> AllRefs(fields[i].value, b)
      {
        AllRefsIff(fields[i].value, given, a, b);
      }
    case _ =>
  }

  lemma LandsIffResolves(pointer: string, job: Job, known: set<string>)
    requires KeysOf(job) <= known && Defs(job.fragment) != []
    ensures Resolves(known)(Repointed(pointer, Renames(Defs(job.fragment), job.prefix)))
            <==> Lands(Defs(job.fragment), known)(pointer)
  {
    var name := Named(pointer);
    PrefixFacts(Key(job.prefix, name));
    PrefixFacts(name);
    if StartsWith(pointer, LOCAL) && name in Keys(Defs(job.fragment)) {
      var d :| d in Defs(job.fragment) && d.key == name;
      assert Key(job.prefix, d.key) in KeysOf(job);
    }
  }

  lemma RewrittenSilentIff(node: Json, job: Job, known: set<string>)
    requires KeysOf(job) <= known && Defs(job.fragment) != []
    ensures RefIssues(RewriteRefs(node, Renames(Defs(job.fragment), job.prefix)), known) == []
            <==> AllRefs(node, Lands(Defs(job.fragment), known))
  {
    hide AllRefs, RefIssues, RewriteRefs;
    var renames := Renames(Defs(job.fragment), job.prefix);
    var moved := pointer => Resolves(known)(Repointed(pointer, renames));
    SilentIffResolved(RewriteRefs(node, renames), known);
    RewrittenRefs(node, renames, Resolves(known));
    forall pointer ensures moved(pointer) <==> Lands(Defs(job.fragment), known)(pointer) {
      LandsIffResolves(pointer, job, known);
    }
    AnyRefs(node);
    AllRefsIff(node, pointer => true, moved, Lands(Defs(job.fragment), known));
  }

  lemma AnyRefs(node: Json)
    ensures AllRefs(node, pointer => true)
    decreases node
  {
    match node
    case Arr(items) => forall i | 0 <= i < |items| ensures AllRefs(items[i], pointer => true) { AnyRefs(items[i]); }
    case Obj(fields) =>
      forall i | 0 <= i < |fields| && !IsRef(fields[i]) ensures AllRefs(fields[i].value, pointer => true) {
        AnyRefs(fields[i].value);
      }
    case _ =>
  }

  lemma PlainSilentIff(node: Json, known: set<string>)
    ensures RefIssues(node, known) == [] <==> AllRefs(node, Lands([], known))
  {
    hide AllRefs, RefIssues;
    SilentIffResolved(node, known);
    forall pointer ensures Resolves(known)(pointer) <==> Lands([], known)(pointer) {
      if StartsWith(pointer, LOCAL) { PrefixesDiffer(pointer); }
    }
    AnyRefs(node);
    AllRefsIff(node, pointer => true, Resolves(known), Lands([], known));
  }

  /** The check finds nothing in what a hoist left, rest and definitions. */
  ghost predicate IsSilent(job: Job, known: set<string>) {
    && RefIssues(Obj(HoistedRest(job.fragment, job.prefix)), known) == []
    && forall d :: d in Defs(job.fragment) ==>
         RefIssues(RewriteRefs(d.value, Renames(Defs(job.fragment), job.prefix)), known) == []
  }

  /**
   * What the check can tell, exactly. It is silent on a hoisted fragment just when every local pointer names a
   * definition of the fragment or a component of the document, and every other pointer resolves.
   */
  lemma CheckIsExact(job: Job, known: set<string>)
    requires KeysOf(job) <= known
    ensures IsSilent(job, known) <==> Throughout(job.fragment, Lands(Defs(job.fragment), known))
  {
    hide AllRefs, RefIssues, RewriteRefs, KeysOf, Lands;
    if Defs(job.fragment) == [] {
      PlainSilentIff(Obj(Rest(job.fragment)), known);
    } else {
      RestRewrites(job);
      RewrittenSilentIff(Obj(Rest(job.fragment)), job, known);
      forall d | d in Defs(job.fragment)
        ensures RefIssues(RewriteRefs(d.value, Renames(Defs(job.fragment), job.prefix)), known) == []
                <==> AllRefs(d.value, Lands(Defs(job.fragment), known))
      {
        RewrittenSilentIff(d.value, job, known);
      }
    }
  }

  lemma RestRewrites(job: Job)
    requires Defs(job.fragment) != []
    ensures Obj(HoistedRest(job.fragment, job.prefix))
            == RewriteRefs(Obj(Rest(job.fragment)), Renames(Defs(job.fragment), job.prefix))
  {
    hide RewriteRefs, Rest;
  }

  /** The same of every fragment of a document, against the components the document has. */
  lemma CheckIsExactInDocument(error: seq<Field>, routes: seq<Route>, job: Job)
    requires job in AllJobs(routes) || job == Job(ERROR, error)
    ensures var known := Keys(Schemas(error, routes));
            IsSilent(job, known) <==> Throughout(job.fragment, Lands(Defs(job.fragment), known))
  {
    hide KeysOf, IsSilent, Throughout, Stored, HoistedRest;
    SchemasAreJobs(error, routes);
    JobsKeys(ErrorBag(error), AllJobs(routes));
    HoistKeys([], Job(ERROR, error));
    assert forall key :: key in KeysOf(job) ==> key in Keys(Schemas(error, routes));
    CheckIsExact(job, Keys(Schemas(error, routes)));
  }

  /** So silence means closed, for a fragment of local pointers, exactly when none of them was captured. */
  lemma SilentAndClosed(job: Job, known: set<string>)
    requires KeysOf(job) <= known && IsSilent(job, known)
    requires Throughout(job.fragment, pointer => StartsWith(pointer, LOCAL))
    ensures Throughout(job.fragment, Names(Defs(job.fragment)))
            <==> Throughout(job.fragment, pointer => !IsCaptured(Defs(job.fragment), known, pointer))
  {
    hide AllRefs, IsSilent, KeysOf;
    var defs := Defs(job.fragment);
    var free := pointer => !IsCaptured(defs, known, pointer);
    var both := pointer => StartsWith(pointer, LOCAL) && Lands(defs, known)(pointer);
    CheckIsExact(job, known);
    BothRefs(Obj(Rest(job.fragment)), pointer => StartsWith(pointer, LOCAL), Lands(defs, known), both);
    AllRefsIff(Obj(Rest(job.fragment)), both, Names(defs), free);
    forall d | d in defs ensures AllRefs(d.value, Names(defs)) <==> AllRefs(d.value, free) {
      BothRefs(d.value, pointer => StartsWith(pointer, LOCAL), Lands(defs, known), both);
      AllRefsIff(d.value, both, Names(defs), free);
    }
  }

  lemma BothRefs(node: Json, a: string -> bool, b: string -> bool, both: string -> bool)
    requires AllRefs(node, a) && AllRefs(node, b) && forall s :: a(s) && b(s) ==> both(s)
    ensures AllRefs(node, both)
    decreases node
  {
    match node
    case Arr(items) =>
      forall i | 0 <= i < |items| ensures AllRefs(items[i], both) { BothRefs(items[i], a, b, both); }
    case Obj(fields) =>
      forall i | 0 <= i < |fields| && !IsRef(fields[i]) ensures AllRefs(fields[i].value, both) {
        BothRefs(fields[i].value, a, b, both);
      }
    case _ =>
  }

  /** Only names like `ErrorResponse`, or with a dot in them, can be captured. */
  lemma SchemaNames(error: seq<Field>, routes: seq<Route>, name: string)
    requires name in Keys(Schemas(error, routes))
    ensures name == ERROR || '.' in name
  {
    hide KeysOf, Key, HoistedRest, RewriteRefs, Stored;
    var jobs := AllJobs(routes);
    SchemasAreJobs(error, routes);
    JobsKeys(ErrorBag(error), jobs);
    HoistKeys([], Job(ERROR, error));
    if name != ERROR {
      var job: Job :| name in KeysOf(job);
      KeysDotted(job, name);
    }
  }

  lemma KeysDotted(job: Job, name: string)
    requires name in KeysOf(job)
    ensures '.' in name
  {
    var d :| d in Defs(job.fragment) && Key(job.prefix, d.key) == name;
    KeyIsNoRef(job.prefix, d.key);
  }

  // --- What capture does to meaning ---

  /** A captured pointer, anywhere: it led nowhere, it leads to the component now, and the check says nothing. */
  lemma CaptureGoesUnseen(k: nat, fields: seq<Field>, i: nat, fragment: seq<Field>, prefix: string, bag: seq<Field>)
    requires i < |fields| && IsRef(fields[i])
    requires IsCaptured(Defs(fragment), Keys(bag), fields[i].value.text)
    ensures var renames := Renames(Defs(fragment), prefix);
            && Unfold(k, Obj(fields), LOCAL, Defs(fragment)).members[i] == Dangling
            && Unfold(k, RewriteRefs(Obj(fields), renames), SHARED, bag).members[i] != Dangling
            && Verdict(Repointed(fields[i].value.text, renames), Keys(bag)).None?
  {
    var name := Named(fields[i].value.text);
    PrefixFacts(name);
    assert name !in Renames(Defs(fragment), prefix);
    VerdictResolves(SHARED + name, Keys(bag));
  }

  /** The pointer means the same before and after. */
  function Keeps(defs: seq<Field>, known: set<string>): string -> bool {
    (pointer: string) =>
      if StartsWith(pointer, LOCAL) then Named(pointer) in Keys(defs) || Named(pointer) !in known
      else !StartsWith(pointer, SHARED)
  }

  lemma PointerKeeps(pointer: string, bag: seq<Field>, fragment: seq<Field>, prefix: string)
    requires IsObject(Defs(fragment)) && Holds(bag, fragment, prefix)
    ensures var moved := Repointed(pointer, Renames(Defs(fragment), prefix));
            && (StartsWith(pointer, LOCAL) ==>
                  && StartsWith(moved, SHARED)
                  && (Get(bag, moved[|SHARED|..]).Some?
                      <==> Named(pointer) in Keys(Defs(fragment)) || Named(pointer) in Keys(bag))
                  && (Named(pointer) in Keys(Defs(fragment)) ==>
                        Get(bag, moved[|SHARED|..])
                        == Some(RewriteRefs(Get(Defs(fragment), Named(pointer)).value,
                                            Renames(Defs(fragment), prefix)))))
            && (!StartsWith(pointer, LOCAL) ==> moved == pointer)
  {
    if StartsWith(pointer, LOCAL) {
      var name := Named(pointer);
      PrefixFacts(name);
      PrefixFacts(Key(prefix, name));
      if name in Keys(Defs(fragment)) {
        assert Field(name, Get(Defs(fragment), name).value) in Defs(fragment);
      }
    }
  }

  /** The node has this pointer in it. */
  ghost predicate Mentions(node: Json, pointer: string) { !AllRefs(node, OtherThan(pointer)) }

  function OtherThan(pointer: string): string -> bool { other => other != pointer }

  lemma {:induction false} EachMentioned(node: Json, good: string -> bool)
    ensures AllRefs(node, good) <==> forall pointer :: Mentions(node, pointer) ==> good(pointer)
    decreases node
  {
    forall pointer | AllRefs(node, good) && Mentions(node, pointer) ensures good(pointer) {
      if !good(pointer) { AllRefsImply(node, good, OtherThan(pointer)); }
    }
    if forall pointer :: Mentions(node, pointer) ==> good(pointer) {
      match node
      case Arr(items) =>
        forall i | 0 <= i < |items| ensures AllRefs(items[i], good) {
          assert forall pointer :: Mentions(items[i], pointer) ==> Mentions(node, pointer);
          EachMentioned(items[i], good);
        }
      case Obj(fields) =>
        forall i | 0 <= i < |fields|
          ensures if IsRef(fields[i]) then good(fields[i].value.text) else AllRefs(fields[i].value, good)
        {
          if IsRef(fields[i]) {
            assert Mentions(node, fields[i].value.text);
          } else {
            assert forall pointer :: Mentions(fields[i].value, pointer) ==> Mentions(node, pointer);
            EachMentioned(fields[i].value, good);
          }
        }
      case _ =>
    }
  }

  /** Where a path of definitions leads from a node, each mentioned by the one before it. */
  ghost function Along(node: Json, path: seq<string>, defs: seq<Field>): Option<Json>
    decreases |path|
  {
    if path == [] then Some(node)
    else if Mentions(node, LOCAL + path[0]) && path[0] in Keys(defs) then
      Along(Get(defs, path[0]).value, path[1..], defs)
    else None
  }

  /** Whatever the node mentions, or leads to by no more than `k` definitions, keeps its pointers' meaning. */
  ghost predicate KeptWithin(k: nat, node: Json, defs: seq<Field>, known: set<string>) {
    forall path :: |path| <= k && Along(node, path, defs).Some? ==>
      AllRefs(Along(node, path, defs).value, Keeps(defs, known))
  }

  /** The pointer means the same before and after, and so does what it leads to, `k` pointers deep. */
  ghost function KeepsTo(k: nat, defs: seq<Field>, known: set<string>): string -> bool
    decreases k
  {
    (pointer: string) =>
      && Keeps(defs, known)(pointer)
      && (k > 0 && StartsWith(pointer, LOCAL) && Named(pointer) in Keys(defs) ==>
            AllRefs(Get(defs, Named(pointer)).value, KeepsTo(k - 1, defs, known)))
  }

  lemma KeepsToMeans(k: nat, defs: seq<Field>, known: set<string>, pointer: string)
    ensures KeepsTo(k, defs, known)(pointer)
            <==> && Keeps(defs, known)(pointer)
                 && (k > 0 && StartsWith(pointer, LOCAL) && Named(pointer) in Keys(defs) ==>
                       AllRefs(Get(defs, Named(pointer)).value, KeepsTo(k - 1, defs, known)))
  {
  }

  lemma KeptFromStep(k: nat, node: Json, name: string, defs: seq<Field>, known: set<string>)
    requires KeptWithin(k + 1, node, defs, known) && Mentions(node, LOCAL + name) && name in Keys(defs)
    ensures KeptWithin(k, Get(defs, name).value, defs, known)
  {
    hide AllRefs, Mentions, Keeps;
    var next := Get(defs, name).value;
    forall path | |path| <= k && Along(next, path, defs).Some?
      ensures AllRefs(Along(next, path, defs).value, Keeps(defs, known))
    {
      assert ([name] + path)[1..] == path;
      assert Along(node, [name] + path, defs) == Along(next, path, defs);
    }
  }

  lemma {:induction false} KeepsToIff(k: nat, node: Json, defs: seq<Field>, known: set<string>)
    ensures AllRefs(node, KeepsTo(k, defs, known)) <==> KeptWithin(k, node, defs, known)
    decreases k, 1
  {
    hide AllRefs, Mentions, Keeps, KeptWithin;
    EachMentioned(node, KeepsTo(k, defs, known));
    if AllRefs(node, KeepsTo(k, defs, known)) { KeptWhenAll(k, node, defs, known); }
    if KeptWithin(k, node, defs, known) {
      forall pointer | Mentions(node, pointer) ensures KeepsTo(k, defs, known)(pointer) {
        PointerKeptTo(k, node, pointer, defs, known);
      }
    }
  }

  lemma {:induction false} KeptWhenAll(k: nat, node: Json, defs: seq<Field>, known: set<string>)
    requires AllRefs(node, KeepsTo(k, defs, known))
    ensures KeptWithin(k, node, defs, known)
    decreases k, 0
  {
    hide AllRefs, Mentions, Keeps, KeptWithin;
    EachMentioned(node, KeepsTo(k, defs, known));
    EachMentioned(node, Keeps(defs, known));
    assert AllRefs(node, Keeps(defs, known));
    forall name | k > 0 && Mentions(node, LOCAL + name) && name in Keys(defs)
      ensures KeptWithin(k - 1, Get(defs, name).value, defs, known)
    {
      PrefixFacts(name);
      assert KeepsTo(k, defs, known)(LOCAL + name);
      KeepsToIff(k - 1, Get(defs, name).value, defs, known);
    }
    hide KeepsTo;
    KeptFromAll(k, node, defs, known);
  }

  lemma KeptFromAll(k: nat, node: Json, defs: seq<Field>, known: set<string>)
    requires AllRefs(node, Keeps(defs, known))
    requires forall name :: k > 0 && Mentions(node, LOCAL + name) && name in Keys(defs) ==>
               KeptWithin(k - 1, Get(defs, name).value, defs, known)
    ensures KeptWithin(k, node, defs, known)
  {
    hide AllRefs, Mentions, Keeps;
    forall path | |path| <= k && Along(node, path, defs).Some?
      ensures AllRefs(Along(node, path, defs).value, Keeps(defs, known))
    {
      if path != [] { assert KeptWithin(k - 1, Get(defs, path[0]).value, defs, known); }
    }
  }

  lemma {:induction false} PointerKeptTo(k: nat, node: Json, pointer: string, defs: seq<Field>, known: set<string>)
    requires KeptWithin(k, node, defs, known) && Mentions(node, pointer)
    ensures KeepsTo(k, defs, known)(pointer)
    decreases k, 0
  {
    hide AllRefs, Mentions, Keeps;
    assert Along(node, [], defs) == Some(node);
    EachMentioned(node, Keeps(defs, known));
    if k > 0 && StartsWith(pointer, LOCAL) && Named(pointer) in Keys(defs) {
      assert pointer == LOCAL + Named(pointer);
      KeptFromStep(k - 1, node, Named(pointer), defs, known);
      hide KeptWithin;
      KeepsToIff(k - 1, Get(defs, Named(pointer)).value, defs, known);
    }
  }

  /**
   * Rewriting keeps what a node means, followed `k` pointers deep, exactly when no pointer is captured or already
   * shared, in the node or in any definition it leads to in at most `k` steps.
   */
  lemma MeaningKeptIff(k: nat, node: Json, bag: seq<Field>, fragment: seq<Field>, prefix: string)
    requires IsObject(Defs(fragment)) && Holds(bag, fragment, prefix)
    ensures Unfold(k, RewriteRefs(node, Renames(Defs(fragment), prefix)), SHARED, bag)
            == Unfold(k, node, LOCAL, Defs(fragment))
            <==> KeptWithin(k, node, Defs(fragment), Keys(bag))
  {
    hide AllRefs, KeptWithin, KeepsTo, Unfold;
    UnfoldedAlikeIff(k, node, bag, fragment, prefix);
    KeepsToIff(k, node, Defs(fragment), Keys(bag));
  }

  lemma {:induction false} UnfoldedAlikeIff(
      k: nat, node: Json, bag: seq<Field>, fragment: seq<Field>, prefix: string)
    requires IsObject(Defs(fragment)) && Holds(bag, fragment, prefix)
    ensures Unfold(k, RewriteRefs(node, Renames(Defs(fragment), prefix)), SHARED, bag)
            == Unfold(k, node, LOCAL, Defs(fragment))
            <==> AllRefs(node, KeepsTo(k, Defs(fragment), Keys(bag)))
    decreases k, node, 1
  {
    var defs, renames := Defs(fragment), Renames(Defs(fragment), prefix);
    var keeps := KeepsTo(k, defs, Keys(bag));
    var before, after := Unfold(k, node, LOCAL, defs), Unfold(k, RewriteRefs(node, renames), SHARED, bag);
    match node
    case Arr(items) =>
      hide Defs, Holds, Renames, KeepsTo;
      forall i | 0 <= i < |items| ensures after.items[i] == before.items[i] <==> AllRefs(items[i], keeps) {
        UnfoldedAlikeIff(k, items[i], bag, fragment, prefix);
      }
      assert after == before <==> forall i :: 0 <= i < |items| ==> after.items[i] == before.items[i];
    case Obj(fields) =>
      hide Defs, Holds, Renames, KeepsTo;
      forall i | 0 <= i < |fields|
        ensures after.members[i] == before.members[i]
                <==> if IsRef(fields[i]) then keeps(fields[i].value.text) else AllRefs(fields[i].value, keeps)
      {
        if IsRef(fields[i]) {
          FieldKeptIff(k, node, i, bag, fragment, prefix);
        } else {
          UnfoldedAlikeIff(k, fields[i].value, bag, fragment, prefix);
        }
      }
      assert after == before <==> forall i :: 0 <= i < |fields| ==> after.members[i] == before.members[i];
    case _ =>
  }

  lemma {:induction false} FieldKeptIff(
      k: nat, node: Json, i: nat, bag: seq<Field>, fragment: seq<Field>, prefix: string)
    requires IsObject(Defs(fragment)) && Holds(bag, fragment, prefix)
    requires node.Obj? && i < |node.fields| && IsRef(node.fields[i])
    ensures Unfold(k, RewriteRefs(node, Renames(Defs(fragment), prefix)), SHARED, bag).members[i]
            == Unfold(k, node, LOCAL, Defs(fragment)).members[i]
            <==> KeepsTo(k, Defs(fragment), Keys(bag))(node.fields[i].value.text)
    decreases k, node, 0
  {
    hide Holds, Renames, Defs, KeepsTo;
    var defs, pointer := Defs(fragment), node.fields[i].value.text;
    var renames := Renames(defs, prefix);
    KeepsToMeans(k, defs, Keys(bag), pointer);
    PointerKeeps(pointer, bag, fragment, prefix);
    assert RewriteRefs(node, renames).fields[i] == Field(REF, Text(Repointed(pointer, renames)));
    if k > 0 && StartsWith(pointer, LOCAL) && Named(pointer) in Keys(defs) {
      UnfoldedAlikeIff(k - 1, Get(defs, Named(pointer)).value, bag, fragment, prefix);
    }
  }

  // --- Where an operation carries what was hoisted ---

  /** The value under a path of keys. */
  function Under(value: Json, keys: seq<string>): Option<Json> {
    if keys == [] then Some(value)
    else if !value.Obj? then None
    else
      match Get(value.fields, keys[0])
      case None => None
      case Some(inner) => Under(inner, keys[1..])
  }

  lemma {:induction false} ErrorsKeep(responses: seq<Field>, errors: seq<nat>, key: string)
    requires key in Keys(responses)
    ensures Get(WithErrors(responses, errors), key) == Get(responses, key)
    decreases |errors|
  {
    hide Decimal;
    if errors != [] {
      if Decimal(errors[0]) in Keys(responses) {
        ErrorsKeep(responses, errors[1..], key);
      } else {
        GetPut(responses, Decimal(errors[0]), ERROR_CONTENT, key);
        ErrorsKeep(Put(responses, Decimal(errors[0]), ERROR_CONTENT), errors[1..], key);
      }
    }
  }

  /** Declared errors all answer with the shared error response, and never replace the success response. */
  lemma {:induction false} ErrorsDocumented(responses: seq<Field>, errors: seq<nat>, status: nat)
    requires status in errors && Decimal(status) !in Keys(responses)
    ensures Get(WithErrors(responses, errors), Decimal(status)) == Some(ERROR_CONTENT)
    decreases |errors|
  {
    hide Decimal;
    if Decimal(errors[0]) in Keys(responses) {
      ErrorsDocumented(responses, errors[1..], status);
    } else {
      var next := Put(responses, Decimal(errors[0]), ERROR_CONTENT);
      GetPut(responses, Decimal(errors[0]), ERROR_CONTENT, Decimal(status));
      if Decimal(errors[0]) == Decimal(status) {
        ErrorsKeep(next, errors[1..], Decimal(status));
      } else {
        ErrorsDocumented(next, errors[1..], status);
      }
    }
  }

  lemma UnderOne(key: string, value: Json, keys: seq<string>)
    ensures Under(Obj([Field(key, value)]), [key] + keys) == Under(value, keys)
  {
    assert ([key] + keys)[1..] == keys;
  }

  lemma UnderContent(media: string, schema: seq<Field>)
    ensures Under(WithContent(Content(media, schema)), ["content", media, SCHEMA]) == Some(Obj(schema))
  {
    UnderOne("content", Obj(Content(media, schema)), [media, SCHEMA]);
    assert ["content"] + [media, SCHEMA] == ["content", media, SCHEMA];
    UnderOne(media, Obj([Field(SCHEMA, Obj(schema))]), [SCHEMA]);
    assert [media] + [SCHEMA] == [media, SCHEMA];
    UnderOne(SCHEMA, Obj(schema), []);
    assert [SCHEMA] + [] == [SCHEMA];
  }

  /** The success response of a JSON route carries the hoisted response schema. */
  lemma ResponseCarried(route: Route)
    requires route.produces == ""
    ensures Under(OperationOf(route), ["responses", Decimal(route.status), "content", JSON_MEDIA, SCHEMA])
            == Some(Obj(HoistedRest(route.response, route.id + ".response")))
  {
    hide HoistedRest, Decimal, AllParameters, BodyOf;
    var schema := HoistedRest(route.response, route.id + ".response");
    var success := WithContent(Content(JSON_MEDIA, schema));
    var status := Decimal(route.status);
    var keys := ["responses", status, "content", JSON_MEDIA, SCHEMA];
    ErrorsKeep([Field(status, success)], route.errors, status);
    assert Get(Responses(route, schema), status) == Some(success);
    assert Get(OperationOf(route).fields, "responses") == Some(Obj(Responses(route, schema))) by {
      GetSecond(OperationOf(route).fields);
    }
    assert keys[1..] == [status, "content", JSON_MEDIA, SCHEMA];
    assert keys[1..][1..] == ["content", JSON_MEDIA, SCHEMA];
    UnderContent(JSON_MEDIA, schema);
  }

  lemma GetSecond(fields: seq<Field>)
    requires |fields| >= 2 && fields[0].key != fields[1].key
    ensures Get(fields, fields[1].key) == Some(fields[1].value)
  {
    assert fields[1..][0] == fields[1];
  }

  lemma {:induction false} GetLast(fields: seq<Field>, key: string, value: Json)
    requires key !in Keys(fields)
    ensures Get(fields + [Field(key, value)], key) == Some(value)
  {
    if fields != [] {
      assert fields == [fields[0]] + fields[1..];
      assert (fields + [Field(key, value)])[1..] == fields[1..] + [Field(key, value)];
      GetLast(fields[1..], key, value);
    }
  }

  /** A route that produces something other than JSON describes it as a string of that media type. */
  lemma ProducedCarried(route: Route)
    requires route.produces != ""
    ensures Under(OperationOf(route), ["responses", Decimal(route.status), "content", route.produces, SCHEMA])
            == Some(Obj(STRING_SCHEMA))
  {
    hide HoistedRest, Decimal, AllParameters, BodyOf;
    var schema := HoistedRest(route.response, route.id + ".response");
    var success := WithContent(Content(route.produces, STRING_SCHEMA));
    var status := Decimal(route.status);
    var keys := ["responses", status, "content", route.produces, SCHEMA];
    ErrorsKeep([Field(status, success)], route.errors, status);
    assert Get(Responses(route, schema), status) == Some(success);
    assert Get(OperationOf(route).fields, "responses") == Some(Obj(Responses(route, schema))) by {
      GetSecond(OperationOf(route).fields);
    }
    assert keys[1..] == [status, "content", route.produces, SCHEMA];
    assert keys[1..][1..] == ["content", route.produces, SCHEMA];
    UnderContent(route.produces, STRING_SCHEMA);
  }

  /** An operation carries its route's id, and its parameters when it has any. */
  lemma ParametersCarried(route: Route)
    ensures Get(OperationOf(route).fields, "operationId") == Some(Text(route.id))
    ensures AllParameters(route) != [] ==>
              Get(OperationOf(route).fields, "parameters") == Some(Arr(AllParameters(route)))
  {
    hide HoistedRest, AllParameters, Responses, BodyOf, Get;
    var fields := OperationOf(route).fields;
    GetFirst(fields, 0);
    if AllParameters(route) != [] {
      assert fields[0].key == "operationId" && fields[1].key == "responses" && fields[2].key == "parameters";
      assert "operationId"[0] != "parameters"[0] && "responses"[0] != "parameters"[0];
      GetFirst(fields, 2);
    }
  }

  /** The request body of a route that has one carries the hoisted body schema. */
  lemma BodyCarried(route: Route)
    requires route.body.Some?
    ensures Under(OperationOf(route), ["requestBody", "content", JSON_MEDIA, SCHEMA])
            == Some(Obj(HoistedRest(route.body.value, route.id + ".body")))
  {
    hide HoistedRest, AllParameters, Responses;
    var schema := HoistedRest(route.body.value, route.id + ".body");
    var body := WithContent(Content(JSON_MEDIA, schema));
    var parameters := AllParameters(route);
    var before := [Field("operationId", Text(route.id)),
                   Field("responses", Obj(Responses(route, HoistedRest(route.response, route.id + ".response"))))]
                  + if |parameters| > 0 then [Field("parameters", Arr(parameters))] else [];
    assert OperationOf(route).fields == before + [Field("requestBody", body)];
    GetLast(before, "requestBody", body);
    var keys := ["requestBody", "content", JSON_MEDIA, SCHEMA];
    assert keys[1..] == ["content", JSON_MEDIA, SCHEMA];
    UnderContent(JSON_MEDIA, schema);
  }

  /** Without a body schema the accepted media types are listed; without those there is no request body. */
  lemma RawBodyCarried(route: Route)
    requires route.body.None?
    ensures if route.consumes == [] then Under(OperationOf(route), ["requestBody"]) == None
            else Under(OperationOf(route), ["requestBody", "content"]) == Some(Obj(RawBody(route.consumes)))
  {
    hide HoistedRest, AllParameters, Responses, RawBody;
    var parameters := AllParameters(route);
    var before := [Field("operationId", Text(route.id)),
                   Field("responses", Obj(Responses(route, HoistedRest(route.response, route.id + ".response"))))]
                  + if |parameters| > 0 then [Field("parameters", Arr(parameters))] else [];
    assert "requestBody" !in Keys(before);
    if route.consumes == [] {
      assert OperationOf(route).fields == before;
      assert ["requestBody"][0] == "requestBody";
    } else {
      var body := WithContent(RawBody(route.consumes));
      assert OperationOf(route).fields == before + [Field("requestBody", body)];
      GetLast(before, "requestBody", body);
      UnderTwo(OperationOf(route), "requestBody", "content");
    }
  }

  predicate Describes(p: Json, name: string, location: Location, required: bool, schema: seq<Field>) {
    && p.Obj?
    && Get(p.fields, "name") == Some(Text(name))
    && Get(p.fields, "in") == Some(Text(location.Name()))
    && Get(p.fields, "required") == Some(Bool(required))
    && Get(p.fields, SCHEMA) == Some(Obj(schema))
  }

  /** Every `:name` of the path is a required path parameter of the operation. */
  lemma PathParametersRequired(route: Route, name: string)
    requires name in RoutePaths.ParamNames(RoutePaths.SegmentsOf(route.path))
    ensures exists p, schema :: p in AllParameters(route) && Describes(p, name, InPath, true, schema)
  {
    hide HoistedRest, PropertySchema, Properties, RoutePaths.SegmentsOf, RoutePaths.ParamNames, Describes, Parameter;
    var required := RoutePaths.ParamNames(RoutePaths.SegmentsOf(route.path));
    var fragment := HoistedPart(route.params, route.id + ".path");
    var parameters := Parameters(fragment, InPath, required);
    var names := ParameterNames(fragment, required);
    var i :| 0 <= i < |names| && names[i] == name;
    var p := parameters[i];
    ParameterDescribes(name, if fragment.None? then STRING_SCHEMA else PropertySchema(Properties(fragment.value), name),
                       InPath, fragment.None? || name in DeclaredRequired(fragment.value) || name in required);
    assert p in AllParameters(route);
  }

  lemma {:induction false} GetFirst(fields: seq<Field>, i: nat)
    requires i < |fields| && forall j :: 0 <= j < i ==> fields[j].key != fields[i].key
    ensures Get(fields, fields[i].key) == Some(fields[i].value)
  {
    if i > 0 { GetFirst(fields[1..], i - 1); }
  }

  lemma ParameterDescribes(name: string, schema: seq<Field>, location: Location, required: bool)
    ensures Describes(Parameter(name, schema, location, required), name, location,
                      location.InPath? || required, Without(schema, DESCRIPTION))
  {
    hide Without, Get;
    var fields := Parameter(name, schema, location, required).fields;
    assert "name"[0] != "in"[0] && "required"[0] == 'r' && "name"[0] == 'n' && "in"[0] == 'i' && SCHEMA[0] == 's';
    GetFirst(fields, 0);
    GetFirst(fields, 1);
    GetFirst(fields, 2);
    GetFirst(fields, 3);
  }

  /** A fragment's parameters are its properties and the path's names, each once, with the property's schema. */
  lemma ParametersListed(fragment: seq<Field>, location: Location, required: seq<string>)
    ensures var names := ParameterNames(Some(fragment), required);
            var parameters := Parameters(Some(fragment), location, required);
            && Distinct(names)
            && |parameters| == |names|
            && (forall n :: n in names <==> n in Keys(Properties(fragment)) || n in required)
            && forall i :: 0 <= i < |names| ==>
                 Describes(parameters[i], names[i], location,
                           location.InPath? || names[i] in DeclaredRequired(fragment) || names[i] in required,
                           ParameterSchema(fragment, names[i]))
  {
    hide PropertySchema, Properties, Parameter, DeclaredRequired, Describes, Keys;
    var names := ParameterNames(Some(fragment), required);
    KeyListed(Properties(fragment));
    forall i | 0 <= i < |names|
      ensures Describes(Parameters(Some(fragment), location, required)[i], names[i], location,
                        location.InPath? || names[i] in DeclaredRequired(fragment) || names[i] in required,
                        ParameterSchema(fragment, names[i]))
    {
      ParameterDescribes(names[i], PropertySchema(Properties(fragment), names[i]), location,
                         names[i] in DeclaredRequired(fragment) || names[i] in required);
    }
  }

  /** A parameter's schema, told from the fragment it comes from. */
  lemma SchemaFromFragment(fragment: seq<Field>, location: Location, required: seq<string>, i: nat)
    requires i < |ParameterNames(Some(fragment), required)|
    ensures var (name, p) := (ParameterNames(Some(fragment), required)[i],
                              Parameters(Some(fragment), location, required)[i]);
            && p.Obj?
            && Get(p.fields, "schema") == Some(Obj(
                 match Under(Obj(fragment), ["properties", name])
                 case Some(Obj(fields)) => Without(fields, "description")
                 case Some(Null) => [Field("type", Text("string"))]
                 case Some(_) => []
                 case None => [Field("type", Text("string"))]))
  {
    hide Without, Get, DeclaredRequired, ParameterNames, Properties;
    var name := ParameterNames(Some(fragment), required)[i];
    UnderProperties(fragment, name);
    ParameterDescribes(name, PropertySchema(Properties(fragment), name), location,
                       name in DeclaredRequired(fragment) || name in required);
    NothingWithout();
  }

  /** And its description, unless that is empty. */
  lemma DescriptionFromFragment(
      fragment: seq<Field>, location: Location, required: seq<string>, i: nat, properties: seq<Field>)
    requires i < |ParameterNames(Some(fragment), required)|
    requires Under(Obj(fragment), ["properties", ParameterNames(Some(fragment), required)[i]]) == Some(Obj(properties))
    ensures var p := Parameters(Some(fragment), location, required)[i];
            && p.Obj?
            && Get(p.fields, "description")
               == match Get(properties, "description")
                  case Some(d) => if d in {Null, Bool(false), Number(0), Text("")} then None else Some(d)
                  case None => None
  {
    hide Without, Get, DeclaredRequired, ParameterNames, Properties;
    var name := ParameterNames(Some(fragment), required)[i];
    UnderProperties(fragment, name);
    assert Get(Properties(fragment), name) == Some(Obj(properties));
    hide Under;
    var needed := name in DeclaredRequired(fragment) || name in required;
    ParameterIs(fragment, location, required, i, properties, needed);
    DescriptionKept(name, properties, location, needed);
    hide Parameters, Parameter, Truthy;
    if Get(properties, "description").Some? { FalsyIff(Get(properties, "description").value); }
  }

  lemma ParameterIs(
      fragment: seq<Field>, location: Location, required: seq<string>, i: nat, properties: seq<Field>, needed: bool)
    requires i < |ParameterNames(Some(fragment), required)|
    requires Get(Properties(fragment), ParameterNames(Some(fragment), required)[i]) == Some(Obj(properties))
    requires var name := ParameterNames(Some(fragment), required)[i];
             needed <==> name in DeclaredRequired(fragment) || name in required
    ensures Parameters(Some(fragment), location, required)[i]
            == Parameter(ParameterNames(Some(fragment), required)[i], properties, location, needed)
  {
    hide Get, DeclaredRequired, ParameterNames, Properties, Parameter;
  }

  lemma FalsyIff(value: Json)
    ensures Truthy(value) <==> value !in {Null, Bool(false), Number(0), Text("")}
  {
  }

  lemma NothingWithout()
    ensures Without([], DESCRIPTION) == [] && Without(STRING_SCHEMA, DESCRIPTION) == STRING_SCHEMA
  {
    assert STRING_SCHEMA[1..] == [] && "type"[0] != DESCRIPTION[0];
  }

  lemma UnderProperties(fragment: seq<Field>, name: string)
    ensures Under(Obj(fragment), ["properties", name]) == Get(Properties(fragment), name)
  {
    if Get(fragment, "properties").Some? && Get(fragment, "properties").value.Obj? {
      UnderTwo(Obj(fragment), "properties", name);
    } else {
      assert ["properties", name][1..] == [name];
    }
  }

  lemma DescriptionKept(name: string, schema: seq<Field>, location: Location, required: bool)
    ensures Get(Parameter(name, schema, location, required).fields, DESCRIPTION)
            == match Get(schema, DESCRIPTION)
               case Some(d) => if Truthy(d) then Some(d) else None
               case None => None
  {
    hide Without;
    var fields := [
      Field("name", Text(name)),
      Field("in", Text(location.Name())),
      Field("required", Bool(location.InPath? || required)),
      Field(SCHEMA, Obj(Without(schema, DESCRIPTION)))];
    assert DESCRIPTION !in Keys(fields) by {
      assert "name"[0] == 'n' && "in"[0] == 'i' && "required"[0] == 'r' && SCHEMA[0] == 's' && DESCRIPTION[0] == 'd';
    }
    match Get(schema, DESCRIPTION)
    case Some(d) => GetLast(fields, DESCRIPTION, d);
    case None =>
  }

  /** A name is required just when the fragment lists it so, or the path has it; in a path every name is. */
  lemma RequiredIff(fragment: seq<Field>, location: Location, required: seq<string>, i: nat)
    requires i < |ParameterNames(Some(fragment), required)|
    ensures var (name, p) := (ParameterNames(Some(fragment), required)[i],
                              Parameters(Some(fragment), location, required)[i]);
            && p.Obj?
            && Get(p.fields, "in") == Some(Text(if location == InPath then "path" else "query"))
            && Get(p.fields, "required") == Some(Bool(
                 || location == InPath
                 || name in required
                 || match Get(fragment, "required") case Some(Arr(items)) => Text(name) in items case _ => false))
  {
    hide PropertySchema, Get, ParameterNames;
    var name := ParameterNames(Some(fragment), required)[i];
    ParameterDescribes(name, PropertySchema(Properties(fragment), name), location,
                       name in DeclaredRequired(fragment) || name in required);
  }

  predicate IsNamed(p: Json, name: string, location: string) {
    p.Obj? && Get(p.fields, "name") == Some(Text(name)) && Get(p.fields, "in") == Some(Text(location))
  }

  /** An operation's parameters are those of the path, each under its name, and then those of the query. */
  lemma PathThenQuery(route: Route)
    ensures var all := AllParameters(route);
            var inPath := ParameterNames(HoistedPart(route.params, route.id + ".path"),
                                         RoutePaths.ParamNames(RoutePaths.SegmentsOf(route.path)));
            var inQuery := ParameterNames(HoistedPart(route.query, route.id + ".query"), []);
            && |all| == |inPath| + |inQuery|
            && (forall i :: 0 <= i < |inPath| ==> IsNamed(all[i], inPath[i], "path"))
            && forall i :: 0 <= i < |inQuery| ==> IsNamed(all[|inPath| + i], inQuery[i], "query")
  {
    hide ParameterNames, HoistedPart, Parameters, RoutePaths.ParamNames, RoutePaths.SegmentsOf, IsNamed;
    PartNamed(HoistedPart(route.params, route.id + ".path"), InPath,
              RoutePaths.ParamNames(RoutePaths.SegmentsOf(route.path)));
    PartNamed(HoistedPart(route.query, route.id + ".query"), InQuery, []);
  }

  lemma PartNamed(fragment: Option<seq<Field>>, location: Location, required: seq<string>)
    ensures var (all, names) := (Parameters(fragment, location, required), ParameterNames(fragment, required));
            |all| == |names| && forall i :: 0 <= i < |all| ==> IsNamed(all[i], names[i], location.Name())
  {
    hide ParameterNames, PropertySchema, Properties, DeclaredRequired;
    var all, names := Parameters(fragment, location, required), ParameterNames(fragment, required);
    forall i | 0 <= i < |all| ensures IsNamed(all[i], names[i], location.Name()) {
      if fragment.None? {
        ParameterDescribes(names[i], STRING_SCHEMA, location, true);
      } else {
        ParameterDescribes(names[i], PropertySchema(Properties(fragment.value), names[i]), location,
                           names[i] in DeclaredRequired(fragment.value) || names[i] in required);
      }
    }
  }

  lemma KeyListed(fields: seq<Field>)
    ensures forall n :: n in KeyList(fields) <==> n in Keys(fields)
  {
    forall n | n in Keys(fields) ensures n in KeyList(fields) {
      var i :| 0 <= i < |fields| && fields[i].key == n;
      assert KeyList(fields)[i] == n;
    }
  }

  /** A raw body lists every accepted type once, as an opaque string of that media type. */
  lemma {:induction false} RawBodyListed(types: seq<string>, media: string)
    ensures Keys(RawBody(types)) == Elements(types)
    ensures media in types ==>
      Get(RawBody(types), media)
      == Some(Obj([Field(SCHEMA, Obj(STRING_SCHEMA + [Field("contentMediaType", Text(media))]))]))
  {
    if types != [] {
      var n := |types| - 1;
      assert types == types[..n] + [types[n]];
      RawBodyListed(types[..n], media);
      GetPut(RawBody(types[..n]), types[n],
             Obj([Field(SCHEMA, Obj(STRING_SCHEMA + [Field("contentMediaType", Text(types[n]))]))]), media);
    }
  }

  /** Where an operation carries everything that was hoisted for it, and its parameters. */
  lemma OperationCarries(route: Route)
    ensures var op := OperationOf(route);
            && Under(op, ["operationId"]) == Some(Text(route.id))
            && (AllParameters(route) != [] ==> Under(op, ["parameters"]) == Some(Arr(AllParameters(route))))
            && (if route.produces == "" then
                  Under(op, ["responses", Decimal(route.status), "content", JSON_MEDIA, SCHEMA])
                  == Some(Obj(HoistedRest(route.response, route.id + ".response")))
                else
                  Under(op, ["responses", Decimal(route.status), "content", route.produces, SCHEMA])
                  == Some(Obj(STRING_SCHEMA)))
            && (route.body.Some? ==>
                  Under(op, ["requestBody", "content", JSON_MEDIA, SCHEMA])
                  == Some(Obj(HoistedRest(route.body.value, route.id + ".body"))))
            && (route.body.None? && route.consumes != [] ==>
                  Under(op, ["requestBody", "content"]) == Some(Obj(RawBody(route.consumes))))
            && (route.body.None? && route.consumes == [] ==> Under(op, ["requestBody"]) == None)
  {
    hide HoistedRest, AllParameters, Decimal, Responses, BodyOf;
    assert OperationOf(route).Obj?;
    hide OperationOf;
    ParametersCarried(route);
    UnderKey(OperationOf(route), "operationId");
    UnderKey(OperationOf(route), "parameters");
    if route.produces == "" { ResponseCarried(route); } else { ProducedCarried(route); }
    if route.body.Some? { BodyCarried(route); } else { RawBodyCarried(route); }
  }

  lemma UnderKey(value: Json, key: string)
    requires value.Obj?
    ensures Under(value, [key]) == Get(value.fields, key)
  {
    assert [key][1..] == [];
  }

  lemma UnderTwo(value: Json, first: string, second: string)
    requires value.Obj? && Get(value.fields, first).Some? && Get(value.fields, first).value.Obj?
    ensures Under(value, [first, second]) == Get(Get(value.fields, first).value.fields, second)
  {
    assert [first, second][1..] == [second];
    UnderKey(Get(value.fields, first).value, second);
  }

  // --- The order of parameters ---

  /** The names not there yet, in order. */
  function NewNames(names: seq<string>, more: seq<string>): seq<string>
    decreases |more|
  {
    if more == [] then []
    else if more[0] in names then NewNames(names, more[1..])
    else [more[0]] + NewNames(names + [more[0]], more[1..])
  }

  lemma {:induction false} UnionAppends(names: seq<string>, more: seq<string>)
    requires Distinct(names)
    ensures Union(names, more) == names + NewNames(names, more)
    decreases |more|
  {
    if more != [] {
      if more[0] in names {
        UnionAppends(names, more[1..]);
      } else {
        UnionAppends(names + [more[0]], more[1..]);
        assert names + [more[0]] + NewNames(names + [more[0]], more[1..]) == names + NewNames(names, more);
      }
    }
  }

  lemma {:induction false} AllNew(names: seq<string>, more: seq<string>)
    requires Distinct(names + more)
    ensures NewNames(names, more) == more
    decreases |more|
  {
    if more != [] {
      var n := |names|;
      forall i | 0 <= i < n ensures names[i] != more[0] { assert (names + more)[i] != (names + more)[n]; }
      assert names + [more[0]] + more[1..] == names + more;
      AllNew(names + [more[0]], more[1..]);
    }
  }

  /** The order of strings: by the first character in which they differ. */
  predicate Precedes(a: string, b: string) {
    b != "" && (a == "" || a[0] < b[0] || (a[0] == b[0] && Precedes(a[1..], b[1..])))
  }

  predicate IsSorted(names: seq<string>) {
    forall i, j :: 0 <= i < j < |names| ==> !Precedes(names[j], names[i])
  }

  lemma KeysDiffer(fields: seq<Field>)
    requires IsObject(fields)
    ensures Distinct(KeyList(fields))
  {
  }

  /**
   * The parameters come in the order of the fragment's properties, then the required names it lacks: a query's, which
   * requires none, are sorted by name just when its properties are.
   */
  lemma ParameterOrder(fragment: seq<Field>, required: seq<string>)
    requires IsObject(Properties(fragment))
    ensures var keys := KeyList(Properties(fragment));
            && ParameterNames(Some(fragment), required) == keys + NewNames(keys, required)
            && (required == [] ==> (IsSorted(ParameterNames(Some(fragment), required)) <==> IsSorted(keys)))
  {
    hide Properties, IsSorted, Distinct;
    var keys := KeyList(Properties(fragment));
    KeysDiffer(Properties(fragment));
    assert [] + keys == keys == keys + [];
    AllNew([], keys);
    UnionAppends([], keys);
    UnionAppends(keys, required);
  }

  /** A fragment that declares `q` before `page` is documented in that order. */
  lemma DeclaredOrderStays()
    ensures var fragment := [Field(PROPERTIES, Obj([Field("q", Obj([])), Field("page", Obj([]))]))];
            ParameterNames(Some(fragment), []) == ["q", "page"] && !IsSorted(["q", "page"])
  {
    var fragment := [Field(PROPERTIES, Obj([Field("q", Obj([])), Field("page", Obj([]))]))];
    assert Properties(fragment) == [Field("q", Obj([])), Field("page", Obj([]))];
    assert KeyList(Properties(fragment)) == ["q", "page"];
    ParameterOrder(fragment, []);
    assert ["q", "page"] + [] == ["q", "page"];
    assert Precedes("page", "q");
  }

  // --- A table that meets every condition, with a definition that refers to itself ---

  const NODE := "Node"

  function NodeRef(): Json { Obj([Field(REF, Text(LOCAL + NODE))]) }

  function ListFragment(): seq<Field> {
    [Field("next", NodeRef()), Field(DEFS, Obj([Field(NODE, Obj([Field("next", NodeRef())]))]))]
  }

  lemma ListParts()
    ensures Defs(ListFragment()) == [Field(NODE, Obj([Field("next", NodeRef())]))]
    ensures Rest(ListFragment()) == [Field("next", NodeRef())]
  {
    hide NodeRef;
    var fields := ListFragment();
    assert fields[1..][0] == fields[1] && fields[1..][1..] == [];
    assert Without(fields[1..][1..], DEFS) == [];
    assert Without(fields[1..], DEFS) == [];
  }

  lemma ListIsClosed()
    ensures IsClosed(ListFragment())
  {
    ListParts();
    PrefixFacts(NODE);
    var good := Names(Defs(ListFragment()));
    assert Field(NODE, Obj([Field("next", NodeRef())])) in Defs(ListFragment());
    assert good(LOCAL + NODE);
    ObjectGood([Field(REF, Text(LOCAL + NODE))], good);
    OneField("next", NodeRef(), good);
  }

  function SampleRoute(id: string, verb: Verb): Route {
    Route(id, verb, "/events", None, None, None, [], ListFragment(), "", 200, [])
  }

  function SampleRoutes(): seq<Route> { [SampleRoute("events.list", GET), SampleRoute("events.add", POST)] }

  lemma PairIsGood(a: string, b: string)
    requires IsWord(a) && IsWord(b)
    ensures GoodId(a + "." + b)
  {
  }

  lemma SampleIds()
    ensures GoodIds(SampleRoutes())
  {
    hide SampleRoute, GoodId;
    var a, b := SampleRoute("events.list", GET), SampleRoute("events.add", POST);
    assert a.id == "events.list" && b.id == "events.add" by { SampleIdsOf(); }
    PairIsGood("events", "list");
    PairIsGood("events", "add");
    assert "events.list" == "events" + "." + "list" && "events.add" == "events" + "." + "add";
    assert a.id[7] != b.id[7];
  }

  lemma SampleIdsOf()
    ensures forall id, verb :: SampleRoute(id, verb).id == id && SampleRoute(id, verb).verb == verb
    ensures forall id, verb, job :: job in JobsOf(SampleRoute(id, verb)) ==> job.fragment == ListFragment()
  {
    hide ListFragment;
  }

  lemma SampleJobs()
    ensures forall job :: job in AllJobs(SampleRoutes()) ==> job.fragment == ListFragment()
  {
    hide ListFragment, SampleRoute, JobsOf;
    SampleIdsOf();
    JobsOfRoutes(SampleRoutes());
    forall job | job in AllJobs(SampleRoutes()) ensures job.fragment == ListFragment() {
      var route :| route in SampleRoutes() && job in JobsOf(route);
    }
  }

  /** The conditions of the theorems about documents can be met together. */
  lemma SampleTable()
    ensures GoodIds(SampleRoutes())
    ensures AllClosed(ListFragment(), SampleRoutes()) && AllTame(ListFragment(), SampleRoutes())
    ensures DocumentOf(ListFragment(), SampleRoutes()).Ok?
  {
    hide ListFragment, IsClosed, IsTame, OperationOf, Template, SampleRoute, AllJobs, Documents, GoodIds, AllPaths;
    SampleIds();
    SampleJobs();
    SampleIdsOf();
    ListIsClosed();
    ClosedIsTame(ListFragment());
    AllPathsExact(SampleRoutes());
  }
}
