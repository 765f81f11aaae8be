/** Route paths: segments, parameters, the OpenAPI template and the routing shape. */
module RoutePaths {
  import opened Prelude

  const SLASH: char := '/'

  /** `path.split('/')` without its empty pieces. */
  function SegmentsOf(path: string): (segments: seq<string>)
    ensures forall s :: s in segments ==> IsSegment(s)
  {
    Cut(path, "")
  }

  predicate IsSegment(s: string) { s != "" && SLASH !in s }

  /** The segments of a path whose current segment has `open` so far. */
  function Cut(path: string, open: string): (segments: seq<string>)
    requires SLASH !in open
    ensures forall s :: s in segments ==> IsSegment(s)
  {
    if path == "" then Kept(open)
    else if path[0] == SLASH then Kept(open) + Cut(path[1..], "")
    else Cut(path[1..], open + [path[0]])
  }

  function Kept(segment: string): seq<string> { if segment == "" then [] else [segment] }

  predicate IsLetter(c: char) { 'a' <= c <= 'z' || 'A' <= c <= 'Z' }
  predicate IsDigit(c: char) { '0' <= c <= '9' }

  /** `/^:([A-Za-z_][A-Za-z0-9_]*)$/`. */
  predicate IsParam(segment: string) {
    && |segment| >= 2
    && segment[0] == ':'
    && (IsLetter(segment[1]) || segment[1] == '_')
    && forall c :: c in segment[1..] ==> IsLetter(c) || IsDigit(c) || c == '_'
  }

  method PathParamNames(path: string) returns (names: seq<string>)
    ensures names == ParamNames(SegmentsOf(path))
  {
    names := [];
    var segments := SegmentsOf(path);
    for i := 0 to |segments|
      invariant names + ParamNames(segments[i..]) == ParamNames(segments)
    {
      assert segments[i..][1..] == segments[i + 1..];
      if IsParam(segments[i]) {
        names := names + [segments[i][1..]];
      }
    }
  }

  function ParamNames(segments: seq<string>): seq<string> {
    if segments == [] then []
    else (if IsParam(segments[0]) then [segments[0][1..]] else []) + ParamNames(segments[1..])
  }

  /** A name is one exactly where a segment is a colon and then it: a letter or `_`, then letters, digits and `_`. */
  lemma {:induction false} ParamNamesIff(segments: seq<string>, name: string)
    ensures name in ParamNames(segments) <==>
      && ":" + name in segments
      && name != "" && !('0' <= name[0] <= '9')
      && forall c :: c in name ==> 'a' <= c <= 'z' || 'A' <= c <= 'Z' || '0' <= c <= '9' || c == '_'
  {
    if segments != [] {
      assert segments == [segments[0]] + segments[1..];
      ParamNamesIff(segments[1..], name);
      ParamIff(segments[0], name);
    }
  }

  lemma {:induction false} ParamNamesJoin(a: seq<string>, b: seq<string>)
    ensures ParamNames(a + b) == ParamNames(a) + ParamNames(b)
  {
    hide IsParam;
    if a == [] {
      assert a + b == b;
    } else {
      assert (a + b)[1..] == a[1..] + b;
      ParamNamesJoin(a[1..], b);
    }
  }

  lemma ParamIff(segment: string, name: string)
    ensures IsParam(segment) && segment[1..] == name <==>
      && segment == ":" + name
      && name != "" && !('0' <= name[0] <= '9')
      && forall c :: c in name ==> 'a' <= c <= 'z' || 'A' <= c <= 'Z' || '0' <= c <= '9' || c == '_'
  {
    if IsParam(segment) && segment[1..] == name { assert segment == [segment[0]] + segment[1..]; }
    if segment == ":" + name { assert segment[1..] == name; }
    assert name != "" ==> name[0] in name;
  }

  function Templated(segment: string): string { if IsParam(segment) then "{" + segment[1..] + "}" else segment }

  function Shaped(segment: string): string { if IsParam(segment) then "{}" else segment }

  function Join(segments: seq<string>): string {
    if segments == [] then ""
    else if |segments| == 1 then segments[0]
    else segments[0] + [SLASH] + Join(segments[1..])
  }

  function ToOpenApiPath(path: string): string { [SLASH] + Join(Map(Templated, SegmentsOf(path))) }

  function RouteShape(path: string): string { [SLASH] + Join(Map(Shaped, SegmentsOf(path))) }

  /** No literal segment could be mistaken for a template. */
  predicate BraceFree(path: string) {
    forall s :: s in SegmentsOf(path) && !IsParam(s) ==> '{' !in s
  }

  /** What stands before the first separator, and what stands after it, are determined. */
  lemma HeadBefore(sep: char, a: string, b: string, ra: string, rb: string)
    requires sep !in a && sep !in b
    requires a + [sep] + ra == b + [sep] + rb
    ensures a == b && ra == rb
  {
    var s := a + [sep] + ra;
    SeparatorFirst(sep, a, ra, b, rb);
    SeparatorFirst(sep, b, rb, a, ra);
    assert ra == s[|a| + 1..] && rb == s[|b| + 1..];
    assert a == s[..|a|] && b == s[..|b|];
  }

  lemma SeparatorFirst(sep: char, a: string, ra: string, b: string, rb: string)
    requires sep !in a
    requires a + [sep] + ra == b + [sep] + rb
    ensures |a| <= |b|
  {
    var s := b + [sep] + rb;
    assert s[|b|] == sep;
    assert forall i :: 0 <= i < |a| ==> (a + [sep] + ra)[i] == a[i];
  }

  /** Joined segments can be told apart again. */
  lemma {:induction false} JoinInjective(a: seq<string>, b: seq<string>)
    requires forall s :: s in a || s in b ==> IsSegment(s)
    requires Join(a) == Join(b)
    ensures a == b
  {
    if a == [] || b == [] {
      JoinEmpty(a);
      JoinEmpty(b);
    } else if |a| == 1 || |b| == 1 {
      JoinSlash(a);
      JoinSlash(b);
    } else {
      assert IsSegment(a[0]) && IsSegment(b[0]) by { assert a[0] in a && b[0] in b; }
      HeadBefore(SLASH, a[0], b[0], Join(a[1..]), Join(b[1..]));
      JoinInjective(a[1..], b[1..]);
      assert a == [a[0]] + a[1..] && b == [b[0]] + b[1..];
    }
  }

  lemma JoinEmpty(a: seq<string>)
    requires forall s :: s in a ==> IsSegment(s)
    ensures Join(a) == "" <==> a == []
  {
    assert a != [] ==> a[0] in a;
  }

  lemma JoinSlash(a: seq<string>)
    requires forall s :: s in a ==> IsSegment(s)
    ensures |a| >= 2 <==> SLASH in Join(a)
  {
    assert a != [] ==> a[0] in a;
    if |a| >= 2 { assert (a[0] + [SLASH] + Join(a[1..]))[|a[0]|] == SLASH; }
  }

  lemma TemplatedInjective(s: string, t: string)
    requires IsSegment(s) && IsSegment(t) && Templated(s) == Templated(t)
    requires !IsParam(s) ==> '{' !in s
    requires !IsParam(t) ==> '{' !in t
    ensures s == t
  {
    assert IsParam(s) ==> Templated(s)[0] == '{';
    assert IsParam(t) ==> Templated(t)[0] == '{';
    if IsParam(s) && IsParam(t) {
      var x := Templated(s);
      assert s[1..] == x[1..|x| - 1] && t[1..] == x[1..|x| - 1];
      assert s == [s[0]] + s[1..] && t == [t[0]] + t[1..];
    }
  }

  lemma EachSegments(f: string -> string, segments: seq<string>)
    requires forall s :: s in segments ==> IsSegment(f(s))
    ensures forall s :: s in Map(f, segments) ==> IsSegment(s)
  {
  }

  lemma ConvertedAreSegments(s: string)
    requires IsSegment(s)
    ensures IsSegment(Templated(s)) && IsSegment(Shaped(s))
  {
    if IsParam(s) {
      assert SLASH !in s[1..] by { assert s == [s[0]] + s[1..]; }
    }
  }

  /** Two paths convert to one text just when their segments convert alike. */
  lemma ConvertedAlikeIff(f: string -> string, p: string, q: string)
    requires f == Templated || f == Shaped
    ensures Join(Map(f, SegmentsOf(p))) == Join(Map(f, SegmentsOf(q)))
            <==> Map(f, SegmentsOf(p)) == Map(f, SegmentsOf(q))
  {
    forall s | s in SegmentsOf(p) || s in SegmentsOf(q) ensures IsSegment(f(s)) { ConvertedAreSegments(s); }
    EachSegments(f, SegmentsOf(p));
    EachSegments(f, SegmentsOf(q));
    if Join(Map(f, SegmentsOf(p))) == Join(Map(f, SegmentsOf(q))) {
      JoinInjective(Map(f, SegmentsOf(p)), Map(f, SegmentsOf(q)));
    }
  }

  /** Position by position, both segments are parameters or neither is. */
  predicate SameParams(a: seq<string>, b: seq<string>) {
    |a| == |b| && forall i :: 0 <= i < |a| ==> (IsParam(a[i]) <==> IsParam(b[i]))
  }

  /** Two paths with one template have one shape exactly when they have parameters in the same places. */
  lemma TemplateAndShapeIff(p: string, q: string)
    requires ToOpenApiPath(p) == ToOpenApiPath(q)
    ensures RouteShape(p) == RouteShape(q) <==> SameParams(SegmentsOf(p), SegmentsOf(q))
  {
    hide SegmentsOf, IsParam;
    var a, b := SegmentsOf(p), SegmentsOf(q);
    assert Join(Map(Templated, a)) == ToOpenApiPath(p)[1..] && Join(Map(Templated, b)) == ToOpenApiPath(q)[1..];
    assert Join(Map(Shaped, a)) == RouteShape(p)[1..] && Join(Map(Shaped, b)) == RouteShape(q)[1..];
    ConvertedAlikeIff(Templated, p, q);
    ConvertedAlikeIff(Shaped, p, q);
    assert |a| == |Map(Templated, a)| == |b|;
    forall i | 0 <= i < |a| ensures Shaped(a[i]) == Shaped(b[i]) <==> (IsParam(a[i]) <==> IsParam(b[i])) {
      assert Map(Templated, a)[i] == Map(Templated, b)[i];
      ShapedAlikeIff(a[i], b[i]);
    }
    assert Map(Shaped, a) == Map(Shaped, b) <==> forall i :: 0 <= i < |a| ==> Shaped(a[i]) == Shaped(b[i]);
  }

  /** A literal that reads like a parameter's template never has the parameter's shape: its name is not empty. */
  lemma ShapedAlikeIff(s: string, t: string)
    requires Templated(s) == Templated(t)
    ensures Shaped(s) == Shaped(t) <==> (IsParam(s) <==> IsParam(t))
  {
    assert IsParam(s) ==> |Templated(s)| > 2;
    assert IsParam(t) ==> |Templated(t)| > 2;
  }

  /** Two brace-free paths with one template are one path, segment for segment. */
  lemma TemplateTellsPathsApart(p: string, q: string)
    requires BraceFree(p) && BraceFree(q) && ToOpenApiPath(p) == ToOpenApiPath(q)
    ensures SegmentsOf(p) == SegmentsOf(q) && RouteShape(p) == RouteShape(q)
  {
    var a, b := Map(Templated, SegmentsOf(p)), Map(Templated, SegmentsOf(q));
    assert Join(a) == ToOpenApiPath(p)[1..] && Join(b) == ToOpenApiPath(q)[1..];
    ConvertedAlikeIff(Templated, p, q);
    forall i | 0 <= i < |a| ensures SegmentsOf(p)[i] == SegmentsOf(q)[i] {
      TemplatedInjective(SegmentsOf(p)[i], SegmentsOf(q)[i]);
    }
    assert SegmentsOf(p) == SegmentsOf(q);
  }

  lemma {:induction false} CutLiteral(segment: string, open: string)
    requires SLASH !in segment && SLASH !in open
    ensures Cut(segment, open) == Kept(open + segment)
  {
    if segment == "" {
      assert open + segment == open;
    } else {
      assert segment == [segment[0]] + segment[1..];
      CutLiteral(segment[1..], open + [segment[0]]);
      assert open + [segment[0]] + segment[1..] == open + segment;
    }
  }

  lemma {:induction false} CutMore(segment: string, open: string, more: string)
    requires SLASH !in segment && SLASH !in open
    ensures Cut(segment + [SLASH] + more, open) == Kept(open + segment) + Cut(more, "")
  {
    var path := segment + [SLASH] + more;
    if segment == "" {
      assert open + segment == open && path[0] == SLASH && path[1..] == more;
    } else {
      assert segment == [segment[0]] + segment[1..];
      assert path[0] == segment[0] && path[1..] == segment[1..] + [SLASH] + more;
      CutMore(segment[1..], open + [segment[0]], more);
      assert open + [segment[0]] + segment[1..] == open + segment;
    }
  }

  /** The segments of joined segments are those segments. */
  lemma {:induction false} SegmentsOfJoined(segments: seq<string>)
    requires forall s :: s in segments ==> IsSegment(s)
    ensures SegmentsOf(Join(segments)) == segments
  {
    hide Cut, Kept;
    if segments == [] {
      NothingCut();
    } else {
      assert segments == [segments[0]] + segments[1..] && IsSegment(segments[0]);
      assert "" + segments[0] == segments[0];
      KeptSegment(segments[0]);
      if |segments| == 1 {
        CutLiteral(segments[0], "");
      } else {
        CutMore(segments[0], "", Join(segments[1..]));
        SegmentsOfJoined(segments[1..]);
      }
    }
  }

  lemma NothingCut()
    ensures Cut("", "") == []
  {
  }

  lemma KeptSegment(segment: string)
    requires segment != ""
    ensures Kept(segment) == [segment]
  {
  }

  lemma TwoSegments(first: string, second: string)
    requires IsSegment(first) && IsSegment(second)
    ensures SegmentsOf([SLASH] + first + [SLASH] + second) == [first, second]
  {
    assert [SLASH] + first + [SLASH] + second == "" + [SLASH] + (first + [SLASH] + second);
    CutMore("", "", first + [SLASH] + second);
    CutMore(first, "", second);
    CutLiteral(second, "");
    assert "" + first == first && "" + second == second && "" + "" == "";
  }

  lemma SampleSegments()
    ensures SegmentsOf("/a/:id") == ["a", ":id"] && SegmentsOf("/a/{id}") == ["a", "{id}"]
    ensures IsParam(":id") && !IsParam("a") && !IsParam("{id}")
  {
    TwoSegments("a", ":id");
    TwoSegments("a", "{id}");
    hide SegmentsOf;
    assert "/a/:id" == [SLASH] + "a" + [SLASH] + ":id";
    assert "/a/{id}" == [SLASH] + "a" + [SLASH] + "{id}";
  }

  /** A literal `{id}` segment and a parameter `:id` give one template but two shapes. */
  lemma BracesMatter()
    ensures ToOpenApiPath("/a/:id") == ToOpenApiPath("/a/{id}")
    ensures RouteShape("/a/:id") != RouteShape("/a/{id}")
  {
    SampleSegments();
    hide SegmentsOf, Join, IsParam;
    var p, q := ["a", ":id"], ["a", "{id}"];
    assert Map(Templated, p) == q == Map(Templated, q) by {
      assert ":id"[1..] == "id";
      assert "{" + "id" + "}" == "{id}";
    }
    assert Map(Shaped, p) == ["a", "{}"] && Map(Shaped, q) == q;
    assert |"{}"| != |"{id}"|;
    assert q[1] != "{}";
    assert RouteShape("/a/:id")[1..] == Join(["a", "{}"]) && RouteShape("/a/{id}")[1..] == Join(q);
    JoinApart(["a", "{}"], q);
  }

  lemma JoinApart(a: seq<string>, b: seq<string>)
    requires forall s :: s in a || s in b ==> IsSegment(s)
    requires a != b
    ensures Join(a) != Join(b)
  {
    if Join(a) == Join(b) { JoinInjective(a, b); }
  }
}
