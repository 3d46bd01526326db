/** internal/specgen/specgen.go, the paths section: discovered paths become OpenAPI path templates. */
module OASPath {
  import opened Text
  import opened MatchPath

  datatype PathParam = PathParam(name: string, position: nat)

  function CountIds(segs: seq<string>): nat {
    if segs == [] then 0
    else CountIds(segs[..|segs| - 1]) + (if segs[|segs| - 1] == "{id}" then 1 else 0)
  }

  function ParamName(n: nat): string {
    if n > 1 then "id" + Decimal(n) else "id"
  }

  /** The template segment at position i: the k-th placeholder is named after k. */
  function OasSegment(segs: seq<string>, i: nat): string
    requires i < |segs|
  {
    if segs[i] == "{id}" then "{" + ParamName(CountIds(segs[..i + 1])) + "}" else segs[i]
  }

  function OasSegments(segs: seq<string>): (r: seq<string>)
    ensures |r| == |segs|
  {
    seq(|segs|, i requires 0 <= i < |segs| => OasSegment(segs, i))
  }

  function OasPathOf(discoveredPath: string): string {
    PathOf(OasSegments(Split(TrimSlashes(discoveredPath))))
  }

  function ParamsOf(segs: seq<string>): seq<PathParam> {
    if segs == [] then []
    else
      var n := |segs| - 1;
      ParamsOf(segs[..n]) + (if segs[n] == "{id}" then [PathParam(ParamName(CountIds(segs)), n)] else [])
  }

  method ConvertToOASPath(discoveredPath: string) returns (oasPath: string, params: seq<PathParam>)
    ensures oasPath == OasPathOf(discoveredPath)
    ensures params == ParamsOf(Split(TrimSlashes(discoveredPath)))
  {
    var original := Split(TrimSlashes(discoveredPath));
    hide Split, TrimSlashes;
    var segments := original;
    params := [];
    var idCount := 0;
    for i := 0 to |segments|
      invariant |segments| == |original|
      invariant idCount == CountIds(original[..i])
      invariant params == ParamsOf(original[..i])
      invariant forall j :: 0 <= j < i ==> segments[j] == OasSegment(original, j)
      invariant forall j :: i <= j < |segments| ==> segments[j] == original[j]
    {
      assert original[..i + 1][..i] == original[..i];
      if segments[i] == "{id}" {
        idCount := idCount + 1;
        var paramName := "id";
        if idCount > 1 {
          paramName := "id" + Decimal(idCount);
        }
        segments := segments[i := "{" + paramName + "}"];
        params := params + [PathParam(paramName, i)];
      }
    }
    assert original[..|original|] == original;
    assert segments == OasSegments(original);
    return "/" + Join(segments), params;
  }

  // ---------- Parameters ----------

  lemma ParamNameInjective(m: nat, n: nat)
    requires 1 <= m < n
    ensures ParamName(m) != ParamName(n)
  {
    if m > 1 && Decimal(m) == Decimal(n) {
      DecimalInjective(m, n);
    }
    assert ParamName(n)[2..] == Decimal(n);
    assert m > 1 ==> ParamName(m)[2..] == Decimal(m);
  }

  lemma PrefixStep(segs: seq<string>, n: nat)
    requires n < |segs|
    ensures CountIds(segs[..n + 1]) == CountIds(segs[..n]) + (if segs[n] == "{id}" then 1 else 0)
    ensures ParamsOf(segs[..n + 1]) ==
      ParamsOf(segs[..n]) + (if segs[n] == "{id}" then [PathParam(ParamName(CountIds(segs[..n + 1])), n)] else [])
  {
    hide ParamName;
    assert segs[..n + 1][..n] == segs[..n];
  }

  lemma {:induction false} ParamCount(segs: seq<string>, n: nat)
    requires n <= |segs|
    ensures |ParamsOf(segs[..n])| == CountIds(segs[..n])
    decreases n
  {
    if n > 0 {
      hide ParamName;
      PrefixStep(segs, n - 1);
      ParamCount(segs, n - 1);
    } else {
      assert segs[..0] == [];
    }
  }

  predicate ParamFor(segs: seq<string>, p: PathParam, k: nat) {
    p.position < |segs| && segs[p.position] == "{id}" && CountIds(segs[..p.position + 1]) == k + 1
    && p.name == ParamName(k + 1)
  }

  /** The k-th parameter is named after k and points at the k-th placeholder of the discovered path. */
  lemma {:induction false} ParamAt(segs: seq<string>, n: nat, k: nat)
    requires n <= |segs| && k < |ParamsOf(segs[..n])|
    ensures ParamFor(segs, ParamsOf(segs[..n])[k], k)
    decreases n
  {
    hide ParamName;
    if n > 0 {
      PrefixStep(segs, n - 1);
      ParamCount(segs, n - 1);
      hide ParamsOf, CountIds;
      if k < |ParamsOf(segs[..n - 1])| {
        ParamAt(segs, n - 1, k);
      }
    }
  }

  lemma ParamNames(segs: seq<string>, j: nat, k: nat)
    requires j < k < |ParamsOf(segs)|
    ensures ParamsOf(segs)[j].name != ParamsOf(segs)[k].name
  {
    hide ParamName;
    assert segs[..|segs|] == segs;
    ParamAt(segs, |segs|, j);
    ParamAt(segs, |segs|, k);
    ParamNameInjective(j + 1, k + 1);
  }

  lemma ParamSegment(segs: seq<string>, k: nat)
    requires k < |ParamsOf(segs)|
    ensures ParamsOf(segs)[k].position < |segs|
    ensures OasSegment(segs, ParamsOf(segs)[k].position) == "{" + ParamsOf(segs)[k].name + "}"
  {
    hide ParamName;
    assert segs[..|segs|] == segs;
    ParamAt(segs, |segs|, k);
  }

  /** Section 4.7.9 (Path Item Object) of OpenAPI 3.0.3: parameter names are pairwise distinct,
      and each names its own template segment; there is one for every placeholder. */
  lemma ParamsDistinct(segs: seq<string>)
    ensures |ParamsOf(segs)| == CountIds(segs)
    ensures forall j, k :: 0 <= j < k < |ParamsOf(segs)| ==> ParamsOf(segs)[j].name != ParamsOf(segs)[k].name
    ensures forall k :: 0 <= k < |ParamsOf(segs)| ==>
      var p := ParamsOf(segs)[k];
      p.position < |segs| && OasSegment(segs, p.position) == "{" + p.name + "}"
  {
    hide ParamName, OasSegment;
    assert segs[..|segs|] == segs;
    ParamCount(segs, |segs|);
    forall j, k | 0 <= j < k < |ParamsOf(segs)|
      ensures ParamsOf(segs)[j].name != ParamsOf(segs)[k].name
    {
      ParamNames(segs, j, k);
    }
    forall k | 0 <= k < |ParamsOf(segs)|
      ensures ParamsOf(segs)[k].position < |segs|
      ensures OasSegment(segs, ParamsOf(segs)[k].position) == "{" + ParamsOf(segs)[k].name + "}"
    {
      ParamSegment(segs, k);
    }
  }

  // ---------- The conversion is undone by NormalizeTarget ----------

  /** The paths the round trip is meant for: one leading slash, no trailing one,
      and no bracketed segment other than the placeholder. */
  predicate Convertible(path: string) {
    path == "/" + TrimSlashes(path) && OnlyPlaceholders(Split(TrimSlashes(path)))
  }

  predicate OnlyPlaceholders(segs: seq<string>) {
    forall i :: 0 <= i < |segs| && Bracketed(segs[i]) ==> segs[i] == "{id}"
  }

  lemma OasSegmentKeepsTarget(segs: seq<string>, i: nat)
    requires i < |segs| && NoSlash(segs[i])
    ensures NoSlash(OasSegment(segs, i)) && TargetSegment(OasSegment(segs, i)) == TargetSegment(segs[i])
  {
    if segs[i] == "{id}" {
      var name := ParamName(CountIds(segs[..i + 1]));
      assert forall j :: 0 <= j < |name| ==> name[j] != '/';
      hide ParamName, CountIds;
      var t := "{" + name + "}";
      assert forall j :: 0 <= j < |t| ==> t[j] != '/';
      assert Bracketed(t);
    }
  }

  lemma OasSegmentsKeepTargets(segs: seq<string>)
    requires Segments(segs)
    ensures Segments(OasSegments(segs))
    ensures TargetSegments(OasSegments(segs)) == TargetSegments(segs)
  {
    hide OasSegment, TargetSegment, NoSlash;
    var t := OasSegments(segs);
    forall i | 0 <= i < |segs|
      ensures NoSlash(t[i]) && TargetSegment(t[i]) == TargetSegment(segs[i])
    {
      OasSegmentKeepsTarget(segs, i);
    }
  }

  lemma NormalizedOasPath(segs: seq<string>)
    requires |segs| >= 1 && Segments(segs)
    ensures NormalizedTarget(PathOf(OasSegments(segs))) == PathOf(TargetSegments(segs))
  {
    OasSegmentsKeepTargets(segs);
    NormalizedTargetOfPath(OasSegments(segs));
  }

  lemma TargetsNoEdge(inner: string)
    requires NoEdgeSlash(inner)
    ensures NoEdgeSlash(Join(TargetSegments(Split(inner))))
  {
    var targets := TargetSegments(Split(inner));
    if inner == "" {
      assert targets == [""];
    } else {
      SplitEdges(inner);
      JoinNoEdge(targets);
    }
  }

  /** NormalizeTarget(convertToOASPath(p)) gives back p exactly on the convertible paths. */
  lemma RoundTripIff(path: string)
    ensures NormalizedTarget(OasPathOf(path)) == path <==> Convertible(path)
  {
    var inner := TrimSlashes(path);
    var segs := Split(inner);
    var targets := TargetSegments(segs);
    TrimSlashesNoEdge(path);
    NormalizedOasPath(segs);
    TargetsNoEdge(inner);
    JoinSplit(inner);
    TrimSlashesOfRooted(Join(targets));
    SplitJoin(targets);
    RoundTripSegments(path, inner, segs);
  }

  lemma RoundTripSegments(path: string, inner: string, segs: seq<string>)
    requires segs == Split(inner) && Join(segs) == inner == TrimSlashes(path)
    requires TrimSlashes(PathOf(TargetSegments(segs))) == Join(TargetSegments(segs))
    requires Split(Join(TargetSegments(segs))) == TargetSegments(segs)
    ensures PathOf(TargetSegments(segs)) == path <==> Convertible(path)
  {
    var targets := TargetSegments(segs);
    if Convertible(path) {
      assert targets == segs;
    }
    if PathOf(targets) == path {
      assert targets == segs;
      assert forall i :: 0 <= i < |segs| ==> TargetSegment(segs[i]) == targets[i];
    }
  }

  lemma OasPathInjective(p: string, q: string)
    requires Convertible(p) && Convertible(q)
    requires OasPathOf(p) == OasPathOf(q)
    ensures p == q
  {
    RoundTripIff(p);
    RoundTripIff(q);
  }

  // ---------- Shared templates ----------

  /** Position i gets the same template segment on both paths: the same literal, placeholders of the
      same number, or a placeholder and a literal that spells its parameter. */
  predicate Meets(ps: seq<string>, qs: seq<string>, i: nat)
    requires i < |ps| == |qs|
  {
    if ps[i] == "{id}" && qs[i] == "{id}" then CountIds(ps[..i + 1]) == CountIds(qs[..i + 1])
    else if ps[i] == "{id}" then qs[i] == "{" + ParamName(CountIds(ps[..i + 1])) + "}"
    else if qs[i] == "{id}" then ps[i] == "{" + ParamName(CountIds(qs[..i + 1])) + "}"
    else ps[i] == qs[i]
  }

  predicate SameTemplate(p: string, q: string) {
    var ps, qs := Split(TrimSlashes(p)), Split(TrimSlashes(q));
    |ps| == |qs| && forall i :: 0 <= i < |ps| ==> Meets(ps, qs, i)
  }

  lemma MeetsIff(ps: seq<string>, qs: seq<string>, i: nat)
    requires i < |ps| == |qs|
    ensures OasSegment(ps, i) == OasSegment(qs, i) <==> Meets(ps, qs, i)
  {
    if ps[i] == "{id}" && qs[i] == "{id}" {
      var m, n := CountIds(ps[..i + 1]), CountIds(qs[..i + 1]);
      assert ps[..i + 1][i] == "{id}" && qs[..i + 1][i] == "{id}";
      assert m >= 1 && n >= 1;
      if m < n {
        ParamNameInjective(m, n);
      } else if n < m {
        ParamNameInjective(n, m);
      }
      hide CountIds, ParamName;
      assert OasSegment(ps, i)[1..|OasSegment(ps, i)| - 1] == ParamName(m);
      assert OasSegment(qs, i)[1..|OasSegment(qs, i)| - 1] == ParamName(n);
    }
  }

  lemma OasPathEqual(ps: seq<string>, qs: seq<string>)
    requires |ps| >= 1 && |qs| >= 1 && Segments(ps) && Segments(qs)
    ensures PathOf(OasSegments(ps)) == PathOf(OasSegments(qs)) <==> OasSegments(ps) == OasSegments(qs)
  {
    OasSegmentsKeepTargets(ps);
    OasSegmentsKeepTargets(qs);
    SplitJoin(OasSegments(ps));
    SplitJoin(OasSegments(qs));
    hide OasSegments, Join, Split;
    assert PathOf(OasSegments(ps))[1..] == Join(OasSegments(ps));
    assert PathOf(OasSegments(qs))[1..] == Join(OasSegments(qs));
  }

  /** Two paths share a template exactly when all their positions meet. */
  lemma TemplateEqualIff(p: string, q: string)
    ensures OasPathOf(p) == OasPathOf(q) <==> SameTemplate(p, q)
  {
    var ps, qs := Split(TrimSlashes(p)), Split(TrimSlashes(q));
    OasPathEqual(ps, qs);
    hide Split, TrimSlashes;
    if |ps| == |qs| {
      forall i | 0 <= i < |ps|
        ensures OasSegment(ps, i) == OasSegment(qs, i) <==> Meets(ps, qs, i)
      {
        MeetsIff(ps, qs, i);
      }
      hide OasSegment, Meets;
      assert forall i :: 0 <= i < |ps| ==> OasSegments(ps)[i] == OasSegment(ps, i) && OasSegments(qs)[i] == OasSegment(qs, i);
    }
  }

  /** Without bracketed segments other than the placeholder, paths share a template exactly when they
      differ at most in slashes at their ends. */
  lemma PlainTemplateEqualIff(p: string, q: string)
    requires OnlyPlaceholders(Split(TrimSlashes(p))) && OnlyPlaceholders(Split(TrimSlashes(q)))
    ensures SameTemplate(p, q) <==> TrimSlashes(p) == TrimSlashes(q)
  {
    var ps, qs := Split(TrimSlashes(p)), Split(TrimSlashes(q));
    JoinSplit(TrimSlashes(p));
    JoinSplit(TrimSlashes(q));
    hide Split, TrimSlashes;
    if SameTemplate(p, q) {
      forall i | 0 <= i < |ps|
        ensures ps[i] == qs[i]
      {
        assert Meets(ps, qs, i);
        NameIsBracketed(CountIds(ps[..i + 1]));
        NameIsBracketed(CountIds(qs[..i + 1]));
        hide CountIds, ParamName;
      }
      assert ps == qs;
    }
  }

  lemma NameIsBracketed(n: nat)
    ensures Bracketed("{" + ParamName(n) + "}")
  {}

  lemma LiteralSegmentsCollide()
    ensures OasSegments(["{id}", "{id}"]) == OasSegments(["{id}", "{id2}"])
  {
    var a, b := ["{id}", "{id}"], ["{id}", "{id2}"];
    assert a[..1] == ["{id}"] == b[..1] && a[..2] == a;
    assert ["{id}"][..0] == [];
    assert CountIds(["{id}"]) == 1;
    assert CountIds(a) == 2;
    assert Decimal(2) == "2";
    assert OasSegment(a, 1) == "{id2}";
  }

  lemma SegmentsOfTwo(first: string, second: string)
    requires NoSlash(first) && NoSlash(second) && first != "" && second != ""
    ensures Split(TrimSlashes("/" + first + "/" + second)) == [first, second]
  {
    var segs := [first, second];
    assert segs[1..] == [second];
    assert Join(segs) == first + "/" + second;
    SplitJoin(segs);
    JoinNoEdge(segs);
    hide Split, Join, TrimSlashes;
    TrimSlashesOfRooted(Join(segs));
    assert "/" + (first + "/" + second) == "/" + first + "/" + second;
  }

  /** Why the bracket condition is needed: two discovered paths that share one template. */
  lemma LiteralBracketsCollide()
    ensures OasPathOf("/{id}/{id}") == OasPathOf("/{id}/{id2}")
  {
    assert "/" + "{id}" + "/" + "{id}" == "/{id}/{id}" && "/" + "{id}" + "/" + "{id2}" == "/{id}/{id2}";
    SegmentsOfTwo("{id}", "{id}");
    SegmentsOfTwo("{id}", "{id2}");
    LiteralSegmentsCollide();
    hide Split, TrimSlashes, OasSegments;
  }

  /** Why the slash condition is needed: a trailing slash does not reach the template. */
  lemma TrailingSlashCollides()
    ensures OasPathOf("/a/") == OasPathOf("/a")
  {
    assert TrimLeft("/a/") == TrimLeft("a/") == "a/" by {
      assert "/a/"[1..] == "a/";
    }
    assert TrimRight("a/") == TrimRight("a") == "a" by {
      assert "a/"[..1] == "a";
    }
    assert TrimLeft("/a") == TrimLeft("a") == "a" by {
      assert "/a"[1..] == "a";
    }
  }

  // ---------- buildPaths ----------

  datatype Op = Op(httpMethod: string, resourcePath: string, payload: int)
  datatype ItemValue = Parameters(params: seq<PathParam>) | OperationItem(op: Op)
  datatype PathGroup = PathGroup(oasPath: string, params: seq<PathParam>, operations: seq<Op>)

  type PathItem = map<string, ItemValue>

  function OpsAt(ops: seq<Op>, path: string): seq<Op> {
    if ops == [] then []
    else
      var n := |ops| - 1;
      OpsAt(ops[..n], path) + (if ops[n].resourcePath == path then [ops[n]] else [])
  }

  function BaseItem(params: seq<PathParam>): PathItem {
    if params == [] then map[] else map["parameters" := Parameters(params)]
  }

  /** A path item: the parameters, then one entry per operation, a later one replacing an earlier one. */
  function WithOps(item: PathItem, ops: seq<Op>): PathItem {
    if ops == [] then item
    else
      var n := |ops| - 1;
      WithOps(item, ops[..n])[Lower(ops[n].httpMethod) := OperationItem(ops[n])]
  }

  function ItemFor(ops: seq<Op>, path: string): PathItem {
    WithOps(BaseItem(ParamsOf(Split(TrimSlashes(path)))), OpsAt(ops, path))
  }

  function ResourcePaths(ops: seq<Op>): set<string> {
    set op | op in ops :: op.resourcePath
  }

  predicate GroupsOf(ops: seq<Op>, groups: map<string, PathGroup>) {
    && groups.Keys == ResourcePaths(ops)
    && forall path :: path in groups ==> groups[path] == GroupFor(ops, path)
  }

  function GroupFor(ops: seq<Op>, path: string): PathGroup {
    PathGroup(OasPathOf(path), ParamsOf(Split(TrimSlashes(path))), OpsAt(ops, path))
  }

  lemma {:induction false} OpsAtAbsent(ops: seq<Op>, path: string)
    requires path !in ResourcePaths(ops)
    ensures OpsAt(ops, path) == []
    decreases |ops|
  {
    if ops != [] {
      assert ops[|ops| - 1] in ops;
      OpsAtAbsent(ops[..|ops| - 1], path);
    }
  }

  lemma GroupForSnoc(ops: seq<Op>, op: Op, path: string)
    ensures GroupFor(ops + [op], path) ==
      if op.resourcePath == path then GroupFor(ops, path).(operations := OpsAt(ops, path) + [op])
      else GroupFor(ops, path)
    ensures ResourcePaths(ops + [op]) == ResourcePaths(ops) + {op.resourcePath}
  {
    assert (ops + [op])[..|ops|] == ops;
    forall p | p in ResourcePaths(ops) + {op.resourcePath}
      ensures p in ResourcePaths(ops + [op])
    {
      if p == op.resourcePath {
        assert (ops + [op])[|ops|] == op;
      } else {
        var o :| o in ops && o.resourcePath == p;
        assert o in ops + [op];
      }
    }
  }

  lemma EmptyGroups()
    ensures ResourcePaths([]) == {}
  {}

  method GroupByPath(ops: seq<Op>) returns (groups: map<string, PathGroup>)
    ensures GroupsOf(ops, groups)
  {
    hide OasPathOf, ParamsOf, Split, OpsAt, ResourcePaths;
    groups := map[];
    EmptyGroups();
    for i := 0 to |ops|
      invariant GroupsOf(ops[..i], groups)
    {
      var op := ops[i];
      ghost var before := ops[..i];
      assert ops[..i + 1] == before + [op];
      if op.resourcePath !in groups {
        OpsAtAbsent(before, op.resourcePath);
        var oasPath, params := ConvertToOASPath(op.resourcePath);
        groups := groups[op.resourcePath := PathGroup(oasPath, params, [])];
      }
      var g := groups[op.resourcePath];
      assert g == GroupFor(before, op.resourcePath);
      groups := groups[op.resourcePath := g.(operations := g.operations + [op])];
      GroupForSnoc(before, op, op.resourcePath);
      forall path | path in groups
        ensures groups[path] == GroupFor(before + [op], path)
      {
        GroupForSnoc(before, op, path);
      }
    }
    assert ops[..|ops|] == ops;
  }

  method BuildItem(pg: PathGroup) returns (pathItem: PathItem)
    ensures pathItem == WithOps(BaseItem(pg.params), pg.operations)
  {
    pathItem := map[];
    if |pg.params| > 0 {
      pathItem := pathItem["parameters" := Parameters(pg.params)];
    }
    for i := 0 to |pg.operations|
      invariant pathItem == WithOps(BaseItem(pg.params), pg.operations[..i])
    {
      assert pg.operations[..i + 1][..i] == pg.operations[..i];
      pathItem := pathItem[Lower(pg.operations[i].httpMethod) := OperationItem(pg.operations[i])];
    }
    assert pg.operations[..|pg.operations|] == pg.operations;
  }

  predicate ShownAt(ops: seq<Op>, paths: map<string, PathItem>, t: string, path: string) {
    t in paths && OasPathOf(path) == t && paths[t] == ItemFor(ops, path)
  }

  /** Every template is there, and each stored item is the item of some discovered path with that template. */
  predicate BuiltFrom(ops: seq<Op>, paths: map<string, PathItem>) {
    && (forall path :: path in ResourcePaths(ops) ==> OasPathOf(path) in paths)
    && (forall t :: t in paths ==> exists path :: path in ResourcePaths(ops) && ShownAt(ops, paths, t, path))
  }

  /** The document so far, when the paths in pending have not been visited. */
  predicate BuiltBut(ops: seq<Op>, paths: map<string, PathItem>, pending: set<string>) {
    && (forall path :: path in ResourcePaths(ops) && path !in pending ==> OasPathOf(path) in paths)
    && (forall t :: t in paths ==> exists path :: path in ResourcePaths(ops) && ShownAt(ops, paths, t, path))
  }

  lemma BuiltStep(ops: seq<Op>, paths: map<string, PathItem>, pending: set<string>, path: string)
    requires BuiltBut(ops, paths, pending) && path in pending && path in ResourcePaths(ops)
    ensures BuiltBut(ops, paths[OasPathOf(path) := ItemFor(ops, path)], pending - {path})
  {
    hide OasPathOf, ItemFor, ResourcePaths;
    var after := paths[OasPathOf(path) := ItemFor(ops, path)];
    forall t | t in after
      ensures exists p :: p in ResourcePaths(ops) && ShownAt(ops, after, t, p)
    {
      if t == OasPathOf(path) {
        assert ShownAt(ops, after, t, path);
      } else {
        var p :| p in ResourcePaths(ops) && ShownAt(ops, paths, t, p);
        assert ShownAt(ops, after, t, p);
      }
    }
  }

  lemma GroupMeans(ops: seq<Op>, groups: map<string, PathGroup>, path: string)
    requires GroupsOf(ops, groups) && path in groups
    ensures path in ResourcePaths(ops) && groups[path].oasPath == OasPathOf(path)
    ensures WithOps(BaseItem(groups[path].params), groups[path].operations) == ItemFor(ops, path)
  {
    hide WithOps, OasPathOf;
  }

  lemma NothingBuilt(ops: seq<Op>, groups: map<string, PathGroup>)
    requires GroupsOf(ops, groups)
    ensures BuiltBut(ops, map[], groups.Keys)
  {
    hide OasPathOf;
  }

  lemma AllBuilt(ops: seq<Op>, paths: map<string, PathItem>)
    requires BuiltBut(ops, paths, {})
    ensures BuiltFrom(ops, paths)
  {
    hide OasPathOf, ShownAt;
  }

  /** Path groups are visited in arbitrary order. */
  method BuildPaths(ops: seq<Op>) returns (paths: map<string, PathItem>)
    ensures BuiltFrom(ops, paths)
  {
    hide *;
    var groups := GroupByPath(ops);
    paths := map[];
    var pending := groups.Keys;
    NothingBuilt(ops, groups);
    while pending != {}
      invariant pending <= groups.Keys
      invariant BuiltBut(ops, paths, pending)
      decreases |pending|
    {
      var path :| path in pending;
      var pg := groups[path];
      GroupMeans(ops, groups, path);
      var pathItem := BuildItem(pg);
      BuiltStep(ops, paths, pending, path);
      paths := paths[pg.oasPath := pathItem];
      pending := pending - {path};
    }
    AllBuilt(ops, paths);
  }

  /** Operations of one path with the same lower-cased method are the same operation. */
  predicate OnePerMethod(ops: seq<Op>) {
    forall a, b :: a in ops && b in ops && a.resourcePath == b.resourcePath && Lower(a.httpMethod) == Lower(b.httpMethod) ==> a == b
  }

  lemma ItemSnoc(base: PathItem, ops: seq<Op>, op: Op, path: string)
    ensures WithOps(base, OpsAt(ops + [op], path)) ==
      var earlier := WithOps(base, OpsAt(ops, path));
      if op.resourcePath == path then earlier[Lower(op.httpMethod) := OperationItem(op)] else earlier
  {
    assert (ops + [op])[..|ops|] == ops;
    var here := OpsAt(ops, path);
    if op.resourcePath == path {
      assert (here + [op])[..|here|] == here;
    } else {
      assert here + [] == here;
    }
  }

  lemma OnePerMethodPrefix(ops: seq<Op>, n: nat)
    requires n <= |ops| && OnePerMethod(ops)
    ensures OnePerMethod(ops[..n])
  {
    hide Lower;
    assert forall op :: op in ops[..n] ==> op in ops;
  }

  /** The item of a path holds each of the path's operations when no two of them share a lower-cased method. */
  lemma {:induction false} ItemHolds(base: PathItem, ops: seq<Op>, op: Op)
    requires OnePerMethod(ops) && op in ops
    ensures var item := WithOps(base, OpsAt(ops, op.resourcePath));
      Lower(op.httpMethod) in item && item[Lower(op.httpMethod)] == OperationItem(op)
    decreases |ops|
  {
    hide Lower;
    var n := |ops| - 1;
    var last := ops[n];
    assert ops == ops[..n] + [last];
    ItemSnoc(base, ops[..n], last, op.resourcePath);
    OnePerMethodPrefix(ops, n);
    assert last in ops;
    if last.resourcePath == op.resourcePath && Lower(last.httpMethod) == Lower(op.httpMethod) {
      assert last == op;
    } else {
      ItemHolds(base, ops[..n], op);
    }
  }

  /** The last operation of a path with this lower-cased method. */
  predicate LastWith(ops: seq<Op>, path: string, key: string, i: nat) {
    && i < |ops| && ops[i].resourcePath == path && Lower(ops[i].httpMethod) == key
    && forall j :: i < j < |ops| ==> ops[j].resourcePath != path || Lower(ops[j].httpMethod) != key
  }

  lemma {:induction false} ItemEntry(base: PathItem, ops: seq<Op>, path: string, key: string)
    ensures var item := WithOps(base, OpsAt(ops, path));
      && (forall i :: 0 <= i < |ops| && LastWith(ops, path, key, i) ==> key in item && item[key] == OperationItem(ops[i]))
      && ((forall op :: op in ops ==> op.resourcePath != path || Lower(op.httpMethod) != key) ==>
            (key in item <==> key in base) && (key in item ==> item[key] == base[key]))
    decreases |ops|
  {
    if ops != [] {
      var n := |ops| - 1;
      assert ops == ops[..n] + [ops[n]];
      ItemEntry(base, ops[..n], path, key);
      ItemSnoc(base, ops[..n], ops[n], path);
      hide WithOps, OpsAt, Lower;
      forall i | 0 <= i < n && LastWith(ops, path, key, i)
        ensures LastWith(ops[..n], path, key, i)
      {}
      assert forall op :: op in ops[..n] ==> op in ops;
    }
  }

  lemma {:induction false} CountsNone(segs: seq<string>)
    ensures CountIds(segs) == 0 <==> "{id}" !in segs
    decreases |segs|
  {
    if segs != [] {
      CountsNone(segs[..|segs| - 1]);
      assert segs == segs[..|segs| - 1] + [segs[|segs| - 1]];
    }
  }

  /** What the item of a path holds: under each lower-cased method of its operations the last of them, under
      "parameters", unless an operation has that method, the parameters when there are any, and nothing else. */
  lemma ItemExact(ops: seq<Op>, path: string)
    ensures forall i: nat :: i < |ops| && LastWith(ops, path, Lower(ops[i].httpMethod), i) ==>
      Lower(ops[i].httpMethod) in ItemFor(ops, path) && ItemFor(ops, path)[Lower(ops[i].httpMethod)] == OperationItem(ops[i])
    ensures forall key :: (forall op :: op in ops ==> op.resourcePath != path || Lower(op.httpMethod) != key) ==>
      (key in ItemFor(ops, path) <==> key == "parameters" && "{id}" in Split(TrimSlashes(path)))
      && (key in ItemFor(ops, path) ==> ItemFor(ops, path)[key] == Parameters(ParamsOf(Split(TrimSlashes(path)))))
  {
    var segs := Split(TrimSlashes(path));
    ParamsDistinct(segs);
    CountsNone(segs);
    hide Lower, Split, TrimSlashes, ParamsOf, CountIds, OpsAt, WithOps, OasSegment;
    var base := BaseItem(ParamsOf(segs));
    forall key
      ensures forall i :: 0 <= i < |ops| && LastWith(ops, path, key, i) ==>
        key in ItemFor(ops, path) && ItemFor(ops, path)[key] == OperationItem(ops[i])
      ensures (forall op :: op in ops ==> op.resourcePath != path || Lower(op.httpMethod) != key) ==>
        (key in ItemFor(ops, path) <==> key in base) && (key in base ==> ItemFor(ops, path)[key] == base[key])
    {
      ItemEntry(base, ops, path, key);
    }
  }

  predicate TemplatesDistinct(ops: seq<Op>) {
    forall p, q :: p in ResourcePaths(ops) && q in ResourcePaths(ops) && OasPathOf(p) == OasPathOf(q) ==> p == q
  }

  /** The operation sits under its own template and lower-cased method. */
  predicate Shown(paths: map<string, PathItem>, op: Op) {
    OasPathOf(op.resourcePath) in paths &&
    var item := paths[OasPathOf(op.resourcePath)];
    Lower(op.httpMethod) in item && item[Lower(op.httpMethod)] == OperationItem(op)
  }

  predicate AllShown(ops: seq<Op>, paths: map<string, PathItem>) {
    forall op :: op in ops ==> Shown(paths, op)
  }

  lemma ShownUnderOwnTemplate(ops: seq<Op>, paths: map<string, PathItem>, path: string)
    requires BuiltFrom(ops, paths) && TemplatesDistinct(ops) && path in ResourcePaths(ops)
    ensures ShownAt(ops, paths, OasPathOf(path), path)
  {
    hide OasPathOf, ResourcePaths, ShownAt, TemplatesDistinct;
    var other :| other in ResourcePaths(ops) && ShownAt(ops, paths, OasPathOf(path), other);
    hide BuiltFrom;
    ShownTemplate(ops, paths, OasPathOf(path), other);
    OneOfTemplate(ops, other, path);
  }

  lemma ShownTemplate(ops: seq<Op>, paths: map<string, PathItem>, t: string, path: string)
    requires ShownAt(ops, paths, t, path)
    ensures OasPathOf(path) == t
  {
    hide OasPathOf, ItemFor;
  }

  lemma OneOfTemplate(ops: seq<Op>, p: string, q: string)
    requires TemplatesDistinct(ops) && p in ResourcePaths(ops) && q in ResourcePaths(ops) && OasPathOf(p) == OasPathOf(q)
    ensures p == q
  {
    hide OasPathOf, ResourcePaths;
  }

  lemma DistinctTemplatesShown(ops: seq<Op>, paths: map<string, PathItem>)
    requires BuiltFrom(ops, paths) && TemplatesDistinct(ops) && OnePerMethod(ops)
    ensures AllShown(ops, paths)
  {
    hide OasPathOf, BuiltFrom, TemplatesDistinct, OnePerMethod, Lower;
    forall op | op in ops
      ensures Shown(paths, op)
    {
      assert op.resourcePath in ResourcePaths(ops);
      ShownUnderOwnTemplate(ops, paths, op.resourcePath);
      ItemHolds(BaseItem(ParamsOf(Split(TrimSlashes(op.resourcePath)))), ops, op);
    }
  }

  lemma {:induction false} ItemOnlyOf(base: PathItem, ops: seq<Op>, path: string, k: string)
    requires forall m :: m in base ==> base[m].Parameters?
    requires var item := WithOps(base, OpsAt(ops, path)); k in item && item[k].OperationItem?
    ensures WithOps(base, OpsAt(ops, path))[k].op.resourcePath == path
    decreases |ops|
  {
    hide Lower;
    if ops != [] {
      var n := |ops| - 1;
      assert ops == ops[..n] + [ops[n]];
      ItemSnoc(base, ops[..n], ops[n], path);
      hide WithOps, OpsAt;
      if k in WithOps(base, OpsAt(ops[..n], path)) && WithOps(base, OpsAt(ops[..n], path))[k].OperationItem? {
        ItemOnlyOf(base, ops[..n], path, k);
      }
    }
  }

  ghost function Preimage(ops: seq<Op>, t: string): (p: string)
    requires exists x :: x in ResourcePaths(ops) && OasPathOf(x) == t
    ensures p in ResourcePaths(ops) && OasPathOf(p) == t
  {
    var x :| x in ResourcePaths(ops) && OasPathOf(x) == t;
    x
  }

  /** The document of a visiting order in which p comes last among the paths with its template. */
  lemma DocumentWith(ops: seq<Op>, p: string) returns (paths: map<string, PathItem>)
    requires p in ResourcePaths(ops)
    ensures BuiltFrom(ops, paths) && OasPathOf(p) in paths && paths[OasPathOf(p)] == ItemFor(ops, p)
  {
    hide OasPathOf, ItemFor;
    var templates := set path | path in ResourcePaths(ops) :: OasPathOf(path);
    paths := map t | t in templates :: ItemFor(ops, if t == OasPathOf(p) then p else Preimage(ops, t));
    forall t | t in paths
      ensures exists path :: path in ResourcePaths(ops) && ShownAt(ops, paths, t, path)
    {
      assert ShownAt(ops, paths, t, if t == OasPathOf(p) then p else Preimage(ops, t));
    }
  }

  /** No two of the discovered paths share a template. */
  predicate PathsApart(ops: seq<Op>) {
    forall p, q :: p in ResourcePaths(ops) && q in ResourcePaths(ops) && SameTemplate(p, q) ==> p == q
  }

  lemma PathsApartIff(ops: seq<Op>)
    ensures PathsApart(ops) <==> TemplatesDistinct(ops)
  {
    forall p, q | p in ResourcePaths(ops) && q in ResourcePaths(ops)
      ensures SameTemplate(p, q) <==> OasPathOf(p) == OasPathOf(q)
    {
      TemplateEqualIff(p, q);
    }
    hide SameTemplate, OasPathOf, ResourcePaths;
  }

  /** buildPaths drops no operation, in whatever order the path groups are visited, exactly when no two
      discovered paths of the service share a template and no two operations of one path have methods
      that differ in case only. */
  lemma DropsNoneIff(ops: seq<Op>)
    ensures (forall paths :: BuiltFrom(ops, paths) ==> AllShown(ops, paths)) <==> PathsApart(ops) && OnePerMethod(ops)
  {
    PathsApartIff(ops);
    if PathsApart(ops) && OnePerMethod(ops) {
      forall paths | BuiltFrom(ops, paths)
        ensures AllShown(ops, paths)
      {
        DistinctTemplatesShown(ops, paths);
      }
    } else if !OnePerMethod(ops) {
      var paths := SharedMethodDrops(ops);
    } else {
      var paths := SharedTemplateDrops(ops);
    }
  }

  lemma SharedTemplateDrops(ops: seq<Op>) returns (paths: map<string, PathItem>)
    requires !TemplatesDistinct(ops)
    ensures BuiltFrom(ops, paths) && !AllShown(ops, paths)
  {
    hide OasPathOf, Lower, BuiltFrom;
    var p, q :| p in ResourcePaths(ops) && q in ResourcePaths(ops) && OasPathOf(p) == OasPathOf(q) && p != q;
    paths := DocumentWith(ops, p);
    var op :| op in ops && op.resourcePath == q;
    var base := BaseItem(ParamsOf(Split(TrimSlashes(p))));
    if Shown(paths, op) {
      ItemOnlyOf(base, ops, p, Lower(op.httpMethod));
      assert false;
    }
  }

  lemma SharedMethodDrops(ops: seq<Op>) returns (paths: map<string, PathItem>)
    requires !OnePerMethod(ops)
    ensures BuiltFrom(ops, paths) && !AllShown(ops, paths)
  {
    hide OasPathOf, Lower, BuiltFrom, ItemFor;
    var a, b :| a in ops && b in ops && a.resourcePath == b.resourcePath && Lower(a.httpMethod) == Lower(b.httpMethod) && a != b;
    assert a.resourcePath in ResourcePaths(ops);
    paths := DocumentWith(ops, a.resourcePath);
  }

  /** On convertible paths, which the conversion maps injectively, methods alone decide it. */
  lemma NoOperationDropped(ops: seq<Op>)
    requires forall path :: path in ResourcePaths(ops) ==> Convertible(path)
    ensures (forall paths :: BuiltFrom(ops, paths) ==> AllShown(ops, paths)) <==> OnePerMethod(ops)
  {
    DropsNoneIff(ops);
    hide ResourcePaths, BuiltFrom, AllShown, OnePerMethod, SameTemplate, Convertible, OasPathOf;
    forall p, q | p in ResourcePaths(ops) && q in ResourcePaths(ops) && SameTemplate(p, q)
      ensures p == q
    {
      TemplateEqualIff(p, q);
      OasPathInjective(p, q);
    }
  }

  predicate TrimmedApart(ops: seq<Op>) {
    forall p, q :: p in ResourcePaths(ops) && q in ResourcePaths(ops) && TrimSlashes(p) == TrimSlashes(q) ==> p == q
  }

  lemma PlainPathsApart(ops: seq<Op>)
    requires forall path :: path in ResourcePaths(ops) ==> OnlyPlaceholders(Split(TrimSlashes(path)))
    ensures PathsApart(ops) <==> TrimmedApart(ops)
  {
    hide ResourcePaths, OnlyPlaceholders, SameTemplate, TrimSlashes, Split;
    forall p, q | p in ResourcePaths(ops) && q in ResourcePaths(ops)
      ensures SameTemplate(p, q) <==> TrimSlashes(p) == TrimSlashes(q)
    {
      PlainTemplateEqualIff(p, q);
    }
  }

  /** On paths whose only bracketed segments are placeholders, methods and the slashes at the ends of
      the paths decide it. */
  lemma PlainDropsNoneIff(ops: seq<Op>)
    requires forall path :: path in ResourcePaths(ops) ==> OnlyPlaceholders(Split(TrimSlashes(path)))
    ensures (forall paths :: BuiltFrom(ops, paths) ==> AllShown(ops, paths)) <==> TrimmedApart(ops) && OnePerMethod(ops)
  {
    hide *;
    DropsNoneIff(ops);
    PlainPathsApart(ops);
  }
}
