/** Discovery and managed sync meet: when does a captured request path normalize to the match path
    of a managed operation? */
module PathAgreement {
  import opened Text
  import opened MatchPath
  import opened Normalize
  import opened Model
  import Matcher
  import OASPath

  predicate Canonical(segs: seq<string>) {
    forall i :: 0 <= i < |segs| ==> segs[i] != "" && NoSlash(segs[i])
  }

  /** A base path or context as a string: empty, or rooted without a trailing slash. */
  function BasePath(segs: seq<string>): string {
    if segs == [] then "" else PathOf(segs)
  }

  // ---------- Canonical paths are already clean ----------

  lemma CollapsePastChar(c: char, rest: string)
    requires c != '/'
    ensures CollapseSlashes([c] + rest) == [c] + CollapseSlashes(rest)
  {
    assert ([c] + rest)[1..] == rest;
  }

  lemma {:induction false} CollapsePastSegment(seg: string, rest: string)
    requires NoSlash(seg)
    ensures CollapseSlashes(seg + rest) == seg + CollapseSlashes(rest)
    decreases |seg|
  {
    hide CollapseSlashes;
    if seg == "" {
      assert seg + rest == rest;
    } else {
      assert seg[0] in seg;
      CollapsePastSegment(seg[1..], rest);
      CollapsePastChar(seg[0], seg[1..] + rest);
      assert seg + rest == [seg[0]] + (seg[1..] + rest);
      assert seg + CollapseSlashes(rest) == [seg[0]] + (seg[1..] + CollapseSlashes(rest));
    }
  }

  lemma {:induction false} CanonicalIsClean(segs: seq<string>)
    requires Canonical(segs)
    ensures CollapseSlashes(PathOf(segs)) == PathOf(segs)
    decreases |segs|
  {
    if segs != [] {
      var rest := if |segs| == 1 then "" else PathOf(segs[1..]);
      if |segs| > 1 {
        CanonicalIsClean(segs[1..]);
      }
      assert PathOf(segs) == "/" + (segs[0] + rest);
      CollapsePastSegment(segs[0], rest);
      assert segs[0][0] in segs[0];
      assert ("/" + (segs[0] + rest))[1..] == segs[0] + rest;
    }
  }

  lemma BasePathConcat(a: seq<string>, b: seq<string>)
    ensures BasePath(a) + BasePath(b) == BasePath(a + b)
  {
    hide Join;
    if a == [] {
      assert a + b == b;
    } else if b == [] {
      assert a + b == a;
    } else {
      PathOfConcat(a, b);
      hide PathOf;
    }
  }

  lemma PathOfConcat(a: seq<string>, b: seq<string>)
    requires |a| >= 1 && |b| >= 1
    ensures PathOf(a) + PathOf(b) == PathOf(a + b)
  {
    JoinAppend(a, b);
    hide Join;
    assert PathOf(a) + PathOf(b) == "/" + (Join(a) + "/" + Join(b));
  }

  lemma BasePathUntrimmed(segs: seq<string>)
    requires Canonical(segs)
    ensures TrimSuffixSlash(BasePath(segs)) == BasePath(segs)
  {
    if segs != [] {
      JoinTrailing(segs);
    }
  }

  /** On canonical inputs the match path is the path of base, context and rewritten target segments. */
  lemma MatchPathOfCanonical(base: seq<string>, ctx: seq<string>, context: string, target: seq<string>, passThrough: bool)
    requires Canonical(base) && Canonical(ctx) && Canonical(target)
    requires NormalizedContext(context) == BasePath(ctx)
    ensures MatchPathOf(BasePath(base), context, NormalizedTarget(PathOf(target)), passThrough)
      == PathOf(base + (if passThrough then ctx else []) + TargetSegments(target))
  {
    hide *;
    var prefix := base + (if passThrough then ctx else []);
    var t := TargetSegments(target);
    NormalizedTargetCanonical(target);
    BasePathUntrimmed(base);
    BasePathUntrimmed(ctx);
    BasePathConcat(base, ctx);
    if passThrough {
      CanonicalConcat(base, ctx);
    } else {
      assert prefix == base;
    }
    TargetsCanonical(target);
    CanonicalConcat(prefix, t);
    RawPathOf(BasePath(base), BasePath(ctx), context, PathOf(t), passThrough);
    MatchPathCleans(BasePath(base), context, PathOf(t), passThrough);
    CleanedCanonical(prefix, t);
  }

  lemma CanonicalConcat(a: seq<string>, b: seq<string>)
    requires Canonical(a) && Canonical(b)
    ensures Canonical(a + b)
  {
    hide NoSlash;
  }

  lemma TargetsCanonical(segs: seq<string>)
    requires Canonical(segs)
    ensures Canonical(TargetSegments(segs))
  {}

  lemma MatchPathCleans(base: string, context: string, target: string, passThrough: bool)
    ensures MatchPathOf(base, context, target, passThrough) ==
      CollapseSlashes(WithoutTrailingSlash(Rooted(RawPath(base, context, target, passThrough))))
  {}

  lemma RawPathOf(base: string, ctx: string, context: string, target: string, passThrough: bool)
    requires TrimSuffixSlash(base) == base && TrimSuffixSlash(ctx) == ctx && NormalizedContext(context) == ctx
    ensures RawPath(base, context, target, passThrough) == (if passThrough then base + ctx else base) + target
  {
    assert base + "" == base;
  }

  lemma NormalizedTargetCanonical(target: seq<string>)
    requires Canonical(target)
    ensures NormalizedTarget(PathOf(target)) == PathOf(TargetSegments(target))
  {
    if target == [] {
      assert Split("") == [""];
      assert TargetSegments([]) == [];
    } else {
      NormalizedTargetOfPath(target);
    }
  }

  lemma CleanedCanonical(prefix: seq<string>, t: seq<string>)
    requires Canonical(prefix) && Canonical(prefix + t)
    ensures CollapseSlashes(WithoutTrailingSlash(Rooted(BasePath(prefix) + PathOf(t)))) == PathOf(prefix + t)
  {
    var raw := BasePath(prefix) + PathOf(t);
    assert Rooted(raw) == raw;
    CanonicalIsClean(prefix + t);
    if t == [] {
      assert prefix + t == prefix;
      assert WithoutTrailingSlash(raw) == PathOf(prefix);
    } else {
      BasePathConcat(prefix, t);
      JoinTrailing(prefix + t);
      assert raw == PathOf(prefix + t);
    }
  }

  // ---------- The agreement ----------

  /** segment f of a request stands for segment t of a target: a dynamic value for a parameter,
      the literal itself otherwise. */
  predicate Fills(n: Normalizer, t: string, f: string) {
    if Bracketed(t) then Dynamic(n, f) || f == "{id}" else f == t && !Dynamic(n, f)
  }

  predicate Agree(n: Normalizer, prefix: seq<string>, target: seq<string>, fills: seq<string>)
    requires |fills| == |target|
  {
    && (forall i :: 0 <= i < |prefix| && Dynamic(n, prefix[i]) ==> prefix[i] == "{id}")
    && (forall i :: 0 <= i < |target| ==> Fills(n, target[i], fills[i]))
  }

  lemma FillsIff(n: Normalizer, t: string, f: string)
    ensures NormalSegment(n, f) == TargetSegment(t) <==> Fills(n, t, f)
  {
    hide Dynamic;
    assert Bracketed("{id}");
  }

  lemma AgreeSegments(n: Normalizer, prefix: seq<string>, target: seq<string>, fills: seq<string>)
    requires |fills| == |target|
    ensures NormalSegments(n, prefix + fills) == prefix + TargetSegments(target) <==> Agree(n, prefix, target, fills)
  {
    var got := NormalSegments(n, prefix + fills);
    var want := prefix + TargetSegments(target);
    forall i | 0 <= i < |prefix|
      ensures got[i] == want[i] <==> (Dynamic(n, prefix[i]) ==> prefix[i] == "{id}")
    {
      hide Dynamic;
      assert got[i] == NormalSegment(n, prefix[i]);
    }
    forall i | 0 <= i < |target|
      ensures got[|prefix| + i] == want[|prefix| + i] <==> Fills(n, target[i], fills[i])
    {
      FillsIff(n, target[i], fills[i]);
      hide NormalSegment, TargetSegment, Fills;
      assert got[|prefix| + i] == NormalSegment(n, fills[i]);
    }
    hide NormalSegments, TargetSegments, Dynamic, Fills;
    if Agree(n, prefix, target, fills) {
      forall i | 0 <= i < |got|
        ensures got[i] == want[i]
      {
        if i >= |prefix| {
          assert Fills(n, target[i - |prefix|], fills[i - |prefix|]);
          assert got[|prefix| + (i - |prefix|)] == want[|prefix| + (i - |prefix|)];
        }
      }
    }
  }

  lemma PathOfInjective(a: seq<string>, b: seq<string>)
    requires Segments(a) && Segments(b) && |a| == |b|
    requires PathOf(a) == PathOf(b)
    ensures a == b
  {
    assert PathOf(a)[1..] == Join(a) && PathOf(b)[1..] == Join(b);
    if a != [] {
      SplitJoin(a);
      SplitJoin(b);
    }
  }

  lemma NormalizedCanonical(n: Normalizer, segs: seq<string>)
    requires Segments(segs)
    ensures Normalized(n, PathOf(segs)) == PathOf(NormalSegments(n, segs))
  {
    if segs == [] {
      assert NormalSegments(n, []) == [];
    } else {
      NormalizedOfPath(n, segs);
    }
  }

  lemma CanonicalSegments(segs: seq<string>)
    requires Canonical(segs)
    ensures Segments(segs)
  {}

  lemma SameLengths(n: Normalizer, prefix: seq<string>, target: seq<string>, fills: seq<string>)
    requires |fills| == |target|
    ensures |NormalSegments(n, prefix + fills)| == |prefix + TargetSegments(target)|
    ensures Segments(prefix + fills) ==> Segments(NormalSegments(n, prefix + fills))
  {}

  /** A request made from a canonical target by replacing its segments with fills normalizes to the
      target's match path exactly when the fills agree: parameters dynamic, literals, base path and
      passed-through context static. */
  lemma AgreementIff(n: Normalizer, base: seq<string>, ctx: seq<string>, context: string, target: seq<string>,
                     fills: seq<string>, passThrough: bool)
    requires Canonical(base) && Canonical(ctx) && Canonical(target) && Canonical(fills) && |fills| == |target|
    requires NormalizedContext(context) == BasePath(ctx)
    ensures var prefix := base + (if passThrough then ctx else []);
      Normalized(n, PathOf(prefix + fills))
        == MatchPathOf(BasePath(base), context, NormalizedTarget(PathOf(target)), passThrough)
      <==> Agree(n, prefix, target, fills)
  {
    var prefix := base + (if passThrough then ctx else []);
    if passThrough {
      CanonicalConcat(base, ctx);
    } else {
      assert prefix == base;
    }
    hide *;
    TargetsCanonical(target);
    CanonicalConcat(prefix, fills);
    CanonicalConcat(prefix, TargetSegments(target));
    CanonicalSegments(prefix + fills);
    CanonicalSegments(prefix + TargetSegments(target));
    MatchPathOfCanonical(base, ctx, context, target, passThrough);
    NormalizedCanonical(n, prefix + fills);
    AgreeSegments(n, prefix, target, fills);
    SameLengths(n, prefix, target, fills);
    if PathOf(NormalSegments(n, prefix + fills)) == PathOf(prefix + TargetSegments(target)) {
      PathOfInjective(NormalSegments(n, prefix + fills), prefix + TargetSegments(target));
    }
  }

  // ---------- Which requests are managed ----------

  /** An operation's target with the base path of its API and the context as configured and as segments. */
  datatype Target = Target(base: seq<string>, ctx: seq<string>, context: string, path: seq<string>)

  predicate ValidTarget(t: Target) {
    Canonical(t.base) && Canonical(t.ctx) && Canonical(t.path) && NormalizedContext(t.context) == BasePath(t.ctx)
  }

  function PrefixOf(t: Target, passThrough: bool): seq<string> {
    t.base + (if passThrough then t.ctx else [])
  }

  function MatchPathFor(t: Target, passThrough: bool): string {
    MatchPathOf(BasePath(t.base), t.context, NormalizedTarget(PathOf(t.path)), passThrough)
  }

  /** Segment i of a request stands for the prefix, where only a placeholder may stand for a dynamic
      segment, or fills the target. */
  predicate ServedAt(n: Normalizer, prefix: seq<string>, path: seq<string>, request: seq<string>, i: nat)
    requires i < |request| == |prefix| + |path|
  {
    if i < |prefix| then (if Dynamic(n, request[i]) then prefix[i] == "{id}" else prefix[i] == request[i])
    else Fills(n, path[i - |prefix|], request[i])
  }

  predicate Serves(n: Normalizer, t: Target, passThrough: bool, request: seq<string>) {
    var prefix := PrefixOf(t, passThrough);
    |request| == |prefix| + |t.path| && forall i :: 0 <= i < |request| ==> ServedAt(n, prefix, t.path, request, i)
  }

  lemma CanonicalInjective(a: seq<string>, b: seq<string>)
    requires Canonical(a) && Canonical(b) && PathOf(a) == PathOf(b)
    ensures a == b
  {
    assert PathOf(a)[1..] == Join(a) && PathOf(b)[1..] == Join(b);
    if a != [] {
      SplitJoin(a);
      JoinLast(a);
    }
    if b != [] {
      SplitJoin(b);
      JoinLast(b);
    }
    assert Join([]) == "";
    hide Join, Split;
  }

  lemma ServedAtIff(n: Normalizer, prefix: seq<string>, path: seq<string>, request: seq<string>, i: nat)
    requires i < |request| == |prefix| + |path|
    ensures NormalSegments(n, request)[i] == (prefix + TargetSegments(path))[i] <==> ServedAt(n, prefix, path, request, i)
  {
    assert NormalSegments(n, request)[i] == NormalSegment(n, request[i]);
    if i >= |prefix| {
      assert (prefix + TargetSegments(path))[i] == TargetSegment(path[i - |prefix|]);
      hide NormalSegments, TargetSegments, NormalSegment, TargetSegment, Fills, Dynamic;
      FillsIff(n, path[i - |prefix|], request[i]);
    } else {
      hide NormalSegments, TargetSegments, Dynamic, Fills;
    }
  }

  lemma ServesSegments(n: Normalizer, t: Target, passThrough: bool, request: seq<string>)
    ensures NormalSegments(n, request) == PrefixOf(t, passThrough) + TargetSegments(t.path) <==> Serves(n, t, passThrough, request)
  {
    var prefix := PrefixOf(t, passThrough);
    var got, want := NormalSegments(n, request), prefix + TargetSegments(t.path);
    hide NormalSegments, TargetSegments, ServedAt, PrefixOf;
    if |request| == |want| {
      forall i | 0 <= i < |request|
        ensures got[i] == want[i] <==> ServedAt(n, prefix, t.path, request, i)
      {
        ServedAtIff(n, prefix, t.path, request, i);
      }
      assert got == want <==> forall i :: 0 <= i < |request| ==> got[i] == want[i];
    }
  }

  lemma NormalizedSegmentsCanonical(n: Normalizer, segs: seq<string>)
    requires Canonical(segs)
    ensures Canonical(NormalSegments(n, segs))
  {
    hide Dynamic;
  }

  lemma PrefixCanonical(t: Target, passThrough: bool)
    requires ValidTarget(t)
    ensures Canonical(PrefixOf(t, passThrough))
  {
    CanonicalConcat(t.base, t.ctx);
    hide Canonical;
    assert t.base + [] == t.base;
  }

  lemma TargetCanonical(t: Target, passThrough: bool)
    requires ValidTarget(t)
    ensures Canonical(PrefixOf(t, passThrough) + TargetSegments(t.path))
    ensures MatchPathFor(t, passThrough) == PathOf(PrefixOf(t, passThrough) + TargetSegments(t.path))
  {
    hide Canonical, TargetSegments, MatchPathOf, NormalizedTarget, PathOf, NormalizedContext, BasePath;
    MatchPathOfCanonical(t.base, t.ctx, t.context, t.path, passThrough);
    TargetsCanonical(t.path);
    PrefixCanonical(t, passThrough);
    CanonicalConcat(PrefixOf(t, passThrough), TargetSegments(t.path));
  }

  /** A request normalizes to an operation's match path exactly when it serves the operation's target. */
  lemma ServesIff(n: Normalizer, t: Target, passThrough: bool, request: seq<string>)
    requires ValidTarget(t) && Canonical(request)
    ensures Normalized(n, PathOf(request)) == MatchPathFor(t, passThrough) <==> Serves(n, t, passThrough, request)
  {
    var want := PrefixOf(t, passThrough) + TargetSegments(t.path);
    assert Segments(request);
    TargetCanonical(t, passThrough);
    hide *;
    NormalizedSegmentsCanonical(n, request);
    NormalizedCanonical(n, request);
    ServesSegments(n, t, passThrough, request);
    if PathOf(NormalSegments(n, request)) == PathOf(want) {
      CanonicalInjective(NormalSegments(n, request), want);
    }
  }

  lemma ManagedByKey(ops: seq<ManagedOp>, d: DiscoveredAPI)
    ensures Matcher.JoinOf(d, ops).managed.Some? <==>
      exists k :: 0 <= k < |ops| && ops[k].httpMethod == d.httpMethod && ops[k].matchPath == d.resourcePath
  {
    var key := Matcher.MatchKey(d.httpMethod, d.resourcePath);
    assert Matcher.LastOp(ops, key).None? <==> forall k :: 0 <= k < |ops| ==> Matcher.KeyOf(ops[k]) != key;
    hide Matcher.LastOp;
    if k :| 0 <= k < |ops| && ops[k].httpMethod == d.httpMethod && ops[k].matchPath == d.resourcePath {
      assert Matcher.KeyOf(ops[k]) == key;
    }
  }

  /** Among any managed operations, Match marks a discovered request as managed exactly when its method is
      that of an operation whose target the request serves. */
  lemma ManagedIff(n: Normalizer, targets: seq<Target>, ops: seq<ManagedOp>, passThrough: bool, request: seq<string>, d: DiscoveredAPI)
    requires |targets| == |ops| && Canonical(request) && d.resourcePath == Normalized(n, PathOf(request))
    requires forall k :: 0 <= k < |ops| ==> ValidTarget(targets[k]) && ops[k].matchPath == MatchPathFor(targets[k], passThrough)
    ensures Matcher.JoinOf(d, ops).managed.Some? <==>
      exists k :: 0 <= k < |ops| && ops[k].httpMethod == d.httpMethod && Serves(n, targets[k], passThrough, request)
  {
    ManagedByKey(ops, d);
    forall k | 0 <= k < |ops|
      ensures ops[k].matchPath == d.resourcePath <==> Serves(n, targets[k], passThrough, request)
    {
      ServesIff(n, targets[k], passThrough, request);
    }
    hide Normalized, MatchPathFor, Serves, Matcher.JoinOf, ValidTarget, Canonical;
  }

  /** With other operations present the request stays managed: some operation matches it. */
  lemma StaysManaged(ops: seq<ManagedOp>, op: ManagedOp, d: DiscoveredAPI)
    requires op in ops && op.httpMethod == d.httpMethod && op.matchPath == d.resourcePath
    ensures Matcher.JoinOf(d, ops).managed.Some?
  {
    var key := Matcher.MatchKey(d.httpMethod, d.resourcePath);
    var i :| 0 <= i < |ops| && ops[i] == op;
    assert Matcher.KeyOf(ops[i]) == key;
  }

  // ---------- Imported operations ----------

  /** An API as the sync reads it: where it is mounted, and its operations with their targets as segments. */
  datatype Api = Api(id: string, base: seq<string>, ctx: seq<string>, context: string, paths: seq<seq<string>>, operations: seq<Operation>)

  predicate ValidApi(a: Api) {
    && |a.paths| == |a.operations|
    && Canonical(a.base) && Canonical(a.ctx) && NormalizedContext(a.context) == BasePath(a.ctx)
    && forall k :: 0 <= k < |a.paths| ==> Canonical(a.paths[k]) && a.operations[k].target == PathOf(a.paths[k])
  }

  function Imported(a: Api, passThrough: bool): seq<ProcessedOp> {
    ProcessedOps(a.id, a.context, BasePath(a.base), passThrough, a.operations)
  }

  function TargetOf(a: Api, k: nat): Target
    requires k < |a.paths|
  {
    Target(a.base, a.ctx, a.context, a.paths[k])
  }

  /** The k-th operation is imported with this method, and its target gives this match path. */
  predicate ImportedAs(a: Api, passThrough: bool, k: nat, verb: string, path: string) {
    && k < |a.operations| == |a.paths|
    && Upper(a.operations[k].verb) == verb && verb != "" && verb != "OPTIONS" && verb != "HEAD"
    && path == PathOf(PrefixOf(TargetOf(a, k), passThrough) + TargetSegments(a.paths[k]))
  }

  lemma TargetPath(a: Api, k: nat, passThrough: bool)
    requires ValidApi(a) && k < |a.operations|
    ensures ValidTarget(TargetOf(a, k))
    ensures MatchPathOf(BasePath(a.base), a.context, NormalizedTarget(a.operations[k].target), passThrough) ==
            PathOf(PrefixOf(TargetOf(a, k), passThrough) + TargetSegments(a.paths[k]))
  {
    TargetCanonical(TargetOf(a, k), passThrough);
    hide TargetSegments, MatchPathOf, NormalizedTarget, PathOf, PrefixOf, Canonical;
  }

  /** The imported operations carry, in order, the upper-case verb, the raw target and the match path of
      base, passed-through context and target. */
  lemma ImportedInOrder(a: Api, passThrough: bool) returns (at: seq<nat>)
    requires ValidApi(a)
    ensures Places(a.operations, |a.operations|, at) && |at| == |Imported(a, passThrough)|
    ensures forall r :: 0 <= r < |at| ==>
      && ImportedAs(a, passThrough, at[r], Imported(a, passThrough)[r].httpMethod, Imported(a, passThrough)[r].matchPath)
      && Imported(a, passThrough)[r].rawTarget == a.operations[at[r]].target && Imported(a, passThrough)[r].apimApiId == a.id
  {
    at := ProcessedInOrder(a.id, a.context, BasePath(a.base), passThrough, a.operations, |a.operations|);
    assert a.operations[..|a.operations|] == a.operations;
    hide ProcessedOps, Upper, PrefixOf, TargetSegments, PathOf, MatchPathOf, NormalizedTarget, ValidApi;
    forall r | 0 <= r < |at|
      ensures ImportedAs(a, passThrough, at[r], Imported(a, passThrough)[r].httpMethod, Imported(a, passThrough)[r].matchPath)
    {
      assert at[r] in at;
      ValidLengths(a);
      TargetPath(a, at[r], passThrough);
    }
  }

  lemma ValidLengths(a: Api)
    requires ValidApi(a)
    ensures |a.paths| == |a.operations|
  {}

  /** Which methods and paths are imported. */
  lemma ImportedIff(a: Api, passThrough: bool, verb: string, path: string)
    requires ValidApi(a)
    ensures (exists r :: 0 <= r < |Imported(a, passThrough)| && Imported(a, passThrough)[r].httpMethod == verb
                         && Imported(a, passThrough)[r].matchPath == path) <==>
      exists k :: 0 <= k < |a.operations| && ImportedAs(a, passThrough, k, verb, path)
  {
    var at := ImportedInOrder(a, passThrough);
    hide Imported, ValidApi, PathOf, PrefixOf, TargetSegments, Upper;
    if k :| 0 <= k < |a.operations| && ImportedAs(a, passThrough, k, verb, path) {
      assert k in at;
      var r :| 0 <= r < |at| && at[r] == k;
      assert ImportedAs(a, passThrough, at[r], Imported(a, passThrough)[r].httpMethod, Imported(a, passThrough)[r].matchPath);
    }
  }

  /** The managed operations are those imported from these APIs. */
  predicate LoadedFrom(apis: seq<Api>, passThrough: bool, ops: seq<ManagedOp>) {
    && (forall op :: op in ops ==> exists a :: a in apis && ImportsKey(a, passThrough, op.httpMethod, op.matchPath))
    && (forall a, r :: a in apis && 0 <= r < |Imported(a, passThrough)| ==>
          HasKey(ops, Imported(a, passThrough)[r].httpMethod, Imported(a, passThrough)[r].matchPath))
  }

  predicate ImportsKey(a: Api, passThrough: bool, verb: string, path: string) {
    exists r :: 0 <= r < |Imported(a, passThrough)| && Imported(a, passThrough)[r].httpMethod == verb
                && Imported(a, passThrough)[r].matchPath == path
  }

  predicate HasKey(ops: seq<ManagedOp>, verb: string, path: string) {
    exists k :: 0 <= k < |ops| && ops[k].httpMethod == verb && ops[k].matchPath == path
  }

  lemma LoadedKeys(apis: seq<Api>, passThrough: bool, ops: seq<ManagedOp>, verb: string, path: string)
    requires LoadedFrom(apis, passThrough, ops)
    ensures HasKey(ops, verb, path) <==> exists a :: a in apis && ImportsKey(a, passThrough, verb, path)
  {
    hide Imported;
    if k :| 0 <= k < |ops| && ops[k].httpMethod == verb && ops[k].matchPath == path {
      assert ops[k] in ops;
    }
  }

  /** The operation is imported and the request is one of its requests. */
  predicate Handles(n: Normalizer, a: Api, passThrough: bool, k: nat, verb: string, request: seq<string>) {
    && k < |a.operations| == |a.paths|
    && Upper(a.operations[k].verb) == verb && verb != "" && verb != "OPTIONS" && verb != "HEAD"
    && Serves(n, TargetOf(a, k), passThrough, request)
  }

  lemma HandlesIff(n: Normalizer, a: Api, passThrough: bool, k: nat, verb: string, request: seq<string>)
    requires ValidApi(a) && Canonical(request) && k < |a.operations|
    ensures ImportedAs(a, passThrough, k, verb, Normalized(n, PathOf(request))) <==> Handles(n, a, passThrough, k, verb, request)
  {
    TargetPath(a, k, passThrough);
    TargetCanonical(TargetOf(a, k), passThrough);
    ServesIff(n, TargetOf(a, k), passThrough, request);
    hide Normalized, PathOf, PrefixOf, TargetSegments, Upper, Serves, ValidApi, Canonical, MatchPathOf, NormalizedTarget;
    ValidLengths(a);
  }

  /** From the imported APIs to the verdict on a request: Match marks it as managed exactly when one of the
      imported operations has its method and a target that it serves. */
  lemma ImportedManagedIff(n: Normalizer, apis: seq<Api>, passThrough: bool, ops: seq<ManagedOp>, request: seq<string>, d: DiscoveredAPI)
    requires (forall a :: a in apis ==> ValidApi(a)) && LoadedFrom(apis, passThrough, ops)
    requires Canonical(request) && d.resourcePath == Normalized(n, PathOf(request))
    ensures Matcher.JoinOf(d, ops).managed.Some? <==>
      exists a, k :: a in apis && 0 <= k < |a.operations| && Handles(n, a, passThrough, k, d.httpMethod, request)
  {
    ManagedByKey(ops, d);
    LoadedKeys(apis, passThrough, ops, d.httpMethod, d.resourcePath);
    hide Normalized, PathOf, Matcher.JoinOf, LoadedFrom, Imported;
    forall a | a in apis
      ensures ImportsKey(a, passThrough, d.httpMethod, d.resourcePath) <==>
        exists k :: 0 <= k < |a.operations| && ImportedAs(a, passThrough, k, d.httpMethod, d.resourcePath)
    {
      ImportedIff(a, passThrough, d.httpMethod, d.resourcePath);
    }
    forall a, k | a in apis && 0 <= k < |a.operations|
      ensures ImportedAs(a, passThrough, k, d.httpMethod, d.resourcePath) <==> Handles(n, a, passThrough, k, d.httpMethod, request)
    {
      HandlesIff(n, a, passThrough, k, d.httpMethod, request);
    }
    hide ImportsKey, ImportedAs, Handles, ValidApi, Canonical;
  }

  // ---------- The loop through all three normalisers ----------

  lemma ConvertibleCanonical(segs: seq<string>)
    requires Canonical(segs) && segs != []
    ensures OASPath.Convertible(PathOf(segs)) <==> OASPath.OnlyPlaceholders(segs)
  {
    CanonicalSegments(segs);
    SplitJoin(segs);
    JoinNoEdge(segs);
    TrimSlashesOfRooted(Join(segs));
    hide Split, Join, TrimSlashes, OASPath.OnlyPlaceholders;
  }

  lemma CanonicalMatchPath(segs: seq<string>)
    requires Canonical(segs)
    ensures MatchPathOf("", "", PathOf(segs), false) == PathOf(segs)
  {
    CleanedCanonical([], segs);
    assert [] + segs == segs;
    hide Join, CollapseSlashes;
    assert RawPath("", "", PathOf(segs), false) == PathOf(segs);
    assert BasePath([]) + PathOf(segs) == PathOf(segs);
  }

  lemma OasPathTargets(segs: seq<string>)
    requires Canonical(segs) && segs != []
    ensures NormalizedTarget(OASPath.OasPathOf(PathOf(segs))) == PathOf(TargetSegments(segs))
  {
    CanonicalSegments(segs);
    SplitJoin(segs);
    JoinNoEdge(segs);
    TrimSlashesOfRooted(Join(segs));
    hide Split, Join, TrimSlashes, OASPath.OasSegments, TargetSegments, NormalizedTarget;
    OASPath.NormalizedOasPath(segs);
  }

  /** A request path, normalized by discovery, made into a template of a document, and imported from that
      document as a target, gives back the path that discovery stores: exactly when its normalized segments
      hold no bracketed literal. Then Match recognises later requests of this kind as managed. */
  lemma DocumentLoopIff(n: Normalizer, request: seq<string>)
    requires Canonical(request) && request != []
    ensures var q := Normalized(n, PathOf(request));
      MatchPathOf("", "", NormalizedTarget(OASPath.OasPathOf(q)), false) == q
      <==> OASPath.OnlyPlaceholders(NormalSegments(n, request))
  {
    var segs := NormalSegments(n, request);
    NormalizedSegmentsCanonical(n, request);
    CanonicalSegments(request);
    NormalizedCanonical(n, request);
    assert segs != [];
    hide *;
    OasPathTargets(segs);
    TargetsCanonical(segs);
    CanonicalMatchPath(TargetSegments(segs));
    OASPath.RoundTripIff(PathOf(segs));
    ConvertibleCanonical(segs);
  }
}
