/** internal/managed/matchpath.go: from an APIM operation target to the path seen at the backend. */
module MatchPath {
  import opened Text

  // ---------- NormalizeTarget ----------

  /** A segment {name} with a non-empty name. */
  predicate Bracketed(seg: string) {
    |seg| > 2 && seg[0] == '{' && seg[|seg| - 1] == '}'
  }

  function TargetSegment(seg: string): string {
    if Bracketed(seg) then "{id}" else seg
  }

  function TargetSegments(segs: seq<string>): (r: seq<string>)
    ensures |r| == |segs|
    ensures Segments(segs) ==> Segments(r)
  {
    seq(|segs|, i requires 0 <= i < |segs| => TargetSegment(segs[i]))
  }

  function NormalizedTarget(target: string): string {
    if target == "" then ""
    else
      var segs := Split(TrimPrefixSlash(target));
      if exists i :: 0 <= i < |segs| && Bracketed(segs[i]) then PathOf(TargetSegments(segs)) else target
  }

  method NormalizeTarget(target: string) returns (r: string)
    ensures r == NormalizedTarget(target)
  {
    if target == "" {
      return target;
    }
    var segments := Split(TrimPrefixSlash(target));
    hide Split, Join, Bracketed, TargetSegments;
    var rewritten, changed := RewriteSegments(segments);
    if !changed {
      return target;
    }
    return "/" + Join(rewritten);
  }

  /** The loop of NormalizeTarget, overwriting segments in place. */
  method RewriteSegments(original: seq<string>) returns (segments: seq<string>, changed: bool)
    ensures segments == TargetSegments(original)
    ensures changed <==> exists i :: 0 <= i < |original| && Bracketed(original[i])
  {
    segments := original;
    changed := false;
    for i := 0 to |segments|
      invariant |segments| == |original|
      invariant forall j :: 0 <= j < i ==> segments[j] == TargetSegment(original[j])
      invariant forall j :: i <= j < |segments| ==> segments[j] == original[j]
      invariant changed <==> exists j :: 0 <= j < i && Bracketed(original[j])
    {
      var seg := segments[i];
      if |seg| > 2 && seg[0] == '{' && seg[|seg| - 1] == '}' {
        segments := segments[i := "{id}"];
        changed := true;
      }
    }
  }

  /** Normalizing a rooted target rewrites each segment on its own and nothing else. */
  lemma NormalizedTargetOfPath(segs: seq<string>)
    requires |segs| >= 1 && Segments(segs)
    ensures NormalizedTarget(PathOf(segs)) == PathOf(TargetSegments(segs))
  {
    assert TrimPrefixSlash(PathOf(segs)) == Join(segs);
    SplitJoin(segs);
    if !exists i :: 0 <= i < |segs| && Bracketed(segs[i]) {
      assert TargetSegments(segs) == segs;
    }
  }

  /** Normalizing twice is normalizing once: {id} is its own normal form. */
  lemma NormalizedTargetIdempotent(target: string)
    ensures NormalizedTarget(NormalizedTarget(target)) == NormalizedTarget(target)
  {
    if target != "" {
      var segs := Split(TrimPrefixSlash(target));
      if exists i :: 0 <= i < |segs| && Bracketed(segs[i]) {
        NormalizedTargetOfPath(TargetSegments(segs));
        assert TargetSegments(TargetSegments(segs)) == TargetSegments(segs);
      }
    }
  }

  /** A segment in braces around a non-empty name becomes {id}; every other segment stays. */
  lemma TargetSegmentExact(seg: string)
    ensures forall name :: name != "" && seg == "{" + name + "}" ==> TargetSegment(seg) == "{id}"
    ensures TargetSegment(seg) != seg ==> exists name :: name != "" && seg == "{" + name + "}"
  {
    if |seg| > 2 && seg[0] == '{' && seg[|seg| - 1] == '}' {
      var name := seg[1..|seg| - 1];
      assert seg == "{" + name + "}";
    }
  }

  // ---------- ComputeMatchPath ----------

  function NormalizedContext(context: string): string {
    if context == "" || context == "/" then ""
    else TrimSuffixSlash(if context[0] == '/' then context else "/" + context)
  }

  /** basepath, then the context when it is passed through, then the target, before clean-up. */
  function RawPath(basepath: string, context: string, target: string, passThrough: bool): string {
    TrimSuffixSlash(basepath)
    + (if passThrough then TrimSuffixSlash(NormalizedContext(context)) else "")
    + target
  }

  /** Every run of slashes becomes a single slash, in one pass over the string. */
  function CollapseSlashes(s: string): string {
    if |s| < 2 then s
    else if s[0] == '/' && s[1] == '/' then CollapseSlashes(s[1..])
    else [s[0]] + CollapseSlashes(s[1..])
  }

  function Rooted(s: string): string {
    if s != "" && s[0] == '/' then s else "/" + s
  }

  function WithoutTrailingSlash(s: string): string {
    if |s| > 1 then TrimSuffixSlash(s) else s
  }

  /** What ComputeMatchPath computes, with the slash clean-up done in one pass. */
  function MatchPathOf(basepath: string, context: string, target: string, passThrough: bool): string {
    CollapseSlashes(WithoutTrailingSlash(Rooted(RawPath(basepath, context, target, passThrough))))
  }

  method ComputeMatchPath(basepath: string, context: string, normalizedTarget: string, passThrough: bool)
    returns (result: string)
    ensures result == MatchPathOf(basepath, context, normalizedTarget, passThrough)
  {
    hide CollapseSlashes;
    result := JoinParts(basepath, context, normalizedTarget, passThrough);
    if !("/" <= result) {
      result := "/" + result;
    }
    if |result| > 1 {
      result := TrimSuffixSlash(result);
    }
    result := CleanDoubleSlashes(result);
  }

  method JoinParts(basepath: string, context: string, normalizedTarget: string, passThrough: bool)
    returns (joined: string)
    ensures joined == RawPath(basepath, context, normalizedTarget, passThrough)
  {
    hide Concat, NormalizedContext;
    EmptyConcat();
    var parts: seq<string> := [];
    if basepath != "" {
      ConcatSnoc(parts, TrimSuffixSlash(basepath));
      parts := parts + [TrimSuffixSlash(basepath)];
    }
    if passThrough {
      var ctx := NormalizedContext(context);
      if ctx != "" {
        ConcatSnoc(parts, TrimSuffixSlash(ctx));
        parts := parts + [TrimSuffixSlash(ctx)];
      }
    }
    ConcatSnoc(parts, normalizedTarget);
    parts := parts + [normalizedTarget];
    joined := Concat(parts);
  }

  /** The clean-up loop of ComputeMatchPath: whole-string replacements until no double slash is left. */
  method CleanDoubleSlashes(s: string) returns (result: string)
    ensures result == CollapseSlashes(s)
  {
    hide CollapseSlashes, ReplaceDoubleSlash;
    result := s;
    while HasDoubleSlash(result)
      invariant CollapseSlashes(result) == CollapseSlashes(s)
      decreases |result|
    {
      ReplaceKeepsCollapse(result);
      result := ReplaceDoubleSlash(result);
    }
    CollapseFixpoint(result);
  }

  /** strings.Join(parts, "") */
  function Concat(parts: seq<string>): string {
    if parts == [] then "" else parts[0] + Concat(parts[1..])
  }

  lemma EmptyConcat()
    ensures Concat([]) == ""
  {}

  lemma {:induction false} ConcatSnoc(parts: seq<string>, last: string)
    ensures Concat(parts + [last]) == Concat(parts) + last
    decreases |parts|
  {
    if parts != [] {
      ConcatSnoc(parts[1..], last);
      assert (parts + [last])[1..] == parts[1..] + [last];
    }
  }

  /** A string without a double slash is its own collapse. */
  lemma {:induction false} CollapseFixpoint(s: string)
    requires !HasDoubleSlash(s)
    ensures CollapseSlashes(s) == s
    decreases |s|
  {
    if |s| >= 2 {
      assert !DoubleSlashAt(s, 0);
      assert forall i: nat :: DoubleSlashAt(s[1..], i) ==> DoubleSlashAt(s, i + 1);
      CollapseFixpoint(s[1..]);
      assert s == [s[0]] + s[1..];
    }
  }

  /** Collapsing ignores how often a leading slash is repeated. */
  lemma CollapsePrefix(t: string)
    ensures CollapseSlashes("//" + t) == CollapseSlashes("/" + t)
  {
    assert ("//" + t)[1..] == "/" + t;
  }

  lemma {:induction false} CollapseCons(c: char, s: string, t: string)
    requires CollapseSlashes(s) == CollapseSlashes(t)
    requires s == "" <==> t == ""
    requires s != "" ==> s[0] == t[0]
    ensures CollapseSlashes([c] + s) == CollapseSlashes([c] + t)
  {
    assert ([c] + s)[1..] == s && ([c] + t)[1..] == t;
  }

  /** One ReplaceAll pass shortens a string that has a double slash and keeps its collapse. */
  lemma {:induction false} ReplaceKeepsCollapse(s: string)
    ensures CollapseSlashes(ReplaceDoubleSlash(s)) == CollapseSlashes(s)
    ensures |ReplaceDoubleSlash(s)| <= |s|
    ensures HasDoubleSlash(s) ==> |ReplaceDoubleSlash(s)| < |s|
    ensures s == "" <==> ReplaceDoubleSlash(s) == ""
    ensures s != "" ==> ReplaceDoubleSlash(s)[0] == s[0]
    decreases |s|
  {
    if |s| < 2 {
    } else if s[0] == '/' && s[1] == '/' {
      var t := s[2..];
      ReplaceKeepsCollapse(t);
      CollapseCons('/', ReplaceDoubleSlash(t), t);
      assert s == "//" + t;
      CollapsePrefix(t);
    } else {
      ReplaceKeepsCollapse(s[1..]);
      CollapseCons(s[0], ReplaceDoubleSlash(s[1..]), s[1..]);
      assert s == [s[0]] + s[1..];
      if HasDoubleSlash(s) {
        var i :| 0 <= i < |s| && DoubleSlashAt(s, i);
        assert DoubleSlashAt(s[1..], i - 1);
      }
    }
  }

  lemma {:induction false} CollapseShape(s: string)
    ensures !HasDoubleSlash(CollapseSlashes(s))
    ensures s == "" <==> CollapseSlashes(s) == ""
    ensures s != "" ==> CollapseSlashes(s)[0] == s[0]
    decreases |s|
  {
    if |s| >= 2 {
      CollapseShape(s[1..]);
      var rest := CollapseSlashes(s[1..]);
      if !(s[0] == '/' && s[1] == '/') {
        var r := [s[0]] + rest;
        assert forall i: nat :: i > 0 && DoubleSlashAt(r, i) ==> DoubleSlashAt(rest, i - 1);
      }
    }
  }

  // ---------- What the match path consists of ----------

  /** The non-empty segments of a path, in order. */
  function Names(s: string): seq<string> {
    NonEmpty(Split(s))
  }

  function NonEmpty(segs: seq<string>): seq<string> {
    if segs == [] then []
    else if segs[0] == "" then NonEmpty(segs[1..])
    else [segs[0]] + NonEmpty(segs[1..])
  }

  lemma Regroup(x: seq<string>, y: seq<string>, z: seq<string>)
    ensures (x + y) + z == x + (y + z)
  {}

  lemma NonEmptyCons(x: string, rest: seq<string>)
    ensures NonEmpty([x] + rest) == (if x == "" then [] else [x]) + NonEmpty(rest)
  {
    assert ([x] + rest)[1..] == rest;
  }

  lemma {:induction false} NonEmptyConcat(a: seq<string>, b: seq<string>)
    ensures NonEmpty(a + b) == NonEmpty(a) + NonEmpty(b)
    decreases |a|
  {
    if a == [] {
      assert a + b == b;
    } else {
      var x, rest := a[0], a[1..];
      NonEmptyConcat(rest, b);
      NonEmptyCons(x, rest);
      NonEmptyCons(x, rest + b);
      hide NonEmpty;
      assert a == [x] + rest && a + b == [x] + (rest + b);
      Regroup(if x == "" then [] else [x], NonEmpty(rest), NonEmpty(b));
    }
  }

  lemma DropConcat(x: seq<string>, y: seq<string>)
    requires |x| >= 1
    ensures (x + y)[0] == x[0] && (x + y)[1..] == x[1..] + y
  {}

  lemma SplitCons(c: char, s: string)
    ensures c == '/' ==> Split([c] + s) == [""] + Split(s)
    ensures c != '/' ==> Split([c] + s) == [[c] + Split(s)[0]] + Split(s)[1..]
  {
    assert ([c] + s)[1..] == s;
  }

  lemma {:induction false} SplitAtSlash(a: string, t: string)
    ensures Split(a + "/" + t) == Split(a) + Split(t)
    decreases |a|
  {
    if a == "" {
      assert "" + "/" + t == ['/'] + t;
      SplitCons('/', t);
    } else {
      SplitAtSlash(a[1..], t);
      SplitCons(a[0], a[1..]);
      SplitCons(a[0], a[1..] + "/" + t);
      hide Split;
      assert a == [a[0]] + a[1..];
      assert a + "/" + t == [a[0]] + (a[1..] + "/" + t);
      Regroup([""], Split(a[1..]), Split(t));
      Regroup([[a[0]] + Split(a[1..])[0]], Split(a[1..])[1..], Split(t));
      DropConcat(Split(a[1..]), Split(t));
    }
  }

  lemma NamesAtSlash(a: string, t: string)
    ensures Names(a + "/" + t) == Names(a) + Names(t)
  {
    SplitAtSlash(a, t);
    NonEmptyConcat(Split(a), Split(t));
  }

  lemma NamesOfLeadingSlash(s: string)
    ensures Names("/" + s) == Names(s)
  {
    NamesAtSlash("", s);
    assert "" + "/" + s == "/" + s;
    assert NonEmpty([""]) == [] + NonEmpty([""][1..]);
  }

  lemma NamesOfTrimmed(s: string)
    ensures Names(TrimSuffixSlash(s)) == Names(s)
  {
    if s != "" && s[|s| - 1] == '/' {
      NamesAtSlash(s[..|s| - 1], "");
      assert s == s[..|s| - 1] + "/" + "";
      assert NonEmpty([""]) == NonEmpty([""][1..]);
    }
  }

  lemma NamesConcat(a: string, t: string)
    requires t == "" || t[0] == '/'
    ensures Names(a + t) == Names(a) + Names(t)
  {
    if t == "" {
      assert a + t == a;
      assert NonEmpty([""]) == NonEmpty([""][1..]);
    } else {
      NamesAtSlash(a, t[1..]);
      assert a + t == a + "/" + t[1..];
      NamesOfLeadingSlash(t[1..]);
      assert t == "/" + t[1..];
    }
  }

  lemma {:induction false} NamesOfCollapsed(s: string)
    ensures Names(CollapseSlashes(s)) == Names(s)
    ensures s != "" && s[0] != '/' ==> Split(CollapseSlashes(s))[0] == Split(s)[0]
    decreases |s|
  {
    if |s| >= 2 {
      NamesOfCollapsed(s[1..]);
      CollapseShape(s[1..]);
      var rest := CollapseSlashes(s[1..]);
      if s[0] == '/' && s[1] == '/' {
        NamesOfLeadingSlash(s[1..]);
        assert s == "/" + s[1..];
      } else if s[0] == '/' {
        NamesOfLeadingSlash(s[1..]);
        NamesOfLeadingSlash(rest);
        assert s == "/" + s[1..] && [s[0]] + rest == "/" + rest;
      } else {
        assert ([s[0]] + rest)[1..] == rest;
        ConsNames(s[0], s[1..], rest);
      }
    }
  }

  /** Prepending a non-slash character to two strings with the same names keeps the names equal. */
  lemma ConsNames(c: char, s: string, t: string)
    requires c != '/' && s != "" && t != "" && s[0] == t[0]
    requires Names(s) == Names(t)
    requires s[0] != '/' ==> Split(s)[0] == Split(t)[0]
    ensures Names([c] + s) == Names([c] + t)
    ensures Split([c] + s)[0] == Split([c] + t)[0]
  {
    assert ([c] + s)[1..] == s && ([c] + t)[1..] == t;
    var a, b := Split(s), Split(t);
    if s[0] == '/' {
      assert a[0] == "" && b[0] == "";
    } else {
      assert s == [s[0]] + s[1..] && a[0] != "" && b[0] != "";
      assert NonEmpty(a) == [a[0]] + NonEmpty(a[1..]) && NonEmpty(b) == [b[0]] + NonEmpty(b[1..]);
      assert NonEmpty(a)[1..] == NonEmpty(a[1..]) && NonEmpty(b)[1..] == NonEmpty(b[1..]);
    }
    assert NonEmpty(a[1..]) == NonEmpty(b[1..]);
    var x, y := [[c] + a[0]] + a[1..], [[c] + b[0]] + b[1..];
    assert x[1..] == a[1..] && y[1..] == b[1..];
  }

  lemma RawPathNames(basepath: string, context: string, target: string, passThrough: bool)
    requires target != "" && target[0] == '/'
    ensures Names(RawPath(basepath, context, target, passThrough))
      == Names(basepath) + (if passThrough then Names(context) else []) + Names(target)
  {
    var base := TrimSuffixSlash(basepath);
    NamesOfTrimmed(basepath);
    if passThrough {
      var ctx := TrimSuffixSlash(NormalizedContext(context));
      ContextNames(context);
      NamesConcat(base, ctx);
      NamesConcat(base + ctx, target);
    } else {
      assert base + "" + target == base + target;
      NamesConcat(base, target);
    }
  }

  /** Rooting, trimming one slash and collapsing runs change no name; the result is rooted and clean. */
  lemma CleanedNames(raw: string)
    ensures var r := CollapseSlashes(WithoutTrailingSlash(Rooted(raw)));
      "/" <= r && !HasDoubleSlash(r) && Names(r) == Names(raw)
  {
    var rooted := Rooted(raw);
    var trimmed := WithoutTrailingSlash(rooted);
    CollapseShape(trimmed);
    NamesOfCollapsed(trimmed);
    NamesOfTrimmed(rooted);
    NamesOfLeadingSlash(raw);
  }

  /** The match path is rooted, has no empty inner segment, and for a target that starts with a slash
      names exactly the segments of the base path, then the context if passed through, then the target. */
  lemma MatchPathShape(basepath: string, context: string, target: string, passThrough: bool)
    ensures var r := MatchPathOf(basepath, context, target, passThrough);
      "/" <= r && !HasDoubleSlash(r)
    ensures target != "" && target[0] == '/' ==>
      Names(MatchPathOf(basepath, context, target, passThrough))
      == Names(basepath) + (if passThrough then Names(context) else []) + Names(target)
  {
    CleanedNames(RawPath(basepath, context, target, passThrough));
    if target != "" && target[0] == '/' {
      RawPathNames(basepath, context, target, passThrough);
    }
  }

  lemma ContextNames(context: string)
    ensures var ctx := TrimSuffixSlash(NormalizedContext(context));
      Names(ctx) == Names(context) && (ctx == "" || ctx[0] == '/')
  {
    NamesOfTrimmed(NormalizedContext(context));
    if context == "/" {
      NamesOfTrimmed("/");
    } else if context != "" {
      var rooted := if context[0] == '/' then context else "/" + context;
      NamesOfTrimmed(rooted);
      NamesOfLeadingSlash(context);
    }
  }

  /** The root path aside, a match path ends in a slash exactly when the uncleaned path ends in at
      least two: only one trailing slash is trimmed before runs are collapsed. */
  lemma MatchPathTrailingSlash(basepath: string, context: string, target: string, passThrough: bool)
    ensures var r := MatchPathOf(basepath, context, target, passThrough);
      var rooted := Rooted(RawPath(basepath, context, target, passThrough));
      r != "" &&
      (r[|r| - 1] == '/' <==> |rooted| == 1 || (rooted[|rooted| - 1] == '/' && rooted[|rooted| - 2] == '/'))
  {
    hide CollapseSlashes, RawPath;
    var rooted := Rooted(RawPath(basepath, context, target, passThrough));
    CollapseLast(WithoutTrailingSlash(rooted));
  }

  lemma {:induction false} CollapseLast(s: string)
    requires s != ""
    ensures var r := CollapseSlashes(s); r != "" && r[|r| - 1] == s[|s| - 1]
    decreases |s|
  {
    if |s| >= 2 {
      CollapseLast(s[1..]);
    }
  }

  /** The trailing slash that survives: "/a//" is stored as "/a/". */
  lemma TrailingSlashSurvives()
    ensures MatchPathOf("", "", "/a//", false) == "/a/"
  {
    assert TrimSuffixSlash("/a//") == "/a/";
    assert "/a/"[1..] == "a/" && "a/"[1..] == "/";
    assert RawPath("", "", "/a//", false) == "/a//";
  }

  // ---------- ProcessOperations ----------

  datatype Operation = Operation(verb: string, target: string)

  datatype ProcessedOp = ProcessedOp(apimApiId: string, httpMethod: string, rawTarget: string,
                                     normalizedTarget: string, matchPath: string)

  predicate Skipped(op: Operation) {
    Upper(op.verb) in ["", "OPTIONS", "HEAD"]
  }

  function Processed(apiId: string, context: string, basepath: string, passThrough: bool, op: Operation): ProcessedOp {
    var n := NormalizedTarget(op.target);
    ProcessedOp(apiId, Upper(op.verb), op.target, n, MatchPathOf(basepath, context, n, passThrough))
  }

  /** Every kept operation, in order, carries its normalized target and match path. */
  function ProcessedOps(apiId: string, context: string, basepath: string, passThrough: bool, ops: seq<Operation>): seq<ProcessedOp> {
    if ops == [] then []
    else
      var n := |ops| - 1;
      ProcessedOps(apiId, context, basepath, passThrough, ops[..n])
      + (if Skipped(ops[n]) then [] else [Processed(apiId, context, basepath, passThrough, ops[n])])
  }

  lemma ProcessedSnoc(apiId: string, context: string, basepath: string, passThrough: bool, ops: seq<Operation>, op: Operation)
    ensures ProcessedOps(apiId, context, basepath, passThrough, ops + [op]) ==
      ProcessedOps(apiId, context, basepath, passThrough, ops)
      + (if Skipped(op) then [] else [Processed(apiId, context, basepath, passThrough, op)])
  {
    hide Processed, Skipped;
    assert (ops + [op])[..|ops|] == ops;
  }

  /** The results come one by one from those of the first n operations that have a verb other than OPTIONS
      and HEAD, in their order. */
  predicate Places(ops: seq<Operation>, n: nat, at: seq<nat>) {
    && n <= |ops|
    && (forall j, k :: 0 <= j < k < |at| ==> at[j] < at[k])
    && (forall k :: 0 <= k < |at| ==> at[k] < n)
    && (forall i :: 0 <= i < n ==> (i in at <==> Upper(ops[i].verb) != "" && Upper(ops[i].verb) != "OPTIONS" && Upper(ops[i].verb) != "HEAD"))
  }

  lemma PlacesNext(ops: seq<Operation>, n: nat, at: seq<nat>)
    requires Places(ops, n, at) && n < |ops|
    ensures Places(ops, n + 1, if Skipped(ops[n]) then at else at + [n])
  {
    hide Upper;
  }

  /** Result k keeps the verb in upper case and the raw target of its operation; its match path is computed
      from the normalized target. */
  predicate ProcessedAt(apiId: string, context: string, basepath: string, passThrough: bool, ops: seq<Operation>,
                        at: seq<nat>, results: seq<ProcessedOp>) {
    && |results| == |at|
    && forall k :: 0 <= k < |at| ==>
         && at[k] < |ops|
         && results[k].apimApiId == apiId && results[k].httpMethod == Upper(ops[at[k]].verb)
         && results[k].rawTarget == ops[at[k]].target && results[k].normalizedTarget == NormalizedTarget(ops[at[k]].target)
         && results[k].matchPath == MatchPathOf(basepath, context, NormalizedTarget(ops[at[k]].target), passThrough)
  }

  lemma ProcessedNext(apiId: string, context: string, basepath: string, passThrough: bool, ops: seq<Operation>,
                      at: seq<nat>, results: seq<ProcessedOp>, n: nat)
    requires ProcessedAt(apiId, context, basepath, passThrough, ops, at, results) && n < |ops|
    ensures ProcessedAt(apiId, context, basepath, passThrough, ops, at + [n],
                        results + [Processed(apiId, context, basepath, passThrough, ops[n])])
  {
    hide NormalizedTarget, MatchPathOf, Upper;
  }

  lemma ProcessedNone(apiId: string, context: string, basepath: string, passThrough: bool, ops: seq<Operation>)
    ensures Places(ops, 0, []) && ProcessedOps(apiId, context, basepath, passThrough, ops[..0]) == []
    ensures ProcessedAt(apiId, context, basepath, passThrough, ops, [], [])
  {}

  /** Exactly the kept operations are processed, in order: the k-th result comes from the k-th of them. */
  lemma {:induction false} ProcessedInOrder(apiId: string, context: string, basepath: string, passThrough: bool,
                                            ops: seq<Operation>, n: nat) returns (at: seq<nat>)
    requires n <= |ops|
    ensures Places(ops, n, at)
    ensures ProcessedAt(apiId, context, basepath, passThrough, ops, at,
                        ProcessedOps(apiId, context, basepath, passThrough, ops[..n]))
    decreases n
  {
    hide *;
    if n == 0 {
      ProcessedNone(apiId, context, basepath, passThrough, ops);
      at := [];
    } else {
      var m, op := n - 1, ops[n - 1];
      var before := ProcessedInOrder(apiId, context, basepath, passThrough, ops, m);
      var results := ProcessedOps(apiId, context, basepath, passThrough, ops[..m]);
      assert ops[..n] == ops[..m] + [op];
      ProcessedSnoc(apiId, context, basepath, passThrough, ops[..m], op);
      PlacesNext(ops, m, before);
      ProcessedNext(apiId, context, basepath, passThrough, ops, before, results, m);
      assert results + [] == results;
      at := if Skipped(op) then before else before + [m];
    }
  }

  method ProcessOperations(apiId: string, context: string, operations: seq<Operation>, basepath: string, passThrough: bool)
    returns (ops: seq<ProcessedOp>)
    ensures ops == ProcessedOps(apiId, context, basepath, passThrough, operations)
  {
    ops := [];
    for i := 0 to |operations|
      invariant ops == ProcessedOps(apiId, context, basepath, passThrough, operations[..i])
    {
      assert operations[..i + 1][..i] == operations[..i];
      var op := operations[i];
      var verb := Upper(op.verb);
      if verb == "" || verb == "OPTIONS" || verb == "HEAD" {
        continue;
      }
      var normalized := NormalizeTarget(op.target);
      var matchPath := ComputeMatchPath(basepath, context, normalized, passThrough);
      ops := ops + [ProcessedOp(apiId, verb, op.target, normalized, matchPath)];
    }
    assert operations[..|operations|] == operations;
  }
}
