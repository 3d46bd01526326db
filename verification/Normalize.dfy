/** internal/discovery/normalize.go: dynamic path segments become {id}.
    A compiled pattern is an arbitrary predicate on one segment. */
module Normalize {
  import opened Text

  type Pattern = string -> bool

  datatype Normalizer = Normalizer(excludePatterns: seq<Pattern>, builtinPatterns: seq<Pattern>, userPatterns: seq<Pattern>)

  predicate AnyMatch(s: string, patterns: seq<Pattern>) {
    exists i :: 0 <= i < |patterns| && patterns[i](s)
  }

  method MatchesAny(s: string, patterns: seq<Pattern>) returns (found: bool)
    ensures found <==> AnyMatch(s, patterns)
  {
    for i := 0 to |patterns|
      invariant forall j :: 0 <= j < i ==> !patterns[j](s)
    {
      if patterns[i](s) {
        return true;
      }
    }
    return false;
  }

  /** The segments that Normalize rewrites: over-long ones, and matched ones that no exclude pattern keeps. */
  predicate Dynamic(n: Normalizer, seg: string) {
    seg != "" &&
    (|seg| > 255 ||
     (!AnyMatch(seg, n.excludePatterns) && (AnyMatch(seg, n.builtinPatterns) || AnyMatch(seg, n.userPatterns))))
  }

  function NormalSegment(n: Normalizer, seg: string): string {
    if Dynamic(n, seg) then "{id}" else seg
  }

  function NormalSegments(n: Normalizer, segs: seq<string>): (r: seq<string>)
    ensures |r| == |segs|
    ensures Segments(segs) ==> Segments(r)
  {
    seq(|segs|, i requires 0 <= i < |segs| => NormalSegment(n, segs[i]))
  }

  function Normalized(n: Normalizer, path: string): string {
    if path == "" || path == "/" then path
    else
      var segs := Split(TrimPrefixSlash(path));
      if exists i :: 0 <= i < |segs| && Dynamic(n, segs[i]) then PathOf(NormalSegments(n, segs)) else path
  }

  method NormalizePath(n: Normalizer, path: string) returns (r: string)
    ensures r == Normalized(n, path)
  {
    if path == "" || path == "/" {
      return path;
    }
    var original := Split(TrimPrefixSlash(path));
    hide Split, Join;
    var segments := original;
    var changed := false;
    for i := 0 to |segments|
      invariant |segments| == |original|
      invariant forall j :: 0 <= j < i ==> segments[j] == NormalSegment(n, original[j])
      invariant forall j :: i <= j < |segments| ==> segments[j] == original[j]
      invariant changed <==> exists j :: 0 <= j < i && Dynamic(n, original[j])
    {
      var seg := segments[i];
      if seg == "" {
        continue;
      }
      if |seg| > 255 {
        segments := segments[i := "{id}"];
        changed := true;
        continue;
      }
      var excluded := MatchesAny(seg, n.excludePatterns);
      if excluded {
        continue;
      }
      var builtin := MatchesAny(seg, n.builtinPatterns);
      if builtin {
        segments := segments[i := "{id}"];
        changed := true;
        continue;
      }
      var user := MatchesAny(seg, n.userPatterns);
      if user {
        segments := segments[i := "{id}"];
        changed := true;
        continue;
      }
    }
    assert segments == NormalSegments(n, original);
    if !changed {
      return path;
    }
    return "/" + Join(segments);
  }

  /** Each segment on its own: an empty one stays; an over-long one is a placeholder whatever the patterns
      say; any other stays when an exclude pattern matches it, and else is a placeholder exactly when a
      builtin or user pattern does. */
  lemma NormalSegmentExact(n: Normalizer, seg: string)
    ensures seg == "" ==> NormalSegment(n, seg) == ""
    ensures |seg| >= 256 ==> NormalSegment(n, seg) == "{id}"
    ensures 1 <= |seg| <= 255 && (exists p: Pattern :: p in n.excludePatterns && p(seg)) ==> NormalSegment(n, seg) == seg
    ensures 1 <= |seg| <= 255 && (forall p: Pattern :: p in n.excludePatterns ==> !p(seg)) ==>
      NormalSegment(n, seg) == if exists p: Pattern :: (p in n.builtinPatterns || p in n.userPatterns) && p(seg) then "{id}" else seg
  {
    forall patterns: seq<Pattern>
      ensures AnyMatch(seg, patterns) <==> exists p: Pattern :: p in patterns && p(seg)
    {
      if p :| p in patterns && p(seg) {
        var i :| 0 <= i < |patterns| && patterns[i] == p;
      }
    }
    hide AnyMatch;
  }

  /** On a rooted path Normalize works segment by segment, also when nothing changes. */
  lemma NormalizedOfPath(n: Normalizer, segs: seq<string>)
    requires |segs| >= 1 && Segments(segs)
    ensures Normalized(n, PathOf(segs)) == PathOf(NormalSegments(n, segs))
  {
    assert TrimPrefixSlash(PathOf(segs)) == Join(segs);
    SplitJoin(segs);
    if PathOf(segs) == "/" {
      assert Join(segs) == "";
      assert Split("") == [""];
      assert NormalSegments(n, segs) == segs;
    } else if !exists i :: 0 <= i < |segs| && Dynamic(n, segs[i]) {
      assert NormalSegments(n, segs) == segs;
    }
  }

  /** Normalizing a rooted path again changes nothing, whatever the patterns say of the placeholder. */
  lemma NormalizedTwice(n: Normalizer, segs: seq<string>)
    requires |segs| >= 1 && Segments(segs)
    ensures Normalized(n, Normalized(n, PathOf(segs))) == Normalized(n, PathOf(segs))
  {
    NormalizedOfPath(n, segs);
    NormalizedOfPath(n, NormalSegments(n, segs));
    assert NormalSegments(n, NormalSegments(n, segs)) == NormalSegments(n, segs);
  }
}
