/** The few string operations of the Go standard library that the pipeline relies on.
    A Go string is a byte sequence; here one char stands for one byte. */
module Text {

  /** strings.TrimPrefix(s, "/") */
  function TrimPrefixSlash(s: string): string {
    if s != "" && s[0] == '/' then s[1..] else s
  }

  /** strings.TrimSuffix(s, "/") */
  function TrimSuffixSlash(s: string): string {
    if s != "" && s[|s| - 1] == '/' then s[..|s| - 1] else s
  }

  function TrimLeft(s: string): string {
    if s != "" && s[0] == '/' then TrimLeft(s[1..]) else s
  }

  function TrimRight(s: string): string {
    if s != "" && s[|s| - 1] == '/' then TrimRight(s[..|s| - 1]) else s
  }

  /** strings.Trim(s, "/") */
  function TrimSlashes(s: string): string {
    TrimRight(TrimLeft(s))
  }

  /** A string that neither starts nor ends with a slash. */
  predicate NoEdgeSlash(s: string) {
    s == "" || (s[0] != '/' && s[|s| - 1] != '/')
  }

  lemma {:induction false} TrimRightFacts(s: string)
    ensures TrimRight(s) <= s
    ensures TrimRight(s) == "" || TrimRight(s)[|TrimRight(s)| - 1] != '/'
    decreases |s|
  {
    if s != "" && s[|s| - 1] == '/' {
      TrimRightFacts(s[..|s| - 1]);
    }
  }

  lemma {:induction false} TrimLeftFacts(s: string)
    ensures TrimLeft(s) == "" || TrimLeft(s)[0] != '/'
    decreases |s|
  {
    if s != "" && s[0] == '/' {
      TrimLeftFacts(s[1..]);
    }
  }

  lemma TrimSlashesNoEdge(s: string)
    ensures NoEdgeSlash(TrimSlashes(s))
  {
    TrimLeftFacts(s);
    TrimRightFacts(TrimLeft(s));
  }

  lemma TrimSlashesOfRooted(s: string)
    requires NoEdgeSlash(s)
    ensures TrimSlashes("/" + s) == s
  {
    assert ("/" + s)[1..] == s;
    assert TrimLeft("/" + s) == TrimLeft(s) == s;
  }

  predicate NoSlash(s: string) {
    '/' !in s
  }

  predicate Segments(segs: seq<string>) {
    forall i :: 0 <= i < |segs| ==> NoSlash(segs[i])
  }

  /** strings.Split(s, "/") */
  function Split(s: string): (segs: seq<string>)
    ensures |segs| >= 1
    ensures Segments(segs)
  {
    if s == "" then [""]
    else if s[0] == '/' then [""] + Split(s[1..])
    else
      var rest := Split(s[1..]);
      [[s[0]] + rest[0]] + rest[1..]
  }

  /** strings.Join(segs, "/") */
  function Join(segs: seq<string>): string {
    if |segs| == 0 then ""
    else if |segs| == 1 then segs[0]
    else segs[0] + "/" + Join(segs[1..])
  }

  /** The path whose segments are segs; the root path when there are none. */
  function PathOf(segs: seq<string>): string {
    "/" + Join(segs)
  }

  lemma SplitStep(s: string)
    requires s != ""
    ensures s[0] == '/' ==> Split(s) == [""] + Split(s[1..])
    ensures s[0] != '/' ==> Split(s) == [[s[0]] + Split(s[1..])[0]] + Split(s[1..])[1..]
    ensures Split("") == [""]
  {}

  lemma JoinCons(first: string, rest: seq<string>)
    ensures Join([first] + rest) == if rest == [] then first else first + "/" + Join(rest)
  {
    assert ([first] + rest)[1..] == rest;
  }

  lemma JoinSlash(segs: seq<string>)
    requires |segs| >= 1
    ensures Join([""] + segs) == "/" + Join(segs)
  {
    JoinCons("", segs);
    hide Join;
    assert "" + "/" + Join(segs) == "/" + Join(segs);
  }

  lemma JoinGrow(c: char, segs: seq<string>)
    requires |segs| >= 1
    ensures Join([[c] + segs[0]] + segs[1..]) == [c] + Join(segs)
  {
    var first, rest := segs[0], segs[1..];
    JoinCons(first, rest);
    JoinCons([c] + first, rest);
    hide Join;
    assert segs == [first] + rest;
    Prepend(c, first, Join(rest));
  }

  lemma Prepend(c: char, first: string, tail: string)
    ensures ([c] + first) + "/" + tail == [c] + (first + "/" + tail)
  {}

  lemma {:induction false} JoinSplit(s: string)
    ensures Join(Split(s)) == s
    decreases |s|
  {
    if s != "" {
      JoinSplit(s[1..]);
      SplitStep(s);
      JoinSlash(Split(s[1..]));
      JoinGrow(s[0], Split(s[1..]));
      hide Join, Split;
      assert s == [s[0]] + s[1..];
    }
  }

  lemma {:induction false} SplitSegment(seg: string, t: string)
    requires NoSlash(seg)
    ensures Split(seg) == [seg]
    ensures Split(seg + "/" + t) == [seg] + Split(t)
    decreases |seg|
  {
    if seg == "" {
      assert ("" + "/" + t)[1..] == t;
    } else {
      SplitSegment(seg[1..], t);
      assert seg == [seg[0]] + seg[1..];
      assert (seg + "/" + t)[1..] == seg[1..] + "/" + t;
      assert Split(seg[1..] + "/" + t) == [seg[1..]] + Split(t);
      assert ([seg[1..]] + Split(t))[1..] == Split(t);
    }
  }

  lemma {:induction false} SplitJoin(segs: seq<string>)
    requires |segs| >= 1 && Segments(segs)
    ensures Split(Join(segs)) == segs
    decreases |segs|
  {
    if |segs| == 1 {
      SplitSegment(segs[0], "");
    } else {
      SplitJoin(segs[1..]);
      SplitSegment(segs[0], Join(segs[1..]));
      assert segs == [segs[0]] + segs[1..];
    }
  }

  lemma {:induction false} JoinAppend(a: seq<string>, b: seq<string>)
    requires |a| >= 1 && |b| >= 1
    ensures Join(a + b) == Join(a) + "/" + Join(b)
    decreases |a|
  {
    if |a| == 1 {
      assert (a + b)[1..] == b;
    } else {
      JoinAppend(a[1..], b);
      assert (a + b)[1..] == a[1..] + b;
    }
  }

  lemma {:induction false} JoinLast(segs: seq<string>)
    requires |segs| >= 1
    ensures segs[|segs| - 1] != "" ==> Join(segs) != ""
    ensures segs[|segs| - 1] != "" ==> Join(segs)[|Join(segs)| - 1] == segs[|segs| - 1][|segs[|segs| - 1]| - 1]
    decreases |segs|
  {
    if |segs| > 1 {
      JoinLast(segs[1..]);
    }
  }

  /** The first and last segments of a string without edge slashes are non-empty. */
  lemma {:induction false} SplitEdges(s: string)
    requires s != ""
    ensures s[0] != '/' ==> Split(s)[0] != ""
    ensures s[|s| - 1] != '/' ==> Split(s)[|Split(s)| - 1] != ""
    decreases |s|
  {
    SplitStep(s);
    hide Split;
    if |s| == 1 {
      assert s[1..] == "";
    } else {
      SplitEdges(s[1..]);
    }
  }

  lemma JoinNoEdge(segs: seq<string>)
    requires |segs| >= 1 && Segments(segs)
    requires segs[0] != "" && segs[|segs| - 1] != ""
    ensures NoEdgeSlash(Join(segs))
  {
    JoinLast(segs);
    assert segs[0][0] != '/';
    var last := segs[|segs| - 1];
    assert last[|last| - 1] in last;
  }

  lemma {:induction false} JoinTrailing(segs: seq<string>)
    requires |segs| >= 1 && Segments(segs)
    requires segs[|segs| - 1] != ""
    ensures Join(segs) != "" && Join(segs)[|Join(segs)| - 1] != '/'
  {
    JoinLast(segs);
    var last := segs[|segs| - 1];
    assert last[|last| - 1] in last;
  }

  predicate DoubleSlashAt(s: string, i: nat) {
    i + 1 < |s| && s[i] == '/' && s[i + 1] == '/'
  }

  /** strings.Contains(s, "//") */
  predicate HasDoubleSlash(s: string) {
    exists i :: 0 <= i < |s| && DoubleSlashAt(s, i)
  }

  /** One pass of strings.ReplaceAll(s, "//", "/"): left to right, non-overlapping. */
  function ReplaceDoubleSlash(s: string): string {
    if |s| < 2 then s
    else if s[0] == '/' && s[1] == '/' then "/" + ReplaceDoubleSlash(s[2..])
    else [s[0]] + ReplaceDoubleSlash(s[1..])
  }

  /** strings.ReplaceAll(s, [from], [to]) for single characters. */
  function ReplaceChar(s: string, from: char, to: char): (r: string)
    ensures |r| == |s|
    ensures forall i :: 0 <= i < |s| ==> r[i] == if s[i] == from then to else s[i]
  {
    seq(|s|, i requires 0 <= i < |s| => if s[i] == from then to else s[i])
  }

  function LowerChar(c: char): char {
    if 'A' <= c <= 'Z' then c + 32 as char else c
  }

  /** strings.ToLower on ASCII letters. */
  function Lower(s: string): string {
    seq(|s|, i requires 0 <= i < |s| => LowerChar(s[i]))
  }

  function UpperChar(c: char): char {
    if 'a' <= c <= 'z' then c - 32 as char else c
  }

  /** strings.ToUpper on ASCII letters. */
  function Upper(s: string): string {
    seq(|s|, i requires 0 <= i < |s| => UpperChar(s[i]))
  }

  predicate OccursAt(s: string, sub: string, i: nat) {
    i <= |s| - |sub| && s[i..i + |sub|] == sub
  }

  /** strings.Contains(s, sub) */
  predicate Contains(s: string, sub: string) {
    exists i :: 0 <= i <= |s| && OccursAt(s, sub, i)
  }

  /** strings.LastIndex(s, [c]), or -1 */
  function LastIndex(s: string, c: char): (i: int)
    ensures -1 <= i < |s|
    ensures i == -1 <==> c !in s
    ensures i >= 0 ==> s[i] == c && c !in s[i + 1..]
  {
    if s == "" then -1
    else if s[|s| - 1] == c then |s| - 1
    else
      var i := LastIndex(s[..|s| - 1], c);
      assert s == s[..|s| - 1] + [s[|s| - 1]];
      assert i >= 0 ==> s[i + 1..] == s[..|s| - 1][i + 1..] + [s[|s| - 1]];
      i
  }

  /** Decimal digits of n, as fmt's %d prints them. */
  function Decimal(n: nat): (d: string)
    ensures |d| >= 1
    ensures forall i :: 0 <= i < |d| ==> '0' <= d[i] <= '9'
  {
    if n < 10 then ['0' + n as char]
    else Decimal(n / 10) + ['0' + (n % 10) as char]
  }

  lemma {:induction false} DecimalInjective(m: nat, n: nat)
    requires Decimal(m) == Decimal(n)
    ensures m == n
    decreases m
  {
    var dm, dn := Decimal(m), Decimal(n);
    assert dm[|dm| - 1] == dn[|dn| - 1];
    if m >= 10 && n >= 10 {
      assert dm[..|dm| - 1] == Decimal(m / 10);
      assert dn[..|dn| - 1] == Decimal(n / 10);
      DecimalInjective(m / 10, n / 10);
    }
  }

  /** Go's <= on strings: lexicographic by byte. */
  predicate LexLeq(a: string, b: string) {
    if a == "" then true
    else if b == "" then false
    else if a[0] == b[0] then LexLeq(a[1..], b[1..])
    else a[0] < b[0]
  }

  lemma {:induction false} LexTotal(a: string, b: string)
    ensures LexLeq(a, b) || LexLeq(b, a)
    ensures LexLeq(a, b) && LexLeq(b, a) ==> a == b
    decreases |a|
  {
    if a != "" && b != "" {
      LexTotal(a[1..], b[1..]);
      assert a == [a[0]] + a[1..] && b == [b[0]] + b[1..];
    }
  }

  lemma {:induction false} LexTransitive(a: string, b: string, c: string)
    requires LexLeq(a, b) && LexLeq(b, c)
    ensures LexLeq(a, c)
    decreases |a|
  {
    if a != "" && b != "" && c != "" && a[0] == b[0] == c[0] {
      LexTransitive(a[1..], b[1..], c[1..]);
    }
  }

  /** The order is that of the first difference; a prefix comes first. */
  lemma {:induction false} LexLeqIff(a: string, b: string)
    ensures LexLeq(a, b) <==> a <= b || exists i :: 0 <= i < |a| && DiffersAt(a, b, i)
    decreases |a|
  {
    if a != "" && b != "" {
      LexLeqIff(a[1..], b[1..]);
      if a[0] == b[0] {
        if i :| 0 <= i < |a| - 1 && DiffersAt(a[1..], b[1..], i) {
          assert DiffersAt(a, b, i + 1);
        }
        if i :| 0 <= i < |a| && DiffersAt(a, b, i) {
          assert DiffersAt(a[1..], b[1..], i - 1);
        }
        assert a == [a[0]] + a[1..] && b == [b[0]] + b[1..];
      } else {
        assert a[0] < b[0] ==> DiffersAt(a, b, 0);
      }
    }
  }

  predicate DiffersAt(a: string, b: string, i: nat) {
    i < |a| && i < |b| && a[i] < b[i] && forall j :: 0 <= j < i ==> a[j] == b[j]
  }

  /** Case changes are those of the 26 ASCII letters, whose codes are 32 apart. */
  lemma CaseExact(s: string, i: nat)
    requires i < |s|
    ensures |Lower(s)| == |Upper(s)| == |s|
    ensures Lower(s)[i] as int == s[i] as int + if 65 <= s[i] as int <= 90 then 32 else 0
    ensures Upper(s)[i] as int == s[i] as int - if 97 <= s[i] as int <= 122 then 32 else 0
  {}
}
