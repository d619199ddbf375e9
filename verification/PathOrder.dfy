/** Path order: a comparison of strings in which the separator sorts before every other character,
    and what that order means for the components of a path. */
module PathOrder {

  /** The order of strings by their characters. */
  predicate StrLt(a: string, b: string) {
    b != "" && (a == "" || a[0] < b[0] || (a[0] == b[0] && StrLt(a[1..], b[1..])))
  }

  predicate StrLe(a: string, b: string) {
    a == b || StrLt(a, b)
  }

  function ReplaceChar(c: char, was: char, now: char): char {
    if c == was then now else c
  }

  function Replace(s: string, was: char, now: char): (r: string)
    ensures |r| == |s| && forall i :: 0 <= i < |s| ==> r[i] == ReplaceChar(s[i], was, now)
  {
    seq(|s|, i requires 0 <= i < |s| => ReplaceChar(s[i], was, now))
  }

  /** Depth-first path order: replace the separator by the least character and compare. */
  predicate Less(a: string, b: string) {
    StrLt(Replace(a, '/', '\0'), Replace(b, '/', '\0'))
  }

  /** The comparison without building the replaced strings. */
  method CompareReplaceInline(s1: string, s2: string, was: char, now: char) returns (r: int)
    ensures r < 0 <==> StrLt(Replace(s1, was, now), Replace(s2, was, now))
    ensures r > 0 <==> StrLt(Replace(s2, was, now), Replace(s1, was, now))
    ensures r == 0 <==> Replace(s1, was, now) == Replace(s2, was, now)
  {
    ghost var a, b := Replace(s1, was, now), Replace(s2, was, now);
    var l := if |s2| < |s1| then |s2| else |s1|;
    for i := 0 to l
      invariant a[..i] == b[..i]
    {
      CommonPrefix(a, b, i);
      CommonPrefix(b, a, i);
      var c1, c2 := s1[i], s2[i];
      if c1 == was {
        c1 := now;
      }
      if c2 == was {
        c2 := now;
      }
      if c1 < c2 {
        return -1;
      }
      if c1 > c2 {
        return 1;
      }
      assert a[..i + 1] == a[..i] + [a[i]] && b[..i + 1] == b[..i] + [b[i]];
    }
    CommonPrefix(a, b, l);
    CommonPrefix(b, a, l);
    assert |s1| == |s2| ==> a == a[..l] && b == b[..l];
    return if |s1| < |s2| then -1 else if |s1| > |s2| then 1 else 0;
  }

  method LessPath(a: string, b: string) returns (r: bool)
    ensures r == Less(a, b)
  {
    var c := CompareReplaceInline(a, b, '/', '\0');
    return c < 0;
  }

  lemma {:induction false} CommonPrefix(a: string, b: string, i: nat)
    requires i <= |a| && i <= |b| && a[..i] == b[..i]
    ensures StrLt(a, b) <==> StrLt(a[i..], b[i..])
    decreases i
  {
    if i == 0 {
    } else {
      assert a[0] == a[..i][0] == b[..i][0] == b[0];
      assert a[1..][..i - 1] == a[..i][1..] && b[1..][..i - 1] == b[..i][1..];
      CommonPrefix(a[1..], b[1..], i - 1);
      assert a[1..][i - 1..] == a[i..] && b[1..][i - 1..] == b[i..];
    }
  }

  // ---------------------------------------------------------------------------------------------
  // String order is a strict total order

  lemma {:induction false} StrLtTotal(a: string, b: string)
    ensures StrLt(a, b) ==> !StrLt(b, a) && a != b
    ensures StrLt(a, b) || StrLt(b, a) || a == b
    decreases |a|
  {
    if a != "" && b != "" {
      StrLtTotal(a[1..], b[1..]);
      assert a[0] == b[0] && a[1..] == b[1..] ==> a == [a[0]] + a[1..] && b == [b[0]] + b[1..];
    }
  }

  lemma {:induction false} StrLtTransitive(a: string, b: string, c: string)
    requires StrLt(a, b) && StrLt(b, c)
    ensures StrLt(a, c)
    decreases |a|
  {
    if a != "" && a[0] == b[0] == c[0] {
      StrLtTransitive(a[1..], b[1..], c[1..]);
    }
  }

  /** What lies beyond `h` stays beyond it however it is extended. */
  lemma {:induction false} ExtensionStaysBeyond(a: string, x: string, h: string)
    requires StrLe(a + x, h)
    ensures StrLe(a, h)
    decreases |a|
  {
    if a != "" && h != "" {
      assert (a + x)[0] == a[0] && (a + x)[1..] == a[1..] + x;
      if a[0] == h[0] {
        if a + x == h { assert a[1..] + x == h[1..]; }
        ExtensionStaysBeyond(a[1..], x, h[1..]);
        assert a[1..] == h[1..] ==> a == [a[0]] + a[1..] && h == [h[0]] + h[1..];
      }
    }
  }

  lemma {:induction false} ExtensionIsGreater(h: string, x: string)
    requires x != ""
    ensures StrLt(h, h + x)
    decreases |h|
  {
    if h == "" {
    } else {
      assert (h + x)[0] == h[0] && (h + x)[1..] == h[1..] + x;
      ExtensionIsGreater(h[1..], x);
    }
  }

  // ---------------------------------------------------------------------------------------------
  // Components

  type Path = seq<string>

  /** A component of a clean path: not empty, not a dot or two, and free of the separator and the null
      character. */
  predicate IsName(n: string) {
    n != "" && n != "." && n != ".." && forall i :: 0 <= i < |n| ==> n[i] != '/' && n[i] != '\0'
  }

  predicate IsPath(p: Path) {
    forall i :: 0 <= i < |p| ==> IsName(p[i])
  }

  function Body(p: Path): string {
    if p == [] then "" else "/" + p[0] + Body(p[1..])
  }

  /** The clean absolute path string. */
  function Render(p: Path): string {
    if p == [] then "/" else Body(p)
  }

  /** Component by component, a path before its extensions. */
  predicate ComponentLt(a: Path, b: Path) {
    b != [] && (a == [] || StrLt(a[0], b[0]) || (a[0] == b[0] && ComponentLt(a[1..], b[1..])))
  }

  predicate EndsOrSeparates(s: string) {
    s == "" || s[0] == '\0'
  }

  lemma {:induction false} NameThenRest(x: string, y: string, r: string, t: string)
    requires (forall i :: 0 <= i < |x| ==> x[i] != '\0') && (forall i :: 0 <= i < |y| ==> y[i] != '\0')
    requires EndsOrSeparates(r) && EndsOrSeparates(t)
    ensures StrLt(x + r, y + t) <==> StrLt(x, y) || (x == y && StrLt(r, t))
    decreases |x|
  {
    if x != "" && y != "" {
      assert (x + r)[0] == x[0] && (y + t)[0] == y[0];
      assert (x + r)[1..] == x[1..] + r && (y + t)[1..] == y[1..] + t;
      NameThenRest(x[1..], y[1..], r, t);
      assert x[0] == y[0] && x[1..] == y[1..] ==> x == [x[0]] + x[1..] && y == [y[0]] + y[1..];
    } else {
      assert x == "" ==> x + r == r;
      assert y == "" ==> y + t == t;
      assert x != "" ==> (x + r)[0] == x[0];
      assert y != "" ==> (y + t)[0] == y[0];
    }
  }

  lemma ReplaceName(n: string)
    requires IsName(n)
    ensures Replace(n, '/', '\0') == n
  {
  }

  lemma {:induction false} ReplaceBody(p: Path)
    requires p != [] && IsPath(p)
    ensures Replace(Body(p), '/', '\0') == "\0" + (p[0] + Replace(Body(p[1..]), '/', '\0'))
  {
    var rest := Body(p[1..]);
    assert Body(p) == "/" + (p[0] + rest);
    ReplaceName(p[0]);
    assert Replace(p[0] + rest, '/', '\0') == Replace(p[0], '/', '\0') + Replace(rest, '/', '\0');
  }

  lemma {:induction false} ReplaceBodySeparates(p: Path)
    ensures EndsOrSeparates(Replace(Body(p), '/', '\0'))
  {
  }

  /** The depth-first order of path strings is the component-wise order. */
  lemma {:induction false} LessIsComponentwise(a: Path, b: Path)
    requires IsPath(a) && IsPath(b)
    ensures Less(Body(a), Body(b)) <==> ComponentLt(a, b)
    decreases |a|
  {
    if a != [] && b != [] {
      var r, t := Replace(Body(a[1..]), '/', '\0'), Replace(Body(b[1..]), '/', '\0');
      ReplaceBody(a);
      ReplaceBody(b);
      ReplaceBodySeparates(a[1..]);
      ReplaceBodySeparates(b[1..]);
      CommonPrefix("\0" + (a[0] + r), "\0" + (b[0] + t), 1);
      NameThenRest(a[0], b[0], r, t);
      LessIsComponentwise(a[1..], b[1..]);
    }
  }

  lemma {:induction false} RenderedOrder(a: Path, b: Path)
    requires IsPath(a) && IsPath(b)
    ensures Less(Render(a), Render(b)) <==> ComponentLt(a, b)
  {
    LessIsComponentwise(a, b);
    StrLtTotal(Replace("/", '/', '\0'), Replace("/", '/', '\0'));
    if a == [] && b != [] {
      ReplaceBody(b);
      assert Replace("/", '/', '\0') == "\0";
      CommonPrefix("\0", Replace(Body(b), '/', '\0'), 1);
    } else if b == [] && a != [] {
      ReplaceBody(a);
      assert Replace("/", '/', '\0') == "\0";
      CommonPrefix(Replace(Body(a), '/', '\0'), "\0", 1);
    }
  }
}
