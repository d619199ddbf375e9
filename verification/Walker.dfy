/** The walk as it runs: on path strings, over listings in any order, in loops. */
module Walker {
  import opened PathOrder
  import opened Wrappers
  import opened Walk

  // ---------------------------------------------------------------------------------------------
  // Path strings

  function NextSlash(s: string): (i: nat)
    ensures i <= |s| && (i < |s| ==> s[i] == '/') && forall k :: 0 <= k < i ==> s[k] != '/'
  {
    if s == "" || s[0] == '/' then 0 else 1 + NextSlash(s[1..])
  }

  /** The components of an absolute path string. */
  function Components(s: string): Path
    decreases |s|
  {
    if |s| <= 1 then [] else
      var i := NextSlash(s[1..]);
      [s[1..][..i]] + Components(s[1..][i..])
  }

  lemma {:induction false} ComponentsOfBody(p: Path)
    requires IsPath(p)
    ensures Components(Body(p)) == p
    decreases |p|
  {
    if p == [] {
    } else {
      FirstComponent(p[0], Body(p[1..]));
      ComponentsOfBody(p[1..]);
    }
  }

  lemma {:induction false} FirstComponent(n: string, rest: string)
    requires IsName(n) && (rest == "" || rest[0] == '/')
    ensures Components("/" + n + rest) == [n] + Components(rest)
  {
    var s := "/" + n + rest;
    assert s[1..] == n + rest;
    assert forall k :: 0 <= k < |n| ==> s[1..][k] == n[k];
    assert rest != "" ==> s[1..][|n|] == '/';
    assert NextSlash(s[1..]) == |n|;
    assert s[1..][..|n|] == n && s[1..][|n|..] == rest;
  }

  lemma ComponentsOfRendered(p: Path)
    requires IsPath(p)
    ensures Components(Render(p)) == p
  {
    ComponentsOfBody(p);
  }

  /** One past the last separator. */
  function AfterLastSlash(s: string): (i: nat)
    ensures i <= |s|
    ensures forall k :: i <= k < |s| ==> s[k] != '/'
    ensures i > 0 ==> s[i - 1] == '/'
  {
    if s == "" then 0 else if s[|s| - 1] == '/' then |s| else AfterLastSlash(s[..|s| - 1])
  }

  /** The directory of a path string, without a trailing separator unless it is the root. */
  function ParentOf(s: string): string {
    var dir := s[..AfterLastSlash(s)];
    if |dir| > 1 && dir[|dir| - 1] == '/' then dir[..|dir| - 1] else dir
  }

  lemma ParentOfRendered(p: Path, n: string)
    requires IsName(n) && IsPath(p)
    ensures ParentOf(Render(p + [n])) == Render(p)
  {
    RenderChild(p, n);
    var s := Render(p + [n]);
    var b := Body(p);
    assert s == b + "/" + n && s[|b|] == '/';
    assert forall k :: |b| + 1 <= k < |s| ==> s[k] == n[k - |b| - 1];
    assert AfterLastSlash(s) == |b| + 1;
    assert s[..|b| + 1] == b + "/";
  }

  // ---------------------------------------------------------------------------------------------
  // Listing and sorting

  ghost predicate InOrder(xs: seq<string>) {
    forall i, j :: 0 <= i < j < |xs| ==> StrLe(xs[i], xs[j])
  }

  lemma StrLeTransitive(a: string, b: string, c: string)
    requires StrLe(a, b) && StrLe(b, c)
    ensures StrLe(a, c)
  {
    if StrLt(a, b) && StrLt(b, c) { StrLtTransitive(a, b, c); }
  }

  method SortStrings(xs: seq<string>) returns (ys: seq<string>)
    ensures multiset(ys) == multiset(xs) && InOrder(ys)
  {
    ys := [];
    for i := 0 to |xs|
      invariant multiset(ys) == multiset(xs[..i]) && InOrder(ys)
    {
      assert xs[..i + 1] == xs[..i] + [xs[i]];
      ys := Insert(xs[i], ys);
    }
    assert xs[..|xs|] == xs;
  }

  method Insert(x: string, ys: seq<string>) returns (zs: seq<string>)
    requires InOrder(ys)
    ensures multiset(zs) == multiset(ys) + multiset{x} && InOrder(zs)
  {
    var i := 0;
    while i < |ys| && StrLe(ys[i], x)
      invariant 0 <= i <= |ys|
      invariant forall k :: 0 <= k < i ==> StrLe(ys[k], x)
    {
      i := i + 1;
    }
    forall k | i <= k < |ys| ensures StrLe(x, ys[k]) {
      StrLtTotal(ys[i], x);
      if k > i { StrLeTransitive(x, ys[i], ys[k]); }
    }
    zs := ys[..i] + [x] + ys[i..];
    Inserted(ys, i, x);
  }

  lemma Inserted(ys: seq<string>, i: nat, x: string)
    requires InOrder(ys) && i <= |ys|
    requires (forall k :: 0 <= k < i ==> StrLe(ys[k], x)) && (forall k :: i <= k < |ys| ==> StrLe(x, ys[k]))
    ensures var zs := ys[..i] + [x] + ys[i..]; InOrder(zs) && multiset(zs) == multiset(ys) + multiset{x}
  {
    var zs := ys[..i] + [x] + ys[i..];
    forall j, k | 0 <= j < k < |zs| ensures StrLe(zs[j], zs[k]) {
      assert zs[j] == if j < i then ys[j] else if j == i then x else ys[j - 1];
      assert zs[k] == if k < i then ys[k] else if k == i then x else ys[k - 1];
    }
    assert ys == ys[..i] + ys[i..];
  }

  lemma FirstIsLeast(xs: seq<string>, x: string)
    requires InOrder(xs) && x in xs
    ensures StrLe(xs[0], x)
  {
  }

  lemma SameFirst(xs: seq<string>, ys: seq<string>)
    requires InOrder(xs) && InOrder(ys) && multiset(xs) == multiset(ys) && xs != [] && ys != []
    ensures xs[0] == ys[0]
  {
    assert xs[0] in multiset(ys) && ys[0] in multiset(xs);
    FirstIsLeast(ys, xs[0]);
    FirstIsLeast(xs, ys[0]);
    StrLtTotal(xs[0], ys[0]);
  }

  lemma TailMultiset(xs: seq<string>)
    requires xs != []
    ensures multiset(xs[1..]) == multiset(xs) - multiset{xs[0]}
  {
    assert xs == [xs[0]] + xs[1..];
  }

  lemma {:induction false} SortedIsUnique(xs: seq<string>, ys: seq<string>)
    requires InOrder(xs) && InOrder(ys) && multiset(xs) == multiset(ys)
    ensures xs == ys
    decreases |xs|
  {
    assert |xs| == |multiset(xs)| == |multiset(ys)| == |ys|;
    if xs == [] {
    } else {
      SameFirst(xs, ys);
      TailMultiset(xs);
      TailMultiset(ys);
      SortedIsUnique(xs[1..], ys[1..]);
      assert xs == [xs[0]] + xs[1..] && ys == [ys[0]] + ys[1..];
    }
  }

  function ChildPaths(path: Path, es: seq<Entry>): (r: seq<string>)
    ensures |r| == |es| && forall i :: 0 <= i < |es| ==> r[i] == Render(path + [es[i].name])
  {
    seq(|es|, i requires 0 <= i < |es| => Render(path + [es[i].name]))
  }

  lemma ChildPathsInOrder(path: Path, es: seq<Entry>)
    requires Sorted(es)
    ensures InOrder(ChildPaths(path, es))
  {
    forall i, j | 0 <= i < j < |es| ensures StrLe(ChildPaths(path, es)[i], ChildPaths(path, es)[j]) {
      SiblingOrder(path, es[i].name, es[j].name);
    }
  }

  /** A driver's listing: the paths of the children, in no particular order. */
  method ListDriver(root: Node, from: string) returns (r: Listing, children: seq<string>)
    ensures r == List(root, Components(from))
    ensures r.Found? ==> multiset(children) == multiset(ChildPaths(Components(from), r.entries))
  {
    r := List(root, Components(from));
    children := if r.Found? then ChildPaths(Components(from), r.entries) else [];
  }

  datatype Stat = Stat(isDir: bool)

  /** A driver's stat of a path. */
  function StatDriver(root: Node, s: string): Stat {
    Stat(List(root, Components(s)).Found?)
  }

  ghost function EntriesAt(root: Node, path: Path): seq<Entry> {
    if List(root, path).Found? then List(root, path).entries else []
  }

  lemma {:induction false} ChildAt(es: seq<Entry>, i: nat)
    requires Sorted(es) && i < |es|
    ensures Child(es, es[i].name) == Some(es[i].node)
    decreases i
  {
    if i == 0 {
    } else {
      StrLtTotal(es[0].name, es[i].name);
      ChildAt(es[1..], i - 1);
    }
  }

  lemma {:induction false} ListChild(root: Node, path: Path, es: seq<Entry>, i: nat)
    requires List(root, path) == Found(es) && Sorted(es) && i < |es|
    ensures List(root, path + [es[i].name]) == if es[i].node.Dir? then Found(es[i].node.entries) else NotADirectory
  {
    ListConcat(root, path, [es[i].name]);
    ChildAt(es, i);
    assert [es[i].name][1..] == [];
  }

  /** What the driver says of a child's path. */
  lemma {:induction false} ChildFacts(root: Node, path: Path, es: seq<Entry>, i: nat)
    requires List(root, path) == Found(es) && WellFormed(es) && IsPath(path) && i < |es|
    ensures
      var child := path + [es[i].name];
      && IsPath(child) && Components(Render(child)) == child
      && StatDriver(root, Render(child)).isDir == es[i].node.Dir?
      && (es[i].node.Dir? ==>
            List(root, child) == Found(es[i].node.entries) && EntriesAt(root, child) == es[i].node.entries)
  {
    ComponentsOfRendered(path + [es[i].name]);
    ListChild(root, path, es, i);
  }

  // ---------------------------------------------------------------------------------------------
  // The walk

  /** What the walk of the entries from the `i`th on does with that entry. */
  lemma {:induction false} OneEntry(f: Callback, path: Path, es: seq<Entry>, i: nat, hint: string, tr: seq<Visit>)
    requires i < |es|
    ensures
      var child, node := path + [es[i].name], es[i].node;
      var v := Visit(child, node.Dir?);
      WalkEntries(f, path, es[i..], hint, tr) ==
        if StrLe(Render(child), hint) then WalkEntries(f, path, es[i + 1..], hint, tr)
        else match f(tr, v)
          case Filled => (tr + [v], Stop)
          case Fail => (tr + [v], Error)
          case SkipDir => WalkEntries(f, path, es[i + 1..], hint, tr + [v])
          case Continue =>
            if node.File? then WalkEntries(f, path, es[i + 1..], hint, tr + [v])
            else
              var (tr', flow) := WalkEntries(f, child, node.entries, hint, tr + [v]);
              if flow != More then (tr', flow) else WalkEntries(f, path, es[i + 1..], hint, tr')
  {
    assert es[i..][0] == es[i] && es[i..][1..] == es[i + 1..];
  }

  method DoWalkFallback(f: Callback, root: Node, from: string, hint: string, tr: seq<Visit>, ghost path: Path)
    returns (tr': seq<Visit>, flow: Flow)
    requires (root.Dir? ==> WellFormed(root.entries)) && IsPath(path) && from == Render(path)
    ensures (tr', flow) == WalkAt(f, root, path, hint, tr)
    decreases EntriesAt(root, path)
  {
    ComponentsOfRendered(path);
    var listing, children := ListDriver(root, from);
    tr' := tr;
    match listing
    case NotFound => return tr', Missing;
    case NotADirectory => return tr', Error;
    case Found(es) =>
      ListWellFormed(root, path);
      children := SortStrings(children);
      ChildPathsInOrder(path, es);
      SortedIsUnique(children, ChildPaths(path, es));
      for i := 0 to |children|
        invariant WalkEntries(f, path, es, hint, tr) == WalkEntries(f, path, es[i..], hint, tr')
      {
        OneEntry(f, path, es, i, hint, tr');
        ghost var child := path + [es[i].name];
        if StrLe(children[i], hint) {
          continue;
        }
        ChildFacts(root, path, es, i);
        var v := Visit(Components(children[i]), StatDriver(root, children[i]).isDir);
        var act := f(tr', v);
        tr' := tr' + [v];
        if act.Continue? && v.isDir {
          var below;
          tr', below := DoWalkFallback(f, root, children[i], hint, tr', child);
          if below != More {
            return tr', below;
          }
        } else if act.Filled? {
          return tr', Stop;
        } else if act.Fail? {
          return tr', Error;
        }
      }
      assert es[|es|..] == [];
      return tr', More;
  }

  predicate HasPrefix(s: string, p: string) {
    p <= s
  }

  lemma {:induction false} PrefixRenders(from: Path, q: Path)
    ensures from != [] ==> Render(from) <= Render(from + q)
    ensures from == [] ==> "/" <= Render(q)
    decreases |q|
  {
    if q == [] {
      assert from + q == from;
    } else if from != [] {
      var init := q[..|q| - 1];
      PrefixRenders(from, init);
      assert from + q == (from + init) + [q[|q| - 1]];
      RenderChild(from + init, q[|q| - 1]);
    }
  }

  /** The climbing loop of the hinted walk, and the case of a hint outside the tree. */
  method RunWalkFallback(f: Callback, root: Node, from: Path, hint: Option<Path>) returns (tr: seq<Visit>, flow: Flow)
    requires (root.Dir? ==> WellFormed(root.entries)) && IsPath(from) && (hint.Some? ==> IsPath(hint.value))
    ensures (tr, flow) == WalkFallback(f, root, from, hint)
  {
    tr := [];
    var fromPath := Render(from);
    if hint.None? || !InTree(from, hint.value) {
      if hint.None? || StrLt(Replace(Render(hint.value), '/', '\0'), Replace(fromPath, '/', '\0')) {
        tr, flow := DoWalkFallback(f, root, fromPath, "", tr, from);
        if flow.Stop? {
          flow := More;
        }
        return;
      }
      return tr, More;
    }
    tr, flow := ClimbFrom(f, root, from, hint.value);
  }

  /** The climbing loop, from the hint to the root of the walk. */
  method ClimbFrom(f: Callback, root: Node, from: Path, h: Path) returns (tr: seq<Visit>, flow: Flow)
    requires (root.Dir? ==> WellFormed(root.entries)) && IsPath(from) && IsPath(h) && from <= h
    ensures (tr, flow) == Climb(f, root, |from|, h, |h|, Render(h), [])
  {
    tr := [];
    var fromPath, startAfterHint := Render(from), Render(h);
    var base := startAfterHint;
    ghost var k := |h|;
    assert h[..k] == h;
    while HasPrefix(base, fromPath)
      invariant |from| <= k <= |h| && base == Render(h[..k])
      invariant Climb(f, root, |from|, h, |h|, Render(h), []) == Climb(f, root, |from|, h, k, startAfterHint, tr)
      decreases k
    {
      ClimbUnrolls(f, root, |from|, h, k, startAfterHint, tr);
      ClimbPaths(from, h, k);
      var r;
      tr, r := DoWalkFallback(f, root, base, startAfterHint, tr, h[..k]);
      if r.Error? {
        return tr, Error;
      }
      if base == fromPath {
        return tr, More;
      }
      startAfterHint := base;
      base := ParentOf(startAfterHint);
      k := k - 1;
    }
    StillBelow(from, h, k);
    assert false;
  }

  lemma ClimbUnrolls(f: Callback, root: Node, top: nat, hint: Path, k: nat, after: string, tr: seq<Visit>)
    requires top <= k <= |hint|
    ensures
      var (tr', flow) := WalkAt(f, root, hint[..k], after, tr);
      Climb(f, root, top, hint, k, after, tr) ==
        if flow.Error? then (tr', Error)
        else if k == top then (tr', More)
        else Climb(f, root, top, hint, k - 1, Render(hint[..k]), tr')
  {
  }

  /** The path strings of a climb: only the top is the string it ends at, and the others have their parents. */
  lemma ClimbPaths(from: Path, h: Path, k: nat)
    requires IsPath(from) && IsPath(h) && from <= h && |from| <= k <= |h|
    ensures Render(h[..k]) == Render(from) <==> k == |from|
    ensures k > |from| ==> ParentOf(Render(h[..k])) == Render(h[..k - 1])
  {
    assert h[..|from|] == from;
    if k > |from| {
      assert h[..k] == h[..k - 1] + [h[k - 1]];
      ParentOfRendered(h[..k - 1], h[k - 1]);
      if Render(h[..k]) == Render(from) { RenderedEqual(h[..k], from); }
    }
  }

  lemma StillBelow(from: Path, h: Path, k: nat)
    requires from <= h && |from| <= k <= |h|
    ensures HasPrefix(Render(h[..k]), Render(from))
  {
    assert h[..k] == from + h[|from|..k];
    PrefixRenders(from, h[|from|..k]);
    if from == [] { assert h[..k] == h[|from|..k]; }
  }

  lemma RenderedEqual(a: Path, b: Path)
    requires IsPath(a) && IsPath(b) && Render(a) == Render(b)
    ensures a == b
  {
    ComponentsOfRendered(a);
    ComponentsOfRendered(b);
  }
}
