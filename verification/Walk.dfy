/** The fallback walk over a storage tree: a depth-first visit in sorted order, and its form that
    starts after a hint, which climbs from the hint to the root of the walk. */
module Walk {
  import opened PathOrder
  import opened Wrappers

  /** A storage tree. The entries of a directory are kept sorted; a driver may list them in any
      order. */
  datatype Node = File | Dir(entries: seq<Entry>)
  datatype Entry = Entry(name: string, node: Node)

  ghost predicate Sorted(es: seq<Entry>) {
    forall i, j :: 0 <= i < j < |es| ==> StrLt(es[i].name, es[j].name)
  }

  ghost predicate WellFormed(es: seq<Entry>)
    decreases es
  {
    && Sorted(es)
    && forall i :: 0 <= i < |es| ==> IsName(es[i].name) && (es[i].node.Dir? ==> WellFormed(es[i].node.entries))
  }

  function Child(es: seq<Entry>, n: string): Option<Node> {
    if es == [] then None else if es[0].name == n then Some(es[0].node) else Child(es[1..], n)
  }

  datatype Listing = Found(entries: seq<Entry>) | NotFound | NotADirectory

  /** What listing a path gives: its entries, "path not found", or another error when a file is on the
      way. */
  function List(root: Node, p: Path): Listing
    decreases |p|
  {
    if root.File? then NotADirectory
    else if p == [] then Found(root.entries)
    else
      var c := Child(root.entries, p[0]);
      if c.None? then NotFound else List(c.value, p[1..])
  }

  // ---------------------------------------------------------------------------------------------
  // The walk

  datatype Visit = Visit(path: Path, isDir: bool)

  /** A callback decides from what was visited so far, so any deterministic stateful callback is one. */
  datatype Act = Continue | SkipDir | Filled | Fail
  type Callback = (seq<Visit>, Visit) -> Act

  datatype Flow = More | Stop | Missing | Error

  /** Visits the entries of the directory at `path` in order, skipping those whose path string is not
      beyond `hint`. */
  function WalkEntries(f: Callback, path: Path, es: seq<Entry>, hint: string, tr: seq<Visit>): (r: (seq<Visit>, Flow))
    decreases es
  {
    if es == [] then (tr, More)
    else
      var child, node := path + [es[0].name], es[0].node;
      if StrLe(Render(child), hint) then WalkEntries(f, path, es[1..], hint, tr)
      else
        var v := Visit(child, node.Dir?);
        match f(tr, v)
        case Filled => (tr + [v], Stop)
        case Fail => (tr + [v], Error)
        case SkipDir => WalkEntries(f, path, es[1..], hint, tr + [v])
        case Continue =>
          if node.File? then WalkEntries(f, path, es[1..], hint, tr + [v])
          else
            var (tr', flow) := WalkEntries(f, child, node.entries, hint, tr + [v]);
            if flow != More then (tr', flow) else WalkEntries(f, path, es[1..], hint, tr')
  }

  function WalkAt(f: Callback, root: Node, path: Path, hint: string, tr: seq<Visit>): (r: (seq<Visit>, Flow)) {
    match List(root, path)
    case Found(es) => WalkEntries(f, path, es, hint, tr)
    case NotFound => (tr, Missing)
    case NotADirectory => (tr, Error)
  }

  /** Climbs from the first `k` components of the hint to the first `top`. Only an error ends the
      climb; a directory that is missing or whose walk was stopped does not. */
  function Climb(f: Callback, root: Node, top: nat, hint: Path, k: nat, after: string,
          tr: seq<Visit>): (r: (seq<Visit>, Flow))
    requires top <= k <= |hint|
    decreases k
  {
    var (tr', flow) := WalkAt(f, root, hint[..k], after, tr);
    if flow.Error? then (tr', Error)
    else if k == top then (tr', More)
    else Climb(f, root, top, hint, k - 1, Render(hint[..k]), tr')
  }

  predicate DotDot(n: string) {
    ".." <= n
  }

  /** The hint is in the tree below `from`, as far as the relative path tells. */
  predicate InTree(from: Path, hint: Path) {
    from <= hint && (|hint| > |from| ==> !DotDot(hint[|from|]))
  }

  function WalkFallback(f: Callback, root: Node, from: Path, hint: Option<Path>): (r: (seq<Visit>, Flow)) {
    if hint.Some? && InTree(from, hint.value) then
      Climb(f, root, |from|, hint.value, |hint.value|, Render(hint.value), [])
    else if hint.None? || Less(Render(hint.value), Render(from)) then
      var (tr, flow) := WalkAt(f, root, from, "", []);
      (tr, if flow.Stop? then More else flow)
    else ([], More)
  }

  // ---------------------------------------------------------------------------------------------
  // The plain walk

  /** Everything below a directory, depth first. */
  function All(path: Path, es: seq<Entry>): seq<Visit>
    decreases es
  {
    if es == [] then [] else Subtree(path, es[0]) + All(path, es[1..])
  }

  function Subtree(path: Path, e: Entry): seq<Visit>
    decreases e
  {
    var child := path + [e.name];
    [Visit(child, e.node.Dir?)] + if e.node.Dir? then All(child, e.node.entries) else []
  }

  function Always(tr: seq<Visit>, v: Visit): Act {
    Continue
  }

  /** No entry of the directory, and hence nothing below it, is skipped. */
  ghost predicate AllBeyond(path: Path, es: seq<Entry>, hint: string) {
    forall i :: 0 <= i < |es| ==> !StrLe(Render(path + [es[i].name]), hint)
  }

  lemma {:induction false} BodyAppend(p: Path, n: string)
    ensures Body(p + [n]) == Body(p) + ("/" + n)
    decreases |p|
  {
    if p == [] {
      assert [n][1..] == [] && "/" + n + "" == "/" + n;
    } else {
      assert (p + [n])[0] == p[0] && (p + [n])[1..] == p[1..] + [n];
      BodyAppend(p[1..], n);
      Associate("/" + p[0], Body(p[1..]), "/" + n);
    }
  }

  lemma {:induction false} RenderChild(path: Path, n: string)
    ensures Render(path + [n]) == Body(path) + ("/" + n)
  {
    BodyAppend(path, n);
  }

  lemma ChildBeyond(path: Path, n: string, hint: string)
    requires path != [] && !StrLe(Render(path), hint)
    ensures !StrLe(Render(path + [n]), hint)
  {
    RenderChild(path, n);
    if StrLe(Body(path) + ("/" + n), hint) { ExtensionStaysBeyond(Body(path), "/" + n, hint); }
  }

  lemma ChildrenBeyond(path: Path, es: seq<Entry>, hint: string)
    requires path != [] && !StrLe(Render(path), hint)
    ensures AllBeyond(path, es, hint)
  {
    forall i | 0 <= i < |es| ensures !StrLe(Render(path + [es[i].name]), hint) {
      ChildBeyond(path, es[i].name, hint);
    }
  }

  /** A hint that everything lies beyond makes no difference. */
  lemma {:induction false} BeyondHint(f: Callback, path: Path, es: seq<Entry>, hint: string, tr: seq<Visit>)
    requires AllBeyond(path, es, hint)
    ensures WalkEntries(f, path, es, hint, tr) == WalkEntries(f, path, es, "", tr)
    decreases es
  {
    if es == [] {
    } else {
      var child, node := path + [es[0].name], es[0].node;
      var v := Visit(child, node.Dir?);
      assert Render(child) != "";
      forall i | 0 <= i < |es[1..]| ensures !StrLe(Render(path + [es[1..][i].name]), hint) {
        assert es[1..][i] == es[i + 1];
      }
      if f(tr, v).Continue? && node.Dir? {
        ChildrenBeyond(child, node.entries, hint);
        BeyondHint(f, child, node.entries, hint, tr + [v]);
        BeyondHint(f, path, es[1..], hint, WalkEntries(f, child, node.entries, hint, tr + [v]).0);
      } else {
        BeyondHint(f, path, es[1..], hint, tr + [v]);
      }
    }
  }

  lemma Reassociate(tr: seq<Visit>, v: Visit, sub: seq<Visit>, rest: seq<Visit>)
    ensures tr + [v] + sub + rest == tr + (([v] + sub) + rest)
    ensures sub == [] ==> tr + [v] + rest == tr + (([v] + sub) + rest)
  {
  }

  /** Without a hint and with a callback that never skips, the walk visits everything in order. */
  lemma {:induction false} PlainWalkVisitsAll(path: Path, es: seq<Entry>, tr: seq<Visit>)
    ensures WalkEntries(Always, path, es, "", tr) == (tr + All(path, es), More)
    decreases es
  {
    if es != [] {
      var child, node := path + [es[0].name], es[0].node;
      var v := Visit(child, node.Dir?);
      assert Render(child) != "";
      if node.Dir? {
        var sub := All(child, node.entries);
        PlainWalkVisitsAll(child, node.entries, tr + [v]);
        PlainWalkVisitsAll(path, es[1..], tr + [v] + sub);
        Reassociate(tr, v, sub, All(path, es[1..]));
      } else {
        PlainWalkVisitsAll(path, es[1..], tr + [v]);
        Reassociate(tr, v, [], All(path, es[1..]));
      }
    } else {
      assert tr + [] == tr;
    }
  }

  /** What ends a walk of one directory: the first visit whose callback reports a filled buffer or an
      error, and nothing else. */
  ghost predicate EndsRightly(f: Callback, tr: seq<Visit>, tr': seq<Visit>, flow: Flow) {
    && tr <= tr' && (flow == More || flow == Stop || flow == Error)
    && (flow != More ==> |tr'| > |tr|)
    && forall i :: |tr| <= i < |tr'| ==>
         var act := f(tr'[..i], tr'[i]);
         if flow != More && i == |tr'| - 1 then act == (if flow == Stop then Filled else Fail)
         else act == Continue || act == SkipDir
  }

  lemma EndsRightlyJoins(f: Callback, a: seq<Visit>, b: seq<Visit>, c: seq<Visit>, flow: Flow)
    requires EndsRightly(f, a, b, More) && EndsRightly(f, b, c, flow)
    ensures EndsRightly(f, a, c, flow)
  {
    forall i | |a| <= i < |b| ensures c[..i] == b[..i] && c[i] == b[i] {
    }
  }

  lemma {:induction false} WalkEndsRightly(f: Callback, path: Path, es: seq<Entry>, hint: string, tr: seq<Visit>)
    ensures var (tr', flow) := WalkEntries(f, path, es, hint, tr); EndsRightly(f, tr, tr', flow)
    decreases es
  {
    if es == [] {
    } else {
      var child, node := path + [es[0].name], es[0].node;
      var v := Visit(child, node.Dir?);
      var one := tr + [v];
      assert one[..|tr|] == tr;
      if StrLe(Render(child), hint) {
        WalkEndsRightly(f, path, es[1..], hint, tr);
      } else if f(tr, v).Continue? && node.Dir? {
        WalkEndsRightly(f, child, node.entries, hint, one);
        var (two, flow) := WalkEntries(f, child, node.entries, hint, one);
        EndsRightlyJoins(f, tr, one, two, flow);
        if flow == More {
          WalkEndsRightly(f, path, es[1..], hint, two);
          var (three, flow3) := WalkEntries(f, path, es[1..], hint, two);
          EndsRightlyJoins(f, tr, two, three, flow3);
        }
      } else if !f(tr, v).Filled? && !f(tr, v).Fail? {
        WalkEndsRightly(f, path, es[1..], hint, one);
        var (rest, flow) := WalkEntries(f, path, es[1..], hint, one);
        EndsRightlyJoins(f, tr, one, rest, flow);
      }
    }
  }

  // ---------------------------------------------------------------------------------------------
  // Order of the plain walk

  lemma {:induction false} ComponentPrefix(p: Path, a: Path, b: Path)
    ensures ComponentLt(p + a, p + b) <==> ComponentLt(a, b)
    decreases |p|
  {
    if p == [] {
      assert p + a == a && p + b == b;
    } else {
      assert (p + a)[1..] == p[1..] + a && (p + b)[1..] == p[1..] + b;
      StrLtTotal(p[0], p[0]);
      ComponentPrefix(p[1..], a, b);
    }
  }

  /** Where two extensions of a path first differ decides their order. */
  lemma {:induction false} Diverge(p: Path, m: string, x: Path, n: string, y: Path)
    requires StrLt(m, n)
    ensures ComponentLt(p + [m] + x, p + [n] + y) && !ComponentLt(p + [n] + y, p + [m] + x)
  {
    StrLtTotal(m, n);
    assert p + [m] + x == p + ([m] + x) && p + [n] + y == p + ([n] + y);
    ComponentPrefix(p, [m] + x, [n] + y);
    ComponentPrefix(p, [n] + y, [m] + x);
  }

  /** `v` lies in or below an entry of `es`. */
  ghost predicate Below(path: Path, es: seq<Entry>, v: Visit) {
    |v.path| > |path| && path <= v.path && exists i :: 0 <= i < |es| && es[i].name == v.path[|path|]
  }

  lemma {:induction false} AllBelow(path: Path, es: seq<Entry>)
    ensures forall v :: v in All(path, es) ==> Below(path, es, v)
    decreases es
  {
    if es == [] {
    } else {
      AllBelow(path, es[1..]);
      SubtreeBelow(path, es[0]);
      assert All(path, es) == Subtree(path, es[0]) + All(path, es[1..]);
      forall v | v in All(path, es) ensures Below(path, es, v) {
        if v in Subtree(path, es[0]) {
          assert path + [es[0].name] <= v.path;
          assert v.path[|path|] == es[0].name;
        } else {
          assert v in All(path, es[1..]) && Below(path, es[1..], v);
          var i :| 0 <= i < |es[1..]| && es[1..][i].name == v.path[|path|];
          assert es[i + 1].name == v.path[|path|];
        }
      }
    }
  }

  lemma {:induction false} SubtreeBelow(path: Path, e: Entry)
    ensures forall v :: v in Subtree(path, e) ==> path + [e.name] <= v.path
    decreases e
  {
    if e.node.Dir? {
      AllBelow(path + [e.name], e.node.entries);
    }
  }

  ghost predicate Ascending(vs: seq<Visit>) {
    forall i, j :: 0 <= i < j < |vs| ==> ComponentLt(vs[i].path, vs[j].path)
  }

  lemma AscendingConcat(a: seq<Visit>, b: seq<Visit>)
    requires Ascending(a) && Ascending(b)
    requires forall v, w :: v in a && w in b ==> ComponentLt(v.path, w.path)
    ensures Ascending(a + b)
  {
    var c := a + b;
    forall i, j | 0 <= i < j < |c| ensures ComponentLt(c[i].path, c[j].path) {
      if i < |a| <= j {
        assert c[i] in a && c[j] in b;
      }
    }
  }

  /** The plain walk visits in strictly increasing component order. */
  lemma {:induction false} PlainWalkAscends(path: Path, es: seq<Entry>)
    requires WellFormed(es)
    ensures Ascending(All(path, es))
    decreases es
  {
    if es == [] {
    } else {
      SubtreeAscends(path, es[0]);
      PlainWalkAscends(path, es[1..]);
      SubtreeBelow(path, es[0]);
      AllBelow(path, es[1..]);
      forall v, w | v in Subtree(path, es[0]) && w in All(path, es[1..]) ensures ComponentLt(v.path, w.path) {
        Separate(path, es, v, w);
      }
      AscendingConcat(Subtree(path, es[0]), All(path, es[1..]));
    }
  }

  lemma Separate(path: Path, es: seq<Entry>, v: Visit, w: Visit)
    requires es != [] && Sorted(es) && path + [es[0].name] <= v.path && Below(path, es[1..], w)
    ensures ComponentLt(v.path, w.path)
  {
    var i :| 0 <= i < |es[1..]| && es[1..][i].name == w.path[|path|];
    var m, n := es[0].name, es[i + 1].name;
    assert v.path == path + [m] + v.path[|path| + 1..];
    assert w.path == path + [n] + w.path[|path| + 1..];
    Diverge(path, m, v.path[|path| + 1..], n, w.path[|path| + 1..]);
  }

  lemma {:induction false} SubtreeAscends(path: Path, e: Entry)
    requires e.node.Dir? ==> WellFormed(e.node.entries)
    ensures Ascending(Subtree(path, e))
    decreases e
  {
    var child := path + [e.name];
    if e.node.Dir? {
      PlainWalkAscends(child, e.node.entries);
      AllBelow(child, e.node.entries);
      var rest := All(child, e.node.entries);
      forall v, w | v in [Visit(child, true)] && w in rest ensures ComponentLt(v.path, w.path) {
        assert w.path == child + w.path[|child|..] && child == child + [];
        ComponentPrefix(child, [], w.path[|child|..]);
      }
      AscendingConcat([Visit(child, true)], rest);
    }
  }

  // ---------------------------------------------------------------------------------------------
  // The hinted walk

  /** The entries after `h`. */
  function Greater(es: seq<Entry>, h: string): seq<Entry> {
    if es == [] then [] else if StrLt(h, es[0].name) then es else Greater(es[1..], h)
  }

  /** The entries before `h`. */
  function Smaller(es: seq<Entry>, h: string): seq<Entry> {
    if es == [] || !StrLt(es[0].name, h) then [] else [es[0]] + Smaller(es[1..], h)
  }

  lemma {:induction false} GreaterIsSuffix(es: seq<Entry>, h: string)
    requires WellFormed(es)
    ensures WellFormed(Greater(es, h))
    ensures forall i :: 0 <= i < |Greater(es, h)| ==> StrLt(h, Greater(es, h)[i].name)
  {
    if es == [] {
    } else {
      if StrLt(h, es[0].name) {
        forall i | 0 <= i < |es| ensures StrLt(h, es[i].name) {
          if i > 0 { StrLtTransitive(h, es[0].name, es[i].name); }
        }
      } else {
        GreaterIsSuffix(es[1..], h);
      }
    }
  }

  lemma {:induction false} SmallerAll(es: seq<Entry>, h: string)
    ensures forall i :: 0 <= i < |Smaller(es, h)| ==> StrLt(Smaller(es, h)[i].name, h)
  {
    if es != [] && StrLt(es[0].name, h) {
      SmallerAll(es[1..], h);
    }
  }

  /** Among the children of one directory, comparing path strings is comparing names. */
  lemma SiblingOrder(path: Path, m: string, h: string)
    ensures StrLe(Render(path + [m]), Render(path + [h])) <==> StrLe(m, h)
  {
    RenderChild(path, m);
    RenderChild(path, h);
    var a, b := Render(path + [m]), Render(path + [h]);
    var k := |Body(path)| + 1;
    Associate(Body(path), "/", m);
    Associate(Body(path), "/", h);
    assert a[..k] == Body(path) + "/" == b[..k] && a[k..] == m && b[k..] == h;
    CommonPrefix(a, b, k);
    assert a == a[..k] + a[k..] && b == b[..k] + b[k..];
  }

  /** At the directory that holds the hint, exactly the entries up to it are skipped. */
  lemma {:induction false} HintedLevel(f: Callback, path: Path, es: seq<Entry>, h: string, tr: seq<Visit>)
    requires WellFormed(es)
    ensures WalkEntries(f, path, es, Render(path + [h]), tr) == WalkEntries(f, path, Greater(es, h), "", tr)
    decreases |es|
  {
    if es == [] {
    } else {
      SiblingOrder(path, es[0].name, h);
      StrLtTotal(es[0].name, h);
      if StrLt(h, es[0].name) {
        GreaterIsSuffix(es, h);
        forall i | 0 <= i < |es| ensures !StrLe(Render(path + [es[i].name]), Render(path + [h])) {
          SiblingOrder(path, es[i].name, h);
          StrLtTotal(h, es[i].name);
        }
        BeyondHint(f, path, es, Render(path + [h]), tr);
      } else {
        HintedLevel(f, path, es[1..], h, tr);
      }
    }
  }

  /** At the hint itself nothing is skipped. */
  lemma {:induction false} HintItself(f: Callback, path: Path, es: seq<Entry>, tr: seq<Visit>)
    requires WellFormed(es)
    ensures WalkEntries(f, path, es, Render(path), tr) == WalkEntries(f, path, es, "", tr)
  {
    forall i | 0 <= i < |es| ensures !StrLe(Render(path + [es[i].name]), Render(path)) {
      RenderChild(path, es[i].name);
      var n := es[i].name;
      if path == [] {
        ExtensionIsGreater("/", n);
        StrLtTotal("/", "/" + n);
        assert "" + ("/" + n) == "/" + n;
      } else {
        ExtensionIsGreater(Render(path), "/" + n);
        StrLtTotal(Render(path), Render(path) + ("/" + n));
      }
    }
    BeyondHint(f, path, es, Render(path), tr);
  }

  // ---------------------------------------------------------------------------------------------
  // Levels of the climb

  lemma {:induction false} ListConcat(root: Node, p: Path, q: Path)
    ensures List(root, p + q) ==
      match List(root, p)
      case Found(es) => List(Dir(es), q)
      case other => other
    decreases |p|
  {
    if p == [] {
      assert p + q == q;
    } else if root.Dir? {
      assert (p + q)[0] == p[0] && (p + q)[1..] == p[1..] + q;
      var c := Child(root.entries, p[0]);
      if c.Some? { ListConcat(c.value, p[1..], q); }
    }
  }

  lemma {:induction false} ChildWellFormed(es: seq<Entry>, n: string)
    requires WellFormed(es)
    ensures var c := Child(es, n); c.Some? && c.value.Dir? ==> WellFormed(c.value.entries)
  {
    if es == [] {
    } else {
      ChildWellFormed(es[1..], n);
    }
  }

  lemma {:induction false} ListWellFormed(root: Node, p: Path)
    requires root.Dir? ==> WellFormed(root.entries)
    ensures List(root, p).Found? ==> WellFormed(List(root, p).entries)
    decreases |p|
  {
    if root.Dir? && p != [] {
      var c := Child(root.entries, p[0]);
      ChildWellFormed(root.entries, p[0]);
      if c.Some? { ListWellFormed(c.value, p[1..]); }
    }
  }

  /** The path string that level `k` of the climb starts after. */
  function StartAfter(hint: Path, k: nat): string
    requires k <= |hint|
  {
    if k == |hint| then Render(hint) else Render(hint[..k + 1])
  }

  /** The entries that level `k` of the climb walks. */
  function Level(root: Node, hint: Path, k: nat): seq<Entry>
    requires k <= |hint|
  {
    match List(root, hint[..k])
    case Found(es) => if k == |hint| then es else Greater(es, hint[k])
    case _ => []
  }

  ghost predicate TreeOk(root: Node, hint: Path) {
    && (root.Dir? ==> WellFormed(root.entries))
    && !List(root, hint).NotADirectory?
  }

  lemma {:induction false} NoFileOnTheWay(root: Node, hint: Path, k: nat)
    requires TreeOk(root, hint) && k <= |hint|
    ensures !List(root, hint[..k]).NotADirectory?
  {
    assert hint == hint[..k] + hint[k..];
    ListConcat(root, hint[..k], hint[k..]);
  }

  /** Each level is a plain walk of its entries. */
  lemma {:induction false} LevelWalk(f: Callback, root: Node, hint: Path, k: nat, tr: seq<Visit>)
    requires TreeOk(root, hint) && k <= |hint|
    ensures
      var a := WalkAt(f, root, hint[..k], StartAfter(hint, k), tr);
      var b := WalkEntries(f, hint[..k], Level(root, hint, k), "", tr);
      a.0 == b.0 && a.1.Error? == b.1.Error?
  {
    NoFileOnTheWay(root, hint, k);
    ListWellFormed(root, hint[..k]);
    if List(root, hint[..k]).Found? {
      var es := List(root, hint[..k]).entries;
      if k == |hint| {
        assert hint[..k] == hint;
        HintItself(f, hint, es, tr);
      } else {
        assert hint[..k + 1] == hint[..k] + [hint[k]];
        HintedLevel(f, hint[..k], es, hint[k], tr);
      }
    }
  }

  lemma LevelWellFormed(root: Node, h: Path, k: nat)
    requires TreeOk(root, h) && k <= |h|
    ensures WellFormed(Level(root, h, k))
  {
    ListWellFormed(root, h[..k]);
    if List(root, h[..k]).Found? && k < |h| { GreaterIsSuffix(List(root, h[..k]).entries, h[k]); }
  }

  /** What the levels from `k` up to `top` hold. */
  function Gather(root: Node, top: nat, hint: Path, k: nat): seq<Visit>
    requires top <= k <= |hint|
    decreases k
  {
    All(hint[..k], Level(root, hint, k)) + if k == top then [] else Gather(root, top, hint, k - 1)
  }

  /** One level of the climb, and the rest of it. */
  lemma ClimbStep(f: Callback, root: Node, top: nat, hint: Path, k: nat, tr: seq<Visit>)
    requires top <= k <= |hint|
    ensures
      var (tr', flow) := WalkAt(f, root, hint[..k], StartAfter(hint, k), tr);
      Climb(f, root, top, hint, k, StartAfter(hint, k), tr) ==
        if flow.Error? then (tr', Error)
        else if k == top then (tr', More)
        else Climb(f, root, top, hint, k - 1, StartAfter(hint, k - 1), tr')
  {
  }

  lemma {:induction false} ClimbGathers(root: Node, top: nat, hint: Path, k: nat, tr: seq<Visit>)
    requires TreeOk(root, hint) && top <= k <= |hint|
    ensures Climb(Always, root, top, hint, k, StartAfter(hint, k), tr) == (tr + Gather(root, top, hint, k), More)
    decreases k
  {
    var here := ClimbLevel(root, top, hint, k, tr);
    if k == top {
      Gathered(tr, here, [], Gather(root, top, hint, k));
    } else {
      ClimbGathers(root, top, hint, k - 1, tr + here);
      Gathered(tr, here, Gather(root, top, hint, k - 1), Gather(root, top, hint, k));
    }
  }

  lemma Gathered(tr: seq<Visit>, here: seq<Visit>, above: seq<Visit>, all: seq<Visit>)
    requires all == here + above
    ensures tr + here + above == tr + all
    ensures above == [] ==> tr + here == tr + all
  {
    assert above == [] ==> here + above == here;
  }

  lemma ClimbLevel(root: Node, top: nat, hint: Path, k: nat, tr: seq<Visit>) returns (here: seq<Visit>)
    requires TreeOk(root, hint) && top <= k <= |hint|
    ensures Gather(root, top, hint, k) == here + if k == top then [] else Gather(root, top, hint, k - 1)
    ensures Climb(Always, root, top, hint, k, StartAfter(hint, k), tr) ==
      if k == top then (tr + here, More)
      else Climb(Always, root, top, hint, k - 1, StartAfter(hint, k - 1), tr + here)
  {
    here := All(hint[..k], Level(root, hint, k));
    ClimbStep(Always, root, top, hint, k, tr);
    LevelWalk(Always, root, hint, k, tr);
    PlainWalkVisitsAll(hint[..k], Level(root, hint, k), tr);
  }

  lemma {:induction false} GatherSplit(root: Node, top: nat, hint: Path, k: nat)
    requires top < k <= |hint|
    ensures Gather(root, top, hint, k) == Gather(root, top + 1, hint, k) + All(hint[..top], Level(root, hint, top))
    decreases k
  {
    var here := All(hint[..k], Level(root, hint, k));
    if k > top + 1 {
      GatherSplit(root, top, hint, k - 1);
      Associate(here, Gather(root, top + 1, hint, k - 1), All(hint[..top], Level(root, hint, top)));
    } else {
      var last := All(hint[..top], Level(root, hint, top));
      assert here + [] == here && last + [] == last;
    }
  }

  // ---------------------------------------------------------------------------------------------
  // The climb is a suffix of the plain walk

  /** What comes after `path + rest` below `path`. */
  function AfterIn(path: Path, es: seq<Entry>, rest: Path): seq<Visit>
    decreases |rest|
  {
    if rest == [] then All(path, es)
    else
      var c := Child(es, rest[0]);
      (if c.Some? && c.value.Dir? then AfterIn(path + [rest[0]], c.value.entries, rest[1..]) else []) +
      All(path, Greater(es, rest[0]))
  }

  lemma {:induction false} MissingLevels(root: Node, top: nat, hint: Path, k: nat)
    requires top <= k <= |hint| && List(root, hint[..top]).NotFound?
    ensures Gather(root, top, hint, k) == []
    decreases k
  {
    assert hint[..k] == hint[..top] + hint[top..k];
    ListConcat(root, hint[..top], hint[top..k]);
    if k == top {
    } else {
      MissingLevels(root, top, hint, k - 1);
    }
  }

  lemma HintSplit(hint: Path, top: nat)
    requires top < |hint|
    ensures hint[..top + 1] == hint[..top] + [hint[top]]
    ensures hint[top..] != [] && hint[top..][0] == hint[top] && hint[top..][1..] == hint[top + 1..]
  {
  }

  /** Down one level: the next directory of the hint is missing, or it is the child. */
  lemma {:induction false} NextLevel(root: Node, hint: Path, top: nat, es: seq<Entry>)
    requires TreeOk(root, hint) && top < |hint| && List(root, hint[..top]) == Found(es)
    ensures var c, next := Child(es, hint[top]), List(root, hint[..top + 1]);
      if c.None? then next.NotFound? else c.value.Dir? && next == Found(c.value.entries)
  {
    HintSplit(hint, top);
    ListConcat(root, hint[..top], [hint[top]]);
    NoFileOnTheWay(root, hint, top + 1);
    assert [hint[top]][1..] == [];
  }

  lemma {:induction false} GatherIsAfterIn(root: Node, top: nat, hint: Path)
    requires TreeOk(root, hint) && top <= |hint| && List(root, hint[..top]).Found?
    ensures Gather(root, top, hint, |hint|) == AfterIn(hint[..top], List(root, hint[..top]).entries, hint[top..])
    decreases |hint| - top
  {
    var es := List(root, hint[..top]).entries;
    if top == |hint| {
      assert hint[..top] == hint && hint[top..] == [];
      assert All(hint, es) + [] == All(hint, es);
    } else {
      GatherSplit(root, top, hint, |hint|);
      HintSplit(hint, top);
      NextLevel(root, hint, top, es);
      var c := Child(es, hint[top]);
      if c.Some? {
        GatherIsAfterIn(root, top + 1, hint);
      } else {
        MissingLevels(root, top + 1, hint, |hint|);
      }
    }
  }

  /** `r` is the part of `all` after `h`, and the part before it is not. */
  ghost predicate IsAfter(all: seq<Visit>, h: Path, r: seq<Visit>) {
    exists pre :: all == pre + r && NoneAfter(pre, h) && AllAfter(r, h)
  }

  ghost predicate NoneAfter(vs: seq<Visit>, h: Path) {
    forall v :: v in vs ==> !ComponentLt(h, v.path)
  }

  ghost predicate AllAfter(vs: seq<Visit>, h: Path) {
    forall v :: v in vs ==> ComponentLt(h, v.path)
  }

  lemma {:induction false} SplitAll(path: Path, es: seq<Entry>, h: string)
    requires WellFormed(es)
    ensures var c := Child(es, h);
      All(path, es) ==
        All(path, Smaller(es, h)) + (if c.Some? then Subtree(path, Entry(h, c.value)) else []) +
        All(path, Greater(es, h))
    decreases |es|
  {
    if es == [] {
    } else {
      StrLtTotal(es[0].name, h);
      if StrLt(es[0].name, h) {
        SplitAll(path, es[1..], h);
        var small := Smaller(es[1..], h);
        assert ([es[0]] + small)[1..] == small;
      } else if es[0].name == h {
        assert es[0] == Entry(h, es[0].node);
        SkipEqual(es[1..], h);
      } else {
        NotBelowFirst(es, h);
      }
    }
  }

  lemma {:induction false} SkipEqual(es: seq<Entry>, h: string)
    requires forall i :: 0 <= i < |es| ==> StrLt(h, es[i].name)
    ensures Greater(es, h) == es
  {
  }

  lemma {:induction false} NotBelowFirst(es: seq<Entry>, h: string)
    requires Sorted(es) && es != [] && StrLt(h, es[0].name)
    ensures Child(es, h).None? && Smaller(es, h) == [] && Greater(es, h) == es
    decreases |es|
  {
    StrLtTotal(h, es[0].name);
    if |es| <= 1 {
    } else {
      StrLtTransitive(h, es[0].name, es[1].name);
      NotBelowFirst(es[1..], h);
    }
  }

  lemma {:induction false} BeforeHint(path: Path, es: seq<Entry>, h: string, rest: Path)
    requires forall i :: 0 <= i < |es| ==> StrLt(es[i].name, h)
    ensures NoneAfter(All(path, es), path + [h] + rest)
  {
    AllBelow(path, es);
    forall v | v in All(path, es) ensures !ComponentLt(path + [h] + rest, v.path) {
      var i :| 0 <= i < |es| && es[i].name == v.path[|path|];
      assert v.path == path + [es[i].name] + v.path[|path| + 1..];
      Diverge(path, es[i].name, v.path[|path| + 1..], h, rest);
    }
  }

  lemma {:induction false} AfterHint(path: Path, es: seq<Entry>, h: string, rest: Path)
    requires forall i :: 0 <= i < |es| ==> StrLt(h, es[i].name)
    ensures AllAfter(All(path, es), path + [h] + rest)
  {
    AllBelow(path, es);
    forall v | v in All(path, es) ensures ComponentLt(path + [h] + rest, v.path) {
      var i :| 0 <= i < |es| && es[i].name == v.path[|path|];
      assert v.path == path + [es[i].name] + v.path[|path| + 1..];
      Diverge(path, h, rest, es[i].name, v.path[|path| + 1..]);
    }
  }

  lemma {:induction false} BelowIsAfter(path: Path, es: seq<Entry>)
    ensures AllAfter(All(path, es), path)
  {
    AllBelow(path, es);
    forall v | v in All(path, es) ensures ComponentLt(path, v.path) {
      assert v.path == path + v.path[|path|..] && path == path + [];
      ComponentPrefix(path, [], v.path[|path|..]);
    }
  }

  /** No file is on the way down `rest`. */
  ghost predicate NoFileIn(es: seq<Entry>, rest: Path)
    decreases |rest|
  {
    rest == [] ||
    var c := Child(es, rest[0]); c.None? || (c.value.Dir? && NoFileIn(c.value.entries, rest[1..]))
  }

  lemma {:induction false} AfterInIsAfter(path: Path, es: seq<Entry>, rest: Path)
    requires WellFormed(es) && NoFileIn(es, rest)
    ensures IsAfter(All(path, es), path + rest, AfterIn(path, es, rest))
    decreases |rest|
  {
    if rest == [] {
      BelowIsAfter(path, es);
      assert path + rest == path && All(path, es) == [] + All(path, es);
      assert NoneAfter([], path + rest);
    } else {
      var n, c := rest[0], Child(es, rest[0]);
      var h := path + rest;
      assert h == path + [n] + rest[1..];
      var small, great := All(path, Smaller(es, n)), All(path, Greater(es, n));
      SplitAll(path, es, n);
      SmallerAll(es, n);
      GreaterIsSuffix(es, n);
      BeforeHint(path, Smaller(es, n), n, rest[1..]);
      AfterHint(path, Greater(es, n), n, rest[1..]);
      if c.Some? {
        var sub := c.value.entries;
        ChildWellFormed(es, n);
        AfterInIsAfter(path + [n], sub, rest[1..]);
        DirectoryBeforeHint(path + [n], rest[1..]);
        JoinAfter(small, Visit(path + [n], true), All(path + [n], sub), AfterIn(path + [n], sub, rest[1..]), great, h);
      } else {
        assert small + [] + great == small + great && [] + great == great;
        assert All(path, es) == small + AfterIn(path, es, rest);
      }
    }
  }

  lemma {:induction false} JoinAfter(small: seq<Visit>, v: Visit, all: seq<Visit>, r: seq<Visit>,
          great: seq<Visit>, h: Path)
    requires NoneAfter(small, h) && !ComponentLt(h, v.path) && IsAfter(all, h, r) && AllAfter(great, h)
    ensures IsAfter(small + ([v] + all) + great, h, r + great)
  {
    var pre :| all == pre + r && NoneAfter(pre, h) && AllAfter(r, h);
    var before := small + [v] + pre;
    assert small + ([v] + (pre + r)) + great == before + (r + great);
    assert NoneAfter(before, h);
  }

  lemma {:induction false} DirectoryBeforeHint(p: Path, rest: Path)
    ensures !ComponentLt(p + rest, p)
  {
    assert p == p + [];
    ComponentPrefix(p, rest, []);
  }

  lemma {:induction false} ListedNoFile(es: seq<Entry>, rest: Path)
    requires !List(Dir(es), rest).NotADirectory?
    ensures NoFileIn(es, rest)
    decreases |rest|
  {
    if rest == [] {
    } else {
      var c := Child(es, rest[0]);
      if c.Some? {
        assert c.value.Dir?;
        ListedNoFile(c.value.entries, rest[1..]);
      }
    }
  }

  /** Outside the tree below `from`, the hint is before all of it or after all of it. */
  lemma {:induction false} OutsideOrder(from: Path, h: Path, v: Path)
    requires from <= v && !(from <= h)
    ensures ComponentLt(h, v) <==> ComponentLt(h, from)
    decreases |from|
  {
    if h != [] && from != [] && h[0] == from[0] {
      StrLtTotal(h[0], h[0]);
      assert from == [from[0]] + from[1..] && h == [h[0]] + h[1..];
      OutsideOrder(from[1..], h[1..], v[1..]);
    }
  }

  /** Main result: with a callback that never skips, a walk from an existing directory visits exactly
      the part of the plain walk that comes after the hint, in the same order, whether or not the
      hint exists. The hint must have no file at it or above it, and when it is below `from` its
      first component there must not begin with two dots. */
  lemma {:induction false} HintedWalkIsSuffix(root: Node, from: Path, hint: Path)
    requires root.Dir? && WellFormed(root.entries) && IsPath(from) && IsPath(hint) && List(root, from).Found?
    requires from <= hint ==> InTree(from, hint) && !List(root, hint).NotADirectory?
    ensures var (r, flow) := WalkFallback(Always, root, from, Some(hint));
      flow == More && IsAfter(All(from, List(root, from).entries), hint, r)
  {
    var es := List(root, from).entries;
    ListWellFormed(root, from);
    if from <= hint {
      assert hint[..|from|] == from && hint == from + hint[|from|..] && hint[..|hint|] == hint;
      ListConcat(root, from, hint[|from|..]);
      ClimbGathers(root, |from|, hint, |hint|, []);
      GatherIsAfterIn(root, |from|, hint);
      ListedNoFile(es, hint[|from|..]);
      AfterInIsAfter(from, es, hint[|from|..]);
      assert [] + Gather(root, |from|, hint, |hint|) == Gather(root, |from|, hint, |hint|);
    } else {
      RenderedOrder(hint, from);
      PlainWalkVisitsAll(from, es, []);
      AllBelow(from, es);
      forall v | v in All(from, es) ensures ComponentLt(hint, v.path) <==> ComponentLt(hint, from) {
        OutsideOrder(from, hint, v.path);
      }
      var all := All(from, es);
      assert [] + all == all && all + [] == all;
      assert NoneAfter([], hint) && AllAfter([], hint);
    }
  }

  lemma {:induction false} VisitsArePaths(path: Path, es: seq<Entry>)
    requires IsPath(path) && WellFormed(es)
    ensures forall v :: v in All(path, es) ==> IsPath(v.path)
    decreases es
  {
    if es == [] {
    } else {
      VisitsArePaths(path, es[1..]);
      var child := path + [es[0].name];
      if es[0].node.Dir? { VisitsArePaths(child, es[0].node.entries); }
      assert All(path, es) == Subtree(path, es[0]) + All(path, es[1..]);
    }
  }

  /** The plain walk is strictly increasing in the depth-first order of path strings. */
  lemma {:induction false} PlainWalkFollowsLess(from: Path, es: seq<Entry>)
    requires IsPath(from) && WellFormed(es)
    ensures var all := All(from, es);
      forall i, j :: 0 <= i < j < |all| ==> Less(Render(all[i].path), Render(all[j].path))
  {
    var all := All(from, es);
    PlainWalkAscends(from, es);
    VisitsArePaths(from, es);
    forall i, j | 0 <= i < j < |all| ensures Less(Render(all[i].path), Render(all[j].path)) {
      assert all[i] in all && all[j] in all;
      RenderedOrder(all[i].path, all[j].path);
    }
  }

  lemma AfterFollowsLess(all: seq<Visit>, hint: Path, r: seq<Visit>)
    requires IsPath(hint) && IsAfter(all, hint, r) && forall v :: v in all ==> IsPath(v.path)
    ensures |r| <= |all| && r == all[|all| - |r|..]
    ensures forall i :: 0 <= i < |all| ==> (Less(Render(hint), Render(all[i].path)) <==> |all| - |r| <= i)
  {
    var pre :| all == pre + r && NoneAfter(pre, hint) && AllAfter(r, hint);
    forall i | 0 <= i < |all| ensures Less(Render(hint), Render(all[i].path)) <==> |pre| <= i {
      assert all[i] in all && (if i < |pre| then all[i] in pre else all[i] in r);
      RenderedOrder(hint, all[i].path);
    }
  }

  /** In terms of path strings: the hinted walk is the suffix of the plain walk that starts at the first
      entry beyond the hint. */
  lemma {:induction false} WalksFollowLessPath(root: Node, from: Path, hint: Path)
    requires root.Dir? && WellFormed(root.entries) && IsPath(from) && IsPath(hint) && List(root, from).Found?
    requires from <= hint ==> InTree(from, hint) && !List(root, hint).NotADirectory?
    ensures var all := WalkFallback(Always, root, from, None).0;
      var r := WalkFallback(Always, root, from, Some(hint)).0;
      && (forall i, j :: 0 <= i < j < |all| ==> Less(Render(all[i].path), Render(all[j].path)))
      && |r| <= |all| && r == all[|all| - |r|..]
      && (forall i :: 0 <= i < |all| ==> (Less(Render(hint), Render(all[i].path)) <==> |all| - |r| <= i))
  {
    var es := List(root, from).entries;
    ListWellFormed(root, from);
    PlainWalkVisitsAll(from, es, []);
    assert [] + All(from, es) == All(from, es);
    assert WalkFallback(Always, root, from, None).0 == All(from, es);
    PlainWalkFollowsLess(from, es);
    VisitsArePaths(from, es);
    HintedWalkIsSuffix(root, from, hint);
    AfterFollowsLess(All(from, es), hint, WalkFallback(Always, root, from, Some(hint)).0);
  }

  // ---------------------------------------------------------------------------------------------
  // Where the walk does not keep its promises

  /** A hint below `from` whose first component there begins with two dots is taken to be outside, and
      nothing is visited. So such a walk is right exactly when nothing comes after the hint. */
  lemma {:induction false} DotDotHintVisitsNothing(f: Callback, root: Node, from: Path, hint: Path)
    requires IsPath(from) && IsPath(hint) && from <= hint && |hint| > |from| && DotDot(hint[|from|])
    ensures WalkFallback(f, root, from, Some(hint)) == ([], More)
    ensures List(root, from).Found? ==>
      var all := All(from, List(root, from).entries);
      IsAfter(all, hint, WalkFallback(Always, root, from, Some(hint)).0) <==> NoneAfter(all, hint)
  {
    assert hint == from + hint[|from|..] && from == from + [];
    ComponentPrefix(from, hint[|from|..], []);
    RenderedOrder(hint, from);
    assert AllAfter([], hint);
    if List(root, from).Found? {
      var all := All(from, List(root, from).entries);
      assert all + [] == all;
      if IsAfter(all, hint, []) {
        var pre :| all == pre + [] && NoneAfter(pre, hint);
        assert pre == all;
      }
    }
  }

  lemma DotDotHintExample()
    ensures var root := Dir([Entry("..a", Dir([])), Entry("b", Dir([]))]);
      && WalkFallback(Always, root, [], Some(["..a"])) == ([], More)
      && Visit(["b"], true) in All([], root.entries) && ComponentLt(["..a"], ["b"])
  {
    var root := Dir([Entry("..a", Dir([])), Entry("b", Dir([]))]);
    DotDotHintVisitsNothing(Always, root, [], ["..a"]);
    assert root.entries[1..] == [Entry("b", Dir([]))];
    assert All([], root.entries[1..]) == Subtree([], Entry("b", Dir([]))) + All([], root.entries[1..][1..]);
    assert [] + ["b"] == ["b"];
    assert Visit(["b"], true) in All([], root.entries[1..]);
  }

  /** A file at the hint or above it makes the hinted walk fail before it visits anything. */
  lemma {:induction false} FileAboveHintFails(f: Callback, root: Node, from: Path, hint: Path)
    requires InTree(from, hint) && List(root, hint).NotADirectory?
    ensures WalkFallback(f, root, from, Some(hint)) == ([], Error)
  {
    assert hint[..|hint|] == hint;
  }

  lemma {:induction false} WalkGrows(f: Callback, path: Path, es: seq<Entry>, tr: seq<Visit>)
    ensures tr <= WalkEntries(f, path, es, "", tr).0
    ensures es != [] ==> |tr| < |WalkEntries(f, path, es, "", tr).0|
    decreases es
  {
    if es == [] {
    } else {
      var child, node := path + [es[0].name], es[0].node;
      var v := Visit(child, node.Dir?);
      assert Render(child) != "";
      if f(tr, v).Continue? && node.Dir? {
        WalkGrows(f, child, node.entries, tr + [v]);
        WalkGrows(f, path, es[1..], WalkEntries(f, child, node.entries, "", tr + [v]).0);
      } else {
        WalkGrows(f, path, es[1..], tr + [v]);
      }
    }
  }

  /** A callback that reports a filled buffer ends the level it is called in, not the climb: the levels
      above visit nothing exactly when each of their directories has no entry after the hint. */
  lemma {:induction false} ClimbIsIdle(f: Callback, root: Node, top: nat, hint: Path, k: nat, tr: seq<Visit>)
    requires TreeOk(root, hint) && top <= k <= |hint|
    ensures var r := Climb(f, root, top, hint, k, StartAfter(hint, k), tr).0;
      tr <= r && (r == tr <==> forall j :: top <= j <= k ==> Level(root, hint, j) == [])
    decreases k
  {
    LevelWalk(f, root, hint, k, tr);
    WalkGrows(f, hint[..k], Level(root, hint, k), tr);
    var (tr', flow) := WalkAt(f, root, hint[..k], StartAfter(hint, k), tr);
    ClimbStep(f, root, top, hint, k, tr);
    if !flow.Error? && k > top {
      ClimbIsIdle(f, root, top, hint, k - 1, tr');
    }
  }

  function AlwaysFilled(tr: seq<Visit>, v: Visit): Act {
    Filled
  }

  lemma {:induction false} FirstEntryFills(path: Path, es: seq<Entry>, tr: seq<Visit>)
    requires es != []
    ensures WalkEntries(AlwaysFilled, path, es, "", tr) == (tr + [Visit(path + [es[0].name], es[0].node.Dir?)], Stop)
  {
    assert Render(path + [es[0].name]) != "";
  }

  /** The documented promise that a filled buffer stops the walk fails: when the callback stops the walk of
      level `k`, the walk ends there exactly when no level above has an entry. */
  lemma {:induction false} FilledDoesNotStop(f: Callback, root: Node, top: nat, hint: Path, k: nat,
          tr: seq<Visit>, stopped: seq<Visit>)
    requires TreeOk(root, hint) && top <= k <= |hint|
    requires WalkAt(f, root, hint[..k], StartAfter(hint, k), tr) == (stopped, Stop)
    ensures
      var r := Climb(f, root, top, hint, k, StartAfter(hint, k), tr).0;
      stopped <= r && (r == stopped <==> forall j :: top <= j < k ==> Level(root, hint, j) == [])
  {
    ClimbStep(f, root, top, hint, k, tr);
    if k > top {
      ClimbIsIdle(f, root, top, hint, k - 1, stopped);
    }
  }

  /** The levels of a walk that starts after `a/h`: `a` still has `c`, and the root still has `d`. */
  lemma {:induction false} ExampleLevels(a: string, h: string, c: string, d: string)
    requires StrLt(h, c) && StrLt(a, d)
    ensures
      var inner, outer := [Entry(c, File)], [Entry(a, Dir([Entry(c, File)])), Entry(d, File)];
      var hint := [a, h];
      && List(Dir(outer), hint).NotFound? && List(Dir(outer), [a]) == Found(inner)
      && Level(Dir(outer), hint, 1) == inner && Level(Dir(outer), hint, 0) != []
  {
    var inner, outer := [Entry(c, File)], [Entry(a, Dir([Entry(c, File)])), Entry(d, File)];
    StrLtTotal(a, a);
    StrLtTotal(h, c);
    assert [a, h][..1] == [a] && [a, h][..0] == [] && [a, h][1..] == [h];
    assert [a][1..] == [] && outer[1..] == [Entry(d, File)];
    assert Child(outer, a) == Some(Dir(inner)) && Child(inner, h) == None by { assert inner[1..] == []; }
    assert List(Dir(outer), [a]) == List(Dir(inner), []) == Found(inner);
    assert List(Dir(outer), [a, h]) == List(Dir(inner), [h]);
    assert Greater(inner, h) == inner && Greater(outer, a) == Greater([Entry(d, File)], a);
  }

  /** A callback whose buffer is filled by its first entry is called again. */
  lemma {:induction false} FilledExample(a: string, h: string, c: string, d: string)
    requires IsName(a) && !DotDot(a) && IsName(c) && IsName(d) && StrLt(h, c) && StrLt(a, d)
    ensures var root := Dir([Entry(a, Dir([Entry(c, File)])), Entry(d, File)]);
      |WalkFallback(AlwaysFilled, root, [], Some([a, h])).0| > 1
  {
    var inner := [Entry(c, File)];
    var root, hint := Dir([Entry(a, Dir(inner)), Entry(d, File)]), [a, h];
    ExampleLevels(a, h, c, d);
    assert WellFormed(root.entries);
    assert hint[..2] == hint && hint[..1] == [a];
    ClimbStep(AlwaysFilled, root, 0, hint, 2, []);
    assert WalkAt(AlwaysFilled, root, hint, Render(hint), []) == ([], Missing);
    StopsAt(root, hint, inner);
    var tr := WalkAt(AlwaysFilled, root, hint[..1], StartAfter(hint, 1), []).0;
    FilledDoesNotStop(AlwaysFilled, root, 0, hint, 1, [], tr);
  }

  /** The first entry of the level below the hint fills the buffer. */
  lemma {:induction false} StopsAt(root: Node, hint: Path, es: seq<Entry>)
    requires TreeOk(root, hint) && |hint| == 2 && List(root, hint[..1]) == Found(es) && Level(root, hint, 1) == es != []
    ensures var (tr, flow) := WalkAt(AlwaysFilled, root, hint[..1], StartAfter(hint, 1), []);
      flow.Stop? && |tr| == 1
  {
    ListWellFormed(root, hint[..1]);
    assert hint[..2] == hint && hint == hint[..1] + [hint[1]];
    HintedLevel(AlwaysFilled, hint[..1], es, hint[1], []);
    FirstEntryFills(hint[..1], es, []);
  }
}
