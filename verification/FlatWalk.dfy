/** The walk against the tree itself: which nodes there are to visit, and the recursive walk as one pass over them
    for any callback. */
module FlatWalk {
  import opened PathOrder
  import opened Wrappers
  import opened Walk

  // ---------------------------------------------------------------------------------------------
  // What there is to visit

  /** The node at a path. */
  function NodeAt(root: Node, p: Path): Option<Node>
    decreases |p|
  {
    if p == [] then Some(root)
    else if root.File? then None
    else
      var c := Child(root.entries, p[0]);
      if c.None? then None else NodeAt(c.value, p[1..])
  }

  /** Some node of this kind lies at `rest` below the directory. */
  predicate IsBelow(es: seq<Entry>, rest: Path, isDir: bool) {
    rest != [] && var n := NodeAt(Dir(es), rest); n.Some? && n.value.Dir? == isDir
  }

  /** The depth-first listing of a directory holds exactly the nodes below it, each with its kind. */
  lemma {:induction false} AllIsTheTree(path: Path, es: seq<Entry>, rest: Path, isDir: bool)
    requires WellFormed(es)
    ensures Visit(path + rest, isDir) in All(path, es) <==> IsBelow(es, rest, isDir)
    decreases es
  {
    var v := Visit(path + rest, isDir);
    if es == [] {
    } else if rest == [] {
      AllBelow(path, es);
      assert v in All(path, es) ==> Below(path, es, v);
    } else {
      AllIsTheTree(path, es[1..], rest, isDir);
      assert v in All(path, es) <==> v in Subtree(path, es[0]) || v in All(path, es[1..]);
      assert v.path[|path|] == rest[0];
      if es[0].name == rest[0] {
        NotAmongOthers(path, es, v);
        InSubtree(path, es[0], rest, isDir);
      } else {
        SubtreeBelow(path, es[0]);
        assert (path + [es[0].name])[|path|] != v.path[|path|];
      }
    }
  }

  lemma {:induction false} InSubtree(path: Path, e: Entry, rest: Path, isDir: bool)
    requires rest != [] && rest[0] == e.name && (e.node.Dir? ==> WellFormed(e.node.entries))
    ensures Visit(path + rest, isDir) in Subtree(path, e) <==>
      var n := NodeAt(e.node, rest[1..]); n.Some? && n.value.Dir? == isDir
    decreases e
  {
    var child, v := path + [e.name], Visit(path + rest, isDir);
    assert path + rest == child + rest[1..];
    assert v in Subtree(path, e) <==>
      v == Visit(child, e.node.Dir?) || (e.node.Dir? && v in All(child, e.node.entries));
    assert path + rest == child <==> rest[1..] == [];
    if e.node.Dir? { AllIsTheTree(child, e.node.entries, rest[1..], isDir); }
  }

  lemma {:induction false} NotAmongOthers(path: Path, es: seq<Entry>, v: Visit)
    requires WellFormed(es) && es != [] && |v.path| > |path| && v.path[|path|] == es[0].name
    ensures v !in All(path, es[1..])
  {
    AllBelow(path, es[1..]);
    if v in All(path, es[1..]) {
      var i :| 0 <= i < |es[1..]| && es[1..][i].name == v.path[|path|];
      assert es[i + 1].name == es[0].name && StrLt(es[0].name, es[i + 1].name);
      StrLtTotal(es[0].name, es[0].name);
    }
  }

  /** A listing finds a directory's entries exactly where there is a directory, and fails otherwise than with "path not
      found" exactly where there is a file at the path or above it. */
  lemma {:induction false} ListFinds(root: Node, p: Path)
    ensures List(root, p).Found? <==> NodeAt(root, p).Some? && NodeAt(root, p).value.Dir?
    ensures List(root, p).Found? ==> NodeAt(root, p).value == Dir(List(root, p).entries)
    ensures List(root, p).NotADirectory? <==> exists k :: 0 <= k <= |p| && NodeAt(root, p[..k]) == Some(File)
    decreases |p|
  {
    assert p[..0] == [];
    if root.Dir? && p != [] {
      forall k | 0 < k <= |p|
        ensures NodeAt(root, p[..k]) ==
          var c := Child(root.entries, p[0]); if c.None? then None else NodeAt(c.value, p[1..][..k - 1])
      {
        assert p[..k][0] == p[0] && p[..k][1..] == p[1..][..k - 1];
      }
      var c := Child(root.entries, p[0]);
      if c.Some? {
        ListFinds(c.value, p[1..]);
        if k :| 0 <= k <= |p[1..]| && NodeAt(c.value, p[1..][..k]) == Some(File) {
          assert NodeAt(root, p[..k + 1]) == Some(File);
        }
        if k :| 0 <= k <= |p| && NodeAt(root, p[..k]) == Some(File) {
          assert NodeAt(c.value, p[1..][..k - 1]) == Some(File);
        }
      }
    } else {
      assert NodeAt(root, p[..0]) == Some(root);
      if k :| 0 <= k <= |p| && NodeAt(root, p[..k]) == Some(File) { assert root.File? || p == []; }
    }
  }

  // ---------------------------------------------------------------------------------------------
  // The walk as one pass

  predicate Under(dir: Option<Path>, v: Visit) {
    dir.Some? && dir.value < v.path
  }

  /** One pass over a listing: what lies under the directory skipped last is passed over, and a filled buffer or an
      error ends the pass. */
  function Pass(f: Callback, vs: seq<Visit>, skip: Option<Path>, tr: seq<Visit>): (seq<Visit>, Flow)
    decreases |vs|
  {
    if vs == [] then (tr, More)
    else if Under(skip, vs[0]) then Pass(f, vs[1..], skip, tr)
    else
      match f(tr, vs[0])
      case Filled => (tr + [vs[0]], Stop)
      case Fail => (tr + [vs[0]], Error)
      case SkipDir => Pass(f, vs[1..], Some(vs[0].path), tr + [vs[0]])
      case Continue => Pass(f, vs[1..], None, tr + [vs[0]])
  }

  ghost predicate NoneUnder(skip: Option<Path>, vs: seq<Visit>) {
    forall v :: v in vs ==> !Under(skip, v)
  }

  lemma {:induction false} SkipIsOver(f: Callback, vs: seq<Visit>, skip: Option<Path>, tr: seq<Visit>)
    requires NoneUnder(skip, vs)
    ensures Pass(f, vs, skip, tr) == Pass(f, vs, None, tr)
  {
    if vs != [] { assert vs[0] in vs; }
  }

  /** Entries under the skipped directory are passed over. */
  lemma {:induction false} PassOver(f: Callback, a: seq<Visit>, b: seq<Visit>, dir: Path, tr: seq<Visit>)
    requires forall v :: v in a ==> Under(Some(dir), v)
    ensures Pass(f, a + b, Some(dir), tr) == Pass(f, b, Some(dir), tr)
    decreases |a|
  {
    if a == [] {
      assert a + b == b;
    } else {
      assert (a + b)[0] == a[0] && (a + b)[1..] == a[1..] + b && a[0] in a;
      PassOver(f, a[1..], b, dir, tr);
    }
  }

  /** Two listings one after the other, when nothing of the second lies under anything of the first. */
  lemma {:induction false} PassBoth(f: Callback, a: seq<Visit>, b: seq<Visit>, skip: Option<Path>, tr: seq<Visit>)
    requires NoneUnder(skip, b) && forall v :: v in a ==> NoneUnder(Some(v.path), b)
    ensures var (tr', flow) := Pass(f, a, skip, tr);
      Pass(f, a + b, skip, tr) == if flow != More then (tr', flow) else Pass(f, b, None, tr')
    decreases |a|
  {
    if a == [] {
      assert a + b == b;
      SkipIsOver(f, b, skip, tr);
    } else {
      assert (a + b)[0] == a[0] && (a + b)[1..] == a[1..] + b && a[0] in a;
      assert forall v :: v in a[1..] ==> v in a;
      if Under(skip, a[0]) {
        PassBoth(f, a[1..], b, skip, tr);
      } else {
        PassBoth(f, a[1..], b, if f(tr, a[0]).SkipDir? then Some(a[0].path) else None, tr + [a[0]]);
      }
    }
  }

  lemma {:induction false} SiblingsApart(path: Path, es: seq<Entry>, v: Visit)
    requires WellFormed(es) && es != [] && path + [es[0].name] <= v.path
    ensures NoneUnder(Some(v.path), All(path, es[1..]))
  {
    AllBelow(path, es[1..]);
    forall w | w in All(path, es[1..]) ensures !Under(Some(v.path), w) {
      if v.path < w.path {
        assert w.path[|path|] == v.path[|path|] == es[0].name;
        NotAmongOthers(path, es, w);
      }
    }
  }

  /** Main result: for every callback, the recursive walk of a directory is the pass over its depth-first listing. */
  lemma {:induction false} WalkIsOnePass(f: Callback, path: Path, es: seq<Entry>, tr: seq<Visit>)
    requires WellFormed(es)
    ensures WalkEntries(f, path, es, "", tr) == Pass(f, All(path, es), None, tr)
    decreases es
  {
    if es == [] {
    } else {
      var e, rest := es[0], All(path, es[1..]);
      FirstEntry(f, path, es, tr);
      SubtreeBelow(path, e);
      forall v | v in Subtree(path, e) ensures NoneUnder(Some(v.path), rest) {
        SiblingsApart(path, es, v);
      }
      PassBoth(f, Subtree(path, e), rest, None, tr);
      var (tr', flow) := Pass(f, Subtree(path, e), None, tr);
      if flow == More { WalkIsOnePass(f, path, es[1..], tr'); }
    }
  }

  /** The first entry with what is below it, and then the others. */
  lemma {:induction false} FirstEntry(f: Callback, path: Path, es: seq<Entry>, tr: seq<Visit>)
    requires WellFormed(es) && es != []
    ensures var (tr', flow) := Pass(f, Subtree(path, es[0]), None, tr);
      WalkEntries(f, path, es, "", tr) ==
        if flow != More then (tr', flow) else WalkEntries(f, path, es[1..], "", tr')
    decreases es, 0
  {
    var e := es[0];
    var child, v := path + [e.name], Visit(path + [e.name], e.node.Dir?);
    assert Render(child) != "";
    SubtreePass(f, path, e, tr);
    if f(tr, v).Continue? && e.node.Dir? { WalkIsOnePass(f, child, e.node.entries, tr + [v]); }
  }

  lemma {:induction false} SubtreePass(f: Callback, path: Path, e: Entry, tr: seq<Visit>)
    ensures
      var v := Visit(path + [e.name], e.node.Dir?);
      Pass(f, Subtree(path, e), None, tr) ==
        match f(tr, v)
        case Filled => (tr + [v], Stop)
        case Fail => (tr + [v], Error)
        case SkipDir => (tr + [v], More)
        case Continue => if e.node.Dir? then Pass(f, All(v.path, e.node.entries), None, tr + [v]) else (tr + [v], More)
  {
    var child := path + [e.name];
    var v, sub := Visit(child, e.node.Dir?), Subtree(path, e);
    assert sub[0] == v && sub[1..] == if e.node.Dir? then All(child, e.node.entries) else [];
    if f(tr, v).SkipDir? {
      if e.node.Dir? { AllBelow(child, e.node.entries); }
      assert forall w :: w in sub[1..] ==> Under(Some(child), w);
      assert sub[1..] + [] == sub[1..];
      PassOver(f, sub[1..], [], child, tr + [v]);
    }
  }

  // ---------------------------------------------------------------------------------------------
  // The whole walk

  /** The passes of a walk that starts after a hint: level by level, from the hint's own directory up, over what is
      left there. Only an error ends them. */
  function PassLevels(f: Callback, root: Node, top: nat, hint: Path, k: nat, tr: seq<Visit>): (seq<Visit>, Flow)
    requires top <= k <= |hint|
    decreases k
  {
    var (tr', flow) := Pass(f, All(hint[..k], Level(root, hint, k)), None, tr);
    if flow.Error? then (tr', Error)
    else if k == top then (tr', More)
    else PassLevels(f, root, top, hint, k - 1, tr')
  }

  lemma {:induction false} ClimbIsPasses(f: Callback, root: Node, top: nat, hint: Path, k: nat, tr: seq<Visit>)
    requires TreeOk(root, hint) && top <= k <= |hint|
    ensures Climb(f, root, top, hint, k, StartAfter(hint, k), tr) == PassLevels(f, root, top, hint, k, tr)
    decreases k
  {
    ClimbStep(f, root, top, hint, k, tr);
    LevelWalk(f, root, hint, k, tr);
    LevelWellFormed(root, hint, k);
    WalkIsOnePass(f, hint[..k], Level(root, hint, k), tr);
    if k > top {
      ClimbIsPasses(f, root, top, hint, k - 1, WalkAt(f, root, hint[..k], StartAfter(hint, k), tr).0);
    }
  }

  /** Main result: what a walk visits and how it ends, for every callback and every hint. A filled buffer is no error,
      a missing directory is reported only without a hint in it, and a hint beyond the directory leaves nothing. */
  lemma {:induction false} WalkOutcome(f: Callback, root: Node, from: Path, hint: Option<Path>)
    requires root.Dir? ==> WellFormed(root.entries)
    ensures
      WalkFallback(f, root, from, hint) ==
        if hint.Some? && InTree(from, hint.value) then
          if List(root, hint.value).NotADirectory? then ([], Error)
          else PassLevels(f, root, |from|, hint.value, |hint.value|, [])
        else if hint.Some? && !Less(Render(hint.value), Render(from)) then ([], More)
        else
          match List(root, from)
          case NotFound => ([], Missing)
          case NotADirectory => ([], Error)
          case Found(es) =>
            var (tr, flow) := Pass(f, All(from, es), None, []);
            (tr, if flow.Error? then Error else More)
  {
    if hint.Some? && InTree(from, hint.value) {
      if List(root, hint.value).NotADirectory? {
        FileAboveHintFails(f, root, from, hint.value);
      } else {
        ClimbIsPasses(f, root, |from|, hint.value, |hint.value|, []);
      }
    } else if List(root, from).Found? {
      var es := List(root, from).entries;
      ListWellFormed(root, from);
      WalkIsOnePass(f, from, es, []);
      WalkEndsRightly(f, from, es, "", []);
    }
  }
}
