/** What a completed collection leaves behind. */
module Collections {
  import opened Digests
  import opened Wrappers
  import opened Stores
  import opened Manifests
  import opened Mark
  import opened Collect
  import opened Sweep

  ghost predicate DropsRevision(ops: seq<Op>, r: Name, d: Digest) {
    exists op :: op in ops && op.DropManifest? && op.r == r && op.d == d
  }

  ghost predicate DropsIndex(ops: seq<Op>, r: Name, t: Tag, d: Digest) {
    exists op :: op in ops && op.DropManifest? && op.r == r && op.d == d && t in op.tags
  }

  /** The effect of a sweep, item by item. */
  ghost predicate Effect(st: Store, ops: seq<Op>, st': Store) {
    && (forall d :: d in st'.blobs <==> d in st.blobs && DropBlob(d) !in ops)
    && forall r :: RepoEffect(st.Get(r), ops, r, st'.Get(r))
  }

  ghost predicate RepoEffect(a: Repo, ops: seq<Op>, r: Name, b: Repo) {
    && a.revisions.Some? == b.revisions.Some? && a.layers.Some? == b.layers.Some? && a.tags.Some? == b.tags.Some?
    && (forall d :: d in Or(b.revisions) <==> d in Or(a.revisions) && !DropsRevision(ops, r, d))
    && (forall d :: d in Or(b.layers) <==> d in Or(a.layers) && DropLayer(r, d) !in ops)
    && TagsOf(a).Keys == TagsOf(b).Keys
    && forall t :: t in TagsOf(a) ==>
         && TagsOf(b)[t].current == TagsOf(a)[t].current
         && forall d :: d in TagsOf(b)[t].index <==> d in TagsOf(a)[t].index && !DropsIndex(ops, r, t, d)
  }

  lemma {:induction false} ApplyEffect(st: Store, ops: seq<Op>)
    ensures Effect(st, ops, Apply(st, ops))
    decreases |ops|
  {
    if ops == [] {
    } else {
      var one := ApplyOp(st, ops[0]);
      OneEffect(st, ops[0]);
      ApplyEffect(one, ops[1..]);
      EffectCons(st, ops, one, Apply(one, ops[1..]));
    }
  }

  lemma OneEffect(st: Store, op: Op)
    ensures Effect(st, [op], ApplyOp(st, op))
  {
    var st' := ApplyOp(st, op);
    forall r ensures RepoEffect(st.Get(r), [op], r, st'.Get(r)) {
      assert op in [op];
    }
  }

  lemma EffectCons(st: Store, ops: seq<Op>, one: Store, st': Store)
    requires ops != [] && Effect(st, [ops[0]], one) && Effect(one, ops[1..], st')
    ensures Effect(st, ops, st')
  {
    assert forall op :: op in ops <==> op == ops[0] || op in ops[1..];
    forall r ensures RepoEffect(st.Get(r), ops, r, st'.Get(r)) {
      assert RepoEffect(st.Get(r), [ops[0]], r, one.Get(r)) && RepoEffect(one.Get(r), ops[1..], r, st'.Get(r));
    }
  }

  // ---------------------------------------------------------------------------------------------
  // Collections that keep untagged manifests

  /** What one repository keeps alive: its manifests and whatever they reference. */
  function LiveIn(decode: Decode, st: Store, r: Name): set<Digest> {
    Linked(st, r) + AllRefs(decode, Linked(st, r))
  }

  function LiveUpTo(decode: Decode, st: Store, repos: seq<Name>): set<Digest> {
    set r, x | r in repos && x in LiveIn(decode, st, r) :: x
  }

  /** What the registry keeps alive. */
  function Live(decode: Decode, st: Store): set<Digest> {
    set r, x | r in Enumerated(st) && x in LiveIn(decode, st, r) :: x
  }

  lemma ScanMarksLive(decode: Decode, st: Store, opts: Opts, r: Name, before: set<Digest>, after: set<Digest>)
    requires !opts.removeUntagged && RepoMarked(decode, st, opts, r, before, after)
    ensures after == before + LiveIn(decode, st, r)
  {
    var linked := Linked(st, r);
    assert Roots(st, opts, r) == linked;
    forall x | x in after && x !in before ensures x in LiveIn(decode, st, r) {
      var d :| d in linked && Reaches(decode, linked, before, d, x);
      var p :| IsChain(decode, linked, before, p) && p[0] == d && p[|p| - 1] == x;
      if |p| > 1 {
        assert p[|p| - 2] in linked && p[|p| - 2 + 1] in Refs(decode, p[|p| - 2]);
      }
    }
  }

  lemma {:induction false} SnapshotsAreLive(decode: Decode, st: Store, opts: Opts, repos: seq<Name>,
          snaps: seq<set<Digest>>, k: nat)
    requires !opts.removeUntagged && Snapshots(decode, st, opts, repos, snaps) && k <= |repos|
    ensures snaps[k] == LiveUpTo(decode, st, repos[..k])
  {
    if k == 0 {
    } else {
      SnapshotsAreLive(decode, st, opts, repos, snaps, k - 1);
      ScanMarksLive(decode, st, opts, repos[k - 1], snaps[k - 1], snaps[k]);
      assert repos[..k] == repos[..k - 1] + [repos[k - 1]];
    }
  }

  lemma FinalMarksAreLive(decode: Decode, st: Store, opts: Opts, o: Order, snaps: seq<set<Digest>>)
    requires !opts.removeUntagged && Enumerates(st, o) && Snapshots(decode, st, opts, o.repos, snaps)
    ensures snaps[|o.repos|] == Live(decode, st)
  {
    SnapshotsAreLive(decode, st, opts, o.repos, snaps, |o.repos|);
    assert o.repos[..|o.repos|] == o.repos;
  }

  /** Exactly the blobs that are a linked manifest, or referenced by one, stay; revisions and tags are
      untouched. The order of enumeration has no say in it. */
  lemma {:induction false} CollectionKeepsExactlyLive(decode: Decode, st: Store, opts: Opts, o: Order,
          snaps: seq<set<Digest>>, ops: seq<Op>)
    requires !opts.removeUntagged && Enumerates(st, o)
    requires Snapshots(decode, st, opts, o.repos, snaps) && Planned(st, opts, o, snaps, ops)
    ensures Apply(st, ops).blobs == st.blobs * Live(decode, st)
    ensures forall r :: Or(Apply(st, ops).Get(r).revisions) == Or(st.Get(r).revisions)
    ensures forall r :: TagsOf(Apply(st, ops).Get(r)) == TagsOf(st.Get(r))
  {
    FinalMarksAreLive(decode, st, opts, o, snaps);
    ApplyEffect(st, ops);
    var st' := Apply(st, ops);
    forall r ensures Or(st'.Get(r).revisions) == Or(st.Get(r).revisions) && TagsOf(st'.Get(r)) == TagsOf(st.Get(r)) {
      assert RepoEffect(st.Get(r), ops, r, st'.Get(r));
      SameTags(st.Get(r), ops, r, st'.Get(r));
    }
    forall d ensures DropBlob(d) in ops <==> d in st.blobs && d !in Live(decode, st) {
      assert DropBlob(d) in ops <==> Condemned(st, opts, o, snaps, DropBlob(d));
    }
  }

  lemma SameTags(a: Repo, ops: seq<Op>, r: Name, b: Repo)
    requires RepoEffect(a, ops, r, b) && forall op :: op in ops ==> !op.DropManifest?
    ensures TagsOf(a) == TagsOf(b)
  {
    forall t | t in TagsOf(a) ensures TagsOf(a)[t] == TagsOf(b)[t] {
      assert TagsOf(a)[t].index == TagsOf(b)[t].index;
    }
  }

  lemma {:induction false} SameEnumerated(st: Store, ops: seq<Op>)
    ensures Enumerated(Apply(st, ops)) == Enumerated(st)
  {
    ApplyEffect(st, ops);
    var st' := Apply(st, ops);
    forall r ensures r in Enumerated(st') <==> r in Enumerated(st) {
      assert RepoEffect(st.Get(r), ops, r, st'.Get(r));
    }
  }

  /** A collection leaves what is alive alive: the same things are linked and live afterwards. */
  lemma {:induction false} LiveStaysLive(decode: Decode, st: Store, opts: Opts, o: Order,
          snaps: seq<set<Digest>>, ops: seq<Op>)
    requires !opts.removeUntagged && Enumerates(st, o)
    requires Snapshots(decode, st, opts, o.repos, snaps) && Planned(st, opts, o, snaps, ops)
    ensures var st' := Apply(st, ops);
      && Enumerated(st') == Enumerated(st) && Live(decode, st') == Live(decode, st)
      && forall r :: r in Enumerated(st) ==> Linked(st', r) == Linked(st, r)
  {
    CollectionKeepsExactlyLive(decode, st, opts, o, snaps, ops);
    SameEnumerated(st, ops);
    var st' := Apply(st, ops);
    forall r | r in Enumerated(st) ensures Linked(st', r) == Linked(st, r) {
      assert forall x :: x in Linked(st, r) ==> x in LiveIn(decode, st, r);
    }
    SameLive(decode, st, st');
  }

  lemma SameLive(decode: Decode, st: Store, st': Store)
    requires Enumerated(st') == Enumerated(st) && forall r :: r in Enumerated(st) ==> Linked(st', r) == Linked(st, r)
    ensures Live(decode, st') == Live(decode, st)
  {
    assert forall r :: r in Enumerated(st) ==> LiveIn(decode, st', r) == LiveIn(decode, st, r);
  }

  /** A second collection finds no blob and no manifest to delete. In the same order of repositories,
      which the sorted walk gives, it finds nothing at all. */
  lemma {:induction false} SecondCollectionIsIdle(decode: Decode, st: Store, opts: Opts, o: Order,
          snaps: seq<set<Digest>>, ops: seq<Op>, o2: Order, snaps2: seq<set<Digest>>, ops2: seq<Op>)
    requires !opts.removeUntagged && Enumerates(st, o)
    requires Snapshots(decode, st, opts, o.repos, snaps) && Planned(st, opts, o, snaps, ops)
    requires Enumerates(Apply(st, ops), o2)
    requires Snapshots(decode, Apply(st, ops), opts, o2.repos, snaps2)
    requires Planned(Apply(st, ops), opts, o2, snaps2, ops2)
    ensures forall op :: op in ops2 ==> op.DropLayer?
    ensures o2.repos == o.repos ==> ops2 == []
  {
    var st' := Apply(st, ops);
    LiveStaysLive(decode, st, opts, o, snaps, ops);
    CollectionKeepsExactlyLive(decode, st, opts, o, snaps, ops);
    FinalMarksAreLive(decode, st', opts, o2, snaps2);
    forall op | op in ops2 ensures op.DropLayer? {
      assert Condemned(st', opts, o2, snaps2, op);
    }
    if o2.repos == o.repos {
      SameSnapshots(decode, st, st', opts, o.repos, snaps, snaps2);
      assert ops2 == [] || ops2[0] in ops2;
      forall op ensures op !in ops2 {
        if op.DropLayer? { NoDeadLayerLeft(st, opts, o, snaps, ops, op.r, op.d); }
        assert op in ops2 <==> Condemned(st', opts, o2, snaps2, op);
      }
    }
  }

  lemma {:induction false} NoDeadLayerLeft(st: Store, opts: Opts, o: Order, snaps: seq<set<Digest>>,
          ops: seq<Op>, r: Name, x: Digest)
    requires Planned(st, opts, o, snaps, ops)
    ensures !DeadLayer(Apply(st, ops), o.repos, snaps, r, x)
  {
    ApplyEffect(st, ops);
    assert RepoEffect(st.Get(r), ops, r, Apply(st, ops).Get(r));
    assert DropLayer(r, x) in ops <==> Condemned(st, opts, o, snaps, DropLayer(r, x));
  }

  lemma SameSnapshots(decode: Decode, st: Store, st': Store, opts: Opts, repos: seq<Name>,
          snaps: seq<set<Digest>>, snaps': seq<set<Digest>>)
    requires !opts.removeUntagged
    requires Snapshots(decode, st, opts, repos, snaps) && Snapshots(decode, st', opts, repos, snaps')
    requires forall r :: r in repos ==> Linked(st', r) == Linked(st, r)
    ensures snaps == snaps'
  {
    forall k | 0 <= k <= |repos| ensures snaps[k] == snaps'[k] {
      SnapshotsAreLive(decode, st, opts, repos, snaps, k);
      SnapshotsAreLive(decode, st', opts, repos, snaps', k);
      assert LiveUpTo(decode, st, repos[..k]) == LiveUpTo(decode, st', repos[..k]) by {
        assert forall r :: r in repos[..k] ==> LiveIn(decode, st, r) == LiveIn(decode, st', r);
      }
    }
  }

  // ---------------------------------------------------------------------------------------------
  // Layer links and the order of repositories

  /** Exactly the links are judged dead whose layer no manifest of their repository or of an earlier one keeps
      alive. */
  lemma DeadLayersExactly(decode: Decode, st: Store, opts: Opts, o: Order, snaps: seq<set<Digest>>, k: nat, x: Digest)
    requires !opts.removeUntagged && Enumerates(st, o) && Snapshots(decode, st, opts, o.repos, snaps) && k < |o.repos|
    ensures DeadLayer(st, o.repos, snaps, o.repos[k], x) <==>
      x in LinkedLayers(st, o.repos[k]) && x !in LiveUpTo(decode, st, o.repos[..k + 1])
  {
    SnapshotsAreLive(decode, st, opts, o.repos, snaps, k + 1);
    assert forall i :: 0 <= i < |o.repos| && o.repos[i] == o.repos[k] ==> i == k;
  }

  /** And exactly these go. */
  lemma LayerLinksExactly(decode: Decode, st: Store, opts: Opts, o: Order, snaps: seq<set<Digest>>, ops: seq<Op>,
          k: nat, x: Digest)
    requires !opts.removeUntagged && Enumerates(st, o) && Snapshots(decode, st, opts, o.repos, snaps)
    requires Planned(st, opts, o, snaps, ops) && k < |o.repos|
    ensures DropLayer(o.repos[k], x) in ops <==>
      x in LinkedLayers(st, o.repos[k]) && x !in LiveUpTo(decode, st, o.repos[..k + 1])
  {
    DeadLayersExactly(decode, st, opts, o, snaps, k, x);
    assert DropLayer(o.repos[k], x) in ops <==> Condemned(st, opts, o, snaps, DropLayer(o.repos[k], x));
  }

  /** A layer link goes in every order of enumeration or in none. */
  ghost predicate SameInEveryOrder(decode: Decode, st: Store, opts: Opts, r: Name, x: Digest) {
    forall o, s, p, t ::
      Enumerates(st, o) && Snapshots(decode, st, opts, o.repos, s) &&
      Enumerates(st, p) && Snapshots(decode, st, opts, p.repos, t) ==>
      (DeadLayer(st, o.repos, s, r, x) <==> DeadLayer(st, p.repos, t, r, x))
  }

  /** Layer links, unlike blobs, depend on the order of repositories, except those that their own repository
      keeps alive and those that none does. */
  lemma OrderDecidesLayerLinks(decode: Decode, st: Store, opts: Opts, r: Name, x: Digest)
    requires !opts.removeUntagged && r in Enumerated(st) && x in LinkedLayers(st, r)
    ensures SameInEveryOrder(decode, st, opts, r, x) <==> x in LiveIn(decode, st, r) || x !in Live(decode, st)
  {
    if x in LiveIn(decode, st, r) || x !in Live(decode, st) {
      forall o, s | Enumerates(st, o) && Snapshots(decode, st, opts, o.repos, s)
        ensures DeadLayer(st, o.repos, s, r, x) <==> x !in LiveIn(decode, st, r)
      {
        FateInOrder(decode, st, opts, o, s, r, x);
      }
    } else {
      var others := Listed(Enumerated(st) - {r});
      var first, s := AnOrder(decode, st, opts, [r] + others);
      var last, t := AnOrder(decode, st, opts, others + [r]);
      FateFirst(decode, st, opts, first, s, r, x);
      FateLast(decode, st, opts, last, t, r, x);
    }
  }

  lemma FateInOrder(decode: Decode, st: Store, opts: Opts, o: Order, s: seq<set<Digest>>, r: Name, x: Digest)
    requires !opts.removeUntagged && Enumerates(st, o) && Snapshots(decode, st, opts, o.repos, s)
    requires r in Enumerated(st) && x in LinkedLayers(st, r)
    requires x in LiveIn(decode, st, r) || x !in Live(decode, st)
    ensures DeadLayer(st, o.repos, s, r, x) <==> x !in LiveIn(decode, st, r)
  {
    assert r in o.repos;
    var k :| 0 <= k < |o.repos| && o.repos[k] == r;
    DeadLayersExactly(decode, st, opts, o, s, k, x);
    assert o.repos[..k + 1][k] == r;
    assert forall q :: q in o.repos[..k + 1] ==> q in o.repos;
  }

  lemma FateFirst(decode: Decode, st: Store, opts: Opts, o: Order, s: seq<set<Digest>>, r: Name, x: Digest)
    requires !opts.removeUntagged && Enumerates(st, o) && Snapshots(decode, st, opts, o.repos, s)
    requires o.repos != [] && o.repos[0] == r && x in LinkedLayers(st, r) && x !in LiveIn(decode, st, r)
    ensures DeadLayer(st, o.repos, s, r, x)
  {
    DeadLayersExactly(decode, st, opts, o, s, 0, x);
    assert o.repos[..1] == [r];
    LiveOfOne(decode, st, r);
  }

  lemma LiveOfOne(decode: Decode, st: Store, r: Name)
    ensures LiveUpTo(decode, st, [r]) == LiveIn(decode, st, r)
  {
    assert r in [r];
  }

  lemma FateLast(decode: Decode, st: Store, opts: Opts, o: Order, s: seq<set<Digest>>, r: Name, x: Digest)
    requires !opts.removeUntagged && Enumerates(st, o) && Snapshots(decode, st, opts, o.repos, s)
    requires o.repos != [] && o.repos[|o.repos| - 1] == r && x in Live(decode, st)
    ensures !DeadLayer(st, o.repos, s, r, x)
  {
    DeadLayersExactly(decode, st, opts, o, s, |o.repos| - 1, x);
    assert o.repos[..|o.repos|] == o.repos;
  }

  /** A listing of a set. */
  ghost function Listed<T(!new)>(xs: set<T>): (s: seq<T>)
    ensures Lists(s, xs)
  {
    if xs == {} then [] else
      var x :| x in xs;
      [x] + Listed(xs - {x})
  }

  /** Every order of the repositories is one that storage may list them in, and has its marks. */
  lemma AnOrder(decode: Decode, st: Store, opts: Opts, repos: seq<Name>) returns (o: Order, snaps: seq<set<Digest>>)
    requires !opts.removeUntagged && Lists(repos, Enumerated(st))
    ensures Enumerates(st, o) && o.repos == repos && Snapshots(decode, st, opts, repos, snaps)
  {
    var rs := Enumerated(st);
    o := Order(repos, map r | r in rs :: Listed(Linked(st, r)), map r | r in rs :: Listed(LinkedLayers(st, r)),
               map r | r in rs :: Listed(TagsOf(st.Get(r)).Keys), Listed(st.blobs));
    snaps := LiveSnapshots(decode, st, opts, repos);
  }

  lemma {:induction false} LiveSnapshots(decode: Decode, st: Store, opts: Opts, repos: seq<Name>)
    returns (snaps: seq<set<Digest>>)
    requires !opts.removeUntagged
    ensures Snapshots(decode, st, opts, repos, snaps)
    decreases |repos|
  {
    if repos == [] {
      snaps := [{}];
    } else {
      var n := |repos| - 1;
      var s := LiveSnapshots(decode, st, opts, repos[..n]);
      LiveIsMarked(decode, st, opts, repos[n], s[n]);
      snaps := s + [s[n] + LiveIn(decode, st, repos[n])];
    }
  }

  lemma LiveIsMarked(decode: Decode, st: Store, opts: Opts, r: Name, before: set<Digest>)
    requires !opts.removeUntagged
    ensures RepoMarked(decode, st, opts, r, before, before + LiveIn(decode, st, r))
  {
    var linked, after := Linked(st, r), before + LiveIn(decode, st, r);
    assert Roots(st, opts, r) == linked;
    forall x | x in after && x !in before ensures FromRoots(decode, linked, linked, before, x) {
      if x in linked {
        ReachesSelf(decode, linked, before, x);
      } else {
        var d :| d in linked && x in Refs(decode, d);
        ReachesSelf(decode, linked, before, x);
        ReachesThrough(decode, linked, before, before, d, x, x);
      }
    }
  }

  // ---------------------------------------------------------------------------------------------
  // Collections that remove untagged manifests, in a registry of one repository

  /** From a clean mark set the scan marks exactly what the roots reach. */
  lemma FirstScanIsReachability(decode: Decode, st: Store, opts: Opts, r: Name, after: set<Digest>)
    requires RepoMarked(decode, st, opts, r, {}, after)
    ensures forall x :: x in after <==> FromRoots(decode, Linked(st, r), Roots(st, opts, r), {}, x)
  {
    var linked, roots := Linked(st, r), Roots(st, opts, r);
    forall x | FromRoots(decode, linked, roots, {}, x) ensures x in after {
      var d :| d in roots && Reaches(decode, linked, {}, d, x);
      ClosedKeepsReachable(decode, linked, {}, after, d, x);
    }
  }

  /** With a tags directory, exactly the manifests out of reach of every currently tagged manifest lose
      their revision link, and exactly the reached blobs stay. */
  lemma {:induction false} UntaggedCollectionIsExact(decode: Decode, st: Store, opts: Opts, o: Order, r: Name,
          snaps: seq<set<Digest>>, ops: seq<Op>)
    requires opts.removeUntagged && Enumerates(st, o) && o.repos == [r] && st.Get(r).tags.Some?
    requires Snapshots(decode, st, opts, o.repos, snaps) && Planned(st, opts, o, snaps, ops)
    ensures var st' := Apply(st, ops);
      var reached := (x: Digest) => FromRoots(decode, Linked(st, r), Roots(st, opts, r), {}, x);
      && (forall d :: d in Linked(st, r) ==> (d in Or(st'.Get(r).revisions) <==> reached(d)))
      && (forall d :: d in st'.blobs <==> d in st.blobs && reached(d))
  {
    FirstScanIsReachability(decode, st, opts, r, snaps[1]);
    ApplyEffect(st, ops);
    var st' := Apply(st, ops);
    assert RepoEffect(st.Get(r), ops, r, st'.Get(r));
    assert r in o.repos && Roots(st, opts, r) <= snaps[1];
    forall d | d in Linked(st, r) ensures DropsRevision(ops, r, d) <==> d !in snaps[1] {
      var op := DropManifest(r, d, o.tags[r]);
      if d !in snaps[1] {
        assert !IsCurrent(st, r, d);
        assert Condemned(st, opts, o, snaps, op);
        assert op in ops;
      }
    }
    forall d ensures DropBlob(d) in ops <==> d in st.blobs && d !in snaps[1] {
      assert DropBlob(d) in ops <==> Condemned(st, opts, o, snaps, DropBlob(d));
    }
  }

  /** Without a tags directory no revision link goes, yet every blob does. */
  lemma {:induction false} UntaggedCollectionWithoutTags(decode: Decode, st: Store, opts: Opts, o: Order, r: Name,
          snaps: seq<set<Digest>>, ops: seq<Op>)
    requires opts.removeUntagged && Enumerates(st, o) && o.repos == [r] && st.Get(r).tags.None?
    requires Snapshots(decode, st, opts, o.repos, snaps) && Planned(st, opts, o, snaps, ops)
    ensures Or(Apply(st, ops).Get(r).revisions) == Or(st.Get(r).revisions)
    ensures Apply(st, ops).blobs == {}
  {
    FirstScanIsReachability(decode, st, opts, r, snaps[1]);
    ApplyEffect(st, ops);
    var st' := Apply(st, ops);
    assert RepoEffect(st.Get(r), ops, r, st'.Get(r));
    forall d | d in st.blobs ensures DropBlob(d) in ops {
      assert Condemned(st, opts, o, snaps, DropBlob(d));
    }
  }
}
