/** Referential integrity, and exactly which collections keep it. */
module Integrity {
  import opened Digests
  import opened Wrappers
  import opened Stores
  import opened Manifests
  import opened Mark
  import opened Collect
  import opened Sweep
  import opened Collections

  /** The manifest's blob is there, and so is everything its check demanded. */
  ghost predicate Kept(decode: Decode, cfg: Config, st: Store, r: Name, d: Digest) {
    d in st.blobs && decode(d).Some? && Complete(cfg, decode(d).value, st, r)
  }

  ghost predicate Integral(decode: Decode, cfg: Config, st: Store) {
    forall r, d :: d in Or(st.Get(r).revisions) ==> Kept(decode, cfg, st, r, d)
  }

  /** What the check of `d` demands of its repository. */
  ghost predicate Demanded(decode: Decode, cfg: Config, d: Digest, n: Demand) {
    && decode(d).Some?
    && exists i ::
        0 <= i < |decode(d).value.refs| && DemandOf(cfg, decode(d).value.kind, decode(d).value.refs[i]) == Some(n)
  }

  /** A manifest that was kept is kept in another store exactly when its blob and its demands are. */
  lemma KeptIsMet(decode: Decode, cfg: Config, st: Store, st': Store, r: Name, d: Digest)
    requires Kept(decode, cfg, st, r, d)
    ensures Kept(decode, cfg, st', r, d) <==>
      d in st'.blobs && forall n :: Demanded(decode, cfg, d, n) ==> Met(st', r, n)
    ensures forall n :: Demanded(decode, cfg, d, n) ==> Met(st, r, n)
  {
    var m := decode(d).value;
    forall n | Demanded(decode, cfg, d, n) ensures Met(st, r, n) && (Kept(decode, cfg, st', r, d) ==> Met(st', r, n)) {
      var i :| 0 <= i < |m.refs| && DemandOf(cfg, m.kind, m.refs[i]) == Some(n);
      assert RefOk(cfg, m.kind, st, r, m.refs[i]);
      if Kept(decode, cfg, st', r, d) { assert RefOk(cfg, m.kind, st', r, m.refs[i]); }
    }
    if d in st'.blobs && forall n :: Demanded(decode, cfg, d, n) ==> Met(st', r, n) {
      forall i | 0 <= i < |m.refs| ensures RefOk(cfg, m.kind, st', r, m.refs[i]) {
        assert RefOk(cfg, m.kind, st, r, m.refs[i]);
        var n := DemandOf(cfg, m.kind, m.refs[i]);
        if n.Some? { assert Demanded(decode, cfg, d, n.value); }
      }
    }
  }

  lemma DemandIsReference(decode: Decode, cfg: Config, d: Digest, n: Demand)
    requires Demanded(decode, cfg, d, n)
    ensures n.d in Refs(decode, d)
  {
    var i :| 0 <= i < |decode(d).value.refs| && DemandOf(cfg, decode(d).value.kind, decode(d).value.refs[i]) == Some(n);
    assert decode(d).value.refs[i] in decode(d).value.refs;
  }

  ghost predicate Grows(st: Store, st': Store, r: Name) {
    && st.blobs <= st'.blobs
    && Or(st.Get(r).revisions) <= Or(st'.Get(r).revisions)
    && Or(st.Get(r).layers) <= Or(st'.Get(r).layers)
  }

  lemma GrowingKeeps(decode: Decode, cfg: Config, st: Store, st': Store, r: Name, d: Digest)
    requires Grows(st, st', r) && Kept(decode, cfg, st, r, d)
    ensures Kept(decode, cfg, st', r, d)
  {
    KeptIsMet(decode, cfg, st, st', r, d);
  }

  // ---------------------------------------------------------------------------------------------
  // What a sweep must find marked

  /** The mark phase and the plan of a collection of `st`. */
  ghost predicate IsCollection(decode: Decode, st: Store, opts: Opts, o: Order, snaps: seq<set<Digest>>, ops: seq<Op>) {
    Enumerates(st, o) && Snapshots(decode, st, opts, o.repos, snaps) && Planned(st, opts, o, snaps, ops)
  }

  /** The manifest is marked in the end, its demanded layers were marked when the links of repository `k`
      were judged, and its demanded children are marked in the end. */
  ghost predicate Spared(decode: Decode, cfg: Config, snaps: seq<set<Digest>>, k: nat, d: Digest)
    requires k + 1 < |snaps|
  {
    && d in snaps[|snaps| - 1]
    && forall n :: Demanded(decode, cfg, d, n) ==> n.d in if n.NeedLayer? then snaps[k + 1] else snaps[|snaps| - 1]
  }

  /** Every manifest whose revision link stays is spared. */
  ghost predicate Settled(decode: Decode, cfg: Config, st: Store, opts: Opts, o: Order, snaps: seq<set<Digest>>) {
    |snaps| == |o.repos| + 1 &&
    forall k, d :: 0 <= k < |o.repos| && d in Linked(st, o.repos[k]) && Stays(st, opts, o.repos[k], snaps, d) ==>
      Spared(decode, cfg, snaps, k, d)
  }

  ghost predicate Stays(st: Store, opts: Opts, r: Name, snaps: seq<set<Digest>>, d: Digest) {
    |snaps| > 0 && (Candidate(st, opts, r, d) ==> d in snaps[|snaps| - 1])
  }

  lemma {:induction false} SnapshotsGrow(decode: Decode, st: Store, opts: Opts, repos: seq<Name>,
          snaps: seq<set<Digest>>, k: nat)
    requires Snapshots(decode, st, opts, repos, snaps) && k <= |repos|
    ensures snaps[k] <= snaps[|repos|]
    decreases |repos| - k
  {
    if k == |repos| {
    } else {
      SnapshotsGrow(decode, st, opts, repos, snaps, k + 1);
      assert RepoMarked(decode, st, opts, repos[k], snaps[k], snaps[k + 1]);
    }
  }

  lemma RepositoryIsListed(st: Store, o: Order, r: Name, d: Digest) returns (k: nat)
    requires Enumerates(st, o) && d in Or(st.Get(r).revisions)
    ensures k < |o.repos| && o.repos[k] == r
  {
    assert r in Enumerated(st);
    assert r in o.repos;
    k :| 0 <= k < |o.repos| && o.repos[k] == r;
  }

  /** The effect of a part of the sweep on one item each. */
  lemma {:induction false} PartEffect(decode: Decode, st: Store, opts: Opts, o: Order, snaps: seq<set<Digest>>,
          ops: seq<Op>, done: nat, k: nat, x: Digest)
    requires IsCollection(decode, st, opts, o, snaps, ops) && done <= |ops| && k < |o.repos|
    ensures
      var r, st', last := o.repos[k], Apply(st, ops[..done]), snaps[|o.repos|];
      && (x in st.blobs && x in last ==> x in st'.blobs)
      && (x in Or(st.Get(r).layers) && x in snaps[k + 1] ==> x in Or(st'.Get(r).layers))
      && (x in Or(st.Get(r).revisions) && Stays(st, opts, r, snaps, x) ==> x in Or(st'.Get(r).revisions))
      && (x in st'.blobs ==> x in st.blobs)
      && (x in Or(st'.Get(r).revisions) ==> x in Or(st.Get(r).revisions))
  {
    var r, part := o.repos[k], ops[..done];
    ApplyEffect(st, part);
    assert RepoEffect(st.Get(r), part, r, Apply(st, part).Get(r));
    NotInPart(st, opts, o, snaps, ops, done, DropBlob(x));
    NotInPart(st, opts, o, snaps, ops, done, DropLayer(r, x));
    forall op | op in part && op.DropManifest? && op.r == r && op.d == x ensures !Stays(st, opts, r, snaps, x) {
      NotInPart(st, opts, o, snaps, ops, done, op);
    }
  }

  lemma NotInPart(st: Store, opts: Opts, o: Order, snaps: seq<set<Digest>>, ops: seq<Op>, done: nat, op: Op)
    requires Planned(st, opts, o, snaps, ops) && done <= |ops|
    ensures op in ops[..done] ==> Condemned(st, opts, o, snaps, op)
  {
  }

  /** Main result on tags: no collection, of either kind and wherever it stops, takes away a tag, the manifest it points
      at, or a blob which that manifest references. */
  lemma {:induction false} TaggedSurvives(decode: Decode, st: Store, opts: Opts, o: Order, snaps: seq<set<Digest>>,
          ops: seq<Op>, done: nat, r: Name, t: Tag, d: Digest)
    requires IsCollection(decode, st, opts, o, snaps, ops) && done <= |ops|
    requires t in TagsOf(st.Get(r)) && TagsOf(st.Get(r))[t].current == Some(d)
    requires d in Or(st.Get(r).revisions) && d in st.blobs
    ensures
      var st' := Apply(st, ops[..done]);
      && t in TagsOf(st'.Get(r)) && TagsOf(st'.Get(r))[t].current == Some(d)
      && d in Or(st'.Get(r).revisions) && d in st'.blobs
      && forall x :: x in Refs(decode, d) && x in st.blobs ==> x in st'.blobs
  {
    var part := ops[..done];
    var st' := Apply(st, part);
    var k := RepositoryIsListed(st, o, r, d);
    RootsAre(st, opts, r, d);
    assert RepoMarked(decode, st, opts, o.repos[k], snaps[k], snaps[k + 1]);
    SnapshotsGrow(decode, st, opts, o.repos, snaps, k + 1);
    ApplyEffect(st, part);
    assert RepoEffect(st.Get(r), part, r, st'.Get(r));
    forall op | op in part ensures !(op.DropManifest? && op.r == r && op.d == d) {
      NotInPart(st, opts, o, snaps, ops, done, op);
    }
    forall x | x == d || x in Refs(decode, d) ensures DropBlob(x) !in part {
      NotInPart(st, opts, o, snaps, ops, done, DropBlob(x));
    }
  }

  /** A spared manifest keeps everything, wherever the sweep stops. */
  lemma {:induction false} SparedIsKept(decode: Decode, cfg: Config, st: Store, opts: Opts, o: Order,
          snaps: seq<set<Digest>>, ops: seq<Op>, done: nat, k: nat, d: Digest)
    requires Integral(decode, cfg, st)
    requires IsCollection(decode, st, opts, o, snaps, ops) && done <= |ops| && k < |o.repos|
    requires d in Or(st.Get(o.repos[k]).revisions) && Spared(decode, cfg, snaps, k, d)
    ensures Kept(decode, cfg, Apply(st, ops[..done]), o.repos[k], d)
  {
    var r, st' := o.repos[k], Apply(st, ops[..done]);
    KeptIsMet(decode, cfg, st, st', r, d);
    SnapshotsGrow(decode, st, opts, o.repos, snaps, k + 1);
    PartEffect(decode, st, opts, o, snaps, ops, done, k, d);
    forall n | Demanded(decode, cfg, d, n) ensures Met(st', r, n) {
      PartEffect(decode, st, opts, o, snaps, ops, done, k, n.d);
    }
  }

  /** The effect of the whole sweep. */
  lemma {:induction false} WholeEffect(decode: Decode, st: Store, opts: Opts, o: Order, snaps: seq<set<Digest>>,
          ops: seq<Op>, k: nat, x: Digest)
    requires IsCollection(decode, st, opts, o, snaps, ops) && k < |o.repos|
    ensures
      var r, st', last := o.repos[k], Apply(st, ops), snaps[|o.repos|];
      && (x in st'.blobs <==> x in st.blobs && x in last)
      && (x in LinkedLayers(st, r) && x in Or(st'.Get(r).layers) ==> x in snaps[k + 1])
      && (x in Linked(st, r) ==> (x in Or(st'.Get(r).revisions) <==> Stays(st, opts, r, snaps, x)))
  {
    var r := o.repos[k];
    ApplyEffect(st, ops);
    assert RepoEffect(st.Get(r), ops, r, Apply(st, ops).Get(r));
    assert DropBlob(x) in ops <==> Condemned(st, opts, o, snaps, DropBlob(x));
    assert DropLayer(r, x) in ops <==> Condemned(st, opts, o, snaps, DropLayer(r, x));
    forall op | op in ops && op.DropManifest? && op.r == r && op.d == x ensures !Stays(st, opts, r, snaps, x) {
      assert Condemned(st, opts, o, snaps, op);
    }
    assert r in o.repos;
    var op := DropManifest(r, x, o.tags[r]);
    assert op in ops <==> Condemned(st, opts, o, snaps, op);
  }

  lemma {:induction false} KeptIsSpared(decode: Decode, cfg: Config, st: Store, opts: Opts, o: Order,
          snaps: seq<set<Digest>>, ops: seq<Op>, k: nat, d: Digest)
    requires IsCollection(decode, st, opts, o, snaps, ops) && k < |o.repos|
    requires Kept(decode, cfg, st, o.repos[k], d) && Kept(decode, cfg, Apply(st, ops), o.repos[k], d)
    ensures Spared(decode, cfg, snaps, k, d)
  {
    var r, st' := o.repos[k], Apply(st, ops);
    KeptIsMet(decode, cfg, st, st', r, d);
    WholeEffect(decode, st, opts, o, snaps, ops, k, d);
    forall n | Demanded(decode, cfg, d, n)
      ensures n.d in if n.NeedLayer? then snaps[k + 1] else snaps[|snaps| - 1]
    {
      WholeEffect(decode, st, opts, o, snaps, ops, k, n.d);
    }
  }

  /** Main result: a completed collection, of either kind, keeps integrity exactly when every manifest whose
      revision link stays is spared. */
  lemma {:induction false} CollectionKeepsExactly(decode: Decode, cfg: Config, st: Store, opts: Opts, o: Order,
          snaps: seq<set<Digest>>, ops: seq<Op>)
    requires Integral(decode, cfg, st) && IsCollection(decode, st, opts, o, snaps, ops)
    ensures Integral(decode, cfg, Apply(st, ops)) <==> Settled(decode, cfg, st, opts, o, snaps)
  {
    var st' := Apply(st, ops);
    assert ops[..|ops|] == ops;
    if Integral(decode, cfg, st') {
      forall k, d | 0 <= k < |o.repos| && d in Linked(st, o.repos[k]) && Stays(st, opts, o.repos[k], snaps, d)
        ensures Spared(decode, cfg, snaps, k, d)
      {
        WholeEffect(decode, st, opts, o, snaps, ops, k, d);
        KeptIsSpared(decode, cfg, st, opts, o, snaps, ops, k, d);
      }
    }
    if Settled(decode, cfg, st, opts, o, snaps) {
      forall r, d | d in Or(st'.Get(r).revisions) ensures Kept(decode, cfg, st', r, d) {
        var k := RevisionIsOld(decode, cfg, st, opts, o, snaps, ops, |ops|, r, d);
        WholeEffect(decode, st, opts, o, snaps, ops, k, d);
        SparedIsKept(decode, cfg, st, opts, o, snaps, ops, |ops|, k, d);
      }
    }
  }

  /** A revision that is there after a part of the sweep was there before. */
  lemma RevisionIsOld(decode: Decode, cfg: Config, st: Store, opts: Opts, o: Order, snaps: seq<set<Digest>>,
          ops: seq<Op>, done: nat, r: Name, d: Digest) returns (k: nat)
    requires Integral(decode, cfg, st) && IsCollection(decode, st, opts, o, snaps, ops) && done <= |ops|
    requires d in Or(Apply(st, ops[..done]).Get(r).revisions)
    ensures k < |o.repos| && o.repos[k] == r && d in Linked(st, r) && d in Or(st.Get(r).revisions)
  {
    ApplyEffect(st, ops[..done]);
    assert RepoEffect(st.Get(r), ops[..done], r, Apply(st, ops[..done]).Get(r));
    assert Kept(decode, cfg, st, r, d);
    k := RepositoryIsListed(st, o, r, d);
  }

  // ---------------------------------------------------------------------------------------------
  // Collections that stop half-way

  /** The manifest loses its revision link. */
  ghost predicate Doomed(st: Store, opts: Opts, r: Name, snaps: seq<set<Digest>>, d: Digest) {
    d in Linked(st, r) && !Stays(st, opts, r, snaps, d)
  }

  /** Of two doomed manifests of which one demands the other, the one that demands is listed first. */
  ghost predicate ParentsFirst(decode: Decode, cfg: Config, st: Store, opts: Opts, o: Order, snaps: seq<set<Digest>>) {
    forall r, x, d :: r in o.repos && r in o.revisions && Before(o.revisions[r], x, d) ==>
      !(Doomed(st, opts, r, snaps, x) && Doomed(st, opts, r, snaps, d) && Demanded(decode, cfg, d, NeedRevision(x)))
  }

  /** Where the sweep removes a doomed manifest. */
  lemma DoomedIsPlanned(decode: Decode, st: Store, opts: Opts, o: Order, snaps: seq<set<Digest>>, ops: seq<Op>,
          k: nat, d: Digest)
    returns (j: nat)
    requires IsCollection(decode, st, opts, o, snaps, ops) && k < |o.repos| && Doomed(st, opts, o.repos[k], snaps, d)
    ensures j < |ops| && ops[j].DropManifest? && ops[j].r == o.repos[k] && ops[j].d == d
    ensures forall i :: 0 <= i < |ops| && ops[i].DropManifest? && ops[i].r == o.repos[k] && ops[i].d == d ==> i == j
  {
    var r := o.repos[k];
    assert r in o.repos;
    var op := DropManifest(r, d, o.tags[r]);
    assert op in ops <==> Condemned(st, opts, o, snaps, op);
    j :| 0 <= j < |ops| && ops[j] == op;
    forall i | 0 <= i < |ops| && ops[i].DropManifest? && ops[i].r == r && ops[i].d == d ensures i == j {
      assert ops[i] in ops;
      assert Condemned(st, opts, o, snaps, ops[i]);
      assert ops[i] == ops[j];
    }
  }

  /** While a doomed manifest waits, only manifests have gone, and none that it demands. */
  lemma {:induction false} DoomedIsKept(decode: Decode, cfg: Config, st: Store, opts: Opts, o: Order,
          snaps: seq<set<Digest>>, ops: seq<Op>, done: nat, k: nat, d: Digest, j: nat)
    requires Integral(decode, cfg, st)
    requires IsCollection(decode, st, opts, o, snaps, ops) && done <= j < |ops| && k < |o.repos|
    requires ParentsFirst(decode, cfg, st, opts, o, snaps) && Doomed(st, opts, o.repos[k], snaps, d)
    requires ops[j].DropManifest? && ops[j].r == o.repos[k] && ops[j].d == d
    ensures Kept(decode, cfg, Apply(st, ops[..done]), o.repos[k], d)
  {
    var r, part := o.repos[k], ops[..done];
    var st' := Apply(st, part);
    ApplyEffect(st, part);
    assert RepoEffect(st.Get(r), part, r, st'.Get(r));
    forall op | op in part ensures op.DropManifest? && (op.r == r ==> !Demanded(decode, cfg, d, NeedRevision(op.d))) {
      var i :| 0 <= i < done && ops[i] == op;
      assert Follows(o, ops[i], ops[j]) && op in ops;
      assert Condemned(st, opts, o, snaps, op);
      assert r in o.repos;
      if op.r == r { assert Doomed(st, opts, r, snaps, op.d) && Before(o.revisions[r], op.d, d); }
    }
    KeptIsMet(decode, cfg, st, st', r, d);
    forall n | Demanded(decode, cfg, d, n) ensures Met(st', r, n) {
      assert Met(st, r, n);
    }
  }

  lemma NotBothWays(s: seq<Digest>, a: Digest, b: Digest)
    requires Distinct(s) && Before(s, a, b)
    ensures a != b && !Before(s, b, a)
  {
    var p, q :| 0 <= p < q < |s| && s[p] == a && s[q] == b;
    forall i, j | 0 <= i < j < |s| && s[i] == b ensures s[j] != a {
      assert i == q;
    }
  }

  /** A child listed before its doomed parent is missed when the sweep stops in front of the parent. */
  lemma ChildFirstBreaks(decode: Decode, cfg: Config, st: Store, opts: Opts, o: Order, snaps: seq<set<Digest>>,
          ops: seq<Op>, k: nat, x: Digest, d: Digest) returns (done: nat)
    requires IsCollection(decode, st, opts, o, snaps, ops) && k < |o.repos|
    requires Doomed(st, opts, o.repos[k], snaps, x) && Doomed(st, opts, o.repos[k], snaps, d)
    requires o.repos[k] in o.revisions && Before(o.revisions[o.repos[k]], x, d)
    requires Demanded(decode, cfg, d, NeedRevision(x))
    ensures done <= |ops| && !Integral(decode, cfg, Apply(st, ops[..done]))
  {
    var r := o.repos[k];
    assert r in o.repos;
    var i := DoomedIsPlanned(decode, st, opts, o, snaps, ops, k, x);
    var j := DoomedIsPlanned(decode, st, opts, o, snaps, ops, k, d);
    NotBothWays(o.revisions[r], x, d);
    assert j < i ==> Follows(o, ops[j], ops[i]);
    assert i < j;
    done := j;
    var part := ops[..done];
    var st' := Apply(st, part);
    ApplyEffect(st, part);
    assert RepoEffect(st.Get(r), part, r, st'.Get(r));
    assert part[i] in part;
    assert x !in Or(st'.Get(r).revisions);
    assert !DropsRevision(part, r, d);
    if Kept(decode, cfg, st', r, d) {
      KeptIsMet(decode, cfg, st', st', r, d);
      assert false;
    }
  }

  /** Main result: a collection keeps integrity at every point where it may stop exactly when the completed
      one keeps it and doomed manifests are listed before those they demand. */
  lemma {:induction false} StoppedCollectionKeepsExactly(decode: Decode, cfg: Config, st: Store, opts: Opts, o: Order,
          snaps: seq<set<Digest>>, ops: seq<Op>)
    requires Integral(decode, cfg, st) && IsCollection(decode, st, opts, o, snaps, ops)
    ensures (forall done :: 0 <= done <= |ops| ==> Integral(decode, cfg, Apply(st, ops[..done]))) <==>
      Settled(decode, cfg, st, opts, o, snaps) && ParentsFirst(decode, cfg, st, opts, o, snaps)
  {
    CollectionKeepsExactly(decode, cfg, st, opts, o, snaps, ops);
    assert ops[..|ops|] == ops;
    if Settled(decode, cfg, st, opts, o, snaps) && ParentsFirst(decode, cfg, st, opts, o, snaps) {
      forall done | 0 <= done <= |ops| ensures Integral(decode, cfg, Apply(st, ops[..done])) {
        HarmlessPart(decode, cfg, st, opts, o, snaps, ops, done);
      }
    } else if Settled(decode, cfg, st, opts, o, snaps) {
      var r, x, d :| r in o.repos && r in o.revisions &&
        Doomed(st, opts, r, snaps, x) && Doomed(st, opts, r, snaps, d) &&
        Before(o.revisions[r], x, d) && Demanded(decode, cfg, d, NeedRevision(x));
      var k :| 0 <= k < |o.repos| && o.repos[k] == r;
      var done := ChildFirstBreaks(decode, cfg, st, opts, o, snaps, ops, k, x, d);
    }
  }

  lemma {:induction false} HarmlessPart(decode: Decode, cfg: Config, st: Store, opts: Opts, o: Order,
          snaps: seq<set<Digest>>, ops: seq<Op>, done: nat)
    requires Integral(decode, cfg, st) && IsCollection(decode, st, opts, o, snaps, ops) && done <= |ops|
    requires Settled(decode, cfg, st, opts, o, snaps) && ParentsFirst(decode, cfg, st, opts, o, snaps)
    ensures Integral(decode, cfg, Apply(st, ops[..done]))
  {
    var st' := Apply(st, ops[..done]);
    forall r, d | d in Or(st'.Get(r).revisions) ensures Kept(decode, cfg, st', r, d) {
      var k := RevisionIsOld(decode, cfg, st, opts, o, snaps, ops, done, r, d);
      if Stays(st, opts, r, snaps, d) {
        SparedIsKept(decode, cfg, st, opts, o, snaps, ops, done, k, d);
      } else {
        var j := DoomedIsPlanned(decode, st, opts, o, snaps, ops, k, d);
        ApplyEffect(st, ops[..done]);
        assert RepoEffect(st.Get(r), ops[..done], r, st'.Get(r));
        assert forall i :: 0 <= i < done ==> ops[i] in ops[..done];
        DoomedIsKept(decode, cfg, st, opts, o, snaps, ops, done, k, d, j);
      }
    }
  }

  /** A collection that keeps untagged manifests always meets both conditions: its own repository had been
      scanned when a layer link was judged. */
  lemma KeepingIsHarmless(decode: Decode, cfg: Config, st: Store, opts: Opts, o: Order, snaps: seq<set<Digest>>)
    requires !opts.removeUntagged && Enumerates(st, o) && Snapshots(decode, st, opts, o.repos, snaps)
    ensures Settled(decode, cfg, st, opts, o, snaps) && ParentsFirst(decode, cfg, st, opts, o, snaps)
  {
    forall k, d | 0 <= k < |o.repos| && d in Linked(st, o.repos[k]) ensures Spared(decode, cfg, snaps, k, d) {
      ScanMarksLive(decode, st, opts, o.repos[k], snaps[k], snaps[k + 1]);
      SnapshotsGrow(decode, st, opts, o.repos, snaps, k + 1);
      forall n | Demanded(decode, cfg, d, n) ensures n.d in snaps[k + 1] {
        DemandIsReference(decode, cfg, d, n);
      }
    }
  }

  // ---------------------------------------------------------------------------------------------
  // Collections that remove untagged manifests, in terms of the store

  /** What the roots of a repository reach. */
  ghost predicate Reached(decode: Decode, st: Store, opts: Opts, r: Name, x: Digest) {
    FromRoots(decode, Linked(st, r), Roots(st, opts, r), {}, x)
  }

  ghost predicate ReachedUpTo(decode: Decode, st: Store, opts: Opts, repos: seq<Name>, k: nat, x: Digest) {
    exists j :: 0 <= j < k && j < |repos| && Reached(decode, st, opts, repos[j], x)
  }

  /** A manifest that is referenced by what a repository's roots reach, and linked in another repository, is
      linked in the first too. */
  ghost predicate Local(decode: Decode, st: Store, opts: Opts) {
    forall r, s, d, x ::
      (r in Enumerated(st) && s in Enumerated(st) && LeadsTo(decode, st, opts, r, d, x) && x in Linked(st, s)) ==>
      x in Linked(st, r)
  }

  /** The roots of a repository reach `d`, which it links and which references `x`. */
  ghost predicate LeadsTo(decode: Decode, st: Store, opts: Opts, r: Name, d: Digest, x: Digest) {
    d in Linked(st, r) && Reached(decode, st, opts, r, d) && x in Refs(decode, d)
  }

  /** What a repository links and any reaches, it reaches itself. */
  ghost predicate OwnReach(decode: Decode, st: Store, opts: Opts) {
    forall r, s, d ::
      r in Enumerated(st) && s in Enumerated(st) && d in Linked(st, r) && Reached(decode, st, opts, s, d) ==>
      Reached(decode, st, opts, r, d)
  }

  /** What a repository links, no other reaches. */
  ghost predicate Apart(decode: Decode, st: Store, opts: Opts) {
    forall r, s, d ::
      r in Enumerated(st) && s in Enumerated(st) && r != s && d in Linked(st, r) ==> !Reached(decode, st, opts, s, d)
  }

  ghost predicate ClosedEverywhere(decode: Decode, st: Store, ms: set<Digest>) {
    forall s, x :: s in Enumerated(st) && x in ms && x in Linked(st, s) ==> Refs(decode, x) <= ms
  }

  lemma ScanCloses(decode: Decode, st: Store, opts: Opts, r: Name, before: set<Digest>, after: set<Digest>)
    requires Local(decode, st, opts) && r in Enumerated(st) && RepoMarked(decode, st, opts, r, before, after)
    requires ClosedEverywhere(decode, st, before)
    ensures ClosedEverywhere(decode, st, after)
  {
    var linked, roots := Linked(st, r), Roots(st, opts, r);
    forall s, x | s in Enumerated(st) && x in after && x in Linked(st, s) ensures Refs(decode, x) <= after {
      if x !in before {
        var d :| d in roots && Reaches(decode, linked, before, d, x);
        var p :| IsChain(decode, linked, before, p) && p[0] == d && p[|p| - 1] == x;
        if |p| > 1 {
          assert p[|p| - 2] in linked && p[|p| - 2 + 1] in Refs(decode, p[|p| - 2]);
          ReachedBefore(decode, st, opts, r, before, p);
          assert LeadsTo(decode, st, opts, r, p[|p| - 2], x);
          assert x in linked;
        }
      }
    }
  }

  lemma ReachedBefore(decode: Decode, st: Store, opts: Opts, r: Name, avoid: set<Digest>, p: seq<Digest>)
    requires IsChain(decode, Linked(st, r), avoid, p) && p[0] in Roots(st, opts, r) && |p| > 1
    ensures Reached(decode, st, opts, r, p[|p| - 2])
  {
    var q := p[..|p| - 1];
    assert IsChain(decode, Linked(st, r), {}, q) by {
      forall i | 0 <= i < |q| - 1 ensures q[i] in Linked(st, r) && q[i + 1] in Refs(decode, q[i]) {
        assert q[i] == p[i] && q[i + 1] == p[i + 1];
      }
    }
    assert q[0] == p[0] && q[|q| - 1] == p[|p| - 2];
  }

  /** When references are local, the marks are plain reachability, repository by repository. */
  lemma {:induction false} MarksAreReach(decode: Decode, st: Store, opts: Opts, o: Order,
          snaps: seq<set<Digest>>, k: nat)
    requires Local(decode, st, opts) && Enumerates(st, o)
    requires Snapshots(decode, st, opts, o.repos, snaps) && k <= |o.repos|
    ensures ClosedEverywhere(decode, st, snaps[k])
    ensures forall x :: x in snaps[k] <==> ReachedUpTo(decode, st, opts, o.repos, k, x)
  {
    if k == 0 {
    } else {
      MarksAreReach(decode, st, opts, o, snaps, k - 1);
      assert RepoMarked(decode, st, opts, o.repos[k - 1], snaps[k - 1], snaps[k]);
      OneMoreIsReach(decode, st, opts, o, k, snaps[k - 1], snaps[k]);
    }
  }

  lemma OneMoreIsReach(decode: Decode, st: Store, opts: Opts, o: Order, k: nat, before: set<Digest>,
          after: set<Digest>)
    requires Local(decode, st, opts) && Enumerates(st, o) && 0 < k <= |o.repos|
    requires RepoMarked(decode, st, opts, o.repos[k - 1], before, after) && ClosedEverywhere(decode, st, before)
    requires forall x :: x in before <==> ReachedUpTo(decode, st, opts, o.repos, k - 1, x)
    ensures ClosedEverywhere(decode, st, after)
    ensures forall x :: x in after <==> ReachedUpTo(decode, st, opts, o.repos, k, x)
  {
    var r := o.repos[k - 1];
    assert r in o.repos;
    ScanCloses(decode, st, opts, r, before, after);
    forall x ensures x in after <==> ReachedUpTo(decode, st, opts, o.repos, k, x) {
      ScanReaches(decode, st, opts, r, before, after, x);
      ReachedOneMore(decode, st, opts, o.repos, k, x);
    }
  }

  lemma ReachedOneMore(decode: Decode, st: Store, opts: Opts, repos: seq<Name>, k: nat, x: Digest)
    requires 0 < k <= |repos|
    ensures ReachedUpTo(decode, st, opts, repos, k, x) <==>
      ReachedUpTo(decode, st, opts, repos, k - 1, x) || Reached(decode, st, opts, repos[k - 1], x)
  {
  }

  lemma ScanReaches(decode: Decode, st: Store, opts: Opts, r: Name, before: set<Digest>, after: set<Digest>, x: Digest)
    requires r in Enumerated(st) && RepoMarked(decode, st, opts, r, before, after)
    requires ClosedEverywhere(decode, st, after)
    ensures x in after <==> x in before || Reached(decode, st, opts, r, x)
  {
    var linked, roots := Linked(st, r), Roots(st, opts, r);
    if x in after && x !in before {
      var d :| d in roots && Reaches(decode, linked, before, d, x);
      ReachesMore(decode, linked, {}, before, d, x);
    }
    if Reached(decode, st, opts, r, x) {
      var d :| d in roots && Reaches(decode, linked, {}, d, x);
      ClosedKeepsReachable(decode, linked, {}, after, d, x);
    }
  }

  /** What keeps integrity of a manifest linked in repository `k`: if some repository reaches it, then `k` or an
      earlier one reaches the layers it demands, and if none does, its repository has tags. */
  ghost predicate InTime(decode: Decode, cfg: Config, st: Store, opts: Opts, repos: seq<Name>, k: nat, d: Digest)
    requires k < |repos|
  {
    if ReachedUpTo(decode, st, opts, repos, |repos|, d)
    then forall x :: Demanded(decode, cfg, d, NeedLayer(x)) ==> ReachedUpTo(decode, st, opts, repos, k + 1, x)
    else st.Get(repos[k]).tags.Some?
  }

  /** Main result: when references are local, removing untagged manifests keeps integrity exactly when every
      linked manifest that some repository reaches has its layers reached in time, and every other is in a
      repository with tags. */
  lemma {:induction false} UntaggedKeepsExactly(decode: Decode, cfg: Config, st: Store, opts: Opts, o: Order,
          snaps: seq<set<Digest>>, ops: seq<Op>)
    requires opts.removeUntagged && Local(decode, st, opts)
    requires Integral(decode, cfg, st) && IsCollection(decode, st, opts, o, snaps, ops)
    ensures Integral(decode, cfg, Apply(st, ops)) <==>
      forall k, d :: 0 <= k < |o.repos| && d in Linked(st, o.repos[k]) ==> InTime(decode, cfg, st, opts, o.repos, k, d)
  {
    CollectionKeepsExactly(decode, cfg, st, opts, o, snaps, ops);
    forall k, d | 0 <= k < |o.repos| && d in Linked(st, o.repos[k])
      ensures (Stays(st, opts, o.repos[k], snaps, d) ==> Spared(decode, cfg, snaps, k, d)) <==>
        InTime(decode, cfg, st, opts, o.repos, k, d)
    {
      InTimeIsSpared(decode, cfg, st, opts, o, snaps, k, d);
    }
  }

  lemma InTimeIsSpared(decode: Decode, cfg: Config, st: Store, opts: Opts, o: Order, snaps: seq<set<Digest>>,
          k: nat, d: Digest)
    requires opts.removeUntagged && Local(decode, st, opts)
    requires Enumerates(st, o) && Snapshots(decode, st, opts, o.repos, snaps)
    requires k < |o.repos| && d in Linked(st, o.repos[k])
    ensures (Stays(st, opts, o.repos[k], snaps, d) ==> Spared(decode, cfg, snaps, k, d)) <==>
      InTime(decode, cfg, st, opts, o.repos, k, d)
  {
    var r, last := o.repos[k], snaps[|o.repos|];
    MarksAreReach(decode, st, opts, o, snaps, |o.repos|);
    MarksAreReach(decode, st, opts, o, snaps, k + 1);
    assert r in o.repos;
    if d in last {
      MarkedIsSpared(decode, cfg, st, snaps, r, k, d);
    } else {
      SnapshotsGrow(decode, st, opts, o.repos, snaps, k + 1);
      assert RepoMarked(decode, st, opts, r, snaps[k], snaps[k + 1]);
      assert d !in Roots(st, opts, r);
      assert !Spared(decode, cfg, snaps, k, d);
    }
  }

  lemma MarkedIsSpared(decode: Decode, cfg: Config, st: Store, snaps: seq<set<Digest>>, r: Name, k: nat, d: Digest)
    requires k + 1 < |snaps| && r in Enumerated(st) && d in Linked(st, r) && d in snaps[|snaps| - 1]
    requires ClosedEverywhere(decode, st, snaps[|snaps| - 1])
    ensures Spared(decode, cfg, snaps, k, d) <==>
      forall x :: Demanded(decode, cfg, d, NeedLayer(x)) ==> x in snaps[k + 1]
  {
    forall n | Demanded(decode, cfg, d, n) ensures n.d in snaps[|snaps| - 1] {
      DemandIsReference(decode, cfg, d, n);
    }
    forall n: Demand | n.NeedLayer? ensures n == NeedLayer(n.d) {
    }
  }

  /** So it suffices, in any order, that every repository has tags and reaches the manifests it links that any
      repository reaches. */
  lemma {:induction false} OwnReachSuffices(decode: Decode, cfg: Config, st: Store, opts: Opts, o: Order,
          snaps: seq<set<Digest>>, ops: seq<Op>)
    requires opts.removeUntagged && Local(decode, st, opts)
    requires Integral(decode, cfg, st) && IsCollection(decode, st, opts, o, snaps, ops)
    requires forall r :: r in Enumerated(st) ==> st.Get(r).tags.Some?
    requires OwnReach(decode, st, opts)
    ensures Integral(decode, cfg, Apply(st, ops))
  {
    UntaggedKeepsExactly(decode, cfg, st, opts, o, snaps, ops);
    forall k, d | 0 <= k < |o.repos| && d in Linked(st, o.repos[k])
      ensures InTime(decode, cfg, st, opts, o.repos, k, d)
    {
      var r := o.repos[k];
      assert r in o.repos;
      if ReachedUpTo(decode, st, opts, o.repos, |o.repos|, d) {
        var j :| 0 <= j < |o.repos| && Reached(decode, st, opts, o.repos[j], d);
        assert o.repos[j] in o.repos;
        assert Reached(decode, st, opts, r, d);
        forall x | Demanded(decode, cfg, d, NeedLayer(x)) ensures ReachedUpTo(decode, st, opts, o.repos, k + 1, x) {
          DemandIsReference(decode, cfg, d, NeedLayer(x));
          ReachedNext(decode, st, opts, r, d, x);
        }
      }
    }
  }

  /** In particular, that no manifest of one repository is reached from the roots of another. */
  lemma {:induction false} ApartSuffices(decode: Decode, cfg: Config, st: Store, opts: Opts, o: Order,
          snaps: seq<set<Digest>>, ops: seq<Op>)
    requires opts.removeUntagged && Integral(decode, cfg, st) && IsCollection(decode, st, opts, o, snaps, ops)
    requires forall r :: r in Enumerated(st) ==> st.Get(r).tags.Some?
    requires Apart(decode, st, opts)
    ensures Integral(decode, cfg, Apply(st, ops))
  {
    ApartIsLocal(decode, st, opts);
    OwnReachSuffices(decode, cfg, st, opts, o, snaps, ops);
  }

  lemma ApartIsLocal(decode: Decode, st: Store, opts: Opts)
    requires Apart(decode, st, opts)
    ensures Local(decode, st, opts) && OwnReach(decode, st, opts)
  {
    forall r, s, d, x |
      r in Enumerated(st) && s in Enumerated(st) && LeadsTo(decode, st, opts, r, d, x) && x in Linked(st, s)
      ensures x in Linked(st, r)
    {
      ReachedNext(decode, st, opts, r, d, x);
    }
  }

  lemma ReachedNext(decode: Decode, st: Store, opts: Opts, r: Name, d: Digest, x: Digest)
    requires Reached(decode, st, opts, r, d) && d in Linked(st, r) && x in Refs(decode, d)
    ensures Reached(decode, st, opts, r, x)
  {
    var linked := Linked(st, r);
    var root :| root in Roots(st, opts, r) && Reaches(decode, linked, {}, root, d);
    var p :| IsChain(decode, linked, {}, p) && p[0] == root && p[|p| - 1] == d;
    var q := p + [x];
    assert IsChain(decode, linked, {}, q) by {
      forall i | 0 <= i < |q| - 1 ensures q[i] in linked && q[i + 1] in Refs(decode, q[i]) {
        if i < |p| - 1 { assert q[i] == p[i] && q[i + 1] == p[i + 1]; }
      }
    }
    assert q[0] == root && q[|q| - 1] == x;
  }

  /** Main result for one repository: removing untagged manifests keeps integrity exactly when the repository
      has a tags directory or no manifest. */
  lemma {:induction false} OneRepositoryKeepsExactly(decode: Decode, cfg: Config, st: Store, opts: Opts,
          o: Order, r: Name, snaps: seq<set<Digest>>, ops: seq<Op>)
    requires opts.removeUntagged && Integral(decode, cfg, st)
    requires IsCollection(decode, st, opts, o, snaps, ops) && o.repos == [r]
    ensures Integral(decode, cfg, Apply(st, ops)) <==> st.Get(r).tags.Some? || Or(st.Get(r).revisions) == {}
  {
    assert forall s :: s in Enumerated(st) ==> s in o.repos;
    assert Local(decode, st, opts);
    if st.Get(r).tags.Some? {
      OwnReachSuffices(decode, cfg, st, opts, o, snaps, ops);
    } else {
      UntaggedKeepsExactly(decode, cfg, st, opts, o, snaps, ops);
      assert Roots(st, opts, r) == {};
      forall d | d in Or(st.Get(r).revisions)
        ensures d in Linked(st, r) && !InTime(decode, cfg, st, opts, o.repos, 0, d)
      {
        assert Kept(decode, cfg, st, r, d);
      }
      assert o.repos[0] == r;
    }
  }
}
