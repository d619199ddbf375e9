/** Whole runs of a registry: manifests are put, layers committed and mounted, tags set and removed,
    and collections run in between, none overlapping another step. */
module RegistryRuns {
  import opened Digests
  import opened Wrappers
  import opened Stores
  import opened Manifests
  import opened Mark
  import opened Collect
  import opened Sweep
  import opened Collections
  import opened Integrity

  datatype Action =
    | PutManifest(r: Name, d: Digest)
    | PutLayer(r: Name, d: Digest)
    | MountLayer(from: Name, to: Name, d: Digest)
    | TagManifest(r: Name, t: Tag, d: Digest, whole: bool)
    | UntagManifest(r: Name, t: Tag)
    | Collection(opts: Opts, o: Order, snaps: seq<set<Digest>>, ops: seq<Op>, done: nat)

  const EMPTY_STORE := Store({}, map[])

  /** The check passed, with verification on. */
  ghost predicate Accepted(decode: Decode, cfg: Config, st: Store, r: Name, d: Digest) {
    decode(d).Some? && Accepts(cfg, decode(d).value, st, r)
  }

  /** One step. A manifest that fails its check leaves the store alone, and so does a collection
      whose mark phase fails; a collection may stop after any number of its removals. */
  ghost predicate Step(decode: Decode, cfg: Config, st: Store, a: Action, st': Store) {
    match a
    case PutManifest(r, d) => st' == if Accepted(decode, cfg, st, r, d) then LinkRevision(st, r, d) else st
    case PutLayer(r, d) => st' == CommitLayer(st, r, d)
    case MountLayer(from, to, d) => st' == Mount(st, from, to, d)
    case TagManifest(r, t, d, whole) => st' == SetTag(st, r, t, d, whole)
    case UntagManifest(r, t) => st' == Untag(st, r, t)
    case Collection(opts, o, snaps, ops, done) =>
      || st' == st
      || (Enumerates(st, o) && Snapshots(decode, st, opts, o.repos, snaps) && Planned(st, opts, o, snaps, ops) &&
          done <= |ops| && st' == Apply(st, ops[..done]))
  }

  ghost predicate IsRun(decode: Decode, cfg: Config, actions: seq<Action>, trace: seq<Store>) {
    && |trace| == |actions| + 1 && trace[0] == EMPTY_STORE
    && forall i :: 0 <= i < |actions| ==> Step(decode, cfg, trace[i], actions[i], trace[i + 1])
  }

  // ---------------------------------------------------------------------------------------------
  // Referential integrity

  /** A collection that keeps integrity wherever it stops: one that keeps untagged manifests, or one whose
      marks and listing meet the conditions of `StoppedCollectionKeepsExactly`. */
  ghost predicate Harmless(decode: Decode, cfg: Config, st: Store, a: Action) {
    a.Collection? ==>
      !a.opts.removeUntagged ||
      (Settled(decode, cfg, st, a.opts, a.o, a.snaps) && ParentsFirst(decode, cfg, st, a.opts, a.o, a.snaps))
  }

  lemma StepKeepsIntegral(decode: Decode, cfg: Config, st: Store, a: Action, st': Store)
    requires Integral(decode, cfg, st) && Step(decode, cfg, st, a, st') && Harmless(decode, cfg, st, a)
    ensures Integral(decode, cfg, st')
  {
    if a.Collection? {
      if st' != st {
        if !a.opts.removeUntagged { KeepingIsHarmless(decode, cfg, st, a.opts, a.o, a.snaps); }
        HarmlessPart(decode, cfg, st, a.opts, a.o, a.snaps, a.ops, a.done);
      }
    } else {
      forall r, d | d in Or(st'.Get(r).revisions) ensures Kept(decode, cfg, st', r, d) {
        if d in Or(st.Get(r).revisions) {
          GrowingKeeps(decode, cfg, st, st', r, d);
        } else {
          AcceptedIsKept(decode, cfg, st, r, d);
        }
      }
    }
  }

  lemma AcceptedIsKept(decode: Decode, cfg: Config, st: Store, r: Name, d: Digest)
    requires Accepted(decode, cfg, st, r, d)
    ensures Kept(decode, cfg, LinkRevision(st, r, d), r, d)
  {
    var m := decode(d).value;
    forall i | 0 <= i < |m.refs| ensures RefOk(cfg, m.kind, LinkRevision(st, r, d), r, m.refs[i]) {
      assert RefOk(cfg, m.kind, st, r, m.refs[i]);
    }
  }

  /** Main result: at every point of every run whose collections keep untagged manifests or are harmless, every
      linked manifest has its blob and every layer link, child revision and blob its check demanded. */
  lemma {:induction false} RunsKeepIntegrity(decode: Decode, cfg: Config, actions: seq<Action>,
          trace: seq<Store>, i: nat)
    requires IsRun(decode, cfg, actions, trace) && i < |trace|
    requires forall k :: 0 <= k < |actions| ==> Harmless(decode, cfg, trace[k], actions[k])
    ensures Integral(decode, cfg, trace[i])
  {
    if i == 0 {
    } else {
      RunsKeepIntegrity(decode, cfg, actions, trace, i - 1);
      assert Step(decode, cfg, trace[i - 1], actions[i - 1], trace[i - 1 + 1]);
      StepKeepsIntegral(decode, cfg, trace[i - 1], actions[i - 1], trace[i]);
    }
  }

  /** The same in terms of links and blobs alone, for reference `k` of any linked manifest: what an image needs is
      linked as a layer, and what an index needs as a manifest, each with its blob. */
  lemma RunsKeepReferences(decode: Decode, cfg: Config, actions: seq<Action>, trace: seq<Store>, i: nat,
          r: Name, d: Digest, k: nat)
    requires IsRun(decode, cfg, actions, trace) && i < |trace|
    requires forall j :: 0 <= j < |actions| ==> Harmless(decode, cfg, trace[j], actions[j])
    requires d in Or(trace[i].Get(r).revisions)
    ensures d in trace[i].blobs && decode(d).Some?
    ensures k < |decode(d).value.refs| ==>
      var kind, ref := decode(d).value.kind, decode(d).value.refs[k];
      && (kind.Schema2? && !ref.media.Foreign? ==>
            ref.digest in Or(trace[i].Get(r).layers) && ref.digest in trace[i].blobs)
      && (kind.OciImage? && (!ref.media.NonDistributable? || ref.urls == []) ==>
            ref.digest in Or(trace[i].Get(r).layers) && ref.digest in trace[i].blobs)
      && (kind.Index? && cfg.imagesExist &&
          (cfg.platforms == [] || (ref.platform.Some? && ref.platform.value in cfg.platforms)) ==>
            ref.digest in Or(trace[i].Get(r).revisions) && ref.digest in trace[i].blobs)
  {
    RunsKeepIntegrity(decode, cfg, actions, trace, i);
    assert Kept(decode, cfg, trace[i], r, d);
    var m := decode(d).value;
    if k < |m.refs| { assert RefOk(cfg, m.kind, trace[i], r, m.refs[k]); }
  }

  /** Removing untagged manifests does not keep integrity across repositories. Here `j` of repository
      `a` references `m`, which only `b` links; the scan of `b` then finds `m` marked and does not
      look at what it references, while the mark saves its revision link. */
  lemma {:induction false} SharedManifestLosesLayer(decode: Decode, cfg: Config, st: Store, a: Name, b: Name,
                                 j: Digest, i: Digest, m: Digest, l: Digest, act: Action)
    requires act.Collection? && act.opts.removeUntagged && act.o.repos == [a, b] && act.done == |act.ops|
    requires Enumerates(st, act.o) && Snapshots(decode, st, act.opts, [a, b], act.snaps)
    requires Planned(st, act.opts, act.o, act.snaps, act.ops)
    requires l != j && l != m && l != i && l in st.blobs
    requires Roots(st, act.opts, a) == {j} && Roots(st, act.opts, b) == {i} && m in Linked(st, b) && m !in Linked(st, a)
    requires Refs(decode, j) == {m} && Refs(decode, i) == {m}
    requires decode(m).Some? && decode(m).value == Manifest(Schema2, 2, [Descriptor(l, Layer, [], None)])
    ensures var st' := Apply(st, act.ops);
      m in Or(st'.Get(b).revisions) && l !in st'.blobs && !Integral(decode, cfg, st')
  {
    var st', snaps := Apply(st, act.ops), act.snaps;
    assert act.ops[..act.done] == act.ops;
    LayerIsUnmarked(decode, st, act.opts, a, b, j, i, m, l, snaps);
    ApplyEffect(st, act.ops);
    assert RepoEffect(st.Get(b), act.ops, b, st'.Get(b));
    assert DropBlob(l) in act.ops by { assert Condemned(st, act.opts, act.o, snaps, DropBlob(l)); }
    forall op | op in act.ops && op.DropManifest? ensures op.d != m {
      NotInPart(st, act.opts, act.o, act.snaps, act.ops, act.done, op);
    }
    assert !RefOk(cfg, Schema2, st', b, decode(m).value.refs[0]);
    assert !Kept(decode, cfg, st', b, m);
  }

  lemma LayerIsUnmarked(decode: Decode, st: Store, opts: Opts, a: Name, b: Name, j: Digest, i: Digest, m: Digest,
          l: Digest, snaps: seq<set<Digest>>)
    requires Snapshots(decode, st, opts, [a, b], snaps) && l != j && l != m && l != i
    requires Roots(st, opts, a) == {j} && Roots(st, opts, b) == {i} && m !in Linked(st, a)
    requires Refs(decode, j) == {m} && Refs(decode, i) == {m}
    ensures m in snaps[2] && l !in snaps[2]
  {
    assert RepoMarked(decode, st, opts, [a, b][0], snaps[0], snaps[0 + 1]);
    assert RepoMarked(decode, st, opts, [a, b][1], snaps[1], snaps[1 + 1]);
    assert m in snaps[1] by { assert j in Roots(st, opts, a) && m in Refs(decode, j); }
    OnlyMarkedAhead(decode, Linked(st, a), {}, j, m, l);
    assert l !in snaps[1];
    OnlyMarkedAhead(decode, Linked(st, b), snaps[1], i, m, l);
  }

  /** All that `d` references is `m`, where the search ends: `m` is marked or no linked manifest. */
  lemma OnlyMarkedAhead(decode: Decode, linked: set<Digest>, avoid: set<Digest>, d: Digest, m: Digest, l: Digest)
    requires Refs(decode, d) == {m} && (m in avoid || m !in linked) && l != d && l != m
    ensures !Reaches(decode, linked, avoid, d, l)
  {
    forall p | IsChain(decode, linked, avoid, p) && p[0] == d ensures p[|p| - 1] != l {
      if |p| > 1 {
        assert p[0 + 1] in Refs(decode, p[0]) && p[1] !in avoid;
      }
    }
  }

  /** The repository an action other than a collection works on. */
  function RepositoryOf(a: Action): Name
    requires !a.Collection?
  {
    match a
    case MountLayer(_, to, _) => to
    case PutManifest(r, _) => r
    case PutLayer(r, _) => r
    case TagManifest(r, _, _, _) => r
    case UntagManifest(r, _) => r
  }

  /** Nothing but a collection touches another repository or takes a blob away, and a tag that was set is
      found until it is set again or removed. */
  lemma ActionsAreLocal(decode: Decode, cfg: Config, st: Store, a: Action, st': Store, r: Name)
    requires Step(decode, cfg, st, a, st') && !a.Collection?
    ensures r != RepositoryOf(a) ==> st'.Get(r) == st.Get(r)
    ensures st.blobs <= st'.blobs
    ensures a.TagManifest? ==>
      var was := if a.t in TagsOf(st.Get(a.r)) then TagsOf(st.Get(a.r))[a.t].current else None;
      a.t in TagsOf(st'.Get(a.r)) && TagsOf(st'.Get(a.r))[a.t].current == if a.whole then Some(a.d) else was
    ensures a.UntagManifest? ==> a.t !in TagsOf(st'.Get(a.r))
    ensures forall t :: t in TagsOf(st.Get(r)) && !((a.TagManifest? || a.UntagManifest?) && a.r == r && a.t == t) ==>
      t in TagsOf(st'.Get(r)) && TagsOf(st'.Get(r))[t] == TagsOf(st.Get(r))[t]
  {
  }

  /** What a step other than a collection does to blobs, links and indexes, item by item. */
  lemma ActionsTakeEffect(decode: Decode, cfg: Config, st: Store, a: Action, st': Store)
    requires Step(decode, cfg, st, a, st') && !a.Collection?
    ensures a.PutManifest? && Accepted(decode, cfg, st, a.r, a.d) ==>
      && st'.blobs == st.blobs + {a.d}
      && Or(st'.Get(a.r).revisions) == Or(st.Get(a.r).revisions) + {a.d}
    ensures a.PutLayer? ==>
      && st'.blobs == st.blobs + {a.d}
      && Or(st'.Get(a.r).layers) == Or(st.Get(a.r).layers) + {a.d}
    ensures a.MountLayer? && a.d in Or(st.Get(a.from).layers) && a.d in st.blobs ==>
      Or(st'.Get(a.to).layers) == Or(st.Get(a.to).layers) + {a.d}
    ensures a.MountLayer? && !(a.d in Or(st.Get(a.from).layers) && a.d in st.blobs) ==> st' == st
    ensures a.TagManifest? ==>
      && a.t in TagsOf(st'.Get(a.r))
      && TagsOf(st'.Get(a.r))[a.t].index ==
           (if a.t in TagsOf(st.Get(a.r)) then TagsOf(st.Get(a.r))[a.t].index else {}) + {a.d}
    ensures !a.PutManifest? && !a.PutLayer? ==> st'.blobs == st.blobs
    ensures !a.PutManifest? ==> forall r :: Or(st'.Get(r).revisions) == Or(st.Get(r).revisions)
    ensures !a.PutLayer? && !a.MountLayer? ==> forall r :: Or(st'.Get(r).layers) == Or(st.Get(r).layers)
  {
  }

  // ---------------------------------------------------------------------------------------------
  // Tags and their indexes

  /** A tag's current revision is among its index entries. */
  ghost predicate TagsIndexed(st: Store) {
    forall r, t :: t in TagsOf(st.Get(r)) ==> CurrentIndexed(TagsOf(st.Get(r))[t])
  }

  predicate CurrentIndexed(dir: TagDir) {
    dir.current.Some? ==> dir.current.value in dir.index
  }

  lemma StepKeepsTagsIndexed(decode: Decode, cfg: Config, st: Store, a: Action, st': Store)
    requires TagsIndexed(st) && Step(decode, cfg, st, a, st')
    ensures TagsIndexed(st')
  {
    if a.Collection? && st' != st {
      var done := a.ops[..a.done];
      ApplyEffect(st, done);
      forall r, t | t in TagsOf(st'.Get(r)) ensures CurrentIndexed(TagsOf(st'.Get(r))[t]) {
        assert RepoEffect(st.Get(r), done, r, st'.Get(r));
        assert CurrentIndexed(TagsOf(st.Get(r))[t]);
        forall op | op in done && op.DropManifest? && op.r == r ensures TagsOf(st.Get(r))[t].current != Some(op.d) {
          NotInPart(st, a.opts, a.o, a.snaps, a.ops, a.done, op);
        }
      }
    } else {
      forall r, t | t in TagsOf(st'.Get(r)) ensures CurrentIndexed(TagsOf(st'.Get(r))[t]) {
        assert t in TagsOf(st.Get(r)) ==> CurrentIndexed(TagsOf(st.Get(r))[t]);
      }
    }
  }

  /** Main result: at every point of every run, whatever the collections do about untagged manifests
      and wherever their sweeps stop, a tag's current revision is in that tag's index. */
  lemma {:induction false} RunsKeepTagsIndexed(decode: Decode, cfg: Config, actions: seq<Action>,
          trace: seq<Store>, i: nat)
    requires IsRun(decode, cfg, actions, trace) && i < |trace|
    ensures TagsIndexed(trace[i])
  {
    if i == 0 {
    } else {
      RunsKeepTagsIndexed(decode, cfg, actions, trace, i - 1);
      assert Step(decode, cfg, trace[i - 1], actions[i - 1], trace[i - 1 + 1]);
      StepKeepsTagsIndexed(decode, cfg, trace[i - 1], actions[i - 1], trace[i]);
    }
  }
}
