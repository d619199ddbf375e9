/** The sweep: what the mark phase condemned is deleted one item at a time, and a storage failure may
    end the sweep after any item. */
module Sweep {
  import opened Digests
  import opened Wrappers
  import opened Stores
  import opened Manifests
  import opened Mark
  import opened Collect

  datatype Op = DropManifest(r: Name, d: Digest, tags: seq<Tag>) | DropBlob(d: Digest) | DropLayer(r: Name, d: Digest)

  function ApplyOp(st: Store, op: Op): Store {
    match op
    case DropManifest(r, d, tags) => RemoveManifest(st, r, d, Elems(tags))
    case DropBlob(d) => RemoveBlob(st, d)
    case DropLayer(r, d) => RemoveLayer(st, r, d)
  }

  function Elems<T>(s: seq<T>): set<T> {
    set x | x in s
  }

  function Apply(st: Store, ops: seq<Op>): Store
    decreases |ops|
  {
    if ops == [] then st else Apply(ApplyOp(st, ops[0]), ops[1..])
  }

  lemma {:induction false} ApplyLast(st: Store, ops: seq<Op>, op: Op)
    ensures Apply(st, ops + [op]) == ApplyOp(Apply(st, ops), op)
    decreases |ops|
  {
    if ops == [] {
      assert [] + [op] == [op];
      assert Apply(st, [op]) == Apply(ApplyOp(st, op), []);
    } else {
      assert (ops + [op])[1..] == ops[1..] + [op];
      ApplyLast(ApplyOp(st, ops[0]), ops[1..], op);
    }
  }

  /** The sweep's passes: manifests, then blobs, then layer links. */
  function Pass(op: Op): nat {
    match op case DropManifest(_, _, _) => 0 case DropBlob(_) => 1 case DropLayer(_, _) => 2
  }

  /** Pass by pass, and the manifests of one repository in the order of its listing. */
  ghost predicate InPasses(o: Order, ops: seq<Op>) {
    forall i, j :: 0 <= i < j < |ops| ==> Follows(o, ops[i], ops[j])
  }

  ghost predicate Follows(o: Order, a: Op, b: Op) {
    && Pass(a) <= Pass(b)
    && (a.DropManifest? && b.DropManifest? && a.r == b.r && a.r in o.revisions ==> Before(o.revisions[a.r], a.d, b.d))
  }

  /** The operations a sweep after the given mark phase performs, each once and in the order of the passes. */
  ghost predicate Planned(st: Store, opts: Opts, o: Order, snaps: seq<set<Digest>>, ops: seq<Op>) {
    && Distinct(ops) && |snaps| == |o.repos| + 1
    && (forall op :: op in ops <==> Condemned(st, opts, o, snaps, op))
    && InPasses(o, ops)
  }

  ghost predicate Condemned(st: Store, opts: Opts, o: Order, snaps: seq<set<Digest>>, op: Op)
    requires |snaps| == |o.repos| + 1
  {
    match op
    case DropManifest(r, d, tags) =>
      IsCandidate(st, opts, o, o.repos, ManifestDel(r, d, tags)) && d !in snaps[|o.repos|]
    case DropBlob(d) => d in st.blobs && d !in snaps[|o.repos|]
    case DropLayer(r, d) => DeadLayer(st, o.repos, snaps, r, d)
  }

  /** The target of a removal is there. */
  predicate Applicable(st: Store, op: Op) {
    match op
    case DropManifest(r, d, tags) =>
      r in st.repos && d in Or(st.Get(r).revisions) && forall t :: t in tags ==> t in TagsOf(st.Get(r))
    case DropBlob(d) => d in st.blobs
    case DropLayer(r, d) => r in st.repos && d in Or(st.Get(r).layers)
  }

  predicate SameTarget(a: Op, b: Op) {
    match (a, b)
    case (DropManifest(r, d, _), DropManifest(r', d', _)) => r == r' && d == d'
    case (DropBlob(d), DropBlob(d')) => d == d'
    case (DropLayer(r, d), DropLayer(r', d')) => r == r' && d == d'
    case _ => false
  }

  ghost predicate Executable(st: Store, ops: seq<Op>) {
    && (forall i :: 0 <= i < |ops| ==> Applicable(st, ops[i]))
    && forall i, j :: 0 <= i < j < |ops| ==> !SameTarget(ops[i], ops[j])
  }

  lemma PlannedIsExecutable(st: Store, opts: Opts, o: Order, snaps: seq<set<Digest>>, ops: seq<Op>)
    requires Enumerates(st, o) && Planned(st, opts, o, snaps, ops)
    ensures Executable(st, ops)
  {
    forall i, j | 0 <= i < j < |ops| ensures !SameTarget(ops[i], ops[j]) {
      assert ops[i] in ops && ops[j] in ops;
    }
    forall i | 0 <= i < |ops| ensures Applicable(st, ops[i]) {
      assert ops[i] in ops;
    }
  }

  lemma StaysExecutable(st: Store, ops: seq<Op>)
    requires Executable(st, ops) && ops != []
    ensures Executable(ApplyOp(st, ops[0]), ops[1..])
  {
    forall i | 0 <= i < |ops[1..]| ensures Applicable(ApplyOp(st, ops[0]), ops[1..][i]) {
      assert ops[1..][i] == ops[i + 1];
      assert !SameTarget(ops[0], ops[i + 1]) && Applicable(st, ops[i + 1]);
    }
  }

  lemma UnindexOne(dirs: map<Tag, TagDir>, d: Digest, from: set<Tag>, t: Tag)
    requires t in dirs
    ensures
      var now := Unindex(dirs, d, from);
      && Unindex(dirs, d, from + {t}) == now[t := now[t].(index := now[t].index - {d})]
      && (d !in now[t].index ==> Unindex(dirs, d, from + {t}) == now)
  {
    var now := Unindex(dirs, d, from);
    if d !in now[t].index {
      assert now[t].index - {d} == now[t].index;
    }
  }

  datatype Outcome = MarkFailed | Dry | Interrupted | Completed

  class Registry {
    var blobs: set<Digest>
    var repos: map<Name, Repo>

    function View(): Store
      reads this
    {
      Store(blobs, repos)
    }

    /** Checks a manifest and, if it passes, stores its blob and links the revision. */
    method PutManifest(decode: Decode, cfg: Config, r: Name, d: Digest) returns (ok: bool)
      modifies this
      ensures ok <==> decode(d).Some? && Accepts(cfg, decode(d).value, old(View()), r)
      ensures View() == if ok then LinkRevision(old(View()), r, d) else old(View())
    {
      if decode(d).None? {
        return false;
      }
      var v := Verify(cfg, View(), r, decode(d).value);
      ok := v == Verified;
      if ok {
        var repo := View().Get(r);
        blobs := blobs + {d};
        repos := repos[r := repo.(revisions := Some(Or(repo.revisions) + {d}))];
      }
    }

    /** Links a layer into `to` if the source repository knows it. */
    method MountLayer(from: Name, to: Name, d: Digest) returns (ok: bool)
      modifies this`repos
      ensures ok <==> d in LinkedLayers(old(View()), from)
      ensures View() == Mount(old(View()), from, to, d)
    {
      ok := d in LinkedLayers(View(), from);
      if ok {
        var repo := View().Get(to);
        repos := repos[to := repo.(layers := Some(Or(repo.layers) + {d}))];
      }
    }

    /** Deletes the tag's directory; there is an error if it has none. */
    method DeleteTag(r: Name, t: Tag) returns (ok: bool)
      modifies this`repos
      ensures ok <==> t in TagsOf(old(View()).Get(r))
      ensures View() == Untag(old(View()), r, t)
    {
      var repo := View().Get(r);
      ok := t in TagsOf(repo);
      if ok {
        repos := repos[r := repo.(tags := Some(TagsOf(repo) - {t}))];
      }
    }

    /** Links the manifest into the tag's index, then overwrites the current link unless that fails. */
    method PutTag(r: Name, t: Tag, d: Digest, whole: bool) returns (ok: bool)
      modifies this`repos
      ensures ok == whole && View() == SetTag(old(View()), r, t, d, whole)
    {
      var repo := View().Get(r);
      var tags := TagsOf(repo);
      var dir := if t in tags then tags[t] else TagDir(None, {});
      tags := tags[t := dir.(index := dir.index + {d})];
      repos := repos[r := repo.(tags := Some(tags))];
      if !whole {
        return false;
      }
      tags := tags[t := tags[t].(current := Some(d))];
      repos := repos[r := repos[r].(tags := Some(tags))];
      return true;
    }

    /** Deletes the index entries under each tag that has one, then the revision. */
    method RemoveManifest(r: Name, d: Digest, tags: seq<Tag>) returns (ok: bool)
      requires r in repos && forall t :: t in tags ==> t in TagsOf(repos[r])
      modifies this`repos
      ensures ok <==> d in Or(old(repos)[r].revisions)
      ensures View() == Stores.RemoveManifest(old(View()), r, d, Elems(tags))
    {
      var before := repos[r];
      assert before.tags.Some? ==> Unindex(before.tags.value, d, Elems(tags[..0])) == before.tags.value;
      for i := 0 to |tags|
        invariant r in repos && repos == old(repos)[r := repos[r]]
        invariant repos[r].revisions == before.revisions && repos[r].layers == before.layers
        invariant repos[r].tags ==
          if before.tags.Some? then Some(Unindex(before.tags.value, d, Elems(tags[..i]))) else None
      {
        assert tags[i] in tags;
        assert tags[..i + 1] == tags[..i] + [tags[i]];
        assert Elems(tags[..i + 1]) == Elems(tags[..i]) + {tags[i]};
        var dirs := TagsOf(repos[r]);
        var dir := dirs[tags[i]];
        UnindexOne(before.tags.value, d, Elems(tags[..i]), tags[i]);
        if d in dir.index {
          repos := repos[r := repos[r].(tags := Some(dirs[tags[i] := dir.(index := dir.index - {d})]))];
        }
      }
      assert tags[..|tags|] == tags;
      if d !in Or(repos[r].revisions) {
        assert before.revisions.Some? ==> before.revisions.value - {d} == before.revisions.value;
        return false;
      }
      repos := repos[r := repos[r].(revisions := Some(repos[r].revisions.value - {d}))];
      return true;
    }

    method RemoveBlob(d: Digest) returns (ok: bool)
      modifies this`blobs
      ensures ok <==> d in old(blobs)
      ensures View() == Stores.RemoveBlob(old(View()), d)
    {
      ok := d in blobs;
      blobs := blobs - {d};
    }

    method RemoveLayer(r: Name, d: Digest) returns (ok: bool)
      requires r in repos
      modifies this`repos
      ensures ok <==> d in Or(old(repos)[r].layers)
      ensures ok ==> View() == Stores.RemoveLayer(old(View()), r, d)
      ensures !ok ==> View() == old(View())
    {
      ok := d in Or(repos[r].layers);
      if ok {
        repos := repos[r := repos[r].(layers := Some(repos[r].layers.value - {d}))];
      }
    }

    method Execute(op: Op) returns (ok: bool)
      requires Applicable(View(), op)
      modifies this
      ensures ok && View() == ApplyOp(old(View()), op)
    {
      match op
      case DropManifest(r, d, tags) => ok := RemoveManifest(r, d, tags);
      case DropBlob(d) => ok := RemoveBlob(d);
      case DropLayer(r, d) => ok := RemoveLayer(r, d);
    }

    /** Carries the operations out until storage fails, after `budget` of them. */
    method Sweep(ops: seq<Op>, budget: nat) returns (done: nat)
      requires Executable(View(), ops)
      modifies this
      ensures done == if budget < |ops| then budget else |ops|
      ensures View() == Apply(old(View()), ops[..done])
    {
      done := 0;
      while done < |ops| && done < budget
        invariant 0 <= done <= |ops| && done <= budget
        invariant View() == Apply(old(View()), ops[..done])
        invariant Executable(View(), ops[done..])
      {
        StaysExecutable(View(), ops[done..]);
        assert ops[done..][0] == ops[done] && ops[done..][1..] == ops[done + 1..];
        assert ops[..done + 1] == ops[..done] + [ops[done]];
        ApplyLast(old(View()), ops[..done], ops[done]);
        var ok := Execute(ops[done]);
        done := done + 1;
      }
    }

    /** Mark and sweep. A mark phase that fails and a dry run leave the store alone; otherwise the
        store is what the first `done` planned removals make of it. */
    method MarkAndSweep(decode: Decode, opts: Opts, o: Order, budget: nat)
      returns (outcome: Outcome, ghost snaps: seq<set<Digest>>, ghost ops: seq<Op>, ghost done: nat)
      requires Enumerates(View(), o)
      modifies this
      ensures outcome != MarkFailed ==> Snapshots(decode, old(View()), opts, o.repos, snaps)
      ensures outcome == MarkFailed <==> MarkFails(decode, old(View()), opts, o)
      ensures !opts.removeUntagged ==>
        (outcome == MarkFailed <==> exists r :: r in Enumerated(old(View())) && Unscannable(decode, old(View()), r))
      ensures outcome == MarkFailed || outcome == Dry ==> View() == old(View())
      ensures outcome == Dry ==> opts.dryRun
      ensures outcome == Interrupted || outcome == Completed ==>
        && !opts.dryRun && Planned(old(View()), opts, o, snaps, ops)
        && done <= |ops| && View() == Apply(old(View()), ops[..done])
        && (outcome == Completed <==> done == |ops|)
      ensures outcome == Interrupted ==> budget < |ops|
    {
      var st := View();
      var c := new Collector(decode, st, opts);
      var ok;
      ops, done := [], 0;
      ok, snaps := c.MarkAll(o);
      if !ok {
        ghost var k := |snaps| - 1;
        assert o.repos[k] in o.repos;
        BlockedIsUnscannable(decode, st, opts, o.repos[k], snaps[k]);
        return MarkFailed, snaps, ops, done;
      }
      PassedIsNoFailure(decode, st, opts, o, snaps);
      forall k | 0 <= k < |o.repos| && !opts.removeUntagged ensures !Unscannable(decode, st, o.repos[k]) {
        BlockedIsUnscannable(decode, st, opts, o.repos[k], snaps[k]);
      }
      var plan := Plan(st, opts, o, c, snaps);
      if opts.dryRun {
        return Dry, snaps, ops, done;
      }
      PlannedIsExecutable(st, opts, o, snaps, plan);
      var n := Sweep(plan, budget);
      ops, done := plan, n;
      outcome := if n == |plan| then Completed else Interrupted;
    }
  }

  lemma OneMoreOp(o: Order, ops: seq<Op>, op: Op)
    requires Distinct(ops) && InPasses(o, ops) && op !in ops && forall i :: 0 <= i < |ops| ==> Follows(o, ops[i], op)
    ensures Distinct(ops + [op]) && InPasses(o, ops + [op])
    ensures forall p :: p in ops + [op] <==> p in ops || p == op
  {
  }

  /** The candidates that no later scan marked. */
  method PlanManifests(o: Order, c: Collector) returns (ops: seq<Op>)
    requires Distinct(c.candidates) && InOrder(o, c.candidates)
    ensures Distinct(ops) && InPasses(o, ops)
    ensures forall op :: op in ops <==>
      op.DropManifest? && ManifestDel(op.r, op.d, op.tags) in c.candidates && op.d !in c.marker.marks
  {
    ops := [];
    for i := 0 to |c.candidates|
      invariant Distinct(ops) && InPasses(o, ops)
      invariant forall op :: op in ops <==>
        op.DropManifest? && ManifestDel(op.r, op.d, op.tags) in c.candidates[..i] && op.d !in c.marker.marks
    {
      var m := c.candidates[i];
      assert c.candidates[..i + 1] == c.candidates[..i] + [m];
      if m.digest !in c.marker.marks {
        var op := DropManifest(m.name, m.digest, m.tags);
        forall k | 0 <= k < |ops| ensures Follows(o, ops[k], op) {
          assert ops[k] in ops;
          var j :| 0 <= j < i && c.candidates[j] == ManifestDel(ops[k].r, ops[k].d, ops[k].tags);
        }
        OneMoreOp(o, ops, op);
        ops := ops + [op];
      }
    }
    assert c.candidates[..|c.candidates|] == c.candidates;
  }

  /** Lines up the removals: the candidates that no later scan marked, then the unmarked blobs, then
      the dead layer links. */
  method Plan(st: Store, opts: Opts, o: Order, c: Collector, ghost snaps: seq<set<Digest>>) returns (ops: seq<Op>)
    requires Enumerates(st, o) && |snaps| == |o.repos| + 1 && c.marker.marks == snaps[|o.repos|]
    requires Distinct(c.candidates) && InOrder(o, c.candidates)
    requires forall m :: m in c.candidates <==> IsCandidate(st, opts, o, o.repos, m)
    requires Distinct(c.deleteLayers) && forall p :: p in c.deleteLayers <==> DeadLayer(st, o.repos, snaps, p.0, p.1)
    ensures Planned(st, opts, o, snaps, ops)
  {
    ops := PlanManifests(o, c);
    ghost var manifests := ops;
    for i := 0 to |o.blobs|
      invariant Distinct(ops) && InPasses(o, ops)
      invariant forall op :: op in ops <==>
        op in manifests || (op.DropBlob? && op.d in o.blobs[..i] && op.d !in c.marker.marks)
    {
      assert o.blobs[..i + 1] == o.blobs[..i] + [o.blobs[i]];
      if o.blobs[i] !in c.marker.marks {
        assert forall k :: 0 <= k < |ops| ==> ops[k] in ops;
        OneMoreOp(o, ops, DropBlob(o.blobs[i]));
        ops := ops + [DropBlob(o.blobs[i])];
      }
    }
    assert o.blobs[..|o.blobs|] == o.blobs;
    ops := PlanLayers(o, c.deleteLayers, ops);
  }

  /** The dead layer links, after everything else. */
  method PlanLayers(o: Order, links: seq<(Name, Digest)>, first: seq<Op>) returns (ops: seq<Op>)
    requires Distinct(links) && Distinct(first) && InPasses(o, first) && forall op :: op in first ==> !op.DropLayer?
    ensures Distinct(ops) && InPasses(o, ops)
    ensures forall op :: op in ops <==> op in first || (op.DropLayer? && (op.r, op.d) in links)
  {
    ops := first;
    for i := 0 to |links|
      invariant Distinct(ops) && InPasses(o, ops)
      invariant forall op :: op in ops <==> op in first || (op.DropLayer? && (op.r, op.d) in links[..i])
    {
      var p := links[i];
      assert links[..i + 1] == links[..i] + [p];
      assert forall k :: 0 <= k < |ops| ==> ops[k] in ops;
      OneMoreOp(o, ops, DropLayer(p.0, p.1));
      ops := ops + [DropLayer(p.0, p.1)];
    }
    assert links[..|links|] == links;
  }
}
