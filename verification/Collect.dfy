/** Mark-and-sweep collection: repository by repository with one shared mark set, a late filter on
    the manifests to delete, and a sweep that deletes one thing at a time. */
module Collect {
  import opened Digests
  import opened Wrappers
  import opened Stores
  import opened Manifests
  import opened Mark

  datatype Opts = Opts(dryRun: bool, removeUntagged: bool)

  /** The order in which storage lists things. */
  datatype Order = Order(repos: seq<Name>, revisions: map<Name, seq<Digest>>, layers: map<Name, seq<Digest>>,
                         tags: map<Name, seq<Tag>>, blobs: seq<Digest>)

  ghost predicate Lists<T(!new)>(s: seq<T>, xs: set<T>) {
    Distinct(s) && forall x :: x in s <==> x in xs
  }

  function Enumerated(st: Store): set<Name> {
    set r | r in st.repos && st.repos[r].HasManifestsDir()
  }

  ghost predicate ListsRepo(st: Store, o: Order, r: Name) {
    && r in o.revisions && Lists(o.revisions[r], Linked(st, r))
    && r in o.layers && Lists(o.layers[r], LinkedLayers(st, r))
    && r in o.tags && Lists(o.tags[r], TagsOf(st.Get(r)).Keys)
  }

  ghost predicate Enumerates(st: Store, o: Order) {
    && Lists(o.repos, Enumerated(st)) && Lists(o.blobs, st.blobs)
    && forall r :: r in o.repos ==> ListsRepo(st, o, r)
  }

  // ---------------------------------------------------------------------------------------------
  // What the mark phase decides

  ghost predicate IsCurrent(st: Store, r: Name, d: Digest) {
    exists t :: t in TagsOf(st.Get(r)) && TagsOf(st.Get(r))[t].current == Some(d)
  }

  ghost function Roots(st: Store, opts: Opts, r: Name): set<Digest> {
    set d | d in Linked(st, r) && (opts.removeUntagged ==> IsCurrent(st, r, d))
  }

  /** A manifest put aside for deletion while its repository is scanned. */
  ghost predicate Candidate(st: Store, opts: Opts, r: Name, d: Digest) {
    opts.removeUntagged && d in Linked(st, r) && !IsCurrent(st, r, d) && st.Get(r).tags.Some?
  }

  /** `x` is a root, or reached from one by a path outside `avoid`. */
  ghost predicate FromRoots(decode: Decode, linked: set<Digest>, roots: set<Digest>, avoid: set<Digest>, x: Digest) {
    exists d :: d in roots && Reaches(decode, linked, avoid, d, x)
  }

  /** What scanning repository `r` does to the marks. */
  ghost predicate RepoMarked(decode: Decode, st: Store, opts: Opts, r: Name, before: set<Digest>, after: set<Digest>) {
    var linked, roots := Linked(st, r), Roots(st, opts, r);
    && before + roots <= after
    && (forall x :: x in after && x !in before ==> FromRoots(decode, linked, roots, before, x))
    && (forall x :: x in roots ==> Refs(decode, x) <= after)
    && ClosedExcept(decode, linked, before, after)
  }

  /** `snaps[k]` is the mark set after the first `k` repositories. */
  ghost predicate Snapshots(decode: Decode, st: Store, opts: Opts, repos: seq<Name>, snaps: seq<set<Digest>>) {
    && |snaps| == |repos| + 1 && snaps[0] == {}
    && forall k :: 0 <= k < |repos| ==> RepoMarked(decode, st, opts, repos[k], snaps[k], snaps[k + 1])
  }

  datatype ManifestDel = ManifestDel(name: Name, digest: Digest, tags: seq<Tag>)

  ghost predicate IsCandidate(st: Store, opts: Opts, o: Order, repos: seq<Name>, c: ManifestDel) {
    c.name in repos && Candidate(st, opts, c.name, c.digest) && c.name in o.tags && c.tags == o.tags[c.name]
  }

  /** The layer links judged dead: unmarked when their repository was scanned. */
  ghost predicate DeadLayer(st: Store, repos: seq<Name>, snaps: seq<set<Digest>>, r: Name, x: Digest) {
    |snaps| == |repos| + 1 && x in LinkedLayers(st, r) &&
    exists k :: 0 <= k < |repos| && repos[k] == r && x !in snaps[k + 1]
  }

  /** A linked manifest that the scan of its repository comes to and that does not decode. */
  ghost predicate Blocks(decode: Decode, st: Store, opts: Opts, r: Name, before: set<Digest>, x: Digest) {
    x in Linked(st, r) && decode(x).None? && FromRoots(decode, Linked(st, r), Roots(st, opts, r), before, x)
  }

  /** A repository the mark phase cannot get through, given the marks it comes with. */
  ghost predicate Blocked(decode: Decode, st: Store, opts: Opts, r: Name, before: set<Digest>) {
    st.Get(r).layers.None? || exists x :: Blocks(decode, st, opts, r, before, x)
  }

  /** A repository it cannot get through when every manifest is a root. */
  ghost predicate Unscannable(decode: Decode, st: Store, r: Name) {
    st.Get(r).layers.None? || exists d :: d in Linked(st, r) && decode(d).None?
  }

  /** The roots of a scan in terms of links and tags: every manifest of the repository, or with removal of untagged
      ones those that are the current revision of some tag. */
  lemma RootsAre(st: Store, opts: Opts, r: Name, d: Digest)
    ensures d in Roots(st, opts, r) <==>
      && d in Or(st.Get(r).revisions) && d in st.blobs
      && (opts.removeUntagged ==>
            exists t :: t in TagsOf(st.Get(r)) && TagsOf(st.Get(r))[t].current == Some(d))
  {
  }

  // ---------------------------------------------------------------------------------------------
  // The marks are determined

  /** A scan adds exactly what the roots reach outside the old marks. */
  lemma RepoMarkedIsExact(decode: Decode, st: Store, opts: Opts, r: Name, before: set<Digest>, after: set<Digest>)
    requires RepoMarked(decode, st, opts, r, before, after)
    ensures forall x :: x in after <==> x in before || FromRoots(decode, Linked(st, r), Roots(st, opts, r), before, x)
  {
    var linked, roots := Linked(st, r), Roots(st, opts, r);
    forall x | FromRoots(decode, linked, roots, before, x) ensures x in after {
      var d :| d in roots && Reaches(decode, linked, before, d, x);
      ClosedKeepsReachable(decode, linked, before, after, d, x);
    }
  }

  lemma {:induction false} SnapshotsAgree(decode: Decode, st: Store, opts: Opts, repos: seq<Name>, k: nat,
                                          a: seq<set<Digest>>, b: seq<set<Digest>>)
    requires k < |a| && k < |b| && |a| <= |repos| + 1 && |b| <= |repos| + 1
    requires Snapshots(decode, st, opts, repos[..|a| - 1], a) && Snapshots(decode, st, opts, repos[..|b| - 1], b)
    ensures a[k] == b[k]
  {
    if k == 0 {
    } else {
      SnapshotsAgree(decode, st, opts, repos, k - 1, a, b);
      assert repos[..|a| - 1][k - 1] == repos[k - 1] == repos[..|b| - 1][k - 1];
      RepoMarkedIsExact(decode, st, opts, repos[k - 1], a[k - 1], a[k]);
      RepoMarkedIsExact(decode, st, opts, repos[k - 1], b[k - 1], b[k]);
    }
  }

  /** The mark phase comes to a repository it cannot get through. */
  ghost predicate MarkFails(decode: Decode, st: Store, opts: Opts, o: Order) {
    exists k, s ::
      0 <= k < |o.repos| && Snapshots(decode, st, opts, o.repos[..k], s) && Blocked(decode, st, opts, o.repos[k], s[k])
  }

  lemma PassedIsNoFailure(decode: Decode, st: Store, opts: Opts, o: Order, snaps: seq<set<Digest>>)
    requires Snapshots(decode, st, opts, o.repos, snaps)
    requires forall k :: 0 <= k < |o.repos| ==> !Blocked(decode, st, opts, o.repos[k], snaps[k])
    ensures !MarkFails(decode, st, opts, o)
  {
    assert o.repos[..|snaps| - 1] == o.repos;
    forall k, s | 0 <= k < |o.repos| && Snapshots(decode, st, opts, o.repos[..k], s)
      ensures !Blocked(decode, st, opts, o.repos[k], s[k])
    {
      assert o.repos[..|s| - 1] == o.repos[..k];
      SnapshotsAgree(decode, st, opts, o.repos, k, snaps, s);
    }
  }

  /** When every manifest is a root, the marks have no say in it. */
  lemma BlockedIsUnscannable(decode: Decode, st: Store, opts: Opts, r: Name, before: set<Digest>)
    ensures Blocked(decode, st, opts, r, before) ==> Unscannable(decode, st, r)
    ensures !opts.removeUntagged && Unscannable(decode, st, r) ==> Blocked(decode, st, opts, r, before)
  {
    if !opts.removeUntagged {
      forall d | d in Linked(st, r) && decode(d).None? ensures Blocks(decode, st, opts, r, before, d) {
        ReachesSelf(decode, Linked(st, r), before, d);
      }
    }
  }

  // ---------------------------------------------------------------------------------------------
  // The scan of a repository, manifest by manifest

  /** The marks after the manifests in `done` were scanned without a failure. */
  ghost predicate ScannedTo(decode: Decode, st: Store, opts: Opts, r: Name, before: set<Digest>,
          done: seq<Digest>, now: set<Digest>)
  {
    var linked, roots := Linked(st, r), Roots(st, opts, r);
    && before <= now
    && (forall d :: d in done && d in roots ==> d in now && Refs(decode, d) <= now && decode(d).Some?)
    && (forall x :: x in now && x !in before ==> FromRoots(decode, linked, roots, before, x))
    && (forall x :: x in now && x !in before && x in linked ==> decode(x).Some?)
    && ClosedExcept(decode, linked, before, now)
  }

  lemma ScanOne(decode: Decode, st: Store, opts: Opts, r: Name, before: set<Digest>, done: seq<Digest>,
                now: set<Digest>, d: Digest, next: set<Digest>)
    requires ScannedTo(decode, st, opts, r, before, done, now) && d in Roots(st, opts, r) && decode(d).Some?
    requires Marked(decode, Linked(st, r), d, now + {d}, next)
    requires forall x :: x in next && x !in now + {d} && x in Linked(st, r) ==> decode(x).Some?
    ensures ScannedTo(decode, st, opts, r, before, done + [d], next)
  {
    var linked := Linked(st, r);
    forall x | x in next && x !in now ensures FromRoots(decode, linked, Roots(st, opts, r), before, x) {
      if x == d {
        ReachesSelf(decode, linked, before, d);
      } else {
        ReachesMore(decode, linked, before, now + {d}, d, x);
      }
    }
  }

  /** A scan of all manifests marks what it should, and met no manifest that does not decode. */
  lemma ScanDone(decode: Decode, st: Store, opts: Opts, r: Name, before: set<Digest>, done: seq<Digest>,
          now: set<Digest>)
    requires ScannedTo(decode, st, opts, r, before, done, now) && forall d :: d in done <==> d in Linked(st, r)
    ensures RepoMarked(decode, st, opts, r, before, now)
    ensures forall x :: !Blocks(decode, st, opts, r, before, x)
  {
    var linked, roots := Linked(st, r), Roots(st, opts, r);
    RepoMarkedIsExact(decode, st, opts, r, before, now);
    forall x | x in linked && FromRoots(decode, linked, roots, before, x) ensures decode(x).Some? {
      var d :| d in roots && Reaches(decode, linked, before, d, x);
      var p :| IsChain(decode, linked, before, p) && p[0] == d && p[|p| - 1] == x;
      if |p| == 1 { assert x in done; }
    }
  }

  /** Two manifests in the order of a listing. */
  ghost predicate Before(s: seq<Digest>, a: Digest, b: Digest) {
    exists p, q :: 0 <= p < q < |s| && s[p] == a && s[q] == b
  }

  /** Candidates of one repository come in the order of its listing. */
  ghost predicate InOrder(o: Order, cs: seq<ManifestDel>) {
    forall i, j :: 0 <= i < j < |cs| && cs[i].name == cs[j].name && cs[i].name in o.revisions ==>
      Before(o.revisions[cs[i].name], cs[i].digest, cs[j].digest)
  }

  class Collector {
    const decode: Decode
    const st: Store
    const opts: Opts
    const marker: Marker
    var candidates: seq<ManifestDel>
    var deleteLayers: seq<(Name, Digest)>

    constructor (decode: Decode, st: Store, opts: Opts)
      ensures this.decode == decode && this.st == st && this.opts == opts
      ensures fresh(marker) && marker.decode == decode && marker.st == st && marker.marks == {}
      ensures candidates == [] && deleteLayers == []
    {
      this.decode, this.st, this.opts := decode, st, opts;
      marker := new Marker(decode, st);
      candidates, deleteLayers := [], [];
    }

    ghost predicate Valid()
      reads this, marker
    {
      marker.decode == decode && marker.st == st
    }

    /** The tags whose current link is `d`. */
    method Lookup(r: Name, d: Digest, allTags: seq<Tag>) returns (tags: seq<Tag>)
      requires forall t :: t in allTags <==> t in TagsOf(st.Get(r))
      ensures forall t :: t in tags <==> t in TagsOf(st.Get(r)) && TagsOf(st.Get(r))[t].current == Some(d)
    {
      tags := [];
      var all := TagsOf(st.Get(r));
      for i := 0 to |allTags|
        invariant forall t :: t in tags <==> t in allTags[..i] && all[t].current == Some(d)
      {
        if all[allTags[i]].current == Some(d) {
          tags := tags + [allTags[i]];
        }
        assert allTags[..i + 1] == allTags[..i] + [allTags[i]];
      }
      assert allTags[..|allTags|] == allTags;
    }

    /** One manifest of the enumeration: put aside, passed over, or marked with all it reaches. */
    method ScanManifest(r: Name, d: Digest, o: Order) returns (ok: bool)
      requires Valid() && ListsRepo(st, o, r) && d in Linked(st, r)
      modifies this`candidates, marker`marks
      ensures Valid() && old(marker.marks) <= marker.marks
      ensures candidates == old(candidates) + if Candidate(st, opts, r, d) then [ManifestDel(r, d, o.tags[r])] else []
      ensures d !in Roots(st, opts, r) ==> ok && marker.marks == old(marker.marks)
      ensures ok && d in Roots(st, opts, r) ==>
        && d in marker.marks && decode(d).Some?
        && Marked(decode, Linked(st, r), d, old(marker.marks) + {d}, marker.marks)
        && forall x :: x in marker.marks && x !in old(marker.marks) + {d} && x in Linked(st, r) ==> decode(x).Some?
      ensures !ok ==> d in Roots(st, opts, r)
      ensures !ok ==> exists x ::
        x in Linked(st, r) && decode(x).None? && Reaches(decode, Linked(st, r), old(marker.marks) + {d}, d, x)
    {
      if opts.removeUntagged {
        var tags := Lookup(r, d, o.tags[r]);
        if |tags| == 0 {
          assert !IsCurrent(st, r, d) by {
            assert forall t :: t in TagsOf(st.Get(r)) && TagsOf(st.Get(r))[t].current == Some(d) ==> t in tags;
          }
          if st.Get(r).tags.Some? {
            candidates := candidates + [ManifestDel(r, d, o.tags[r])];
          }
          return true;
        }
        assert tags[0] in tags;
      }
      var _ := marker.Ingest(d);
      ok := marker.MarkManifestReferences(r, d);
      if !ok { ReachesSelf(decode, Linked(st, r), old(marker.marks) + {d}, d); }
    }

    method ScanManifests(r: Name, o: Order) returns (ok: bool)
      requires Valid() && ListsRepo(st, o, r)
      requires Distinct(candidates) && InOrder(o, candidates) && forall c :: c in candidates ==> c.name != r
      modifies this`candidates, marker`marks
      ensures Valid() && Distinct(candidates) && InOrder(o, candidates)
      ensures ok ==> RepoMarked(decode, st, opts, r, old(marker.marks), marker.marks)
      ensures ok ==> forall c :: c in candidates <==> c in old(candidates) || IsCandidate(st, opts, o, [r], c)
      ensures ok <==> forall x :: !Blocks(decode, st, opts, r, old(marker.marks), x)
    {
      var revs := o.revisions[r];
      ghost var before := marker.marks;
      for i := 0 to |revs|
        invariant Valid() && ScannedTo(decode, st, opts, r, before, revs[..i], marker.marks)
        invariant Distinct(candidates) && InOrder(o, candidates)
        invariant forall c :: c in candidates <==>
          c in old(candidates) || (c.digest in revs[..i] && IsCandidate(st, opts, o, [r], c))
      {
        ghost var now, d, so := marker.marks, revs[i], candidates;
        assert revs[..i + 1] == revs[..i] + [d];
        var scanned := ScanManifest(r, revs[i], o);
        Appended(st, opts, o, r, i, so, candidates);
        if !scanned {
          ghost var x :| x in Linked(st, r) && decode(x).None? && Reaches(decode, Linked(st, r), now + {d}, d, x);
          ReachesMore(decode, Linked(st, r), before, now + {d}, d, x);
          assert Blocks(decode, st, opts, r, before, x);
          return false;
        }
        if d in Roots(st, opts, r) { ScanOne(decode, st, opts, r, before, revs[..i], now, d, marker.marks); }
      }
      assert revs[..|revs|] == revs;
      ScanDone(decode, st, opts, r, before, revs, marker.marks);
      ok := true;
    }

    method ScanLayers(r: Name, o: Order) returns (ok: bool)
      requires Valid() && ListsRepo(st, o, r)
      requires Distinct(deleteLayers) && forall p :: p in deleteLayers ==> p.0 != r
      modifies this`deleteLayers
      ensures ok <==> st.Get(r).layers.Some?
      ensures Distinct(deleteLayers)
      ensures ok ==> forall p :: p in deleteLayers <==>
        p in old(deleteLayers) || (p.0 == r && p.1 in LinkedLayers(st, r) && p.1 !in marker.marks)
    {
      if st.Get(r).layers.None? {
        return false;
      }
      var layers := o.layers[r];
      for i := 0 to |layers|
        invariant Distinct(deleteLayers)
        invariant forall p :: p in deleteLayers <==>
          p in old(deleteLayers) || (p.0 == r && p.1 in layers[..i] && p.1 !in marker.marks)
      {
        assert layers[..i + 1] == layers[..i] + [layers[i]];
        if layers[i] !in marker.marks {
          deleteLayers := deleteLayers + [(r, layers[i])];
        }
      }
      assert layers[..|layers|] == layers;
      ok := true;
    }

    /** One repository: its manifests, then its layer links. */
    method ScanRepository(r: Name, o: Order) returns (ok: bool)
      requires Valid() && ListsRepo(st, o, r)
      requires Distinct(candidates) && InOrder(o, candidates) && forall c :: c in candidates ==> c.name != r
      requires Distinct(deleteLayers) && forall p :: p in deleteLayers ==> p.0 != r
      modifies this`candidates, this`deleteLayers, marker`marks
      ensures Valid() && Distinct(candidates) && InOrder(o, candidates) && Distinct(deleteLayers)
      ensures ok <==> !Blocked(decode, st, opts, r, old(marker.marks))
      ensures ok ==> RepoMarked(decode, st, opts, r, old(marker.marks), marker.marks)
      ensures ok ==> forall c :: c in candidates <==> c in old(candidates) || IsCandidate(st, opts, o, [r], c)
      ensures ok ==> forall p :: p in deleteLayers <==>
        p in old(deleteLayers) || (p.0 == r && p.1 in LinkedLayers(st, r) && p.1 !in marker.marks)
    {
      ok := ScanManifests(r, o);
      if !ok {
        return;
      }
      ok := ScanLayers(r, o);
    }

    /** The mark phase. It fails exactly at the first repository it cannot get through. */
    method MarkAll(o: Order) returns (ok: bool, ghost snaps: seq<set<Digest>>)
      requires Valid() && Enumerates(st, o)
      requires marker.marks == {} && candidates == [] && deleteLayers == []
      modifies this`candidates, this`deleteLayers, marker`marks
      ensures Valid()
      ensures 0 < |snaps| <= |o.repos| + 1 && Snapshots(decode, st, opts, o.repos[..|snaps| - 1], snaps)
      ensures forall k :: 0 <= k < |snaps| - 1 ==> !Blocked(decode, st, opts, o.repos[k], snaps[k])
      ensures ok ==> |snaps| == |o.repos| + 1 && Snapshots(decode, st, opts, o.repos, snaps)
      ensures ok ==> marker.marks == snaps[|o.repos|]
      ensures !ok ==> |snaps| <= |o.repos| && Blocked(decode, st, opts, o.repos[|snaps| - 1], snaps[|snaps| - 1])
      ensures ok ==> Distinct(candidates) && InOrder(o, candidates)
      ensures ok ==> forall c :: c in candidates <==> IsCandidate(st, opts, o, o.repos, c)
      ensures ok ==> Distinct(deleteLayers)
      ensures ok ==> forall p :: p in deleteLayers <==> DeadLayer(st, o.repos, snaps, p.0, p.1)
    {
      snaps := [{}];
      for i := 0 to |o.repos|
        invariant Progress(o, i, snaps)
      {
        var scanned;
        scanned, snaps := ScanNext(o, i, snaps);
        if !scanned {
          return false, snaps;
        }
      }
      assert o.repos[..|o.repos|] == o.repos;
      ok := true;
    }

    /** Where the mark phase stands after `i` repositories. */
    ghost predicate Progress(o: Order, i: nat, snaps: seq<set<Digest>>)
      reads this, marker
    {
      && Valid() && i <= |o.repos| && |snaps| == i + 1
      && Snapshots(decode, st, opts, o.repos[..i], snaps) && marker.marks == snaps[i]
      && (forall k :: 0 <= k < i ==> !Blocked(decode, st, opts, o.repos[k], snaps[k]))
      && Distinct(candidates) && InOrder(o, candidates)
      && (forall c :: c in candidates <==> IsCandidate(st, opts, o, o.repos[..i], c))
      && Distinct(deleteLayers) && forall p :: p in deleteLayers <==> DeadLayer(st, o.repos[..i], snaps, p.0, p.1)
    }

    method ScanNext(o: Order, i: nat, ghost snaps: seq<set<Digest>>) returns (ok: bool, ghost grown: seq<set<Digest>>)
      requires i < |o.repos| && Enumerates(st, o) && Progress(o, i, snaps)
      modifies this`candidates, this`deleteLayers, marker`marks
      ensures Valid() && (ok <==> !Blocked(decode, st, opts, o.repos[i], snaps[i]))
      ensures if ok then Progress(o, i + 1, grown) else grown == snaps
    {
      var r := o.repos[i];
      assert r in o.repos && r in Enumerated(st);
      NotListedBefore(o.repos, i);
      grown := snaps;
      ok := ScanRepository(r, o);
      if ok {
        grown := snaps + [marker.marks];
        DeadLayersGrow(st, o.repos, i, snaps, grown);
        SnapshotsExtend(decode, st, opts, o.repos, i, snaps, marker.marks);
      }
    }
  }

  lemma NotListedBefore(repos: seq<Name>, i: nat)
    requires i < |repos| && Distinct(repos)
    ensures repos[..i + 1] == repos[..i] + [repos[i]] && repos[i] !in repos[..i]
  {
  }

  lemma SnapshotsExtend(decode: Decode, st: Store, opts: Opts, repos: seq<Name>, i: nat, snaps: seq<set<Digest>>,
          next: set<Digest>)
    requires i < |repos| && Snapshots(decode, st, opts, repos[..i], snaps)
    requires RepoMarked(decode, st, opts, repos[i], snaps[i], next)
    ensures Snapshots(decode, st, opts, repos[..i + 1], snaps + [next])
  {
  }

  /** What the scan of one more manifest adds to the candidates. */
  lemma Appended(st: Store, opts: Opts, o: Order, r: Name, i: nat, so: seq<ManifestDel>, now: seq<ManifestDel>)
    requires ListsRepo(st, o, r) && i < |o.revisions[r]| && Distinct(so) && InOrder(o, so)
    requires forall c :: c in so && c.name == r ==> c.digest in o.revisions[r][..i]
    requires now == so +
      if Candidate(st, opts, r, o.revisions[r][i]) then [ManifestDel(r, o.revisions[r][i], o.tags[r])] else []
    ensures Distinct(now) && InOrder(o, now)
    ensures forall c :: c in now <==> c in so || (c.digest == o.revisions[r][i] && IsCandidate(st, opts, o, [r], c))
  {
    var revs := o.revisions[r];
    var c := ManifestDel(r, revs[i], o.tags[r]);
    if Candidate(st, opts, r, revs[i]) {
      assert forall e :: e in now <==> e in so || e == c;
      forall k | 0 <= k < |so| && so[k].name == r ensures Before(revs, so[k].digest, revs[i]) && so[k] != c {
        assert so[k] in so;
        var p :| 0 <= p < i && revs[p] == so[k].digest;
      }
    }
  }

  lemma DeadLayersGrow(st: Store, repos: seq<Name>, i: nat, snaps: seq<set<Digest>>, grown: seq<set<Digest>>)
    requires i < |repos| && Distinct(repos) && |snaps| == i + 1 && |grown| == i + 2 && grown[..i + 1] == snaps
    ensures forall r, x :: DeadLayer(st, repos[..i + 1], grown, r, x) <==>
      DeadLayer(st, repos[..i], snaps, r, x) || (r == repos[i] && x in LinkedLayers(st, r) && x !in grown[i + 1])
    ensures forall r, x :: DeadLayer(st, repos[..i], snaps, r, x) ==> r != repos[i]
  {
    forall r, x | DeadLayer(st, repos[..i], snaps, r, x) ensures DeadLayer(st, repos[..i + 1], grown, r, x) {
      var k :| 0 <= k < i && repos[..i][k] == r && x !in snaps[k + 1];
      assert repos[..i + 1][k] == r && grown[k + 1] == snaps[k + 1];
    }
    forall r, x | DeadLayer(st, repos[..i + 1], grown, r, x) && !(r == repos[i] && x !in grown[i + 1])
      ensures DeadLayer(st, repos[..i], snaps, r, x)
    {
      var k :| 0 <= k < i + 1 && repos[..i + 1][k] == r && x !in grown[k + 1];
      assert repos[..i][k] == r && grown[k + 1] == snaps[k + 1];
    }
    forall r, x | r == repos[i] && x in LinkedLayers(st, r) && x !in grown[i + 1]
      ensures DeadLayer(st, repos[..i + 1], grown, r, x)
    {
      assert repos[..i + 1][i] == r;
    }
  }
}
