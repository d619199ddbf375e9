/** The same image in two repositories, tagged only in the second: a run in which a collection that removes untagged
    manifests takes the image's layer link from the first repository and leaves the image there. */
module SharedImage {
  import opened Digests
  import opened Wrappers
  import opened Stores
  import opened Manifests
  import opened Mark
  import opened Collect
  import opened Sweep
  import opened Collections
  import opened Integrity
  import opened RegistryRuns

  const A: Name := "a"
  const B: Name := "b"
  const T: Tag := "t"
  const LAYER := Digest(Sha256, Hex('0'))
  const IMAGE := Digest(Sha256, Hex('1'))
  const INDEX := Digest(Sha256, Hex('2'))
  const REMOVE := Opts(false, true)

  function Hex(c: char): (s: string)
    ensures |s| == 64 && forall i :: 0 <= i < 64 ==> s[i] == c
  {
    seq(64, _ => c)
  }

  function Content(d: Digest): Option<Manifest> {
    if d == IMAGE then Some(Manifest(Schema2, 2, [Descriptor(LAYER, Layer, [], None)]))
    else if d == INDEX then Some(Manifest(Index, 2, [Descriptor(IMAGE, ImageManifest, [], None)]))
    else None
  }

  lemma Different()
    ensures LAYER != IMAGE && LAYER != INDEX && IMAGE != INDEX && A != B && ValidDigest(LAYER)
    ensures Refs(Content, IMAGE) == {LAYER}
  {
    assert LAYER.encoded[0] == '0' && IMAGE.encoded[0] == '1' && INDEX.encoded[0] == '2';
    assert Content(IMAGE).value.refs == [Descriptor(LAYER, Layer, [], None)];
    assert A[0] != B[0];
  }

  // ---------------------------------------------------------------------------------------------
  // The run up to the collection

  function Push(st: Store, r: Name): Store {
    SetTag(LinkRevision(CommitLayer(st, r, LAYER), r, IMAGE), r, T, IMAGE, true)
  }

  lemma OneMoreStep(cfg: Config, actions: seq<Action>, trace: seq<Store>, a: Action, st: Store)
    requires IsRun(Content, cfg, actions, trace) && Step(Content, cfg, trace[|actions|], a, st)
    ensures IsRun(Content, cfg, actions + [a], trace + [st])
  {
  }

  /** The layer, the image that names it, and the tag. */
  lemma PushRuns(cfg: Config, actions: seq<Action>, trace: seq<Store>, r: Name)
    returns (actions': seq<Action>, trace': seq<Store>)
    requires IsRun(Content, cfg, actions, trace)
    ensures IsRun(Content, cfg, actions', trace') && trace'[|actions'|] == Push(trace[|actions|], r)
  {
    var s0 := trace[|actions|];
    var s1 := CommitLayer(s0, r, LAYER);
    var s2 := LinkRevision(s1, r, IMAGE);
    ImageIsAccepted(cfg, s0, r);
    OneMoreStep(cfg, actions, trace, PutLayer(r, LAYER), s1);
    var a1, t1 := actions + [PutLayer(r, LAYER)], trace + [s1];
    OneMoreStep(cfg, a1, t1, PutManifest(r, IMAGE), s2);
    var a2, t2 := a1 + [PutManifest(r, IMAGE)], t1 + [s2];
    OneMoreStep(cfg, a2, t2, TagManifest(r, T, IMAGE, true), Push(s0, r));
    actions', trace' := a2 + [TagManifest(r, T, IMAGE, true)], t2 + [Push(s0, r)];
  }

  lemma ImageIsAccepted(cfg: Config, st: Store, r: Name)
    ensures Accepted(Content, cfg, CommitLayer(st, r, LAYER), r, IMAGE)
  {
    Different();
    var s1, m := CommitLayer(st, r, LAYER), Content(IMAGE).value;
    assert LAYER in LinkedLayers(s1, r);
    forall i | 0 <= i < |m.refs| ensures RefOk(cfg, m.kind, s1, r, m.refs[i]) {
      assert m.refs[i] == Descriptor(LAYER, Layer, [], None);
    }
  }

  /** What a push does to a repository that is not there yet. */
  lemma PushGives(st: Store, r: Name)
    requires r !in st.repos
    ensures
      var st' := Push(st, r);
      && st'.blobs == st.blobs + {LAYER, IMAGE} && st'.repos.Keys == st.repos.Keys + {r}
      && st'.repos[r] == Repo(Some({IMAGE}), Some({LAYER}), Some(map[T := TagDir(Some(IMAGE), {IMAGE})]))
      && forall q :: q in st.repos ==> st'.repos[q] == st.repos[q]
  {
    var none: set<Digest> := {};
    assert none + {LAYER} == {LAYER} && none + {IMAGE} == {IMAGE};
    var s1 := CommitLayer(st, r, LAYER);
    assert s1.Get(r) == Repo(None, Some({LAYER}), None);
    var s2 := LinkRevision(s1, r, IMAGE);
    assert s2.Get(r) == Repo(Some({IMAGE}), Some({LAYER}), None);
    var s3 := IndexTag(s2, r, T, IMAGE);
    var dir := TagDir(None, {IMAGE});
    assert s3.Get(r) == Repo(Some({IMAGE}), Some({LAYER}), Some(map[T := dir]));
    assert map[T := dir][T := dir.(current := Some(IMAGE))] == map[T := TagDir(Some(IMAGE), {IMAGE})];
  }

  lemma UntagGives(st: Store)
    requires A in st.repos && st.repos[A].tags == Some(map[T := TagDir(Some(IMAGE), {IMAGE})])
    ensures Untag(st, A, T) == st.(repos := st.repos[A := st.repos[A].(tags := Some(map[]))])
  {
    assert TagsOf(st.repos[A]) - {T} == map[];
  }

  /** The image is linked in both repositories, and tagged only in the second. */
  ghost predicate IsShared(st: Store) {
    && st.blobs == {LAYER, IMAGE} && st.repos.Keys == {A, B}
    && st.repos[A] == Repo(Some({IMAGE}), Some({LAYER}), Some(map[]))
    && st.repos[B] == Repo(Some({IMAGE}), Some({LAYER}), Some(map[T := TagDir(Some(IMAGE), {IMAGE})]))
  }

  /** A run there: push, untag, push. */
  lemma SharedIsReachable(cfg: Config) returns (actions: seq<Action>, trace: seq<Store>)
    ensures IsRun(Content, cfg, actions, trace) && IsShared(trace[|actions|])
  {
    var a1, t1 := PushRuns(cfg, [], [EMPTY_STORE], A);
    var untagged := Untag(t1[|a1|], A, T);
    OneMoreStep(cfg, a1, t1, UntagManifest(A, T), untagged);
    actions, trace := PushRuns(cfg, a1 + [UntagManifest(A, T)], t1 + [untagged], B);
    SharedIs();
  }

  lemma SharedIs()
    ensures IsShared(Push(Untag(Push(EMPTY_STORE, A), A, T), B))
  {
    Different();
    PushGives(EMPTY_STORE, A);
    UntagGives(Push(EMPTY_STORE, A));
    PushGives(Untag(Push(EMPTY_STORE, A), A, T), B);
  }

  // ---------------------------------------------------------------------------------------------
  // The collection

  const ORDER := Order([A, B], map[A := [IMAGE], B := [IMAGE]], map[A := [LAYER], B := [LAYER]],
                       map[A := [], B := [T]], [LAYER, IMAGE])
  const SNAPS: seq<set<Digest>> := [{}, {}, {IMAGE, LAYER}]

  lemma SharedHolds(st: Store)
    requires IsShared(st)
    ensures Linked(st, A) == {IMAGE} == Linked(st, B) && LinkedLayers(st, A) == {LAYER} == LinkedLayers(st, B)
    ensures TagsOf(st.Get(A)) == map[] && TagsOf(st.Get(B)) == map[T := TagDir(Some(IMAGE), {IMAGE})]
    ensures Enumerated(st) == {A, B} && st.Get(A).tags.Some?
  {
    Different();
  }

  lemma Listing(st: Store)
    requires IsShared(st)
    ensures Enumerates(st, ORDER)
  {
    SharedHolds(st);
    Different();
    assert ListsRepo(st, ORDER, A);
    assert ListsRepo(st, ORDER, B);
  }

  /** Nothing is tagged in the first repository. */
  lemma MarksA(st: Store)
    requires IsShared(st)
    ensures RepoMarked(Content, st, REMOVE, A, {}, {})
  {
    SharedHolds(st);
    assert Roots(st, REMOVE, A) == {};
  }

  /** In the second the image is, and it reaches its layer. */
  lemma MarksB(st: Store)
    requires IsShared(st)
    ensures RepoMarked(Content, st, REMOVE, B, {}, {IMAGE, LAYER})
  {
    SharedHolds(st);
    Different();
    var linked := Linked(st, B);
    assert T in TagsOf(st.Get(B)) && TagsOf(st.Get(B))[T].current == Some(IMAGE);
    assert IsCurrent(st, B, IMAGE);
    assert Roots(st, REMOVE, B) == {IMAGE};
    ReachesSelf(Content, linked, {}, IMAGE);
    ReachesSelf(Content, linked, {}, LAYER);
    ReachesThrough(Content, linked, {}, {}, IMAGE, LAYER, LAYER);
  }

  lemma Sweeps(st: Store)
    requires IsShared(st)
    ensures Planned(st, REMOVE, ORDER, SNAPS, [DropLayer(A, LAYER)])
  {
    SharedHolds(st);
    Different();
    assert ORDER.repos[0] == A && ORDER.repos[1] == B;
    assert DeadLayer(st, ORDER.repos, SNAPS, A, LAYER) by { assert LAYER !in SNAPS[0 + 1]; }
    forall op ensures Condemned(st, REMOVE, ORDER, SNAPS, op) <==> op == DropLayer(A, LAYER) {
      assert op.DropManifest? && op.r in ORDER.repos && op.d in Linked(st, op.r) ==> op.d in SNAPS[2];
    }
  }

  lemma {:induction false} LosesLayer(cfg: Config, st: Store)
    requires IsShared(st)
    ensures
      var st' := Apply(st, [DropLayer(A, LAYER)]);
      !Integral(Content, cfg, st') && IMAGE in Linked(st', A) && LAYER !in LinkedLayers(st', A)
  {
    Different();
    var op := DropLayer(A, LAYER);
    var st' := Apply(st, [op]);
    ApplyLast(st, [], op);
    assert [] + [op] == [op] && Apply(st, []) == st;
    assert st' == RemoveLayer(st, A, LAYER);
    assert !RefOk(cfg, Schema2, st', A, Content(IMAGE).value.refs[0]);
    assert !Kept(Content, cfg, st', A, IMAGE);
  }

  /** Main result: an ordinary run, for any settings, that ends with such a collection, and after which the image
      is linked in the first repository and its layer is not. */
  lemma SharedImageBreaks(cfg: Config) returns (actions: seq<Action>, trace: seq<Store>)
    ensures IsRun(Content, cfg, actions, trace)
    ensures !Integral(Content, cfg, trace[|actions|])
    ensures IMAGE in Linked(trace[|actions|], A) && LAYER !in LinkedLayers(trace[|actions|], A)
  {
    var as0, t0 := SharedIsReachable(cfg);
    var st, ops := t0[|as0|], [DropLayer(A, LAYER)];
    Listing(st);
    MarksA(st);
    MarksB(st);
    Sweeps(st);
    LosesLayer(cfg, st);
    var collection := Collection(REMOVE, ORDER, SNAPS, ops, 1);
    assert ops[..1] == ops;
    OneMoreStep(cfg, as0, t0, collection, Apply(st, ops));
    actions, trace := as0 + [collection], t0 + [Apply(st, ops)];
  }
}
