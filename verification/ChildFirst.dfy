/** An untagged index listed after its untagged image: a run in which a collection that removes untagged manifests
    stops after the image and leaves the index without it. */
module ChildFirst {
  import opened Digests
  import opened Wrappers
  import opened Stores
  import opened Manifests
  import opened Mark
  import opened Collect
  import opened Sweep
  import opened Integrity
  import opened RegistryRuns
  import opened SharedImage

  /** The index, its image and the image's layer are linked, and nothing is tagged. */
  ghost predicate IsUntagged(st: Store) {
    && st.blobs == {LAYER, IMAGE, INDEX} && st.repos.Keys == {A}
    && st.repos[A] == Repo(Some({IMAGE, INDEX}), Some({LAYER}), Some(map[]))
  }

  lemma IndexIsAccepted(cfg: Config, st: Store)
    requires cfg.imagesExist && cfg.platforms == [] && IMAGE in Linked(st, A)
    ensures Accepted(Content, cfg, st, A, INDEX) && Demanded(Content, cfg, INDEX, NeedRevision(IMAGE))
  {
    Different();
    var m := Content(INDEX).value;
    assert m.refs[0] == Descriptor(IMAGE, ImageManifest, [], None);
    assert DemandOf(cfg, m.kind, m.refs[0]) == Some(NeedRevision(IMAGE));
    forall i | 0 <= i < |m.refs| ensures RefOk(cfg, m.kind, st, A, m.refs[i]) && !Crashes(cfg, m.kind, m.refs[i]) {
      assert i == 0;
    }
  }

  /** A run there: push the image, put the index, untag. */
  lemma UntaggedIsReachable(cfg: Config) returns (actions: seq<Action>, trace: seq<Store>)
    requires cfg.imagesExist && cfg.platforms == []
    ensures IsRun(Content, cfg, actions, trace) && IsUntagged(trace[|actions|])
  {
    var a1, t1 := PushRuns(cfg, [], [EMPTY_STORE], A);
    PushGives(EMPTY_STORE, A);
    var pushed := t1[|a1|];
    IndexIsAccepted(cfg, pushed);
    var indexed := LinkRevision(pushed, A, INDEX);
    OneMoreStep(cfg, a1, t1, PutManifest(A, INDEX), indexed);
    var a2, t2 := a1 + [PutManifest(A, INDEX)], t1 + [indexed];
    UntagGives(indexed);
    OneMoreStep(cfg, a2, t2, UntagManifest(A, T), Untag(indexed, A, T));
    actions, trace := a2 + [UntagManifest(A, T)], t2 + [Untag(indexed, A, T)];
    UntaggedIs();
  }

  lemma UntaggedIs()
    ensures IsUntagged(Untag(LinkRevision(Push(EMPTY_STORE, A), A, INDEX), A, T))
  {
    PushGives(EMPTY_STORE, A);
    UntagGives(LinkRevision(Push(EMPTY_STORE, A), A, INDEX));
    assert {IMAGE} + {INDEX} == {IMAGE, INDEX};
  }

  const LISTING := Order([A], map[A := [IMAGE, INDEX]], map[A := [LAYER]], map[A := []], [LAYER, IMAGE, INDEX])
  const NO_MARKS: seq<set<Digest>> := [{}, {}]
  const PLAN := [DropManifest(A, IMAGE, []), DropManifest(A, INDEX, []),
                 DropBlob(LAYER), DropBlob(IMAGE), DropBlob(INDEX), DropLayer(A, LAYER)]

  lemma UntaggedHolds(st: Store)
    requires IsUntagged(st)
    ensures Linked(st, A) == {IMAGE, INDEX} && LinkedLayers(st, A) == {LAYER} && TagsOf(st.Get(A)) == map[]
    ensures Enumerated(st) == {A} && st.Get(A).tags.Some?
    ensures forall d :: !IsCurrent(st, A, d)
  {
  }

  lemma ListingAndMarks(st: Store)
    requires IsUntagged(st)
    ensures Enumerates(st, LISTING) && Snapshots(Content, st, REMOVE, LISTING.repos, NO_MARKS)
  {
    UntaggedHolds(st);
    Different();
    assert ListsRepo(st, LISTING, A);
    assert Roots(st, REMOVE, A) == {};
    assert RepoMarked(Content, st, REMOVE, A, {}, {});
  }

  /** Everything is condemned. */
  lemma AllCondemned(st: Store, op: Op)
    requires IsUntagged(st)
    ensures op in PLAN <==> Condemned(st, REMOVE, LISTING, NO_MARKS, op)
  {
    UntaggedHolds(st);
    assert LISTING.repos[0] == A && NO_MARKS[0 + 1] == {};
    match op
    case DropManifest(r, d, tags) =>
      assert Candidate(st, REMOVE, A, d) <==> d == IMAGE || d == INDEX;
    case DropBlob(d) =>
    case DropLayer(r, d) =>
      assert r == A ==> (DeadLayer(st, LISTING.repos, NO_MARKS, A, d) <==> d == LAYER);
  }

  lemma PlanIs(st: Store)
    requires IsUntagged(st)
    ensures Planned(st, REMOVE, LISTING, NO_MARKS, PLAN)
  {
    Different();
    assert LISTING.revisions[A][0] == IMAGE && LISTING.revisions[A][1] == INDEX;
    assert Before(LISTING.revisions[A], IMAGE, INDEX);
    forall op ensures op in PLAN <==> Condemned(st, REMOVE, LISTING, NO_MARKS, op) {
      AllCondemned(st, op);
    }
  }

  /** Main result: for settings that check the images of an index, a run that ends with such a collection and is
      not integral. */
  lemma ChildFirstRunBreaks(cfg: Config) returns (actions: seq<Action>, trace: seq<Store>)
    requires cfg.imagesExist && cfg.platforms == []
    ensures IsRun(Content, cfg, actions, trace)
    ensures !Integral(Content, cfg, trace[|actions|])
  {
    var as0, t0 := UntaggedIsReachable(cfg);
    var st := t0[|as0|];
    UntaggedHolds(st);
    ListingAndMarks(st);
    PlanIs(st);
    IndexIsAccepted(cfg, st);
    assert LISTING.repos[0] == A;
    assert LISTING.revisions[A][0] == IMAGE && LISTING.revisions[A][1] == INDEX;
    assert Candidate(st, REMOVE, A, IMAGE) && Candidate(st, REMOVE, A, INDEX);
    var done := ChildFirstBreaks(Content, cfg, st, REMOVE, LISTING, NO_MARKS, PLAN, 0, IMAGE, INDEX);
    var collection, st' := Collection(REMOVE, LISTING, NO_MARKS, PLAN, done), Apply(st, PLAN[..done]);
    OneMoreStep(cfg, as0, t0, collection, st');
    actions, trace := as0 + [collection], t0 + [st'];
  }
}
