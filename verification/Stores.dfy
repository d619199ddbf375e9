/** The registry's storage seen from the repositories: which blobs are present, and per repository
    the revision links, layer links and tags. A directory that does not exist is `None`.

    What a blob contains is a function of its digest, passed as `decode`: the manifest a blob
    parses to, if it parses to one. */
module Stores {
  import opened Digests
  import opened Wrappers

  type Name = string
  type Tag = string

  /** A tag directory: the link to the current revision and the index of past ones. */
  datatype TagDir = TagDir(current: Option<Digest>, index: set<Digest>)

  datatype Repo = Repo(revisions: Option<set<Digest>>, layers: Option<set<Digest>>, tags: Option<map<Tag, TagDir>>) {
    /** Repositories are enumerated by their manifests directory. */
    predicate HasManifestsDir() {
      revisions.Some? || tags.Some?
    }
  }

  const NO_REPO := Repo(None, None, None)

  datatype Store = Store(blobs: set<Digest>, repos: map<Name, Repo>) {
    function Get(r: Name): Repo {
      if r in repos then repos[r] else NO_REPO
    }
  }

  function Or<T>(s: Option<set<T>>): set<T> {
    if s.Some? then s.value else {}
  }

  /** The manifests a repository's manifest service knows: linked, with the blob present. */
  function Linked(st: Store, r: Name): set<Digest> {
    Or(st.Get(r).revisions) * st.blobs
  }

  /** The layers a repository's blob service knows. */
  function LinkedLayers(st: Store, r: Name): set<Digest> {
    Or(st.Get(r).layers) * st.blobs
  }

  function TagsOf(repo: Repo): map<Tag, TagDir> {
    if repo.tags.Some? then repo.tags.value else map[]
  }

  function SetRepo(st: Store, r: Name, repo: Repo): Store {
    st.(repos := st.repos[r := repo])
  }

  // ---------------------------------------------------------------------------------------------
  // Operations that add

  function LinkRevision(st: Store, r: Name, d: Digest): Store {
    var repo := st.Get(r);
    SetRepo(st, r, repo.(revisions := Some(Or(repo.revisions) + {d}))).(blobs := st.blobs + {d})
  }

  function CommitLayer(st: Store, r: Name, d: Digest): Store {
    var repo := st.Get(r);
    SetRepo(st, r, repo.(layers := Some(Or(repo.layers) + {d}))).(blobs := st.blobs + {d})
  }

  /** Links a layer that the source repository has. Without one, nothing is linked. */
  function Mount(st: Store, from: Name, to: Name, d: Digest): Store {
    if d !in LinkedLayers(st, from) then st
    else
      var repo := st.Get(to);
      SetRepo(st, to, repo.(layers := Some(Or(repo.layers) + {d})))
  }

  /** Adds `d` to the tag's index. */
  function IndexTag(st: Store, r: Name, t: Tag, d: Digest): Store {
    var repo := st.Get(r);
    var tags := TagsOf(repo);
    var dir := if t in tags then tags[t] else TagDir(None, {});
    SetRepo(st, r, repo.(tags := Some(tags[t := dir.(index := dir.index + {d})])))
  }

  /** Tagging: the index comes first, then the tag is pointed at `d`, unless storage fails in between. */
  function SetTag(st: Store, r: Name, t: Tag, d: Digest, whole: bool): Store {
    var indexed := IndexTag(st, r, t, d);
    if !whole then indexed
    else
      var tags := TagsOf(indexed.Get(r));
      SetRepo(indexed, r, indexed.Get(r).(tags := Some(tags[t := tags[t].(current := Some(d))])))
  }

  // ---------------------------------------------------------------------------------------------
  // Operations that remove

  function Untag(st: Store, r: Name, t: Tag): Store {
    var repo := st.Get(r);
    if t !in TagsOf(repo) then st
    else SetRepo(st, r, repo.(tags := Some(TagsOf(repo) - {t})))
  }

  function Unindex(tags: map<Tag, TagDir>, d: Digest, from: set<Tag>): map<Tag, TagDir> {
    map t | t in tags :: if t in from then tags[t].(index := tags[t].index - {d}) else tags[t]
  }

  /** Removes the revision link of `d` and its index entries under the given tags. */
  function RemoveManifest(st: Store, r: Name, d: Digest, from: set<Tag>): Store {
    var repo := st.Get(r);
    var tags := if repo.tags.Some? then Some(Unindex(repo.tags.value, d, from)) else None;
    var revisions := if repo.revisions.Some? then Some(repo.revisions.value - {d}) else None;
    SetRepo(st, r, repo.(tags := tags, revisions := revisions))
  }

  function RemoveBlob(st: Store, d: Digest): Store {
    st.(blobs := st.blobs - {d})
  }

  function RemoveLayer(st: Store, r: Name, d: Digest): Store {
    var repo := st.Get(r);
    SetRepo(st, r, repo.(layers := if repo.layers.Some? then Some(repo.layers.value - {d}) else None))
  }
}
