/** The layout of the storage backend. A path is the list of its components; a repository name is the list
    of its own. */
module Paths {
  import opened Digests
  import opened PathOrder
  import opened Text
  import opened Wrappers

  type Name = seq<string>

  datatype PathSpec =
    | Manifests(name: Name)
    | Revisions(name: Name)
    | Revision(name: Name, d: Digest)
    | RevisionLink(name: Name, d: Digest)
    | Tags(name: Name)
    | TagDir(name: Name, tag: string)
    | TagCurrent(name: Name, tag: string)
    | TagIndex(name: Name, tag: string)
    | TagIndexEntry(name: Name, tag: string, d: Digest)
    | TagIndexEntryLink(name: Name, tag: string, d: Digest)
    | LayerLink(name: Name, d: Digest)
    | Layers(name: Name)
    | Blobs
    | Blob(d: Digest)
    | BlobData(d: Digest)
    | UploadData(name: Name, id: string)
    | UploadStartedAt(name: Name, id: string)
    | UploadHashState(name: Name, id: string, alg: string, offset: nat, list: bool)
    | RepositoriesRoot

  const ROOT: Path := ["docker", "registry", "v2"]
  const REPOSITORIES: Path := ROOT + ["repositories"]

  // ---------------------------------------------------------------------------------------------
  // Digests as components

  function AlgorithmName(a: Algorithm): string {
    match a case Sha256 => "sha256" case Sha384 => "sha384" case Sha512 => "sha512"
  }

  function AlgorithmOf(name: string): Option<Algorithm> {
    if name == "sha256" then Some(Sha256)
    else if name == "sha384" then Some(Sha384)
    else if name == "sha512" then Some(Sha512)
    else None
  }

  /** The signs in an algorithm's name that become separators. */
  predicate IsSplit(c: char) {
    c == '+' || c == '.' || c == ';'
  }

  /** The path components of an algorithm's name. */
  function AlgorithmPath(s: string): Path {
    var n := Span(s, c => !IsSplit(c));
    if n == |s| then [s] else [s[..n]] + AlgorithmPath(s[n + 1..])
  }

  function DigestPath(d: Digest, multilevel: bool): Path
    requires |d.encoded| >= 2
  {
    AlgorithmPath(AlgorithmName(d.alg)) + (if multilevel then [d.encoded[..2]] else []) + [d.encoded]
  }

  /** No registered algorithm has a sign to replace, so its name is one component. */
  lemma DigestPathIs(d: Digest)
    requires |d.encoded| >= 2
    ensures DigestPath(d, false) == [AlgorithmName(d.alg), d.encoded]
    ensures DigestPath(d, true) == [AlgorithmName(d.alg), d.encoded[..2], d.encoded]
  {
    var name := AlgorithmName(d.alg);
    assert forall i :: 0 <= i < |name| ==> !IsSplit(name[i]);
    assert AlgorithmPath(name) == [name];
  }

  lemma NameRoundTrip(a: Algorithm)
    ensures AlgorithmOf(AlgorithmName(a)) == Some(a)
  {
  }

  // ---------------------------------------------------------------------------------------------
  // The layout

  function Decimal(n: nat): string {
    if n < 10 then [Digit(n)] else Decimal(n / 10) + [Digit(n % 10)]
  }

  function Digit(n: nat): char
    requires n < 10
  {
    (n + 48) as char
  }

  /** The path of an object; none when its digest is not valid. */
  function PathFor(spec: PathSpec): Option<Path>
    decreases match spec
      case RevisionLink(_, _) => 1 case TagDir(_, _) => 1 case TagCurrent(_, _) => 2 case TagIndex(_, _) => 2
      case TagIndexEntry(_, _, _) => 3 case TagIndexEntryLink(_, _, _) => 4 case _ => 0
  {
    match spec
    case Manifests(name) => Some(REPOSITORIES + name + ["_manifests"])
    case Revisions(name) => Some(REPOSITORIES + name + ["_manifests", "revisions"])
    case Revision(name, d) =>
      if !ValidDigest(d) then None else Some(REPOSITORIES + name + ["_manifests", "revisions"] + DigestPath(d, false))
    case RevisionLink(name, d) => Below(PathFor(Revision(name, d)), ["link"])
    case Tags(name) => Some(REPOSITORIES + name + ["_manifests", "tags"])
    case TagDir(name, tag) => Below(PathFor(Tags(name)), [tag])
    case TagCurrent(name, tag) => Below(PathFor(TagDir(name, tag)), ["current", "link"])
    case TagIndex(name, tag) => Below(PathFor(TagDir(name, tag)), ["index"])
    case TagIndexEntry(name, tag, d) =>
      if !ValidDigest(d) then None else Below(PathFor(TagIndex(name, tag)), DigestPath(d, false))
    case TagIndexEntryLink(name, tag, d) => Below(PathFor(TagIndexEntry(name, tag, d)), ["link"])
    case LayerLink(name, d) =>
      if !ValidDigest(d) then None else Some(REPOSITORIES + name + ["_layers"] + DigestPath(d, false) + ["link"])
    case Layers(name) => Some(REPOSITORIES + name + ["_layers"])
    case Blobs => Some(ROOT + ["blobs"])
    case Blob(d) => if !ValidDigest(d) then None else Some(ROOT + ["blobs"] + DigestPath(d, true))
    case BlobData(d) => if !ValidDigest(d) then None else Some(ROOT + ["blobs"] + DigestPath(d, true) + ["data"])
    case UploadData(name, id) => Some(REPOSITORIES + name + ["_uploads", id, "data"])
    case UploadStartedAt(name, id) => Some(REPOSITORIES + name + ["_uploads", id, "startedat"])
    case UploadHashState(name, id, alg, offset, list) =>
      Some(REPOSITORIES + name + ["_uploads", id, "hashstates", alg] + if list then [] else [Decimal(offset)])
    case RepositoriesRoot => Some(REPOSITORIES)
  }

  function Below(p: Option<Path>, q: Path): Option<Path> {
    if p.None? then None else Some(p.value + q)
  }

  /** Reconstructs a digest from the path of its blob, with or without the data file. */
  function DigestFromPath(path: Path): Option<Digest> {
    var p := if |path| > 0 && path[|path| - 1] == "data" then path[..|path| - 1] else path;
    if |p| < 3 || |p[|p| - 1]| < 2 then None
    else
      var hex, next := p[|p| - 1], p[|p| - 2];
      var alg := AlgorithmOf(if next == hex[..2] then p[|p| - 3] else next);
      if alg.Some? && ValidDigest(Digest(alg.value, hex)) then Some(Digest(alg.value, hex)) else None
  }

  // ---------------------------------------------------------------------------------------------
  // Blob paths and digests

  /** Only valid digests have a path. */
  lemma {:induction false} PathNeedsDigest(d: Digest)
    ensures PathFor(BlobData(d)).Some? <==> ValidDigest(d)
    ensures PathFor(Blob(d)).Some? <==> ValidDigest(d)
  {
  }

  lemma {:induction false} BlobPathIs(d: Digest)
    requires ValidDigest(d)
    ensures PathFor(Blob(d)) == Some(ROOT + ["blobs", AlgorithmName(d.alg), d.encoded[..2], d.encoded])
    ensures PathFor(BlobData(d)) == Some(ROOT + ["blobs", AlgorithmName(d.alg), d.encoded[..2], d.encoded, "data"])
  {
    DigestPathIs(d);
    var p := [AlgorithmName(d.alg), d.encoded[..2], d.encoded];
    assert ROOT + ["blobs"] + p == ROOT + ["blobs", AlgorithmName(d.alg), d.encoded[..2], d.encoded];
    assert ROOT + ["blobs"] + p + ["data"] == ROOT + ["blobs", AlgorithmName(d.alg), d.encoded[..2], d.encoded, "data"];
  }

  /** The path of a blob's data gives its digest back. */
  lemma {:induction false} DigestFromDataPath(d: Digest)
    requires ValidDigest(d)
    ensures DigestFromPath(PathFor(BlobData(d)).value) == Some(d)
  {
    BlobPathIs(d);
    NameRoundTrip(d.alg);
    var path := PathFor(BlobData(d)).value;
    var blob := path[..|path| - 1];
    assert blob[|blob| - 1] == d.encoded && blob[|blob| - 2] == d.encoded[..2];
    assert blob[|blob| - 3] == AlgorithmName(d.alg);
  }

  /** Only a valid digest is read from a path, and only from one that ends with it. */
  lemma DigestFromPathIsValid(path: Path)
    ensures var d := DigestFromPath(path);
      d.Some? ==> ValidDigest(d.value) && d.value.encoded in path && AlgorithmName(d.value.alg) in path
  {
  }

  /** All blobs lie in the blobs directory. */
  lemma {:induction false} BlobsHoldAll(d: Digest)
    requires ValidDigest(d)
    ensures PathFor(Blobs).Some? && PathFor(Blob(d)).Some? && PathFor(BlobData(d)).Some?
    ensures PathFor(Blobs).value <= PathFor(Blob(d)).value <= PathFor(BlobData(d)).value
  {
    BlobPathIs(d);
    var a, b, c := PathFor(Blobs).value, PathFor(Blob(d)).value, PathFor(BlobData(d)).value;
    assert a == b[..4] && b == c[..7];
  }

  /** Removing a blob's directory removes that blob's data file and no other. */
  lemma {:induction false} RemoveBlobIsExact(d: Digest, e: Digest)
    requires ValidDigest(d) && ValidDigest(e)
    ensures PathFor(Blob(d)).value <= PathFor(BlobData(e)).value <==> d == e
  {
    BlobPathIs(d);
    BlobPathIs(e);
    NameRoundTrip(d.alg);
    NameRoundTrip(e.alg);
    var a, b := PathFor(Blob(d)).value, PathFor(BlobData(e)).value;
    assert d == e ==> a == b[..7];
    if a <= b {
      assert a[4] == b[4] && a[6] == b[6];
    }
  }

  // ---------------------------------------------------------------------------------------------
  // Files and directories of a repository

  /** Names whose components do not look like the directories the layout puts below them. */
  predicate OrdinaryName(n: Name) {
    forall i :: 0 <= i < |n| ==> n[i] != "" && n[i][0] != '_'
  }

  predicate HasDigest(x: PathSpec) {
    x.Revision? || x.RevisionLink? || x.TagIndexEntry? || x.TagIndexEntryLink? || x.LayerLink?
  }

  /** The files a repository keeps: links, and the files of its uploads. */
  predicate IsFile(x: PathSpec) {
    x.RevisionLink? || x.TagCurrent? || x.TagIndexEntryLink? || x.LayerLink? ||
    x.UploadData? || x.UploadStartedAt? || (x.UploadHashState? && !x.list)
  }

  /** The directories that are listed or deleted. */
  predicate IsDirectory(x: PathSpec) {
    x.Manifests? || x.Revisions? || x.Revision? || x.Tags? || x.TagDir? || x.TagIndex? || x.TagIndexEntry? ||
    x.Layers? || (x.UploadHashState? && x.list)
  }

  predicate Ok(x: PathSpec) {
    (IsFile(x) || IsDirectory(x)) && OrdinaryName(x.name) && (HasDigest(x) ==> ValidDigest(x.d))
  }

  /** Where each lies below the name of its repository. */
  function Suffix(x: PathSpec): (p: Path)
    requires Ok(x)
    ensures p != [] && p[0] in OWN_DIRECTORIES && Marked(p[0])
  {
    match x
    case Manifests(_) => ["_manifests"]
    case Revisions(_) => ["_manifests", "revisions"]
    case Revision(_, d) => ["_manifests", "revisions", AlgorithmName(d.alg), d.encoded]
    case RevisionLink(_, d) => ["_manifests", "revisions", AlgorithmName(d.alg), d.encoded, "link"]
    case Tags(_) => ["_manifests", "tags"]
    case TagDir(_, tag) => ["_manifests", "tags", tag]
    case TagCurrent(_, tag) => ["_manifests", "tags", tag, "current", "link"]
    case TagIndex(_, tag) => ["_manifests", "tags", tag, "index"]
    case TagIndexEntry(_, tag, d) => ["_manifests", "tags", tag, "index", AlgorithmName(d.alg), d.encoded]
    case TagIndexEntryLink(_, tag, d) => ["_manifests", "tags", tag, "index", AlgorithmName(d.alg), d.encoded, "link"]
    case Layers(_) => ["_layers"]
    case LayerLink(_, d) => ["_layers", AlgorithmName(d.alg), d.encoded, "link"]
    case UploadData(_, id) => ["_uploads", id, "data"]
    case UploadStartedAt(_, id) => ["_uploads", id, "startedat"]
    case UploadHashState(_, id, alg, offset, list) =>
      if list then ["_uploads", id, "hashstates", alg] else ["_uploads", id, "hashstates", alg, Decimal(offset)]
  }

  lemma {:induction false} PathIs(x: PathSpec)
    requires Ok(x)
    ensures PathFor(x) == Some(REPOSITORIES + (x.name + Suffix(x)))
  {
    BelowName(x.name, Suffix(x), [], []);
    match x
    case RevisionLink(name, d) => RevisionPath(name, d);
    case Revision(name, d) => RevisionPath(name, d);
    case TagDir(name, tag) => TagPaths(name, tag);
    case TagCurrent(name, tag) => TagPaths(name, tag);
    case TagIndex(name, tag) => TagPaths(name, tag);
    case TagIndexEntry(name, tag, d) => IndexEntryPaths(name, tag, d);
    case TagIndexEntryLink(name, tag, d) => IndexEntryPaths(name, tag, d);
    case LayerLink(name, d) => LayerPath(name, d);
    case UploadHashState(name, id, alg, offset, list) => StatePath(name, id, alg, offset, list);
    case _ =>
  }

  lemma {:induction false} LayerPath(name: Name, d: Digest)
    requires ValidDigest(d)
    ensures PathFor(LayerLink(name, d)) ==
      Some(REPOSITORIES + (name + ["_layers", AlgorithmName(d.alg), d.encoded, "link"]))
  {
    DigestPathIs(d);
    BelowName(name, ["_layers"], DigestPath(d, false), ["link"]);
    assert ["_layers"] + [AlgorithmName(d.alg), d.encoded] + ["link"] ==
      ["_layers", AlgorithmName(d.alg), d.encoded, "link"];
  }

  lemma {:induction false} StatePath(name: Name, id: string, alg: string, offset: nat, list: bool)
    ensures PathFor(UploadHashState(name, id, alg, offset, list)) ==
      Some(REPOSITORIES + (name +
        if list then ["_uploads", id, "hashstates", alg] else ["_uploads", id, "hashstates", alg, Decimal(offset)]))
  {
    var dir := ["_uploads", id, "hashstates", alg];
    BelowName(name, dir, [], []);
    BelowName(name, dir, [Decimal(offset)], []);
    assert dir + [] == dir;
    assert dir + [Decimal(offset)] == ["_uploads", id, "hashstates", alg, Decimal(offset)];
  }

  lemma BelowName(name: Name, a: Path, b: Path, c: Path)
    ensures REPOSITORIES + name + a == REPOSITORIES + (name + a)
    ensures REPOSITORIES + name + a + b == REPOSITORIES + (name + (a + b))
    ensures REPOSITORIES + name + a + b + c == REPOSITORIES + (name + (a + b + c))
  {
  }

  lemma {:induction false} RevisionPath(name: Name, d: Digest)
    requires ValidDigest(d)
    ensures PathFor(Revision(name, d)) ==
      Some(REPOSITORIES + (name + ["_manifests", "revisions", AlgorithmName(d.alg), d.encoded]))
    ensures PathFor(RevisionLink(name, d)) ==
      Some(REPOSITORIES + (name + ["_manifests", "revisions", AlgorithmName(d.alg), d.encoded, "link"]))
  {
    DigestPathIs(d);
    var a, b := ["_manifests", "revisions"], [AlgorithmName(d.alg), d.encoded];
    BelowName(name, a, b, ["link"]);
    assert a + b == ["_manifests", "revisions", AlgorithmName(d.alg), d.encoded];
    assert a + b + ["link"] == ["_manifests", "revisions", AlgorithmName(d.alg), d.encoded, "link"];
    assert PathFor(Revision(name, d)) == Some(REPOSITORIES + name + a + b);
  }

  lemma TagPaths(name: Name, tag: string)
    ensures PathFor(TagDir(name, tag)) == Some(REPOSITORIES + (name + ["_manifests", "tags", tag]))
    ensures PathFor(TagCurrent(name, tag)) ==
      Some(REPOSITORIES + (name + ["_manifests", "tags", tag, "current", "link"]))
    ensures PathFor(TagIndex(name, tag)) == Some(REPOSITORIES + (name + ["_manifests", "tags", tag, "index"]))
  {
    var a := ["_manifests", "tags"];
    assert PathFor(Tags(name)) == Some(REPOSITORIES + name + a);
    BelowName(name, a, [tag], ["current", "link"]);
    BelowName(name, a, [tag], ["index"]);
    assert a + [tag] == ["_manifests", "tags", tag];
    assert a + [tag] + ["current", "link"] == ["_manifests", "tags", tag, "current", "link"];
    assert a + [tag] + ["index"] == ["_manifests", "tags", tag, "index"];
    assert PathFor(TagDir(name, tag)) == Some(REPOSITORIES + name + a + [tag]);
  }

  lemma {:induction false} IndexEntryPaths(name: Name, tag: string, d: Digest)
    requires ValidDigest(d)
    ensures PathFor(TagIndexEntry(name, tag, d)) ==
      Some(REPOSITORIES + (name + ["_manifests", "tags", tag, "index", AlgorithmName(d.alg), d.encoded]))
    ensures PathFor(TagIndexEntryLink(name, tag, d)) ==
      Some(REPOSITORIES + (name + ["_manifests", "tags", tag, "index", AlgorithmName(d.alg), d.encoded, "link"]))
  {
    TagPaths(name, tag);
    DigestPathIs(d);
    var a, b := ["_manifests", "tags", tag, "index"], [AlgorithmName(d.alg), d.encoded];
    BelowName(name, a, b, ["link"]);
    assert a + b == ["_manifests", "tags", tag, "index", AlgorithmName(d.alg), d.encoded];
    assert a + b + ["link"] == ["_manifests", "tags", tag, "index", AlgorithmName(d.alg), d.encoded, "link"];
    assert PathFor(TagIndexEntry(name, tag, d)) == Some(REPOSITORIES + name + a + b);
  }

  ghost predicate EndsAt(p: Path, k: nat) {
    k < |p| && Marked(p[k]) && forall i :: 0 <= i < k ==> !Marked(p[i])
  }

  predicate Marked(c: string) {
    c != "" && c[0] == '_'
  }

  lemma NameEndsAt(m: Name, x: Path)
    requires OrdinaryName(m) && x != [] && Marked(x[0])
    ensures EndsAt(m + x, |m|)
  {
  }

  /** The first component that begins with an underscore ends the name. */
  lemma NamesEnd(m: Name, x: Path, n: Name, y: Path)
    requires OrdinaryName(m) && OrdinaryName(n) && x != [] && y != []
    requires Marked(x[0]) && Marked(y[0])
    requires m + x <= n + y
    ensures m == n && x <= y
  {
    NameEndsAt(m, x);
    NameEndsAt(n, y);
    assert EndsAt(n + y, |m|) by {
      assert forall i :: 0 <= i < |m + x| ==> (n + y)[i] == (m + x)[i];
    }
    assert |m| == |n|;
    assert (m + x)[..|m|] == m && (n + y)[..|m|] == m;
    assert forall i :: 0 <= i < |x| ==> x[i] == (m + x)[|m| + i] == (n + y)[|m| + i] == y[i];
  }

  lemma CancelRoot(x: Path, y: Path)
    ensures REPOSITORIES + x <= REPOSITORIES + y <==> x <= y
  {
    var a, b := REPOSITORIES + x, REPOSITORIES + y;
    assert x == a[|REPOSITORIES|..] && y == b[|REPOSITORIES|..];
    if a <= b { assert a == b[..|a|]; }
    if x <= y { assert x == y[..|x|]; }
  }

  /** One path is below another exactly when they are of one repository and so are their suffixes. */
  lemma {:induction false} BelowExactly(a: PathSpec, b: PathSpec)
    requires Ok(a) && Ok(b)
    ensures PathFor(a).Some? && PathFor(b).Some?
    ensures PathFor(a).value <= PathFor(b).value <==> a.name == b.name && Suffix(a) <= Suffix(b)
  {
    PathIs(a);
    PathIs(b);
    NamesAndSuffixes(a.name, Suffix(a), b.name, Suffix(b));
  }

  lemma NamesAndSuffixes(m: Name, x: Path, n: Name, y: Path)
    requires OrdinaryName(m) && OrdinaryName(n) && x != [] && y != [] && Marked(x[0]) && Marked(y[0])
    ensures REPOSITORIES + (m + x) <= REPOSITORIES + (n + y) <==> m == n && x <= y
  {
    CancelRoot(m + x, n + y);
    if m + x <= n + y { NamesEnd(m, x, n, y); }
    if m == n && x <= y { assert m + x == (n + y)[..|m + x|]; }
  }

  /** The files that lie in a directory, by what they are. */
  predicate Holds(dir: PathSpec, file: PathSpec)
    requires IsDirectory(dir) && IsFile(file)
  {
    && dir.name == file.name
    && match dir
       case Manifests(_) => file.RevisionLink? || file.TagCurrent? || file.TagIndexEntryLink?
       case Revisions(_) => file.RevisionLink?
       case Revision(_, d) => file.RevisionLink? && file.d == d
       case Tags(_) => file.TagCurrent? || file.TagIndexEntryLink?
       case TagDir(_, tag) => (file.TagCurrent? || file.TagIndexEntryLink?) && file.tag == tag
       case TagIndex(_, tag) => file.TagIndexEntryLink? && file.tag == tag
       case TagIndexEntry(_, tag, d) => file.TagIndexEntryLink? && file.tag == tag && file.d == d
       case Layers(_) => file.LayerLink?
       case UploadHashState(_, id, alg, _, _) => file.UploadHashState? && file.id == id && file.alg == alg
  }

  lemma SuffixHolds(dir: PathSpec, file: PathSpec)
    requires Ok(dir) && IsDirectory(dir) && Ok(file) && IsFile(file) && dir.name == file.name
    ensures Suffix(dir) <= Suffix(file) <==> Holds(dir, file)
  {
    var x, y := Suffix(dir), Suffix(file);
    if HasDigest(dir) { NameRoundTrip(dir.d.alg); }
    if HasDigest(file) { NameRoundTrip(file.d.alg); }
    assert x <= y <==> |x| <= |y| && forall i :: 0 <= i < |x| ==> x[i] == y[i];
    if x <= y {
      assert x[0] == y[0];
      if |x| > 1 { assert x[1] == y[1]; }
      if |x| > 2 { assert x[2] == y[2]; }
      if |x| > 3 { assert x[3] == y[3]; }
      if |x| > 4 { assert x[4] == y[4] && x[5] == y[5]; }
    }
  }

  /** Main result: deleting or listing a directory reaches exactly the files it stands for. So removing a tag takes that
      tag's links, removing a revision or an index entry its own, and a listing of hash states finds those of one
      upload and algorithm. */
  lemma {:induction false} DirectoriesAreExact(dir: PathSpec, file: PathSpec)
    requires Ok(dir) && IsDirectory(dir) && Ok(file) && IsFile(file)
    ensures PathFor(dir).Some? && PathFor(file).Some?
    ensures PathFor(dir).value <= PathFor(file).value <==> Holds(dir, file)
  {
    BelowExactly(dir, file);
    if dir.name == file.name { SuffixHolds(dir, file); }
  }

  /** Below one name, the suffix tells the kind, the tag or upload, and the digest or offset. */
  lemma SuffixesDiffer(a: PathSpec, b: PathSpec)
    requires Ok(a) && Ok(b) && IsFile(a) && IsFile(b) && a.name == b.name && Suffix(a) <= Suffix(b)
    ensures a == b
  {
    var x, y := Suffix(a), Suffix(b);
    if HasDigest(a) { NameRoundTrip(a.d.alg); }
    if HasDigest(b) { NameRoundTrip(b.d.alg); }
    if a.UploadHashState? { OffsetRoundTrip(a.offset); }
    if b.UploadHashState? { OffsetRoundTrip(b.offset); }
    assert forall i :: 0 <= i < |x| ==> x[i] == y[i];
    assert x[0] == y[0] && x[1] == y[1] && x[2] == y[2];
    if |x| > 3 { assert x[3] == y[3]; }
    if |x| > 4 { assert x[4] == y[4]; }
    if |x| > 5 { assert x[5] == y[5]; }
  }

  /** Two files have the same path exactly when they are the same file, and none lies below another. */
  lemma {:induction false} FilesAreDistinct(a: PathSpec, b: PathSpec)
    requires Ok(a) && Ok(b) && IsFile(a) && IsFile(b)
    ensures PathFor(a).Some? && PathFor(b).Some?
    ensures PathFor(a).value == PathFor(b).value <==> a == b
    ensures PathFor(a).value <= PathFor(b).value <==> a == b
  {
    BelowExactly(a, b);
    if a.name == b.name && Suffix(a) <= Suffix(b) { SuffixesDiffer(a, b); }
  }

  /** The data of a blob is no file of a repository: one lies among the blobs, the other among the repositories. */
  lemma {:induction false} BlobsAreApart(d: Digest, x: PathSpec)
    requires ValidDigest(d) && Ok(x)
    ensures PathFor(BlobData(d)).Some? && PathFor(x).Some? && PathFor(Blobs).Some? && PathFor(RepositoriesRoot).Some?
    ensures PathFor(BlobData(d)).value != PathFor(x).value
    ensures PathFor(RepositoriesRoot).value <= PathFor(x).value
    ensures !(PathFor(Blobs).value <= PathFor(x).value)
    ensures !(PathFor(RepositoriesRoot).value <= PathFor(BlobData(d)).value)
  {
    BlobPathIs(d);
    PathIs(x);
    TwoTrees(PathFor(BlobData(d)).value, x.name + Suffix(x));
  }

  lemma TwoTrees(blob: Path, rest: Path)
    requires |blob| > 3 && blob[..3] == ROOT && blob[3] == "blobs"
    ensures var file := REPOSITORIES + rest;
      blob != file && REPOSITORIES <= file && !(ROOT + ["blobs"] <= file) && !(REPOSITORIES <= blob)
  {
    assert REPOSITORIES[3] == "repositories" && (REPOSITORIES + rest)[3] == "repositories";
    assert (ROOT + ["blobs"])[3] == "blobs";
  }

  /** The directory of an upload, which a cancel or a completed commit deletes, holds exactly that upload's files. */
  lemma {:induction false} UploadDirectoryIsExact(name: Name, id: string, file: PathSpec)
    requires OrdinaryName(name) && Ok(file) && IsFile(file)
    ensures
      var data := PathFor(UploadData(name, id)).value;
      PathFor(file).Some? &&
      (data[..|data| - 1] <= PathFor(file).value <==>
         (file.UploadData? || file.UploadStartedAt? || file.UploadHashState?) && file.name == name && file.id == id)
  {
    PathIs(UploadData(name, id));
    PathIs(file);
    var dir, y := ["_uploads", id], Suffix(file);
    DirectoryOf(name, dir, "data");
    assert dir + ["data"] == ["_uploads", id, "data"];
    NamesAndSuffixes(name, dir, file.name, y);
    UploadSuffix(file, id);
  }

  lemma UploadSuffix(x: PathSpec, id: string)
    requires Ok(x) && IsFile(x)
    ensures ["_uploads", id] <= Suffix(x) <==> (x.UploadData? || x.UploadStartedAt? || x.UploadHashState?) && x.id == id
  {
    var y := Suffix(x);
    assert ["_uploads", id] <= y <==> |y| >= 2 && y[0] == "_uploads" && y[1] == id;
  }

  lemma DirectoryOf(name: Name, dir: Path, file: string)
    ensures var p := REPOSITORIES + (name + (dir + [file])); p[..|p| - 1] == REPOSITORIES + (name + dir)
  {
    assert REPOSITORIES + (name + (dir + [file])) == REPOSITORIES + (name + dir) + [file];
  }

  // ---------------------------------------------------------------------------------------------
  // Removing a repository

  const OWN_DIRECTORIES: set<string> := {"_manifests", "_layers", "_uploads"}

  /** The paths that removing the repository deletes. */
  ghost predicate Removed(name: Name, path: Path) {
    exists dir :: dir in OWN_DIRECTORIES && REPOSITORIES + name + [dir] <= path
  }

  /** The paths of a repository's own objects. */
  ghost predicate BelongsTo(name: Name, path: Path) {
    exists dir, rest: Path :: dir in OWN_DIRECTORIES && path == REPOSITORIES + (name + ([dir] + rest))
  }

  /** Removing a repository deletes exactly its own paths: none of a repository nested in it, and none of
      one it is nested in. */
  lemma RemoveRepositoryIsExact(name: Name, other: Name, path: Path)
    requires OrdinaryName(name) && OrdinaryName(other) && BelongsTo(other, path)
    ensures Removed(name, path) <==> name == other
  {
    var dir, rest: Path :| dir in OWN_DIRECTORIES && path == REPOSITORIES + (other + ([dir] + rest));
    assert path == REPOSITORIES + other + [dir] + rest;
    assert REPOSITORIES + other + [dir] <= path;
    if Removed(name, path) {
      var d :| d in OWN_DIRECTORIES && REPOSITORIES + name + [d] <= path;
      assert REPOSITORIES + name + [d] == REPOSITORIES + (name + [d]);
      var x, y := name + [d], other + ([dir] + rest);
      assert x == (REPOSITORIES + x)[|REPOSITORIES|..] && y == (REPOSITORIES + y)[|REPOSITORIES|..];
      assert x <= y;
      NamesEnd(name, [d], other, [dir] + rest);
    }
  }

  /** Every file of a repository is one of its own paths. */
  lemma {:induction false} FilesBelong(x: PathSpec)
    requires Ok(x)
    ensures PathFor(x).Some? && BelongsTo(x.name, PathFor(x).value)
  {
    PathIs(x);
    OwnPath(x.name, Suffix(x));
  }

  lemma OwnPath(name: Name, s: Path)
    requires s != [] && s[0] in OWN_DIRECTORIES
    ensures BelongsTo(name, REPOSITORIES + (name + s))
  {
    assert s == [s[0]] + s[1..];
  }

  // ---------------------------------------------------------------------------------------------
  // Hash state offsets

  /** A decimal number; one that starts with a zero and goes on has another base. */
  function ParseOffset(s: string): Option<nat> {
    if s == "" || (s[0] == '0' && |s| > 1) then None else ParseDigits(s)
  }

  function ParseDigits(s: string): Option<nat> {
    if s == "" then Some(0)
    else
      var c, r := s[|s| - 1], ParseDigits(s[..|s| - 1]);
      if r.None? || !('0' <= c <= '9') then None else Some(r.value * 10 + (c as int - 48))
  }

  lemma {:induction false} DecimalDigits(n: nat)
    ensures ParseDigits(Decimal(n)) == Some(n) && Decimal(n) != "" && (Decimal(n)[0] == '0' <==> n == 0)
    ensures |Decimal(n)| > 1 ==> n >= 10
  {
    var s := Decimal(n);
    if n >= 10 {
      DecimalDigits(n / 10);
      assert s[..|s| - 1] == Decimal(n / 10) && s[0] == Decimal(n / 10)[0];
    } else {
      assert s[..0] == "";
    }
  }

  /** The offset in a hash state's file name is read back as the offset it was saved under, so distinct
      offsets have distinct files. */
  lemma {:induction false} OffsetRoundTrip(n: nat)
    ensures ParseOffset(Decimal(n)) == Some(n)
  {
    DecimalDigits(n);
  }
}
