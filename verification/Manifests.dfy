/** Manifests and the checks a repository makes before it accepts one. */
module Manifests {
  import opened Digests
  import opened Wrappers
  import opened Stores

  datatype Kind = Schema2 | OciImage | Index

  /** The media types the checks tell apart. */
  datatype Media = Foreign | NonDistributable | Layer | ImageManifest | Other

  datatype Platform = Platform(architecture: string, os: string)

  datatype Descriptor = Descriptor(digest: Digest, media: Media, urls: seq<string>, platform: Option<Platform>)

  /** `refs` are the references in order: configuration and layers of an image, children of an
      index. */
  datatype Manifest = Manifest(kind: Kind, version: int, refs: seq<Descriptor>)

  /** Settings: whether an index's children must exist and for which platforms (all of them when
      none is named), and which URLs a layer may carry. */
  datatype Config = Config(imagesExist: bool, platforms: seq<Platform>, urlOk: string -> bool)

  datatype Problem = InvalidDigest(d: Digest) | MissingUrl | InvalidUrl | BlobUnknown(d: Digest)

  /** `Crashed` is the nil platform the index check dereferences. */
  datatype Verdict = Verified | WrongVersion | Rejected(problems: seq<Problem>) | Crashed

  // ---------------------------------------------------------------------------------------------
  // What a check demands of the repository

  datatype Demand = NeedLayer(d: Digest) | NeedRevision(d: Digest)

  predicate Met(st: Store, r: Name, n: Demand) {
    match n
    case NeedLayer(d) => d in LinkedLayers(st, r)
    case NeedRevision(d) => d in Linked(st, r)
  }

  predicate PlatformChecked(cfg: Config, p: Platform) {
    cfg.platforms == [] || p in cfg.platforms
  }

  /** The presence one reference must have in the repository, if any. */
  function DemandOf(cfg: Config, kind: Kind, ref: Descriptor): Option<Demand> {
    match kind
    case Schema2 => if ref.media.Foreign? then None else Some(NeedLayer(ref.digest))
    case OciImage => if ref.media.NonDistributable? && ref.urls != [] then None else Some(NeedLayer(ref.digest))
    case Index =>
      if cfg.imagesExist && (cfg.platforms == [] || (ref.platform.Some? && ref.platform.value in cfg.platforms))
      then Some(NeedRevision(ref.digest)) else None
  }

  /** The part of a reference that does not depend on the repository. */
  predicate WellFormedRef(cfg: Config, kind: Kind, ref: Descriptor) {
    match kind
    case Schema2 => ValidDigest(ref.digest) && (ref.media.Foreign? ==> ref.urls != [] && UrlsOk(cfg, ref.urls))
    case OciImage =>
      ValidDigest(ref.digest) && (ref.media.Layer? || ref.media.NonDistributable? ==> UrlsOk(cfg, ref.urls))
    case Index => true
  }

  predicate UrlsOk(cfg: Config, urls: seq<string>) {
    forall i :: 0 <= i < |urls| ==> cfg.urlOk(urls[i])
  }

  predicate RefOk(cfg: Config, kind: Kind, st: Store, r: Name, ref: Descriptor) {
    && WellFormedRef(cfg, kind, ref)
    && var n := DemandOf(cfg, kind, ref); n.Some? ==> Met(st, r, n.value)
  }

  /** Whether checking this reference of an index dereferences a platform it does not have. */
  predicate Crashes(cfg: Config, kind: Kind, ref: Descriptor) {
    kind.Index? && cfg.imagesExist && cfg.platforms != [] && ref.platform.None?
  }

  ghost predicate Complete(cfg: Config, m: Manifest, st: Store, r: Name) {
    forall i :: 0 <= i < |m.refs| ==> RefOk(cfg, m.kind, st, r, m.refs[i])
  }

  /** The manifest passes its check. */
  ghost predicate Accepts(cfg: Config, m: Manifest, st: Store, r: Name) {
    && m.version == 2 && Complete(cfg, m, st, r)
    && forall i :: 0 <= i < |m.refs| ==> !Crashes(cfg, m.kind, m.refs[i])
  }

  // ---------------------------------------------------------------------------------------------
  // What an accepted manifest has, in terms of links and blobs alone

  /** An image manifest of schema 2 passes if and only if every reference has a proper digest and is linked as a
      layer with its blob present, or is a foreign layer with addresses that are all allowed. */
  lemma AcceptedSchema2(cfg: Config, m: Manifest, st: Store, r: Name)
    requires m.kind.Schema2?
    ensures Accepts(cfg, m, st, r) <==>
      && m.version == 2
      && forall i :: 0 <= i < |m.refs| ==>
        && ValidDigest(m.refs[i].digest)
        && (!m.refs[i].media.Foreign? ==> m.refs[i].digest in Or(st.Get(r).layers) && m.refs[i].digest in st.blobs)
        && (m.refs[i].media.Foreign? ==> m.refs[i].urls != [] && forall u :: u in m.refs[i].urls ==> cfg.urlOk(u))
  {
    if Accepts(cfg, m, st, r) {
      assert forall i :: 0 <= i < |m.refs| ==> RefOk(cfg, m.kind, st, r, m.refs[i]);
    }
  }

  /** An OCI image manifest passes if and only if every reference has a proper digest, every one that is not a
      non-distributable layer with addresses is linked as a layer with its blob present, and the addresses of
      layers are all allowed. */
  lemma AcceptedOci(cfg: Config, m: Manifest, st: Store, r: Name)
    requires m.kind.OciImage?
    ensures Accepts(cfg, m, st, r) <==>
      && m.version == 2
      && forall i :: 0 <= i < |m.refs| ==>
        && ValidDigest(m.refs[i].digest)
        && (m.refs[i].media.Layer? || m.refs[i].media.NonDistributable? ==>
              forall u :: u in m.refs[i].urls ==> cfg.urlOk(u))
        && (m.refs[i].media.Layer? ==> m.refs[i].digest in Or(st.Get(r).layers) && m.refs[i].digest in st.blobs)
        && (m.refs[i].media.NonDistributable? && m.refs[i].urls == [] ==>
              m.refs[i].digest in Or(st.Get(r).layers) && m.refs[i].digest in st.blobs)
        && (!m.refs[i].media.Layer? && !m.refs[i].media.NonDistributable? ==>
              m.refs[i].digest in Or(st.Get(r).layers) && m.refs[i].digest in st.blobs)
  {
    if Accepts(cfg, m, st, r) {
      assert forall i :: 0 <= i < |m.refs| ==> RefOk(cfg, m.kind, st, r, m.refs[i]);
    }
  }

  /** With checks of an index's children off, every index passes. With them on, it passes if and only if every child
      of a configured platform, all of them when none is configured, is linked as a manifest with its blob present,
      and every child names its platform where platforms are configured. */
  lemma AcceptedIndex(cfg: Config, m: Manifest, st: Store, r: Name)
    requires m.kind.Index?
    ensures Accepts(cfg, m, st, r) <==>
      && m.version == 2
      && (cfg.imagesExist ==> forall i :: 0 <= i < |m.refs| ==>
            && (cfg.platforms == [] ==>
                  m.refs[i].digest in Or(st.Get(r).revisions) && m.refs[i].digest in st.blobs)
            && (cfg.platforms != [] ==> m.refs[i].platform.Some?)
            && (m.refs[i].platform.Some? && m.refs[i].platform.value in cfg.platforms ==>
                  m.refs[i].digest in Or(st.Get(r).revisions) && m.refs[i].digest in st.blobs))
  {
    if Accepts(cfg, m, st, r) {
      assert forall i :: 0 <= i < |m.refs| ==> RefOk(cfg, m.kind, st, r, m.refs[i]) && !Crashes(cfg, m.kind, m.refs[i]);
    }
  }

  // ---------------------------------------------------------------------------------------------
  // The checks

  /** The outcome of looking a digest up: no error, or "blob unknown". */
  function Stat(present: bool, d: Digest): Option<Problem> {
    if present then None else Some(BlobUnknown(d))
  }

  /** The error left by the loop over a layer's URLs; it starts from `first`. */
  method CheckUrls(cfg: Config, urls: seq<string>, first: Option<Problem>) returns (err: Option<Problem>)
    ensures urls == [] ==> err == first
    ensures urls != [] ==> err == if UrlsOk(cfg, urls) then None else Some(InvalidUrl)
  {
    err := first;
    for i := 0 to |urls|
      invariant i == 0 ==> err == first
      invariant i > 0 ==> err == None
      invariant forall k :: 0 <= k < i ==> cfg.urlOk(urls[k])
    {
      if !cfg.urlOk(urls[i]) {
        return Some(InvalidUrl);
      }
      err := None;
    }
  }

  /** The check of one image reference, in the schema 2 and the OCI form. A child manifest's entry
      in the manifest service is looked up too, but the later layer lookup decides. */
  method CheckImageRef(cfg: Config, kind: Kind, st: Store, r: Name, ref: Descriptor) returns (err: Option<Problem>)
    requires !kind.Index? && ValidDigest(ref.digest)
    ensures err.None? <==> RefOk(cfg, kind, st, r, ref)
    // a bad address comes before a missing layer
    ensures err == Some(MissingUrl) <==> kind.Schema2? && ref.media.Foreign? && ref.urls == []
    ensures err == Some(InvalidUrl) <==>
      !UrlsOk(cfg, ref.urls) &&
      if kind.Schema2? then ref.media.Foreign? else ref.media.Layer? || ref.media.NonDistributable?
    ensures err.Some? && err.value != MissingUrl && err.value != InvalidUrl ==>
      err.value == BlobUnknown(ref.digest) && !(ref.digest in Or(st.Get(r).layers) && ref.digest in st.blobs)
  {
    err := None;
    if kind.Schema2? && ref.media.Foreign? {
      err := CheckUrls(cfg, ref.urls, if ref.urls == [] then Some(MissingUrl) else None);
    } else if kind.OciImage? && (ref.media.Layer? || ref.media.NonDistributable?) {
      err := CheckUrls(cfg, ref.urls, None);
      if err.None? && (ref.urls == [] || ref.media.Layer?) {
        err := Stat(ref.digest in LinkedLayers(st, r), ref.digest);
      }
    } else {
      if ref.media.ImageManifest? {
        err := Stat(ref.digest in Linked(st, r), ref.digest);
      }
      err := Stat(ref.digest in LinkedLayers(st, r), ref.digest);
    }
  }

  /** Image manifests: every failing reference is reported, and nothing else is. */
  method VerifyImage(cfg: Config, st: Store, r: Name, m: Manifest, skip: bool) returns (v: Verdict)
    requires !m.kind.Index?
    ensures m.version != 2 <==> v == WrongVersion
    ensures v != Crashed
    ensures v == Verified <==> m.version == 2 && (skip || Complete(cfg, m, st, r))
    ensures v.Rejected? ==> forall d ::
      BlobUnknown(d) in v.problems <==>
        exists i :: 0 <= i < |m.refs| && m.refs[i].digest == d && !RefOk(cfg, m.kind, st, r, m.refs[i])
  {
    if m.version != 2 {
      return WrongVersion;
    }
    if skip {
      return Verified;
    }
    var errs: seq<Problem> := [];
    for i := 0 to |m.refs|
      invariant errs == [] <==> forall k :: 0 <= k < i ==> RefOk(cfg, m.kind, st, r, m.refs[k])
      invariant forall d :: BlobUnknown(d) in errs <==>
        exists k :: 0 <= k < i && m.refs[k].digest == d && !RefOk(cfg, m.kind, st, r, m.refs[k])
    {
      var ref := m.refs[i];
      if !ValidDigest(ref.digest) {
        errs := errs + [InvalidDigest(ref.digest), BlobUnknown(ref.digest)];
        continue;
      }
      var err := CheckImageRef(cfg, m.kind, st, r, ref);
      if err.Some? {
        if err.value != BlobUnknown(ref.digest) {
          errs := errs + [err.value];
        }
        errs := errs + [BlobUnknown(ref.digest)];
      }
    }
    v := if errs != [] then Rejected(errs) else Verified;
  }

  /** Whether an index's child must exist: a search through the configured platforms. */
  method PlatformMustExist(cfg: Config, p: Platform) returns (b: bool)
    ensures b == PlatformChecked(cfg, p)
  {
    if cfg.platforms == [] {
      return true;
    }
    for i := 0 to |cfg.platforms|
      invariant forall k :: 0 <= k < i ==> cfg.platforms[k] != p
    {
      if p.architecture == cfg.platforms[i].architecture && p.os == cfg.platforms[i].os {
        return true;
      }
    }
    return false;
  }

  /** Manifest lists and image indexes. The check dereferences the platform of a child when platforms
      are configured, and crashes exactly when some child has none. */
  method VerifyIndex(cfg: Config, st: Store, r: Name, m: Manifest, skip: bool) returns (v: Verdict)
    requires m.kind.Index?
    ensures m.version != 2 <==> v == WrongVersion
    ensures v == Crashed <==>
      m.version == 2 && !skip && exists i :: 0 <= i < |m.refs| && Crashes(cfg, m.kind, m.refs[i])
    ensures v == Verified <==> v != Crashed && m.version == 2 && (skip || Complete(cfg, m, st, r))
    ensures v.Rejected? ==> forall d ::
      BlobUnknown(d) in v.problems <==>
        exists i :: 0 <= i < |m.refs| && m.refs[i].digest == d && !RefOk(cfg, m.kind, st, r, m.refs[i])
  {
    if m.version != 2 {
      return WrongVersion;
    }
    var errs: seq<Problem> := [];
    if cfg.imagesExist && !skip {
      for i := 0 to |m.refs|
        invariant forall k :: 0 <= k < i ==> !Crashes(cfg, m.kind, m.refs[k])
        invariant errs == [] <==> forall k :: 0 <= k < i ==> RefOk(cfg, m.kind, st, r, m.refs[k])
        invariant forall d :: BlobUnknown(d) in errs <==>
          exists k :: 0 <= k < i && m.refs[k].digest == d && !RefOk(cfg, m.kind, st, r, m.refs[k])
      {
        var ref := m.refs[i];
        var must := true;
        if cfg.platforms != [] {
          if ref.platform.None? {
            return Crashed;
          }
          must := PlatformMustExist(cfg, ref.platform.value);
        }
        if must && ref.digest !in Linked(st, r) {
          errs := errs + [BlobUnknown(ref.digest)];
        }
      }
    }
    v := if errs != [] then Rejected(errs) else Verified;
  }

  /** The check for a manifest of any kind, with verification on. */
  method Verify(cfg: Config, st: Store, r: Name, m: Manifest) returns (v: Verdict)
    ensures v == Verified <==> Accepts(cfg, m, st, r)
  {
    if m.kind.Index? {
      v := VerifyIndex(cfg, st, r, m, false);
    } else {
      v := VerifyImage(cfg, st, r, m, false);
    }
  }
}
