/** The blob writer object and its storage, updated in place. Each method is proved against the
    value-level operation of `Upload` or `BlobRuns` that carries the results. */
module BlobWriters {
  import opened Digests
  import opened Wrappers
  import opened BlobRuns
  import U = Upload

  class UploadDirectory {
    var data: Option<Bytes>
    var states: map<int, Bytes>

    function View(): U.Upload
      reads this
    {
      U.Upload(data, states)
    }

    /** The offsets of the saved states, in whatever order the driver lists them. */
    method ListStates() returns (entries: seq<int>)
      ensures forall o :: o in entries <==> o in states
    {
      entries := Listing(states.Keys);
    }
  }

  lemma EmptyOrInhabited(s: set<int>)
    ensures s == {} || exists x: int :: x in s
  {
    if forall x: int :: x !in s {
      assert s == {};
    }
  }

  method Listing(keys: set<int>) returns (entries: seq<int>)
    ensures forall o :: o in entries <==> o in keys
  {
    entries := [];
    var left := keys;
    while left != {}
      invariant left <= keys
      invariant forall o :: o in entries <==> o in keys - left
      decreases |left|
    {
      EmptyOrInhabited(left);
      var o :| o in left;
      entries := entries + [o];
      left := left - {o};
    }
  }

  class LinkedBlobStore {
    var blobs: Blobs
    var links: map<Digest, Digest>

    /** Links `canonical` and every alias to `canonical`, each once. Storage takes `allowed` link
        files before it fails; the digests before the `n`th are then linked. */
    method LinkBlob(canonical: Digest, aliases: seq<Digest>, allowed: nat) returns (ok: bool, ghost n: nat)
      modifies this`links
      ensures ok <==> |DigestsIn([canonical] + aliases)| <= allowed
      ensures n <= 1 + |aliases| && (ok ==> n == 1 + |aliases|)
      ensures |DigestsIn(([canonical] + aliases)[..n])| <= allowed
      ensures !ok ==> n <= |aliases| && |DigestsIn(([canonical] + aliases)[..n])| == allowed
      ensures links == WithLinks(old(links), ([canonical] + aliases)[..n], canonical)
    {
      ok, n := LinkAll([canonical] + aliases, canonical, allowed);
    }

    method LinkAll(dgsts: seq<Digest>, canonical: Digest, allowed: nat) returns (ok: bool, ghost n: nat)
      modifies this`links
      ensures ok <==> |DigestsIn(dgsts)| <= allowed
      ensures n <= |dgsts| && (ok ==> n == |dgsts|)
      ensures |DigestsIn(dgsts[..n])| <= allowed
      ensures !ok ==> n < |dgsts| && |DigestsIn(dgsts[..n])| == allowed
      ensures links == WithLinks(old(links), dgsts[..n], canonical)
    {
      var seen: set<Digest> := {};
      var written := 0;
      for i := 0 to |dgsts|
        invariant written == |seen| <= allowed && seen == DigestsIn(dgsts[..i])
        invariant links == WithLinks(old(links), dgsts[..i], canonical)
      {
        OneMore(dgsts, i);
        LinkAgain(old(links), dgsts[..i], dgsts[i], canonical);
        if dgsts[i] !in seen {
          if written == allowed {
            MoreThan(dgsts, i);
            return false, i;
          }
          seen := seen + {dgsts[i]};
          links := links[dgsts[i] := canonical];
          written := written + 1;
        }
      }
      assert dgsts[..|dgsts|] == dgsts;
      return true, |dgsts|;
    }

    /** The links of a commit: the canonical digest and the client's. */
    method LinkCommitted(canonical: Digest, want: Digest, allowed: nat) returns (ok: bool)
      modifies this`links
      ensures ok <==> |DigestsIn([canonical, want])| <= allowed
      ensures ok ==> links == old(links)[canonical := canonical][want := canonical]
      ensures !ok ==> links == if allowed == 0 then old(links) else old(links)[canonical := canonical]
      ensures forall d :: d in old(links) ==> d in links
    {
      ghost var n;
      ok, n := LinkBlob(canonical, [want], allowed);
      TwoDigests(canonical, want);
      OneAlone(canonical);
      assert ([canonical] + [want])[..0] == [] && ([canonical] + [want])[..1] == [canonical] == [canonical] + [];
      LinkAgain(old(links), ([canonical] + [want])[..n], want, canonical);
    }

    /** Stores small content under its digest, unless it is there, and links it. `stat`, `put` and
        `describe` are the faults of the steps before the link. */
    method Put(sum: Sum, p: Bytes, stat: bool, put: bool, describe: bool, allowed: nat) returns (r: Option<Digest>)
      modifies this
      ensures var d := DigestOf(sum, CANONICAL, p);
        && r == (if stat || (d !in old(blobs) && put) || describe || allowed == 0 then None else Some(d))
        && blobs == (if stat || put then old(blobs) else PutBlob(sum, old(blobs), p))
        && (r.Some? ==> d in blobs && links == old(links)[d := d])
        && (r.None? ==> links == old(links))
      ensures forall e :: e in old(blobs) ==> e in blobs && blobs[e] == old(blobs)[e]
      ensures !stat && !put ==>
        var d := DigestOf(sum, CANONICAL, p);
        blobs.Keys == old(blobs).Keys + {d} && (d !in old(blobs) ==> blobs[d] == p)
    {
      var d := DigestOf(sum, CANONICAL, p);
      if stat {
        return None;
      }
      if d !in blobs {
        if put {
          return None;
        }
        blobs := blobs[d := p];
      }
      if describe {
        return None;
      }
      OneAlone(d);
      var ok, n := LinkBlob(d, [], allowed);
      assert ([d] + [])[..0] == [] && ([d] + [])[..1] == [d];
      return if ok then Some(d) else None;
    }
  }

  /** The links after the digests in `ds` were linked to `canonical`. */
  ghost function WithLinks(links: map<Digest, Digest>, ds: seq<Digest>, canonical: Digest): map<Digest, Digest> {
    if ds == [] then links else WithLinks(links, ds[..|ds| - 1], canonical)[ds[|ds| - 1] := canonical]
  }

  ghost function DigestsIn(ds: seq<Digest>): set<Digest> {
    if ds == [] then {} else DigestsIn(ds[..|ds| - 1]) + {ds[|ds| - 1]}
  }

  /** Linking a digest again changes nothing. */
  lemma {:induction false} LinkAgain(links: map<Digest, Digest>, ds: seq<Digest>, d: Digest, canonical: Digest)
    ensures d in DigestsIn(ds) ==>
      && d in WithLinks(links, ds, canonical)
      && WithLinks(links, ds, canonical)[d := canonical] == WithLinks(links, ds, canonical)
    ensures forall e :: e in links ==> e in WithLinks(links, ds, canonical)
    decreases |ds|
  {
    if ds == [] {
    } else {
      LinkAgain(links, ds[..|ds| - 1], d, canonical);
    }
  }

  lemma {:induction false} DigestsOfPrefix(ds: seq<Digest>, i: nat)
    requires i <= |ds|
    ensures DigestsIn(ds[..i]) <= DigestsIn(ds)
    decreases |ds| - i
  {
    if i == |ds| {
      assert ds[..i] == ds;
    } else {
      OneMore(ds, i);
      DigestsOfPrefix(ds, i + 1);
    }
  }

  /** A digest not among the first ones makes one more. */
  lemma {:induction false} MoreThan(ds: seq<Digest>, i: nat)
    requires i < |ds| && ds[i] !in DigestsIn(ds[..i])
    ensures |DigestsIn(ds)| > |DigestsIn(ds[..i])|
  {
    OneMore(ds, i);
    DigestsOfPrefix(ds, i + 1);
    SubsetSize(DigestsIn(ds[..i]) + {ds[i]}, DigestsIn(ds));
  }

  lemma OneMore(ds: seq<Digest>, i: nat)
    requires i < |ds|
    ensures DigestsIn(ds[..i + 1]) == DigestsIn(ds[..i]) + {ds[i]}
    ensures forall links, c :: WithLinks(links, ds[..i + 1], c) == WithLinks(links, ds[..i], c)[ds[i] := c]
  {
    assert ds[..i + 1][..i] == ds[..i];
  }

  lemma OneAlone(d: Digest)
    ensures DigestsIn([d] + []) == {d}
    ensures forall links, c :: WithLinks(links, [d], c) == links[d := c]
  {
    assert [d][..0] == [] && [d] + [] == [d];
  }

  lemma TwoDigests(d: Digest, e: Digest)
    ensures [d] + [e] == [d, e] == ([d] + [e])[..2] && DigestsIn([d, e]) == {d, e}
    ensures forall links, c :: WithLinks(links, [d, e], c) == links[d := c][e := c]
  {
    OneAlone(d);
    assert [d, e][..1] == [d] == [d] + [];
  }

  /** Which storage calls of a commit fail. */
  datatype CommitFaults = CommitFaults(file: bool, close: U.Faults, check: U.Faults, move: MoveFaults,
                                       allowedLinks: nat, remove: bool, describe: bool)

  /** Where a commit ended. */
  datatype Stage =
    | FileNotCommitted
    | Rejected(v: U.Validation)
    | NotMoved
    | NotLinked
    | NotRemoved
    | NotDescribed
    | Committed(digest: Digest, size: int)

  /** The end of a commit, from a digest that was checked. */
  ghost function FinishAll(sum: Sum, s: U.Session, blobs: Blobs, v: U.Validation, want: Digest, f: CommitFaults)
    : (r: (U.Session, Blobs, Stage))
    requires v.Valid?
  {
    var (blobs', up, moved) := MoveBlob(sum, blobs, s.up, v.digest, f.move);
    var s' := s.(up := up);
    if !moved then (s', blobs', NotMoved)
    else if |DigestsIn([v.digest, want])| > f.allowedLinks then (s', blobs', NotLinked)
    else if f.remove then (s', blobs', NotRemoved)
    else if f.describe then (s'.(up := EMPTY), blobs', NotDescribed)
    else (U.Session(EMPTY, s'.w.(done := true)), blobs', Committed(v.digest, v.size))
  }

  /** The writer, its directory and the blobs after a commit. */
  ghost function CommitAll(sum: Sum, resumable: bool, s: U.Session, blobs: Blobs, want: Option<Digest>, f: CommitFaults)
    : (r: (U.Session, Blobs, Stage))
  {
    if f.file || !U.IsOpen(s.w) then (s, blobs, FileNotCommitted)
    else
      var s1 := U.CommitFile(resumable, s, f.close).0;
      var (w, v) := U.Validate(sum, resumable, s1, want, f.check);
      if !v.Valid? then (s1.(w := w), blobs, Rejected(v))
      else FinishAll(sum, s1.(w := w), blobs, v, want.value, f)
  }

  /** Main result of one commit. A completed commit means that the file matches the client's digest
      under the client's algorithm, that the descriptor carries the canonical digest and the true
      size, and that the store holds bytes of that digest, the file's own bytes if it held none.
      Without storage faults a commit completes exactly when the file matches. */
  lemma CommitStoresTheFile(sum: Sum, resumable: bool, s: U.Session, blobs: Blobs, want: Option<Digest>,
          f: CommitFaults)
    requires U.Sound(s) && U.IsOpen(s.w) && ContentAddressed(sum, blobs)
    ensures
      var (s', blobs', stage) := CommitAll(sum, resumable, s, blobs, want, f);
      var content := s.up.Content();
      var canonical := DigestOf(sum, CANONICAL, content);
      && ContentAddressed(sum, blobs')
      && (forall d :: d in blobs ==> d in blobs' && blobs'[d] == blobs[d])
      && (stage.Committed? ==>
            && want.Some? && want.value == DigestOf(sum, want.value.alg, content)
            && stage == Committed(canonical, |content|)
            && canonical in blobs' && (canonical !in blobs ==> blobs'[canonical] == content))
      && (!f.file && 2 <= f.allowedLinks && !f.remove && !f.describe && f.check == U.NO_FAULTS &&
          f.move == NO_MOVE_FAULTS ==>
            (stage.Committed? <==> want.Some? && want.value == DigestOf(sum, want.value.alg, content)))
  {
    if !f.file {
      var s1 := U.CommitFile(resumable, s, f.close).0;
      assert U.Sound(s1) && s1.up.data == s.up.data;
      U.ResumeKeepsSound(resumable, s1, f.check);
      var (w, v) := U.Validate(sum, resumable, s1, want, f.check);
      if v.Valid? {
        assert v == U.Rehash(sum, s.up.Content(), want.value);
        FinishStores(sum, s1.(w := w), blobs, v, want.value, f);
      }
    }
  }

  /** Where a commit stops, and what it has done by then: nothing when the file cannot be committed, no blob until the
      digest is checked and the data moved, and the directory stays until the links are written. Only a completed one
      marks the writer as done. */
  lemma CommitStages(sum: Sum, resumable: bool, s: U.Session, blobs: Blobs, want: Option<Digest>, f: CommitFaults)
    requires U.Sound(s) && !s.w.done
    ensures
      var (s', blobs', stage) := CommitAll(sum, resumable, s, blobs, want, f);
      && (stage == FileNotCommitted <==> f.file || !U.IsOpen(s.w))
      && (stage == FileNotCommitted ==> s' == s && blobs' == blobs)
      && (stage.Rejected? ==> blobs' == blobs && s'.up.data == s.up.data && !stage.v.Valid?)
      && (stage == NotMoved ==> blobs' == blobs && s'.up.data == s.up.data)
      && (stage == NotRemoved ==> f.remove) && (stage == NotDescribed ==> f.describe)
      && (stage == NotDescribed || stage.Committed? ==> s'.up == EMPTY && !f.remove)
      && (stage.Committed? ==> !f.describe)
      && (s'.w.done <==> stage.Committed?)
  {
    if !f.file && U.IsOpen(s.w) {
      var s1 := U.CommitFile(resumable, s, f.close).0;
      var (w, v) := U.Validate(sum, resumable, s1, want, f.check);
      assert !w.done && s1.up.data == s.up.data;
      if v.Valid? { FinishStages(sum, s1.(w := w), blobs, v, want.value, f); }
    }
  }

  lemma FinishStages(sum: Sum, s: U.Session, blobs: Blobs, v: U.Validation, want: Digest, f: CommitFaults)
    requires v.Valid? && !s.w.done
    ensures
      var (s', blobs', stage) := FinishAll(sum, s, blobs, v, want, f);
      && !stage.Rejected? && !stage.FileNotCommitted?
      && (stage == NotMoved <==> !MoveBlob(sum, blobs, s.up, v.digest, f.move).2)
      && (stage == NotMoved ==> blobs' == blobs && s'.up == s.up)
      && (stage == NotLinked || stage == NotRemoved ==> s'.up.states == s.up.states)
      && (stage == NotRemoved ==> f.remove) && (stage == NotDescribed ==> f.describe)
      && (stage == NotDescribed || stage.Committed? ==> s'.up == EMPTY && !f.remove)
      && (stage.Committed? ==> !f.describe)
      && (s'.w.done <==> stage.Committed?)
  {
    MoveAddsTheFile(sum, blobs, s.up, v.digest, f.move);
  }

  /** The second half: a checked file reaches the store. */
  lemma FinishStores(sum: Sum, s: U.Session, blobs: Blobs, v: U.Validation, want: Digest, f: CommitFaults)
    requires ContentAddressed(sum, blobs)
    requires v == U.Valid(DigestOf(sum, CANONICAL, s.up.Content()), |s.up.Content()|)
    ensures
      var (s', blobs', stage) := FinishAll(sum, s, blobs, v, want, f);
      && ContentAddressed(sum, blobs')
      && (forall d :: d in blobs ==> d in blobs' && blobs'[d] == blobs[d])
      && !stage.Rejected? && !stage.FileNotCommitted?
      && (stage.Committed? ==>
            && stage == Committed(v.digest, v.size)
            && v.digest in blobs' && (v.digest !in blobs ==> blobs'[v.digest] == s.up.Content()))
      && (2 <= f.allowedLinks && !f.remove && !f.describe && f.move == NO_MOVE_FAULTS ==> stage.Committed?)
  {
    MoveKeeps(sum, blobs, s.up, v.digest, f.move);
    TwoAtMost(v.digest, want);
  }

  lemma TwoAtMost(d: Digest, e: Digest)
    ensures |DigestsIn([d, e])| <= 2
  {
    TwoDigests(d, e);
    SubsetSize({d}, {d, e});
    assert |{d, e}| <= |{d}| + |{e}|;
  }

  class BlobWriter {
    const sum: Sum
    const resumable: bool
    const dir: UploadDirectory
    const store: LinkedBlobStore

    var hasher: Bytes
    var written: int
    // the driver's file writer
    var size: int
    var closed: bool
    var flushed: bool
    var cancelled: bool

    var committed: bool

    function View(): U.Session
      reads this, dir
    {
      U.Session(dir.View(), U.Writer(hasher, written, size, closed, flushed, cancelled, committed))
    }

    /** Opens a writer at the end of the file, which some drivers create. */
    constructor (sum: Sum, resumable: bool, dir: UploadDirectory, store: LinkedBlobStore, creates: bool)
      modifies dir`data
      ensures this.sum == sum && this.resumable == resumable && this.dir == dir && this.store == store
      ensures View() == U.Open(old(dir.View()), creates)
    {
      this.sum, this.resumable, this.dir, this.store := sum, resumable, dir, store;
      hasher, written, size := [], 0, |dir.View().Content()|;
      closed, flushed, cancelled, committed := false, false, false, false;
      new;
      if creates && dir.data.None? {
        dir.data := Some([]);
      }
    }

    method ResumeDigest(f: U.Faults) returns (r: U.Resumed)
      modifies this`hasher, this`written
      ensures (View().w, r) == U.ResumeDigest(resumable, old(View()), f)
      ensures View().up == old(View().up)
    {
      if !resumable {
        return U.NotAvailable;
      }
      var offset := size;
      if offset == written {
        return U.Ready;
      }
      if f.list {
        return U.Failed;
      }
      var entries := dir.ListStates();
      var found := 0;
      var i := 0;
      while i < |entries| && found == 0
        invariant 0 <= i <= |entries|
        invariant found == if offset in entries[..i] then offset else 0
      {
        assert entries[..i + 1] == entries[..i] + [entries[i]];
        if entries[i] == offset {
          found := offset;
        }
        i := i + 1;
      }
      assert found == 0 && offset != 0 ==> entries[..i] == entries;
      if found == 0 {
        hasher := [];
      } else {
        if f.get {
          return U.Failed;
        }
        hasher := dir.states[found];
        written := found;
      }
      r := if offset - written > 0 then U.NotAvailable else U.Ready;
    }

    /** The driver's file writer: takes a prefix of `p` and counts it. */
    method FileWrite(p: Bytes, accepted: nat) returns (n: nat, ok: bool)
      modifies this`size, dir`data
      ensures n == U.Taken(old(View()).w, p, accepted) <= |p|
      ensures View() == U.AppendFile(old(View()), p, n)
      ensures ok <==> n == |p| && U.IsOpen(old(View()).w)
    {
      n, ok := 0, false;
      if !closed && !flushed && !cancelled {
        n := if accepted < |p| then accepted else |p|;
        if n > 0 {
          var before := if dir.data.Some? then dir.data.value else [];
          dir.data := Some(before + p[..n]);
        }
        size := size + n;
        ok := n == |p|;
      }
    }

    method Write(p: Bytes, accepted: nat, f: U.Faults) returns (n: int, ok: bool)
      modifies this`hasher, this`written, this`size, dir`data
      ensures (View(), ok) == U.Write(resumable, old(View()), p, accepted, f)
      ensures n == if ok then |p| else 0
    {
      var resumed := ResumeDigest(f);
      if resumed.Failed? {
        return 0, false;
      }
      var k, whole := FileWrite(p, accepted);
      if !whole {
        return 0, false;
      }
      hasher := hasher + p;
      written := written + |p|;
      return |p|, true;
    }

    /** Copies a stream that arrives in `chunks`: each chunk goes to the file first, and what the
        file took goes to the hasher. */
    method ReadFrom(chunks: seq<Bytes>, readError: bool, accepted: nat, f: U.Faults) returns (n: int, ok: bool)
      modifies this`hasher, this`written, this`size, dir`data
      ensures var (s, whole) := U.ReadFrom(resumable, old(View()), Flatten(chunks), accepted, f);
        View() == s && ok == (whole && !readError)
      ensures n == size - old(size)
    {
      var resumed := ResumeDigest(f);
      if resumed.Failed? {
        return 0, false;
      }
      n, ok := CopyAll(chunks, accepted);
      written := written + n;
      ok := ok && !readError;
    }

    /** The copying loop: what the file takes of each chunk goes to the hasher, until it takes less. */
    method CopyAll(chunks: seq<Bytes>, accepted: nat) returns (n: nat, ok: bool)
      modifies this`hasher, this`size, dir`data
      ensures n == U.Taken(old(View()).w, Flatten(chunks), accepted) <= |Flatten(chunks)|
      ensures ok <==> n == |Flatten(chunks)|
      ensures View() == CopiedTo(old(View()), Flatten(chunks), n)
    {
      ghost var s1, all := View(), Flatten(chunks);
      n, ok := 0, true;
      var i := 0;
      CopyNone(s1, all);
      while i < |chunks| && ok
        invariant 0 <= i <= |chunks| && n <= |all|
        invariant ok ==> n == |Flatten(chunks[..i])| && (n == 0 || (U.IsOpen(s1.w) && n <= accepted))
        invariant !ok ==> n == U.Taken(s1.w, all, accepted) < |all|
        invariant View() == CopiedTo(s1, all, n)
        decreases |chunks| - i
      {
        FlattenAt(chunks, i);
        if chunks[i] != [] {
          var k, whole := CopyChunk(chunks[i], accepted, n, s1, all);
          n, ok := n + k, whole;
        }
        i := i + 1;
      }
      if ok { assert chunks[..i] == chunks; }
    }

    /** Copies one chunk that follows the `n` bytes of the stream already copied. */
    method CopyChunk(chunk: Bytes, accepted: nat, n: nat, ghost s1: U.Session, ghost all: Bytes)
      returns (k: nat, ok: bool)
      requires n + |chunk| <= |all| && all[n..n + |chunk|] == chunk && chunk != []
      requires n == 0 || (U.IsOpen(s1.w) && n <= accepted)
      requires View() == CopiedTo(s1, all, n)
      modifies this`hasher, this`size, dir`data
      ensures k <= |chunk| && View() == CopiedTo(s1, all, n + k)
      ensures ok ==> k == |chunk| && U.IsOpen(s1.w) && n + k <= accepted
      ensures !ok ==> n + k == U.Taken(s1.w, all, accepted) < |all|
    {
      k, ok := FileWrite(chunk, if n <= accepted then accepted - n else 0);
      hasher := hasher + chunk[..k];
      CopyMore(s1, all, n, k);
      assert all[n..][..k] == chunk[..k] && all[n..n + k] == chunk[..k];
    }

    method Close(f: U.Faults) returns (ok: bool)
      modifies this`closed, dir`states
      ensures (View(), ok) == U.Close(resumable, old(View()), f)
    {
      if committed {
        return false;
      }
      if resumable {
        if f.put {
          return false;
        }
        dir.states := dir.states[written := hasher];
      }
      ok := !closed;
      closed := true;
    }

    method Cancel(f: U.Faults, removed: bool) returns (ok: bool)
      modifies this`cancelled, this`closed, dir
      ensures (View(), ok) == U.Cancel(resumable, old(View()), f, removed)
    {
      if closed {
        return false;
      }
      cancelled, closed := true, true;
      dir.data := None;
      var _ := Close(f);
      if removed {
        dir.data, dir.states := None, map[];
      }
      return removed;
    }

    /** Reads the file piece by piece into a digester of the canonical algorithm and a verifier of the
        client's. */
    method Reread(want: Digest) returns (canonical: Digest, verified: bool)
      ensures canonical == DigestOf(sum, CANONICAL, dir.View().Content())
      ensures verified <==> want == DigestOf(sum, want.alg, dir.View().Content())
    {
      var content := dir.View().Content();
      var digester: Bytes, verifier: Bytes, offset := [], [], 0;
      while offset < |content|
        invariant 0 <= offset <= |content| && digester == verifier == content[..offset]
      {
        var n: int := *;
        n := if 0 < n <= |content| - offset then n else |content| - offset;
        var piece := content[offset..offset + n];
        assert content[..offset + n] == content[..offset] + piece;
        digester := digester + piece;
        verifier := verifier + piece;
        offset := offset + n;
      }
      assert content[..|content|] == content;
      return DigestOf(sum, CANONICAL, digester), want == DigestOf(sum, want.alg, verifier);
    }

    method ValidateBlob(want: Option<Digest>, f: U.Faults) returns (v: U.Validation)
      modifies this`hasher, this`written
      ensures (View().w, v) == U.Validate(sum, resumable, old(View()), want, f)
      ensures View().up == old(View().up)
    {
      if want.None? {
        return U.BadDigest;
      }
      if f.stat {
        return U.StorageError;
      }
      var descSize := size;
      var fileSize := 0;
      if dir.data.None? {
        descSize := 0;
      } else {
        fileSize := |dir.data.value|;
      }
      if descSize > 0 {
        if descSize != fileSize {
          return U.BadLength;
        }
      } else {
        descSize := fileSize;
      }
      var verified, fullHash := false, false;
      var canonical := DigestOf(sum, CANONICAL, []);
      var resumed := ResumeDigest(f);
      match resumed {
        case Ready =>
          canonical := DigestOf(sum, CANONICAL, hasher);
          if want.value.alg == CANONICAL {
            verified := want.value == canonical;
          } else {
            fullHash := true;
          }
        case NotAvailable => fullHash := true;
        case Failed => return U.StorageError;
      }
      if fullHash {
        if written == fileSize && want.value.alg == CANONICAL {
          canonical := DigestOf(sum, CANONICAL, hasher);
          verified := want.value == canonical;
        }
        if !verified {
          if f.read {
            return U.StorageError;
          }
          canonical, verified := Reread(want.value);
        }
      }
      v := if verified then U.Valid(canonical, descSize) else U.BadDigest;
    }

    method Commit(want: Option<Digest>, f: CommitFaults) returns (stage: Stage)
      modifies this, dir, store
      ensures (View(), store.blobs, stage) == CommitAll(sum, resumable, old(View()), old(store.blobs), want, f)
      ensures stage.Committed? ==>
        want.Some? && store.links == old(store.links)[stage.digest := stage.digest][want.value := stage.digest]
      ensures forall d :: d in old(store.links) ==> d in store.links
    {
      if f.file || closed || flushed || cancelled {
        return FileNotCommitted;
      }
      flushed := true;
      var _ := Close(f.close);
      var v := ValidateBlob(want, f.check);
      if !v.Valid? {
        return Rejected(v);
      }
      stage := Finish(v, want.value, f);
    }

    /** Moves the data, links it, and removes the upload. */
    method Finish(v: U.Validation, want: Digest, f: CommitFaults) returns (stage: Stage)
      requires v.Valid?
      modifies this`committed, dir, store
      ensures (View(), store.blobs, stage) == FinishAll(sum, old(View()), old(store.blobs), v, want, f)
      ensures stage.Committed? ==> store.links == old(store.links)[v.digest := v.digest][want := v.digest]
      ensures forall d :: d in old(store.links) ==> d in store.links
    {
      var moved := MoveBlob(v.digest, f.move);
      if !moved {
        return NotMoved;
      }
      var linked := store.LinkCommitted(v.digest, want, f.allowedLinks);
      stage := Conclude(v, f, linked);
    }

    /** The end of a commit, after the links. */
    method Conclude(v: U.Validation, f: CommitFaults, linked: bool) returns (stage: Stage)
      requires v.Valid?
      modifies this`committed, dir
      ensures stage ==
        if !linked then NotLinked else if f.remove then NotRemoved
        else if f.describe then NotDescribed else Committed(v.digest, v.size)
      ensures dir.View() == if !linked || f.remove then old(dir.View()) else EMPTY
      ensures committed == (old(committed) || stage.Committed?)
    {
      if !linked {
        return NotLinked;
      }
      if f.remove {
        return NotRemoved;
      }
      dir.data, dir.states := None, map[];
      if f.describe {
        return NotDescribed;
      }
      committed := true;
      return Committed(v.digest, v.size);
    }

    method MoveBlob(d: Digest, f: MoveFaults) returns (ok: bool)
      modifies dir`data, store`blobs
      ensures (store.blobs, dir.View(), ok) == BlobRuns.MoveBlob(sum, old(store.blobs), old(dir.View()), d, f)
    {
      if f.statBlob {
        return false;
      }
      if d in store.blobs {
        return true;
      }
      if f.statUpload {
        return false;
      }
      if dir.data.None? {
        if d == DigestOf(sum, Sha256, []) && !f.put {
          store.blobs := store.blobs[d := []];
          return true;
        }
        return false; // the move finds no file
      }
      if f.move {
        return false;
      }
      store.blobs := store.blobs[d := dir.data.value];
      dir.data := None;
      return true;
    }
  }

  function Flatten(chunks: seq<Bytes>): (r: Bytes) {
    if chunks == [] then [] else chunks[0] + Flatten(chunks[1..])
  }

  lemma {:induction false} FlattenSplit(chunks: seq<Bytes>, i: nat)
    requires i < |chunks|
    ensures Flatten(chunks[..i + 1]) == Flatten(chunks[..i]) + chunks[i]
    ensures Flatten(chunks[..i + 1]) <= Flatten(chunks)
  {
    if i == 0 {
      assert chunks[..1] == [chunks[0]] && chunks[..0] == [];
      assert Flatten([chunks[0]]) == chunks[0] + Flatten([]);
    } else {
      FlattenSplit(chunks[1..], i - 1);
      assert chunks[..i + 1][1..] == chunks[1..][..i];
      assert chunks[..i][1..] == chunks[1..][..i - 1];
    }
  }

  /** Where a chunk lies in the stream. */
  lemma FlattenAt(chunks: seq<Bytes>, i: nat)
    requires i < |chunks|
    ensures
      var n := |Flatten(chunks[..i])|;
      && |Flatten(chunks[..i + 1])| == n + |chunks[i]| <= |Flatten(chunks)|
      && Flatten(chunks)[n..n + |chunks[i]|] == chunks[i]
  {
    FlattenSplit(chunks, i);
    var n, m := |Flatten(chunks[..i])|, |Flatten(chunks[..i + 1])|;
    assert Flatten(chunks)[n..m] == Flatten(chunks)[..m][n..] == Flatten(chunks[..i + 1])[n..];
  }

  /** The file and the hasher have taken the first `n` bytes of `p`; `written` is not yet updated. */
  ghost function CopiedTo(s: U.Session, p: Bytes, n: nat): U.Session
    requires n <= |p|
  {
    var s' := U.AppendFile(s, p, n);
    s'.(w := s'.w.(hasher := s'.w.hasher + p[..n]))
  }

  lemma CopyNone(s: U.Session, p: Bytes)
    ensures CopiedTo(s, p, 0) == s
  {
    assert s.w.hasher + p[..0] == s.w.hasher;
  }

  lemma CopyMore(s: U.Session, p: Bytes, n: nat, k: nat)
    requires n + k <= |p|
    ensures
      var c := U.AppendFile(CopiedTo(s, p, n), p[n..], k);
      CopiedTo(s, p, n + k) == c.(w := c.w.(hasher := c.w.hasher + p[n..n + k]))
  {
    assert p[..n + k] == p[..n] + p[n..n + k];
    assert p[n..][..k] == p[n..n + k];
    if k == 0 {
      assert p[n..n] == [];
    } else if n == 0 {
      assert p[..0] == [] && s.w.hasher + [] == s.w.hasher;
    } else {
      assert s.up.Content() + p[..n + k] == (s.up.Content() + p[..n]) + p[n..n + k];
    }
  }
}
