/** Marking: the depth-first search that the collector runs from each manifest of a repository,
    over a mark set shared by all searches. */
module Mark {
  import opened Digests
  import opened Wrappers
  import opened Stores
  import opened Manifests

  type Decode = Digest -> Option<Manifest>

  /** The digests a blob references when it is read as a manifest. */
  function Refs(decode: Decode, d: Digest): set<Digest> {
    if decode(d).None? then {} else set ref | ref in decode(d).value.refs :: ref.digest
  }

  function AllRefs(decode: Decode, ds: set<Digest>): set<Digest> {
    set d, x | d in ds && x in Refs(decode, d) :: x
  }

  /** `p` follows references; every digest on it but the last is a linked manifest, and every one but
      the first lies outside `avoid`. */
  ghost predicate IsChain(decode: Decode, linked: set<Digest>, avoid: set<Digest>, p: seq<Digest>) {
    && |p| > 0
    && (forall i :: 0 <= i < |p| - 1 ==> p[i] in linked && p[i + 1] in Refs(decode, p[i]))
    && (forall i :: 1 <= i < |p| ==> p[i] !in avoid)
  }

  /** `to` is `from`, or found from it through references of linked manifests outside `avoid`. */
  ghost predicate Reaches(decode: Decode, linked: set<Digest>, avoid: set<Digest>, from: Digest, to: Digest) {
    exists p :: IsChain(decode, linked, avoid, p) && p[0] == from && p[|p| - 1] == to
  }

  /** Every linked manifest in `ms`, those in `except` aside, has its references in `ms`. */
  ghost predicate ClosedExcept(decode: Decode, linked: set<Digest>, except: set<Digest>, ms: set<Digest>) {
    forall d :: d in ms && d in linked && d !in except ==> Refs(decode, d) <= ms
  }

  ghost predicate Closed(decode: Decode, linked: set<Digest>, ms: set<Digest>) {
    ClosedExcept(decode, linked, {}, ms)
  }

  lemma ReachesSelf(decode: Decode, linked: set<Digest>, avoid: set<Digest>, d: Digest)
    ensures Reaches(decode, linked, avoid, d, d)
  {
    assert IsChain(decode, linked, avoid, [d]);
  }

  /** A first step outside `avoid`, followed by a path that avoids more. */
  lemma ReachesThrough(decode: Decode, linked: set<Digest>, avoid: set<Digest>, more: set<Digest>,
                       d: Digest, x: Digest, to: Digest)
    requires d in linked && x in Refs(decode, d) && x !in avoid && avoid <= more
    requires Reaches(decode, linked, more, x, to)
    ensures Reaches(decode, linked, avoid, d, to)
  {
    var p :| IsChain(decode, linked, more, p) && p[0] == x && p[|p| - 1] == to;
    assert IsChain(decode, linked, avoid, [d] + p);
  }

  lemma ReachesMore(decode: Decode, linked: set<Digest>, avoid: set<Digest>, more: set<Digest>, d: Digest, to: Digest)
    requires avoid <= more && Reaches(decode, linked, more, d, to)
    ensures Reaches(decode, linked, avoid, d, to)
  {
    var p :| IsChain(decode, linked, more, p) && p[0] == d && p[|p| - 1] == to;
    assert IsChain(decode, linked, avoid, p);
  }

  /** A set that is closed outside `avoid` keeps whatever is reached outside `avoid` from a member
      whose references it holds. */
  lemma {:induction false} ClosedKeepsPath(decode: Decode, linked: set<Digest>, avoid: set<Digest>,
          ms: set<Digest>, p: seq<Digest>)
    requires ClosedExcept(decode, linked, avoid, ms) && IsChain(decode, linked, avoid, p) && p[0] in ms
    requires p[0] in linked ==> Refs(decode, p[0]) <= ms
    ensures p[|p| - 1] in ms
    decreases |p|
  {
    if |p| <= 1 {
    } else {
      assert p[0] in linked && p[1] in Refs(decode, p[0]) && p[1] !in avoid;
      ClosedKeepsPath(decode, linked, avoid, ms, p[1..]);
    }
  }

  lemma ClosedKeepsReachable(decode: Decode, linked: set<Digest>, avoid: set<Digest>, ms: set<Digest>,
          from: Digest, to: Digest)
    requires ClosedExcept(decode, linked, avoid, ms) && from in ms && (from in linked ==> Refs(decode, from) <= ms)
    requires Reaches(decode, linked, avoid, from, to)
    ensures to in ms
  {
    var p :| IsChain(decode, linked, avoid, p) && p[0] == from && p[|p| - 1] == to;
    ClosedKeepsPath(decode, linked, avoid, ms, p);
  }

  /** What marking from `d` does to the marks: it adds only digests reached from `d` outside the old
      marks, and `d` and every linked manifest it adds end up with their references marked. Marks
      that were there before are not looked at again. */
  ghost predicate Marked(decode: Decode, linked: set<Digest>, d: Digest, before: set<Digest>, after: set<Digest>) {
    && before <= after
    && Refs(decode, d) <= after
    && (forall x :: x in after && x !in before ==> Reaches(decode, linked, before, d, x))
    && ClosedExcept(decode, linked, before, after)
  }

  class Marker {
    const decode: Decode
    const st: Store
    var marks: set<Digest>

    constructor (decode: Decode, st: Store)
      ensures this.decode == decode && this.st == st && marks == {}
    {
      this.decode, this.st, marks := decode, st, {};
    }

    /** Marks `d` and says whether it was marked already. */
    method Ingest(d: Digest) returns (was: bool)
      modifies this`marks
      ensures was == (d in old(marks)) && marks == old(marks) + {d}
    {
      was := d in marks;
      if !was {
        marks := marks + {d};
      }
    }

    /** Marks what `dgst` references in repository `r`. The search stops at a linked manifest that
        does not decode; otherwise it terminates, since each recursive call marks a digest that is
        referenced by some linked manifest and was not marked. */
    method MarkManifestReferences(r: Name, dgst: Digest) returns (ok: bool)
      modifies this`marks
      ensures ok ==> Marked(decode, Linked(st, r), dgst, old(marks), marks)
      ensures ok ==> dgst in Linked(st, r) && decode(dgst).Some?
      ensures ok ==> forall x :: x in marks && x !in old(marks) && x in Linked(st, r) ==> decode(x).Some?
      ensures !ok ==>
        || !(dgst in Linked(st, r) && decode(dgst).Some?)
        || exists x :: x in marks && x !in old(marks) && x in Linked(st, r) && decode(x).None?
      ensures old(marks) <= marks
      ensures forall x :: x in marks && x !in old(marks) ==> Reaches(decode, Linked(st, r), old(marks), dgst, x)
      decreases AllRefs(decode, Linked(st, r)) - marks
    {
      var linked := Linked(st, r);
      if dgst !in linked || decode(dgst).None? {
        return false;
      }
      var refs := decode(dgst).value.refs;
      for i := 0 to |refs|
        invariant old(marks) <= marks
        invariant forall k :: 0 <= k < i ==> refs[k].digest in marks
        invariant forall x :: x in marks && x !in old(marks) ==> Reaches(decode, linked, old(marks), dgst, x)
        invariant forall x :: x in marks && x !in old(marks) && x in linked ==> decode(x).Some?
        invariant ClosedExcept(decode, linked, old(marks), marks)
      {
        var x := refs[i].digest;
        assert x in Refs(decode, dgst);
        var was := Ingest(x);
        if was {
          continue;
        }
        ghost var before := marks;
        ReachesSelf(decode, linked, before, x);
        ReachesThrough(decode, linked, old(marks), before, dgst, x, x);
        if x in linked {
          var child := MarkManifestReferences(r, x);
          forall y | y in marks && y !in before ensures Reaches(decode, linked, old(marks), dgst, y) {
            ReachesThrough(decode, linked, old(marks), before, dgst, x, y);
          }
          if !child {
            return false;
          }
        }
      }
      ok := true;
    }
  }

  /** Exactly what is added: the digests reached from the root by paths outside the old marks. */
  lemma MarkedIsExact(decode: Decode, linked: set<Digest>, d: Digest, before: set<Digest>, after: set<Digest>)
    requires Marked(decode, linked, d, before, after) && d in before
    ensures forall x :: x in after <==> x in before || Reaches(decode, linked, before, d, x)
  {
    forall x | Reaches(decode, linked, before, d, x) ensures x in after {
      ClosedKeepsReachable(decode, linked, before, after, d, x);
    }
  }

  /** From a marked root whose fellow marks are settled, the result is the least closed superset of
      the marks: exactly the old marks and what the root reaches at all. */
  lemma MarkedIsLeast(decode: Decode, linked: set<Digest>, d: Digest, before: set<Digest>, after: set<Digest>)
    requires Marked(decode, linked, d, before, after) && d in before && d in linked
    requires ClosedExcept(decode, linked, {d}, before)
    ensures Closed(decode, linked, after)
    ensures forall x :: x in after <==> x in before || Reaches(decode, linked, {}, d, x)
    ensures forall ms :: before <= ms && Closed(decode, linked, ms) ==> after <= ms
  {
    forall x | Reaches(decode, linked, {}, d, x) ensures x in after {
      ClosedKeepsReachable(decode, linked, {}, after, d, x);
    }
    forall x | x in after && x !in before ensures Reaches(decode, linked, {}, d, x) {
      ReachesMore(decode, linked, {}, before, d, x);
    }
    forall ms, x | before <= ms && Closed(decode, linked, ms) && x in after ensures x in ms {
      if x !in before {
        ClosedKeepsReachable(decode, linked, {}, ms, d, x);
      }
    }
  }
}
