/** The blob store across whole runs: any number of uploads, commits that can be interrupted
    between their phases, cancels, purges, direct puts and collections, in any interleaving.

    The store is content-addressed when the bytes kept under a digest hash to it. */
module BlobRuns {
  import opened Digests
  import opened Wrappers
  import U = Upload

  type Blobs = map<Digest, Bytes>

  ghost predicate ContentAddressed(sum: Sum, blobs: Blobs) {
    forall d :: d in blobs ==> d == DigestOf(sum, CANONICAL, blobs[d])
  }

  /** Which storage calls of the final move fail. */
  datatype MoveFaults = MoveFaults(statBlob: bool, statUpload: bool, put: bool, move: bool)

  const NO_MOVE_FAULTS := MoveFaults(false, false, false, false)

  /** Moves the upload's data file to its place under `d`. A blob already there is left alone, and
      a missing data file is accepted only under the digest of no bytes at all. */
  function MoveBlob(sum: Sum, blobs: Blobs, up: U.Upload, d: Digest, f: MoveFaults): (r: (Blobs, U.Upload, bool)) {
    if f.statBlob then (blobs, up, false)
    else if d in blobs then (blobs, up, true)
    else if f.statUpload then (blobs, up, false)
    else if up.data.None? then
      if d == DigestOf(sum, Sha256, []) && !f.put then (blobs[d := []], up, true)
      else (blobs, up, false)
    else if f.move then (blobs, up, false)
    else (blobs[d := up.data.value], up.(data := None), true)
  }

  /** Stores `p` under its canonical digest unless that digest is present. */
  function PutBlob(sum: Sum, blobs: Blobs, p: Bytes): (r: Blobs) {
    var d := DigestOf(sum, CANONICAL, p);
    if d in blobs then blobs else blobs[d := p]
  }

  type Id = string

  /** How far a commit has got: not begun, digest checked, data moved. */
  datatype Phase = Uploading | Checked(digest: Digest) | Moved

  /** One upload. `started` is the presence of the start marker that `Resume` looks for. The open
      writer is `detached` once its data file was deleted or moved away; `intact` records that
      this has never happened to the upload, nor a close that lost bytes. `base` is the file's
      size when its writer was opened. */
  datatype Slot = Slot(up: U.Upload, started: bool, intact: bool, detached: bool, w: Option<U.Writer>,
    base: nat, phase: Phase)

  datatype System = System(blobs: Blobs, slots: map<Id, Slot>)

  const INITIAL := System(map[], map[])

  datatype Action =
    | Create(id: Id, creates: bool)
    | Resume(id: Id, creates: bool)
    | Io(id: Id, io: U.Action)
    | LosingClose(id: Id, f: U.Faults, kept: nat)
    | Check(id: Id, want: Option<Digest>, f: U.Faults)
    | Move(id: Id, mf: MoveFaults)
    | Finish(id: Id)
    | Cancel(id: Id, f: U.Faults, removed: bool)
    | Purge(id: Id)
    | Put(content: Bytes)
    | Collect(keep: set<Digest>)

  const EMPTY := U.Upload(None, map[])

  /** Opens a writer, if the start marker is there and no writer is. */
  function ResumeStep(s: Slot, creates: bool): Slot {
    if !s.started || s.w.Some? then s
    else
      var n := U.Open(s.up, creates);
      s.(up := n.up, detached := false, w := Some(n.w), base := |n.up.Content()|, phase := Uploading)
  }

  /** An operation on the open writer. Bytes written through a detached writer go nowhere. */
  function IoStep(sum: Sum, resumable: bool, s: Slot, io: U.Action): Slot {
    if io.Resume? then s
    else
      var l := U.Step(sum, resumable, U.Life(s.up, s.w, s.base), io);
      var up := if s.detached then l.up.(data := None) else l.up;
      s.(up := up, w := l.w, phase := if l.w.None? then Uploading else s.phase)
  }

  /** A close whose flush leaves only the first `kept` bytes, no fewer than the file had before the writer. */
  function LosingStep(resumable: bool, s: Slot, f: U.Faults, kept: nat): Slot {
    if s.w.None? || !U.Buffers(s.w.value) then s
    else
      var up := U.Close(resumable, U.Session(s.up, s.w.value), f).0.up;
      s.(up := U.Cut(up, if kept < s.base then s.base else kept), intact := s.intact && |up.Content()| <= kept,
         w := None, phase := Uploading)
  }

  /** The digest check of a commit, which runs only once the file writer has committed. */
  function CheckStep(sum: Sum, resumable: bool, s: Slot, want: Option<Digest>, f: U.Faults): Slot {
    if s.w.None? || !s.w.value.flushed || !s.phase.Uploading? then s
    else
      var (w, v) := U.Validate(sum, resumable, U.Session(s.up, s.w.value), want, f);
      s.(w := Some(w), phase := if v.Valid? then Checked(v.digest) else Uploading)
  }

  /** A cancelled upload has lost its data file, and its start marker if the directory went too. */
  function CancelStep(resumable: bool, s: Slot, f: U.Faults, removed: bool): Slot {
    if s.w.None? || s.w.value.closed then s
    else
      var c := U.Cancel(resumable, U.Session(s.up, s.w.value), f, removed).0;
      s.(up := c.up, started := s.started && !removed, intact := false, detached := true,
        w := Some(c.w), phase := Uploading)
  }

  function Step(sum: Sum, resumable: bool, sys: System, a: Action): System {
    match a
    case Put(content) => sys.(blobs := PutBlob(sum, sys.blobs, content))
    case Collect(keep) => sys.(blobs := map d | d in sys.blobs && d in keep :: sys.blobs[d])
    case Create(id, creates) =>
      if id in sys.slots then sys
      else
        var s := U.Open(EMPTY, creates);
        sys.(slots := sys.slots[id := Slot(s.up, true, true, false, Some(s.w), 0, Uploading)])
    case _ =>
      if a.id !in sys.slots then sys
      else
        var s := sys.slots[a.id];
        match a
        case Resume(id, creates) => sys.(slots := sys.slots[id := ResumeStep(s, creates)])
        case Io(id, io) => sys.(slots := sys.slots[id := IoStep(sum, resumable, s, io)])
        case LosingClose(id, f, kept) => sys.(slots := sys.slots[id := LosingStep(resumable, s, f, kept)])
        case Check(id, want, f) => sys.(slots := sys.slots[id := CheckStep(sum, resumable, s, want, f)])
        case Move(id, mf) =>
          if !s.phase.Checked? then sys
          else
            var (blobs, up, ok) := MoveBlob(sum, sys.blobs, s.up, s.phase.digest, mf);
            var gone := s.up.data.Some? && up.data.None?;
            var s' := s.(up := up, intact := s.intact && !gone, detached := s.detached || gone,
                         phase := if ok then Moved else s.phase);
            System(blobs, sys.slots[id := s'])
        case Finish(id) =>
          if !s.phase.Moved? then sys
          else sys.(slots := sys.slots[id := s.(up := EMPTY, started := false, intact := false, detached := true)])
        case Cancel(id, f, removed) => sys.(slots := sys.slots[id := CancelStep(resumable, s, f, removed)])
        case Purge(id) =>
          sys.(slots := sys.slots[id := s.(up := EMPTY, started := false, intact := false, detached := true)])
        case _ => sys
  }

  function Run(sum: Sum, resumable: bool, sys: System, actions: seq<Action>): (r: System)
    decreases |actions|
  {
    if actions == [] then sys
    else Run(sum, resumable, Step(sum, resumable, sys, actions[0]), actions[1..])
  }

  /** A resumable upload that no writer has open. */
  predicate Idle(sys: System, id: Id) {
    id in sys.slots && sys.slots[id].started && sys.slots[id].w.None?
  }

  /** A resume finds hash states that fit the file: none beyond its end, and one at its end of its bytes. */
  ghost predicate ResumesSound(sys: System, a: Action) {
    a.Resume? && Idle(sys, a.id) ==> U.StatesSound(sys.slots[a.id].up)
  }

  /** Every resume of the run does. */
  ghost predicate Guarded(sum: Sum, resumable: bool, sys: System, actions: seq<Action>)
    decreases |actions|
  {
    actions == [] ||
    (ResumesSound(sys, actions[0]) && Guarded(sum, resumable, Step(sum, resumable, sys, actions[0]), actions[1..]))
  }

  // ---------------------------------------------------------------------------------------------
  // The invariant

  ghost predicate SlotSound(sum: Sum, s: Slot) {
    && (s.intact ==> U.StatesSound(s.up) && !s.detached)
    && (s.detached ==> s.up.data.None?)
    && (s.w.Some? && !s.detached ==> U.LifeSound(U.Life(s.up, s.w, s.base)))
    && (s.phase.Checked? ==> s.w.Some? && s.w.value.flushed)
    && (s.phase.Checked? && s.up.data.Some? ==> s.phase.digest == DigestOf(sum, CANONICAL, s.up.data.value))
  }

  ghost predicate Inv(sum: Sum, sys: System) {
    && ContentAddressed(sum, sys.blobs)
    && forall id :: id in sys.slots ==> SlotSound(sum, sys.slots[id])
  }

  lemma IoKeepsSlot(sum: Sum, resumable: bool, s: Slot, io: U.Action)
    requires SlotSound(sum, s)
    ensures SlotSound(sum, IoStep(sum, resumable, s, io))
  {
    if !io.Resume? {
      var l := U.Life(s.up, s.w, s.base);
      if !s.detached {
        if s.w.Some? { U.StepKeepsSound(sum, resumable, l, io); }
      }
      if s.phase.Checked? { FlushedFileStays(sum, resumable, l, io); }
    }
  }

  /** Once the file writer has committed, no operation changes the data file. */
  lemma FlushedFileStays(sum: Sum, resumable: bool, l: U.Life, io: U.Action)
    requires !io.Resume? && l.w.Some? && l.w.value.flushed
    ensures var l' := U.Step(sum, resumable, l, io);
      l'.up.data == l.up.data && (l'.w.Some? ==> l'.w.value.flushed)
  {
    var s := U.Session(l.up, l.w.value);
    match io
    case DoWrite(p, accepted, f) => FlushedTakesNone(resumable, s, p, accepted, f);
    case DoReadFrom(p, accepted, f) => FlushedTakesNone(resumable, s, p, accepted, f);
    case _ =>
  }

  lemma FlushedTakesNone(resumable: bool, s: U.Session, p: Bytes, accepted: nat, f: U.Faults)
    requires s.w.flushed
    ensures var s' := U.Write(resumable, s, p, accepted, f).0; s'.up.data == s.up.data && s'.w.flushed
    ensures var s' := U.ReadFrom(resumable, s, p, accepted, f).0; s'.up.data == s.up.data && s'.w.flushed
  {
  }

  lemma CheckKeepsSlot(sum: Sum, resumable: bool, s: Slot, want: Option<Digest>, f: U.Faults)
    requires SlotSound(sum, s)
    ensures SlotSound(sum, CheckStep(sum, resumable, s, want, f))
  {
    if s.w.Some? && !s.detached {
      U.ResumeKeepsSound(resumable, U.Session(s.up, s.w.value), f);
    }
  }

  lemma MoveKeeps(sum: Sum, blobs: Blobs, up: U.Upload, d: Digest, f: MoveFaults)
    requires ContentAddressed(sum, blobs)
    requires up.data.Some? ==> d == DigestOf(sum, CANONICAL, up.data.value)
    ensures ContentAddressed(sum, MoveBlob(sum, blobs, up, d, f).0)
  {
  }

  lemma StepKeepsInv(sum: Sum, resumable: bool, sys: System, a: Action)
    requires Inv(sum, sys) && ResumesSound(sys, a)
    ensures Inv(sum, Step(sum, resumable, sys, a))
  {
    match a
    case Put(content) => PutKeeps(sum, sys.blobs, content);
    case Collect(keep) => CollectKeeps(sum, sys.blobs, keep);
    case Create(id, creates) => CreateKeepsSlot(sum, creates);
    case Move(id, mf) => MoveKeepsInv(sum, resumable, sys, id, mf);
    case _ => if a.id in sys.slots { SlotStepKeeps(sum, resumable, sys, a); }
  }

  lemma PutKeeps(sum: Sum, blobs: Blobs, content: Bytes)
    requires ContentAddressed(sum, blobs)
    ensures ContentAddressed(sum, PutBlob(sum, blobs, content))
  {
  }

  lemma CollectKeeps(sum: Sum, blobs: Blobs, keep: set<Digest>)
    requires ContentAddressed(sum, blobs)
    ensures ContentAddressed(sum, map d | d in blobs && d in keep :: blobs[d])
  {
  }

  lemma CreateKeepsSlot(sum: Sum, creates: bool)
    ensures var n := U.Open(EMPTY, creates); SlotSound(sum, Slot(n.up, true, true, false, Some(n.w), 0, Uploading))
  {
  }

  /** The steps that touch one slot and no blob. */
  lemma SlotStepKeeps(sum: Sum, resumable: bool, sys: System, a: Action)
    requires Inv(sum, sys) && ResumesSound(sys, a)
    requires !a.Put? && !a.Collect? && !a.Create? && !a.Move? && a.id in sys.slots
    ensures Inv(sum, Step(sum, resumable, sys, a))
  {
    var s := sys.slots[a.id];
    match a
    case Io(_, io) => IoKeepsSlot(sum, resumable, s, io);
    case LosingClose(_, f, kept) => LosingKeepsSlot(sum, resumable, s, f, kept);
    case Check(_, want, f) => CheckKeepsSlot(sum, resumable, s, want, f);
    case Resume(_, creates) => ResumeKeepsSlot(sum, s, creates);
    case Cancel(_, f, removed) => CancelKeepsSlot(sum, resumable, s, f, removed);
    case _ =>
  }

  /** Opening a writer on a file that its states fit. */
  lemma ResumeKeepsSlot(sum: Sum, s: Slot, creates: bool)
    requires SlotSound(sum, s) && (s.started && s.w.None? ==> U.StatesSound(s.up))
    ensures SlotSound(sum, ResumeStep(s, creates))
  {
    if s.started && s.w.None? {
      var n := U.Open(s.up, creates);
      assert n.up.Content() == s.up.Content() && U.Cut(n.up, |n.up.Content()|) == n.up;
    }
  }

  /** A close that loses bytes may leave states that do not fit, and an upload that is not intact. */
  lemma LosingKeepsSlot(sum: Sum, resumable: bool, s: Slot, f: U.Faults, kept: nat)
    requires SlotSound(sum, s)
    ensures SlotSound(sum, LosingStep(resumable, s, f, kept))
  {
    if s.w.Some? && !s.detached { U.ClosingKeepsSound(resumable, U.Life(s.up, s.w, s.base), f); }
  }

  lemma CancelKeepsSlot(sum: Sum, resumable: bool, s: Slot, f: U.Faults, removed: bool)
    requires SlotSound(sum, s)
    ensures SlotSound(sum, CancelStep(resumable, s, f, removed))
  {
  }

  lemma MoveKeepsInv(sum: Sum, resumable: bool, sys: System, id: Id, mf: MoveFaults)
    requires Inv(sum, sys)
    ensures Inv(sum, Step(sum, resumable, sys, Move(id, mf)))
  {
    if id in sys.slots && sys.slots[id].phase.Checked? {
      MoveKeeps(sum, sys.blobs, sys.slots[id].up, sys.slots[id].phase.digest, mf);
    }
  }

  /** An upload whose data file was never moved, deleted or cut short by a close can be resumed safely. */
  lemma IntactIsSafe(sum: Sum, sys: System, id: Id, creates: bool)
    requires Inv(sum, sys) && id in sys.slots && sys.slots[id].intact
    ensures ResumesSound(sys, Resume(id, creates))
  {
    assert SlotSound(sum, sys.slots[id]);
  }

  /** Main result: in every run whose resumes find hash states that fit the file, the bytes under a digest
      hash to that digest. */
  lemma {:induction false} RunsAreContentAddressed(sum: Sum, resumable: bool, sys: System, actions: seq<Action>)
    requires Inv(sum, sys) && Guarded(sum, resumable, sys, actions)
    ensures Inv(sum, Run(sum, resumable, sys, actions))
    ensures ContentAddressed(sum, Run(sum, resumable, sys, actions).blobs)
    decreases |actions|
  {
    if actions == [] {
    } else {
      StepKeepsInv(sum, resumable, sys, actions[0]);
      RunsAreContentAddressed(sum, resumable, Step(sum, resumable, sys, actions[0]), actions[1..]);
    }
  }

  // ---------------------------------------------------------------------------------------------
  // What stays in the store

  /** A put adds at most its own content, under its canonical digest, and leaves every blob as it is. */
  lemma PutAddsItsContent(sum: Sum, blobs: Blobs, p: Bytes)
    ensures var d, after := DigestOf(sum, CANONICAL, p), PutBlob(sum, blobs, p);
      && after.Keys == blobs.Keys + {d}
      && (forall e :: e in blobs ==> after[e] == blobs[e])
      && (d !in blobs ==> after[d] == p)
  {
  }

  /** A completed move stores the file, or no bytes for a missing one, under the digest unless there is a blob; one
      that fails changes nothing; and either leaves every other blob as it is. */
  lemma MoveAddsTheFile(sum: Sum, blobs: Blobs, up: U.Upload, d: Digest, f: MoveFaults)
    ensures var (after, up', ok) := MoveBlob(sum, blobs, up, d, f);
      && (!ok ==> after == blobs && up' == up)
      && (ok ==> after.Keys == blobs.Keys + {d})
      && (forall e :: e in blobs ==> e in after && after[e] == blobs[e])
      && (ok && d !in blobs ==> after[d] == up.Content() && up'.data.None?)
      && (d in blobs ==> up' == up)
      && up'.states == up.states
  {
  }

  /** The exact condition of a completed move: the blob was there, or there is a file, or the digest is that of no
      bytes, and no call on the way fails. */
  lemma MoveCompletes(sum: Sum, blobs: Blobs, up: U.Upload, d: Digest, f: MoveFaults)
    ensures MoveBlob(sum, blobs, up, d, f).2 <==>
      && !f.statBlob
      && (d in blobs ||
          (!f.statUpload &&
           if up.data.Some? then !f.move else !f.put && d == DigestOf(sum, Sha256, [])))
  {
  }

  /** One step: only a collection takes blobs away, and it takes exactly those it does not keep; no step changes the
      bytes of a blob. */
  lemma StepKeepsBlobs(sum: Sum, resumable: bool, sys: System, a: Action)
    ensures var after := Step(sum, resumable, sys, a).blobs;
      && (forall e :: e in sys.blobs && (a.Collect? ==> e in a.keep) ==> e in after && after[e] == sys.blobs[e])
      && (a.Collect? ==> forall e :: e in after ==> e in sys.blobs && e in a.keep)
  {
  }

  /** A blob that every collection of a run keeps is there at the end, with the same bytes. */
  lemma {:induction false} RunsKeepBlobs(sum: Sum, resumable: bool, sys: System, actions: seq<Action>, e: Digest)
    requires e in sys.blobs
    requires forall i :: 0 <= i < |actions| && actions[i].Collect? ==> e in actions[i].keep
    ensures e in Run(sum, resumable, sys, actions).blobs
    ensures Run(sum, resumable, sys, actions).blobs[e] == sys.blobs[e]
    decreases |actions|
  {
    if actions == [] {
    } else {
      StepKeepsBlobs(sum, resumable, sys, actions[0]);
      RunsKeepBlobs(sum, resumable, Step(sum, resumable, sys, actions[0]), actions[1..], e);
    }
  }

  /** A step touches no upload but its own. */
  lemma OthersStay(sum: Sum, resumable: bool, sys: System, a: Action, other: Id)
    requires a.Put? || a.Collect? || a.id != other
    ensures
      var sys' := Step(sum, resumable, sys, a);
      (other in sys'.slots <==> other in sys.slots) && (other in sys.slots ==> sys'.slots[other] == sys.slots[other])
  {
  }

  /** What the steps around an upload's life do to its directory: a purge, a finished commit and a cancel that can
      remove it leave nothing, start marker included; a resume needs the marker and that nobody else writes. */
  lemma DirectoriesComeAndGo(sum: Sum, resumable: bool, sys: System, a: Action)
    requires !a.Put? && !a.Collect?
    ensures var sys' := Step(sum, resumable, sys, a);
      a.Create? && a.id !in sys.slots ==>
        && a.id in sys'.slots && sys'.slots[a.id].started && sys'.slots[a.id].w.Some?
        && sys'.slots[a.id].up.Content() == [] && sys'.slots[a.id].up.states == map[]
    ensures a.id in sys.slots ==>
      var s, s' := sys.slots[a.id], Step(sum, resumable, sys, a).slots[a.id];
      && (a.Create? ==> s' == s)
      && (a.Purge? || (a.Finish? && s.phase.Moved?) ==> s'.up == EMPTY && !s'.started)
      && (a.Cancel? && a.removed && s.w.Some? && !s.w.value.closed ==> s'.up == EMPTY && !s'.started)
      && (a.Cancel? && s.w.Some? && !s.w.value.closed ==> s'.up.data.None?)
      && (a.Resume? && s.w.None? ==> (s'.w.Some? <==> s.started))
      && (a.Resume? && s.w.Some? ==> s' == s)
      && (a.Finish? && !s.phase.Moved? ==> s' == s)
  {
  }

  /** A close that loses bytes leaves any part of the file that holds what it held before the writer. */
  lemma LosingCloseLeavesAnyPart(resumable: bool, s: Slot, f: U.Faults, n: nat)
    requires s.w.Some? && U.Buffers(s.w.value) && s.base <= n <= |s.up.Content()|
    ensures var s' := LosingStep(resumable, s, f, n);
      && s'.up.Content() == s.up.Content()[..n] && s'.w.None?
      && s'.up.states == U.Close(resumable, U.Session(s.up, s.w.value), f).0.up.states
      && (s'.intact <==> s.intact && n == |s.up.Content()|)
  {
    assert n == |s.up.Content()| ==> s.up.Content()[..n] == s.up.Content();
  }

  // ---------------------------------------------------------------------------------------------
  // The guard is needed

  lemma {:induction false} RunConcat(sum: Sum, resumable: bool, sys: System, xs: seq<Action>, ys: seq<Action>)
    ensures Run(sum, resumable, sys, xs + ys) == Run(sum, resumable, Run(sum, resumable, sys, xs), ys)
    decreases |xs|
  {
    if xs == [] {
      assert xs + ys == ys;
    } else {
      assert (xs + ys)[1..] == xs[1..] + ys;
      RunConcat(sum, resumable, Step(sum, resumable, sys, xs[0]), xs[1..], ys);
    }
  }

  lemma {:induction false} RunOne(sum: Sum, resumable: bool, sys: System, x: Action)
    ensures Run(sum, resumable, sys, [x]) == Step(sum, resumable, sys, x)
  {
    assert [x][1..] == [];
    var s := Step(sum, resumable, sys, x);
    assert Run(sum, resumable, s, []) == s;
  }

  lemma {:induction false} RunTwo(sum: Sum, resumable: bool, sys: System, x: Action, y: Action)
    ensures Run(sum, resumable, sys, [x, y]) == Step(sum, resumable, Step(sum, resumable, sys, x), y)
  {
    assert [x, y][1..] == [y];
    RunOne(sum, resumable, Step(sum, resumable, sys, x), y);
  }

  /** No writer is open and the directory, still marked as started, holds `up`. */
  ghost predicate Parked(sys: System, id: Id, up: U.Upload) {
    Idle(sys, id) && sys.slots[id].up == up
  }

  function Rewrite(id: Id, p: Bytes): seq<Action> {
    [Resume(id, true), Io(id, U.DoWrite(p, |p|, U.NO_FAULTS))]
  }

  function Conclude(id: Id, want: Digest): seq<Action> {
    [Check(id, Some(want), U.NO_FAULTS), Move(id, MoveFaults(false, false, false, false))]
  }

  /** A writer appends `b` and goes away without closing, losing nothing. */
  function Extend(id: Id, b: Bytes): seq<Action> {
    Rewrite(id, b) + [Io(id, U.Abandon(0))]
  }

  /** A commit that stops after its move. */
  function Stopped(id: Id, want: Digest): seq<Action> {
    [Io(id, U.DoCommitFile(U.NO_FAULTS))] + Conclude(id, want)
  }

  function BreakingRun(sum: Sum, id: Id, a: Bytes, b: Bytes, c: Bytes): seq<Action> {
    Extend(id, b) + (Rewrite(id, c) + Stopped(id, DigestOf(sum, CANONICAL, a + c)))
  }

  /** A first writer appends `b` and goes away without closing. */
  lemma {:induction false} FirstWriter(sum: Sum, sys: System, id: Id, up: U.Upload, b: Bytes)
    requires Parked(sys, id, up)
    ensures
      var sys' := Run(sum, true, sys, Extend(id, b));
      Parked(sys', id, U.Upload(Some(up.Content() + b), up.states)) && sys'.blobs == sys.blobs
  {
    RunConcat(sum, true, sys, Rewrite(id, b), [Io(id, U.Abandon(0))]);
    RunTwo(sum, true, sys, Resume(id, true), Io(id, U.DoWrite(b, |b|, U.NO_FAULTS)));
    assert b[..|b|] == b && (b == [] ==> up.Content() + b == up.Content());
  }

  /** A second writer loads the state at the file's size, whatever it holds, and appends `c`. */
  lemma {:induction false} SecondWriter(sum: Sum, sys: System, id: Id, file: Bytes, states: map<int, Bytes>, c: Bytes)
    requires Parked(sys, id, U.Upload(Some(file), states)) && |file| > 0 && |file| in states
    ensures
      var sys' := Run(sum, true, sys, Rewrite(id, c));
      && sys'.blobs == sys.blobs && id in sys'.slots
      && var s := sys'.slots[id];
         s.w == Some(U.Writer(states[|file|] + c, |file| + |c|, |file| + |c|, false, false, false, false)) &&
         s.up.data == Some(file + c) && !s.detached && s.phase == Uploading
  {
    RunTwo(sum, true, sys, Resume(id, true), Io(id, U.DoWrite(c, |c|, U.NO_FAULTS)));
    assert c[..|c|] == c && (c == [] ==> states[|file|] + c == states[|file|] && file + c == file);
  }

  /** A commit interrupted after its move, of a writer whose hasher holds `h` and counts the whole of
      `file`: the file is filed under the digest of `h`. */
  lemma {:induction false} CommitByHasher(sum: Sum, sys: System, id: Id, h: Bytes, file: Bytes)
    requires id in sys.slots
    requires var s := sys.slots[id];
      s.w == Some(U.Writer(h, |file|, |file|, false, false, false, false)) &&
      s.up.data == Some(file) && !s.detached && s.phase == Uploading
    requires DigestOf(sum, CANONICAL, h) !in sys.blobs
    ensures
      var d := DigestOf(sum, CANONICAL, h);
      var sys' := Run(sum, true, sys, Stopped(id, d));
      && sys'.blobs == sys.blobs[d := file] && id in sys'.slots
      && sys'.slots[id].started == sys.slots[id].started && sys'.slots[id].w.Some?
      && sys'.slots[id].up == U.Upload(None, sys.slots[id].up.states[|file| := h])
  {
    var d := DigestOf(sum, CANONICAL, h);
    RunConcat(sum, true, sys, [Io(id, U.DoCommitFile(U.NO_FAULTS))], Conclude(id, d));
    var s1 := Step(sum, true, sys, Io(id, U.DoCommitFile(U.NO_FAULTS)));
    RunOne(sum, true, sys, Io(id, U.DoCommitFile(U.NO_FAULTS)));
    RunTwo(sum, true, s1, Check(id, Some(d), U.NO_FAULTS), Move(id, MoveFaults(false, false, false, false)));
    assert Step(sum, true, s1, Check(id, Some(d), U.NO_FAULTS)).slots[id].phase == Checked(d);
  }

  /** A writer on a file whose saved state is of other bytes: its commit files the file under theirs. */
  lemma {:induction false} OverwriterBreaks(sum: Sum, sys: System, id: Id, file: Bytes, states: map<int, Bytes>,
          c: Bytes)
    requires Parked(sys, id, U.Upload(Some(file), states)) && |file| > 0 && |file| in states
    requires DigestOf(sum, CANONICAL, states[|file|] + c) !in sys.blobs
    ensures
      var d := DigestOf(sum, CANONICAL, states[|file|] + c);
      var blobs := Run(sum, true, sys, Rewrite(id, c) + Stopped(id, d)).blobs;
      d in blobs && blobs[d] == file + c
  {
    var d := DigestOf(sum, CANONICAL, states[|file|] + c);
    SecondWriter(sum, sys, id, file, states, c);
    CommitByHasher(sum, Run(sum, true, sys, Rewrite(id, c)), id, states[|file|] + c, file + c);
    RunConcat(sum, true, sys, Rewrite(id, c), Stopped(id, d));
  }

  /** Resuming an upload with a state at or beyond the end of its file lets the file grow to that state's
      offset with other bytes, and a commit then files them under the state's digest. */
  lemma {:induction false} UnfitStateBreaks(sum: Sum, sys: System, id: Id, up: U.Upload, o: int, b: Bytes, c: Bytes)
    requires Parked(sys, id, up) && o > 0 && o in up.states && |up.Content() + b| == o
    requires sum(CANONICAL, up.states[o] + c) != sum(CANONICAL, up.Content() + b + c)
    requires DigestOf(sum, CANONICAL, up.states[o] + c) !in sys.blobs
    ensures !ContentAddressed(sum, Run(sum, true, sys, BreakingRun(sum, id, up.states[o], b, c)).blobs)
  {
    var tail := Rewrite(id, c) + Stopped(id, DigestOf(sum, CANONICAL, up.states[o] + c));
    FirstWriter(sum, sys, id, up, b);
    OverwriterBreaks(sum, Run(sum, true, sys, Extend(id, b)), id, up.Content() + b, up.states, c);
    RunConcat(sum, true, sys, Extend(id, b), tail);
  }

  ghost predicate Separates(sum: Sum) {
    forall a, b :: sum(CANONICAL, a) == sum(CANONICAL, b) ==> a == b
  }

  function Filled(n: nat, v: Byte): (r: Bytes)
    ensures |r| == n && forall i :: 0 <= i < n ==> r[i] == v
  {
    seq(n, _ => v)
  }

  /** Bytes that take a file to a length but not to given bytes. */
  lemma OtherBytes(content: Bytes, n: nat, x: Bytes) returns (b: Bytes)
    requires n > 0 || content != x
    ensures |b| == n && content + b != x
  {
    if n == 0 {
      b := [];
      assert content + b == content;
    } else {
      var zeros, ones := Filled(n, 0), Filled(n, 1);
      assert (content + zeros)[|content|] == 0 && (content + ones)[|content|] == 1;
      b := if content + zeros == x then ones else zeros;
    }
  }

  /** The digests of a text followed by up to `n` zeros. */
  ghost function Padded(sum: Sum, x: Bytes, n: nat): set<Digest> {
    if n == 0 then {} else Padded(sum, x, n - 1) + {DigestOf(sum, CANONICAL, x + Filled(n - 1, 0))}
  }

  lemma {:induction false} PaddedIsNew(sum: Sum, x: Bytes, n: nat, m: nat)
    requires Separates(sum) && n <= m
    ensures DigestOf(sum, CANONICAL, x + Filled(m, 0)) !in Padded(sum, x, n)
    decreases n
  {
    if n == 0 {
    } else {
      PaddedIsNew(sum, x, n - 1, m);
      assert |x + Filled(m, 0)| != |x + Filled(n - 1, 0)|;
    }
  }

  lemma {:induction false} PaddedSize(sum: Sum, x: Bytes, n: nat)
    requires Separates(sum)
    ensures |Padded(sum, x, n)| == n
  {
    if n == 0 {
    } else {
      PaddedSize(sum, x, n - 1);
      PaddedIsNew(sum, x, n - 1, n - 1);
    }
  }

  lemma {:induction false} PaddedFrom(sum: Sum, x: Bytes, n: nat, d: Digest) returns (c: Bytes)
    requires d in Padded(sum, x, n)
    ensures d == DigestOf(sum, CANONICAL, x + c)
  {
    if d == DigestOf(sum, CANONICAL, x + Filled(n - 1, 0)) {
      c := Filled(n - 1, 0);
    } else {
      c := PaddedFrom(sum, x, n - 1, d);
    }
  }

  lemma SubsetSize(small: set<Digest>, large: set<Digest>)
    ensures small <= large ==> |small| <= |large|
  {
    if small <= large { assert large == small + (large - small); }
  }

  /** Some continuation of a text has a digest the store does not hold. */
  lemma FreshDigest(sum: Sum, x: Bytes, blobs: Blobs) returns (c: Bytes)
    requires Separates(sum)
    ensures DigestOf(sum, CANONICAL, x + c) !in blobs
  {
    var n := |blobs.Keys| + 1;
    PaddedSize(sum, x, n);
    SubsetSize(Padded(sum, x, n), blobs.Keys);
    var d :| d in Padded(sum, x, n) && d !in blobs.Keys;
    c := PaddedFrom(sum, x, n, d);
  }

  /** The guard is exact: from every upload whose states do not fit its file, resuming it leads to a store
      that is not content-addressed, for any hash without collisions. */
  lemma {:induction false} UnfitResumeBreaks(sum: Sum, sys: System, id: Id)
    requires Separates(sum) && Idle(sys, id) && !U.StatesSound(sys.slots[id].up)
    ensures exists x, b, c :: !ContentAddressed(sum, Run(sum, true, sys, BreakingRun(sum, id, x, b, c)).blobs)
  {
    var up := sys.slots[id].up;
    var o :| o in up.states && o > 0 &&
      !(o <= |up.Content()| && (o == |up.Content()| ==> up.states[o] == up.Content()));
    var x := up.states[o];
    var b := OtherBytes(up.Content(), o - |up.Content()|, x);
    var c := FreshDigest(sum, x, sys.blobs);
    assert x + c != up.Content() + b + c by { TailCancels(x, up.Content() + b, c); }
    UnfitStateBreaks(sum, sys, id, up, o, b, c);
  }

  lemma TailCancels(x: Bytes, y: Bytes, c: Bytes)
    ensures x + c == y + c ==> x == y
  {
    if x + c == y + c {
      assert |x| == |y|;
      assert (x + c)[..|x|] == x && (y + c)[..|y|] == y;
    }
  }

  lemma FreshWriter(sum: Sum, id: Id, a: Bytes)
    requires |a| > 0
    ensures
      var sys := Run(sum, true, INITIAL, [Create(id, true), Io(id, U.DoWrite(a, |a|, U.NO_FAULTS))]);
      && sys.blobs == map[] && id in sys.slots
      && var s := sys.slots[id];
         s.w == Some(U.Writer(a, |a|, |a|, false, false, false, false)) &&
         s.up == U.Upload(Some(a), map[]) && s.started && !s.detached && s.phase == Uploading
  {
    RunTwo(sum, true, INITIAL, Create(id, true), Io(id, U.DoWrite(a, |a|, U.NO_FAULTS)));
    assert a[..|a|] == a && [] + a == a;
  }

  /** A writer writes `a`, commits the file, has its digest checked, moves it, and stops there. */
  function InterruptedCommit(sum: Sum, id: Id, a: Bytes): seq<Action> {
    [Create(id, true), Io(id, U.DoWrite(a, |a|, U.NO_FAULTS))] +
    (Stopped(id, DigestOf(sum, CANONICAL, a)) + [Io(id, U.Abandon(0))])
  }

  /** Such an upload is reachable. */
  lemma InterruptedCommitLeavesState(sum: Sum, id: Id, a: Bytes)
    requires |a| > 0
    ensures Parked(Run(sum, true, INITIAL, InterruptedCommit(sum, id, a)), id, U.Upload(None, map[|a| := a]))
    ensures !U.StatesSound(U.Upload(None, map[|a| := a]))
  {
    var head := [Create(id, true), Io(id, U.DoWrite(a, |a|, U.NO_FAULTS))];
    var tail := Stopped(id, DigestOf(sum, CANONICAL, a));
    RunConcat(sum, true, INITIAL, head, tail + [Io(id, U.Abandon(0))]);
    FreshWriter(sum, id, a);
    var s1 := Run(sum, true, INITIAL, head);
    RunConcat(sum, true, s1, tail, [Io(id, U.Abandon(0))]);
    CommitByHasher(sum, s1, id, a, a);
    AbandonParks(sum, Run(sum, true, s1, tail), id);
    var left := U.Upload(None, map[|a| := a]);
    assert |a| in left.states && left.Content() == [];
  }

  lemma {:induction false} BreaksAfter(sum: Sum, start: System, acts: seq<Action>, id: Id)
    requires Separates(sum)
    requires Idle(Run(sum, true, start, acts), id) && !U.StatesSound(Run(sum, true, start, acts).slots[id].up)
    ensures exists actions :: !ContentAddressed(sum, Run(sum, true, start, actions).blobs)
  {
    var sys := Run(sum, true, start, acts);
    UnfitResumeBreaks(sum, sys, id);
    var x, b, c :| !ContentAddressed(sum, Run(sum, true, sys, BreakingRun(sum, id, x, b, c)).blobs);
    RunConcat(sum, true, start, acts, BreakingRun(sum, id, x, b, c));
  }

  /** So some run from the empty store breaks it, unless the hash has collisions. */
  lemma SomeRunBreaks(sum: Sum, id: Id)
    requires Separates(sum)
    ensures exists actions :: !ContentAddressed(sum, Run(sum, true, INITIAL, actions).blobs)
  {
    InterruptedCommitLeavesState(sum, id, [0]);
    BreaksAfter(sum, INITIAL, InterruptedCommit(sum, id, [0]), id);
  }

  lemma {:induction false} AbandonParks(sum: Sum, sys: System, id: Id)
    requires id in sys.slots && sys.slots[id].started && sys.slots[id].w.Some? && sys.slots[id].up.data.None?
    ensures Parked(Run(sum, true, sys, [Io(id, U.Abandon(0))]), id, U.Upload(None, sys.slots[id].up.states))
  {
    RunOne(sum, true, sys, Io(id, U.Abandon(0)));
    AbandonStep(sum, sys.slots[id]);
  }

  lemma AbandonStep(sum: Sum, s: Slot)
    requires s.w.Some? && s.up.data.None?
    ensures IoStep(sum, true, s, U.Abandon(0)) == s.(w := None, phase := Uploading)
  {
    assert U.Step(sum, true, U.Life(s.up, s.w, s.base), U.Abandon(0)) == U.Life(s.up, None, s.base);
  }
}
