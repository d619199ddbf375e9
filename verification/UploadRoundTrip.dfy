/** From the client's pieces to the stored blob: an upload whose writer is closed and resumed between any two pieces,
    and committed in the end. */
module UploadRoundTrip {
  import opened Digests
  import opened Wrappers
  import opened BlobRuns
  import U = Upload

  /** One request with content: whether it is copied from a stream or written at once, and whether the driver creates
      missing files. */
  datatype Piece = Piece(bytes: Bytes, copied: bool, creates: bool)

  function Content(pieces: seq<Piece>): Bytes {
    if pieces == [] then [] else pieces[0].bytes + Content(pieces[1..])
  }

  function Transfer(p: Piece): U.Action {
    if p.copied then U.DoReadFrom(p.bytes, |p.bytes|, U.NO_FAULTS) else U.DoWrite(p.bytes, |p.bytes|, U.NO_FAULTS)
  }

  /** The steps of a request: resume, transfer, close, and the writer goes. */
  function Request(id: Id, p: Piece): seq<Action> {
    [Resume(id, p.creates), Io(id, Transfer(p)), Io(id, U.DoClose(U.NO_FAULTS)), Io(id, U.Abandon(0))]
  }

  function Requests(id: Id, pieces: seq<Piece>): seq<Action> {
    if pieces == [] then [] else Request(id, pieces[0]) + Requests(id, pieces[1..])
  }

  /** The last request: the file is committed, checked against the client's digest, and moved. */
  function Commit(id: Id, creates: bool, want: Digest): seq<Action> {
    [Resume(id, creates), Io(id, U.DoCommitFile(U.NO_FAULTS)), Check(id, Some(want), U.NO_FAULTS),
     Move(id, NO_MOVE_FAULTS)]
  }

  /** The first request: an upload is created, and its writer goes. */
  function Begin(id: Id, creates: bool): seq<Action> {
    [Create(id, creates), Io(id, U.DoClose(U.NO_FAULTS)), Io(id, U.Abandon(0))]
  }

  function Upload(id: Id, creates: bool, pieces: seq<Piece>, want: Digest): seq<Action> {
    Begin(id, creates) + (Requests(id, pieces) + Commit(id, creates, want))
  }

  /** Between requests: a resumable upload without a writer, with the given content and states that fit. */
  ghost predicate Rests(sys: System, id: Id, content: Bytes) {
    && id in sys.slots && sys.slots[id].started && sys.slots[id].w.None?
    && sys.slots[id].up.Content() == content && U.StatesSound(sys.slots[id].up)
  }

  // ---------------------------------------------------------------------------------------------
  // One request

  lemma {:induction false} RunThree(sum: Sum, resumable: bool, sys: System, a: Action, b: Action, c: Action)
    ensures Run(sum, resumable, sys, [a, b, c]) ==
      Step(sum, resumable, Step(sum, resumable, Step(sum, resumable, sys, a), b), c)
  {
    var s1 := Step(sum, resumable, sys, a);
    var s2 := Step(sum, resumable, s1, b);
    assert [a, b, c][1..] == [b, c] && [b, c][1..] == [c] && [c][1..] == [];
    RunOne(sum, resumable, s2, c);
    assert Run(sum, resumable, s1, [b, c]) == Run(sum, resumable, s2, [c]);
  }

  lemma {:induction false} RunFour(sum: Sum, resumable: bool, sys: System, a: Action, b: Action, c: Action, d: Action)
    ensures Run(sum, resumable, sys, [a, b, c, d]) ==
      Step(sum, resumable, Step(sum, resumable, Step(sum, resumable, Step(sum, resumable, sys, a), b), c), d)
  {
    var s1 := Step(sum, resumable, sys, a);
    assert [a, b, c, d][1..] == [b, c, d];
    RunThree(sum, resumable, s1, b, c, d);
  }

  /** A writer's life from its opening on a fitting directory. */
  ghost function Opened(up: U.Upload, creates: bool): U.Life {
    var s := U.Open(up, creates); U.Life(s.up, Some(s.w), |up.Content()|)
  }

  lemma OpenedIsSound(up: U.Upload, creates: bool)
    requires U.StatesSound(up)
    ensures U.LifeSound(Opened(up, creates))
  {
    var l := Opened(up, creates);
    assert l.up.Content() == up.Content() && U.Cut(l.up, l.base) == l.up;
  }

  /** Close, and the writer goes: all of the file stays and the states fit it. */
  lemma LeaveKeeps(sum: Sum, resumable: bool, l: U.Life)
    requires U.LifeSound(l) && l.w.Some? && U.IsOpen(l.w.value) && !l.w.value.done
    ensures
      var l1 := U.Step(sum, resumable, l, U.DoClose(U.NO_FAULTS));
      var l2 := U.Step(sum, resumable, l1, U.Abandon(0));
      l1.w.Some? && l2.w.None? && l2.up.Content() == l.up.Content() && U.StatesSound(l2.up)
  {
    var l1 := U.Step(sum, resumable, l, U.DoClose(U.NO_FAULTS));
    U.CloseOutcome(resumable, U.Session(l.up, l.w.value), U.NO_FAULTS);
    U.StepKeepsSound(sum, resumable, l, U.DoClose(U.NO_FAULTS));
    U.CrashTakesAnyTail(l1, 0, 0);
    U.StepKeepsSound(sum, resumable, l1, U.Abandon(0));
  }

  /** The transfer appends the piece. */
  lemma TransferAppends(sum: Sum, resumable: bool, l: U.Life, p: Piece)
    requires U.LifeSound(l) && l.w.Some? && U.IsOpen(l.w.value) && !l.w.value.done
    ensures
      var l1 := U.Step(sum, resumable, l, Transfer(p));
      && U.LifeSound(l1) && l1.w.Some? && U.IsOpen(l1.w.value) && !l1.w.value.done
      && l1.up.Content() == l.up.Content() + p.bytes
  {
    var s := U.Session(l.up, l.w.value);
    U.StepKeepsSound(sum, resumable, l, Transfer(p));
    U.ResumeOutcomes(resumable, s, U.NO_FAULTS);
    U.HasherAbsorbs(resumable, s, p.bytes, |p.bytes|, U.NO_FAULTS);
    assert p.bytes[..|p.bytes|] == p.bytes;
  }

  /** A step on an upload that still has its file is the step of its life. */
  lemma IoIsLife(sum: Sum, resumable: bool, sys: System, id: Id, io: U.Action)
    requires id in sys.slots && !sys.slots[id].detached && !io.Resume?
    ensures
      var s := sys.slots[id];
      var sys', l := Step(sum, resumable, sys, Io(id, io)), U.Step(sum, resumable, U.Life(s.up, s.w, s.base), io);
      && sys'.blobs == sys.blobs && id in sys'.slots
      && sys'.slots[id] == s.(up := l.up, w := l.w, phase := if l.w.None? then Uploading else s.phase)
      && l.base == s.base
  {
  }

  lemma ResumeOpens(sum: Sum, resumable: bool, sys: System, id: Id, creates: bool)
    requires id in sys.slots && sys.slots[id].started && sys.slots[id].w.None?
    ensures
      var sys', l := Step(sum, resumable, sys, Resume(id, creates)), Opened(sys.slots[id].up, creates);
      && sys'.blobs == sys.blobs && id in sys'.slots
      && var s' := sys'.slots[id];
         s'.started && !s'.detached && s'.phase.Uploading? && U.Life(s'.up, s'.w, s'.base) == l
  {
    assert U.Open(sys.slots[id].up, creates).up.Content() == sys.slots[id].up.Content();
  }

  lemma {:induction false} OneRequest(sum: Sum, resumable: bool, sys: System, id: Id, p: Piece, content: Bytes)
    requires Rests(sys, id, content)
    ensures var sys' := Run(sum, resumable, sys, Request(id, p));
      Rests(sys', id, content + p.bytes) && sys'.blobs == sys.blobs
  {
    var close, leave := U.DoClose(U.NO_FAULTS), U.Abandon(0);
    RunFour(sum, resumable, sys, Resume(id, p.creates), Io(id, Transfer(p)), Io(id, close), Io(id, leave));
    ResumeOpens(sum, resumable, sys, id, p.creates);
    var s1 := Step(sum, resumable, sys, Resume(id, p.creates));
    var l1 := Opened(sys.slots[id].up, p.creates);
    OpenedIsSound(sys.slots[id].up, p.creates);
    U.OpenStartsAtTheEnd(sys.slots[id].up, p.creates);
    IoIsLife(sum, resumable, s1, id, Transfer(p));
    TransferAppends(sum, resumable, l1, p);
    Leaves(sum, resumable, Step(sum, resumable, s1, Io(id, Transfer(p))), id);
  }

  /** Close, and the writer goes. */
  lemma Leaves(sum: Sum, resumable: bool, sys: System, id: Id)
    requires id in sys.slots && sys.slots[id].started && !sys.slots[id].detached
    requires var s := sys.slots[id];
      U.LifeSound(U.Life(s.up, s.w, s.base)) && s.w.Some? && U.IsOpen(s.w.value) && !s.w.value.done
    ensures
      var s1 := Step(sum, resumable, sys, Io(id, U.DoClose(U.NO_FAULTS)));
      var s2 := Step(sum, resumable, s1, Io(id, U.Abandon(0)));
      Rests(s2, id, sys.slots[id].up.Content()) && s2.blobs == sys.blobs
  {
    var s := sys.slots[id];
    IoIsLife(sum, resumable, sys, id, U.DoClose(U.NO_FAULTS));
    var s1 := Step(sum, resumable, sys, Io(id, U.DoClose(U.NO_FAULTS)));
    IoIsLife(sum, resumable, s1, id, U.Abandon(0));
    LeaveKeeps(sum, resumable, U.Life(s.up, s.w, s.base));
  }

  lemma {:induction false} AllRequests(sum: Sum, resumable: bool, sys: System, id: Id, pieces: seq<Piece>,
          content: Bytes)
    requires Rests(sys, id, content)
    ensures var sys' := Run(sum, resumable, sys, Requests(id, pieces));
      Rests(sys', id, content + Content(pieces)) && sys'.blobs == sys.blobs
    decreases |pieces|
  {
    if pieces == [] {
      assert content + [] == content;
    } else {
      OneRequest(sum, resumable, sys, id, pieces[0], content);
      var sys1 := Run(sum, resumable, sys, Request(id, pieces[0]));
      AllRequests(sum, resumable, sys1, id, pieces[1..], content + pieces[0].bytes);
      RunConcat(sum, resumable, sys, Request(id, pieces[0]), Requests(id, pieces[1..]));
      Associate(content, pieces[0].bytes, Content(pieces[1..]));
    }
  }

  lemma {:induction false} Begins(sum: Sum, resumable: bool, sys: System, id: Id, creates: bool)
    requires id !in sys.slots
    ensures var sys' := Run(sum, resumable, sys, Begin(id, creates)); Rests(sys', id, []) && sys'.blobs == sys.blobs
  {
    RunThree(sum, resumable, sys, Create(id, creates), Io(id, U.DoClose(U.NO_FAULTS)), Io(id, U.Abandon(0)));
    OpenedIsSound(EMPTY, creates);
    U.OpenStartsAtTheEnd(EMPTY, creates);
    Leaves(sum, resumable, Step(sum, resumable, sys, Create(id, creates)), id);
  }

  // ---------------------------------------------------------------------------------------------
  // The commit

  /** The blobs after a commit of `content` against `want`. */
  ghost function Stored(sum: Sum, blobs: Blobs, content: Bytes, want: Digest): Blobs {
    var d := DigestOf(sum, CANONICAL, content);
    if want != DigestOf(sum, want.alg, content) || d in blobs then blobs else blobs[d := content]
  }

  lemma CheckDecides(sum: Sum, resumable: bool, l: U.Life, want: Digest)
    requires U.LifeSound(l) && l.w.Some? && U.IsOpen(l.w.value) && !l.w.value.done
    ensures
      var l1 := U.Step(sum, resumable, l, U.DoCommitFile(U.NO_FAULTS));
      && l1.w.Some? && l1.w.value.flushed && l1.up.data == l.up.data
      && U.Validate(sum, resumable, U.Session(l1.up, l1.w.value), Some(want), U.NO_FAULTS).1 ==
           U.Rehash(sum, l.up.Content(), want)
  {
    var l1 := U.Step(sum, resumable, l, U.DoCommitFile(U.NO_FAULTS));
    U.StepKeepsSound(sum, resumable, l, U.DoCommitFile(U.NO_FAULTS));
    U.CommitFileOutcome(resumable, U.Session(l.up, l.w.value), U.NO_FAULTS);
    U.ResumeKeepsSound(resumable, U.Session(l1.up, l1.w.value), U.NO_FAULTS);
  }

  lemma {:induction false} CommitStores(sum: Sum, resumable: bool, sys: System, id: Id, creates: bool, want: Digest,
          content: Bytes)
    requires Rests(sys, id, content)
    ensures Run(sum, resumable, sys, Commit(id, creates, want)).blobs == Stored(sum, sys.blobs, content, want)
  {
    var file, check := U.DoCommitFile(U.NO_FAULTS), Check(id, Some(want), U.NO_FAULTS);
    RunFour(sum, resumable, sys, Resume(id, creates), Io(id, file), check, Move(id, NO_MOVE_FAULTS));
    ResumeOpens(sum, resumable, sys, id, creates);
    var s1 := Step(sum, resumable, sys, Resume(id, creates));
    var l1 := Opened(sys.slots[id].up, creates);
    OpenedIsSound(sys.slots[id].up, creates);
    U.OpenStartsAtTheEnd(sys.slots[id].up, creates);
    IoIsLife(sum, resumable, s1, id, file);
    CheckDecides(sum, resumable, l1, want);
    MoveStores(sum, resumable, Step(sum, resumable, s1, Io(id, file)), id, want, content);
  }

  lemma MoveStores(sum: Sum, resumable: bool, sys: System, id: Id, want: Digest, content: Bytes)
    requires id in sys.slots && sys.slots[id].w.Some? && sys.slots[id].w.value.flushed && sys.slots[id].phase.Uploading?
    requires sys.slots[id].up.Content() == content
    requires var s := sys.slots[id];
      U.Validate(sum, resumable, U.Session(s.up, s.w.value), Some(want), U.NO_FAULTS).1 == U.Rehash(sum, content, want)
    ensures
      var s1 := Step(sum, resumable, sys, Check(id, Some(want), U.NO_FAULTS));
      Step(sum, resumable, s1, Move(id, NO_MOVE_FAULTS)).blobs == Stored(sum, sys.blobs, content, want)
  {
    var s1 := Step(sum, resumable, sys, Check(id, Some(want), U.NO_FAULTS));
    var d := DigestOf(sum, CANONICAL, content);
    assert s1.blobs == sys.blobs && s1.slots[id].up == sys.slots[id].up;
    if want == DigestOf(sum, want.alg, content) {
      assert s1.slots[id].phase == Checked(d);
      MoveAddsTheFile(sum, sys.blobs, s1.slots[id].up, d, NO_MOVE_FAULTS);
      MoveCompletes(sum, sys.blobs, s1.slots[id].up, d, NO_MOVE_FAULTS);
      var after := MoveBlob(sum, sys.blobs, s1.slots[id].up, d, NO_MOVE_FAULTS).0;
      assert after == Stored(sum, sys.blobs, content, want);
    }
  }

  /** Main result: whatever is sent in however many pieces, with the writer closed and resumed between them and with or
      without resumable hashes, is stored under its canonical digest if the client's digest matches it, unless there
      is such a blob; if it does not match, nothing is stored. Nothing else in the store changes. */
  lemma {:induction false} UploadStoresContent(sum: Sum, resumable: bool, sys: System, id: Id, creates: bool,
          pieces: seq<Piece>, want: Digest)
    requires id !in sys.slots
    ensures Run(sum, resumable, sys, Upload(id, creates, pieces, want)).blobs ==
      Stored(sum, sys.blobs, Content(pieces), want)
  {
    Begins(sum, resumable, sys, id, creates);
    var s1 := Run(sum, resumable, sys, Begin(id, creates));
    AllRequests(sum, resumable, s1, id, pieces, []);
    assert [] + Content(pieces) == Content(pieces);
    var s2 := Run(sum, resumable, s1, Requests(id, pieces));
    CommitStores(sum, resumable, s2, id, creates, want, Content(pieces));
    RunConcat(sum, resumable, s1, Requests(id, pieces), Commit(id, creates, want));
    RunConcat(sum, resumable, sys, Begin(id, creates), Requests(id, pieces) + Commit(id, creates, want));
  }
}
