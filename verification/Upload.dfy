/** A resumable blob upload, as values: what storage keeps for one upload id, what the writer
    object keeps in memory, and what each operation does to the two.

    A hash state is modelled by the bytes absorbed so far, so marshalling a hasher saves those
    bytes and unmarshalling restores them. Storage failures are inputs (`Faults`). */
module Upload {
  import opened Digests
  import opened Wrappers

  /** The upload directory: the data file, absent until a driver creates it, and the saved hash
      states by offset. */
  datatype Upload = Upload(data: Option<Bytes>, states: map<int, Bytes>) {
    function Content(): Bytes {
      if data.Some? then data.value else []
    }
  }

  /** The writer object. `hasher` is what the digester has absorbed, `written` what the writer
      believes it has absorbed, and `size`, `closed`, `flushed` and `cancelled` belong to the
      driver's file writer. `done` is set by a completed commit. */
  datatype Writer = Writer(hasher: Bytes, written: int, size: int,
                           closed: bool, flushed: bool, cancelled: bool, done: bool)

  datatype Session = Session(up: Upload, w: Writer)

  /** Which storage calls fail with something other than "path not found". */
  datatype Faults = Faults(list: bool, get: bool, put: bool, stat: bool, read: bool)

  const NO_FAULTS := Faults(false, false, false, false, false)

  datatype Resumed = Ready | NotAvailable | Failed

  function Open(up: Upload, creates: bool): Session {
    var data := if up.data.None? && creates then Some([]) else up.data;
    Session(up.(data := data), Writer([], 0, |up.Content()|, false, false, false, false))
  }

  /** Brings the hasher to the current size by loading the state saved under it. With no such
      state the hasher is reset while `written` is left as it was. */
  function ResumeDigest(resumable: bool, s: Session, f: Faults): (r: (Writer, Resumed)) {
    var w := s.w;
    if !resumable then (w, NotAvailable)
    else if w.size == w.written then (w, Ready)
    else if f.list then (w, Failed)
    else if w.size == 0 || w.size !in s.up.states then
      (w.(hasher := []), if w.size - w.written > 0 then NotAvailable else Ready)
    else if f.get then (w, Failed)
    else (w.(hasher := s.up.states[w.size], written := w.size), Ready)
  }

  /** The file writer takes the first `accepted` bytes, or none when it is no longer open. */
  function Taken(w: Writer, p: Bytes, accepted: nat): nat {
    if w.closed || w.flushed || w.cancelled then 0
    else if accepted < |p| then accepted else |p|
  }

  function AppendFile(s: Session, p: Bytes, k: nat): Session
    requires k <= |p|
  {
    if k == 0 then s
    else Session(s.up.(data := Some(s.up.Content() + p[..k])), s.w.(size := s.w.size + k))
  }

  predicate IsOpen(w: Writer) {
    !w.closed && !w.flushed && !w.cancelled
  }

  /** One `Write`: the file takes a prefix of `p`; only a complete write reaches the hasher. */
  function Write(resumable: bool, s: Session, p: Bytes, accepted: nat, f: Faults): (r: (Session, bool)) {
    var (w, resumed) := ResumeDigest(resumable, s, f);
    var s1 := s.(w := w);
    if resumed.Failed? then (s1, false)
    else
      var k := Taken(w, p, accepted);
      var s2 := AppendFile(s1, p, k);
      if k < |p| || !IsOpen(w) then (s2, false)
      else (s2.(w := s2.w.(hasher := s2.w.hasher + p, written := s2.w.written + |p|)), true)
  }

  /** One `ReadFrom`: every byte the file takes also reaches the hasher, even when a later byte
      of the stream is refused. */
  function ReadFrom(resumable: bool, s: Session, p: Bytes, accepted: nat, f: Faults): (r: (Session, bool)) {
    var (w, resumed) := ResumeDigest(resumable, s, f);
    var s1 := s.(w := w);
    if resumed.Failed? then (s1, false)
    else
      var k := Taken(w, p, accepted);
      var s2 := AppendFile(s1, p, k);
      (s2.(w := s2.w.(hasher := s2.w.hasher + p[..k], written := s2.w.written + k)), k == |p|)
  }

  /** `Close` saves the hash state under `written` before it closes the file writer. */
  function Close(resumable: bool, s: Session, f: Faults): (r: (Session, bool)) {
    if s.w.done then (s, false)
    else if resumable && f.put then (s, false)
    else
      var up := if resumable then s.up.(states := s.up.states[s.w.written := s.w.hasher]) else s.up;
      (Session(up, s.w.(closed := true)), !s.w.closed)
  }

  /** The driver's commit followed by `Close`, whose error is dropped. */
  function CommitFile(resumable: bool, s: Session, f: Faults): (r: (Session, bool)) {
    if !IsOpen(s.w) then (s, false)
    else (Close(resumable, s.(w := s.w.(flushed := true)), f).0, true)
  }

  /** `Cancel` removes the data file and closes the writer, which saves a hash state once more; then it
      removes the directory, unless that fails. */
  function Cancel(resumable: bool, s: Session, f: Faults, removed: bool): (r: (Session, bool)) {
    if s.w.closed then (s, false)
    else
      var c := Close(resumable, Session(s.up.(data := None), s.w.(cancelled := true, closed := true)), f).0;
      (if removed then c.(up := Upload(None, map[])) else c, removed)
  }

  datatype Validation = Valid(digest: Digest, size: int) | BadDigest | BadLength | StorageError

  /** Checks the file against the client's digest by the resumed hash, by the `written == size`
      shortcut, or by reading the file again. */
  function Validate(sum: Sum, resumable: bool, s: Session, want: Option<Digest>, f: Faults)
    : (r: (Writer, Validation))
  {
    if want.None? then (s.w, BadDigest)
    else if f.stat then (s.w, StorageError)
    else
      var size := |s.up.Content()|;
      var claimed := if s.up.data.None? then 0 else s.w.size;
      if claimed > 0 && claimed != size then (s.w, BadLength)
      else
        var (w, resumed) := ResumeDigest(resumable, s, f);
        var canonical := DigestOf(sum, CANONICAL, w.hasher);
        if resumed.Failed? then (w, StorageError)
        else if resumed.Ready? && want.value.alg == CANONICAL then
          (w, if want.value == canonical then Valid(canonical, size) else BadDigest)
        else if w.written == size && want.value.alg == CANONICAL && want.value == canonical then
          (w, Valid(canonical, size))
        else if f.read then (w, StorageError)
        else (w, Rehash(sum, s.up.Content(), want.value))
  }

  /** The simple specification: hash the whole file under the client's algorithm. */
  function Rehash(sum: Sum, content: Bytes, want: Digest): Validation {
    if want == DigestOf(sum, want.alg, content)
    then Valid(DigestOf(sum, CANONICAL, content), |content|)
    else BadDigest
  }

  // ---------------------------------------------------------------------------------------------
  // What every operation keeps

  /** No saved state lies beyond the file, and one at the file's size has absorbed the file.
      States below the file's size may hold anything, and the one at zero is never loaded. */
  ghost predicate StatesSound(up: Upload) {
    forall o :: o in up.states && o > 0 ==>
      o <= |up.Content()| && (o == |up.Content()| ==> up.states[o] == up.Content())
  }

  ghost predicate Sound(s: Session) {
    && s.w.size == |s.up.Content()|
    && 0 <= s.w.written <= s.w.size
    && (s.w.written == s.w.size ==> s.w.hasher == s.up.Content())
    && StatesSound(s.up)
  }

  lemma ResumeKeepsSound(resumable: bool, s: Session, f: Faults)
    requires Sound(s)
    ensures
      var (w, r) := ResumeDigest(resumable, s, f);
      && Sound(s.(w := w))
      && (r.Ready? ==> w.hasher == s.up.Content() && w.written == w.size)
  {
  }

  lemma WriteKeepsSound(resumable: bool, s: Session, p: Bytes, accepted: nat, f: Faults)
    requires Sound(s)
    ensures Sound(Write(resumable, s, p, accepted, f).0)
  {
    ResumeKeepsSound(resumable, s, f);
    var (w, r) := ResumeDigest(resumable, s, f);
    var k := Taken(w, p, accepted);
    if k == |p| { assert p[..k] == p; }
  }

  lemma ReadFromKeepsSound(resumable: bool, s: Session, p: Bytes, accepted: nat, f: Faults)
    requires Sound(s)
    ensures Sound(ReadFrom(resumable, s, p, accepted, f).0)
  {
    ResumeKeepsSound(resumable, s, f);
  }

  // ---------------------------------------------------------------------------------------------
  // Whole runs of one upload

  /** `Resume` opens a writer on whatever the directory holds; `Abandon` drops the writer without closing
      it, as a crash would, and up to `lost` of the bytes it appended with it. */
  datatype Action =
    | Resume(creates: bool)
    | DoWrite(p: Bytes, accepted: nat, f: Faults)
    | DoReadFrom(p: Bytes, accepted: nat, f: Faults)
    | DoClose(f: Faults)
    | DoCommitFile(f: Faults)
    | DoValidate(want: Option<Digest>, f: Faults)
    | Abandon(lost: nat)

  /** `base` is the file's size when the writer was opened. */
  datatype Life = Life(up: Upload, w: Option<Writer>, base: nat)

  const FRESH := Life(Upload(None, map[]), None, 0)

  /** The directory after the file was cut back to its first `n` bytes. */
  function Cut(up: Upload, n: nat): Upload {
    if up.data.None? || |up.data.value| <= n then up else up.(data := Some(up.data.value[..n]))
  }

  /** The writer's bytes may still be in a buffer. */
  predicate Buffers(w: Writer) {
    !w.closed && !w.flushed
  }

  /** How much of the file a crash leaves for sure: all of it once the writer has closed or committed, and
      what was there before it otherwise. */
  function Durable(l: Life): nat {
    if l.w.Some? && Buffers(l.w.value) && l.base < |l.up.Content()| then l.base else |l.up.Content()|
  }

  function Crash(l: Life, lost: nat): Upload {
    var n := |l.up.Content()| - lost;
    Cut(l.up, if n < Durable(l) then Durable(l) else n)
  }

  /** One writer at a time: `Resume` waits until the last writer is gone. */
  function Step(sum: Sum, resumable: bool, l: Life, a: Action): (r: Life) {
    if a.Resume? then
      if l.w.Some? then l else var s := Open(l.up, a.creates); Life(s.up, Some(s.w), |s.up.Content()|)
    else if l.w.None? then l
    else
      var s := Session(l.up, l.w.value);
      match a
      case DoWrite(p, accepted, f) => var s' := Write(resumable, s, p, accepted, f).0; Life(s'.up, Some(s'.w), l.base)
      case DoReadFrom(p, accepted, f) =>
        var s' := ReadFrom(resumable, s, p, accepted, f).0; Life(s'.up, Some(s'.w), l.base)
      case DoClose(f) => var s' := Close(resumable, s, f).0; Life(s'.up, Some(s'.w), l.base)
      case DoCommitFile(f) => var s' := CommitFile(resumable, s, f).0; Life(s'.up, Some(s'.w), l.base)
      case DoValidate(want, f) => l.(w := Some(Validate(sum, resumable, s, want, f).0))
      case Abandon(lost) => Life(Crash(l, lost), None, l.base)
  }

  function Run(sum: Sum, resumable: bool, l: Life, actions: seq<Action>): (r: Life)
    decreases |actions|
  {
    if actions == [] then l
    else Run(sum, resumable, Step(sum, resumable, l, actions[0]), actions[1..])
  }

  /** Until a writer closes or commits, the saved states also fit what the file held before it. */
  ghost predicate LifeSound(l: Life) {
    && StatesSound(l.up)
    && (l.w.Some? ==> Sound(Session(l.up, l.w.value)) && l.base <= |l.up.Content()|)
    && (l.w.Some? && Buffers(l.w.value) ==> StatesSound(Cut(l.up, l.base)))
  }

  /** Cutting the file anywhere behind the base keeps its states fitting. */
  lemma CutKeepsSound(up: Upload, base: nat, n: nat)
    requires StatesSound(Cut(up, base)) && base <= n
    ensures StatesSound(Cut(up, n)) || n >= |up.Content()|
  {
    if n < |up.Content()| {
      forall o | o in up.states && o > 0
        ensures o <= n && (o == n ==> up.states[o] == Cut(up, n).Content())
      {
        assert o in Cut(up, base).states;
      }
    }
  }

  lemma AppendKeepsBase(s: Session, p: Bytes, k: nat, base: nat)
    requires k <= |p| && base <= |s.up.Content()|
    ensures Cut(AppendFile(s, p, k).up, base).Content() == Cut(s.up, base).Content()
    ensures AppendFile(s, p, k).up.states == s.up.states
    ensures s.up.Content() <= AppendFile(s, p, k).up.Content()
  {
  }

  /** Writing and copying append to the file and leave the states alone. */
  lemma WritingAppends(resumable: bool, s: Session, p: Bytes, accepted: nat, f: Faults, base: nat)
    requires base <= |s.up.Content()|
    ensures var s' := Write(resumable, s, p, accepted, f).0;
      && s'.up.states == s.up.states && s.up.Content() <= s'.up.Content()
      && Cut(s'.up, base).Content() == Cut(s.up, base).Content()
      && s'.w.closed == s.w.closed && s'.w.flushed == s.w.flushed
      && ReadFrom(resumable, s, p, accepted, f).0.up == s'.up
      && ReadFrom(resumable, s, p, accepted, f).0.w.closed == s.w.closed
      && ReadFrom(resumable, s, p, accepted, f).0.w.flushed == s.w.flushed
  {
    var (w, r) := ResumeDigest(resumable, s, f);
    AppendKeepsBase(s.(w := w), p, Taken(w, p, accepted), base);
  }

  /** What a step keeps: the fit of states and file, and every byte that is durable. */
  lemma StepKeepsSound(sum: Sum, resumable: bool, l: Life, a: Action)
    requires LifeSound(l)
    ensures LifeSound(Step(sum, resumable, l, a))
    ensures l.up.Content()[..Durable(l)] <= Step(sum, resumable, l, a).up.Content()
    ensures Durable(l) <= Durable(Step(sum, resumable, l, a))
  {
    if a.Resume? {
      OpeningKeepsSound(l, a.creates);
    } else if l.w.Some? {
      match a
      case DoWrite(p, accepted, f) => WritingKeepsSound(resumable, l, p, accepted, f);
      case DoReadFrom(p, accepted, f) => WritingKeepsSound(resumable, l, p, accepted, f);
      case DoValidate(want, f) => ValidatingKeepsSound(sum, resumable, l, want, f);
      case DoClose(f) => ClosingKeepsSound(resumable, l, f);
      case DoCommitFile(f) => ClosingKeepsSound(resumable, l, f);
      case Abandon(lost) => CrashKeepsSound(l, lost);
    }
  }

  lemma OpeningKeepsSound(l: Life, creates: bool)
    requires LifeSound(l)
    ensures l.w.None? ==>
      var s := Open(l.up, creates);
      var l' := Life(s.up, Some(s.w), |s.up.Content()|);
      LifeSound(l') && l'.up.Content() == l.up.Content() && Durable(l') == |l.up.Content()|
  {
    assert Cut(Open(l.up, creates).up, |l.up.Content()|) == Open(l.up, creates).up;
  }

  lemma WritingKeepsSound(resumable: bool, l: Life, p: Bytes, accepted: nat, f: Faults)
    requires LifeSound(l) && l.w.Some?
    ensures
      var s := Session(l.up, l.w.value);
      var wrote, copied := Write(resumable, s, p, accepted, f).0, ReadFrom(resumable, s, p, accepted, f).0;
      var lw, lc := Life(wrote.up, Some(wrote.w), l.base), Life(copied.up, Some(copied.w), l.base);
      && LifeSound(lw) && l.up.Content() <= lw.up.Content() && Durable(l) <= Durable(lw)
      && LifeSound(lc) && l.up.Content() <= lc.up.Content() && Durable(l) <= Durable(lc)
  {
    var s := Session(l.up, l.w.value);
    WriteKeepsSound(resumable, s, p, accepted, f);
    ReadFromKeepsSound(resumable, s, p, accepted, f);
    WritingAppends(resumable, s, p, accepted, f, l.base);
  }

  lemma ValidatingKeepsSound(sum: Sum, resumable: bool, l: Life, want: Option<Digest>, f: Faults)
    requires LifeSound(l) && l.w.Some?
    ensures
      var w := Validate(sum, resumable, Session(l.up, l.w.value), want, f).0;
      LifeSound(l.(w := Some(w))) && w.closed == l.w.value.closed && w.flushed == l.w.value.flushed
  {
    ResumeKeepsSound(resumable, Session(l.up, l.w.value), f);
  }

  lemma ClosingKeepsSound(resumable: bool, l: Life, f: Faults)
    requires LifeSound(l) && l.w.Some?
    ensures
      var s := Session(l.up, l.w.value);
      var closed, committed := Close(resumable, s, f).0, CommitFile(resumable, s, f).0;
      && LifeSound(Life(closed.up, Some(closed.w), l.base)) && closed.up.data == l.up.data
      && LifeSound(Life(committed.up, Some(committed.w), l.base)) && committed.up.data == l.up.data
  {
  }

  /** A crash takes only what was not durable, and the states still fit. */
  lemma CrashKeepsSound(l: Life, lost: nat)
    requires LifeSound(l) && l.w.Some?
    ensures StatesSound(Crash(l, lost))
    ensures l.up.Content()[..Durable(l)] <= Crash(l, lost).Content() <= l.up.Content()
  {
    if Buffers(l.w.value) && l.base < |l.up.Content()| {
      var n := |l.up.Content()| - lost;
      CutKeepsSound(l.up, l.base, if n < l.base then l.base else n);
    }
  }

  lemma {:induction false} RunKeepsSound(sum: Sum, resumable: bool, l: Life, actions: seq<Action>)
    requires LifeSound(l)
    ensures LifeSound(Run(sum, resumable, l, actions))
    ensures l.up.Content()[..Durable(l)] <= Run(sum, resumable, l, actions).up.Content()
    ensures Durable(l) <= Durable(Run(sum, resumable, l, actions))
    decreases |actions|
  {
    if actions == [] {
    } else {
      var l' := Step(sum, resumable, l, actions[0]);
      StepKeepsSound(sum, resumable, l, actions[0]);
      RunKeepsSound(sum, resumable, l', actions[1..]);
      assert l.up.Content()[..Durable(l)] <= l'.up.Content()[..Durable(l')];
    }
  }

  // ---------------------------------------------------------------------------------------------
  // Main results

  /** After any run, a successful `ResumeDigest` leaves the hasher holding exactly the file. */
  lemma {:induction false} ResumedHasherHoldsFile(sum: Sum, resumable: bool, actions: seq<Action>, f: Faults)
    ensures
      var l := Run(sum, resumable, FRESH, actions);
      l.w.Some? ==>
        var (w, r) := ResumeDigest(resumable, Session(l.up, l.w.value), f);
        r.Ready? ==> w.hasher == l.up.Content() && w.written == |l.up.Content()|
  {
    RunKeepsSound(sum, resumable, FRESH, actions);
    var l := Run(sum, resumable, FRESH, actions);
    if l.w.Some? {
      ResumeKeepsSound(resumable, Session(l.up, l.w.value), f);
    }
  }

  /** The file takes a prefix of the bytes offered and nothing else; an operation reports success exactly
      when it takes them all. A complete `Write` whose digest was resumed leaves the hasher at the file. */
  lemma OperationsAppend(resumable: bool, s: Session, p: Bytes, accepted: nat, f: Faults)
    requires Sound(s)
    ensures
      var (sw, wrote) := Write(resumable, s, p, accepted, f);
      var (sr, read) := ReadFrom(resumable, s, p, accepted, f);
      && (wrote ==> sw.up.Content() == s.up.Content() + p && read)
      && (exists k :: 0 <= k <= |p| && sw.up.Content() == s.up.Content() + p[..k])
      && sr.up == sw.up && sr.w.size == sw.w.size == |sw.up.Content()|
      && (read <==> sr.up.Content() == s.up.Content() + p && (p == [] ==> !ResumeDigest(resumable, s, f).1.Failed?))
      && (ResumeDigest(resumable, s, f).1.Ready? && wrote ==> sw.w.hasher == sw.up.Content())
      && (ResumeDigest(resumable, s, f).1.Ready? ==> sr.w.hasher == sr.up.Content())
      && (IsOpen(s.w) && |p| <= accepted && f == NO_FAULTS ==> wrote)
  {
    ResumeKeepsSound(resumable, s, f);
    var (w, resumed) := ResumeDigest(resumable, s, f);
    var k := if resumed.Failed? then 0 else Taken(w, p, accepted);
    assert p[..0] == [] && p[..|p|] == p && s.up.Content() + [] == s.up.Content();
    assert Write(resumable, s, p, accepted, f).0.up.Content() == s.up.Content() + p[..k];
  }

  /** Opening keeps the file, creates an empty one only for a driver that does so, and starts a writer that is open,
      at the end of the file, with an empty hasher. */
  lemma OpenStartsAtTheEnd(up: Upload, creates: bool)
    ensures var s := Open(up, creates);
      && s.up.Content() == up.Content() && s.up.states == up.states
      && (s.up.data.Some? <==> creates || up.data.Some?)
      && IsOpen(s.w) && !s.w.done && s.w.size == |up.Content()| && s.w.written == 0 && s.w.hasher == []
  {
  }

  /** When a resume is ready, not available or failed, for any writer whose hasher is at most at the file's end. It is
      ready if the hasher is there already, or a state saved under the size can be listed and read; without such a
      state the hasher starts anew while the written count stays. */
  lemma ResumeOutcomes(resumable: bool, s: Session, f: Faults)
    requires Sound(s)
    ensures
      var (w, r) := ResumeDigest(resumable, s, f);
      var there := s.w.size > 0 && s.w.size in s.up.states;
      && (r.Ready? <==> resumable && (s.w.written == s.w.size || (!f.list && there && !f.get)))
      && (r.Failed? <==> resumable && s.w.written < s.w.size && (f.list || (there && f.get)))
      && (r.Failed? || !resumable || s.w.written == s.w.size ==> w == s.w)
      && (r.Ready? && s.w.written < s.w.size ==> w == s.w.(hasher := s.up.states[s.w.size], written := s.w.size))
      && (r.NotAvailable? && resumable ==> w == s.w.(hasher := []))
      && w.size == s.w.size && (IsOpen(w) <==> IsOpen(s.w)) && w.done == s.w.done
  {
  }

  /** A write succeeds exactly when the resume does not fail and the open file takes all; then the hasher absorbs the
      bytes, and otherwise none. A copy gives the hasher what the file took. */
  lemma HasherAbsorbs(resumable: bool, s: Session, p: Bytes, accepted: nat, f: Faults)
    ensures
      var (w, r) := ResumeDigest(resumable, s, f);
      var (sw, wrote) := Write(resumable, s, p, accepted, f);
      var (sr, read) := ReadFrom(resumable, s, p, accepted, f);
      var k := if r.Failed? || !IsOpen(s.w) then 0 else if accepted < |p| then accepted else |p|;
      && (wrote <==> !r.Failed? && IsOpen(s.w) && |p| <= accepted)
      && sw.w.hasher == (if wrote then w.hasher + p else w.hasher)
      && sw.w.written == w.written + (if wrote then |p| else 0)
      && (read <==> !r.Failed? && (p == [] || (IsOpen(s.w) && |p| <= accepted)))
      && sr.w.hasher == w.hasher + p[..k] && sr.w.written == w.written + k
      && sr.up.Content() == sw.up.Content() == s.up.Content() + p[..k]
      && sr.w.size == sw.w.size == s.w.size + k
  {
    assert p[..0] == [] && p[..|p|] == p;
    var w := ResumeDigest(resumable, s, f).0;
    assert w.hasher + [] == w.hasher && s.up.Content() + [] == s.up.Content();
  }

  /** A close succeeds exactly for an open file whose commit is not complete and whose state, if there is one to
      save, can be saved. It saves the state under the written count and touches nothing else in the directory. */
  lemma CloseOutcome(resumable: bool, s: Session, f: Faults)
    ensures
      var (s', ok) := Close(resumable, s, f);
      var saved := !s.w.done && !(resumable && f.put);
      && (ok <==> saved && !s.w.closed)
      && s'.w == s.w.(closed := s.w.closed || saved)
      && s'.up.data == s.up.data
      && s'.up.states == if resumable && saved then s.up.states[s.w.written := s.w.hasher] else s.up.states
  {
  }

  /** The driver's commit works exactly on an open file, ends the writer's life and touches no byte of the file. */
  lemma CommitFileOutcome(resumable: bool, s: Session, f: Faults)
    ensures
      var (s', ok) := CommitFile(resumable, s, f);
      && (ok <==> IsOpen(s.w))
      && (ok ==> s'.w.flushed && (s'.w.closed <==> !s.w.done && !(resumable && f.put)))
      && (!ok ==> s' == s)
      && s'.up.data == s.up.data && s'.w.size == s.w.size && s'.w.hasher == s.w.hasher && s'.w.written == s.w.written
  {
  }

  /** A cancel of an open upload takes the data file, and the whole directory if that can be removed. */
  lemma CancelOutcome(resumable: bool, s: Session, f: Faults, removed: bool)
    ensures
      var (s', ok) := Cancel(resumable, s, f, removed);
      && (ok <==> !s.w.closed && removed)
      && (s.w.closed ==> s' == s)
      && (!s.w.closed ==> s'.up.data.None? && s'.w.cancelled && s'.w.closed)
      && (ok ==> s'.up.data.None? && s'.up.states == map[])
      && (!s.w.closed && !removed ==> forall o :: o in s.up.states && o != s.w.written ==>
            o in s'.up.states && s'.up.states[o] == s.up.states[o])
  {
  }

  /** When a check gives no verdict: the size cannot be had, the resume fails, or the file must be read and cannot. It
      is read again unless the hash was resumed for the client's algorithm, or stands at the end and matches. */
  lemma ValidateOutcome(sum: Sum, resumable: bool, s: Session, want: Option<Digest>, f: Faults)
    requires Sound(s)
    ensures
      var (w, r) := ResumeDigest(resumable, s, f);
      var (w', v) := Validate(sum, resumable, s, want, f);
      var matches := want.Some? && want.value.alg == CANONICAL &&
        (r.Ready? || (w.written == w.size && want.value == DigestOf(sum, CANONICAL, s.up.Content())));
      && (v == StorageError <==> want.Some? && (f.stat || r.Failed? || (!matches && f.read)))
      && v != BadLength
      && w' == if want.None? || f.stat then s.w else w
  {
    ResumeKeepsSound(resumable, s, f);
  }

  /** A crash can leave any part of the file that holds what it held before the open writer, and nothing less; once the
      writer has closed or committed, it takes nothing. */
  lemma CrashTakesAnyTail(l: Life, lost: nat, n: nat)
    requires l.w.Some? && l.base <= |l.up.Content()|
    ensures Crash(l, lost).states == l.up.states && Crash(l, lost).data.Some? == l.up.data.Some?
    ensures Buffers(l.w.value) && l.base <= n <= |l.up.Content()| ==>
      Crash(l, |l.up.Content()| - n).Content() == l.up.Content()[..n]
    ensures Buffers(l.w.value) ==> l.up.Content()[..l.base] <= Crash(l, lost).Content() <= l.up.Content()
    ensures !Buffers(l.w.value) ==> Crash(l, lost).Content() == l.up.Content()
  {
    assert n == |l.up.Content()| ==> l.up.Content()[..n] == l.up.Content();
  }

  /** What each step of a life does: a writer is opened when there is none, writing and copying append what the file
      takes, closing and committing end the writer, checking leaves the file and its states alone, and a crash leaves
      no writer. */
  lemma StepsTakeEffect(sum: Sum, resumable: bool, l: Life, a: Action)
    ensures
      var l' := Step(sum, resumable, l, a);
      && (a.Resume? && l.w.None? ==>
            && l'.w.Some? && IsOpen(l'.w.value) && l'.base == |l.up.Content()|
            && l'.up.Content() == l.up.Content() && l'.up.states == l.up.states)
      && ((a.Resume? <==> l.w.Some?) ==> l' == l)
    ensures
      !a.Resume? && l.w.Some? ==>
        var l', s := Step(sum, resumable, l, a), Session(l.up, l.w.value);
        && (a.Abandon? ==> l'.w.None? && l'.up == Crash(l, a.lost))
        && (a.DoWrite? ==> (l'.up, l'.w) == var s' := Write(resumable, s, a.p, a.accepted, a.f).0; (s'.up, Some(s'.w)))
        && (a.DoReadFrom? ==>
              (l'.up, l'.w) == var s' := ReadFrom(resumable, s, a.p, a.accepted, a.f).0; (s'.up, Some(s'.w)))
        && (a.DoClose? && Close(resumable, s, a.f).1 ==> l'.w.Some? && l'.w.value.closed && l'.up.data == l.up.data)
        && (a.DoCommitFile? && IsOpen(s.w) ==> l'.w.Some? && l'.w.value.flushed && l'.up.data == l.up.data)
        && (a.DoValidate? ==> l'.up == l.up && l'.w.Some? && l'.w.value.size == s.w.size)
  {
  }

  /** Resuming works: after a close of a writer whose hasher is at the file, the next writer loads that
      state at its first operation. */
  lemma CloseThenResume(s: Session, creates: bool)
    requires Sound(s) && s.w.written == s.w.size && !s.w.done
    ensures
      var closed := Close(true, s, NO_FAULTS).0;
      var (w, r) := ResumeDigest(true, Open(closed.up, creates), NO_FAULTS);
      r.Ready? && w.hasher == s.up.Content() && w.written == |s.up.Content()|
  {
  }

  /** A state saved below what is durable is never at the file's size again, whatever follows. */
  lemma {:induction false} StaleStateNeverMatches(sum: Sum, resumable: bool, before: seq<Action>,
          after: seq<Action>, o: int)
    requires o < Durable(Run(sum, resumable, FRESH, before))
    ensures
      var l := Run(sum, resumable, Run(sum, resumable, FRESH, before), after);
      && o < |l.up.Content()|
      && (l.w.Some? ==> l.w.value.size != o)
  {
    RunKeepsSound(sum, resumable, FRESH, before);
    RunKeepsSound(sum, resumable, Run(sum, resumable, FRESH, before), after);
  }

  /** Over every reachable writer, the three routes of `Validate` decide as a full re-read would.
      A storage fault can only turn the answer into a storage error. */
  lemma {:induction false} ValidateRefinesRehash(sum: Sum, resumable: bool, actions: seq<Action>,
          want: Option<Digest>, f: Faults)
    ensures
      var l := Run(sum, resumable, FRESH, actions);
      l.w.Some? ==>
        var v := Validate(sum, resumable, Session(l.up, l.w.value), want, f).1;
        var spec := if want.None? then BadDigest else Rehash(sum, l.up.Content(), want.value);
        && (v == spec || v == StorageError)
        && (f == NO_FAULTS ==> v == spec)
  {
    RunKeepsSound(sum, resumable, FRESH, actions);
    var l := Run(sum, resumable, FRESH, actions);
    if l.w.Some? {
      ResumeKeepsSound(resumable, Session(l.up, l.w.value), f);
    }
  }

  /** A close saves the hash state before the file writer flushes. If that flush leaves only the first
      `kept` bytes, no fewer than the file had before the writer, the directory is sound exactly when the
      state lies below them, or at their end and has absorbed them. So a resumed writer's close is sound
      exactly when nothing is lost. */
  lemma LosingCloseIsUnsound(l: Life, kept: nat)
    requires LifeSound(l) && l.w.Some? && Buffers(l.w.value) && !l.w.value.done && l.base <= kept <= |l.up.Content()|
    ensures
      var w := l.w.value;
      var up := Cut(Close(true, Session(l.up, w), NO_FAULTS).0.up, kept);
      && (StatesSound(up) <==>
            w.written == 0 || w.written < kept || (w.written == kept && w.hasher == l.up.Content()[..kept]))
      && (w.written == w.size ==> (StatesSound(up) <==> kept == w.size))
  {
    var w := l.w.value;
    var up := Cut(Close(true, Session(l.up, w), NO_FAULTS).0.up, kept);
    assert up.Content() == l.up.Content()[..kept] && up.states == l.up.states[w.written := w.hasher];
    CutKeepsSound(l.up, l.base, kept);
    assert w.written in up.states;
    forall o | o in up.states && o > 0 && o != w.written
      ensures o <= kept && (o == kept ==> up.states[o] == up.Content())
    {
      assert o in l.up.states && o in Cut(l.up, kept).states;
    }
  }

  lemma {:induction false} RunFour(sum: Sum, l: Life, a: Action, b: Action, c: Action, d: Action)
    ensures Run(sum, true, l, [a, b, c, d]) ==
      Step(sum, true, Step(sum, true, Step(sum, true, Step(sum, true, l, a), b), c), d)
  {
    var l1 := Step(sum, true, l, a);
    var l2 := Step(sum, true, l1, b);
    var l3 := Step(sum, true, l2, c);
    assert [a, b, c, d][1..] == [b, c, d] && [b, c, d][1..] == [c, d] && [c, d][1..] == [d] && [d][1..] == [];
    assert Run(sum, true, l2, [c, d]) == Run(sum, true, l3, [d]) == Step(sum, true, l3, d);
    assert Run(sum, true, l, [a, b, c, d]) == Run(sum, true, l1, [b, c, d]) == Run(sum, true, l2, [c, d]);
  }

  /** An ordinary run: a writer writes a byte, closes and goes away. */
  lemma OneByte(sum: Sum)
    ensures Run(sum, true, FRESH, [Resume(true), DoWrite([1], 1, NO_FAULTS), DoClose(NO_FAULTS), Abandon(0)]).up ==
      Upload(Some([1]), map[1 := [1]])
  {
    RunFour(sum, FRESH, Resume(true), DoWrite([1], 1, NO_FAULTS), DoClose(NO_FAULTS), Abandon(0));
    var w := Writer([], 0, 0, false, false, false, false);
    var up1, up2, up3 := Upload(Some([]), map[]), Upload(Some([1]), map[]), Upload(Some([1]), map[1 := [1]]);
    var l1, l2 := Life(up1, Some(w), 0), Life(up2, Some(w.(hasher := [1], written := 1, size := 1)), 0);
    var one: Bytes := [1];
    assert one[..1] == one && [] + one == one;
    assert Step(sum, true, FRESH, Resume(true)) == l1;
    assert Step(sum, true, l1, DoWrite([1], 1, NO_FAULTS)) == l2;
    var l3 := Life(up3, Some(l2.w.value.(closed := true)), 0);
    assert Step(sum, true, l2, DoClose(NO_FAULTS)) == l3;
    assert Step(sum, true, l3, Abandon(0)).up == up3;
  }

  /** The argument rests on durable bytes never going. Were the file of that run then to lose its tail, the
      state saved at the old size would be matched by different bytes. */
  lemma ShrinkingBreaksResume(sum: Sum)
    ensures
      var l := Run(sum, true, FRESH, [Resume(true), DoWrite([1], 1, NO_FAULTS), DoClose(NO_FAULTS), Abandon(0)]);
      var shrunk := l.up.(data := Some([]));
      var s := Write(true, Open(shrunk, true), [2], 1, NO_FAULTS).0;
      var (w, r) := ResumeDigest(true, Open(s.up, true), NO_FAULTS);
      r.Ready? && w.hasher != s.up.Content()
  {
    OneByte(sum);
    var shrunk := Upload(Some([]), map[1 := [1]]);
    var two: Bytes := [2];
    assert two[..1] == two && [] + two == two;
    assert Write(true, Open(shrunk, true), two, 1, NO_FAULTS).0.up == Upload(Some(two), map[1 := [1]]);
  }
}
