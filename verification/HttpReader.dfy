/** A read-seeker over an HTTP resource: one open response at a time, reopened lazily when a read finds
    that the position has moved.

    The content is stable and unencoded. A server may fail or refuse any request; what it sends in a
    206 response is the range that its Content-Range header names (section 4.2 of RFC 7233), with a
    numeric total; a response with status 204 or 205 or of the 3xx class carries no content. */
module HttpReader {
  import opened Digests
  import opened Wrappers

  datatype ContentRange = Absent | Malformed | Range(start: nat, end: nat, total: nat)

  /** `first` is the position in the content of the first byte of the body, `last` one past its end. */
  datatype Reply = NetworkError | Response(status: int, range: ContentRange, length: int, first: nat, last: nat)

  datatype Whence = SeekStart | SeekCurrent | SeekEnd | OtherWhence
  datatype ReadError = NoError | Eof | Failure

  class Server {
    const content: Bytes
    /** The replies sent, and what the reads of their bodies handed out. */
    ghost var replies: seq<Reply>
    ghost var pulls: seq<(Bytes, ReadError)>

    constructor (content: Bytes)
      ensures this.content == content && replies == [] && pulls == []
    {
      this.content := content;
      replies, pulls := [], [];
    }

    /** A read of an open body at the given position: any number of bytes and any error, but the end only
        at the body's end. */
    method Pull(at: nat, end: nat, n: nat) returns (bytes: Bytes, err: ReadError)
      requires at <= end <= |content|
      modifies this`pulls
      ensures |bytes| <= n && at + |bytes| <= end && bytes == content[at..at + |bytes|]
      ensures err == Eof ==> at + |bytes| == end
      ensures pulls == old(pulls) + [(bytes, err)]
    {
      var k: int := *;
      var sort: ReadError := *;
      var left := end - at;
      k := if 0 <= k <= n && k <= left then k else if n <= left then n else left;
      bytes := content[at..at + k];
      err := if sort == Eof && k < left then NoError else sort;
      pulls := pulls + [(bytes, err)];
    }

    /** A GET, with a range from the given offset to the end or without one. */
    method Get(from: Option<int>) returns (r: Reply)
      modifies this`replies
      ensures replies == old(replies) + [r]
      ensures r.Response? && from.Some? && r.status == 206 && r.range.Range? ==>
        r.range.start <= r.range.end < r.range.total == |content| &&
        r.first == r.range.start && r.last == r.range.end + 1
      ensures r.Response? && from.None? && 200 <= r.status <= 399 ==>
        && r.first == 0 && r.last == (if IsHollow(r) then 0 else |content|)
        && (r.status == 200 ==> r.length == |content| || r.length == -1)
    {
      var status: int := *;
      var fails: bool := *;
      var known: bool := *;
      var start: int := *;
      var end: int := *;
      if fails {
        r := NetworkError;
      } else if from.None? {
        r := Response(status, Absent, if known then |content| else -1, 0, |content|);
        r := if IsHollow(r) then r.(last := 0) else r;
      } else if 0 <= start <= end < |content| {
        r := Response(status, Range(start, end, |content|), -1, start, end + 1);
      } else {
        r := Response(status, if known then Absent else Malformed, -1, 0, 0);
      }
      replies := replies + [r];
    }
  }

  /** A reply that the reader takes for content and that carries none. */
  predicate IsHollow(r: Reply) {
    r.Response? && (r.status == 204 || r.status == 205 || 300 <= r.status <= 399)
  }

  /** A reply that opens the content at the given offset, up to its end. */
  predicate Opens(r: Reply, offset: int) {
    && r.Response? && 200 <= r.status <= 399
    && (offset > 0 ==> r.status == 206 && r.range.Range? && r.range.start == offset && r.range.end + 1 == r.range.total)
  }

  class HttpReadSeeker {
    const server: Server
    var closed: bool
    var size: int
    /** The position of the open response body, if there is one. */
    var rc: Option<nat>
    var bodyEnd: nat
    /** The open response was hollow. */
    ghost var hollow: bool
    var readerOffset: int
    var seekOffset: int

    ghost predicate Valid()
      reads this
    {
      && seekOffset >= 0
      && (rc.Some? && readerOffset >= 0 ==> rc.value == readerOffset)
      && (rc.Some? ==> Fits(rc.value))
      && (closed ==> rc.None?)
    }

    /** An open body lies in the content, and reaches its end unless it is hollow. */
    ghost predicate Fits(position: nat)
      reads this
    {
      && position <= bodyEnd == (if hollow then 0 else |server.content|)
      && (size == -1 || size == |server.content|)
    }

    constructor (server: Server)
      ensures this.server == server && Valid() && seekOffset == 0 && !closed && !hollow
    {
      this.server := server;
      closed, size, rc, readerOffset, seekOffset := false, 0, None, 0, 0;
      bodyEnd, hollow := 0, false;
    }

    method Reset()
      modifies this`rc
      ensures rc == if closed then old(rc) else None
    {
      if !closed {
        rc := None;
      }
    }

    /** Opens a response at `readerOffset` unless one is open. A range response counts only if it starts
        where it was asked to and runs to the end. */
    method Reader() returns (ok: bool)
      requires rc.Some? ==> Fits(rc.value)
      modifies this`rc, this`bodyEnd, this`hollow, this`size, server`replies
      ensures closed || old(rc).Some? ==>
        server.replies == old(server.replies) && hollow == old(hollow) && bodyEnd == old(bodyEnd)
      ensures !closed && old(rc).None? ==>
        |server.replies| == |old(server.replies)| + 1 && old(server.replies) <= server.replies
      ensures !closed && old(rc).None? ==> (ok <==> Opens(server.replies[|server.replies| - 1], readerOffset))
      // any reply up to 399 from the start; elsewhere a partial one that begins there and runs to the end
      ensures !closed && old(rc).None? ==>
        var r := server.replies[|server.replies| - 1];
        ok <==> r.Response? && 200 <= r.status <= 399 &&
                (readerOffset <= 0 || (r.status == 206 && r.range.Range? && r.range.start == readerOffset &&
                                       r.range.end == r.range.total - 1))
      ensures !closed && ok && old(rc).None? ==>
        var r := server.replies[|server.replies| - 1];
        size == if readerOffset > 0 then r.range.total else if r.status == 200 then r.length else -1
      ensures !closed && old(rc).Some? ==> ok && size == old(size)
      ensures ok ==> !closed && rc.Some? && Fits(rc.value)
      ensures ok && old(rc).None? ==> rc.value == if readerOffset > 0 then readerOffset else 0
      ensures ok && old(rc).None? ==> hollow == (readerOffset <= 0 && IsHollow(server.replies[|server.replies| - 1]))
      ensures ok && old(rc).Some? ==> rc == old(rc)
      ensures !ok ==> closed || (old(rc).None? && rc.None?)
      ensures !ok ==> rc == old(rc) && hollow == old(hollow)
    {
      if closed {
        return false;
      }
      if rc.Some? {
        return true;
      }
      var reply := server.Get(if readerOffset > 0 then Some(readerOffset) else None);
      if reply.NetworkError? {
        return false;
      }
      if reply.status < 200 || reply.status > 399 {
        return false;
      }
      if readerOffset > 0 {
        if reply.status != 206 || !reply.range.Range? {
          return false;
        }
        if reply.range.start != readerOffset {
          return false;
        }
        if reply.range.end + 1 != reply.range.total {
          return false;
        }
        size := reply.range.total;
      } else if reply.status == 200 {
        size := reply.length;
      } else {
        size := -1;
      }
      rc, bodyEnd := Some(reply.first), reply.last;
      hollow := readerOffset <= 0 && IsHollow(reply);
      return true;
    }

    /** Reads up to `n` bytes at the logical offset. */
    method Read(n: nat) returns (bytes: Bytes, err: ReadError)
      requires Valid()
      modifies this, server
      ensures Valid() && closed == old(closed)
      ensures old(server.replies) <= server.replies
      ensures !hollow ==> PlainRead(server.content, old(seekOffset), n, bytes, err, seekOffset)
      ensures hollow ==> bytes == [] && seekOffset == old(seekOffset)
      ensures hollow ==>
        (PlainRead(server.content, old(seekOffset), n, bytes, err, seekOffset) <==> err != Eof || server.content == [])
      // the stream is hollow if the reply that opened it was, and that was asked for from the start
      ensures hollow ==
        if server.replies != old(server.replies) && Opens(server.replies[|server.replies| - 1], old(seekOffset))
        then old(seekOffset) == 0 && IsHollow(server.replies[|server.replies| - 1]) else old(hollow)
      ensures closed ==> bytes == [] && err == Failure
      // a stream that is still in place is read on, also after a seek that was undone
      ensures |server.replies| ==
        |old(server.replies)| + if closed || (old(rc).Some? && old(readerOffset) == old(seekOffset)) then 0 else 1
      // what the open stream gave is handed on; otherwise the reader was closed or the reply was no good
      ensures (server.pulls == old(server.pulls) + [(bytes, err)]) ||
        (server.pulls == old(server.pulls) && bytes == [] && err == Failure &&
         (closed || (server.replies != old(server.replies) &&
                     !Opens(server.replies[|server.replies| - 1], old(seekOffset)))))
    {
      bytes, err := [], Failure;
      if closed {
        return;
      }
      if readerOffset != seekOffset {
        Reset();
      }
      readerOffset := seekOffset;
      var ok := Reader();
      if !ok {
        return;
      }
      bytes, err := Advance(n);
    }

    /** Reads on from the open stream, which is in place. */
    method Advance(n: nat) returns (bytes: Bytes, err: ReadError)
      requires Valid() && rc.Some? && readerOffset == seekOffset
      modifies this`rc, this`seekOffset, this`readerOffset, server`pulls
      ensures Valid()
      ensures !hollow ==> PlainRead(server.content, old(seekOffset), n, bytes, err, seekOffset)
      ensures hollow ==> bytes == [] && seekOffset == old(seekOffset)
      ensures hollow ==>
        (PlainRead(server.content, old(seekOffset), n, bytes, err, seekOffset) <==> err != Eof || server.content == [])
      ensures server.pulls == old(server.pulls) + [(bytes, err)]
    {
      bytes, err := server.Pull(rc.value, bodyEnd, n);
      rc := Some(rc.value + |bytes|);
      seekOffset := seekOffset + |bytes|;
      readerOffset := readerOffset + |bytes|;
    }

    method Seek(offset: int, whence: Whence) returns (position: int, ok: bool)
      requires Valid()
      modifies this, server`replies
      ensures Valid() && closed == old(closed)
      ensures old(server.replies) <= server.replies
      ensures hollow ==> old(hollow) || HollowSince(old(server.replies), server.replies)
      ensures PlainSeek(server.content, old(seekOffset), offset, whence, position, ok, seekOffset)
      ensures closed ==> !ok
      // with a response open nothing is requested, and only a bad target or an unknown size fails
      ensures !closed && old(rc).Some? ==>
        server.replies == old(server.replies) && rc == old(rc) && readerOffset == old(readerOffset)
      ensures !closed && old(rc).Some? ==>
        (ok <==> Target(server.content, old(seekOffset), offset, whence) >= 0 && (whence == SeekEnd ==> size >= 0))
      ensures rc.None? ==> readerOffset == old(readerOffset)
      // without one, a seek from the start asks for its target, and any other for where the reader stood
      ensures !closed && old(rc).None? ==>
        && |server.replies| == |old(server.replies)| + 1
        && (ok <==>
              Opens(server.replies[|server.replies| - 1], if whence == SeekStart then offset else old(readerOffset)) &&
              Target(server.content, old(seekOffset), offset, whence) >= 0 && (whence == SeekEnd ==> size >= 0))
    {
      if closed {
        return 0, false;
      }
      var lastReaderOffset := readerOffset;
      if whence == SeekStart && rc.None? {
        readerOffset := offset;
      }
      var open := Reader();
      if !open {
        readerOffset := lastReaderOffset;
        return 0, false;
      }
      var newOffset := seekOffset;
      match whence {
        case SeekCurrent => newOffset := newOffset + offset;
        case SeekEnd =>
          if size < 0 {
            return 0, false;
          }
          newOffset := size + offset;
        case SeekStart => newOffset := offset;
        case OtherWhence =>
      }
      ok := newOffset >= 0;
      if ok {
        seekOffset := newOffset;
      }
      return seekOffset, ok;
    }

    method Close() returns (ok: bool)
      requires Valid()
      modifies this
      ensures Valid() && closed && ok == !old(closed) && seekOffset == old(seekOffset)
    {
      ok := !closed;
      rc, closed := None, true;
    }

    /** Any sequence of operations answers as a plain positioned reader would, exactly when no read reports the
        end of a hollow response to content that is not empty. `hollows` tells of which stream each answer is. */
    method Run(ops: seq<Op>) returns (answers: seq<Answer>, ghost offsets: seq<int>, ghost hollows: seq<bool>)
      requires Valid()
      modifies this, server
      ensures Valid() && old(server.replies) <= server.replies
      ensures |answers| == |hollows| == |ops| && |offsets| == |ops| + 1
      ensures offsets[0] == old(seekOffset) && offsets[|ops|] == seekOffset
      ensures PlainRun(server.content, ops, answers, offsets) <==>
        forall k :: 0 <= k < |ops| ==> !EndsEarly(server.content, answers[k], hollows[k])
      ensures forall k :: 0 <= k < |ops| && hollows[k] ==>
        old(hollow) || HollowSince(old(server.replies), server.replies)
    {
      answers, offsets, hollows := [], [seekOffset], [];
      for i := 0 to |ops|
        invariant Valid() && |answers| == |hollows| == i && |offsets| == i + 1 && old(server.replies) <= server.replies
        invariant hollow ==> old(hollow) || HollowSince(old(server.replies), server.replies)
        invariant offsets[0] == old(seekOffset) && offsets[i] == seekOffset
        invariant forall k :: 0 <= k < i && hollows[k] ==>
          old(hollow) || HollowSince(old(server.replies), server.replies)
        invariant forall k :: 0 <= k < i ==>
          (PlainStep(server.content, offsets[k], ops[k], answers[k], offsets[k + 1]) <==>
           !EndsEarly(server.content, answers[k], hollows[k]))
      {
        ghost var so := server.replies;
        match ops[i] {
          case DoRead(n) =>
            var bytes, err := Read(n);
            answers, offsets := answers + [Data(bytes, err)], offsets + [seekOffset];
          case DoSeek(offset, whence) =>
            var position, ok := Seek(offset, whence);
            answers, offsets := answers + [Position(position, ok)], offsets + [seekOffset];
        }
        hollows := hollows + [hollow];
        HollowGrows(old(server.replies), so, server.replies);
      }
      StepsMakeRun(server.content, ops, answers, offsets, hollows);
    }
  }

  /** The end of a hollow response is reported as the end of content that is not empty. */
  predicate EndsEarly(content: Bytes, a: Answer, hollow: bool) {
    a.Data? && hollow && a.err == Eof && content != []
  }

  lemma StepsMakeRun(content: Bytes, ops: seq<Op>, answers: seq<Answer>, offsets: seq<int>, hollows: seq<bool>)
    requires |answers| == |hollows| == |ops| && |offsets| == |ops| + 1
    requires forall k :: 0 <= k < |ops| ==>
      (PlainStep(content, offsets[k], ops[k], answers[k], offsets[k + 1]) <==>
       !EndsEarly(content, answers[k], hollows[k]))
    ensures PlainRun(content, ops, answers, offsets) <==>
      forall k :: 0 <= k < |ops| ==> !EndsEarly(content, answers[k], hollows[k])
  {
    if PlainRun(content, ops, answers, offsets) {
      forall k | 0 <= k < |ops| ensures !EndsEarly(content, answers[k], hollows[k]) {
        assert PlainStep(content, offsets[k], ops[k], answers[k], offsets[k + 1]);
      }
    } else {
      var k :| 0 <= k < |ops| && !PlainStep(content, offsets[k], ops[k], answers[k], offsets[k + 1]);
      assert EndsEarly(content, answers[k], hollows[k]);
    }
  }

  /** Some reply sent in between was hollow. */
  ghost predicate HollowSince(before: seq<Reply>, now: seq<Reply>) {
    exists i :: |before| <= i < |now| && IsHollow(now[i])
  }

  lemma HollowGrows(a: seq<Reply>, b: seq<Reply>, c: seq<Reply>)
    requires a <= b <= c
    ensures HollowSince(a, c) <==> HollowSince(a, b) || HollowSince(b, c)
  {
    assert forall i :: 0 <= i < |b| ==> b[i] == c[i];
  }

  // ---------------------------------------------------------------------------------------------
  // The plain positioned reader

  /** A read hands out the content at the offset, however much it likes, and moves past it; the end is
      reported only at the end. */
  ghost predicate PlainRead(content: Bytes, offset: int, n: nat, bytes: Bytes, err: ReadError, offset': int) {
    && offset >= 0 && |bytes| <= n && offset' == offset + |bytes|
    && (bytes == [] || (offset' <= |content| && bytes == content[offset..offset']))
    && (err == Eof ==> offset' == |content|)
  }

  function Target(content: Bytes, offset: int, delta: int, whence: Whence): int {
    match whence
    case SeekStart => delta
    case SeekCurrent => offset + delta
    case SeekEnd => |content| + delta
    case OtherWhence => offset
  }

  /** A seek moves to its target or fails and stays; it always fails before the start. */
  ghost predicate PlainSeek(content: Bytes, offset: int, delta: int, whence: Whence, position: int, ok: bool,
          offset': int)
  {
    && (ok ==>
          Target(content, offset, delta, whence) >= 0 && position == offset' == Target(content, offset, delta, whence))
    && (!ok ==> offset' == offset)
  }

  datatype Op = DoRead(n: nat) | DoSeek(offset: int, whence: Whence)
  datatype Answer = Data(bytes: Bytes, err: ReadError) | Position(position: int, ok: bool)

  ghost predicate PlainStep(content: Bytes, offset: int, op: Op, a: Answer, offset': int) {
    match op
    case DoRead(n) => a.Data? && PlainRead(content, offset, n, a.bytes, a.err, offset')
    case DoSeek(delta, whence) => a.Position? && PlainSeek(content, offset, delta, whence, a.position, a.ok, offset')
  }

  function AllBytes(answers: seq<Answer>): Bytes {
    if answers == [] then []
    else (if answers[0].Data? then answers[0].bytes else []) + AllBytes(answers[1..])
  }

  ghost predicate PlainRun(content: Bytes, ops: seq<Op>, answers: seq<Answer>, offsets: seq<int>) {
    && |answers| == |ops| && |offsets| == |ops| + 1
    && forall i :: 0 <= i < |ops| ==> PlainStep(content, offsets[i], ops[i], answers[i], offsets[i + 1])
  }

  /** Reads in a row hand out one contiguous piece of the content, with nothing lost or repeated. */
  lemma {:induction false} ReadsAreContiguous(content: Bytes, ops: seq<Op>, answers: seq<Answer>, offsets: seq<int>)
    requires PlainRun(content, ops, answers, offsets) && 0 <= offsets[0] <= |content|
    requires forall i :: 0 <= i < |ops| ==> ops[i].DoRead?
    ensures offsets[0] <= offsets[|ops|] <= |content|
    ensures AllBytes(answers) == content[offsets[0]..offsets[|ops|]]
    decreases |ops|
  {
    if ops == [] {
    } else {
      assert PlainStep(content, offsets[0], ops[0], answers[0], offsets[0 + 1]);
      forall i | 0 <= i < |ops[1..]|
        ensures PlainStep(content, offsets[1..][i], ops[1..][i], answers[1..][i], offsets[1..][i + 1])
      {
        assert PlainStep(content, offsets[i + 1], ops[i + 1], answers[i + 1], offsets[i + 1 + 1]);
      }
      ReadsAreContiguous(content, ops[1..], answers[1..], offsets[1..]);
    }
  }
}
