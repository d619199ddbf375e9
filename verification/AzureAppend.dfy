/** Appending to a remote append blob when the outcome of a call can be unknown.

    A refused call may have left any bytes at the end of the blob: nothing, the chunk, a part of it, or
    garbage. There is one writer, and no two byte strings share an MD5 sum. */
module AzureAppend {
  import opened Digests
  import opened Wrappers

  const MAX_CHUNK_SIZE: nat := 4 * 1024 * 1024

  function ChunkSize(left: nat): nat {
    if MAX_CHUNK_SIZE <= left then MAX_CHUNK_SIZE else left
  }

  type Md5 = Bytes -> string

  ghost predicate CollisionFree(md5: Md5) {
    forall a, b :: md5(a) == md5(b) ==> a == b
  }

  datatype Code = AppendPositionNotMet | ConditionNotMet | OtherCode

  datatype Reply = Appended(eTag: int) | Refused(code: Code, timedOut: bool)

  /** One append as the service saw it: whether it named the true end and tag of the blob, how many bytes were sent,
      the reply, and by how much the blob grew. */
  datatype Call = Call(upToDate: bool, sent: nat, reply: Reply, grew: nat)

  /** The outcome is unknown: the caller's deadline passed, and the service then found the blob changed. */
  predicate TimedOut(c: Call) {
    c.reply.Refused? && c.reply.code != OtherCode && c.reply.timedOut
  }

  /** The retries used up by these calls: the timeouts that uploaded nothing since the last one that did. */
  ghost function Retries(calls: seq<Call>): nat {
    if calls == [] then 0
    else
      var c, before := calls[|calls| - 1], Retries(calls[..|calls| - 1]);
      if !TimedOut(c) then before else if c.grew == 0 then before + 1 else 0
  }

  /** The remote blob. Its methods are as permissive as the service: they may refuse, and a refusal says
      nothing about the content. */
  class AppendBlob {
    var content: Bytes
    var eTag: int
    /** The appends so far. */
    ghost var calls: seq<Call>
    /** How many requests for properties or sums failed. */
    ghost var failedQueries: nat

    /** Appends if the position and the entity tag match; a refused call may have appended anything. */
    method AppendBlock(position: int, chunk: Bytes, ifMatch: Option<int>) returns (r: Reply)
      modifies this`content, this`eTag, this`calls
      ensures r.Appended? ==>
        position == |old(content)| && content == old(content) + chunk && eTag == r.eTag &&
        (ifMatch.Some? ==> ifMatch.value == old(eTag))
      ensures r.Refused? ==> old(content) <= content
      ensures |old(content)| <= |content| && calls == old(calls) +
        [Call(position == |old(content)| && (ifMatch.None? || ifMatch.value == old(eTag)), |chunk|, r,
              |content| - |old(content)|)]
    {
      ghost var upToDate := position == |content| && (ifMatch.None? || ifMatch.value == eTag);
      var accept: bool := *;
      var tag: int := *;
      if accept && position == |content| && (ifMatch.None? || ifMatch.value == eTag) {
        content, eTag := content + chunk, tag;
        calls := calls + [Call(upToDate, |chunk|, Appended(tag), |chunk|)];
        return Appended(tag);
      }
      var left: Bytes := *;
      var code: Code := *;
      var timedOut: bool := *;
      content, eTag := content + left, tag;
      calls := calls + [Call(upToDate, |chunk|, Refused(code, timedOut), |left|)];
      return Refused(code, timedOut);
    }

    /** The length and the entity tag, unless the request fails. */
    method GetProperties() returns (r: Option<(int, int)>)
      modifies this`failedQueries
      ensures r.Some? ==> r.value == (|content|, eTag)
      ensures failedQueries == old(failedQueries) + if r.None? then 1 else 0
    {
      var fails: bool := *;
      failedQueries := failedQueries + if fails then 1 else 0;
      return if fails then None else Some((|content|, eTag));
    }

    /** The MD5 sum of a range, unless the request fails. */
    method RangeMd5(md5: Md5, offset: nat, count: nat) returns (r: Option<string>)
      requires offset + count <= |content|
      modifies this`failedQueries
      ensures r.Some? ==> r.value == md5(content[offset..offset + count])
      ensures failedQueries == old(failedQueries) + if r.None? then 1 else 0
    {
      var fails: bool := *;
      failedQueries := failedQueries + if fails then 1 else 0;
      return if fails then None else Some(md5(content[offset..offset + count]));
    }
  }

  /** What the blob tells about a chunk that was to be appended at `position`. */
  datatype Upload = Nothing | Chunk(size: nat) | Corrupted

  function UploadOf(md5: Md5, content: Bytes, position: nat, chunk: Bytes): Upload
    requires position <= |content|
  {
    var count := |content| - position;
    if count == 0 then Nothing
    else if md5(content[position..]) == md5(chunk) then Chunk(count)
    else Corrupted
  }

  /** Without collisions the verdict is exact: the chunk counts as uploaded, with its own size, just when
      the blob is the old content followed by it. */
  lemma UploadIsExact(md5: Md5, content: Bytes, position: nat, chunk: Bytes)
    requires CollisionFree(md5) && position <= |content| && chunk != []
    ensures var u := UploadOf(md5, content, position, chunk);
      && (u.Chunk? <==> content == content[..position] + chunk)
      && (u.Chunk? ==> u.size == |chunk|)
      && (u.Nothing? <==> content == content[..position])
  {
    assert content == content[..position] + content[position..];
    if content == content[..position] + chunk {
      assert content[position..] == chunk;
    }
  }

  /** With a collision a partial upload can pass for the chunk. */
  lemma CollisionMisleads(md5: Md5, base: Bytes, part: Bytes, chunk: Bytes)
    requires part != [] && |part| != |chunk| && md5(part) == md5(chunk)
    ensures UploadOf(md5, base + part, |base|, chunk) == Chunk(|part|)
    ensures base + part != base + chunk
  {
    assert (base + part)[|base|..] == part;
  }

  datatype WriteError = AppendFailed | RetriesExhausted | VerifyFailed | CorruptedData

  class BlockWriter {
    const md5: Md5
    const maxRetries: int
    const blob: AppendBlob
    var size: nat
    var eTag: Option<int>

    constructor (md5: Md5, maxRetries: int, blob: AppendBlob, eTag: Option<int>)
      ensures this.md5 == md5 && this.maxRetries == maxRetries && this.blob == blob
      ensures size == |blob.content|
    {
      this.md5, this.maxRetries, this.blob, this.eTag := md5, maxRetries, blob, eTag;
      size := |blob.content|;
    }

    /** After a timeout: how much of the chunk the blob holds, or why that cannot be told. */
    method ChunkUploadVerify(position: nat, chunk: Bytes) returns (r: Upload, tag: int, err: Option<WriteError>)
      requires position <= |blob.content|
      modifies blob`failedQueries
      ensures err.None? ==> r == UploadOf(md5, blob.content, position, chunk) && !r.Corrupted? && tag == blob.eTag
      ensures err == Some(CorruptedData) ==> UploadOf(md5, blob.content, position, chunk).Corrupted?
      ensures err.Some? ==> err.value == VerifyFailed || err.value == CorruptedData
      ensures blob.failedQueries == old(blob.failedQueries) + if err == Some(VerifyFailed) then 1 else 0
    {
      r, tag, err := Nothing, 0, None;
      var props := blob.GetProperties();
      if props.None? {
        return r, tag, Some(VerifyFailed);
      }
      tag := props.value.1;
      var uploaded := props.value.0 - position;
      if uploaded == 0 {
        return r, tag, None;
      }
      var sum := blob.RangeMd5(md5, position, uploaded);
      assert blob.content[position..position + uploaded] == blob.content[position..];
      if sum.None? {
        return r, tag, Some(VerifyFailed);
      }
      if sum.value != md5(chunk) {
        return r, tag, Some(CorruptedData);
      }
      return Chunk(uploaded), tag, None;
    }

    /** Appends `p` chunk by chunk. Without an error the blob is its old content followed by `p`, once;
        on every return it begins with the old content and the first `n` bytes of `p`. Each turn of the
        loop either uploads bytes or uses up a retry. */
    method Write(p: Bytes) returns (n: nat, err: Option<WriteError>)
      requires CollisionFree(md5) && size == |blob.content|
      modifies this, blob
      ensures err.None? ==> n == |p| && blob.content == old(blob.content) + p && size == |blob.content|
      ensures n <= |p| && old(blob.content) + p[..n] <= blob.content
      ensures size == |old(blob.content)| + n
      // why it gives up: the last append was refused for good, ...
      ensures old(blob.calls) <= blob.calls
      ensures var calls := blob.calls[|old(blob.calls)|..];
        && (err == Some(AppendFailed) <==>
              err.Some? && calls != [] && calls[|calls| - 1].reply.Refused? && !TimedOut(calls[|calls| - 1]))
        && (forall i :: 0 <= i < |calls| - (if err.Some? then 1 else 0) ==>
              calls[i].reply.Appended? || TimedOut(calls[i]))
        // ... or its outcome is unknown and the retries are used up, ...
        && (err == Some(RetriesExhausted) <==>
              err.Some? && calls != [] && TimedOut(calls[|calls| - 1]) &&
              Retries(calls[..|calls| - 1]) >= maxRetries)
      // ... or the blob cannot be asked about it, ...
      ensures err == Some(VerifyFailed) <==> blob.failedQueries > old(blob.failedQueries)
      // ... or it ends with something else than the chunk
      ensures err == Some(CorruptedData) ==>
        && n < |p| && |blob.content| > size
        && blob.content[size..] != p[n..n + ChunkSize(|p| - n)]
      // every append is of a size that the service takes, and none fails for a stale position or tag of the writer's
      ensures forall i :: |old(blob.calls)| <= i < |blob.calls| ==> 0 < blob.calls[i].sent <= MAX_CHUNK_SIZE
      ensures old(eTag) == None || old(eTag) == Some(old(blob.eTag)) ==>
        forall i :: |old(blob.calls)| <= i < |blob.calls| ==> blob.calls[i].upToDate
    {
      n, err := 0, None;
      var retries := 0;
      ghost var start, first, known := blob.content, |blob.calls|, Current();
      assert start + p[..0] == start;
      while n < |p|
        invariant err == None && Holds(p, start, n) && blob.failedQueries == old(blob.failedQueries)
        invariant old(blob.calls) <= blob.calls && Logged(blob.calls, first, known, retries) && (known ==> Current())
        decreases |p| - n, if retries < maxRetries then maxRetries - retries else 0
      {
        ghost var calls := blob.calls;
        ghost var call;
        n, retries, err, call := WriteChunk(p, n, retries, start);
        if err.Some? {
          LastCall(calls, first, known, call);
          return n, err;
        }
        OneMoreCall(calls, first, known, call);
      }
      assert p[..|p|] == p;
    }

    /** The blob holds the first `n` bytes of `p` behind what was there at the start, and the writer knows its size. */
    ghost predicate Holds(p: Bytes, start: Bytes, n: nat)
      reads this, blob
    {
      n <= |p| && blob.content == start + p[..n] && size == |blob.content|
    }

    /** The writer's entity tag, if it has one, is the blob's. */
    ghost predicate Current()
      reads this, blob
    {
      eTag == None || eTag == Some(blob.eTag)
    }

    /** One turn of the loop, with one append. */
    method WriteChunk(p: Bytes, n: nat, retries: int, ghost start: Bytes)
      returns (n': nat, retries': int, err: Option<WriteError>, ghost call: Call)
      requires CollisionFree(md5) && Holds(p, start, n) && n < |p|
      modifies this, blob
      ensures blob.calls == old(blob.calls) + [call] && call.upToDate == old(Current())
      ensures 0 < call.sent <= MAX_CHUNK_SIZE && (err.None? ==> call.reply.Appended? || TimedOut(call))
      ensures err.None? ==> Holds(p, start, n') && Current() && blob.failedQueries == old(blob.failedQueries)
      ensures err.None? ==> retries' == if !TimedOut(call) then retries else if call.grew == 0 then retries + 1 else 0
      ensures err.None? ==> n' > n || (n' == n && retries' == retries + 1 && retries < maxRetries)
      ensures err.Some? ==> n' == n && start + p[..n] <= blob.content && size == |start| + n
      ensures err == Some(AppendFailed) <==> call.reply.Refused? && !TimedOut(call)
      ensures err == Some(RetriesExhausted) <==> TimedOut(call) && retries >= maxRetries
      ensures err == Some(VerifyFailed) <==> blob.failedQueries > old(blob.failedQueries)
      ensures err == Some(CorruptedData) ==>
        |blob.content| > size && blob.content[size..] != p[n..n + ChunkSize(|p| - n)]
    {
      var position := size;
      var chunkSize := ChunkSize(|p| - n);
      var chunk := p[n..n + chunkSize];
      NextChunk(start, p, n, chunkSize);
      ghost var before := blob.content;
      var reply := blob.AppendBlock(position, chunk, eTag);
      call := blob.calls[|blob.calls| - 1];
      n', retries', err := n, retries, None;
      if reply.Appended? {
        n' := n + chunkSize;
        eTag := Some(reply.eTag);
        size := size + chunkSize;
      } else if reply.code == OtherCode || !reply.timedOut {
        err := Some(AppendFailed);
      } else if retries >= maxRetries {
        err := Some(RetriesExhausted);
      } else {
        n', retries', err := Settle(n, retries, chunk, before);
      }
    }

    /** After a timeout with a retry left: the chunk counts as written, or is tried again, or the write ends. */
    method Settle(n: nat, retries: int, chunk: Bytes, ghost before: Bytes)
      returns (n': nat, retries': int, err: Option<WriteError>)
      requires CollisionFree(md5) && chunk != [] && size == |before| && before <= blob.content
      modifies this`size, this`eTag, blob`failedQueries
      ensures err.None? ==> eTag == Some(blob.eTag) && blob.failedQueries == old(blob.failedQueries)
      ensures err.None? ==>
        if |blob.content| == |before| then n' == n && retries' == retries + 1 && size == old(size)
        else n' == n + |chunk| && retries' == 0 && blob.content == before + chunk && size == |blob.content|
      ensures err.Some? ==> n' == n && size == old(size) && (err.value == VerifyFailed || err.value == CorruptedData)
      ensures blob.failedQueries == old(blob.failedQueries) + if err == Some(VerifyFailed) then 1 else 0
      ensures err == Some(CorruptedData) ==> |blob.content| > size && blob.content[size..] != chunk
    {
      assert blob.content[..|before|] == before;
      UploadIsExact(md5, blob.content, size, chunk);
      n', retries' := n, retries;
      var upload, tag, failure := ChunkUploadVerify(size, chunk);
      if failure.Some? {
        return n, retries, failure;
      }
      eTag := Some(tag);
      if upload.Nothing? {
        return n, retries + 1, None;
      }
      size := size + upload.size;
      return n + upload.size, 0, None;
    }
  }

  lemma NextChunk(start: Bytes, p: Bytes, n: nat, k: nat)
    requires n + k <= |p|
    ensures start + p[..n] + p[n..n + k] == start + p[..n + k]
  {
    assert p[..n + k] == p[..n] + p[n..n + k];
  }

  /** The appends a write has made so far and gone on from. */
  ghost predicate Logged(calls: seq<Call>, first: nat, known: bool, retries: int) {
    && first <= |calls| && retries == Retries(calls[first..])
    && (known ==> forall i :: first <= i < |calls| ==> calls[i].upToDate)
    && (forall i :: first <= i < |calls| ==> 0 < calls[i].sent <= MAX_CHUNK_SIZE)
    && (forall i :: first <= i < |calls| ==> calls[i].reply.Appended? || TimedOut(calls[i]))
  }

  lemma OneMoreCall(calls: seq<Call>, first: nat, known: bool, c: Call)
    requires first <= |calls| && Logged(calls, first, known, Retries(calls[first..])) && (known ==> c.upToDate)
    requires 0 < c.sent <= MAX_CHUNK_SIZE && (c.reply.Appended? || TimedOut(c))
    ensures Logged(calls + [c], first, known,
      if !TimedOut(c) then Retries(calls[first..]) else if c.grew == 0 then Retries(calls[first..]) + 1 else 0)
  {
    assert (calls + [c])[first..] == calls[first..] + [c];
    assert (calls[first..] + [c])[..|calls[first..]|] == calls[first..];
  }

  /** The append after which a write gives up. */
  lemma LastCall(calls: seq<Call>, first: nat, known: bool, c: Call)
    requires first <= |calls| && Logged(calls, first, known, Retries(calls[first..]))
    requires (known ==> c.upToDate) && 0 < c.sent <= MAX_CHUNK_SIZE
    ensures var now := (calls + [c])[first..];
      && now != [] && now[|now| - 1] == c && now[..|now| - 1] == calls[first..]
      && (forall i :: 0 <= i < |now| - 1 ==> now[i].reply.Appended? || TimedOut(now[i]))
    ensures forall i :: first <= i <= |calls| ==> 0 < (calls + [c])[i].sent <= MAX_CHUNK_SIZE
    ensures known ==> forall i :: first <= i <= |calls| ==> (calls + [c])[i].upToDate
  {
    assert (calls + [c])[first..] == calls[first..] + [c];
    assert (calls[first..] + [c])[..|calls[first..]|] == calls[first..];
  }
}
