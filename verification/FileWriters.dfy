/** The filesystem driver's file writer: a file, a write buffer in front of it, and the flags that end its
    life. The file may refuse bytes at any time; the buffer then keeps the error for good.

    It is the file writer that `Upload` assumes: its size counts every accepted byte, and a crash or a failed
    close leaves the file cut somewhere behind what it held before. */
module FileWriters {
  import opened Digests
  import opened Wrappers
  import U = Upload

  const BUFFER_SIZE: nat := 4096

  datatype Status = Done | AlreadyClosed | AlreadyCommitted | AlreadyCancelled | FileError

  class FileWriter {
    /** What is in the file, and whether it is still in its directory. */
    var file: Bytes
    var present: bool
    var buffer: Bytes
    /** The buffer's error, which never goes away. */
    var broken: bool
    var size: nat
    var closed: bool
    var committed: bool
    var cancelled: bool

    /** What the file had when the writer was opened, and what was accepted since. */
    ghost const initial: Bytes
    ghost var accepted: Bytes

    ghost predicate Valid()
      reads this
    {
      && |buffer| <= BUFFER_SIZE
      && size == |initial| + |accepted|
      && initial <= file && file <= initial + accepted
      && (!broken && !cancelled ==> file + buffer == initial + accepted)
      && (cancelled ==> closed) && (!present ==> cancelled)
      && (committed && !cancelled ==> file == initial + accepted && buffer == [])
    }

    /** An upload session whose file and file writer are this one: the file is what was accepted. */
    ghost function As(s: U.Session): U.Session
      reads this
    {
      U.Session(s.up.(data := Some(initial + accepted)),
                s.w.(size := size, closed := closed, flushed := committed, cancelled := cancelled))
    }

    /** What is in the file is the accepted content, cut behind what was there before the writer. A crash leaves
        just that. */
    lemma FileIsCut(s: U.Session)
      requires Valid()
      ensures U.Cut(As(s).up, |file|).data == Some(file) && |initial| <= |file|
    {
      var whole := initial + accepted;
      assert whole[..|file|] == file && whole[..|whole|] == whole;
    }

    lemma CutsOf()
      requires Valid()
      ensures forall s :: U.Cut(As(s).up, |file|).data == Some(file)
    {
      forall s ensures U.Cut(As(s).up, |file|).data == Some(file) {
        FileIsCut(s);
      }
    }

    constructor (existing: Bytes)
      ensures Valid() && file == initial == existing && accepted == [] && size == |existing|
      ensures present && !closed && !committed && !cancelled && !broken
    {
      present := true;
      file, buffer, broken, size := existing, [], false, |existing|;
      closed, committed, cancelled := false, false, false;
      initial, accepted := existing, [];
    }

    /** The operating system's write: takes a prefix, `room` bytes at most. */
    method FileWrite(p: Bytes, room: nat) returns (n: nat)
      modifies this`file
      ensures n == (if |p| <= room then |p| else room) && file == old(file) + p[..n]
    {
      n := if |p| <= room then |p| else room;
      file := file + p[..n];
    }

    method Flush(room: nat) returns (ok: bool, used: nat)
      modifies this`file, this`buffer, this`broken
      ensures used == |file| - |old(file)| <= room && ok == !broken
      ensures ok <==> !old(broken) && |old(buffer)| <= room
      ensures old(broken) ==> broken && file == old(file) && buffer == old(buffer)
      ensures file + buffer == old(file) + old(buffer) && old(file) <= file && |buffer| <= |old(buffer)|
      ensures ok ==> buffer == []
      ensures !ok && !old(broken) ==> buffer != []
    {
      used := 0;
      if broken {
        return false, used;
      }
      if buffer == [] {
        return true, used;
      }
      var n := FileWrite(buffer, room);
      used := n;
      assert buffer == buffer[..n] + buffer[n..];
      broken := n < |buffer|;
      buffer := buffer[n..];
      return !broken, used;
    }

    /** One turn for more than the buffer has room for: past an empty buffer, or by filling it and flushing. */
    method WriteThrough(rest: Bytes, room: nat) returns (k: nat, left: nat)
      requires |buffer| <= BUFFER_SIZE && |rest| > BUFFER_SIZE - |buffer| && !broken
      modifies this`file, this`buffer, this`broken
      ensures k <= |rest| && |buffer| <= BUFFER_SIZE && left == room - (|file| - |old(file)|)
      ensures file + buffer == old(file) + old(buffer) + rest[..k] && old(file) <= file
      ensures broken ==> |old(buffer)| + |rest| > room
      ensures !broken ==> k > 0 || |buffer| < |old(buffer)|
    {
      if buffer == [] {
        k := FileWrite(rest, room);
        broken := k < |rest|;
        left := room - k;
        assert file + buffer == file;
      } else {
        k := BUFFER_SIZE - |buffer|;
        assert file + (buffer + rest[..k]) == (file + buffer) + rest[..k];
        buffer := buffer + rest[..k];
        var flushed, used := Flush(room);
        left := room - used;
      }
    }

    /** Buffers `p`, writing through when the buffer is full; `room` is what the file still takes. */
    method BufferedWrite(p: Bytes, room: nat) returns (n: nat, ok: bool)
      requires |buffer| <= BUFFER_SIZE
      modifies this`file, this`buffer, this`broken
      ensures n <= |p| && |buffer| <= BUFFER_SIZE && ok == !broken && (ok ==> n == |p|)
      ensures old(broken) ==> broken && n == 0 && file == old(file) && buffer == old(buffer)
      ensures file + buffer == old(file) + old(buffer) + p[..n] && old(file) <= file
      ensures !old(broken) && |old(buffer)| + |p| <= room ==> ok
    {
      n := 0;
      var left: nat := room;
      assert p[..0] == [];
      while |p| - n > BUFFER_SIZE - |buffer| && !broken
        invariant n <= |p| && |buffer| <= BUFFER_SIZE
        invariant file + buffer == old(file) + old(buffer) + p[..n] && old(file) <= file
        invariant left == room - (|file| - |old(file)|)
        invariant broken ==> old(broken) || |old(buffer)| + |p| > room
        invariant old(broken) ==> broken && n == 0 && file == old(file) && buffer == old(buffer)
        decreases |p| - n, |buffer|, !broken
      {
        var k;
        k, left := WriteThrough(p[n..], left);
        Extend(old(file), old(buffer), p, n, k);
        n := n + k;
      }
      if broken {
        return n, false;
      }
      assert file + (buffer + p[n..]) == (file + buffer) + p[n..];
      buffer := buffer + p[n..];
      Extend(old(file), old(buffer), p, n, |p| - n);
      assert p[n..][..|p| - n] == p[n..];
      return |p|, true;
    }

    /** Writes unless the writer's life has ended. `size` counts what was accepted, whether or not it has
        reached the file. */
    method Write(p: Bytes, room: nat) returns (n: nat, status: Status)
      requires Valid()
      modifies this`file, this`buffer, this`broken, this`size, this`accepted
      ensures Valid()
      ensures status == (if closed then AlreadyClosed else if committed then AlreadyCommitted
                         else if cancelled then AlreadyCancelled else if broken then FileError else Done)
      ensures status == Done ==> n == |p|
      ensures n <= |p| && accepted == old(accepted) + p[..n] && size == old(size) + n
      ensures broken ==> old(broken) || |old(buffer)| + |p| > room
      ensures closed || committed || cancelled ==> n == 0 && file == old(file) && buffer == old(buffer)
      // the write of an upload session
      ensures forall s :: As(s) == U.AppendFile(old(As(s)), p, n) && n == U.Taken(As(s).w, p, n)
      ensures status == Done ==> forall s :: n == U.Taken(As(s).w, p, |p|)
    {
      assert p[..0] == [] && accepted + [] == accepted;
      n := 0;
      if closed {
        return n, AlreadyClosed;
      } else if committed {
        return n, AlreadyCommitted;
      } else if cancelled {
        return n, AlreadyCancelled;
      }
      var ok;
      n, ok := BufferedWrite(p, room);
      size := size + n;
      accepted := accepted + p[..n];
      assert initial + accepted == initial + old(accepted) + p[..n];
      return n, if ok then Done else FileError;
    }

    /** Makes everything accepted readable. */
    method Commit(room: nat) returns (status: Status)
      requires Valid()
      modifies this`file, this`buffer, this`broken, this`committed
      ensures Valid() && (committed <==> old(committed) || status == Done)
      ensures status == (if closed then AlreadyClosed else if old(committed) then AlreadyCommitted
                         else if cancelled then AlreadyCancelled
                         else if old(broken) || |old(buffer)| > room then FileError else Done)
      ensures status == Done ==> file == initial + accepted && |file| == size
    {
      if closed {
        return AlreadyClosed;
      } else if committed {
        return AlreadyCommitted;
      } else if cancelled {
        return AlreadyCancelled;
      }
      var ok, used := Flush(room);
      if !ok {
        return FileError;
      }
      committed := true;
      return Done;
    }

    /** Closing flushes; if that succeeds the file is what `size` says, and if it fails the file has lost
        the end of what was accepted. */
    method Close(room: nat) returns (status: Status)
      requires Valid()
      modifies this`file, this`buffer, this`broken, this`closed
      ensures Valid() && closed
      ensures status == (if old(closed) then AlreadyClosed
                         else if !committed && (old(broken) || |old(buffer)| > room) then FileError else Done)
      ensures status == Done && !cancelled ==> file == initial + accepted && |file| == size
      ensures status == FileError && !old(broken) && !cancelled ==> file < initial + accepted
      // what a close leaves of a session's file: all of it, or a part behind the base
      ensures forall s :: U.Cut(As(s).up, |file|).data == Some(file) && |initial| <= |file| && As(s).up == old(As(s).up)
      ensures status == Done && !cancelled ==> forall s :: As(s).up.data == Some(file)
    {
      if closed {
        CutsOf();
        return AlreadyClosed;
      }
      closed := true;
      if committed {
        CutsOf();
        return Done;
      }
      var ok, used := Flush(room);
      assert !old(broken) ==> file + buffer == initial + accepted;
      CutsOf();
      return if ok then Done else FileError;
    }

    /** Ends the writer's life without a flush and removes the file, unless that fails. */
    method Cancel(removes: bool) returns (status: Status)
      requires Valid()
      modifies this`closed, this`cancelled, this`present
      ensures Valid() && closed
      ensures status == (if old(closed) then AlreadyClosed else if removes then Done else FileError)
      ensures cancelled == (old(cancelled) || status != AlreadyClosed)
      ensures present == (old(present) && status != Done)
    {
      if closed {
        return AlreadyClosed;
      }
      cancelled, closed := true, true;
      if !removes {
        return FileError;
      }
      present := false;
      return Done;
    }
  }

  lemma Extend(file: Bytes, buffer: Bytes, p: Bytes, n: nat, k: nat)
    requires n + k <= |p|
    ensures file + buffer + p[..n] + p[n..][..k] == file + buffer + p[..n + k]
  {
    assert p[..n + k] == p[..n] + p[n..][..k];
  }
}
