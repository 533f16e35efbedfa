/** The two stream helpers of the utility library: PartialStream, a
    read-only window of a given length over another stream, and
    TempMemoryFile, a temporary file kept in memory. Both are built on
    MemStream, the part of System.IO.MemoryStream they rely on. */
module Streams {
  import opened Common

  newtype byte = x: int | 0 <= x < 256

  /** How a stream call fails: the .NET exception it throws. */
  datatype StreamError =
    | ArgumentNull          // ArgumentNullException
    | ArgumentOutOfRange    // ArgumentOutOfRangeException
    | Argument              // ArgumentException (buffer too small)
    | ObjectDisposed        // ObjectDisposedException
    | NotSupported          // NotSupportedException

  /** The validity checks Stream.Read makes on its buffer arguments. */
  function CheckReadArgs(bufferLength: nat, offset: int, count: int): (r: Option<StreamError>)
    ensures r.None? <==> 0 <= offset && 0 <= count && offset + count <= bufferLength
    ensures r.Some? ==> r.value == ArgumentOutOfRange || r.value == Argument
  {
    if offset < 0 || count < 0 then Some(ArgumentOutOfRange)
    else if offset + count > bufferLength then Some(Argument)
    else None
  }

  /** A MemoryStream: its bytes, the read/write position, whether it is
      still open (CanRead and CanWrite both follow it) and its capacity. */
  class MemStream {
    var data: seq<byte>
    var pos: nat
    var open: bool
    var capacity: nat

    ghost predicate Valid()
      reads this`data, this`pos
    {
      pos <= |data|
    }

    /** new MemoryStream(capacity). */
    constructor(capacity: nat)
      ensures Valid() && open && data == [] && pos == 0 && this.capacity == capacity
    {
      data := [];
      pos := 0;
      open := true;
      this.capacity := capacity;
    }

    /** new MemoryStream(bytes): a stream positioned at the start of the bytes. */
    constructor FromBytes(bytes: seq<byte>)
      ensures Valid() && open && data == bytes && pos == 0 && capacity == |bytes|
    {
      data := bytes;
      pos := 0;
      open := true;
      capacity := |bytes|;
    }

    /** Stream.Read: copies the next min(count, remaining) bytes into
        buffer[offset..] and advances the position past them. */
    method Read(buffer: array<byte>, offset: int, count: int) returns (r: Result<nat, StreamError>)
      requires Valid()
      modifies this`pos, buffer
      ensures Valid() && data == old(data)
      ensures r.Err? <==> !open || CheckReadArgs(buffer.Length, offset, count).Some?
      ensures r.Err? ==> pos == old(pos) && buffer[..] == old(buffer[..])
      ensures r.Ok? ==> r.value == Min(count, |data| - old(pos)) && pos == old(pos) + r.value
      ensures r.Ok? ==> buffer[..] == old(buffer[..offset]) + data[old(pos)..pos] + old(buffer[offset + r.value..])
    {
      if !open {
        return Err(ObjectDisposed);
      }
      var bad := CheckReadArgs(buffer.Length, offset, count);
      if bad.Some? {
        return Err(bad.value);
      }
      var start := pos;
      var n := Min(count, |data| - start);
      ghost var before := buffer[..];
      var i := 0;
      while i < n
        invariant 0 <= i <= n && pos == start
        invariant forall k :: 0 <= k < buffer.Length ==>
                    buffer[k] == if offset <= k < offset + i then data[start + k - offset] else before[k]
      {
        buffer[offset + i] := data[start + i];
        i := i + 1;
      }
      ghost var copied := before[..offset] + data[start..start + n] + before[offset + n..];
      assert |copied| == buffer.Length;
      assert forall k :: 0 <= k < buffer.Length ==> buffer[k] == copied[k];
      pos := start + n;
      r := Ok(n);
    }

    /** Stream.Write: overwrites from the position on, growing the
        stream when the bytes run past its end. */
    method Write(bytes: seq<byte>) returns (r: Result<(), StreamError>)
      requires Valid()
      modifies this`data, this`pos
      ensures Valid()
      ensures r.Err? <==> !open
      ensures r.Err? ==> data == old(data) && pos == old(pos)
      ensures r.Ok? ==> pos == old(pos) + |bytes|
      ensures r.Ok? ==> data[..old(pos)] == old(data)[..old(pos)] && data[old(pos)..pos] == bytes
      ensures r.Ok? ==> data[pos..] == old(data)[Min(pos, |old(data)|)..]
    {
      if !open {
        return Err(ObjectDisposed);
      }
      var end := pos + |bytes|;
      data := data[..pos] + bytes + data[Min(end, |data|)..];
      pos := end;
      r := Ok(());
    }

    /** Stream.SetLength for a value no longer than the stream (the only
        use here, SetLength(0)): the bytes are cut and the position with them. */
    method Truncate(length: nat) returns (r: Result<(), StreamError>)
      requires Valid() && length <= |data|
      modifies this`data, this`pos
      ensures Valid()
      ensures r.Err? <==> !open
      ensures r.Err? ==> data == old(data) && pos == old(pos)
      ensures r.Ok? ==> data == old(data)[..length] && pos == Min(old(pos), length)
    {
      if !open {
        return Err(ObjectDisposed);
      }
      data := data[..length];
      pos := Min(pos, length);
      r := Ok(());
    }

    /** Stream.Dispose: the bytes survive (ToArray still works), reading
        and writing do not. */
    method Close()
      modifies this`open
      ensures !open
    {
      open := false;
    }

    /** The Capacity getter, which refuses a closed stream. */
    method Capacity() returns (r: Result<nat, StreamError>)
      ensures r.Err? <==> !open
      ensures r.Err? ==> r.error == ObjectDisposed
      ensures r.Ok? ==> r.value == capacity
    {
      if !open {
        return Err(ObjectDisposed);
      }
      r := Ok(capacity);
    }

    /** Reads to the end, as a caller copying the stream out does. */
    method ReadToEnd() returns (r: Result<seq<byte>, StreamError>)
      requires Valid()
      modifies this`pos
      ensures Valid()
      ensures r.Err? <==> !open
      ensures r.Err? ==> pos == old(pos)
      ensures r.Ok? ==> r.value == data[old(pos)..] && pos == |data|
    {
      if !open {
        return Err(ObjectDisposed);
      }
      r := Ok(data[pos..]);
      pos := |data|;
    }
  }

  /** A read-only stream yielding at most `length` bytes of `source`,
      starting wherever the source stands; it never seeks the source. */
  class PartialStream {
    const source: MemStream
    const offset: int
    const length: int
    var position: int

    /** The position never runs past the length (nor below zero). */
    ghost predicate Valid()
      reads this`position, source`data, source`pos
    {
      source.Valid() && 0 <= position <= Max(length, 0)
    }

    /** The constructor with its null check: a missing source is refused. */
    static method Create(source: Option<MemStream>, offset: int, length: int)
      returns (r: Result<PartialStream, StreamError>)
      requires source.Some? ==> source.value.Valid()
      ensures r.Err? <==> source.None?
      ensures r.Err? ==> r.error == ArgumentNull
      ensures r.Ok? ==> fresh(r.value) && r.value.Valid()
      ensures r.Ok? ==> r.value.source == source.value && r.value.offset == offset
      ensures r.Ok? ==> r.value.length == length && r.value.position == 0
    {
      if source.None? {
        return Err(ArgumentNull);
      }
      var s := new PartialStream.Init(source.value, offset, length);
      r := Ok(s);
    }

    constructor Init(source: MemStream, offset: int, length: int)
      requires source.Valid()
      ensures this.source == source && this.offset == offset && this.length == length
      ensures position == 0 && Valid()
    {
      this.source := source;
      this.offset := offset;
      this.length := length;
      position := 0;
    }

    function CanRead(): bool { true }
    function CanSeek(): bool { false }
    function CanWrite(): bool { false }

    /** Length is the window length given at construction, whatever was read. */
    function Length(): (n: int)
      ensures n == length
    {
      length
    }

    /** Read (and ReadAsync, which does the same): asks the source for at
        most min(count, length - position) bytes and advances the position
        by what the source delivered. */
    method Read(buffer: array<byte>, bufOffset: int, count: int) returns (r: Result<nat, StreamError>)
      requires Valid()
      modifies this`position, source`pos, buffer
      ensures Valid()
      ensures r.Ok? ==> r.value <= count && position == old(position) + r.value <= Max(length, 0)
      ensures r.Ok? ==> r.value == Min(Min(count, length - old(position)), |source.data| - old(source.pos))
      ensures r.Err? <==> !source.open || CheckReadArgs(buffer.Length, bufOffset, Min(count, length - old(position))).Some?
      ensures r.Err? ==> position == old(position)
      ensures source.data == old(source.data)
      ensures r.Ok? ==> 0 <= bufOffset && bufOffset + r.value <= buffer.Length && source.pos == old(source.pos) + r.value
      ensures r.Ok? ==> buffer[bufOffset..bufOffset + r.value] == source.data[old(source.pos)..source.pos]
    {
      var c := Min(count, length - position);
      r := source.Read(buffer, bufOffset, c);
      if r.Ok? {
        position := position + r.value;
      }
    }

    /** The Position setter, Seek, SetLength and Write all refuse. */
    method SetPosition(value: int) returns (r: Result<(), StreamError>)
      ensures r == Err(NotSupported)
    {
      r := Err(NotSupported);
    }

    method Seek(value: int) returns (r: Result<int, StreamError>)
      ensures r == Err(NotSupported)
    {
      r := Err(NotSupported);
    }

    method SetLength(value: int) returns (r: Result<(), StreamError>)
      ensures r == Err(NotSupported)
    {
      r := Err(NotSupported);
    }

    method Write(bytes: seq<byte>) returns (r: Result<(), StreamError>)
      ensures r == Err(NotSupported)
    {
      r := Err(NotSupported);
    }
  }

  /** A temporary file in memory: the live stream, and a snapshot of its
      bytes taken once the stream has been read back or closed. */
  class TempMemoryFile {
    var stream: MemStream
    var snapshot: Option<seq<byte>>

    ghost predicate Valid()
      reads this`stream, stream`data, stream`pos
    {
      stream.Valid()
    }

    constructor(capacity: nat)
      ensures Valid() && fresh(stream) && stream.open && stream.data == [] && snapshot == None
    {
      stream := new MemStream(capacity);
      snapshot := None;
    }

    /** The parameterless constructor: an empty stream of capacity 0, as
        MemoryStream's own default. */
    constructor Default()
      ensures Valid() && fresh(stream) && stream.open && stream.data == [] && stream.capacity == 0
      ensures snapshot == None
    {
      stream := new MemStream(0);
      snapshot := None;
    }

    /** Dispose closes the live stream; its bytes and the snapshot stay. */
    method Dispose()
      modifies stream`open
      ensures !stream.open && stream.data == old(stream.data) && snapshot == old(snapshot)
    {
      stream.Close();
    }

    /** Length: the live stream's length while it is open; once it is
        closed, the snapshot's, which is taken here if there is none. */
    method Length() returns (n: nat)
      requires Valid()
      modifies this`snapshot
      ensures Valid()
      ensures stream.open ==> n == |stream.data| && snapshot == old(snapshot)
      ensures !stream.open ==> snapshot == (if old(snapshot).None? then Some(stream.data) else old(snapshot))
      ensures !stream.open ==> n == |snapshot.value|
    {
      if stream.open {
        n := |stream.data|;
      } else {
        if snapshot.None? {
          snapshot := Some(stream.data);
        }
        n := |snapshot.value|;
      }
    }

    /** OpenRead: a new stream over the snapshot, taken now if there is none. */
    method OpenRead() returns (s: MemStream)
      requires Valid()
      modifies this`snapshot
      ensures Valid()
      ensures snapshot == (if old(snapshot).None? then Some(stream.data) else old(snapshot))
      ensures fresh(s) && s.Valid() && s.open && s.data == snapshot.value && s.pos == 0
    {
      if snapshot.None? {
        snapshot := Some(stream.data);
      }
      s := new MemStream.FromBytes(snapshot.value);
    }

    /** OpenWrite as written: the snapshot is dropped first; an open
        stream is cut to length 0 and handed out, but for a closed one the
        Capacity of the closed stream is read, which throws, so the call
        fails with the closed stream left in place. */
    method OpenWriteAsWritten() returns (r: Result<MemStream, StreamError>)
      requires Valid()
      modifies this`stream, this`snapshot, stream`data, stream`pos
      ensures Valid() && snapshot == None && stream == old(stream)
      ensures old(stream.open) ==> r == Ok(stream) && stream.data == [] && stream.pos == 0
      ensures !old(stream.open) ==>
        r == Err(ObjectDisposed) && stream.data == old(stream.data) && stream.pos == old(stream.pos)
    {
      snapshot := None;
      if stream.open {
        var _ := stream.Truncate(0);
        return Ok(stream);
      }
      // new MemoryStream(m_stream.Capacity) is never reached: the getter throws
      var cap := stream.Capacity();
      r := Err(cap.error);
    }

    /** OpenWrite as intended: drops the snapshot and hands out an empty
        stream: the live one cut to length 0 when still writable, otherwise
        a new one of the old capacity. */
    method OpenWrite() returns (s: MemStream)
      requires Valid()
      modifies this`stream, this`snapshot, stream`data, stream`pos
      ensures Valid() && snapshot == None
      ensures s == stream && s.open && s.data == [] && s.pos == 0
      ensures old(stream.open) ==> stream == old(stream)
      ensures !old(stream.open) ==> fresh(stream) && stream.capacity == old(stream.capacity)
    {
      snapshot := None;
      if stream.open {
        var _ := stream.Truncate(0);
        s := stream;
      } else {
        stream := new MemStream(stream.capacity);
        s := stream;
      }
    }

    /** OpenReadWrite is OpenWrite. */
    method OpenReadWrite() returns (s: MemStream)
      requires Valid()
      modifies this`stream, this`snapshot, stream`data, stream`pos
      ensures Valid() && snapshot == None
      ensures s == stream && s.open && s.data == [] && s.pos == 0
      ensures old(stream.open) ==> stream == old(stream)
      ensures !old(stream.open) ==> fresh(stream) && stream.capacity == old(stream.capacity)
    {
      s := OpenWrite();
    }
  }

  /** Writing a file a second time: once the stream handed out by
      OpenWrite is closed, OpenWrite as written fails. */
  method ReopenAfterClose() returns (r: Result<MemStream, StreamError>)
    ensures r == Err(ObjectDisposed)
  {
    var f := new TempMemoryFile(16);
    var w := f.OpenWriteAsWritten();
    f.stream.Close();
    r := f.OpenWriteAsWritten();
  }

  /** The write-then-read-back round trip: data written through OpenWrite
      and closed reads back identical, with the same Length, every time. */
  method WriteAndReadBack(f: TempMemoryFile, bytes: seq<byte>, rounds: nat)
    returns (lengths: seq<nat>, backs: seq<seq<byte>>)
    requires f.Valid()
    modifies f, f.stream
    ensures |lengths| == rounds && |backs| == rounds
    ensures forall i :: 0 <= i < rounds ==> lengths[i] == |bytes| && backs[i] == bytes
  {
    var w := f.OpenWrite();
    var _ := w.Write(bytes);
    w.Close();
    lengths, backs := [], [];
    while |lengths| < rounds
      invariant f.Valid() && !f.stream.open && f.stream.data == bytes
      invariant f.snapshot.Some? ==> f.snapshot.value == bytes
      invariant |backs| == |lengths| <= rounds
      invariant forall i :: 0 <= i < |lengths| ==> lengths[i] == |bytes| && backs[i] == bytes
    {
      var n := f.Length();
      var s := f.OpenRead();
      var back := s.ReadToEnd();
      lengths := lengths + [n];
      backs := backs + [back.value];
    }
  }
}
