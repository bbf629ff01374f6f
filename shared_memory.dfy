/** The shared-memory client: a handle to one named, OS-backed block of
    memory, attached by creating or opening it, with bounds-checked copies
    into and out of the mapped region.

    The operating system is modelled as a `Namespace` from names to shared
    byte arrays; two clients attached to one name hold the same array, which
    is how a write through one client is seen by a read through the other.
    Whether `CreateFileMapping`, `OpenFileMapping` and `MapViewOfFile`
    succeed is decided by boolean oracle parameters. The C++ `throw`s are the
    `Threw` outcome, distinct from the `false` returned on an OS failure. */
module SharedMemory {
  import opened ByteCodec

  datatype Option<T> = None | Some(value: T)

  /** The three exceptions the client throws. */
  datatype Fault =
    | AlreadyConnected  // "Shared Memory already connected!"
    | NotValid          // "Cannot call write/read when shared memory is not valid!"
    | ExceededSize      // "Exceeded shared memory size!"

  /** What a call does: returns a value, or throws. */
  datatype Outcome<T> = Returned(value: T) | Threw(fault: Fault)

  /** `s` with the bytes from `at` on replaced by `d` (what `CopyMemory`
      does to the region). */
  function Splice(s: seq<byte>, at: int, d: seq<byte>): (r: seq<byte>)
    requires 0 <= at && at + |d| <= |s|
    ensures |r| == |s|
    ensures forall i :: 0 <= i < |s| ==> r[i] == if at <= i < at + |d| then d[i - at] else s[i]
  {
    s[..at] + d + s[at + |d|..]
  }

  /** Bytes of a newly created paging-file mapping: all zero. */
  function Zeros(n: nat): (z: seq<byte>)
    ensures |z| == n && forall i :: 0 <= i < n ==> z[i] == 0
  {
    seq(n, _ => 0)
  }

  /** Reading back the bytes just spliced in gives them. */
  lemma SpliceThenSlice(s: seq<byte>, at: int, d: seq<byte>)
    requires 0 <= at && at + |d| <= |s|
    ensures Splice(s, at, d)[at..at + |d|] == d
  {
  }

  /** `dataLen == 0` means "the whole shared memory size". */
  function DefaultedLength(dataLen: int, size: int): int
  {
    if dataLen == 0 then size else dataLen
  }

  /** Defaulting to the whole size leaves no room for a non-zero offset:
      such an access always fails the bounds check. */
  lemma DefaultLengthNeedsOffsetZero(size: int, offset: int)
    requires 0 < offset
    ensures offset + DefaultedLength(0, size) > size
  {
  }

  // ---------------------------------------------------------------------
  // Where a copy lands. The source computes `_Buffer + offset` on an
  // `LPCTSTR`, so the pointer advances by `offset * sizeof(TCHAR)` bytes,
  // while the bounds check `offset + dataLen > _BufferSize` counts bytes.

  /** The byte at which the source's copy starts, as written: the
      `offset`-th `TCHAR` unit of the region. */
  function CopyTargetAsWritten(offset: int): (at: int)
    ensures at == offset * TCharSize
    ensures offset > 0 ==> at > offset
  {
    offset * TCharSize
  }

  /** An access the bounds check accepts can still land outside the region
      as written: 40 bytes at offset 60 of a 100-byte region pass the check
      and are copied to bytes 120 to 159. */
  lemma ScaledOffsetOverrunsRegion()
    ensures 60 + 40 <= 100
    ensures CopyTargetAsWritten(60) + 40 > 100
  {
  }

  /** As written, every accepted access that ends at the end of the region
      and has a non-zero offset runs past the region. */
  lemma ScaledOffsetOverrunsAtEnd(size: int, offset: int, len: int)
    requires 0 < offset && 0 <= len && offset + len == size
    ensures CopyTargetAsWritten(offset) + len > size
  {
  }

  // ---------------------------------------------------------------------
  // WriteStr passes `_tcslen(val) * sizeof(TCHAR)` as the length; for an
  // empty string that is 0, which WriteBuffer reads as "the whole region".

  /** The length WriteStr hands to WriteBuffer, as written. */
  function WriteStrLengthAsWritten(val: seq<wchar>): (n: nat)
    ensures n == 0 <==> CLength(val) == 0
  {
    CLength(val) * TCharSize
  }

  /** The bytes the caller's string occupies, terminator included. */
  function WriteStrSourceBytes(val: seq<wchar>): nat {
    (CLength(val) + 1) * TCharSize
  }

  /** As written, writing the empty string into a region of more than two
      bytes copies the whole region from a 2-byte source. */
  lemma EmptyWriteStrOverreads(size: int)
    requires size > TCharSize
    ensures DefaultedLength(WriteStrLengthAsWritten([0]), size) == size
    ensures WriteStrSourceBytes([0]) < size
  {
  }

  // ---------------------------------------------------------------------

  /** The OS namespace of named file-mapping objects. An object, once
      created, stays under its name with the same backing array. */
  class Namespace {
    var objects: map<string, array<byte>>

    constructor ()
      ensures objects == map[]
    {
      objects := map[];
    }

    /** `CreateFileMapping` on the paging file: given a name in use it
        returns the existing object; otherwise it creates a zero-filled
        object of `size` bytes (a size of 0, or a negative `int` that turns
        into a huge DWORD, is refused). `osOk` stands for every other reason
        the OS may refuse. The handle is the object's name. */
    method CreateFileMapping(name: string, size: int, osOk: bool) returns (h: Option<string>)
      modifies this
      ensures h == (if osOk && (name in old(objects) || 0 < size) then Some(name) else None)
      ensures h.Some? && name !in old(objects) ==>
        && name in objects && fresh(objects[name]) && objects[name][..] == Zeros(size)
        && objects == old(objects)[name := objects[name]]
      ensures !(h.Some? && name !in old(objects)) ==> objects == old(objects)
    {
      if !osOk || (name !in objects && size <= 0) {
        return None;
      }
      if name !in objects {
        var a := new byte[size](_ => 0);
        objects := objects[name := a];
      }
      return Some(name);
    }

    /** `OpenFileMapping`: finds an existing object by name. */
    function OpenFileMapping(name: string, osOk: bool): (h: Option<string>)
      reads this
      ensures h.Some? <==> osOk && name in objects
      ensures h.Some? ==> h.value == name
    {
      if osOk && name in objects then Some(name) else None
    }

    /** `MapViewOfFile` for `size` bytes: the view is the object's array; a
        view larger than the object (or a negative size) is refused. */
    function MapViewOfFile(h: string, size: int, osOk: bool): (view: array?<byte>)
      requires h in objects
      reads this
      ensures view != null <==> osOk && 0 <= size <= objects[h].Length
      ensures view != null ==> view == objects[h]
    {
      if osOk && 0 <= size <= objects[h].Length then objects[h] else null
    }
  }

  /** Every object of `before` is still there, with the same array. */
  ghost predicate Extends(before: map<string, array<byte>>, after: map<string, array<byte>>) {
    forall n :: n in before ==> n in after && after[n] == before[n]
  }

  /** What a successful CreateNew needs from the OS. */
  predicate CreateSucceeds(objects: map<string, array<byte>>, path: string, size: int,
                           createOk: bool, mapOk: bool)
  {
    && createOk && mapOk
    && (if path in objects then 0 <= size <= objects[path].Length else 0 < size)
  }

  /** What a successful Connect needs from the OS. */
  predicate ConnectSucceeds(objects: map<string, array<byte>>, path: string, size: int,
                            openOk: bool, mapOk: bool)
  {
    openOk && mapOk && path in objects && 0 <= size <= objects[path].Length
  }

  /** A shared memory connection: `_MapFile`, `_Buffer`, `_BufferSize`. */
  class Client {
    var mapFile: Option<string>  // the handle; None is NULL
    var buffer: array?<byte>     // the mapped view; null is NULL
    var bufferSize: int          // the declared size of the region

    /** Handle and view are held together or not at all; a client holding
        none has size 0, and a client's size fits its view. */
    ghost predicate Valid()
      reads this
    {
      && (mapFile.None? <==> buffer == null)
      && (buffer == null ==> bufferSize == 0)
      && (buffer != null ==> 0 <= bufferSize <= buffer.Length)
    }

    /** The view of an attached client is the array its object has in `os`. */
    ghost predicate AttachedIn(os: Namespace)
      reads this, os
    {
      buffer != null ==> mapFile.Some? && mapFile.value in os.objects && os.objects[mapFile.value] == buffer
    }

    /** A new client holds nothing. */
    constructor ()
      ensures Valid() && !IsValid() && GetSize() == 0
    {
      mapFile := None;
      buffer := null;
      bufferSize := 0;
    }

    /** Attached and ready to read and write. */
    predicate IsValid()
      requires Valid()
      reads this
      ensures IsValid() <==> buffer != null
      ensures IsValid() <==> mapFile.Some?
    {
      mapFile.Some? && buffer != null
    }

    /** The declared size; 0 when not attached. */
    function GetSize(): (n: int)
      requires Valid()
      reads this
      ensures !IsValid() ==> n == 0
      ensures IsValid() ==> 0 <= n <= buffer.Length
    {
      bufferSize
    }

    /** Releases the view and the handle, whatever is held, and resets the
        fields; on a client that holds nothing it changes nothing. */
    method Close()
      modifies this
      ensures Valid() && !IsValid()
      ensures mapFile == None && buffer == null && bufferSize == 0
      ensures old(mapFile) == None && old(buffer) == null && old(bufferSize) == 0 ==> unchanged(this)
    {
      // UnmapViewOfFile / CloseHandle release OS resources the namespace
      // does not track.
      buffer := null;
      mapFile := None;
      bufferSize := 0;
    }

    /** Creates (or, when the name is in use, opens) the named object and
        maps `size` bytes of it. */
    method CreateNew(os: Namespace, path: string, size: int, createOk: bool, mapOk: bool)
      returns (r: Outcome<bool>)
      requires Valid() && AttachedIn(os)
      modifies this, os
      ensures Valid() && AttachedIn(os)
      ensures Extends(old(os.objects), os.objects)
      ensures old(IsValid()) ==> r == Threw(AlreadyConnected) && unchanged(this) && os.objects == old(os.objects)
      ensures !old(IsValid()) ==> r == Returned(CreateSucceeds(old(os.objects), path, size, createOk, mapOk))
      ensures !old(IsValid()) && createOk && path !in old(os.objects) && 0 < size ==>
        && path in os.objects && os.objects == old(os.objects)[path := os.objects[path]]
        && fresh(os.objects[path]) && os.objects[path][..] == Zeros(size)
      ensures !(!old(IsValid()) && createOk && path !in old(os.objects) && 0 < size) ==> os.objects == old(os.objects)
      ensures r == Returned(true) ==> mapFile == Some(path) && buffer == os.objects[path] && bufferSize == size
      ensures r == Returned(false) ==> !IsValid() && bufferSize == 0
    {
      if IsValid() {
        return Threw(AlreadyConnected);
      }
      mapFile := os.CreateFileMapping(path, size, createOk);
      if mapFile.None? {
        return Returned(false);
      }
      buffer := os.MapViewOfFile(mapFile.value, size, mapOk);
      if buffer == null {
        Close();
        return Returned(false);
      }
      bufferSize := size;
      return Returned(true);
    }

    /** Opens the existing named object and maps `size` bytes of it. */
    method Connect(os: Namespace, path: string, size: int, openOk: bool, mapOk: bool)
      returns (r: Outcome<bool>)
      requires Valid() && AttachedIn(os)
      modifies this
      ensures Valid() && AttachedIn(os)
      ensures old(IsValid()) ==> r == Threw(AlreadyConnected) && unchanged(this)
      ensures !old(IsValid()) ==> r == Returned(ConnectSucceeds(os.objects, path, size, openOk, mapOk))
      ensures r == Returned(true) ==> mapFile == Some(path) && buffer == os.objects[path] && bufferSize == size
      ensures r == Returned(false) ==> !IsValid() && bufferSize == 0
    {
      if IsValid() {
        return Threw(AlreadyConnected);
      }
      mapFile := os.OpenFileMapping(path, openOk);
      if mapFile.None? {
        return Returned(false);
      }
      buffer := os.MapViewOfFile(mapFile.value, size, mapOk);
      if buffer == null {
        Close();
        return Returned(false);
      }
      bufferSize := size;
      return Returned(true);
    }

    /** `CreateNew(...) || Connect(...)`: create first, connect only when
        creating returned false; a throw from CreateNew propagates. */
    method ConnectOrCreate(os: Namespace, path: string, size: int,
                           createOk: bool, createMapOk: bool, openOk: bool, openMapOk: bool)
      returns (r: Outcome<bool>)
      requires Valid() && AttachedIn(os)
      modifies this, os
      ensures Valid() && AttachedIn(os)
      ensures Extends(old(os.objects), os.objects)
      ensures old(IsValid()) ==> r == Threw(AlreadyConnected) && unchanged(this) && os.objects == old(os.objects)
      ensures !old(IsValid()) ==>
        r == Returned(CreateSucceeds(old(os.objects), path, size, createOk, createMapOk)
                      || ConnectSucceeds(os.objects, path, size, openOk, openMapOk))
      ensures !old(IsValid()) && createOk && path !in old(os.objects) && 0 < size ==>
        && path in os.objects && os.objects == old(os.objects)[path := os.objects[path]]
        && fresh(os.objects[path]) && os.objects[path][..] == Zeros(size)
      ensures !(!old(IsValid()) && createOk && path !in old(os.objects) && 0 < size) ==> os.objects == old(os.objects)
      ensures r == Returned(true) ==> mapFile == Some(path) && buffer == os.objects[path] && bufferSize == size
      ensures r == Returned(false) ==> !IsValid() && bufferSize == 0
    {
      r := CreateNew(os, path, size, createOk, createMapOk);
      if r == Returned(false) {
        r := Connect(os, path, size, openOk, openMapOk);
      }
    }

    /** The length a `dataLen` stands for on this client. */
    function EffectiveLength(dataLen: int): int
      reads this
    {
      DefaultedLength(dataLen, bufferSize)
    }

    /** The checked copy of `len` bytes of `data` into the region at
        `offset`: throws when not attached or when `offset + len` exceeds
        the size, and then leaves the region as it was. */
    method CheckedWrite(data: seq<byte>, len: int, offset: int) returns (r: Outcome<()>)
      requires Valid()
      requires 0 <= len <= |data| && 0 <= offset
      modifies buffer
      ensures r == if !IsValid() then Threw(NotValid)
                   else if offset + len > bufferSize then Threw(ExceededSize)
                   else Returned(())
      ensures buffer != null && r.Returned? ==>
        buffer[..] == Splice(old(buffer[..]), offset, data[..len])
      ensures buffer != null && r.Threw? ==> buffer[..] == old(buffer[..])
    {
      if !IsValid() {
        return Threw(NotValid);
      }
      if offset + len > bufferSize {
        return Threw(ExceededSize);
      }
      forall i | offset <= i < offset + len {
        buffer[i] := data[i - offset];
      }
      return Returned(());
    }

    /** WriteBuffer: copies `dataLen` bytes (0 meaning the whole size) of
        `data` into the region at `offset`; bytes outside
        `[offset, offset + length)` keep their values. */
    method WriteBuffer(data: seq<byte>, dataLen: int, offset: int) returns (r: Outcome<()>)
      requires Valid()
      requires 0 <= dataLen && 0 <= offset
      requires EffectiveLength(dataLen) <= |data|
      modifies buffer
      ensures r == if !IsValid() then Threw(NotValid)
                   else if offset + EffectiveLength(dataLen) > bufferSize then Threw(ExceededSize)
                   else Returned(())
      ensures buffer != null && r.Returned? ==>
        buffer[..] == Splice(old(buffer[..]), offset, data[..EffectiveLength(dataLen)])
      ensures buffer != null && r.Threw? ==> buffer[..] == old(buffer[..])
    {
      r := CheckedWrite(data, DefaultedLength(dataLen, bufferSize), offset);
    }

    /** ReadBuffer: the `dataLen` bytes (0 meaning the whole size) at
        `offset`, or the throw the same checks as WriteBuffer raise. */
    method ReadBuffer(dataLen: int, offset: int) returns (r: Outcome<seq<byte>>)
      requires Valid()
      requires 0 <= dataLen && 0 <= offset
      ensures !IsValid() ==> r == Threw(NotValid)
      ensures IsValid() && offset + EffectiveLength(dataLen) > bufferSize ==> r == Threw(ExceededSize)
      ensures IsValid() && offset + EffectiveLength(dataLen) <= bufferSize ==>
        && r.Returned? && |r.value| == EffectiveLength(dataLen)
        && forall i :: 0 <= i < |r.value| ==> r.value[i] == buffer[offset + i]
    {
      if !IsValid() {
        return Threw(NotValid);
      }
      var len := DefaultedLength(dataLen, bufferSize);
      if offset + len > bufferSize {
        return Threw(ExceededSize);
      }
      return Returned(buffer[offset..offset + len]);
    }

    /** Writes the 4 bytes of an `int` at `offset`. */
    method WriteInt(val: int, offset: int) returns (r: Outcome<()>)
      requires Valid()
      requires IsInt32(val) && 0 <= offset
      modifies buffer
      ensures r == if !IsValid() then Threw(NotValid)
                   else if offset + IntSize > bufferSize then Threw(ExceededSize)
                   else Returned(())
      ensures buffer != null && r.Returned? ==> buffer[..] == Splice(old(buffer[..]), offset, EncodeInt(val))
      ensures buffer != null && r.Threw? ==> buffer[..] == old(buffer[..])
    {
      r := WriteBuffer(EncodeInt(val), IntSize, offset);
    }

    /** Writes a `bool` as one byte at `offset`. */
    method WriteBool(val: bool, offset: int) returns (r: Outcome<()>)
      requires Valid()
      requires 0 <= offset
      modifies buffer
      ensures r == if !IsValid() then Threw(NotValid)
                   else if offset + BoolSize > bufferSize then Threw(ExceededSize)
                   else Returned(())
      ensures buffer != null && r.Returned? ==> buffer[..] == Splice(old(buffer[..]), offset, EncodeBool(val))
      ensures buffer != null && r.Threw? ==> buffer[..] == old(buffer[..])
    {
      r := WriteBuffer(EncodeBool(val), BoolSize, offset);
    }

    /** Writes a `char` (one byte) at `offset`. */
    method WriteChar(val: byte, offset: int) returns (r: Outcome<()>)
      requires Valid()
      requires 0 <= offset
      modifies buffer
      ensures r == if !IsValid() then Threw(NotValid)
                   else if offset + CharSize > bufferSize then Threw(ExceededSize)
                   else Returned(())
      ensures buffer != null && r.Returned? ==> buffer[..] == Splice(old(buffer[..]), offset, [val])
      ensures buffer != null && r.Threw? ==> buffer[..] == old(buffer[..])
    {
      r := WriteBuffer([val], CharSize, offset);
    }

    /** Writes the code units of a wide C string before its terminator, and
        no terminator, at `offset`. Corrected: the empty string writes no
        bytes, instead of falling back to the whole-region default. */
    method WriteStr(val: seq<wchar>, offset: int) returns (r: Outcome<()>)
      requires Valid()
      requires 0 <= offset
      modifies buffer
      ensures r == if !IsValid() then Threw(NotValid)
                   else if offset + CLength(val) * TCharSize > bufferSize then Threw(ExceededSize)
                   else Returned(())
      ensures buffer != null && r.Returned? ==>
        buffer[..] == Splice(old(buffer[..]), offset, EncodeWide(val[..CLength(val)]))
      ensures buffer != null && r.Threw? ==> buffer[..] == old(buffer[..])
    {
      var bytes := EncodeWide(val[..CLength(val)]);
      r := CheckedWrite(bytes, |bytes|, offset);
    }

    /** Reads the `int` held by the 4 bytes at `offset`. */
    method ReadInt(offset: int) returns (r: Outcome<int>)
      requires Valid()
      requires 0 <= offset
      ensures !IsValid() ==> r == Threw(NotValid)
      ensures IsValid() && offset + IntSize > bufferSize ==> r == Threw(ExceededSize)
      ensures IsValid() && offset + IntSize <= bufferSize ==>
        r == Returned(DecodeInt(buffer[offset..offset + IntSize]))
    {
      var b := ReadBuffer(IntSize, offset);
      if b.Threw? {
        return Threw(b.fault);
      }
      assert b.value == buffer[offset..offset + IntSize];
      return Returned(DecodeInt(b.value));
    }

    /** Reads the `bool` held by the byte at `offset`. */
    method ReadBool(offset: int) returns (r: Outcome<bool>)
      requires Valid()
      requires 0 <= offset
      ensures !IsValid() ==> r == Threw(NotValid)
      ensures IsValid() && offset + BoolSize > bufferSize ==> r == Threw(ExceededSize)
      ensures IsValid() && offset + BoolSize <= bufferSize ==> r == Returned(buffer[offset] != 0)
    {
      var b := ReadBuffer(BoolSize, offset);
      if b.Threw? {
        return Threw(b.fault);
      }
      return Returned(DecodeBool(b.value));
    }

    /** Reads the `char` (one byte) at `offset`. */
    method ReadChar(offset: int) returns (r: Outcome<byte>)
      requires Valid()
      requires 0 <= offset
      ensures !IsValid() ==> r == Threw(NotValid)
      ensures IsValid() && offset + CharSize > bufferSize ==> r == Threw(ExceededSize)
      ensures IsValid() && offset + CharSize <= bufferSize ==> r == Returned(buffer[offset])
    {
      var b := ReadBuffer(CharSize, offset);
      if b.Threw? {
        return Threw(b.fault);
      }
      return Returned(b.value[0]);
    }

    /** Reads `maxLen` code units' worth of bytes (0 meaning the whole
        size) from the start of the region: there is no offset. */
    method ReadStr(maxLen: int) returns (r: Outcome<seq<byte>>)
      requires Valid()
      requires 0 <= maxLen
      ensures !IsValid() ==> r == Threw(NotValid)
      ensures IsValid() && EffectiveLength(maxLen * TCharSize) > bufferSize ==> r == Threw(ExceededSize)
      ensures IsValid() && EffectiveLength(maxLen * TCharSize) <= bufferSize ==>
        r == Returned(buffer[..EffectiveLength(maxLen * TCharSize)])
    {
      r := ReadBuffer(maxLen * TCharSize, 0);
      if r.Returned? {
        assert r.value == buffer[..EffectiveLength(maxLen * TCharSize)];
      }
    }
  }

  /** A value written through one client is read back through another
      client attached to the same object. */
  lemma IntWriteThenRead(s: seq<byte>, at: int, v: int)
    requires IsInt32(v) && 0 <= at && at + IntSize <= |s|
    ensures DecodeInt(Splice(s, at, EncodeInt(v))[at..at + IntSize]) == v
  {
    assert Splice(s, at, EncodeInt(v))[at..at + IntSize] == EncodeInt(v);
    IntRoundTrip(v);
  }

  /** Writing an `int` and reading it back through a second client that is
      attached to the same name gives the value written. */
  method SharedIntRoundTrip(os: Namespace, writer: Client, reader: Client, v: int, offset: int)
    returns (r: Outcome<int>)
    requires writer.Valid() && reader.Valid() && writer.AttachedIn(os) && reader.AttachedIn(os)
    requires writer.IsValid() && reader.IsValid() && writer.mapFile == reader.mapFile
    requires IsInt32(v) && 0 <= offset
    requires offset + IntSize <= writer.bufferSize && offset + IntSize <= reader.bufferSize
    modifies writer.buffer
    ensures r == Returned(v)
  {
    var w := writer.WriteInt(v, offset);
    r := reader.ReadInt(offset);
    IntWriteThenRead(old(writer.buffer[..]), offset, v);
  }

  /** The bytes a wide string reads back as, followed by a 0 code unit, are
      that string and its terminator. */
  lemma {:induction false} WideThenTerminator(w: seq<wchar>)
    ensures DecodeWide(EncodeWide(w) + [0, 0]) == w + [0]
  {
    var b := EncodeWide(w) + [0, 0];
    assert b[..|b| - 2] == EncodeWide(w);
    WideRoundTrip(w);
  }

  /** The first attach steps of the smoke test: "test" created by one
      client and joined by a second through Connect and a third through
      ConnectOrCreate (whose CreateNew opens the object in use). The OS
      grants every request. */
  method SmokeSameName() returns (os: Namespace, sm1: Client, sm2: Client, attached: seq<bool>)
    ensures attached == [true, true, true]
    ensures os.objects.Keys == {"test"}
    ensures sm1.Valid() && sm2.Valid() && sm1.IsValid() && sm2.IsValid()
    ensures sm1.AttachedIn(os) && sm2.AttachedIn(os)
    ensures sm1.buffer == sm2.buffer && sm1.bufferSize == sm2.bufferSize == 100
    ensures fresh(sm1.buffer) && sm1.buffer[..] == Zeros(100)
  {
    os := new Namespace();
    sm1 := new Client();
    sm2 := new Client();
    var sm3 := new Client();

    var r1 := sm1.CreateNew(os, "test", 100, true, true);
    ghost var region := os.objects["test"];
    var r2 := sm2.Connect(os, "test", 100, true, true);
    var r3 := sm3.ConnectOrCreate(os, "test", 100, true, true, true, true);
    assert os.objects["test"] == region;
    attached := [r1.value, r2.value, r3.value];
  }

  /** The last attach steps of the smoke test: ConnectOrCreate on the new
      name "test2" creates it, and Connect on the missing name "test3"
      fails and leaves its client invalid. Existing objects stay as they
      are. */
  method SmokeOtherNames(os: Namespace) returns (attached: seq<bool>, valid: bool)
    requires "test2" !in os.objects && "test3" !in os.objects
    modifies os
    ensures attached == [true, false] && !valid
    ensures Extends(old(os.objects), os.objects)
  {
    var sm4 := new Client();
    var sm5 := new Client();
    var r4 := sm4.ConnectOrCreate(os, "test2", 100, true, true, true, true);
    assert "test3" !in os.objects;
    var r5 := sm5.Connect(os, "test3", 100, true, true);
    attached := [r4.value, r5.value];
    valid := sm5.IsValid();
  }

  /** The attach half of the smoke test: a name created, joined by Connect
      and by ConnectOrCreate, a second name created by ConnectOrCreate, and a
      missing name refused by Connect. */
  method SmokeAttach() returns (sm1: Client, sm2: Client, attached: seq<bool>, valid: seq<bool>)
    ensures attached == [true, true, true, true, false]
    ensures valid == [true, true, false]
    ensures sm1.Valid() && sm2.Valid() && sm1.IsValid() && sm2.IsValid()
    ensures sm1.buffer == sm2.buffer && sm1.bufferSize == sm2.bufferSize == 100
    ensures fresh(sm1.buffer) && sm1.buffer[..] == Zeros(100)
  {
    var os, first;
    os, sm1, sm2, first := SmokeSameName();
    var rest, valid5 := SmokeOtherNames(os);
    attached := first + rest;
    valid := [sm1.IsValid(), sm2.IsValid(), valid5];
  }

  /** The scalar part of the transfer half of the smoke test: an `int`, a
      `char` and a `bool` written through `sm1` at offset 0 and read through
      `sm2`, which shares its region. Only the first `int`'s bytes change. */
  method SmokeScalars(sm1: Client, sm2: Client) returns (i: Outcome<int>, c: Outcome<byte>, b: Outcome<bool>)
    requires sm1.Valid() && sm2.Valid() && sm1.IsValid() && sm2.IsValid()
    requires sm1.buffer == sm2.buffer && sm1.bufferSize == sm2.bufferSize == 100
    modifies sm1.buffer
    ensures i == Returned(10132)
    ensures c == Returned(10)
    ensures b == Returned(true)
    ensures forall k :: IntSize <= k < 100 ==> sm1.buffer[k] == old(sm1.buffer[k])
  {
    ghost var s0 := sm1.buffer[..];
    var w := sm1.WriteInt(10132, 0);
    i := sm2.ReadInt(0);
    IntWriteThenRead(s0, 0, 10132);

    w := sm1.WriteChar(10, 0);
    c := sm2.ReadChar(0);

    w := sm1.WriteBool(true, 0);
    b := sm2.ReadBool(0);
  }

  /** The string part of the transfer half of the smoke test: `L"hello world"`
      with its terminator written through `sm1` and 12 code units read back
      through `sm2`. */
  method SmokeString(sm1: Client, sm2: Client) returns (str: Outcome<seq<byte>>)
    requires sm1.Valid() && sm2.Valid() && sm1.IsValid() && sm2.IsValid()
    requires sm1.buffer == sm2.buffer && sm1.bufferSize == sm2.bufferSize == 100
    requires sm1.buffer[22] == 0 && sm1.buffer[23] == 0
    modifies sm1.buffer
    ensures str.Returned? && |str.value| == 12 * TCharSize
    ensures DecodeWide(str.value) == Widen("hello world") + [0]
  {
    var hello := Widen("hello world");
    assert hello == [0x68, 0x65, 0x6C, 0x6C, 0x6F, 0x20, 0x77, 0x6F, 0x72, 0x6C, 0x64];
    CLengthOfTerminated(hello);
    assert (hello + [0])[..11] == hello;
    var w := sm1.WriteStr(hello + [0], 0);
    str := sm2.ReadStr(12);
    assert str.value == EncodeWide(hello) + [0, 0];
    WideThenTerminator(hello);
  }

  /** The shared-memory part of the smoke test, attach then transfer. */
  method SmokeTest() returns (attached: seq<bool>, valid: seq<bool>,
                              i: Outcome<int>, c: Outcome<byte>, b: Outcome<bool>, str: Outcome<seq<byte>>)
    ensures attached == [true, true, true, true, false]
    ensures valid == [true, true, false]
    ensures i == Returned(10132)
    ensures c == Returned(10)
    ensures b == Returned(true)
    ensures str.Returned? && |str.value| == 12 * TCharSize
    ensures DecodeWide(str.value) == Widen("hello world") + [0]
  {
    var sm1, sm2;
    sm1, sm2, attached, valid := SmokeAttach();
    i, c, b := SmokeScalars(sm1, sm2);
    str := SmokeString(sm1, sm2);
  }
}
