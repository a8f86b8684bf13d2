/** The growable gap buffer: a byte vector with a prependable, a readable and a writable part. */
module BufferModule {
  import opened Bytes

  const PREPEND := 8
  const INITIAL_SIZE := 1024
  const EXTRA_BUF := 65536

  /** What a read system call did: delivered bytes, or failed with an errno. */
  datatype ReadResult = Data(bytes: seq<byte>) | Error(errno: int)

  /** std::copy inside one vector, element by element; the target may overlap the source from below. */
  method CopyDown(s: seq<byte>, first: nat, last: nat, dest: nat) returns (r: seq<byte>)
    requires dest <= first <= last <= |s|
    ensures r == s[..dest] + s[first..last] + s[dest + (last - first)..]
  {
    r := s;
    var i := 0;
    while i < last - first
      invariant 0 <= i <= last - first && |r| == |s|
      invariant forall k :: 0 <= k < dest ==> r[k] == s[k]
      invariant forall k :: dest <= k < dest + i ==> r[k] == s[k - dest + first]
      invariant forall k :: dest + i <= k < |s| ==> r[k] == s[k]
    {
      r := r[dest + i := r[first + i]];
      i := i + 1;
    }
  }

  /** Overwrites part of a vector with other bytes. */
  function Splice(s: seq<byte>, at: nat, data: seq<byte>): (r: seq<byte>)
    requires at + |data| <= |s|
    ensures |r| == |s| && r[..at] == s[..at] && r[at..at + |data|] == data && r[at + |data|..] == s[at + |data|..]
  {
    s[..at] + data + s[at + |data|..]
  }

  class Buffer {
    var storage: seq<byte>
    var readIndex: nat
    var writeIndex: nat

    predicate Valid()
      reads this
    {
      PREPEND <= |storage| && readIndex <= writeIndex <= |storage|
    }

    /** The readable bytes: the abstract value of the buffer. */
    function Contents(): seq<byte>
      reads this
      requires Valid()
    {
      storage[readIndex..writeIndex]
    }

    function ReadableBytes(): nat
      reads this
      requires Valid()
      ensures ReadableBytes() == |Contents()|
    {
      writeIndex - readIndex
    }

    function WritableBytes(): nat
      reads this
      requires Valid()
    {
      |storage| - writeIndex
    }

    function PrependableBytes(): nat
      reads this
    {
      readIndex
    }

    constructor (initialSize: nat)
      ensures Valid() && Contents() == []
      ensures WritableBytes() == initialSize && PrependableBytes() == 8 == PREPEND
    {
      storage := seq(PREPEND + initialSize, i => 0);
      readIndex := PREPEND;
      writeIndex := PREPEND;
    }

    method Retrieve(len: nat)
      requires Valid() && len <= ReadableBytes()
      modifies this
      ensures Valid() && Contents() == old(Contents())[len..]
      ensures PREPEND <= old(readIndex) ==> PREPEND <= readIndex
    {
      if len < ReadableBytes() {
        readIndex := readIndex + len;
      } else {
        RetrieveAll();
      }
    }

    /** `end` is an offset from the first readable byte. */
    method RetrieveUntil(end: nat)
      requires Valid() && 0 < end <= ReadableBytes()
      modifies this
      ensures Valid() && Contents() == old(Contents())[end..]
      ensures PREPEND <= old(readIndex) ==> PREPEND <= readIndex
    {
      Retrieve(end);
    }

    method RetrieveAll()
      requires Valid()
      modifies this
      ensures Valid() && Contents() == [] && readIndex == PREPEND && storage == old(storage)
    {
      readIndex := PREPEND;
      writeIndex := PREPEND;
    }

    method RetrieveAsString(len: nat) returns (result: seq<byte>)
      requires Valid() && len <= ReadableBytes()
      modifies this
      ensures Valid() && result == old(Contents())[..len] && Contents() == old(Contents())[len..]
      ensures PREPEND <= old(readIndex) ==> PREPEND <= readIndex
    {
      result := storage[readIndex..readIndex + len];
      Retrieve(len);
    }

    method RetrieveAllAsString() returns (result: seq<byte>)
      requires Valid()
      modifies this
      ensures Valid() && result == old(Contents()) && Contents() == []
      ensures PREPEND <= old(readIndex) ==> PREPEND <= readIndex
    {
      result := RetrieveAsString(ReadableBytes());
    }

    /** Moves the readable bytes down to the reserved prefix and, when that is not enough, grows. */
    method MakeSpace(len: nat)
      requires Valid() && PREPEND <= readIndex
      modifies this
      ensures Valid() && Contents() == old(Contents()) && readIndex == PREPEND
      ensures WritableBytes() >= len
      ensures |storage| >= old(|storage|)
      ensures |storage| > old(|storage|) <==> old(WritableBytes() + PrependableBytes()) < len + PREPEND
      ensures |storage| > old(|storage|) ==> WritableBytes() == len
    {
      var readable := ReadableBytes();
      if WritableBytes() + PrependableBytes() < len + PREPEND {
        storage := CopyDown(storage, readIndex, writeIndex, PREPEND);
        readIndex := PREPEND;
        writeIndex := PREPEND + readable;
        storage := Resize(storage, writeIndex + len);
      } else {
        storage := CopyDown(storage, readIndex, writeIndex, PREPEND);
        readIndex := PREPEND;
        writeIndex := PREPEND + readable;
      }
    }

    method EnsureWritableBytes(len: nat)
      requires Valid() && (PREPEND <= readIndex || len <= WritableBytes())
      modifies this
      ensures Valid() && Contents() == old(Contents()) && WritableBytes() >= len
      ensures |storage| >= old(|storage|)
      ensures if len <= old(WritableBytes()) then readIndex == old(readIndex) else readIndex == PREPEND
    {
      if WritableBytes() < len {
        MakeSpace(len);
      }
    }

    method Append(data: seq<byte>)
      requires Valid() && (PREPEND <= readIndex || |data| <= WritableBytes())
      modifies this
      ensures Valid() && Contents() == old(Contents()) + data
      ensures if |data| <= old(WritableBytes()) then readIndex == old(readIndex) else readIndex == PREPEND
    {
      EnsureWritableBytes(|data|);
      storage := Splice(storage, writeIndex, data);
      writeIndex := writeIndex + |data|;
      assert storage[readIndex..writeIndex] == storage[..writeIndex - |data|][readIndex..] + data;
    }

    method Prepend(data: seq<byte>)
      requires Valid() && |data| <= PrependableBytes()
      modifies this
      ensures Valid() && Contents() == data + old(Contents())
      ensures readIndex == old(readIndex) - |data| && |storage| == old(|storage|) && writeIndex == old(writeIndex)
    {
      readIndex := readIndex - |data|;
      storage := Splice(storage, readIndex, data);
    }

    // ----- Integers in network byte order; widths 1, 2, 4 and 8 are the source's four variants -----

    method AppendInt(width: nat, x: int)
      requires Valid() && (PREPEND <= readIndex || width <= WritableBytes())
      modifies this
      ensures Valid() && Contents() == old(Contents()) + EncodeInt(width, x)
      ensures if width <= old(WritableBytes()) then readIndex == old(readIndex) else readIndex == PREPEND
    {
      Append(EncodeInt(width, x));
    }

    method PrependInt(width: nat, x: int)
      requires Valid() && width <= PrependableBytes()
      modifies this
      ensures Valid() && Contents() == EncodeInt(width, x) + old(Contents())
      ensures readIndex == old(readIndex) - width
    {
      Prepend(EncodeInt(width, x));
    }

    function PeekInt(width: nat): int
      reads this
      requires Valid() && width <= ReadableBytes()
      ensures width > 0 ==>
        forall x :: FitsSigned(width, x) && Contents()[..width] == EncodeInt(width, x) ==> PeekInt(width) == x
    {
      assert width > 0 ==> forall x :: FitsSigned(width, x) && Contents()[..width] == EncodeInt(width, x) ==>
          DecodeInt(EncodeInt(width, x)) == x by {
        forall x | width > 0 {
          IntRoundTrip(width, x);
        }
      }
      DecodeInt(Contents()[..width])
    }

    method ReadInt(width: nat) returns (x: int)
      requires Valid() && width <= ReadableBytes()
      modifies this
      ensures Valid() && x == DecodeInt(old(Contents())[..width]) && Contents() == old(Contents())[width..]
      ensures PREPEND <= old(readIndex) ==> PREPEND <= readIndex
    {
      x := PeekInt(width);
      Retrieve(width);
    }

    /** What one scatter read can deliver: the writable part, and the stack buffer when that is short. */
    function ReadCapacity(): (n: nat)
      reads this
      requires Valid()
      ensures n >= 65536
    {
      WritableBytes() + (if WritableBytes() < EXTRA_BUF then EXTRA_BUF else 0)
    }

    /** readv into the writable part and, beyond it, into a stack buffer that is then appended. */
    method ReadFd(result: ReadResult) returns (n: int, savedErrno: int)
      requires Valid() && PREPEND <= readIndex
      requires result.Data? ==> |result.bytes| <= ReadCapacity()
      modifies this
      ensures Valid() && PREPEND <= readIndex
      ensures result.Data? ==> n == |result.bytes| && Contents() == old(Contents()) + result.bytes
      ensures result.Error? ==> n == -1 && savedErrno == result.errno && Contents() == old(Contents())
    {
      savedErrno := 0;
      if result.Error? {
        return -1, result.errno;
      }
      n := |result.bytes|;
      var writable := WritableBytes();
      var direct := if n <= writable then n else writable;
      ghost var before := Contents();
      storage := Splice(storage, writeIndex, result.bytes[..direct]);
      var extraBuf := result.bytes[direct..];
      assert storage[..writeIndex] == old(storage)[..writeIndex];
      assert storage[readIndex..writeIndex] == storage[..writeIndex][readIndex..];
      assert storage[readIndex..writeIndex + direct] == before + result.bytes[..direct];
      if n <= writable {
        writeIndex := writeIndex + n;
      } else {
        writeIndex := |storage|;
        assert Contents() == before + result.bytes[..direct];
        Append(extraBuf);
      }
      assert result.bytes == result.bytes[..direct] + result.bytes[direct..];
    }

    /** First occurrence of a string at or after an offset; a match at the very end counts as none. */
    method FindSubString(needle: seq<byte>, start: nat) returns (r: Option<nat>)
      requires Valid() && start <= ReadableBytes()
      ensures needle != [] ==> r == IndexOf(Contents(), needle, start)
      ensures needle == [] ==> r == if start == ReadableBytes() then None else Some(start)
    {
      r := IndexOf(Contents(), needle, start);
      if r == Some(ReadableBytes()) {
        r := None;
      }
    }
  }

  /** vector::resize to a size that is not smaller. */
  function Resize(s: seq<byte>, size: nat): (r: seq<byte>)
    requires size >= |s|
    ensures |r| == size && r[..|s|] == s
  {
    s + seq(size - |s|, i => 0)
  }
}
