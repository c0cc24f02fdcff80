/**
  The ring buffer: src/observer/net/ring_buffer.cpp and src/observer/net/ring_buffer.h.  It refines a
  first-in first-out sequence of bytes.
 */
module RingBuffers {
  type byte = x: int | 0 <= x < 256

  datatype RC = Success | InvalidArgument | WriteError

  /** Place `i` of a run that starts at `start` in a buffer of `cap` bytes. */
  function Slot(start: nat, i: nat, cap: nat): nat {
    if start + i < cap then start + i else start + i - cap
  }

  /** The run of `n` bytes from `start`, around the end of the buffer. */
  function Ring(b: seq<byte>, start: nat, n: nat): (r: seq<byte>)
    requires n <= |b| && (n > 0 ==> start < |b|)
    ensures |r| == n && forall i :: 0 <= i < n ==> r[i] == b[Slot(start, i, |b|)]
  {
    seq(n, i requires 0 <= i < n => b[Slot(start, i, |b|)])
  }

  function Min(a: int, b: int): int {
    if a <= b then a else b
  }

  class RingBuffer {
    const buffer: array<byte>
    var dataSize: int
    var writePos: int

    ghost predicate Valid()
      reads this
    {
      && 0 <= dataSize <= buffer.Length
      && 0 <= writePos && (writePos < buffer.Length || writePos == 0)
    }

    ghost function Start(): (p: nat)
      requires Valid()
      reads this
      ensures buffer.Length > 0 ==> p < buffer.Length
    {
      if writePos >= dataSize then writePos - dataSize else writePos - dataSize + buffer.Length
    }

    /** The bytes in the buffer, oldest first. */
    ghost function Contents(): (s: seq<byte>)
      requires Valid()
      reads this, buffer
      ensures |s| == dataSize
    {
      Ring(buffer[..], Start(), dataSize)
    }

    constructor (size: nat)
      ensures Valid() && Contents() == [] && buffer.Length == size && fresh(buffer)
    {
      buffer := new byte[size](_ => 0);
      dataSize, writePos := 0, 0;
    }

    function Capacity(): nat {
      buffer.Length
    }

    function Size(): int
      reads this
    {
      dataSize
    }

    function Remain(): int
      reads this
    {
      buffer.Length - dataSize
    }

    /** Where the oldest byte is. */
    function ReadPos(): (p: int)
      requires Valid() && buffer.Length > 0
      reads this
      ensures p == Start()
    {
      WrapOnce(writePos - dataSize + buffer.Length, buffer.Length);
      (writePos - dataSize + buffer.Length) % buffer.Length
    }

    /** `buffer`: the longest run of oldest bytes that does not wrap around. */
    method Peek() returns (pos: nat, readSize: nat)
      requires Valid()
      ensures readSize <= Size() && (Size() > 0 ==> readSize > 0)
      ensures pos + readSize <= buffer.Length && buffer[pos..pos + readSize] == Contents()[..readSize]
      ensures readSize == Size() || pos + readSize == buffer.Length
    {
      if Size() == 0 {
        return 0, 0;
      }
      pos := ReadPos();
      if pos < writePos {
        readSize := writePos - pos;
      } else {
        readSize := buffer.Length - pos;
      }
    }

    /** `forward`: drop the oldest bytes. */
    method Forward(size: int) returns (rc: RC)
      requires Valid()
      modifies this`dataSize
      ensures Valid()
      ensures rc == if 0 < size <= old(Size()) then Success else InvalidArgument
      ensures Contents() == if rc == Success then old(Contents())[size..] else old(Contents())
    {
      if size <= 0 {
        return InvalidArgument;
      }
      if size > Size() {
        return InvalidArgument;
      }
      dataSize := dataSize - size;
      return Success;
    }

    /** Copy `n` bytes to the write position, into free space that does not wrap around. */
    method Append(data: seq<byte>, n: nat)
      requires Valid() && 0 < n <= |data| && n <= Remain() && writePos + n <= buffer.Length
      modifies this, buffer
      ensures Valid() && Contents() == old(Contents()) + data[..n]
    {
      ghost var before, start, was := Contents(), Start(), buffer[..];
      forall i | 0 <= i < n {
        buffer[writePos + i] := data[i];
      }
      assert forall i :: 0 <= i < dataSize ==> before[i] == was[Slot(start, i, |was|)];
      assert forall i :: 0 <= i < dataSize ==> buffer[Slot(start, i, buffer.Length)] == was[Slot(start, i, |was|)];
      WrapOnce(writePos + n, buffer.Length);
      writePos := (writePos + n) % buffer.Length;
      dataSize := dataSize + n;
      assert Start() == start || before == [];
    }

    /** `write`: take as much as there is room for. */
    method Write(data: seq<byte>, size: int) returns (rc: RC, writeSize: nat)
      requires Valid() && size <= |data|
      modifies this, buffer
      ensures Valid()
      ensures rc == if size < 0 then InvalidArgument else Success
      ensures rc == Success ==> writeSize == Min(size, old(Remain()))
      ensures Contents() == if rc == Success then old(Contents()) + data[..writeSize] else old(Contents())
    {
      writeSize := 0;
      if size < 0 {
        return InvalidArgument, 0;
      }
      if size == 0 {
        return Success, 0;
      }
      while writeSize < size && Remain() > 0
        invariant Valid() && 0 <= writeSize <= size && writeSize + Remain() == old(Remain())
        invariant Contents() == old(Contents()) + data[..writeSize]
        decreases size - writeSize
      {
        var readPos := ReadPos();
        var room;
        if readPos == writePos && Remain() > 0 {
          room := buffer.Length - writePos;
        } else {
          room := if readPos <= writePos then buffer.Length - writePos else readPos - writePos;
        }
        var n := Min(size - writeSize, room);
        if n <= 0 {
          break;
        }
        Append(data[writeSize..], n);
        assert data[..writeSize] + data[writeSize..][..n] == data[..writeSize + n];
        writeSize := writeSize + n;
      }
      rc := Success;
    }

    /** `read`: move the oldest bytes to the caller's memory. */
    method Read(buf: array<byte>, size: int) returns (rc: RC, readSize: nat)
      requires Valid() && size <= buf.Length && buf != buffer
      modifies this`dataSize, buf
      ensures Valid()
      ensures rc == if size < 0 then InvalidArgument else Success
      ensures rc == Success ==> readSize == Min(size, old(Size()))
      ensures rc == Success ==> buf[..readSize] == old(Contents())[..readSize] && Contents() == old(Contents())[readSize..]
      ensures rc != Success ==> Contents() == old(Contents()) && readSize == 0
      ensures buf[readSize..] == old(buf[..])[readSize..]
    {
      readSize := 0;
      if size < 0 {
        return InvalidArgument, 0;
      }
      rc := Success;
      ghost var all, was := Contents(), buf[..];
      while rc == Success && readSize < size && Size() > 0
        invariant Valid() && rc == Success && 0 <= readSize <= size && readSize + Size() == |all|
        invariant Taken(all, was, Contents(), buf[..], readSize)
        decreases size - readSize
      {
        ghost var rest, bytes := Contents(), buf[..];
        var n;
        rc, n := MoveOut(buf, readSize, size - readSize);
        ReadMore(all, was, rest, bytes, buf[..], readSize, n);
        readSize := readSize + n;
      }
    }

    /** One round of `read`: move up to `max` bytes that do not wrap around. */
    method MoveOut(buf: array<byte>, at: nat, max: nat) returns (rc: RC, n: nat)
      requires Valid() && buf != buffer && at + max <= buf.Length && max > 0 && Size() > 0
      modifies this`dataSize, buf
      ensures Valid() && rc == Success && 0 < n <= max && n <= old(Size())
      ensures Contents() == old(Contents())[n..]
      ensures buf[..][..at + n] == old(buf[..])[..at] + old(Contents())[..n] && buf[..][at + n..] == old(buf[..])[at + n..]
    {
      var pos, chunk := Peek();
      n := Min(max, chunk);
      assert buffer[pos..pos + n] == buffer[pos..pos + chunk][..n];
      CopyOut(buf, at, pos, n);
      rc := Forward(n);
    }

    method CopyOut(buf: array<byte>, at: nat, pos: nat, n: nat)
      requires Valid() && buf != buffer && at + n <= buf.Length && pos + n <= buffer.Length && n <= Size()
      requires buffer[pos..pos + n] == Contents()[..n]
      modifies buf
      ensures buf[..at + n] == old(buf[..at]) + Contents()[..n] && buf[at + n..] == old(buf[..])[at + n..]
      ensures Contents() == old(Contents())
    {
      forall i | 0 <= i < n {
        buf[at + i] := buffer[pos + i];
      }
      assert buf[at..at + n] == buffer[pos..pos + n];
      assert buf[..at + n] == buf[..at] + buf[at..at + n];
    }
  }

  /** `k` of the bytes `all` are in memory that held `was`; `rest` are the others. */
  ghost predicate Taken(all: seq<byte>, was: seq<byte>, rest: seq<byte>, bytes: seq<byte>, k: nat) {
    k <= |all| && k <= |was| && |bytes| == |was| && rest == all[k..] && bytes[..k] == all[..k] && bytes[k..] == was[k..]
  }

  lemma ReadMore(all: seq<byte>, was: seq<byte>, rest: seq<byte>, before: seq<byte>, after: seq<byte>, k: nat, n: nat)
    requires Taken(all, was, rest, before, k) && n <= |rest| && |after| == |before| && k + n <= |before|
    requires after[..k + n] == before[..k] + rest[..n] && after[k + n..] == before[k + n..]
    ensures Taken(all, was, rest[n..], after, k + n)
  {
    assert all[..k] + all[k..][..n] == all[..k + n] && all[k..][n..] == all[k + n..];
    assert before[k..][n..] == before[k + n..] && was[k..][n..] == was[k + n..];
  }

  lemma WrapOnce(x: int, cap: nat)
    requires cap > 0 && 0 <= x < 2 * cap
    ensures x % cap == if x < cap then x else x - cap
  {
    if x >= cap {
      assert x == cap * 1 + (x - cap);
    }
  }
}
