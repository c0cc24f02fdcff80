/**
  The buffered writer: src/observer/net/buffered_writer.cpp.  No byte is lost, repeated or reordered
  between the callers and the file descriptor, whatever the descriptor answers.
 */
module BufferedWriters {
  import opened RingBuffers

  /** An answer of the system call: at most that many bytes taken, try again, or an error. */
  datatype Answer = Took(n: nat) | Again | Failed

  /** A descriptor: the answers it will give, and what it was given.  When they run out it fails. */
  class Device {
    var answers: seq<Answer>
    var sent: seq<byte>
    /** History: some call has failed. */
    ghost var failed: bool

    constructor (answers: seq<Answer>)
      ensures this.answers == answers && sent == [] && !failed
    {
      this.answers, sent, failed := answers, [], false;
    }

    /** `write(2)`: the number of bytes taken, or the failure. */
    method Write(data: seq<byte>) returns (answer: Answer)
      modifies this
      ensures |answers| <= |old(answers)| && (old(answers) != [] ==> |answers| < |old(answers)|)
      ensures old(answers) == [] ==> answer == Failed
      ensures answer.Took? ==> answer.n <= |data|
      ensures sent == if answer.Took? then old(sent) + data[..answer.n] else old(sent)
      ensures failed == (old(failed) || answer.Failed?)
    {
      if answers == [] {
        failed := true;
        return Failed;
      }
      answer := answers[0];
      failed := failed || answer.Failed?;
      answers := answers[1..];
      if answer.Took? {
        answer := Took(Min(answer.n, |data|));
        sent := sent + data[..answer.n];
      }
    }
  }

  /** Moving `n` bytes from the front of the buffer to what was sent changes nothing of the whole. */
  lemma Shifted(sent: seq<byte>, contents: seq<byte>, n: nat, chunk: seq<byte>)
    requires n <= |chunk| <= |contents| && chunk == contents[..|chunk|]
    ensures (sent + chunk[..n]) + contents[n..] == sent + contents
  {
    assert contents == contents[..n] + contents[n..];
  }

  class BufferedWriter {
    var fd: int
    const ring: RingBuffer
    const device: Device
    /** History: every byte that a call has accepted. */
    ghost var accepted: seq<byte>

    /** Conservation: what was sent and what is buffered is what was accepted, in order. */
    ghost predicate Valid()
      reads this, ring, ring.buffer, device
    {
      ring.Valid() && device.sent + ring.Contents() == accepted
    }

    constructor (fd: int, size: nat, device: Device)
      ensures Valid() && this.fd == fd && this.device == device && accepted == device.sent
      ensures ring.Capacity() == size && fresh(ring) && fresh(ring.buffer) && ring.Contents() == []
    {
      this.fd, this.device := fd, device;
      ring := new RingBuffer(size);
      new;
      accepted := device.sent;
      assert device.sent + [] == device.sent;
    }

    /** The inner loop of `flush_internal`: ask until some bytes are taken. */
    method Send(chunk: seq<byte>) returns (rc: RC, n: nat)
      requires chunk != []
      modifies device
      ensures rc == Success || rc == WriteError
      ensures |device.answers| <= |old(device.answers)|
      ensures rc == Success ==> 0 < n <= |chunk| && device.sent == old(device.sent) + chunk[..n]
      ensures rc != Success ==> device.sent == old(device.sent)
      ensures device.failed == (old(device.failed) || rc != Success)
    {
      n := 0;
      while n == 0
        invariant n <= |chunk| && device.sent == old(device.sent) + chunk[..n] && |device.answers| <= |old(device.answers)|
        invariant device.failed == old(device.failed)
        decreases if n == 0 then 1 + |device.answers| else 0
      {
        var answer := device.Write(chunk);
        if answer.Failed? {
          return WriteError, 0;
        }
        if answer.Took? {
          n := answer.n;
        }
      }
      rc := Success;
    }

    /** `flush_internal`: send at least `size` bytes, or all there are. */
    method FlushInternal(size: int) returns (rc: RC)
      requires Valid()
      modifies ring`dataSize, device
      ensures Valid() && accepted == old(accepted)
      ensures fd < 0 ==> rc == InvalidArgument
      ensures rc == Success ==> ring.Size() == 0 || old(ring.Size()) - ring.Size() >= size
      ensures ring.Size() <= old(ring.Size())
      ensures fd >= 0 ==> rc != InvalidArgument && device.failed == (old(device.failed) || rc != Success)
    {
      if fd < 0 {
        return InvalidArgument;
      }
      rc := Success;
      var writeSize := 0;
      while rc == Success && ring.Size() > 0 && size > writeSize
        invariant Valid() && rc == Success && writeSize == old(ring.Size()) - ring.Size() >= 0
        invariant device.failed == old(device.failed)
        decreases ring.Size()
      {
        var n;
        rc, n := SendSome();
        if rc != Success {
          return;
        }
        writeSize := writeSize + n;
      }
    }

    /** One round of `flush_internal`: send from the front of the buffer and move its read position on. */
    method SendSome() returns (rc: RC, n: nat)
      requires Valid() && ring.Size() > 0
      modifies ring`dataSize, device
      ensures Valid()
      ensures rc == Success || (rc == WriteError && n == 0)
      ensures rc == Success ==> n > 0
      ensures ring.Size() == old(ring.Size()) - n
      ensures device.failed == (old(device.failed) || rc != Success)
    {
      var pos, readSize := ring.Peek();
      rc, n := Send(ring.buffer[pos..pos + readSize]);
      if rc != Success {
        return WriteError, 0;
      }
      Shifted(old(device.sent), ring.Contents(), n, ring.buffer[pos..pos + readSize]);
      rc := ring.Forward(n);
    }

    /** `flush`: on success nothing is left. */
    method Flush() returns (rc: RC)
      requires Valid()
      modifies ring`dataSize, device
      ensures Valid() && accepted == old(accepted)
      ensures fd < 0 ==> rc == InvalidArgument
      ensures rc == Success ==> ring.Contents() == [] && device.sent == accepted
      ensures fd >= 0 ==> rc != InvalidArgument && device.failed == (old(device.failed) || rc != Success)
    {
      if fd < 0 {
        return InvalidArgument;
      }
      rc := Success;
      while rc == Success && ring.Size() > 0
        invariant Valid() && accepted == old(accepted)
        invariant rc != InvalidArgument && device.failed == (old(device.failed) || rc != Success)
        decreases ring.Size(), if rc == Success then 1 else 0
      {
        rc := FlushInternal(ring.Size());
      }
    }

    /** `write`: make room if there is none, then buffer what fits. */
    method Write(data: seq<byte>, size: int) returns (rc: RC, writeSize: nat)
      requires Valid() && size <= |data|
      modifies this`accepted, ring, ring.buffer, device
      ensures Valid()
      ensures fd < 0 || size < 0 ==> rc != Success
      ensures rc == Success ==> writeSize <= size && accepted == old(accepted) + data[..writeSize]
      ensures rc != Success ==> accepted == old(accepted)
      ensures rc == Success && size > 0 ==> (writeSize > 0 <==> ring.Capacity() > 0)
      ensures fd >= 0 && size >= 0 ==> rc != InvalidArgument && device.failed == (old(device.failed) || rc != Success)
    {
      if fd < 0 {
        return InvalidArgument, 0;
      }
      if ring.Remain() == 0 {
        rc := FlushInternal(size);
        if rc != Success {
          return rc, 0;
        }
      }
      rc, writeSize := Store(data, size);
    }

    method Store(data: seq<byte>, size: int) returns (rc: RC, writeSize: nat)
      requires Valid() && size <= |data|
      modifies this`accepted, ring, ring.buffer
      ensures Valid()
      ensures rc == if size < 0 then InvalidArgument else Success
      ensures rc == Success ==> writeSize == Min(size, old(ring.Remain())) && accepted == old(accepted) + data[..writeSize]
      ensures rc != Success ==> accepted == old(accepted)
    {
      ghost var contents := ring.Contents();
      rc, writeSize := ring.Write(data, size);
      if rc == Success {
        assert device.sent + (contents + data[..writeSize]) == (device.sent + contents) + data[..writeSize];
        accepted := accepted + data[..writeSize];
      }
    }

    /** `writen`: on success all of the data is accepted, otherwise a prefix; it always comes to an end. */
    method WriteN(data: seq<byte>, size: int) returns (rc: RC)
      requires Valid() && size <= |data|
      modifies this`accepted, ring, ring.buffer, device
      ensures Valid()
      ensures fd < 0 ==> rc == InvalidArgument && accepted == old(accepted)
      ensures exists k: nat :: k <= |data| && accepted == old(accepted) + data[..k] && (k <= size || k == 0) && (rc == Success ==> k >= size)
      ensures fd >= 0 && !old(device.failed) ==> (rc == Success <==> (size <= 0 || ring.Capacity() > 0) && !device.failed)
    {
      var writeSize: nat := 0;
      assert data[..0] == [];
      if fd < 0 {
        assert accepted == old(accepted) + data[..writeSize];
        return InvalidArgument;
      }
      while writeSize < size
        invariant Valid() && writeSize <= |data| && accepted == old(accepted) + data[..writeSize]
        invariant writeSize > 0 ==> writeSize <= size && ring.Capacity() > 0
        invariant device.failed == old(device.failed)
        decreases size - writeSize
      {
        var n;
        rc, n := Write(data[writeSize..], size - writeSize);
        if rc != Success {
          return;
        }
        assert data[..writeSize] + data[writeSize..][..n] == data[..writeSize + n];
        if n == 0 {
          rc := Flush();
          if rc != Success {
            return;
          }
          if ring.Remain() == 0 {
            return WriteError;
          }
          continue;
        }
        writeSize := writeSize + n;
      }
      rc := Success;
    }

    /** `close`: afterwards the writer refuses everything; on success all bytes were sent. */
    method Close() returns (rc: RC)
      requires Valid()
      modifies this`fd, ring`dataSize, device
      ensures Valid() && accepted == old(accepted)
      ensures rc == Success ==> fd < 0 && (old(fd) >= 0 ==> device.sent == accepted)
      ensures rc != Success ==> fd == old(fd)
    {
      if fd < 0 {
        return Success;
      }
      rc := Flush();
      if rc != Success {
        return;
      }
      fd := -1;
    }
  }
}
