/** The outgoing byte path of a socket (AsyncSocket.h): one cork buffer for the whole event loop, a buffer
    of unsent bytes per socket, and a kernel that may take only part of what it is given. */
module AsyncSocket {
  import opened Bytes
  import BP = BackPressure

  const CORK_BUFFER_SIZE := 16 * 1024

  class LoopData {
    const corkBuffer: array<Byte>
    var corkOffset: nat
    var corkedSocket: Socket?

    constructor ()
      ensures corkBuffer.Length == CORK_BUFFER_SIZE == 16384 && fresh(corkBuffer)
      ensures corkOffset == 0 && corkedSocket == null
    {
      corkBuffer := new Byte[CORK_BUFFER_SIZE];
      corkOffset := 0;
      corkedSocket := null;
    }
  }

  datatype SendBufferAttribute = NeedsNothing | NeedsDrain | NeedsUncork

  ghost function CorkedBy(s: Socket): seq<Byte>
    reads s.loop, s.loop.corkBuffer
    requires s.loop.corkOffset <= s.loop.corkBuffer.Length
  {
    if s.loop.corkedSocket == s then s.loop.corkBuffer[..s.loop.corkOffset] else []
  }

  /** The bytes in the kernel, then those waiting, then those corked. */
  function Joined(kernel: seq<Byte>, waiting: seq<Byte>, corked: seq<Byte>): seq<Byte> {
    kernel + waiting + corked
  }

  lemma JoinedMove(k: seq<Byte>, waiting: seq<Byte>, written: nat, corked: seq<Byte>)
    requires written <= |waiting|
    ensures Joined(k + waiting[..written], waiting[written..], corked) == Joined(k, waiting, corked)
  {
    assert waiting == waiting[..written] + waiting[written..];
  }

  lemma JoinedBehind(k: seq<Byte>, waiting: seq<Byte>, src: seq<Byte>)
    ensures Joined(k, waiting + src, []) == Joined(k, waiting, []) + src
    ensures Joined(k, waiting, src) == Joined(k, waiting, []) + src
    ensures Joined(k, waiting, src) == k + (waiting + src)
    ensures Joined(k, waiting + src, []) == (k + waiting) + src
  {
  }

  lemma JoinedCorked(k: seq<Byte>, corked: seq<Byte>, src: seq<Byte>)
    ensures Joined(k, [], corked + src) == Joined(k, [], corked) + src
    ensures Joined(k, [], corked) == k + corked
    ensures Joined(k, [], corked + src) == (k + corked) + src
  {
  }

  lemma JoinedKernel(k: seq<Byte>, src: seq<Byte>, written: nat)
    requires written <= |src|
    ensures Joined(k + src[..written], [], []) == Joined(k, [], []) + src[..written]
    ensures Joined(k + src[..written], src[written..], []) == Joined(k, [], []) + src
  {
    assert src == src[..written] + src[written..];
  }

  lemma NoneAndAll(out: seq<Byte>, src: seq<Byte>)
    ensures out + src[..0] == out && out + src[..|src|] == out + src
    ensures src[..|src|] == src && src[|src|..] == [] && [] + src == src
  {
  }

  class Socket {
    const loop: LoopData
    const pressure: BP.BackPressure
    /** Everything the kernel has taken from this socket, in order. */
    var kernel: seq<Byte>
    /** How many more bytes the kernel takes now; the environment sets this at will between calls. */
    var room: nat

    constructor (loop: LoopData)
      requires loop.corkBuffer.Length == CORK_BUFFER_SIZE && loop.corkOffset <= CORK_BUFFER_SIZE
      ensures Valid() && Outgoing() == []
      ensures this.loop == loop && fresh(pressure) && loop.corkedSocket != this
      ensures kernel == [] && room == 0 && pressure.Contents() == []
    {
      this.loop := loop;
      pressure := new BP.BackPressure();
      kernel := [];
      room := 0;
    }

    /** Bytes of this socket in the cork buffer. */
    ghost function Corked(): seq<Byte>
      reads loop, loop.corkBuffer
      requires loop.corkOffset <= loop.corkBuffer.Length
    {
      CorkedBy(this)
    }

    /** All bytes accepted for this socket, wherever they are by now, in the order they will leave. */
    ghost function Outgoing(): seq<Byte>
      reads this, loop, loop.corkBuffer, pressure
      requires loop.corkOffset <= loop.corkBuffer.Length && pressure.Paid()
    {
      Joined(kernel, pressure.Contents(), Corked())
    }

    /** The kernel's bytes come first, and when nothing waits and nothing is corked there are no others. */
    lemma KernelFirst()
      requires loop.corkOffset <= loop.corkBuffer.Length && pressure.Paid()
      ensures kernel <= Outgoing() && |Outgoing()| == |kernel| + |pressure.Contents()| + |Corked()|
      ensures Outgoing() == kernel + pressure.Contents() + Corked()
    {
    }

    /** Nothing waits behind the kernel while there is something of ours in the cork buffer. */
    ghost predicate Valid()
      reads this, loop, loop.corkBuffer, pressure
    {
      && loop.corkBuffer.Length == CORK_BUFFER_SIZE && loop.corkOffset <= CORK_BUFFER_SIZE
      && pressure.Valid()
      && (loop.corkedSocket == this && loop.corkOffset > 0 ==> pressure.Contents() == [])
    }

    /** The cork buffer is in use only while some socket is corked. */
    ghost predicate LoopIdle()
      reads loop
    {
      loop.corkedSocket == null ==> loop.corkOffset == 0
    }

    /** What a call on this socket does to the bytes other sockets have in the cork buffer: nothing. */
    twostate predicate OthersKept()
      reads loop, loop.corkBuffer
    {
      && (loop.corkedSocket == old(loop.corkedSocket) || loop.corkedSocket == this || loop.corkedSocket == null)
      && ((loop.corkedSocket != this && loop.corkedSocket != null)
          || (old(loop.corkedSocket) != this && old(loop.corkedSocket) != null && old(loop.corkOffset) > 0)
          ==> && loop.corkedSocket == old(loop.corkedSocket) && loop.corkOffset == old(loop.corkOffset)
              && loop.corkBuffer[..] == old(loop.corkBuffer[..]))
    }

    /** So every other socket keeps its outgoing bytes. */
    twostate lemma OthersKeepOutgoing(other: Socket)
      requires other != this && other.loop == loop && other.pressure != pressure
      requires unchanged(other) && unchanged(other.pressure) && OthersKept()
      requires old(other.Valid()) && loop.corkOffset <= CORK_BUFFER_SIZE
      ensures other.Valid() && other.Outgoing() == old(other.Outgoing()) && other.Corked() == old(other.Corked())
    {
      assert old(loop.corkBuffer[..loop.corkOffset]) == old(loop.corkBuffer[..])[..old(loop.corkOffset)];
      assert loop.corkBuffer[..loop.corkOffset] == loop.corkBuffer[..][..loop.corkOffset];
    }

    /** us_socket_write on an open socket: the kernel takes some prefix. */
    method KernelWrite(bytes: seq<Byte>) returns (written: nat)
      modifies this
      ensures written == if old(room) < |bytes| then old(room) else |bytes|
      ensures kernel == old(kernel) + bytes[..written] && room == old(room) - written
    {
      written := if room < |bytes| then room else |bytes|;
      kernel := kernel + bytes[..written];
      room := room - written;
    }

    /** Refused by the code if somebody else has bytes in the cork buffer. */
    method Cork()
      requires Valid() && LoopIdle()
      requires loop.corkOffset == 0 || loop.corkedSocket == this
      modifies loop
      ensures Valid() && LoopIdle() && loop.corkedSocket == this && loop.corkOffset == old(loop.corkOffset)
      ensures Outgoing() == old(Outgoing()) && OthersKept()
    {
      loop.corkedSocket := this;
    }

    /** Only right while nothing is corked, which is how it is called. */
    method UncorkWithoutSending()
      requires Valid() && LoopIdle()
      requires loop.corkedSocket == this ==> loop.corkOffset == 0
      modifies loop
      ensures Valid() && LoopIdle() && loop.corkedSocket != this
      ensures Outgoing() == old(Outgoing()) && OthersKept()
    {
      if loop.corkedSocket == this {
        loop.corkedSocket := null;
      }
    }

    /** A write that would not fit behind what is corked flushes first; if the kernel does not take all of
        that, the new bytes are not taken at all. */
    ghost predicate FlushFails(length: nat)
      reads this, loop
    {
      && loop.corkedSocket == this && loop.corkOffset > 0
      && loop.corkOffset + length > CORK_BUFFER_SIZE && room < loop.corkOffset
    }

    /** What the kernel has to take for a write of `length` bytes to leave nothing waiting. */
    ghost function Demand(length: nat): nat
      reads this, loop, pressure
      requires pressure.Paid()
    {
      |pressure.Contents()|
      + if loop.corkedSocket != this then length
        else if loop.corkOffset + length <= CORK_BUFFER_SIZE then 0
        else loop.corkOffset + length
    }

    /** What the kernel has to take before any byte of a write of `length` bytes that it does take. */
    ghost function Ahead(length: nat): nat
      reads this, loop, pressure
      requires pressure.Paid()
    {
      |pressure.Contents()| + if loop.corkedSocket == this && loop.corkOffset + length > CORK_BUFFER_SIZE then loop.corkOffset else 0
    }

    /** Writes off what has been waiting, as far as the kernel goes along. */
    method DrainFirst() returns (drained: bool)
      requires Valid()
      modifies this, pressure
      ensures Valid() && Outgoing() == old(Outgoing())
      ensures drained <==> old(room) >= |old(pressure.Contents())|
      ensures drained <==> pressure.Contents() == []
      ensures room == if drained then old(room) - |old(pressure.Contents())| else 0
      ensures |kernel| + room == old(|kernel| + room)
    {
      hide CorkedBy, Joined, BP.CostsPaid, BP.FewPending;
      var waiting := pressure.Data();
      ghost var before := kernel;
      if |waiting| > 0 {
        var written := KernelWrite(waiting);
        JoinedMove(before, waiting, written, Corked());
        if written < |waiting| {
          pressure.Erase(written);
          return false;
        }
        pressure.Clear();
        assert waiting[written..] == [];
      }
      return true;
    }

    /** The whole chunk fits behind what is corked already. */
    method AppendToCork(src: seq<Byte>)
      requires Valid() && loop.corkedSocket == this && pressure.Contents() == []
      requires loop.corkOffset + |src| <= CORK_BUFFER_SIZE
      modifies loop, loop.corkBuffer
      ensures Valid() && OthersKept() && loop.corkedSocket == this && loop.corkOffset == old(loop.corkOffset) + |src|
      ensures Outgoing() == old(Outgoing()) + src
    {
      hide Joined, BP.CostsPaid, BP.FewPending;
      var length := |src|;
      JoinedCorked(kernel, Corked(), src);
      forall i | 0 <= i < length {
        loop.corkBuffer[loop.corkOffset + i] := src[i];
      }
      loop.corkOffset := loop.corkOffset + length;
      assert Corked() == old(Corked()) + src;
    }

    /** Not corked and nothing waiting: to the kernel, and what it leaves to the socket's buffer. */
    method WriteDirect(src: seq<Byte>, optionally: bool) returns (count: nat, failed: bool)
      requires Valid() && loop.corkedSocket != this && pressure.Contents() == []
      modifies this, pressure
      ensures Valid() && count <= |src| && Outgoing() == old(Outgoing()) + src[..count]
      ensures failed <==> old(room) < |src|
      ensures room == if failed then 0 else old(room) - |src|
      ensures !failed ==> count == |src| && pressure.Contents() == []
      ensures !optionally ==> count == |src| && (failed ==> pressure.Contents() != [])
      ensures optionally && failed ==> count == old(room)
      ensures |kernel| + room == old(|kernel| + room)
    {
      hide CorkedBy, Joined, BP.CostsPaid, BP.FewPending;
      CorkedIs();
      NoneAndAll([], src);
      ghost var before := kernel;
      var written := KernelWrite(src);
      JoinedKernel(before, src, written);
      if written < |src| {
        NoneAndAll([], src[written..]);
        if optionally {
          return written, true;
        }
        pressure.Append(src[written..]);
        return |src|, true;
      }
      return |src|, false;
    }

    /** Cork buffer, kernel, or the socket's own buffer, in this order; drains first if it can. `count` is the
        number of bytes of `src` accepted anywhere, `failed` that there are bytes the kernel did not take. */
    method Write(src: seq<Byte>, optionally: bool) returns (count: nat, failed: bool)
      requires Valid()
      modifies this, pressure, loop, loop.corkBuffer
      ensures Valid() && OthersKept() && (old(LoopIdle()) ==> LoopIdle())
      ensures count <= |src| && Outgoing() == old(Outgoing()) + src[..count]
      ensures failed <==> old(room) < old(Demand(|src|))
      ensures room == if failed then 0 else old(room) - old(Demand(|src|))
      ensures !failed ==> count == |src| && pressure.Contents() == []
      ensures !optionally ==> (count == if old(FlushFails(|src|)) then 0 else |src|)
      ensures !optionally && failed ==> pressure.Contents() != []
      ensures optionally && failed ==>
                count == if old(room) < old(Ahead(|src|)) then 0 else old(room) - old(Ahead(|src|))
      ensures |kernel| + room == old(|kernel| + room)
      ensures old(loop.corkedSocket) != this ==>
                && loop.corkedSocket == old(loop.corkedSocket) && loop.corkOffset == old(loop.corkOffset)
                && loop.corkBuffer[..] == old(loop.corkBuffer[..])
      ensures old(loop.corkedSocket == this && loop.corkOffset + |src| <= CORK_BUFFER_SIZE) ==>
                && loop.corkedSocket == this
                && loop.corkOffset == old(loop.corkOffset) + if failed then 0 else |src|
      decreases if loop.corkedSocket == this then 3 else 1, 0
    {
      hide CorkedBy, Outgoing, BP.CostsPaid, BP.FewPending;
      NothingCorked();
      NoneAndAll(Outgoing(), src);
      var drained := DrainFirst();
      if !drained {
        if optionally {
          return 0, true;
        }
        AppendWaiting(src);
        return |src|, true;
      }
      count, failed := Place(src, optionally);
    }

    /** Behind what is waiting already. */
    method AppendWaiting(src: seq<Byte>)
      requires Valid() && pressure.Contents() != []
      modifies pressure
      ensures Valid() && Outgoing() == old(Outgoing()) + src && pressure.Contents() == old(pressure.Contents()) + src
    {
      hide CorkedBy, Joined, BP.CostsPaid, BP.FewPending;
      NothingCorked();
      JoinedBehind(kernel, pressure.Contents(), src);
      pressure.Append(src);
    }

    /** What is in the cork buffer of ours; nothing while bytes wait. */
    lemma NothingCorked()
      requires Valid()
      ensures pressure.Contents() != [] ==> Corked() == [] && (loop.corkedSocket == this ==> loop.corkOffset == 0)
    {
    }

    lemma CorkedIs()
      requires loop.corkOffset <= loop.corkBuffer.Length
      ensures Corked() == if loop.corkedSocket == this then loop.corkBuffer[..loop.corkOffset] else []
    {
    }

    /** Nothing is waiting: into the cork buffer if it is ours and there is room, or through it, or directly. */
    method Place(src: seq<Byte>, optionally: bool) returns (count: nat, failed: bool)
      requires Valid() && pressure.Contents() == []
      modifies this, pressure, loop, loop.corkBuffer
      ensures Valid() && OthersKept() && (old(LoopIdle()) ==> LoopIdle())
      ensures count <= |src| && Outgoing() == old(Outgoing()) + src[..count]
      ensures failed <==> old(room) < old(Demand(|src|))
      ensures room == if failed then 0 else old(room) - old(Demand(|src|))
      ensures !failed ==> count == |src| && pressure.Contents() == []
      ensures !optionally ==> (count == if old(FlushFails(|src|)) then 0 else |src|)
      ensures !optionally && failed ==> pressure.Contents() != []
      ensures optionally && failed ==>
                count == if old(room) < old(Ahead(|src|)) then 0 else old(room) - old(Ahead(|src|))
      ensures |kernel| + room == old(|kernel| + room)
      ensures old(loop.corkedSocket) != this ==>
                && loop.corkedSocket == old(loop.corkedSocket) && loop.corkOffset == old(loop.corkOffset)
                && loop.corkBuffer[..] == old(loop.corkBuffer[..])
      ensures old(loop.corkedSocket == this && loop.corkOffset + |src| <= CORK_BUFFER_SIZE) ==>
                && loop.corkedSocket == this && !failed && loop.corkOffset == old(loop.corkOffset) + |src|
      decreases if loop.corkedSocket == this then 2 else 0, 1
    {
      hide CorkedBy, Outgoing, OthersKept, BP.CostsPaid, BP.FewPending;
      if |src| == 0 {
        NoneAndAll(Outgoing(), src);
        NothingMoved();
        return 0, false;
      }
      if loop.corkedSocket == this {
        count, failed := PlaceCorked(src, optionally);
      } else {
        count, failed := WriteDirect(src, optionally);
        NothingMoved();
      }
    }

    /** A call that leaves the loop alone. */
    twostate lemma NothingMoved()
      requires unchanged(loop) && unchanged(loop.corkBuffer)
      ensures OthersKept()
    {
    }

    /** Behind what is corked if it fits, else all of it out. */
    method PlaceCorked(src: seq<Byte>, optionally: bool) returns (count: nat, failed: bool)
      requires Valid() && pressure.Contents() == [] && loop.corkedSocket == this
      modifies this, pressure, loop, loop.corkBuffer
      ensures Valid() && OthersKept() && (old(LoopIdle()) ==> LoopIdle())
      ensures count <= |src| && Outgoing() == old(Outgoing()) + src[..count]
      ensures !failed ==> count == |src| && pressure.Contents() == []
      ensures if old(loop.corkOffset) + |src| <= CORK_BUFFER_SIZE then
                && !failed && room == old(room)
                && loop.corkedSocket == this && loop.corkOffset == old(loop.corkOffset) + |src|
              else
                && (failed <==> old(room) < old(loop.corkOffset) + |src|)
                && room == (if failed then 0 else old(room) - (old(loop.corkOffset) + |src|))
                && (!optionally ==> (count == if old(room < loop.corkOffset) then 0 else |src|))
                && (!optionally && failed ==> pressure.Contents() != [])
                && (optionally && failed ==>
                      count == if old(room < loop.corkOffset) then 0 else old(room - loop.corkOffset))
      ensures |kernel| + room == old(|kernel| + room)
      decreases 2, 0
    {
      hide CorkedBy, Outgoing, BP.CostsPaid, BP.FewPending;
      if CORK_BUFFER_SIZE - loop.corkOffset >= |src| {
        NoneAndAll(Outgoing(), src);
        AppendToCork(src);
        return |src|, false;
      }
      count, failed := Uncork(src, optionally);
    }

    /** Gives up the cork buffer: what is in it goes the way of an ordinary write. */
    method Flush() returns (failed: bool)
      requires Valid() && loop.corkedSocket == this
      modifies this, pressure, loop, loop.corkBuffer
      ensures Valid() && loop.corkedSocket == null && loop.corkOffset == 0
      ensures Outgoing() == old(Outgoing())
      ensures failed <==> old(room < loop.corkOffset)
      ensures failed ==> pressure.Contents() != [] && room == 0
      ensures !failed ==> room == old(room - loop.corkOffset)
                          && pressure.Contents() == (if old(loop.corkOffset) == 0 then old(pressure.Contents()) else [])
      ensures |kernel| + room == old(|kernel| + room)
      decreases 1, 1
    {
      hide CorkedBy, Joined, BP.CostsPaid, BP.FewPending;
      CorkedIs();
      ghost var corked := Corked();
      loop.corkedSocket := null;
      CorkedIs();
      JoinedBehind(kernel, pressure.Contents(), corked);
      NoneAndAll(Outgoing(), corked);
      failed := false;
      if loop.corkOffset > 0 {
        var written;
        written, failed := Write(loop.corkBuffer[..loop.corkOffset], false);
        CorkedIs();
        loop.corkOffset := 0;
      }
      CorkedIs();
    }

    /** Flushes what is corked, then writes `src`; counts only bytes of `src`. */
    method Uncork(src: seq<Byte>, optionally: bool) returns (count: nat, failed: bool)
      requires Valid()
      modifies this, pressure, loop, loop.corkBuffer
      ensures Valid() && OthersKept() && (old(LoopIdle()) ==> LoopIdle())
      ensures count <= |src| && Outgoing() == old(Outgoing()) + src[..count]
      ensures old(loop.corkedSocket) != this ==>
                count == 0 && !failed && unchanged(this) && unchanged(pressure) && unchanged(loop) && unchanged(loop.corkBuffer)
      ensures |kernel| + room == old(|kernel| + room)
      ensures old(loop.corkedSocket) == this ==>
                && loop.corkedSocket == null && loop.corkOffset == 0
                && (failed <==> old(room) < |old(pressure.Contents())| + old(loop.corkOffset) + |src|)
                && room == (if failed then 0 else old(room) - (|old(pressure.Contents())| + old(loop.corkOffset) + |src|))
                && (!failed ==> count == |src| && pressure.Contents() == [])
                && (!optionally ==> (count == if old(room < loop.corkOffset) then 0 else |src|))
                && (!optionally && failed ==> pressure.Contents() != [])
                && (optionally && failed ==>
                      count == if old(room) < |old(pressure.Contents())| + old(loop.corkOffset) then 0
                               else old(room) - |old(pressure.Contents())| - old(loop.corkOffset))
      decreases 1, 2
    {
      hide CorkedBy, Outgoing, BP.CostsPaid, BP.FewPending;
      NothingCorked();
      NoneAndAll(Outgoing(), src);
      if loop.corkedSocket != this {
        return 0, false;
      }
      var flushFailed := Flush();
      if flushFailed {
        return 0, true;
      }
      count, failed := Write(src, optionally);
    }

    /** A slot of `size` bytes for the caller to fill in: the last thing in the buffer it lies in, and
        nothing of this socket comes after it. */
    ghost predicate SlotOk(attribute: SendBufferAttribute, offset: nat, size: nat)
      reads this, loop, loop.corkBuffer, pressure
    {
      && Valid()
      && if attribute.NeedsDrain? then offset + size == |pressure.Contents()| && Corked() == []
         else loop.corkedSocket == this && pressure.Contents() == [] && offset + size == loop.corkOffset
    }

    /** The outgoing bytes ahead of the slot. */
    ghost function AheadOfSlot(attribute: SendBufferAttribute, offset: nat, size: nat): seq<Byte>
      reads this, loop, loop.corkBuffer, pressure
      requires SlotOk(attribute, offset, size)
    {
      kernel + if attribute.NeedsDrain? then pressure.Contents()[..offset] else loop.corkBuffer[..offset]
    }

    /** Finds room for `size` bytes behind everything accepted so far: in the cork buffer if it is ours or
        free and nothing waits, otherwise in the socket's own buffer. */
    method GetSendBuffer(size: nat) returns (attribute: SendBufferAttribute, offset: nat)
      requires Valid() && LoopIdle()
      modifies pressure, loop
      ensures SlotOk(attribute, offset, size) && LoopIdle() && OthersKept()
      ensures AheadOfSlot(attribute, offset, size) == old(Outgoing())
      ensures attribute.NeedsUncork? ==> old(loop.corkedSocket) == null
      ensures attribute.NeedsNothing? ==> old(loop.corkedSocket) == this
      ensures attribute.NeedsDrain? <==>
                old(pressure.Contents() != [] || (loop.corkedSocket != this && loop.corkedSocket != null)
                    || loop.corkOffset + size >= CORK_BUFFER_SIZE)
    {
      hide CorkedBy, Joined, BP.CostsPaid, BP.FewPending;
      CorkedIs();
      JoinedCorked(kernel, Corked(), []);
      var existing := pressure.Length();
      if existing == 0 && (loop.corkedSocket == this || loop.corkedSocket == null)
         && loop.corkOffset + size < CORK_BUFFER_SIZE {
        if loop.corkedSocket == this {
          attribute := NeedsNothing;
        } else {
          Cork();
          attribute := NeedsUncork;
        }
        offset := loop.corkOffset;
        loop.corkOffset := loop.corkOffset + size;
        CorkedIs();
      } else {
        offset := GrowPressure(size, existing);
        attribute := NeedsDrain;
      }
    }

    /** Takes back what is corked, puts it behind what waits, and leaves room for `size` bytes more. */
    method GrowPressure(size: nat, existing: nat) returns (offset: nat)
      requires Valid() && LoopIdle() && existing == |pressure.Contents()|
      modifies pressure, loop
      ensures Valid() && LoopIdle() && OthersKept() && loop.corkedSocket == old(loop.corkedSocket) && Corked() == []
      ensures offset + size == |pressure.Contents()|
      ensures kernel + pressure.Contents()[..offset] == old(Outgoing())
    {
      JoinedBehind(kernel, pressure.Contents(), Corked());
      hide Joined, BP.CostsPaid;
      var corked: seq<Byte> := [];
      if loop.corkedSocket == this && loop.corkOffset > 0 {
        corked := loop.corkBuffer[..loop.corkOffset];
        loop.corkOffset := 0;
      }
      ghost var before := pressure.Contents();
      offset := existing + |corked|;
      pressure.Resize(offset + size);
      assert pressure.Contents()[..existing] == before;
      pressure.Overwrite(existing, corked);
      assert pressure.Contents()[..offset] == before + corked;
    }

    /** Fills the slot in. */
    method Fill(attribute: SendBufferAttribute, offset: nat, bytes: seq<Byte>)
      requires SlotOk(attribute, offset, |bytes|)
      modifies pressure, loop.corkBuffer
      ensures SlotOk(attribute, offset, |bytes|) && OthersKept()
      ensures Outgoing() == old(AheadOfSlot(attribute, offset, |bytes|)) + bytes
    {
      hide Joined;
      if attribute.NeedsDrain? {
        JoinedBehind(kernel, pressure.Contents()[..offset], bytes);
        pressure.Overwrite(offset, bytes);
        assert pressure.Contents() == old(pressure.Contents()[..offset]) + bytes;
      } else {
        JoinedCorked(kernel, loop.corkBuffer[..offset], bytes);
        forall i | offset <= i < offset + |bytes| {
          loop.corkBuffer[i] := bytes[i - offset];
        }
        assert Corked() == old(loop.corkBuffer[..offset]) + bytes;
      }
    }
  }
}
