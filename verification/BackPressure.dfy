/** The per-socket output buffer (AsyncSocketData.h): a byte queue whose front is removed lazily. */
module BackPressure {
  import opened Bytes

  /** Moving bytes is paid for by the bytes erased: at most 31 for each. */
  predicate CostsPaid(pendingRemoval: nat, erased: nat, copied: nat) {
    copied + 31 * pendingRemoval <= 31 * erased
  }

  /** At most one thirty-second is waiting to be removed. */
  predicate FewPending(pendingRemoval: nat, length: nat) {
    pendingRemoval <= length / 32
  }

  class BackPressure {
    var buffer: seq<Byte>
    var pendingRemoval: nat
    /** Bytes taken off the front so far, and bytes moved to do so. */
    ghost var erased: nat
    ghost var copied: nat

    constructor ()
      ensures Valid() && Contents() == []
      ensures erased == copied == 0
    {
      buffer, pendingRemoval, erased, copied := [], 0, 0, 0;
    }

    /** In every run. */
    ghost predicate Paid()
      reads this
    {
      pendingRemoval <= |buffer| && CostsPaid(pendingRemoval, erased, copied)
    }

    /** What every operation keeps, a shrinking one excepted. */
    ghost predicate Valid()
      reads this
    {
      Paid() && FewPending(pendingRemoval, |buffer|)
    }

    ghost function Contents(): seq<Byte>
      reads this
      requires pendingRemoval <= |buffer|
    {
      buffer[pendingRemoval..]
    }

    method Append(data: seq<Byte>)
      requires Valid()
      modifies this
      ensures Valid() && Contents() == old(Contents()) + data
      ensures erased == old(erased) && copied == old(copied)
    {
      buffer := buffer + data;
    }

    method Erase(length: nat)
      requires Valid() && length <= |Contents()|
      modifies this
      ensures Valid() && Contents() == old(Contents())[length..]
      ensures erased == old(erased) + length && copied >= old(copied)
      ensures copied <= 31 * erased && pendingRemoval <= |buffer| / 32
    {
      pendingRemoval := pendingRemoval + length;
      erased := erased + length;
      if pendingRemoval > |buffer| / 32 {
        copied := copied + |buffer| - pendingRemoval;
        buffer := buffer[pendingRemoval..];
        pendingRemoval := 0;
      }
    }

    method Length() returns (n: nat)
      requires Valid()
      ensures n == |Contents()|
    {
      n := |buffer| - pendingRemoval;
    }

    method Data() returns (bytes: seq<Byte>)
      requires Valid()
      ensures bytes == Contents()
    {
      bytes := buffer[pendingRemoval..];
    }

    /** The length including what is waiting to be removed: zero only for an empty queue. */
    method TotalLength() returns (n: nat)
      requires Valid()
      ensures n == |buffer| && |Contents()| <= n
      ensures n == 0 <==> Contents() == []
    {
      n := |buffer|;
    }

    method Clear()
      requires Valid()
      modifies this
      ensures Valid() && Contents() == []
      ensures erased == old(erased) && copied == old(copied)
    {
      pendingRemoval := 0;
      buffer := [];
    }

    /** Grows or cuts the queue to `length` bytes, new ones being zero. The laziness bound survives
        exactly if enough bytes are left; it does whenever the queue grows, the only use there is. */
    method Resize(length: nat)
      requires Valid()
      modifies this
      ensures Paid()
      ensures Valid() <==> length >= 31 * pendingRemoval
      ensures length >= old(|Contents()|) ==> Valid()
      ensures pendingRemoval == old(pendingRemoval) && erased == old(erased) && copied == old(copied)
      ensures Contents() == if length <= old(|Contents()|) then old(Contents())[..length]
                            else old(Contents()) + seq(length - old(|Contents()|), _ => 0)
    {
      var size := length + pendingRemoval;
      if size <= |buffer| {
        buffer := buffer[..size];
      } else {
        buffer := buffer + seq(size - |buffer|, _ => 0);
      }
    }

    /** Writes over bytes of the queue through the pointer that `data` returns. */
    method Overwrite(at: nat, bytes: seq<Byte>)
      requires Valid() && at + |bytes| <= |Contents()|
      modifies this
      ensures Valid() && Contents() == old(Contents())[..at] + bytes + old(Contents())[at + |bytes|..]
      ensures pendingRemoval == old(pendingRemoval) && erased == old(erased) && copied == old(copied)
    {
      var start := pendingRemoval + at;
      buffer := buffer[..start] + bytes + buffer[start + |bytes|..];
    }
  }
}
