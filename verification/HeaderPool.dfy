/** The round-robin ring of sixteen header buffers. */
module HeaderPools {
  import opened Octets
  import opened WireFormat

  const HEADER_POOL_SIZE := 16

  class HeaderPool {
    const buffers: array<array<byte>>
    var index: nat
    /** Every header encoded so far, oldest first. */
    ghost var history: seq<Header>

    ghost predicate Valid()
      reads this, buffers, set i | 0 <= i < buffers.Length :: buffers[i]
    {
      && buffers.Length == HEADER_POOL_SIZE
      && (forall i :: 0 <= i < HEADER_POOL_SIZE ==> buffers[i].Length == HEADER_SIZE)
      && (forall i, j :: 0 <= i < j < HEADER_POOL_SIZE ==> buffers[i] != buffers[j])
      && index == |history| % HEADER_POOL_SIZE
      && (forall n :: 0 <= n < |history| && |history| - HEADER_POOL_SIZE <= n ==>
            buffers[n % HEADER_POOL_SIZE][..] == WireFormat.Encode(history[n]))
    }

    constructor ()
      ensures Valid() && history == [] && fresh(buffers)
      ensures forall i :: 0 <= i < buffers.Length ==> fresh(buffers[i])
    {
      var first := new byte[HEADER_SIZE](_ => 0);
      var ring := new array<byte>[HEADER_POOL_SIZE](_ => first);
      buffers := ring;
      index := 0;
      history := [];
      new;
      for k := 1 to HEADER_POOL_SIZE
        invariant buffers.Length == HEADER_POOL_SIZE && index == 0 && history == []
        invariant forall i :: 0 <= i < HEADER_POOL_SIZE ==> fresh(buffers[i]) && buffers[i].Length == HEADER_SIZE
        invariant forall i :: k <= i < HEADER_POOL_SIZE ==> buffers[i] == first
        invariant buffers[0] == first
        invariant forall i, j :: 0 <= i < j < k ==> buffers[i] != buffers[j]
      {
        buffers[k] := new byte[HEADER_SIZE](_ => 0);
      }
    }

    /** Takes the next buffer of the ring; its old contents are still there. */
    method Acquire() returns (slot: nat)
      requires index < HEADER_POOL_SIZE
      modifies `index
      ensures slot == old(index) && index == (old(index) + 1) % HEADER_POOL_SIZE
    {
      slot := index;
      index := (index + 1) % HEADER_POOL_SIZE;
    }

    /** Overwrites the oldest buffer only: the fifteen most recent headers stay intact beside the new one. */
    method Encode(h: Header) returns (slot: nat)
      requires Valid()
      modifies this, set i | 0 <= i < buffers.Length :: buffers[i]
      ensures Valid()
      ensures history == old(history) + [h]
      ensures slot == old(|history|) % HEADER_POOL_SIZE
      ensures buffers[slot][..] == WireFormat.Encode(h)
    {
      hide WireFormat.Encode;
      slot := Acquire();
      EncodeInto(h, buffers[slot]);
      history := history + [h];
    }
  }
}
