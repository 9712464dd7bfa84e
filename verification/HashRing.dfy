/** The list under the ring (list.c) and the release of its aliased entries (hashring.c). */
module HashRings {
  import opened Bytes
  import opened Buffers
  import Murmur3

  /** A ring's size is passed to stats_hash as a uint32_t. */
  const MAX_RING: nat := 0x1_0000_0000

  /** hashring_choose: the shard of a key, when there is one. */
  function Choose<T>(ring: seq<T>, key: Bytes): (r: Option<(nat, T)>)
    requires |ring| < MAX_RING
    ensures r.None? <==> ring == []
    ensures r.Some? ==> r.value.0 == Murmur3.StatsHash(CString(key), |ring|) && r.value.1 == ring[r.value.0]
  {
    if ring == [] then None
    else
      var shard := Murmur3.StatsHash(CString(key), |ring|);
      Some((shard, ring[shard]))
  }

  /** A list_t: `size` entries in a block that doubles when it is full. */
  class List<T(0)> {
    var allocatedSize: nat
    var size: nat
    var data: array<T>

    ghost predicate Valid()
      reads this
    {
      && size <= allocatedSize == data.Length
      && (allocatedSize == 0 || (Doubled(1, allocatedSize) && allocatedSize < 2 * size))
    }

    ghost function Items(): seq<T>
      requires Valid()
      reads this, data
    {
      data[..size]
    }

    constructor ()
      ensures Valid() && Items() == [] && fresh(data)
    {
      allocatedSize, size := 0, 0;
      data := new T[0];
    }

    /** statsrelay_list_expand: one more, uninitialised, slot at the end. */
    method Expand()
      requires Valid()
      modifies this
      ensures Valid() && size == old(size) + 1 && (data == old(data) || fresh(data))
      ensures Items()[..old(size)] == old(Items())
    {
      size := size + 1;
      if allocatedSize < size {
        if allocatedSize == 0 {
          allocatedSize := 1;
          DoubledOnce(1);
          data := new T[1];
        } else {
          DoubledAgain(1, allocatedSize);
          allocatedSize := 2 * allocatedSize;
          var newData := new T[allocatedSize];
          for i := 0 to data.Length
            invariant size == old(size) + 1 && data == old(data) && data.Length == old(size)
            invariant allocatedSize == 2 * data.Length && Doubled(1, allocatedSize)
            invariant newData[..i] == data[..i]
          {
            newData[i] := data[i];
          }
          data := newData;
        }
      }
    }

    /** The expand-then-store of hashring_add and parse_config. */
    method Append(x: T)
      requires Valid()
      modifies this, data
      ensures Valid() && (data == old(data) || fresh(data))
      ensures Items() == old(Items()) + [x]
    {
      Expand();
      assert Items()[..old(size)] == old(Items());
      data[size - 1] := x;
    }
  }

  /**
   * hashring_dealloc: the nested loops release each distinct entry exactly once, however the
   * ring aliases; `released` lists the calls of ring->dealloc.
   */
  method Dealloc<T(==)>(ring: seq<T>) returns (released: seq<T>)
    ensures forall i :: 0 <= i < |ring| ==> ring[i] in released
    ensures forall k :: 0 <= k < |released| ==> released[k] in ring
    ensures forall j, k :: 0 <= j < k < |released| ==> released[j] != released[k]
  {
    released := [];
    for i := 0 to |ring|
      invariant forall j :: 0 <= j < i ==> ring[j] in released
      invariant forall k :: 0 <= k < |released| ==> released[k] in ring[..i]
      invariant forall j, k :: 0 <= j < k < |released| ==> released[j] != released[k]
    {
      var needDealloc := true;
      for j := 0 to i
        invariant needDealloc
        invariant ring[i] !in ring[..j]
      {
        if ring[i] == ring[j] {
          needDealloc := false;
          break;
        }
      }
      assert ring[..i + 1] == ring[..i] + [ring[i]];
      if needDealloc {
        released := released + [ring[i]];
      }
    }
  }
}
