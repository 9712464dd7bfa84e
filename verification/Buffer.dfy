/** The head/tail byte buffer (buffer.c) and the FIFO it implements. */
module Buffers {
  import opened Bytes

  const INITIAL_BUFFER_SIZE: nat := 4096

  /** What a buffer means: the queued bytes, where they start in the allocation, and its size. */
  datatype Buf = Buf(data: Bytes, off: nat, size: nat) {
    ghost predicate Valid() {
      0 < size && off + |data| <= size
    }

    /** buffer_spacecount: the room behind the tail. */
    function Space(): int {
      size - off - |data|
    }

    function Realign(): (r: Buf)
      ensures Valid() ==> r.Valid()
    {
      this.(off := 0)
    }

    function Produce(bytes: Bytes): Buf {
      if |bytes| <= Space() then this.(data := data + bytes) else this
    }

    function Consume(amt: nat): Buf {
      if amt <= |data| then this.(data := data[amt..], off := off + amt) else this
    }

    /** buffer_expand, when malloc can provide no more than `memLimit` bytes. */
    function Expand(memLimit: nat): Buf {
      if 2 * size <= memLimit then this.(size := 2 * size) else this
    }
  }

  lemma ConsumeTwice(b: Buf, m: nat, n: nat)
    requires m + n <= |b.data|
    ensures b.Consume(m).Consume(n) == b.Consume(m + n)
  {
    assert b.data[m..][n..] == b.data[m + n..];
  }

  function Fresh(size: nat): Buf { Buf([], 0, size) }

  /** A pointer into the allocation is an index into `ptr`; `head` and `tail` move as in the C code. */
  class Buffer {
    var ptr: array<byte>
    var head: nat
    var tail: nat

    ghost predicate Valid()
      reads this
    {
      0 < ptr.Length && head <= tail <= ptr.Length
    }

    ghost function Model(): (m: Buf)
      requires Valid()
      reads this, ptr
      ensures m.Valid()
    {
      Buf(ptr[head..tail], head, ptr.Length)
    }

    /** buffer_init / buffer_allocate. */
    constructor (size: nat)
      requires 0 < size
      ensures Valid() && fresh(ptr)
      ensures Model() == Fresh(size)
    {
      ptr := new byte[size];
      head, tail := 0, 0;
    }

    method DataCount() returns (n: nat)
      requires Valid()
      ensures n == |Model().data|
    {
      n := tail - head;
    }

    method SpaceCount() returns (n: nat)
      requires Valid()
      ensures n == Model().Space()
    {
      n := ptr.Length - tail;
    }

    /** buffer_newsize: myrealloc copies the whole old allocation; the three pointers keep their distances. */
    method NewSize(newsize: nat, memLimit: nat) returns (ok: bool)
      requires Valid() && ptr.Length <= newsize
      modifies this
      ensures Valid()
      ensures ok <==> newsize <= memLimit
      ensures ok ==> fresh(ptr) && Model() == old(Model()).(size := newsize)
      ensures !ok ==> ptr == old(ptr) && Model() == old(Model())
    {
      if newsize > memLimit {
        return false;
      }
      var pnew := new byte[newsize];
      for i := 0 to ptr.Length
        invariant ptr == old(ptr) && Valid() && head == old(head) && tail == old(tail)
        invariant pnew[..i] == ptr[..i]
      {
        pnew[i] := ptr[i];
      }
      assert pnew[head..tail] == pnew[..ptr.Length][head..tail];
      ptr := pnew;
      ok := true;
    }

    method Expand(memLimit: nat) returns (ok: bool)
      requires Valid()
      modifies this
      ensures Valid() && (ptr == old(ptr) || fresh(ptr))
      ensures Model() == old(Model()).Expand(memLimit)
      ensures ok <==> 2 * old(ptr.Length) <= memLimit
    {
      ok := NewSize(ptr.Length * 2, memLimit);
    }

    method Consume(amt: nat) returns (ok: bool)
      requires Valid()
      modifies this
      ensures Valid() && ptr == old(ptr)
      ensures Model() == old(Model()).Consume(amt)
      ensures ok <==> amt <= |old(Model()).data|
    {
      if head + amt > tail {
        return false;
      }
      head := head + amt;
      ok := true;
    }

    /** The memcpy or recv into buffer_tail() that precedes buffer_produced(). */
    method Fill(bytes: Bytes)
      requires Valid() && |bytes| <= Model().Space()
      modifies ptr
      ensures Valid() && Model() == old(Model())
      ensures ptr[tail..tail + |bytes|] == bytes
    {
      for i := 0 to |bytes|
        invariant ptr[tail..tail + i] == bytes[..i]
        invariant ptr[head..tail] == old(ptr[head..tail])
      {
        ptr[tail + i] := bytes[i];
      }
    }

    method Produced(amt: nat) returns (ok: bool)
      requires Valid()
      modifies this
      ensures Valid() && ptr == old(ptr)
      ensures ok <==> amt <= old(Model()).Space()
      ensures ok ==> Model() == old(Model()).Produce(old(ptr[tail..tail + amt]))
      ensures !ok ==> Model() == old(Model())
    {
      if tail + amt > ptr.Length {
        return false;
      }
      tail := tail + amt;
      ok := true;
    }

    /** buffer_realign: the memmove, lowest byte first, and then tail before head. */
    method Realign()
      requires Valid()
      modifies this, ptr
      ensures Valid() && ptr == old(ptr)
      ensures Model() == old(Model()).Realign()
    {
      ghost var data := ptr[head..tail];
      for i := 0 to tail - head
        invariant Valid() && ptr == old(ptr) && head == old(head) && tail == old(tail)
        invariant ptr[..i] == data[..i]
        invariant forall k :: i <= k < tail - head ==> ptr[head + k] == data[k]
      {
        ptr[i] := ptr[head + i];
      }
      tail := tail - head;
      head := 0;
    }
  }

  // ----- The buffer refines a FIFO -----

  datatype BufferOp = Produce(bytes: Bytes) | Consume(amt: nat) | Realign | Expand(memLimit: nat)

  function Apply(b: Buf, op: BufferOp): Buf {
    match op
    case Produce(bytes) => b.Produce(bytes)
    case Consume(amt) => b.Consume(amt)
    case Realign => b.Realign()
    case Expand(memLimit) => b.Expand(memLimit)
  }

  function ApplyAll(b: Buf, ops: seq<BufferOp>): Buf {
    if ops == [] then b else Apply(ApplyAll(b, ops[..|ops| - 1]), ops[|ops| - 1])
  }

  /** The bytes put in, and the number taken out, by the operations that succeeded. */
  function Input(b: Buf, ops: seq<BufferOp>): Bytes {
    if ops == [] then []
    else
      var before := ApplyAll(b, ops[..|ops| - 1]);
      var op := ops[|ops| - 1];
      Input(b, ops[..|ops| - 1]) + if op.Produce? && |op.bytes| <= before.Space() then op.bytes else []
  }

  function Taken(b: Buf, ops: seq<BufferOp>): nat {
    if ops == [] then 0
    else
      var before := ApplyAll(b, ops[..|ops| - 1]);
      var op := ops[|ops| - 1];
      Taken(b, ops[..|ops| - 1]) + if op.Consume? && op.amt <= |before.data| then op.amt else 0
  }

  /**
   * Whatever the operations, the buffer holds exactly what was put in less what was taken
   * from the front: no byte is lost, repeated or reordered by a realign or a growth.
   */
  lemma {:induction false} BufferIsFifo(b: Buf, ops: seq<BufferOp>)
    requires b.Valid() && b.data == []
    ensures ApplyAll(b, ops).Valid()
    ensures Taken(b, ops) <= |Input(b, ops)|
    ensures ApplyAll(b, ops).data == Input(b, ops)[Taken(b, ops)..]
  {
    if ops != [] {
      hide Apply;
      BufferIsFifo(b, ops[..|ops| - 1]);
      ApplyIsFifo(ApplyAll(b, ops[..|ops| - 1]), ops[|ops| - 1], Input(b, ops[..|ops| - 1]), Taken(b, ops[..|ops| - 1]));
    }
  }

  lemma ApplyIsFifo(b: Buf, op: BufferOp, input: Bytes, taken: nat)
    requires b.Valid() && taken <= |input| && b.data == input[taken..]
    ensures var input' := input + if op.Produce? && |op.bytes| <= b.Space() then op.bytes else [];
      var taken' := taken + if op.Consume? && op.amt <= |b.data| then op.amt else 0;
      Apply(b, op).Valid() && taken' <= |input'| && Apply(b, op).data == input'[taken'..]
  {
  }

  /**
   * The same buffer as a ledger: all bytes ever put in, how many have been taken out, how many
   * of those before the last realign, and the size of the allocation.
   */
  datatype Ledger = Ledger(input: Bytes, taken: nat, dropped: nat, size: nat)

  /** New bytes must fit behind those put in since the last realign, and only what is there can be taken. */
  function Enter(l: Ledger, op: BufferOp): Ledger {
    match op
    case Produce(bytes) => if |l.input| - l.dropped + |bytes| <= l.size then l.(input := l.input + bytes) else l
    case Consume(amt) => if l.taken + amt <= |l.input| then l.(taken := l.taken + amt) else l
    case Realign => l.(dropped := l.taken)
    case Expand(memLimit) => if l.size + l.size <= memLimit then l.(size := l.size + l.size) else l
  }

  function EnterAll(size: nat, ops: seq<BufferOp>): Ledger {
    if ops == [] then Ledger([], 0, 0, size) else Enter(EnterAll(size, ops[..|ops| - 1]), ops[|ops| - 1])
  }

  /** Contents, offset and size of a buffer are those of its ledger, whatever the operations. */
  lemma {:induction false} BufferIsLedger(size: nat, ops: seq<BufferOp>)
    requires 0 < size
    ensures var l := EnterAll(size, ops);
      && l.dropped <= l.taken <= |l.input|
      && ApplyAll(Fresh(size), ops) == Buf(l.input[l.taken..], l.taken - l.dropped, l.size)
  {
    if ops != [] {
      hide Apply, Enter;
      BufferIsLedger(size, ops[..|ops| - 1]);
      EnterOne(EnterAll(size, ops[..|ops| - 1]), ops[|ops| - 1]);
    }
  }

  lemma EnterOne(l: Ledger, op: BufferOp)
    requires l.dropped <= l.taken <= |l.input|
    ensures var l' := Enter(l, op);
      && l'.dropped <= l'.taken <= |l'.input|
      && Apply(Buf(l.input[l.taken..], l.taken - l.dropped, l.size), op) == Buf(l'.input[l'.taken..], l'.taken - l'.dropped, l'.size)
  {
    match op
    case Produce(bytes) => assert (l.input + bytes)[l.taken..] == l.input[l.taken..] + bytes;
    case Consume(amt) => assert l.taken + amt <= |l.input| ==> l.input[l.taken..][amt..] == l.input[l.taken + amt..];
    case Realign =>
    case Expand(memLimit) =>
  }

  // ----- Growth -----

  function Pow2(k: nat): (p: nat)
    ensures p > 0
  {
    if k == 0 then 1 else 2 * Pow2(k - 1)
  }

  /** `size` is `unit` doubled some number of times. */
  ghost predicate Doubled(unit: nat, size: nat) {
    exists k: nat :: size == unit * Pow2(k)
  }

  lemma DoubledOnce(unit: nat)
    ensures Doubled(unit, unit)
  {
    assert unit == unit * Pow2(0);
  }

  lemma DoubledAgain(unit: nat, size: nat)
    requires Doubled(unit, size)
    ensures Doubled(unit, 2 * size)
  {
    var k: nat :| size == unit * Pow2(k);
    assert 2 * size == unit * Pow2(k + 1);
  }

  /** Expand until `len` bytes fit, or until malloc refuses. */
  function ExpandFor(b: Buf, len: nat, memLimit: nat): (r: (Buf, bool))
    requires b.Valid()
    ensures r.0.Valid() && r.0.data == b.data && r.0.off == b.off
    ensures r.1 <==> len <= r.0.Space()
    decreases len - b.Space()
  {
    if len <= b.Space() then (b, true)
    else if 2 * b.size <= memLimit then ExpandFor(b.Expand(memLimit), len, memLimit)
    else (b, false)
  }

  /** A realigned buffer never doubles past twice what it has to hold. */
  lemma {:induction false} ExpandForBound(b: Buf, len: nat, memLimit: nat, unit: nat)
    requires b.Valid() && b.off == 0 && Doubled(unit, b.size)
    ensures Doubled(unit, ExpandFor(b, len, memLimit).0.size)
    ensures var size := ExpandFor(b, len, memLimit).0.size; size == b.size || size < 2 * (|b.data| + len)
    decreases len - b.Space()
  {
    if b.Space() < len && 2 * b.size <= memLimit {
      DoubledAgain(unit, b.size);
      ExpandForBound(b.Expand(memLimit), len, memLimit, unit);
    }
  }
}
