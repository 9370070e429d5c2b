/** The byte ring buffer: a storage area, an insertion and a retrieval pointer that wrap at its
  * end, and a count. Pointers are offsets from the start of the storage.
  */
module RingBuffer {
  import opened Words

  /** The buffer's fields and its storage, as one value. */
  datatype Ring = Ring(cells: seq<uint8>, size: uint16, inAt: nat, outAt: nat, count: uint16)

  /** The `k`th slot from `at`, going round. */
  function Slot(size: nat, at: nat, k: nat): int {
    if at + k < size then at + k else at + k - size
  }

  /** Holding `count` bytes, the insertion pointer is `count` slots past the retrieval pointer. */
  predicate Sound(r: Ring) {
    && r.size <= |r.cells|
    && (r.outAt < r.size || r.outAt == r.size == 0)
    && r.count <= r.size
    && r.inAt == Slot(r.size, r.outAt, r.count)
  }

  /** The bytes held, oldest first. */
  ghost function Held(r: Ring): (bytes: seq<uint8>)
    requires Sound(r)
  {
    seq(r.count, k requires 0 <= k < r.count => r.cells[Slot(r.size, r.outAt, k)])
  }

  // The steps between which another thread may run.

  function StoreIn(r: Ring, x: uint8): Ring
    requires r.inAt < |r.cells|
  {
    r.(cells := r.cells[r.inAt := x])
  }

  function BumpIn(r: Ring): Ring { r.(inAt := r.inAt + 1) }

  function WrapIn(r: Ring): Ring { if r.inAt == r.size then r.(inAt := 0) else r }

  function CountUp(r: Ring): Ring { r.(count := (r.count + 1) % 0x1_0000) }

  function BumpOut(r: Ring): Ring { r.(outAt := r.outAt + 1) }

  function WrapOut(r: Ring): Ring { if r.outAt == r.size then r.(outAt := 0) else r }

  function CountDown(r: Ring): Ring { r.(count := (r.count + 0xFFFF) % 0x1_0000) }

  /** An insertion that nothing interrupts. */
  function Inserted(r: Ring, x: uint8): Ring
    requires r.inAt < |r.cells|
  {
    CountUp(WrapIn(BumpIn(StoreIn(r, x))))
  }

  function Removed(r: Ring): Ring { CountDown(WrapOut(BumpOut(r))) }

  /** An insertion keeps the buffer sound exactly when there was room, and then it appends. */
  lemma InsertAppends(r: Ring, x: uint8)
    requires Sound(r) && r.inAt < |r.cells|
    ensures Sound(Inserted(r, x)) <==> r.count < r.size
    ensures r.count < r.size ==> Held(Inserted(r, x)) == Held(r) + [x]
  {
    if r.count < r.size {
      var s := Inserted(r, x);
      assert s.count == r.count + 1;
      assert forall k :: 0 <= k < r.count ==> Slot(r.size, r.outAt, k) != r.inAt;
    }
  }

  /** A removal from a buffer that holds something takes the oldest byte; from an empty one it
    * leaves a count above the size, unless the size is the largest a word can hold.
    */
  lemma RemoveTakesOldest(r: Ring)
    requires Sound(r) && r.size > 0
    ensures r.count > 0 ==> Sound(Removed(r)) && Held(r) == [r.cells[r.outAt]] + Held(Removed(r))
    ensures r.count == 0 ==> Removed(r).count == 0xFFFF && (Sound(Removed(r)) ==> r.size == 0xFFFF)
  {
    if r.count > 0 {
      var s := Removed(r);
      assert s.count == r.count - 1;
      assert forall k :: 0 <= k < s.count ==> Slot(s.size, s.outAt, k) == Slot(r.size, r.outAt, k + 1);
    }
  }

  /** The management structure, over storage the caller owns. */
  class Buffer {
    var data: array<uint8>
    var size: uint16
    var inAt: nat
    var outAt: nat
    var count: uint16

    ghost function Now(): Ring
      reads this, data
    {
      Ring(data[..], size, inAt, outAt, count)
    }

    ghost predicate Valid()
      reads this, data
    {
      Sound(Now())
    }

    ghost function Contents(): seq<uint8>
      requires Valid()
      reads this, data
    {
      Held(Now())
    }

    /** RingBuffer_InitBuffer. */
    constructor (storage: array<uint8>, n: uint16)
      requires n <= storage.Length
      ensures Valid() && data == storage && size == n && Contents() == []
    {
      data, size := storage, n;
      inAt, outAt, count := 0, 0, 0;
    }

    method GetCount() returns (n: uint16)
      requires Valid()
      ensures n == |Contents()|
    {
      n := count;
    }

    /** The subtraction is in 16 bits, and does not wrap. */
    method GetFreeCount() returns (n: uint16)
      requires Valid()
      ensures n + |Contents()| == size
    {
      var held := GetCount();
      n := (size + 0x1_0000 - held) % 0x1_0000;
    }

    method IsEmpty() returns (empty: bool)
      requires Valid()
      ensures empty <==> Contents() == []
    {
      var held := GetCount();
      empty := held == 0;
    }

    method IsFull() returns (full: bool)
      requires Valid()
      ensures full <==> |Contents()| == size
    {
      var held := GetCount();
      full := held == size;
    }

    /** Does not look for room: the caller is to test first. */
    method Insert(x: uint8)
      requires Valid() && inAt < data.Length
      modifies this`inAt, this`count, data
      ensures Now() == Inserted(old(Now()), x)
      ensures old(count) < size ==> Valid() && Contents() == old(Contents()) + [x]
    {
      ghost var was := Now();
      data[inAt] := x;
      inAt := inAt + 1;
      if inAt == size {
        inAt := 0;
      }
      count := (count + 1) % 0x1_0000;
      InsertAppends(was, x);
      assert Now().cells == StoreIn(was, x).cells;
    }

    /** Does not look for a byte: the caller is to test first. */
    method Remove() returns (x: uint8)
      requires Valid() && size > 0
      modifies this`outAt, this`count
      ensures Now() == Removed(old(Now()))
      ensures old(count) > 0 ==> Valid() && old(Contents()) == [x] + Contents()
    {
      ghost var was := Now();
      x := data[outAt];
      outAt := outAt + 1;
      if outAt == size {
        outAt := 0;
      }
      count := (count + 0xFFFF) % 0x1_0000;
      RemoveTakesOldest(was);
    }

    method Peek() returns (x: uint8)
      requires Valid() && size > 0
      ensures count > 0 ==> x == Contents()[0]
    {
      x := data[outAt];
    }
  }
}
