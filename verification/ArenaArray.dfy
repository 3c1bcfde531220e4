/** Growable arrays that share an arena (cero/util/memory_arena.hh). */
module ArenaArrays {
  import opened Memory
  import opened Arenas

  const INITIAL_CAPACITY := 4

  /** Counts and capacities are stored in 32 bits. */
  const COUNT_LIMIT := 0x1_0000_0000

  /** The cast to a 32-bit unsigned integer. */
  function Truncate(n: nat): nat {
    n % COUNT_LIMIT
  }

  lemma Fits32(n: nat)
    requires n < COUNT_LIMIT
    ensures Truncate(n) == n
  {
  }

  function GrownCapacity(capacity: nat): nat {
    var grown := capacity + capacity / 2;
    if grown >= INITIAL_CAPACITY then grown else INITIAL_CAPACITY
  }

  // ---------------------------------------------------------------- cost of growth

  /** The capacity after `n` calls of `put`. */
  function Capacity(n: nat): nat {
    if n == 0 then 0
    else if n - 1 == Capacity(n - 1) then GrownCapacity(n - 1) else Capacity(n - 1)
  }

  /** How many elements `n` calls of `put` copy. */
  function Copied(n: nat): nat {
    if n == 0 then 0
    else if n - 1 == Capacity(n - 1) then Copied(n - 1) + (n - 1) else Copied(n - 1)
  }

  /** Copying costs at most four copies per element put, however many are put. */
  lemma {:induction false} CopiesAreLinear(n: nat)
    ensures n <= Capacity(n)
    ensures Copied(n) <= 4 * n
    ensures if Capacity(n) <= INITIAL_CAPACITY then Copied(n) == 0 else 3 * Copied(n) <= 4 * (2 * Capacity(n) + 1)
    ensures n > 0 ==> Capacity(n) >= INITIAL_CAPACITY && Capacity(n) <= n + n / 2 + INITIAL_CAPACITY
  {
    if n > 0 {
      CopiesAreLinear(n - 1);
    }
  }

  /** Nothing is copied while there is room. */
  lemma {:induction false} NoGrowth(n: nat, m: nat)
    requires n <= m <= Capacity(n)
    ensures Capacity(m) == Capacity(n) && Copied(m) == Copied(n)
  {
    if n < m {
      NoGrowth(n, m - 1);
    }
  }

  /** From one full array to the next. */
  lemma {:induction false} NextFull(c: nat)
    requires c >= INITIAL_CAPACITY && Capacity(c) == c
    ensures Capacity(c + c / 2) == c + c / 2 && Copied(c + c / 2) == Copied(c) + c
  {
    assert Capacity(c + 1) == c + c / 2 && Copied(c + 1) == Copied(c) + c;
    NoGrowth(c + 1, c + c / 2);
  }

  /** Three copies per element are not enough: every capacity that is rounded down costs one copy more, and here
      it is one too many. */
  lemma {:induction false} ThreeCopiesAreNotEnough()
    ensures Copied(61448) == 3 * 61448 + 1
  {
    hide Capacity, Copied;
    FullAt61447();
    OneCopy(61447);
  }

  lemma {:induction false} FullAt61447()
    ensures Capacity(61447) == 61447 && Copied(61447) == 122898
  {
    hide Capacity, Copied;
    FirstFull();
    NextFull(4); NextFull(6); NextFull(9); NextFull(13); NextFull(19); NextFull(28); NextFull(42); NextFull(63);
    NextFull(94); NextFull(141); NextFull(211); NextFull(316); NextFull(474); NextFull(711); NextFull(1066);
    NextFull(1599); NextFull(2398); NextFull(3597); NextFull(5395); NextFull(8092); NextFull(12138); NextFull(18207);
    NextFull(27310); NextFull(40965);
  }

  lemma FirstFull()
    ensures Capacity(4) == 4 && Copied(4) == 0
  {
    assert Capacity(1) == 4 && Copied(1) == 0;
    NoGrowth(1, 4);
  }

  lemma OneCopy(c: nat)
    requires Capacity(c) == c
    ensures Copied(c + 1) == Copied(c) + c
  {
  }

  // ---------------------------------------------------------------- 32 bits

  /** The largest capacity that fits into 32 bits, and the one that comes next and does not. */
  const LARGEST_CAPACITY := 3491081613

  const OVERFLOWN_CAPACITY := 5236622419

  lemma {:induction false} FullAtLargest()
    ensures Capacity(LARGEST_CAPACITY) == LARGEST_CAPACITY
  {
    hide Capacity, Copied;
    FullAt61447();
    NextFull(61447); NextFull(92170); NextFull(138255); NextFull(207382); NextFull(311073); NextFull(466609);
    NextFull(699913); NextFull(1049869); NextFull(1574803); NextFull(2362204); NextFull(3543306); NextFull(5314959);
    NextFull(7972438); NextFull(11958657); NextFull(17937985); NextFull(26906977); NextFull(40360465);
    NextFull(60540697); NextFull(90811045); NextFull(136216567); NextFull(204324850); NextFull(306487275);
    NextFull(459730912); NextFull(689596368); NextFull(1034394552); NextFull(1551591828); NextFull(2327387742);
  }

  lemma {:induction false} CapacityGrows(m: nat, n: nat)
    requires m <= n
    ensures Capacity(m) <= Capacity(n)
    decreases n
  {
    if m < n {
      CapacityGrows(m, n - 1);
      CopiesAreLinear(n - 1);
    }
  }

  /** All capacities up to 2^32 elements. */
  lemma {:induction false} CapacitiesIn32Bits(n: nat)
    requires n < COUNT_LIMIT
    ensures if n <= LARGEST_CAPACITY then Capacity(n) <= LARGEST_CAPACITY else Capacity(n) == OVERFLOWN_CAPACITY
  {
    hide Capacity;
    FullAtLargest();
    if n <= LARGEST_CAPACITY {
      CapacityGrows(n, LARGEST_CAPACITY);
    } else {
      NextCapacity(LARGEST_CAPACITY);
      NoGrowth(LARGEST_CAPACITY + 1, n);
    }
  }

  /** The stored capacity is the real one, and not below the count, exactly up to the largest capacity. */
  lemma {:induction false} CountFitsCapacity(n: nat)
    requires n < COUNT_LIMIT
    ensures n <= Truncate(Capacity(n)) <==> n <= LARGEST_CAPACITY
    ensures Truncate(Capacity(n)) == Capacity(n) <==> n <= LARGEST_CAPACITY
  {
    hide Capacity, Truncate;
    CapacitiesIn32Bits(n);
    CopiesAreLinear(n);
    if n <= LARGEST_CAPACITY {
      Fits32(Capacity(n));
    } else {
      OverflowTruncates();
    }
  }

  lemma OverflowTruncates()
    ensures Truncate(OVERFLOWN_CAPACITY) == 941655123
  {
  }

  /** Still, the array grows when it is full and at no other time: the wrong capacity is below every later count. */
  lemma {:induction false} GrowsWhenFull(n: nat)
    requires n < COUNT_LIMIT
    ensures n == Truncate(Capacity(n)) <==> n == Capacity(n)
    ensures n == Capacity(n) ==> n <= LARGEST_CAPACITY
  {
    hide Capacity, Truncate;
    CapacitiesIn32Bits(n);
    if n <= LARGEST_CAPACITY {
      Fits32(Capacity(n));
    } else {
      OverflowTruncates();
    }
  }

  // ---------------------------------------------------------------- elements in memory

  function Flatten(elements: seq<seq<Byte>>): seq<Byte> {
    if elements == [] then [] else Flatten(elements[..|elements| - 1]) + elements[|elements| - 1]
  }

  ghost predicate AllOfSize(elements: seq<seq<Byte>>, size: nat) {
    forall k :: 0 <= k < |elements| ==> |elements[k]| == size
  }

  lemma {:induction false} FlattenSize(elements: seq<seq<Byte>>, size: nat)
    requires AllOfSize(elements, size)
    ensures |Flatten(elements)| == |elements| * size
  {
    if elements != [] {
      var n := |elements| - 1;
      FlattenSize(elements[..n], size);
      assert |elements[n]| == size;
      OneMore(n, size);
    }
  }

  /** From `data` on, memory holds the bytes of the elements. */
  ghost predicate Holds(memory: seq<Byte>, data: nat, elements: seq<seq<Byte>>) {
    var size := |Flatten(elements)|;
    data + size <= |memory| && memory[data..data + size] == Flatten(elements)
  }

  /** An array: where its elements are, how many there are, for how many there is room, and in which of the arena's
      pieces. An object is an array of one element. */
  datatype View = View(elementSize: nat, alignment: nat, data: nat, count: nat, room: nat,
                       elements: seq<seq<Byte>>, owner: nat)

  ghost predicate Stored(v: View, memory: seq<Byte>, pieces: seq<Piece>) {
    && v.elementSize > 0 && IsPowerOfTwo(v.alignment)
    && v.count == |v.elements| && AllOfSize(v.elements, v.elementSize)
    && v.count <= v.room && v.count < COUNT_LIMIT
    && Holds(memory, v.data, v.elements)
    && (v.room > 0 ==>
          && v.owner < |pieces| && Aligned(v.alignment, v.data)
          && pieces[v.owner] == Piece(v.data, v.room * v.elementSize))
  }

  ghost predicate AllStored(views: set<View>, memory: seq<Byte>, pieces: seq<Piece>) {
    forall v :: v in views ==> Stored(v, memory, pieces)
  }

  /** None of the views lives in piece `w`. */
  ghost predicate Avoid(views: set<View>, w: nat) {
    forall v :: v in views && v.room > 0 ==> v.owner != w
  }

  /** Handing out another piece, and getting more memory for it, does not disturb an array. */
  lemma {:induction false} AllocateKeeps(v: View, memory: seq<Byte>, pieces: seq<Piece>,
                                         longer: seq<Byte>, morePieces: seq<Piece>)
    requires Stored(v, memory, pieces) && memory <= longer && pieces <= morePieces
    ensures Stored(v, longer, morePieces)
  {
    var size := |Flatten(v.elements)|;
    assert longer[v.data..v.data + size] == memory[v.data..v.data + size];
  }

  lemma {:induction false} AllocateKeepsAll(views: set<View>, memory: seq<Byte>, pieces: seq<Piece>,
                                            longer: seq<Byte>, morePieces: seq<Piece>)
    requires AllStored(views, memory, pieces) && memory <= longer && pieces <= morePieces
    ensures AllStored(views, longer, morePieces)
    ensures forall w: nat :: w >= |pieces| ==> Avoid(views, w)
  {
    hide Holds;
    forall v | v in views ensures Stored(v, longer, morePieces) && (v.room > 0 ==> v.owner < |pieces|) {
      AllocateKeeps(v, memory, pieces, longer, morePieces);
    }
  }

  /** Writing into the piece of one array does not disturb another array. */
  lemma {:induction false} WriteKeeps(v: View, memory: seq<Byte>, changed: seq<Byte>, pieces: seq<Piece>,
                                      w: nat, written: Piece)
    requires Stored(v, memory, pieces) && PairwiseApart(pieces)
    requires w < |pieces| && Within(written, pieces[w]) && (v.room > 0 ==> v.owner != w)
    requires OnlyWritten(memory, changed, written)
    ensures Stored(v, changed, pieces)
  {
    var used := Piece(v.data, |Flatten(v.elements)|);
    if v.room > 0 {
      FlattenSize(v.elements, v.elementSize);
      Product(v.count, v.room, v.elementSize);
      assert Apart(pieces[v.owner], pieces[w]);
      assert Slice(changed, used) == Slice(memory, used);
    }
  }

  lemma {:induction false} WriteKeepsAll(views: set<View>, memory: seq<Byte>, changed: seq<Byte>, pieces: seq<Piece>,
                                         w: nat, written: Piece)
    requires AllStored(views, memory, pieces) && PairwiseApart(pieces)
    requires w < |pieces| && Within(written, pieces[w]) && Avoid(views, w)
    requires OnlyWritten(memory, changed, written)
    ensures AllStored(views, changed, pieces)
  {
    hide Stored, PairwiseApart, Within, OnlyWritten;
    forall v | v in views ensures Stored(v, changed, pieces) {
      WriteKeeps(v, memory, changed, pieces, w, written);
    }
  }

  lemma OneMore(n: nat, size: nat)
    ensures (n + 1) * size == n * size + size
  {
  }

  lemma Product(a: nat, b: nat, c: nat)
    requires a <= b
    ensures a * c <= b * c
  {
  }

  /** Every piece lies inside allocated memory, and not at the null pointer. */
  lemma PieceInMemory(arena: MemoryArena, i: nat)
    requires arena.Valid() && i < |arena.pieces|
    ensures arena.pieces[i].address != 0 && PairwiseApart(arena.pieces)
    ensures arena.pieces[i].address + arena.pieces[i].size <= |arena.heap.memory|
  {
    var k: nat :| PlacedIn(arena.pieces[i], arena.blocks, arena.nextPtr, k);
  }

  class ArenaArray {
    const elementSize: nat
    const alignment: nat
    var data: nat
    var count: nat
    var capacity: nat
    ghost var elements: seq<seq<Byte>>
    ghost var room: nat    // the capacity before it was cut to 32 bits
    ghost var owner: nat   // which of the arena's pieces this array lives in
    ghost var copied: nat  // how many elements have been copied from piece to piece

    ghost function ToView(): View
      reads this
    {
      View(elementSize, alignment, data, count, room, elements, owner)
    }

    ghost predicate Valid(arena: MemoryArena)
      reads this, arena, arena.heap
    {
      && Stored(ToView(), arena.heap.memory, arena.pieces)
      && room == Capacity(count) && capacity == Truncate(room) && copied == Copied(count)
    }

    /** No other view lives where this array does. */
    ghost predicate Alone(others: set<View>)
      reads this
    {
      room > 0 ==> Avoid(others, owner)
    }

    constructor (elementSize: nat, alignment: nat)
      requires elementSize > 0 && IsPowerOfTwo(alignment)
      ensures this.elementSize == elementSize && this.alignment == alignment
      ensures data == 0 && count == 0 && capacity == 0 && elements == [] && room == 0 && copied == 0
    {
      this.elementSize, this.alignment := elementSize, alignment;
      data, count, capacity, elements, room, owner, copied := 0, 0, 0, [], 0, 0, 0;
    }

    /** The arena has room for the larger piece, if the array is full. */
    predicate CanGrow(arena: MemoryArena)
      requires alignment > 0
      reads this, arena
    {
      count == capacity ==> arena.CanHold(GrownCapacity(capacity) * elementSize, alignment)
    }

    /** Appends an element, at a cost of at most four copies for each. Nothing else in the arena sees anything of it.
        The 32-bit count goes back to 0 behind its largest value, and then the elements are lost. */
    method Put(value: seq<Byte>, arena: MemoryArena, ghost others: set<View>)
      requires arena.Valid() && Valid(arena) && |value| == elementSize && CanGrow(arena)
      requires AllStored(others, arena.heap.memory, arena.pieces) && Alone(others)
      modifies this, arena, arena.heap
      ensures arena.Valid() && old(arena.pieces) <= arena.pieces
      ensures AllStored(others, arena.heap.memory, arena.pieces) && Alone(others)
      ensures count == Truncate(old(count) + 1)
      ensures old(count) < COUNT_LIMIT - 1 ==>
                && count == old(count) + 1
                && Valid(arena) && elements == old(elements) + [value]
                && copied <= 4 * count
                && (count <= capacity <==> count <= LARGEST_CAPACITY)
      ensures old(count) == COUNT_LIMIT - 1 ==> count == 0
    {
      hide Stored, Capacity, Copied, MemoryArena.Valid, Truncate, AllStored, Avoid;
      ViewCounts(this, arena);
      GrowsWhenFull(count);
      if count == capacity {
        Grow(arena, others);
      } else {
        NextCapacity(count);
      }
      Append(value, arena, others);
      if old(count) < COUNT_LIMIT - 1 {
        CopiesAreLinear(count);
        CountFitsCapacity(count);
      }
    }

    /** Gets a larger piece and moves the elements there. */
    method Grow(arena: MemoryArena, ghost others: set<View>)
      requires arena.Valid() && Valid(arena) && count == room == capacity && CanGrow(arena)
      requires AllStored(others, arena.heap.memory, arena.pieces)
      modifies this`data, this`capacity, this`room, this`owner, this`copied, arena, arena.heap
      ensures arena.Valid() && Stored(ToView(), arena.heap.memory, arena.pieces)
      ensures count < room == Capacity(count + 1) && capacity == Truncate(room) && copied == Copied(count + 1)
      ensures AllStored(others, arena.heap.memory, arena.pieces) && Alone(others)
      ensures old(arena.pieces) <= arena.pieces
    {
      hide Stored, Holds, Capacity, Copied, MemoryArena.Valid, Truncate, AllStored, Avoid, IsPowerOfTwo;
      Basics(ToView(), arena.heap.memory, arena.pieces);
      var newCapacity := GrownCapacity(capacity);
      NextCapacity(count);
      var storage := arena.Allocate(newCapacity * elementSize, alignment);
      AllocateKeepsAll(others, old(arena.heap.memory), old(arena.pieces), arena.heap.memory, arena.pieces);
      AllocateKeeps(ToView(), old(arena.heap.memory), old(arena.pieces), arena.heap.memory, arena.pieces);
      MoveTo(storage, newCapacity, |arena.pieces| - 1, arena, others);
    }

    /** Copies the elements to the piece `w`, and lets the array live there. */
    method MoveTo(storage: nat, newCapacity: nat, ghost w: nat, arena: MemoryArena, ghost others: set<View>)
      requires arena.Valid() && Stored(ToView(), arena.heap.memory, arena.pieces)
      requires count <= newCapacity && newCapacity > 0
      requires w < |arena.pieces| && arena.pieces[w] == Piece(storage, newCapacity * elementSize)
      requires Aligned(alignment, storage)
      requires AllStored(others, arena.heap.memory, arena.pieces) && Avoid(others, w)
      modifies this`data, this`capacity, this`room, this`owner, this`copied, arena.heap
      ensures arena.Valid() && Stored(ToView(), arena.heap.memory, arena.pieces)
      ensures room == newCapacity && capacity == Truncate(newCapacity) && owner == w
      ensures copied == old(copied) + count
      ensures AllStored(others, arena.heap.memory, arena.pieces)
    {
      hide Stored, Holds, Capacity, MemoryArena.Valid, OnlyWritten, PairwiseApart, Truncate, AllStored, Avoid;
      ghost var memory, pieces := arena.heap.memory, arena.pieces;
      PieceInMemory(arena, w);
      var bytes := ElementBytes(arena);
      Product(count, newCapacity, elementSize);
      arena.Write(storage, bytes, w);
      copied := copied + count;
      WriteKeepsAll(others, memory, arena.heap.memory, pieces, w, Piece(storage, |bytes|));
      MovedIsStored(ToView(), memory, pieces, arena.heap.memory, pieces, storage, newCapacity, w);
      data := storage;
      room := newCapacity;
      capacity := Truncate(newCapacity);
      owner := w;
    }

    /** The bytes that `memcpy` reads: all elements. */
    method ElementBytes(arena: MemoryArena) returns (bytes: seq<Byte>)
      requires Stored(ToView(), arena.heap.memory, arena.pieces)
      ensures bytes == Flatten(elements) && |bytes| == count * elementSize
    {
      FlattenSize(elements, elementSize);
      bytes := arena.heap.memory[data..data + count * elementSize];
    }

    /** Writes a value behind the last element. */
    method Append(value: seq<Byte>, arena: MemoryArena, ghost others: set<View>)
      requires arena.Valid() && Stored(ToView(), arena.heap.memory, arena.pieces)
      requires count < room == Capacity(count + 1) && |value| == elementSize
      requires capacity == Truncate(room) && copied == Copied(count + 1)
      requires AllStored(others, arena.heap.memory, arena.pieces) && Avoid(others, owner)
      modifies this`count, this`elements, arena.heap
      ensures arena.Valid() && AllStored(others, arena.heap.memory, arena.pieces)
      ensures count == Truncate(old(count) + 1)
      ensures old(count) < COUNT_LIMIT - 1 ==>
                count == old(count) + 1 && Valid(arena) && elements == old(elements) + [value]
      ensures old(count) == COUNT_LIMIT - 1 ==> count == 0
    {
      hide Stored, Holds, Capacity, Copied, MemoryArena.Valid, OnlyWritten, PairwiseApart, AllStored, Avoid, Truncate;
      ghost var memory := arena.heap.memory;
      Basics(ToView(), memory, arena.pieces);
      PieceInMemory(arena, owner);
      var end := count * elementSize;
      Product(count + 1, room, elementSize);
      OneMore(count, elementSize);
      arena.Write(data + end, value, owner);
      ghost var written := Piece(data + end, elementSize);
      WriteKeepsAll(others, memory, arena.heap.memory, arena.pieces, owner, written);
      if count < COUNT_LIMIT - 1 {
        AppendedIsStored(ToView(), memory, arena.heap.memory, arena.pieces, value);
        Fits32(count + 1);
      } else {
        CountWraps();
      }
      count := Truncate(count + 1);
      elements := elements + [value];
    }
  }

  lemma CountWraps()
    ensures Truncate(COUNT_LIMIT) == 0
  {
  }

  lemma NextCapacity(n: nat)
    ensures Capacity(n + 1) == if n == Capacity(n) then GrownCapacity(n) else Capacity(n)
    ensures Copied(n + 1) == if n == Capacity(n) then Copied(n) + n else Copied(n)
  {
  }

  lemma Basics(v: View, memory: seq<Byte>, pieces: seq<Piece>)
    requires Stored(v, memory, pieces)
    ensures v.elementSize > 0 && IsPowerOfTwo(v.alignment) && v.count <= v.room && v.count == |v.elements| < COUNT_LIMIT
    ensures v.room > 0 ==> v.owner < |pieces| && pieces[v.owner] == Piece(v.data, v.room * v.elementSize)
  {
  }

  lemma ViewCounts(a: ArenaArray, arena: MemoryArena)
    requires a.Valid(arena)
    ensures a.count == |a.elements| < COUNT_LIMIT && a.count <= a.room
  {
  }

  lemma MovedIsStored(v: View, memory: seq<Byte>, pieces: seq<Piece>, changed: seq<Byte>, morePieces: seq<Piece>,
                      storage: nat, room: nat, w: nat)
    requires Stored(v, memory, pieces) && v.count <= room && room > 0
    requires storage + |Flatten(v.elements)| <= |changed|
    requires changed[storage..storage + |Flatten(v.elements)|] == Flatten(v.elements)
    requires w < |morePieces| && morePieces[w] == Piece(storage, room * v.elementSize)
    requires Aligned(v.alignment, storage)
    ensures Stored(v.(data := storage, room := room, owner := w), changed, morePieces)
  {
  }

  lemma AppendedIsStored(v: View, memory: seq<Byte>, changed: seq<Byte>, pieces: seq<Piece>, value: seq<Byte>)
    requires Stored(v, memory, pieces) && v.count < v.room && v.count < COUNT_LIMIT - 1 && |value| == v.elementSize
    requires var end := v.data + v.count * v.elementSize;
             && end + |value| <= |changed| && changed[end..end + |value|] == value
             && OnlyWritten(memory, changed, Piece(end, |value|))
    ensures Stored(v.(count := v.count + 1, elements := v.elements + [value]), changed, pieces)
  {
    var used := Piece(v.data, |Flatten(v.elements)|);
    FlattenSize(v.elements, v.elementSize);
    assert Slice(changed, used) == Slice(memory, used);
    assert (v.elements + [value])[..|v.elements|] == v.elements;
    var end := v.data + used.size;
    assert changed[v.data..end + |value|] == changed[v.data..end] + changed[end..end + |value|];
  }
}
