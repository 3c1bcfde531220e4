/** Any interleaving of operations on arrays and objects that share one arena. */
module ArenaRuns {
  import opened Memory
  import opened Arenas
  import opened ArenaArrays

  /** What is done with an arena: putting a value into one of the arrays, or creating an object. */
  datatype Operation = PutInto(target: nat, value: seq<Byte>) | CreateObject(bytes: seq<Byte>, alignment: nat)

  function PutsBy(k: nat, operation: Operation): seq<seq<Byte>> {
    if operation.PutInto? && operation.target == k then [operation.value] else []
  }

  /** The values that a run puts into array `k`, in order. */
  function PutsTo(k: nat, run: seq<Operation>): seq<seq<Byte>> {
    if run == [] then [] else PutsTo(k, run[..|run| - 1]) + PutsBy(k, run[|run| - 1])
  }

  function CreatedBy(operation: Operation): seq<seq<Byte>> {
    if operation.CreateObject? then [operation.bytes] else []
  }

  /** The objects that a run creates, in order. */
  function Created(run: seq<Operation>): seq<seq<Byte>> {
    if run == [] then [] else Created(run[..|run| - 1]) + CreatedBy(run[|run| - 1])
  }

  lemma {:induction false} PutsGrow(k: nat, run: seq<Operation>, i: nat)
    requires i <= |run|
    ensures |PutsTo(k, run[..i])| <= |PutsTo(k, run)|
    decreases |run| - i
  {
    if i < |run| {
      assert run[..i + 1][..i] == run[..i];
      PutsGrow(k, run, i + 1);
    } else {
      assert run[..i] == run;
    }
  }

  // ---------------------------------------------------------------- arrays and objects

  /** The object lives in the arena and holds these bytes. */
  ghost predicate IsObject(o: View, bytes: seq<Byte>) {
    o.elements == [bytes] && o.room > 0
  }

  ghost predicate Distinct(v: View, w: View) {
    v.room > 0 && w.room > 0 ==> v.owner != w.owner
  }

  ghost predicate AllValid(arrays: seq<ArenaArray>, objects: seq<View>, arena: MemoryArena)
    reads arena, arena.heap, set a | a in arrays
  {
    && (forall k :: 0 <= k < |arrays| ==> arrays[k].Valid(arena))
    && (forall i :: 0 <= i < |objects| ==> Stored(objects[i], arena.heap.memory, arena.pieces))
    && (forall j, k :: 0 <= j < |arrays| && 0 <= k < |arrays| && j != k ==>
          arrays[j] != arrays[k] && Distinct(arrays[j].ToView(), arrays[k].ToView()))
    && (forall k, i :: 0 <= k < |arrays| && 0 <= i < |objects| ==> Distinct(arrays[k].ToView(), objects[i]))
    && (forall i, j :: 0 <= i < |objects| && 0 <= j < |objects| && i != j ==> Distinct(objects[i], objects[j]))
  }

  ghost function ViewsBut(k: int, arrays: seq<ArenaArray>, objects: seq<View>): set<View>
    reads set a | a in arrays
  {
    (set j | 0 <= j < |arrays| && j != k :: arrays[j].ToView()) + (set o | o in objects)
  }

  lemma OthersAreStored(k: int, arrays: seq<ArenaArray>, objects: seq<View>, arena: MemoryArena)
    requires AllValid(arrays, objects, arena)
    ensures AllStored(ViewsBut(k, arrays, objects), arena.heap.memory, arena.pieces)
    ensures 0 <= k < |arrays| ==> arrays[k].Alone(ViewsBut(k, arrays, objects))
  {
    hide Stored, Capacity, Copied, Truncate;
  }

  lemma MembersOfViews(k: int, arrays: seq<ArenaArray>, objects: seq<View>)
    ensures forall j :: 0 <= j < |arrays| && j != k ==> arrays[j].ToView() in ViewsBut(k, arrays, objects)
    ensures forall i :: 0 <= i < |objects| ==> objects[i] in ViewsBut(k, arrays, objects)
  {
  }

  /** What is demanded of a caller: values of the size of an element, objects with bytes, powers of two. */
  predicate FitsArrays(operation: Operation, arrays: seq<ArenaArray>) {
    match operation
    case PutInto(k, value) => k < |arrays| && |value| == arrays[k].elementSize
    case CreateObject(bytes, alignment) => bytes != [] && IsPowerOfTwo(alignment)
  }

  /** What a caller can check before an operation: the arena has room for it, and the 32-bit count can take one more. */
  predicate CanPerform(operation: Operation, arrays: seq<ArenaArray>, arena: MemoryArena)
    reads arena, set a | a in arrays
  {
    match operation
    case PutInto(k, _) =>
      && k < |arrays| && arrays[k].alignment > 0
      && arrays[k].count < COUNT_LIMIT - 1 && arrays[k].CanGrow(arena)
    case CreateObject(bytes, alignment) => alignment > 0 && arena.CanHold(|bytes|, alignment)
  }

  /** The alignments for which there always is room. */
  predicate AlwaysFits(operation: Operation, arrays: seq<ArenaArray>) {
    match operation
    case PutInto(k, _) => k < |arrays| ==> arrays[k].alignment <= HEADER_SIZE
    case CreateObject(_, alignment) => alignment <= HEADER_SIZE
  }

  method PutOne(k: nat, value: seq<Byte>, arrays: seq<ArenaArray>, ghost objects: seq<View>, arena: MemoryArena)
    requires arena.Valid() && AllValid(arrays, objects, arena) && k < |arrays|
    requires |value| == arrays[k].elementSize && arrays[k].count < COUNT_LIMIT - 1 && arrays[k].alignment > 0
    requires arrays[k].CanGrow(arena)
    modifies arena, arena.heap, arrays[k]
    ensures arena.Valid() && AllValid(arrays, objects, arena)
    ensures arrays[k].elements == old(arrays[k].elements) + [value] && arrays[k].count == old(arrays[k].count) + 1
    ensures forall j :: 0 <= j < |arrays| && j != k ==>
              arrays[j].elements == old(arrays[j].elements) && arrays[j].count == old(arrays[j].count)
  {
    hide Stored, MemoryArena.Valid, MemoryArena.CanHold, ArenaArray.CanGrow, Capacity, Copied, Truncate;
    ghost var others := ViewsBut(k, arrays, objects);
    OthersAreStored(k, arrays, objects, arena);
    MembersOfViews(k, arrays, objects);
    arrays[k].Put(value, arena, others);
    assert forall j :: 0 <= j < |arrays| && j != k ==> arrays[j].ToView() == old(arrays[j].ToView());
    assert forall j :: 0 <= j < |arrays| && j != k ==> arrays[j].ToView() in others;
  }

  /** Makes room for an object and writes it there. Nothing else in the arena sees anything of it. */
  method CreateAmong(bytes: seq<Byte>, alignment: nat, ghost others: set<View>, arena: MemoryArena)
    returns (ghost made: View)
    requires arena.Valid() && bytes != [] && IsPowerOfTwo(alignment) && arena.CanHold(|bytes|, alignment)
    requires AllStored(others, arena.heap.memory, arena.pieces)
    modifies arena, arena.heap
    ensures arena.Valid() && AllStored(others, arena.heap.memory, arena.pieces)
    ensures Stored(made, arena.heap.memory, arena.pieces) && Avoid(others, made.owner) && IsObject(made, bytes)
  {
    hide Stored, MemoryArena.Valid, AllStored, Avoid, PairwiseApart, IsPowerOfTwo;
    ghost var memory, pieces := arena.heap.memory, arena.pieces;
    var ptr := arena.Create(|bytes|, alignment);
    AllocateKeepsAll(others, memory, pieces, arena.heap.memory, arena.pieces);
    ghost var longer, w := arena.heap.memory, |pieces|;
    PieceInMemory(arena, w);
    arena.Write(ptr, bytes, w);
    WriteKeepsAll(others, longer, arena.heap.memory, arena.pieces, w, Piece(ptr, |bytes|));
    made := View(|bytes|, alignment, ptr, 1, 1, [bytes], w);
    ObjectIsStored(made, bytes, arena.heap.memory, arena.pieces);
  }

  lemma ObjectIsStored(o: View, bytes: seq<Byte>, memory: seq<Byte>, pieces: seq<Piece>)
    requires bytes != [] && IsPowerOfTwo(o.alignment) && Aligned(o.alignment, o.data)
    requires o == View(|bytes|, o.alignment, o.data, 1, 1, [bytes], o.owner)
    requires o.owner < |pieces| && pieces[o.owner] == Piece(o.data, |bytes|)
    requires o.data + |bytes| <= |memory| && memory[o.data..o.data + |bytes|] == bytes
    ensures Stored(o, memory, pieces)
  {
    hide Aligned;
    assert [bytes][..0] == [];
    assert Flatten([bytes]) == [] + bytes == bytes;
  }

  method CreateOne(bytes: seq<Byte>, alignment: nat, arrays: seq<ArenaArray>, ghost objects: seq<View>,
                   arena: MemoryArena)
    returns (ghost made: View)
    requires arena.Valid() && AllValid(arrays, objects, arena) && bytes != []
    requires IsPowerOfTwo(alignment) && arena.CanHold(|bytes|, alignment)
    modifies arena, arena.heap
    ensures arena.Valid() && AllValid(arrays, objects + [made], arena) && IsObject(made, bytes)
  {
    hide Stored, MemoryArena.Valid, MemoryArena.CanHold, Capacity, Copied, Truncate, IsPowerOfTwo;
    ghost var others := ViewsBut(-1, arrays, objects);
    OthersAreStored(-1, arrays, objects, arena);
    MembersOfViews(-1, arrays, objects);
    made := CreateAmong(bytes, alignment, others, arena);
    assert forall k :: 0 <= k < |arrays| ==> arrays[k].ToView() == old(arrays[k].ToView());
    assert forall k :: 0 <= k < |arrays| ==> arrays[k].ToView() in others;
    assert forall k :: 0 <= k < |arrays| ==> Distinct(arrays[k].ToView(), made);
  }

  // ---------------------------------------------------------------- main result

  /** Each object of the run is there with its bytes, behind those that were there before. */
  ghost predicate AreObjects(objects: seq<View>, existing: seq<View>, bytes: seq<seq<Byte>>) {
    && |objects| == |existing| + |bytes| && existing <= objects
    && forall i :: |existing| <= i < |objects| ==> IsObject(objects[i], bytes[i - |existing|])
  }

  /** Whatever is interleaved, up to the first operation for which there is no room: each array ends up with exactly the
      values put into it, in order, at a cost of at most four copies for each of its elements; and every object, from
      before the run or of the run itself, still holds its bytes. With alignments up to 8 and counts within 32 bits that
      is the whole run. */
  method RunOperations(run: seq<Operation>, arrays: seq<ArenaArray>, ghost existing: seq<View>, arena: MemoryArena)
    returns (done: nat, ghost objects: seq<View>)
    requires arena.Valid() && AllValid(arrays, existing, arena)
    requires forall i :: 0 <= i < |run| ==> FitsArrays(run[i], arrays)
    modifies arena, arena.heap, set a | a in arrays
    ensures done <= |run| && (done < |run| ==> !CanPerform(run[done], arrays, arena))
    ensures arena.Valid() && AllValid(arrays, objects, arena)
    ensures forall k :: 0 <= k < |arrays| ==> arrays[k].elements == old(arrays[k].elements) + PutsTo(k, run[..done])
    ensures forall k :: 0 <= k < |arrays| ==> arrays[k].copied <= 4 * arrays[k].count
    ensures AreObjects(objects, existing, Created(run[..done]))
    ensures (forall i :: 0 <= i < |run| ==> AlwaysFits(run[i], arrays))
            && (forall k :: 0 <= k < |arrays| ==> old(arrays[k].count) + |PutsTo(k, run)| < COUNT_LIMIT)
            ==> done == |run|
  {
    hide AllValid, MemoryArena.Valid, PutsBy, PutsTo, CreatedBy, Created, AreObjects, CanPerform, FitsArrays,
         AlwaysFits;
    done, objects := 0, existing;
    NothingYet(existing);
    while done < |run| && CanPerform(run[done], arrays, arena)
      invariant done <= |run|
      invariant arena.Valid() && AllValid(arrays, objects, arena)
      invariant forall k :: 0 <= k < |arrays| ==> arrays[k].elements == old(arrays[k].elements) + PutsTo(k, run[..done])
      invariant forall k :: 0 <= k < |arrays| ==> arrays[k].count == old(arrays[k].count) + |PutsTo(k, run[..done])|
      invariant AreObjects(objects, existing, Created(run[..done]))
    {
      OneMoreOperation(run, done);
      ghost var before := objects;
      objects := Perform(run[done], arrays, objects, arena);
      ObjectsJoin(existing, before, objects, Created(run[..done]), CreatedBy(run[done]));
      done := done + 1;
    }
    CopiesBounded(arrays, objects, arena);
    if done < |run| {
      CanAlwaysPerform(run, done, arrays, objects, arena);
    }
  }

  /** With small alignments and counts within 32 bits, every operation of a run can be performed. */
  lemma CanAlwaysPerform(run: seq<Operation>, i: nat, arrays: seq<ArenaArray>, objects: seq<View>, arena: MemoryArena)
    requires i < |run| && FitsArrays(run[i], arrays) && AllValid(arrays, objects, arena)
    ensures AlwaysFits(run[i], arrays)
            && (forall k :: 0 <= k < |arrays| ==> arrays[k].count - |PutsTo(k, run[..i])| + |PutsTo(k, run)| < COUNT_LIMIT)
            ==> CanPerform(run[i], arrays, arena)
  {
    hide Capacity, Copied, Truncate, Created, CreatedBy, PutsTo, Align, Holds;
    match run[i]
    case PutInto(k, value) =>
      assert Stored(arrays[k].ToView(), arena.heap.memory, arena.pieces);
      OneMoreOperation(run, i);
      PutsGrow(k, run, i + 1);
      assert PutsBy(k, run[i]) == [value];
    case CreateObject(_, _) =>
  }

  lemma NothingYet(existing: seq<View>)
    ensures AreObjects(existing, existing, Created([])) && forall k :: PutsTo(k, []) == []
  {
  }

  lemma OneMoreOperation(run: seq<Operation>, i: nat)
    requires i < |run|
    ensures forall k :: PutsTo(k, run[..i + 1]) == PutsTo(k, run[..i]) + PutsBy(k, run[i])
    ensures Created(run[..i + 1]) == Created(run[..i]) + CreatedBy(run[i])
  {
    hide PutsBy, CreatedBy;
    assert run[..i + 1][..i] == run[..i];
  }

  lemma ObjectsJoin(existing: seq<View>, before: seq<View>, after: seq<View>, a: seq<seq<Byte>>, b: seq<seq<Byte>>)
    requires AreObjects(before, existing, a) && AreObjects(after, before, b)
    ensures AreObjects(after, existing, a + b)
  {
    hide IsObject;
    forall i | |existing| <= i < |after| ensures IsObject(after[i], (a + b)[i - |existing|]) {
      if i < |before| {
        assert after[i] == before[i];
      }
    }
  }

  lemma CopiesBounded(arrays: seq<ArenaArray>, objects: seq<View>, arena: MemoryArena)
    requires AllValid(arrays, objects, arena)
    ensures forall k :: 0 <= k < |arrays| ==> arrays[k].copied <= 4 * arrays[k].count
  {
    hide Stored, Capacity, Copied, Truncate;
    forall k | 0 <= k < |arrays| ensures arrays[k].copied <= 4 * arrays[k].count {
      CopiesAreLinear(arrays[k].count);
    }
  }

  method Perform(operation: Operation, arrays: seq<ArenaArray>, ghost objects: seq<View>, arena: MemoryArena)
    returns (ghost after: seq<View>)
    requires arena.Valid() && AllValid(arrays, objects, arena)
    requires FitsArrays(operation, arrays) && CanPerform(operation, arrays, arena)
    modifies arena, arena.heap, set a | a in arrays
    ensures arena.Valid() && AllValid(arrays, after, arena)
    ensures forall k :: 0 <= k < |arrays| ==>
              && arrays[k].elements == old(arrays[k].elements) + PutsBy(k, operation)
              && arrays[k].count == old(arrays[k].count) + |PutsBy(k, operation)|
    ensures AreObjects(after, objects, CreatedBy(operation))
  {
    hide AllValid, MemoryArena.Valid, IsObject;
    after := objects;
    match operation
    case PutInto(k, value) => PutOne(k, value, arrays, objects, arena);
    case CreateObject(bytes, alignment) =>
      ghost var made := CreateOne(bytes, alignment, arrays, objects, arena);
      after := objects + [made];
  }
}
