/** The memory arena (cero/util/memory_arena.cc): it hands out consecutive pieces of large blocks. */
module Arenas {
  import opened Memory

  /** `sizeof(Block)`: a block begins with one pointer, to the block that was made before it. */
  const HEADER_SIZE := 8

  const INITIAL_BLOCK_SIZE := 1024

  // ---------------------------------------------------------------- blocks

  function SumSizes(blocks: seq<Piece>): nat {
    if blocks == [] then 0 else blocks[0].size + SumSizes(blocks[1..])
  }

  /** The block list is linked through the blocks from `head` on, newest first. */
  ghost predicate Linked(head: nat, links: map<nat, nat>, blocks: seq<Piece>)
    decreases blocks
  {
    if blocks == [] then head == 0
    else head != 0 && head == blocks[0].address && head in links && Linked(links[head], links, blocks[1..])
  }

  /** The size that the next block has at least, after `k` blocks. */
  function NextSize(initial: nat, k: nat): nat {
    if k == 0 then initial else NextSize(initial, k - 1) + NextSize(initial, k - 1) / 2
  }

  lemma NextSizeStep(initial: nat, k: nat)
    ensures NextSize(initial, k + 1) == NextSize(initial, k) + NextSize(initial, k) / 2
  {
  }

  /** Every block is at least as large as the growth rule says. */
  ghost predicate Grown(blocks: seq<Piece>, initial: nat) {
    forall k :: 0 <= k < |blocks| ==> blocks[k].size >= NextSize(initial, |blocks| - 1 - k)
  }

  /** The blocks are live allocations, aligned, with room for a header, and apart from each other. */
  ghost predicate GoodBlocks(blocks: seq<Piece>, live: set<Piece>) {
    && PairwiseApart(blocks)
    && forall k :: 0 <= k < |blocks| ==>
         blocks[k] in live && blocks[k].size >= HEADER_SIZE && blocks[k].address % NEW_ALIGNMENT == 0
  }

  lemma {:induction false} LinkKeeps(head: nat, links: map<nat, nat>, blocks: seq<Piece>, block: nat, next: nat)
    requires Linked(head, links, blocks) && forall k :: 0 <= k < |blocks| ==> blocks[k].address != block
    ensures Linked(head, links[block := next], blocks)
    decreases blocks
  {
    if blocks != [] {
      assert forall k :: 0 <= k < |blocks[1..]| ==> blocks[1..][k] == blocks[k + 1];
      LinkKeeps(links[head], links, blocks[1..], block, next);
    }
  }

  /** A new live block can be put in front of the list. */
  lemma {:induction false} NewBlockKeeps(head: nat, links: map<nat, nat>, blocks: seq<Piece>, initial: nat,
                                         block: Piece, live: set<Piece>)
    requires GoodBlocks(blocks, live) && Linked(head, links, blocks) && Grown(blocks, initial)
    requires block.size >= HEADER_SIZE && block.size >= NextSize(initial, |blocks|)
    requires block.address != 0 && block.address % NEW_ALIGNMENT == 0
    requires forall p :: p in live ==> Apart(p, block)
    ensures GoodBlocks([block] + blocks, live + {block})
    ensures Linked(block.address, links[block.address := head], [block] + blocks)
    ensures Grown([block] + blocks, initial)
    ensures SumSizes([block] + blocks) == SumSizes(blocks) + block.size
  {
    hide NextSize, Linked, GoodBlocks, Grown;
    assert ([block] + blocks)[1..] == blocks;
    NewBlockIsGood(blocks, block, live);
    NewBlockLinks(head, links, blocks, block, live);
    NewBlockGrows(blocks, initial, block);
  }

  lemma NewBlockIsGood(blocks: seq<Piece>, block: Piece, live: set<Piece>)
    requires GoodBlocks(blocks, live) && block.size >= HEADER_SIZE && block.address % NEW_ALIGNMENT == 0
    requires forall p :: p in live ==> Apart(p, block)
    ensures GoodBlocks([block] + blocks, live + {block})
  {
  }

  lemma NewBlockLinks(head: nat, links: map<nat, nat>, blocks: seq<Piece>, block: Piece, live: set<Piece>)
    requires GoodBlocks(blocks, live) && Linked(head, links, blocks) && block.address != 0 && block.size >= HEADER_SIZE
    requires forall p :: p in live ==> Apart(p, block)
    ensures Linked(block.address, links[block.address := head], [block] + blocks)
  {
    assert forall k :: 0 <= k < |blocks| ==> Apart(blocks[k], block) && blocks[k].address != block.address;
    LinkKeeps(head, links, blocks, block.address, head);
    assert ([block] + blocks)[1..] == blocks;
  }

  lemma NewBlockGrows(blocks: seq<Piece>, initial: nat, block: Piece)
    requires Grown(blocks, initial) && block.size >= NextSize(initial, |blocks|)
    ensures Grown([block] + blocks, initial)
  {
    hide NextSize;
  }

  // ---------------------------------------------------------------- pieces

  /** The piece lies behind the header of block `k`; in the newest block, before the free tail. */
  ghost predicate PlacedIn(p: Piece, blocks: seq<Piece>, nextPtr: nat, k: nat) {
    && k < |blocks|
    && blocks[k].address + HEADER_SIZE <= p.address
    && p.address + p.size <= blocks[k].address + blocks[k].size
    && (k == 0 ==> p.address + p.size <= nextPtr)
  }

  ghost predicate Placed(p: Piece, blocks: seq<Piece>, nextPtr: nat) {
    exists k: nat :: PlacedIn(p, blocks, nextPtr, k)
  }

  ghost predicate AllPlaced(pieces: seq<Piece>, blocks: seq<Piece>, nextPtr: nat) {
    && PairwiseApart(pieces)
    && forall i :: 0 <= i < |pieces| ==> Placed(pieces[i], blocks, nextPtr)
  }

  /** `remaining` is the size of the free tail of the newest block. */
  ghost predicate FreeTail(blocks: seq<Piece>, nextPtr: nat, remaining: nat) {
    if blocks == [] then nextPtr == 0 && remaining == 0
    else
      && blocks[0].address + HEADER_SIZE <= nextPtr
      && nextPtr + remaining == blocks[0].address + blocks[0].size
  }

  /** A piece cut from the free tail is apart from all pieces before it. */
  lemma {:induction false} CutKeeps(pieces: seq<Piece>, blocks: seq<Piece>, live: set<Piece>, nextPtr: nat, ptr: nat,
                                    size: nat)
    requires GoodBlocks(blocks, live) && blocks != [] && AllPlaced(pieces, blocks, nextPtr)
    requires blocks[0].address + HEADER_SIZE <= nextPtr <= ptr && ptr + size <= blocks[0].address + blocks[0].size
    ensures AllPlaced(pieces + [Piece(ptr, size)], blocks, ptr + size)
  {
    var p := Piece(ptr, size);
    assert PlacedIn(p, blocks, ptr + size, 0);
    forall i | 0 <= i < |pieces| ensures Apart(pieces[i], p) && Placed(pieces[i], blocks, ptr + size) {
      var k: nat :| PlacedIn(pieces[i], blocks, nextPtr, k);
      assert PlacedIn(pieces[i], blocks, ptr + size, k);
      if k > 0 {
        assert Apart(blocks[0], blocks[k]);
      }
    }
  }

  /** Old pieces keep their places when a block is put in front. */
  lemma {:induction false} BlockKeeps(pieces: seq<Piece>, blocks: seq<Piece>, nextPtr: nat, block: Piece, newPtr: nat)
    requires AllPlaced(pieces, blocks, nextPtr)
    ensures AllPlaced(pieces, [block] + blocks, newPtr)
  {
    forall i | 0 <= i < |pieces| ensures Placed(pieces[i], [block] + blocks, newPtr) {
      var k: nat :| PlacedIn(pieces[i], blocks, nextPtr, k);
      assert PlacedIn(pieces[i], [block] + blocks, newPtr, k + 1);
    }
  }

  /** Where the link of a block is. */
  function Header(block: Piece): Piece {
    Piece(block.address, HEADER_SIZE)
  }

  /** No piece overlaps the link of any block. */
  lemma {:induction false} PiecesAvoidHeaders(pieces: seq<Piece>, blocks: seq<Piece>, live: set<Piece>, nextPtr: nat,
                                              i: nat, k: nat)
    requires GoodBlocks(blocks, live) && AllPlaced(pieces, blocks, nextPtr) && i < |pieces| && k < |blocks|
    ensures Apart(pieces[i], Header(blocks[k]))
  {
    var j: nat :| PlacedIn(pieces[i], blocks, nextPtr, j);
    if j < k {
      assert Apart(blocks[j], blocks[k]);
    } else if k < j {
      assert Apart(blocks[k], blocks[j]);
    }
  }

  // ---------------------------------------------------------------- room in a new block

  function BlockSize(nextSize: nat, size: nat): nat {
    if nextSize >= size + HEADER_SIZE then nextSize else size + HEADER_SIZE
  }

  /** Where `create_block` lets the arena continue: the first aligned address behind the header, or the null pointer
      if the piece does not fit behind it. */
  function Payload(block: Piece, size: nat, alignment: nat): (r: nat)
    requires alignment > 0 && block.size >= HEADER_SIZE
    ensures r != 0 ==>
              && Aligned(alignment, r) && block.address + HEADER_SIZE <= r
              && r + size <= block.address + block.size
  {
    Align(alignment, size, block.address + HEADER_SIZE, block.size - HEADER_SIZE)
  }

  /** What `std::align` leaves of the block: it is shortened by the bytes before the payload, if there is room. */
  function PayloadSize(block: Piece, payload: nat): nat
    requires block.size >= HEADER_SIZE && payload <= block.address + block.size
  {
    if payload == 0 then block.size - HEADER_SIZE else block.address + block.size - payload
  }

  lemma NullStays(alignment: nat, size: nat)
    requires alignment > 0
    ensures Align(alignment, size, 0, 0) == 0
  {
    ZeroIsAligned(alignment);
  }

  lemma ZeroIsAligned(alignment: nat)
    requires alignment > 0
    ensures 0 % alignment == 0
  {
  }

  /** The header is as large as the strictest alignment up to 8, so the payload of a block is aligned already. */
  lemma PayloadIsAligned(block: nat, blockSize: nat, size: nat, alignment: nat)
    requires block % NEW_ALIGNMENT == 0 && PowerOfTwoUpToHeader(alignment) && size + HEADER_SIZE <= blockSize
    ensures Payload(Piece(block, blockSize), size, alignment) == block + HEADER_SIZE
  {
    hide Align, RoundUp;
    SmallAlignment(block, alignment);
    AlignedStays(alignment, size, block + HEADER_SIZE, blockSize - HEADER_SIZE);
  }

  lemma SmallAlignment(block: nat, alignment: nat)
    requires block % NEW_ALIGNMENT == 0 && PowerOfTwoUpToHeader(alignment)
    ensures Aligned(alignment, block + HEADER_SIZE)
  {
    hide Aligned;
    var q := block / NEW_ALIGNMENT;
    var k: nat := if alignment == 8 then 2 * q + 1 else if alignment == 4 then 4 * q + 2
                  else if alignment == 2 then 8 * q + 4 else 16 * q + 8;
    assert k * alignment == block + HEADER_SIZE;
    MultipleIsAligned(alignment, k);
  }

  /** With any larger alignment the bytes up to the first aligned address are missing from the size of the block: the
      piece fits exactly if the growth rule made the block large enough for them too. */
  lemma {:induction false} LargeAlignmentFits(block: nat, nextSize: nat, size: nat, alignment: nat)
    requires block % NEW_ALIGNMENT == 0 && IsPowerOfTwo(alignment) && alignment > HEADER_SIZE
    ensures Payload(Piece(block, BlockSize(nextSize, size)), size, alignment) != 0
            <==> nextSize >= RoundUp(alignment, block + HEADER_SIZE) - block + size
  {
    hide RoundUp;
    HeaderIsNotAligned(block, alignment);
    var r := RoundUp(alignment, block + HEADER_SIZE);
    assert r != block + HEADER_SIZE;
  }

  lemma HeaderIsNotAligned(block: nat, alignment: nat)
    requires block % NEW_ALIGNMENT == 0 && IsPowerOfTwo(alignment) && alignment > HEADER_SIZE
    ensures !Aligned(alignment, block + HEADER_SIZE)
  {
    var k := LargePower(alignment);
    if Aligned(alignment, block + HEADER_SIZE) {
      FactorDivides(NEW_ALIGNMENT, k, block + HEADER_SIZE);
    }
  }

  lemma FactorDivides(d: nat, k: nat, n: nat)
    requires d > 0 && d * k > 0 && n % (d * k) == 0
    ensures n % d == 0
  {
    var q := n / (d * k);
    assert n == q * (d * k);
    Regroup(q, d, k);
    assert q * k >= 0;
    MultipleIsAligned(d, q * k);
  }

  lemma Regroup(q: nat, n: nat, k: nat)
    ensures q * (n * k) == (q * k) * n
  {
  }

  /** A power of two above the header size is a multiple of 16. */
  lemma {:induction false} LargePower(alignment: nat) returns (k: nat)
    requires IsPowerOfTwo(alignment) && alignment > HEADER_SIZE
    ensures alignment == NEW_ALIGNMENT * k
  {
    if alignment / 2 > HEADER_SIZE {
      k := LargePower(alignment / 2);
      k := 2 * k;
    } else {
      SmallPowers(alignment / 2);
      k := 1;
    }
  }

  /** The gap is never larger than the alignment, wherever the block is. */
  lemma {:induction false} GapIsSmall(block: nat, alignment: nat)
    requires block % NEW_ALIGNMENT == 0 && IsPowerOfTwo(alignment) && alignment > HEADER_SIZE
    ensures RoundUp(alignment, block + HEADER_SIZE) <= block + alignment
  {
    hide RoundUp, Aligned, IsPowerOfTwo;
    var r := RoundUp(alignment, block + HEADER_SIZE);
    var k := LargePower(alignment);
    if r > block + alignment {
      AlignedBefore(alignment, r);
      NoneInHeader(block, alignment, k, r - alignment);
    }
  }

  lemma NoneInHeader(block: nat, alignment: nat, k: nat, n: nat)
    requires block % NEW_ALIGNMENT == 0 && alignment == NEW_ALIGNMENT * k && k > 0
    requires block < n < block + HEADER_SIZE
    ensures !Aligned(alignment, n)
  {
    if Aligned(alignment, n) {
      FactorDivides(NEW_ALIGNMENT, k, n);
    }
  }

  /** The block at the address that equals the alignment has the largest gap. */
  lemma {:induction false} LargestGap(alignment: nat)
    requires IsPowerOfTwo(alignment) && alignment > HEADER_SIZE
    ensures alignment % NEW_ALIGNMENT == 0 && RoundUp(alignment, alignment + HEADER_SIZE) == alignment + alignment
  {
    hide RoundUp, Aligned, IsPowerOfTwo;
    var k := LargePower(alignment);
    MultipleOfNew(k);
    var r := RoundUp(alignment, alignment + HEADER_SIZE);
    MultipleIsAligned(alignment, 2);
    if alignment + alignment < r {
      NothingBetween(alignment, alignment + HEADER_SIZE, alignment + alignment);
    }
    AlignedBefore(alignment, r);
    if r - alignment < alignment {
      SmallIsNotAligned(alignment, r - alignment);
    }
  }

  lemma MultipleOfNew(k: nat)
    ensures (NEW_ALIGNMENT * k) % NEW_ALIGNMENT == 0
  {
  }

  lemma {:induction false} RoomForAlignment(block: nat, nextSize: nat, size: nat, alignment: nat)
    requires block % NEW_ALIGNMENT == 0 && IsPowerOfTwo(alignment) && alignment > HEADER_SIZE
    requires nextSize >= size + alignment
    ensures Payload(Piece(block, BlockSize(nextSize, size)), size, alignment) != 0
  {
    hide RoundUp, Payload, IsPowerOfTwo;
    GapIsSmall(block, alignment);
    LargeAlignmentFits(block, nextSize, size, alignment);
  }

  /** What a caller can rely on before the call, when it is not known where the block will be: it has room for sure
      exactly if the next block size exceeds the size of the piece by the alignment. */
  lemma {:induction false} FitsWhereverTheBlockIs(nextSize: nat, size: nat, alignment: nat)
    requires IsPowerOfTwo(alignment) && alignment > HEADER_SIZE
    ensures nextSize >= size + alignment
            <==> forall block: nat :: block % NEW_ALIGNMENT == 0 ==>
                   Payload(Piece(block, BlockSize(nextSize, size)), size, alignment) != 0
  {
    hide RoundUp, Payload, IsPowerOfTwo;
    if nextSize >= size + alignment {
      forall block: nat | block % NEW_ALIGNMENT == 0
        ensures Payload(Piece(block, BlockSize(nextSize, size)), size, alignment) != 0
      {
        RoomForAlignment(block, nextSize, size, alignment);
      }
    } else {
      LargestGap(alignment);
      LargeAlignmentFits(alignment, nextSize, size, alignment);
    }
  }

  /** With alignment 16, which `operator new` provides for, a new block holds the piece exactly if the next block size
      exceeds its size by 16; of a fresh arena the first 1008 bytes are the most that fit, and 1024 bytes do not. */
  lemma {:induction false} AlignmentSixteen(block: nat, nextSize: nat, size: nat)
    requires block % NEW_ALIGNMENT == 0
    ensures Payload(Piece(block, BlockSize(nextSize, size)), size, 16) != 0 <==> nextSize >= size + 16
    ensures Payload(Piece(block, BlockSize(INITIAL_BLOCK_SIZE, size)), size, 16) != 0 <==> size <= 1008
    ensures Payload(Piece(block, BlockSize(INITIAL_BLOCK_SIZE, 1024)), 1024, 16) == 0
  {
    hide Payload;
    assert IsPowerOfTwo(16);
    LargeAlignmentFits(block, nextSize, size, 16);
    LargeAlignmentFits(block, INITIAL_BLOCK_SIZE, size, 16);
    LargeAlignmentFits(block, INITIAL_BLOCK_SIZE, 1024, 16);
    assert RoundUp(16, block + HEADER_SIZE) == block + 16;
  }

  class MemoryArena {
    const heap: Heap
    var nextPtr: nat
    var remainingSize: nat
    var nextBlockSize: nat
    var headBlock: nat
    var totalSize: nat
    var links: map<nat, nat>      // the `next` fields of the blocks
    ghost var initialSize: nat
    ghost var blocks: seq<Piece>  // newest first
    ghost var pieces: seq<Piece>  // everything handed out, in order

    ghost predicate ValidBlocks()
      reads this, heap
    {
      && heap.Valid()
      && GoodBlocks(blocks, heap.live)
      && Linked(headBlock, links, blocks)
      && totalSize == SumSizes(blocks)
    }

    ghost predicate Valid()
      reads this, heap
    {
      && ValidBlocks()
      && FreeTail(blocks, nextPtr, remainingSize)
      && AllPlaced(pieces, blocks, nextPtr)
      && nextBlockSize == NextSize(initialSize, |blocks|)
      && Grown(blocks, initialSize)
    }

    constructor (heap: Heap, initialSize: nat)
      requires heap.Valid()
      ensures Valid() && this.heap == heap && pieces == [] && blocks == [] && this.initialSize == initialSize
    {
      this.heap := heap;
      nextPtr, remainingSize, nextBlockSize := 0, 0, initialSize;
      headBlock, totalSize, links := 0, 0, map[];
      this.initialSize, blocks, pieces := initialSize, [], [];
    }

    /** What a caller can check before it asks for a piece: with this the arena does not give null. */
    predicate CanHold(size: nat, alignment: nat)
      requires alignment > 0
      reads this
    {
      || alignment <= HEADER_SIZE
      || Align(alignment, size, nextPtr, remainingSize) != 0
      || nextBlockSize >= size + alignment
    }

    /** Hands out an aligned piece that is apart from every piece handed out before. Only alignments above 8 can
        give the null pointer: when the piece fits neither into the free tail nor into the block that is made for it.
        The arena is not fit for use after that. */
    method Allocate(size: nat, alignment: nat) returns (ptr: nat)
      requires Valid() && IsPowerOfTwo(alignment)
      modifies this, heap
      ensures ValidBlocks() && initialSize == old(initialSize)
      ensures ptr != 0 ==> Valid() && pieces == old(pieces) + [Piece(ptr, size)] && Aligned(alignment, ptr)
      ensures old(CanHold(size, alignment)) ==> ptr != 0
      ensures ptr == 0 <==>
                && Align(alignment, size, old(nextPtr), old(remainingSize)) == 0
                && blocks != [] && blocks[1..] == old(blocks)
                && blocks[0].size == BlockSize(old(nextBlockSize), size)
                && Payload(blocks[0], size, alignment) == 0
      ensures old(heap.live) <= heap.live && (blocks == old(blocks) || (blocks != [] && blocks[1..] == old(blocks)))
      ensures old(heap.memory) <= heap.memory
    {
      hide GoodBlocks, Linked, Grown, SumSizes, AllPlaced, NextSize, Align, Aligned, Payload, IsPowerOfTwo;
      NullStays(alignment, size);
      ptr := Align(alignment, size, nextPtr, remainingSize);
      if ptr == 0 {
        CreateBlock(size, alignment);
        ptr := nextPtr;
      } else {
        remainingSize := remainingSize - (ptr - nextPtr);
      }
      if ptr != 0 {
        CutKeeps(pieces, blocks, heap.live, nextPtr, ptr, size);
        pieces := pieces + [Piece(ptr, size)];
      }
      nextPtr := ptr + size;
      remainingSize := remainingSize - size;
    }

    /** Makes a new block, and continues there at the first aligned address if `size` bytes fit behind it. */
    method CreateBlock(size: nat, alignment: nat)
      requires Valid() && IsPowerOfTwo(alignment)
      modifies this, heap
      ensures ValidBlocks() && initialSize == old(initialSize) && pieces == old(pieces)
      ensures blocks != [] && blocks[1..] == old(blocks) && blocks[0].size == BlockSize(old(nextBlockSize), size)
      ensures nextPtr == Payload(blocks[0], size, alignment) && size <= remainingSize
      ensures nextPtr != 0 ==> Valid()
      ensures alignment <= HEADER_SIZE || old(nextBlockSize) >= size + alignment ==> nextPtr != 0
      ensures old(heap.live) <= heap.live && old(heap.memory) <= heap.memory
    {
      hide GoodBlocks, Linked, Grown, SumSizes, AllPlaced, Align, Aligned, Heap.Valid, IsPowerOfTwo,
           PowerOfTwoUpToHeader, Payload, NextSize;
      var blockSize := BlockSize(nextBlockSize, size);
      var block := PushBlock(blockSize);
      SmallPowers(alignment);
      if alignment <= HEADER_SIZE {
        PayloadIsAligned(block, blockSize, size, alignment);
      } else if nextBlockSize >= size + alignment {
        RoomForAlignment(block, nextBlockSize, size, alignment);
      }
      BlockKeeps(pieces, old(blocks), nextPtr, Piece(block, blockSize), Payload(Piece(block, blockSize), size, alignment));
      nextPtr := Payload(Piece(block, blockSize), size, alignment);
      remainingSize := PayloadSize(Piece(block, blockSize), nextPtr);
      NextSizeStep(initialSize, |old(blocks)|);
      nextBlockSize := nextBlockSize + nextBlockSize / 2;
    }

    /** Makes a block and puts it in front of the list. */
    method PushBlock(blockSize: nat) returns (block: nat)
      requires ValidBlocks() && Grown(blocks, initialSize)
      requires blockSize >= HEADER_SIZE && blockSize >= NextSize(initialSize, |blocks|)
      modifies this`totalSize, this`links, this`headBlock, this`blocks, heap
      ensures ValidBlocks() && Grown(blocks, initialSize) && blocks == [Piece(block, blockSize)] + old(blocks)
      ensures block % NEW_ALIGNMENT == 0
      ensures old(heap.live) <= heap.live && old(heap.memory) <= heap.memory
    {
      hide GoodBlocks, Linked, Grown, SumSizes, Apart, Heap.Valid, NextSize;
      block := heap.New(blockSize);
      totalSize := totalSize + blockSize;
      NewBlockKeeps(headBlock, links, blocks, initialSize, Piece(block, blockSize), old(heap.live));
      links := links[block := headBlock];
      headBlock := block;
      blocks := [Piece(block, blockSize)] + blocks;
    }

    /** `create<T>`: room for one object. */
    method Create(size: nat, alignment: nat) returns (ptr: nat)
      requires Valid() && IsPowerOfTwo(alignment)
      modifies this, heap
      ensures ValidBlocks() && initialSize == old(initialSize)
      ensures ptr != 0 ==> Valid() && pieces == old(pieces) + [Piece(ptr, size)] && Aligned(alignment, ptr)
      ensures old(CanHold(size, alignment)) ==> ptr != 0
      ensures ptr == 0 <==>
                && Align(alignment, size, old(nextPtr), old(remainingSize)) == 0
                && blocks != [] && blocks[1..] == old(blocks)
                && blocks[0].size == BlockSize(old(nextBlockSize), size)
                && Payload(blocks[0], size, alignment) == 0
      ensures old(heap.live) <= heap.live && (blocks == old(blocks) || (blocks != [] && blocks[1..] == old(blocks)))
      ensures old(heap.memory) <= heap.memory
    {
      ptr := Allocate(size, alignment);
    }

    /** Writes into piece `i`, as `memcpy` and placement `new` do. The links of the blocks stay as they are. */
    method Write(address: nat, bytes: seq<Byte>, ghost i: nat)
      requires Valid() && i < |pieces| && Within(Piece(address, |bytes|), pieces[i])
      modifies heap`memory
      ensures Valid() && |heap.memory| == |old(heap.memory)| && address + |bytes| <= |heap.memory|
      ensures heap.memory[address..address + |bytes|] == bytes
      ensures OnlyWritten(old(heap.memory), heap.memory, Piece(address, |bytes|))
      ensures forall k :: 0 <= k < |blocks| ==>
                && blocks[k].address + HEADER_SIZE <= |heap.memory|
                && Slice(heap.memory, Header(blocks[k])) == Slice(old(heap.memory), Header(blocks[k]))
    {
      hide Linked, Grown, SumSizes, NextSize, AllPlaced, OnlyWritten;
      PieceIsLive(i);
      ghost var written := Piece(address, |bytes|);
      heap.Write(address, bytes);
      forall k | 0 <= k < |blocks|
        ensures blocks[k].address + HEADER_SIZE <= |heap.memory|
        ensures Slice(heap.memory, Header(blocks[k])) == Slice(old(heap.memory), Header(blocks[k]))
      {
        PiecesAvoidHeaders(pieces, blocks, heap.live, nextPtr, i, k);
        assert blocks[k] in heap.live;
        assert Apart(Header(blocks[k]), written);
        Untouched(old(heap.memory), heap.memory, written, Header(blocks[k]));
      }
    }

    lemma PieceIsLive(i: nat)
      requires Valid() && i < |pieces|
      ensures pieces[i].address + pieces[i].size <= |heap.memory|
    {
      var k: nat :| PlacedIn(pieces[i], blocks, nextPtr, k);
    }

    /** Deletes every block once. The pointer into the newest block is left as it was: an arena is not fit for
        `Allocate` after this until it is assigned to. */
    method Release()
      requires ValidBlocks()
      modifies this`headBlock, this`totalSize, this`blocks, this`pieces, heap`live
      ensures ValidBlocks() && blocks == [] && pieces == []
      ensures heap.live == old(heap.live) - Members(old(blocks))
    {
      var block := headBlock;
      ghost var rest := blocks;
      headBlock := 0;
      BlocksDistinct(blocks);
      while block != 0
        invariant headBlock == 0 && heap.Valid() && GoodBlocks(rest, heap.live) && Linked(block, links, rest)
        invariant heap.live - Members(rest) == old(heap.live) - Members(old(blocks))
        decreases rest
      {
        var next := links[block];
        assert rest == [rest[0]] + rest[1..];
        BlocksDistinct(rest);
        heap.Delete(block, rest[0].size);
        rest := rest[1..];
        block := next;
      }
      totalSize := 0;
      blocks, pieces := [], [];
      assert rest == [];
    }

    /** Leaves an arena empty, with the initial size of a fresh one. */
    method Reset()
      requires heap.Valid()
      modifies this
      ensures Valid() && blocks == [] && pieces == [] && initialSize == INITIAL_BLOCK_SIZE
    {
      nextPtr, remainingSize, nextBlockSize, headBlock, totalSize := 0, 0, INITIAL_BLOCK_SIZE, 0, 0;
      initialSize, blocks, pieces := INITIAL_BLOCK_SIZE, [], [];
    }

    constructor Move(other: MemoryArena)
      requires other.Valid()
      modifies other
      ensures heap == other.heap && Valid() && other.Valid()
      ensures blocks == old(other.blocks) && pieces == old(other.pieces) && initialSize == old(other.initialSize)
      ensures nextPtr == old(other.nextPtr) && remainingSize == old(other.remainingSize)
      ensures other.blocks == [] && other.pieces == [] && other.initialSize == INITIAL_BLOCK_SIZE
    {
      heap := other.heap;
      nextPtr, remainingSize, nextBlockSize := other.nextPtr, other.remainingSize, other.nextBlockSize;
      headBlock, totalSize, links := other.headBlock, other.totalSize, other.links;
      initialSize, blocks, pieces := other.initialSize, other.blocks, other.pieces;
      new;
      other.Reset();
    }

    /** Move assignment: what this arena held is deleted, and it takes over what the other held. */
    method Assign(other: MemoryArena)
      requires Valid() && other.Valid() && heap == other.heap
      requires this == other || Members(blocks) !! Members(other.blocks)
      modifies this, other, heap`live
      ensures Valid() && blocks == old(other.blocks) && pieces == old(other.pieces)
      ensures nextPtr == old(other.nextPtr) && remainingSize == old(other.remainingSize)
      ensures nextBlockSize == old(other.nextBlockSize) && initialSize == old(other.initialSize)
      ensures this != other ==>
                && other.Valid() && other.blocks == [] && other.pieces == [] && other.initialSize == INITIAL_BLOCK_SIZE
                && heap.live == old(heap.live) - Members(old(blocks))
    {
      hide SumSizes, Linked, AllPlaced, Grown, NextSize, GoodBlocks, FreeTail;
      if this != other {
        Release();
        nextPtr, remainingSize, nextBlockSize := other.nextPtr, other.remainingSize, other.nextBlockSize;
        headBlock, totalSize, links := other.headBlock, other.totalSize, other.links;
        initialSize, blocks, pieces := other.initialSize, other.blocks, other.pieces;
        OtherBlocksStay(blocks, old(heap.live), Members(old(blocks)));
        other.Reset();
      }
    }

    method GetTotalSize() returns (size: nat)
      requires Valid()
      ensures size == SumSizes(blocks)
    {
      size := totalSize;
    }
  }

  ghost function Members(blocks: seq<Piece>): set<Piece> {
    set b | b in blocks
  }

  lemma OtherBlocksStay(blocks: seq<Piece>, live: set<Piece>, gone: set<Piece>)
    requires GoodBlocks(blocks, live) && gone !! Members(blocks)
    ensures GoodBlocks(blocks, live - gone)
  {
    assert forall k :: 0 <= k < |blocks| ==> blocks[k] in Members(blocks);
  }

  /** Blocks with a header that are apart are different. */
  lemma BlocksDistinct(blocks: seq<Piece>)
    requires PairwiseApart(blocks) && forall k :: 0 <= k < |blocks| ==> blocks[k].size >= HEADER_SIZE
    ensures forall i, j :: 0 <= i < j < |blocks| ==> blocks[i] != blocks[j]
    ensures blocks != [] ==> Members(blocks) == {blocks[0]} + Members(blocks[1..]) && blocks[0] !in Members(blocks[1..])
  {
    if blocks != [] {
      assert forall k :: 0 <= k < |blocks[1..]| ==> blocks[1..][k] == blocks[k + 1];
    }
  }

  // ---------------------------------------------------------------- growth

  function Pow(base: nat, k: nat): nat {
    if k == 0 then 1 else base * Pow(base, k - 1)
  }

  /** Block sizes grow at least by the factor 4/3, once the initial size is 2 or more. */
  lemma {:induction false} BlocksGrow(initial: nat, k: nat)
    requires initial >= 2
    ensures NextSize(initial, k) >= 2
    ensures Pow(3, k) * NextSize(initial, k) >= Pow(4, k) * initial
  {
    if k > 0 {
      BlocksGrow(initial, k - 1);
      var p, n := Pow(3, k - 1), NextSize(initial, k - 1);
      GrowthStep(p, n, Pow(4, k - 1) * initial);
      assert Pow(4, k) * initial == 4 * (Pow(4, k - 1) * initial);
    }
  }

  lemma GrowthStep(p: nat, n: nat, q: nat)
    requires n >= 2 && p * n >= q
    ensures 3 * p * (n + n / 2) >= 4 * q
  {
    var m := 3 * (n + n / 2) - 4 * n;
    assert 3 * p * (n + n / 2) == p * (4 * n + m) == 4 * (p * n) + p * m;
  }

  /** For the blocks of an arena: each is at least by the factor 4/3 larger than the rule made the one before it. */
  lemma {:induction false} ArenaBlocksGrow(arena: MemoryArena, k: nat)
    requires arena.Valid() && arena.initialSize >= 2 && k < |arena.blocks|
    ensures var older := |arena.blocks| - 1 - k;
            Pow(3, older) * arena.blocks[k].size >= Pow(4, older) * arena.initialSize
  {
    var older := |arena.blocks| - 1 - k;
    BlocksGrow(arena.initialSize, older);
    TimesMore(Pow(3, older), NextSize(arena.initialSize, older), arena.blocks[k].size);
  }

  lemma TimesMore(p: nat, m: nat, n: nat)
    requires m <= n
    ensures p * m <= p * n
  {
  }

  /** Rounding keeps the total ahead of the next block: the arena holds at least twice what the next block size
      exceeds the initial size by. */
  lemma {:induction false} TotalKeepsUp(blocks: seq<Piece>, initial: nat)
    requires Grown(blocks, initial)
    ensures SumSizes(blocks) >= 2 * (NextSize(initial, |blocks|) - initial)
  {
    if blocks != [] {
      assert forall k :: 0 <= k < |blocks[1..]| ==> blocks[1..][k] == blocks[k + 1];
      TotalKeepsUp(blocks[1..], initial);
    }
  }
}
