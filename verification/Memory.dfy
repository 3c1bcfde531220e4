/** The memory below the arena: what `operator new` and `operator delete` promise, and bytes at addresses. */
module Memory {

  /** A run of bytes. */
  datatype Piece = Piece(address: nat, size: nat)

  ghost predicate Apart(p: Piece, q: Piece) {
    p.address + p.size <= q.address || q.address + q.size <= p.address
  }

  ghost predicate Within(p: Piece, q: Piece) {
    q.address <= p.address && p.address + p.size <= q.address + q.size
  }

  ghost predicate PairwiseApart(ps: seq<Piece>) {
    forall i, j :: 0 <= i < j < |ps| ==> Apart(ps[i], ps[j])
  }

  /** Alignment that `operator new` guarantees (`__STDCPP_DEFAULT_NEW_ALIGNMENT__`). */
  const NEW_ALIGNMENT := 16

  type Byte = x: int | 0 <= x < 256

  /** Global memory. Address 0 is the null pointer and is never handed out. */
  class Heap {
    var memory: seq<Byte>
    ghost var live: set<Piece>

    ghost predicate Valid()
      reads this
    {
      && |memory| >= NEW_ALIGNMENT && |memory| % NEW_ALIGNMENT == 0
      && (forall p :: p in live ==> p.address >= NEW_ALIGNMENT && p.address + p.size <= |memory|)
      && (forall p, q :: p in live && q in live && p != q ==> Apart(p, q))
    }

    constructor ()
      ensures Valid() && live == {}
    {
      memory := seq(NEW_ALIGNMENT, i => 0);
      live := {};
    }

    /** A new piece is aligned, not null, and apart from everything that is live. */
    method New(size: nat) returns (address: nat)
      requires Valid() && size > 0
      modifies this
      ensures Valid() && address != 0 && address % NEW_ALIGNMENT == 0
      ensures live == old(live) + {Piece(address, size)} && Piece(address, size) !in old(live)
      ensures forall p :: p in old(live) ==> Apart(p, Piece(address, size))
      ensures |old(memory)| <= |memory| && memory[..|old(memory)|] == old(memory)
    {
      address := |memory|;
      var more := RoundUpToNew(size, address);
      memory := memory + seq(more, i => 0);
      live := live + {Piece(address, size)};
    }

    method Delete(address: nat, ghost size: nat)
      requires Valid() && Piece(address, size) in live
      modifies `live
      ensures Valid() && live == old(live) - {Piece(address, size)}
    {
      live := live - {Piece(address, size)};
    }

    method Write(address: nat, bytes: seq<Byte>)
      requires Valid() && address + |bytes| <= |memory|
      modifies `memory
      ensures Valid() && |memory| == |old(memory)|
      ensures memory[address..address + |bytes|] == bytes
      ensures OnlyWritten(old(memory), memory, Piece(address, |bytes|))
    {
      ghost var was := memory;
      memory := memory[..address] + bytes + memory[address + |bytes|..];
      forall p: Piece | p.address + p.size <= |memory| && Apart(p, Piece(address, |bytes|))
        ensures Slice(memory, p) == Slice(was, p)
      {
      }
    }
  }

  /** The size rounded up, so that memory of a size that is a multiple of 16 stays one. */
  function RoundUpToNew(size: nat, before: nat): (r: nat)
    requires before % NEW_ALIGNMENT == 0
    ensures size <= r && (before + r) % NEW_ALIGNMENT == 0
  {
    (size + 15) / NEW_ALIGNMENT * NEW_ALIGNMENT
  }

  /** The bytes of a piece. */
  function Slice(memory: seq<Byte>, p: Piece): seq<Byte>
    requires p.address + p.size <= |memory|
  {
    memory[p.address..p.address + p.size]
  }

  /** Every piece apart from `written` holds the same bytes as before. */
  ghost predicate OnlyWritten(memory: seq<Byte>, changed: seq<Byte>, written: Piece) {
    && |memory| == |changed|
    && forall p: Piece :: p.address + p.size <= |memory| && Apart(p, written) ==> Slice(changed, p) == Slice(memory, p)
  }

  lemma Untouched(memory: seq<Byte>, changed: seq<Byte>, written: Piece, p: Piece)
    requires OnlyWritten(memory, changed, written) && p.address + p.size <= |memory| && Apart(p, written)
    ensures Slice(changed, p) == Slice(memory, p)
  {
  }

  // ---------------------------------------------------------------- alignment

  /** What callers must ask for: with any other alignment the behaviour is undefined. */
  predicate IsPowerOfTwo(n: nat): (b: bool)
    ensures b ==> n > 0
  {
    n == 1 || (n > 1 && n % 2 == 0 && IsPowerOfTwo(n / 2))
  }

  predicate PowerOfTwoUpToHeader(alignment: nat) {
    alignment in {1, 2, 4, 8}
  }

  lemma SmallPowers(alignment: nat)
    ensures PowerOfTwoUpToHeader(alignment) <==> IsPowerOfTwo(alignment) && alignment <= 8
  {
    assert IsPowerOfTwo(1) && IsPowerOfTwo(2) && IsPowerOfTwo(4) && IsPowerOfTwo(8);
    assert !IsPowerOfTwo(0) && !IsPowerOfTwo(3) && !IsPowerOfTwo(5) && !IsPowerOfTwo(6) && !IsPowerOfTwo(7);
  }

  predicate Aligned(alignment: nat, address: nat)
    requires alignment > 0
  {
    address % alignment == 0
  }

  /** The next multiple of the alignment. */
  function RoundUp(alignment: nat, address: nat): (r: nat)
    requires alignment > 0
    ensures Aligned(alignment, r) && address <= r < address + alignment
  {
    var over := address % alignment;
    RoundUpIsAligned(alignment, address);
    if over == 0 then address else address - over + alignment
  }

  lemma RoundUpIsAligned(alignment: nat, address: nat)
    requires alignment > 0
    ensures var over := address % alignment;
            over <= address && Aligned(alignment, address - over + alignment)
  {
    var q, over := address / alignment, address % alignment;
    assert address == q * alignment + over && 0 <= q;
    MultipleIsAligned(alignment, q + 1);
    assert (q + 1) * alignment == address - over + alignment;
  }

  lemma {:induction false} MultipleIsAligned(alignment: nat, k: nat)
    requires alignment > 0
    ensures k * alignment >= 0 && Aligned(alignment, k * alignment)
  {
    if k > 0 {
      MultipleIsAligned(alignment, k - 1);
      assert k * alignment == (k - 1) * alignment + alignment;
      AddOnce((k - 1) * alignment, alignment);
    }
  }

  lemma AddOnce(n: nat, d: nat)
    requires d > 0
    ensures (n + d) % d == n % d
  {
    var q, r := n / d, n % d;
    assert n + d == (q + 1) * d + r;
    assert (q + 1) * d == q * d + d;
    RemainderIsUnique(n + d, d, q + 1, r);
  }

  lemma RemainderIsUnique(n: nat, d: nat, q: nat, r: nat)
    requires d > 0 && n == q * d + r && r < d
    ensures n % d == r
  {
    QuotientIsUnique(d, q, r, n / d, n % d);
  }

  lemma QuotientIsUnique(d: nat, q: nat, r: nat, p: nat, s: nat)
    requires q * d + r == p * d + s && r < d && s < d
    ensures r == s
  {
    if p < q {
      LeastMultiple(d, p, q);
    } else if q < p {
      LeastMultiple(d, q, p);
    }
  }

  lemma {:induction false} LeastMultiple(d: nat, p: nat, q: nat)
    requires p < q
    ensures q * d >= p * d + d
  {
    if p + 1 < q {
      LeastMultiple(d, p, q - 1);
    }
  }

  lemma AlignedBefore(alignment: nat, n: nat)
    requires alignment > 0 && n >= alignment && Aligned(alignment, n)
    ensures Aligned(alignment, n - alignment)
  {
    AddOnce(n - alignment, alignment);
  }

  lemma SmallIsNotAligned(alignment: nat, n: nat)
    requires 0 < n < alignment
    ensures !Aligned(alignment, n)
  {
    RemainderIsUnique(n, alignment, 0, n);
  }

  /** Between an address and where it is rounded up to nothing is aligned. */
  lemma NothingBetween(alignment: nat, address: nat, p: nat)
    requires alignment > 0 && address <= p < RoundUp(alignment, address)
    ensures !Aligned(alignment, p)
  {
    var over := address % alignment;
    var q := address / alignment;
    assert address == q * alignment + over;
    RemainderIsUnique(p, alignment, q, p - (address - over));
  }

  /** `std::align`: the first aligned address at or behind `ptr`, if `size` bytes from there on fit into `space`;
      otherwise the null pointer. */
  function Align(alignment: nat, size: nat, ptr: nat, space: nat): (r: nat)
    requires alignment > 0
    ensures r != 0 ==> Aligned(alignment, r) && ptr <= r < ptr + alignment && r + size <= ptr + space
  {
    var aligned := RoundUp(alignment, ptr);
    if aligned + size <= ptr + space then aligned else 0
  }

  /** No aligned address before the result would do, and the null pointer means that none would do at all. */
  lemma {:induction false} AlignIsFirst(alignment: nat, size: nat, ptr: nat, space: nat, p: nat)
    requires alignment > 0 && ptr <= p && Aligned(alignment, p) && p + size <= ptr + space
    ensures Align(alignment, size, ptr, space) <= p
    ensures p > 0 && ptr > 0 ==> Align(alignment, size, ptr, space) != 0
  {
    hide Aligned;
    if p < RoundUp(alignment, ptr) {
      NothingBetween(alignment, ptr, p);
    }
  }

  lemma AlignedStays(alignment: nat, size: nat, ptr: nat, space: nat)
    requires alignment > 0 && Aligned(alignment, ptr) && size <= space
    ensures Align(alignment, size, ptr, space) == ptr
  {
  }
}
