/** The bump allocator `sbrk` and the profiler's slab allocator on top of it. */
module Heap {
  import opened Words

  const SLAB: nat := 1020  // MCOUNT_SLAB_INCREMENT

  /** (caddr_t)-1 */
  const FAILED: nat := 0xFFFF_FFFF

  /** The linker's heap bounds, low enough that adding an int to an address in the heap
      does not wrap upwards. */
  datatype Bounds = Bounds(start: nat, limit: nat)

  predicate BoundsOk(b: Bounds) {
    b.start <= b.limit <= 0x7FFF_FFFC
  }

  function Aligned(a: nat): (r: nat)
    ensures a <= r < a + 4 && r % 4 == 0
  {
    (a + 3) / 4 * 4
  }

  /** What an alt_u32 or an address holds of a sum. */
  function Wrapped(x: int): (r: nat)
    ensures r < W
  {
    x % W
  }

  /** `heap_end`, and the slab that is being used up. */
  datatype State = State(heapEnd: nat, slabPtr: nat, slabSize: int)

  /** Bytes `addr` to `addr + size - 1`. */
  datatype Block = Block(addr: nat, size: nat)

  predicate Apart(x: Block, y: Block) {
    x.addr + x.size <= y.addr || y.addr + y.size <= x.addr
  }

  predicate Within(x: Block, lo: nat, hi: nat) {
    lo <= x.addr && x.addr + x.size <= hi
  }

  /** The limit test of sbrk, on addresses that wrap. */
  predicate Passes(b: Bounds, s: State, incr: I32) {
    Wrapped(Aligned(s.heapEnd) + incr) <= b.limit
  }

  /** The heap can be moved by `incr` and end no later than at the limit. */
  predicate Fits(b: Bounds, s: State, incr: I32) {
    0 <= Aligned(s.heapEnd) + incr <= b.limit
  }

  /** `ALT_SBRK`: the new heap end, which is aligned even when the request fails. */
  function Sbrk(b: Bounds, s: State, incr: I32): (State, nat) {
    var at := Aligned(s.heapEnd);
    if Passes(b, s, incr) then (s.(heapEnd := Wrapped(at + incr)), at) else (s.(heapEnd := at), FAILED)
  }

  /** `mcount_allocate`; it never looks whether its slab was had. */
  function Allocate(b: Bounds, s: State, size: U32): (State, nat) {
    var (grown, at) := Sbrk(b, s, SLAB);
    var s1 := if size > Wrapped(s.slabSize) then grown.(slabPtr := at, slabSize := SLAB) else s;
    (s1.(slabPtr := Wrapped(s1.slabPtr + size), slabSize := Stored(s1.slabSize - size)), s1.slabPtr)
  }

  datatype Request = DoSbrk(incr: I32) | DoAllocate(size: U32)

  /** The heap does not shrink, and a slab block is not larger than a slab and has one. */
  predicate Sound(b: Bounds, s: State, r: Request) {
    match r
    case DoSbrk(incr) => incr >= 0
    case DoAllocate(size) => size <= SLAB && (size > s.slabSize ==> Fits(b, s, SLAB))
  }

  /** What a request is given, if anything. */
  function Given(b: Bounds, s: State, r: Request): seq<Block> {
    match r
    case DoSbrk(incr) =>
      if Passes(b, s, incr) then [Block(Aligned(s.heapEnd), if incr > 0 then incr else 0)] else []
    case DoAllocate(size) => [Block(Allocate(b, s, size).1, size)]
  }

  function After(b: Bounds, s: State, r: Request): State {
    match r
    case DoSbrk(incr) => Sbrk(b, s, incr).0
    case DoAllocate(size) => Allocate(b, s, size).0
  }

  /** Every request of the run is sound when it is made. */
  predicate AllSound(b: Bounds, s: State, rs: seq<Request>)
    decreases |rs|
  {
    rs == [] || (Sound(b, s, rs[0]) && AllSound(b, After(b, s, rs[0]), rs[1..]))
  }

  /** All the blocks given out over a run, in order. */
  function AllGiven(b: Bounds, s: State, rs: seq<Request>): seq<Block>
    decreases |rs|
  {
    if rs == [] then [] else Given(b, s, rs[0]) + AllGiven(b, After(b, s, rs[0]), rs[1..])
  }

  /** The heap ends at the limit or before it, but for the alignment of a failed request. */
  predicate UnderLimit(b: Bounds, s: State) {
    BoundsOk(b) && (s.heapEnd <= b.limit || (s.heapEnd % 4 == 0 && s.heapEnd <= b.limit + 3))
  }

  predicate Inv(b: Bounds, s: State) {
    && UnderLimit(b, s) && b.start <= s.heapEnd && 0 <= s.slabSize <= SLAB && s.slabPtr < W
    && (s.slabSize > 0 ==>
          b.start <= s.slabPtr && s.slabPtr + s.slabSize <= s.heapEnd && s.slabPtr + s.slabSize <= b.limit)
  }

  /** A block that can still be given out: in what is left of the slab, or above the heap. */
  predicate Unused(s: State, x: Block) {
    || x.size == 0
    || (s.slabPtr <= x.addr && x.addr + x.size <= s.slabPtr + s.slabSize)
    || s.heapEnd <= x.addr
  }

  /** With the heap where it is, the sums of sbrk do not wrap unseen. */
  lemma SbrkIs(b: Bounds, s: State, incr: I32)
    requires UnderLimit(b, s)
    ensures var at := Aligned(s.heapEnd);
            && (Passes(b, s, incr) <==> Fits(b, s, incr))
            && Sbrk(b, s, incr)
               == if Fits(b, s, incr) then (s.(heapEnd := at + incr), at) else (s.(heapEnd := at), FAILED)
  {
  }

  lemma NoWrap(x: nat)
    ensures x < W ==> Wrapped(x) == x
    ensures x < 0x8000_0000 ==> Stored(x) == x
  {
  }

  lemma AllocateIs(b: Bounds, s: State, size: U32)
    requires Inv(b, s) && Sound(b, s, DoAllocate(size))
    ensures var at := Aligned(s.heapEnd);
            var s1 := if size > s.slabSize then State(at + SLAB, at, SLAB) else s;
            Allocate(b, s, size) == (State(s1.heapEnd, s1.slabPtr + size, s1.slabSize - size), s1.slabPtr)
  {
    hide Wrapped, Stored, Sbrk, Passes;
    SbrkIs(b, s, SLAB);
    NoWrap(s.slabSize);
    var s1 := if size > s.slabSize then State(Aligned(s.heapEnd) + SLAB, Aligned(s.heapEnd), SLAB) else s;
    NoWrap(s1.slabPtr + size);
    NoWrap(s1.slabSize - size);
  }

  /** Only bytes that were unused are given out, and those are used from then on. */
  ghost predicate Takes(b: Bounds, s: State, s': State, given: seq<Block>) {
    && Inv(b, s')
    && (forall x | x in given :: Unused(s, x) && (x.size > 0 ==> Within(x, b.start, b.limit)))
    && (forall y | Unused(s', y) ::
          Unused(s, y) && forall x | x in given :: x.size == 0 || y.size == 0 || Apart(x, y))
  }

  lemma SbrkTakes(b: Bounds, s: State, incr: I32)
    requires Inv(b, s) && incr >= 0
    ensures Takes(b, s, After(b, s, DoSbrk(incr)), Given(b, s, DoSbrk(incr)))
  {
    hide Sbrk, Passes;
    SbrkIs(b, s, incr);
  }

  lemma AllocateTakes(b: Bounds, s: State, size: U32)
    requires Inv(b, s) && Sound(b, s, DoAllocate(size))
    ensures Takes(b, s, After(b, s, DoAllocate(size)), Given(b, s, DoAllocate(size)))
  {
    hide Allocate, Sbrk, Passes;
    AllocateIs(b, s, size);
  }

  lemma StepKeeps(b: Bounds, s: State, r: Request)
    requires Inv(b, s) && Sound(b, s, r)
    ensures Takes(b, s, After(b, s, r), Given(b, s, r))
  {
    hide Takes;
    match r
    case DoSbrk(incr) => SbrkTakes(b, s, incr);
    case DoAllocate(size) => AllocateTakes(b, s, size);
  }

  lemma {:induction false} LaterAreUnused(b: Bounds, s: State, rs: seq<Request>)
    requires Inv(b, s) && AllSound(b, s, rs)
    ensures forall x | x in AllGiven(b, s, rs) :: Unused(s, x) && (x.size > 0 ==> Within(x, b.start, b.limit))
    decreases |rs|
  {
    if rs != [] {
      StepKeeps(b, s, rs[0]);
      LaterAreUnused(b, After(b, s, rs[0]), rs[1..]);
    }
  }

  /** Over any run of sbrk and slab requests, in any order, every block given out lies in
      the heap and no two of them share a byte. */
  lemma {:induction false} AllApart(b: Bounds, s: State, rs: seq<Request>, i: nat, j: nat)
    requires Inv(b, s) && AllSound(b, s, rs) && i < j < |AllGiven(b, s, rs)|
    ensures var given := AllGiven(b, s, rs);
            && (given[i].size > 0 ==> Within(given[i], b.start, b.limit))
            && (given[i].size == 0 || given[j].size == 0 || Apart(given[i], given[j]))
    decreases |rs|
  {
    var first, s1 := Given(b, s, rs[0]), After(b, s, rs[0]);
    var rest := AllGiven(b, s1, rs[1..]);
    StepKeeps(b, s, rs[0]);
    LaterAreUnused(b, s1, rs[1..]);
    LaterAreUnused(b, s, rs);
    assert AllGiven(b, s, rs)[i] in AllGiven(b, s, rs);
    if i < |first| {
      assert AllGiven(b, s, rs)[i] == first[i] && |first| == 1;
      assert AllGiven(b, s, rs)[j] == rest[j - |first|] && rest[j - |first|] in rest;
    } else {
      AllApart(b, s1, rs[1..], i - |first|, j - |first|);
    }
  }

  /** sbrk gives a word-aligned block exactly when the heap can be moved so far from its
      aligned end, forwards or backwards; a request that does not fit takes nothing but the
      alignment. */
  lemma SbrkGivesExactlyWhen(b: Bounds, s: State, incr: I32)
    requires UnderLimit(b, s)
    ensures var (s', at) := Sbrk(b, s, incr);
            && UnderLimit(b, s') && (at != FAILED <==> Fits(b, s, incr))
            && (at != FAILED ==> at % 4 == 0 && s.heapEnd <= at < s.heapEnd + 4 && s'.heapEnd == at + incr <= b.limit)
            && (at == FAILED ==> s'.heapEnd % 4 == 0 && s.heapEnd <= s'.heapEnd < s.heapEnd + 4)
            && (at == FAILED ==> forall k: I32 :: Fits(b, s', k) <==> Fits(b, s, k))
            && s'.slabPtr == s.slabPtr && s'.slabSize == s.slabSize
  {
    SbrkIs(b, s, incr);
  }

  /** A block from the slab allocator lies in memory that sbrk has given if and only if it is
      not larger than a slab and the slab, if one is needed, could be had. */
  lemma AllocateIsBackedExactlyWhen(b: Bounds, s: State, size: U32)
    requires Inv(b, s) && size > 0
    ensures var (s', at) := Allocate(b, s, size);
            Within(Block(at, size), b.start, s'.heapEnd) <==> Sound(b, s, DoAllocate(size))
  {
    SbrkGivesExactlyWhen(b, s, SLAB);
  }

  /** Such a block lies inside one slab, fresh or partly used, and what is left of the slab
      is behind it. */
  lemma AllocateStaysInSlab(b: Bounds, s: State, size: U32)
    requires Inv(b, s) && Sound(b, s, DoAllocate(size))
    ensures var (s', at) := Allocate(b, s, size);
            var slab := if size > s.slabSize then Block(Aligned(s.heapEnd), SLAB) else Block(s.slabPtr, s.slabSize);
            && Within(Block(at, size), slab.addr, slab.addr + slab.size)
            && (slab.size > 0 ==> s'.slabPtr == at + size && s'.slabPtr + s'.slabSize == slab.addr + slab.size)
  {
    AllocateIs(b, s, size);
  }

  lemma GivenFirst(b: Bounds, s: State, r: Request, rest: seq<Request>)
    ensures AllGiven(b, s, [r] + rest) == Given(b, s, r) + AllGiven(b, After(b, s, r), rest)
  {
    hide Given, After;
    assert ([r] + rest)[1..] == rest;
  }

  /** Without soundness blocks do overlap: a slab block of 1024 bytes runs into the next
      block that sbrk gives. */
  lemma OversizedBlockOverlaps()
    ensures var b, s := Bounds(0x1000, 0x10000), State(0x1000, 0, 0);
            var given := AllGiven(b, s, [DoAllocate(1024), DoSbrk(8)]);
            && Inv(b, s) && |given| == 2 && given[1].size > 0 && !Apart(given[0], given[1])
  {
    hide AllGiven;
    var b, s := Bounds(0x1000, 0x10000), State(0x1000, 0, 0);
    var s1 := After(b, s, DoAllocate(1024));
    GivenFirst(b, s, DoAllocate(1024), [DoSbrk(8)]);
    GivenFirst(b, s1, DoSbrk(8), []);
    NothingGiven(b, After(b, s1, DoSbrk(8)));
    assert [DoAllocate(1024)] + [DoSbrk(8)] == [DoAllocate(1024), DoSbrk(8)] && [DoSbrk(8)] + [] == [DoSbrk(8)];
    assert Given(b, s, DoAllocate(1024)) == [Block(0x1000, 1024)];
    assert Given(b, s1, DoSbrk(8)) == [Block(0x13FC, 8)];
  }

  lemma NothingGiven(b: Bounds, s: State)
    ensures AllGiven(b, s, []) == []
  {
  }

  /** A slab that could not be had is used all the same: with 256 bytes of heap, the first two
      blocks of the profiler's twelve bytes lie at the failure value and at address 11. */
  lemma FailedSlabIsUsed()
    ensures var b, s := Bounds(0x1000, 0x1100), State(0x1000, 0, 0);
            var (s1, first) := Allocate(b, s, 12);
            var (s2, second) := Allocate(b, s1, 12);
            && Inv(b, s) && first == FAILED && second == 11
            && !Within(Block(first, 12), b.start, s1.heapEnd) && !Within(Block(second, 12), b.start, s2.heapEnd)
  {
  }

  /** And a heap that shrinks gives the same bytes again. */
  lemma ShrunkHeapGivesAgain()
    ensures var b, s := Bounds(0x1000, 0x10000), State(0x1000, 0, 0);
            var given := AllGiven(b, s, [DoSbrk(8), DoSbrk(-8), DoSbrk(8)]);
            && Inv(b, s) && |given| == 3 && given[2].size > 0 && given[0] == given[2]
  {
    hide AllGiven;
    var b, s := Bounds(0x1000, 0x10000), State(0x1000, 0, 0);
    var s1 := State(0x1008, 0, 0);
    GivenFirst(b, s, DoSbrk(8), [DoSbrk(-8), DoSbrk(8)]);
    GivenFirst(b, s1, DoSbrk(-8), [DoSbrk(8)]);
    GivenFirst(b, s, DoSbrk(8), []);
    NothingGiven(b, s1);
    assert [DoSbrk(8)] + [DoSbrk(-8), DoSbrk(8)] == [DoSbrk(8), DoSbrk(-8), DoSbrk(8)];
    assert [DoSbrk(-8)] + [DoSbrk(8)] == [DoSbrk(-8), DoSbrk(8)] && [DoSbrk(8)] + [] == [DoSbrk(8)];
    assert After(b, s, DoSbrk(8)) == s1 && After(b, s1, DoSbrk(-8)) == s;
    assert Given(b, s, DoSbrk(8)) == [Block(0x1000, 8)] && Given(b, s1, DoSbrk(-8)) == [Block(0x1008, 0)];
  }

  class Allocator {
    const bounds: Bounds
    var heapEnd: nat
    var slabPtr: nat
    var slabSize: int

    function View(): State
      reads this
    {
      State(heapEnd, slabPtr, slabSize)
    }

    ghost predicate Valid()
      reads this
    {
      Inv(bounds, View())
    }

    constructor (b: Bounds)
      requires BoundsOk(b)
      ensures Valid() && bounds == b && View() == State(b.start, 0, 0)
    {
      bounds := b;
      heapEnd, slabPtr, slabSize := b.start, 0, 0;
    }

    /** `ALT_SBRK` */
    method MoreHeap(incr: I32) returns (at: nat)
      modifies `heapEnd
      ensures (View(), at) == Sbrk(bounds, old(View()), incr)
      ensures old(Valid()) && incr >= 0 ==> Valid()
    {
      if Valid() && incr >= 0 { StepKeeps(bounds, View(), DoSbrk(incr)); }
      heapEnd := (heapEnd + 3) / 4 * 4;
      if Wrapped(heapEnd + incr) > bounds.limit {
        return FAILED;
      }
      at := heapEnd;
      heapEnd := Wrapped(heapEnd + incr);
    }

    /** `mcount_allocate` */
    method SlabAllocate(size: U32) returns (data: nat)
      modifies this
      ensures (View(), data) == Allocate(bounds, old(View()), size)
      ensures old(Valid() && Sound(bounds, View(), DoAllocate(size))) ==> Valid()
    {
      if Valid() && Sound(bounds, View(), DoAllocate(size)) { StepKeeps(bounds, View(), DoAllocate(size)); }
      if size > Wrapped(slabSize) {
        slabPtr := MoreHeap(SLAB);
        slabSize := SLAB;
      }
      data := slabPtr;
      slabPtr := Wrapped(slabPtr + size);
      slabSize := Stored(slabSize - size);
    }
  }
}
