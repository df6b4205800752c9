/**
 Mapping a region of physical memory, at any address and of any size, into the heap's part of the
 address space, and dropping the mapping again.
 */
module PhysicalMappings {
  import opened Util
  import opened Entries
  import opened Pages
  import opened Mmu
  import opened Spaces
  import opened Views
  import opened Changes
  import opened Buddy
  import opened HeapSpec
  import opened KernelHeap
  import opened HeapObjects

  datatype PhysicalMapping = PhysicalMapping(physicalStart: nat, virtualStart: nat, mappedLength: nat)

  /** The physical address behind a virtual one. */
  ghost function ByteAt(s: State, address: nat): Option<nat> {
    match Translate(s.mem, s.cr3, Indices(address / 4096))
    case Some(f) => Some(4096 * f + address % 4096)
    case None => None
  }

  /** Byte `j` of a region that starts `off` bytes into its first frame. */
  lemma RegionByte(b: nat, off: nat, frames: nat, order: nat, j: nat)
    requires b % 64 == 0 && off < 4096 && j < 4096 * frames && IsOrder(frames * 4096, order) && order > PAGE_ORDER
    ensures var i := PageOfByte(b, off + j);
            i == b / 64 + (off + j) / 4096 < b / 64 + PageCount(HeapSpec.Alloc(order, true))
    ensures (HEAP_START + 64 * b + off + j) % 4096 == (off + j) % 4096
  {
    PageCounts(HeapSpec.Alloc(order, true));
    Pow2Values();
    Pow2Add(12, order - PAGE_ORDER);
    BytePage(b / 64, off + j);
    assert 2 * frames <= Pow2(order - PAGE_ORDER);
    assert off + j < 4096 * (frames + 1);
  }

  lemma BytePage(q: nat, x: nat)
    ensures (4096 * q + x) / 4096 == q + x / 4096
    ensures (HEAP_START + 4096 * q + x) % 4096 == x % 4096
  {
    assert HEAP_START == 4096 * 0xF_FFFF_FFF4_0000;
  }

  lemma SplitAddress(address: nat, j: nat)
    ensures 4096 * (address / 4096 + (address % 4096 + j) / 4096) + (address % 4096 + j) % 4096 == address + j
  {
  }

  /** Byte `j` of the object is byte `j` of the region. */
  ghost predicate ShowsByte(s: State, virtualStart: nat, physical: nat, j: nat) {
    ByteAt(s, virtualStart + j) == Some(physical + j)
  }

  ghost predicate Shows(s: State, virtualStart: nat, physical: nat, size: nat) {
    forall j: nat :: j < size ==> ShowsByte(s, virtualStart, physical, j)
  }

  /** The page of byte `j`, in the heap's numbering, and that it is the page of the byte's address. */
  lemma RegionPage(b: nat, off: nat, frames: nat, order: nat, j: nat) returns (i: nat)
    requires b % 64 == 0 && off < 4096 && j < 4096 * frames && IsOrder(frames * 4096, order) && order > PAGE_ORDER
    requires b / 64 + PageCount(HeapSpec.Alloc(order, true)) <= 0x4_0000
    ensures i == b / 64 + (off + j) / 4096 < b / 64 + PageCount(HeapSpec.Alloc(order, true))
    ensures HeapPage(i) == Indices((HEAP_START + 64 * b + off + j) / 4096)
    ensures IsHeap(HeapPage(i)) && HeapIndex(HeapPage(i)) == i
    ensures (HEAP_START + 64 * b + off + j) % 4096 == (off + j) % 4096
  {
    i := PageOfByte(b, off + j);
    RegionByte(b, off, frames, order, j);
    InGibibyte(b, off + j, i);
    ByteAddress(b, off + j);
    HeapPageAddress(i);
    assert HEAP_START + 64 * b + off + j == HEAP_START + 64 * b + (off + j);
  }

  /** Heap pages `lo` up to `hi` map the frames from `begin` on. */
  ghost predicate GivenFrames(s: State, lo: nat, hi: nat, begin: nat) {
    forall i: nat {:trigger HeapPage(i)} :: lo <= i < hi ==> Translate(s.mem, s.cr3, HeapPage(i)) == Some(begin + (i - lo))
  }

  lemma GivenPages(s0: State, s: State, lo: nat, hi: nat, begin: nat)
    requires GivenMapped(s0, s, lo, hi, begin) && Target(s0) == s.cr3 && hi <= 0x4_0000
    ensures GivenFrames(s, lo, hi, begin)
  {
    forall i: nat | lo <= i < hi ensures Translate(s.mem, s.cr3, HeapPage(i)) == Some(begin + (i - lo)) {
      HeapPageAddress(i);
      assert InRange(HeapPage(i), lo, hi);
    }
  }

  lemma LandsOn(s: State, start: nat, physical: nat, j: nat, i: nat)
    requires HeapPage(i) == Indices((start + j) / 4096) && (start + j) % 4096 == (physical % 4096 + j) % 4096
    requires Translate(s.mem, s.cr3, HeapPage(i)) == Some(physical / 4096 + (physical % 4096 + j) / 4096)
    ensures ShowsByte(s, start, physical, j)
  {
    SplitAddress(physical, j);
  }

  /** So the whole region shows, even if it crosses one page more than it has frames' worth of bytes. */
  lemma GivenShows(s: State, b: nat, order: nat, lo: nat, hi: nat, physical: nat, frames: nat, size: nat)
    requires GivenFrames(s, lo, hi, physical / 4096)
    requires lo == b / 64 && hi == lo + PageCount(HeapSpec.Alloc(order, true)) && hi <= 0x4_0000
    requires b % 64 == 0 && IsOrder(frames * 4096, order) && order > PAGE_ORDER && size <= 4096 * frames
    ensures Shows(s, ObjectStart(b, physical), physical, size)
  {
    var start := HEAP_START + 64 * b + physical % 4096;
    forall j: nat | j < size ensures ShowsByte(s, start, physical, j) {
      var i := RegionPage(b, physical % 4096, frames, order, j);
      LandsOn(s, start, physical, j, i);
    }
  }

  lemma InGibibyte(b: nat, x: nat, i: nat)
    requires i == (64 * b + x) / 4096 && i < 0x4_0000
    ensures 64 * b + x < 0x4000_0000
  {
  }

  /** Live block `b` is the one behind the mapping. */
  ghost predicate Backs(live: Live, b: nat, pm: PhysicalMapping) {
    && b in live && live[b].specific && IsOrder(pm.mappedLength, live[b].order)
    && 0 < pm.mappedLength < WORD && pm.mappedLength % 4096 == 0
    && pm.virtualStart / 4096 * 4096 == HEAP_START + 64 * b
  }

  lemma RegionShown(s0: State, s: State, live: Live, lent: set<nat>, free: set<nat>, b: nat, order: nat, lo: nat, hi: nat,
                    physical: nat, frames: nat, size: nat)
    requires Target(s0) == s.cr3 && HeapOk(s, live, lent, free) && b in live && live[b] == HeapSpec.Alloc(order, true)
    requires lo == b / 64 && hi == lo + PageCount(live[b]) && GivenMapped(s0, s, lo, hi, physical / 4096)
    requires IsOrder(frames * 4096, order) && size <= 4096 * frames
    ensures b % 64 == 0 && Shows(s, ObjectStart(b, physical), physical, size)
  {
    LargeAligned(b, order);
    PagesInHeap(b, live[b]);
    GivenPages(s0, s, lo, hi, physical / 4096);
    GivenShows(s, b, order, lo, hi, physical, frames, size);
  }

  /** Block `b` starts on frame `begin`. */
  ghost predicate StartsOn(s: State, b: nat, begin: nat) {
    ByteAt(s, HEAP_START + 64 * b) == Some(4096 * begin)
  }

  lemma RegionStarts(s0: State, s: State, b: nat, lo: nat, hi: nat, begin: nat)
    requires Target(s0) == s.cr3 && GivenMapped(s0, s, lo, hi, begin) && b == 64 * lo && lo < hi && lo < 0x4_0000
    ensures StartsOn(s, b, begin)
  {
    StartOfPage(b, lo);
    FirstGiven(s0, s, lo, hi, begin);
  }

  lemma StartOfPage(b: nat, lo: nat)
    requires b == 64 * lo && lo < 0x4_0000
    ensures Indices((HEAP_START + 64 * b) / 4096) == HeapPage(lo) && (HEAP_START + 64 * b) % 4096 == 0
  {
    HeapPageAddress(lo);
    BytePage(lo, 0);
    assert HEAP_START + 64 * b == HEAP_START + 4096 * lo;
  }

  lemma FirstGiven(s0: State, s: State, lo: nat, hi: nat, begin: nat)
    requires Target(s0) == s.cr3 && GivenMapped(s0, s, lo, hi, begin) && lo < hi && lo < 0x4_0000
    ensures Translate(s.mem, s.cr3, HeapPage(lo)) == Some(begin)
  {
    HeapPageAddress(lo);
    assert InRange(HeapPage(lo), lo, hi);
  }

  /** Block `b` shows a region whole, from its frame on. */
  ghost predicate RegionIn(s: State, b: nat, physical: nat, size: nat) {
    b % 64 == 0 && Shows(s, ObjectStart(b, physical), physical, size) && StartsOn(s, b, physical / 4096)
  }

  function ObjectStart(b: nat, physical: nat): nat {
    HEAP_START + 64 * b + physical % 4096
  }

  lemma RegionMapped(s0: State, s: State, live: Live, lent: set<nat>, free: set<nat>, b: nat, order: nat, lo: nat, hi: nat,
                     physical: nat, frames: nat, size: nat)
    requires Target(s0) == s.cr3 && HeapOk(s, live, lent, free) && b in live && live[b] == HeapSpec.Alloc(order, true)
    requires lo == b / 64 && hi == lo + PageCount(live[b]) && GivenMapped(s0, s, lo, hi, physical / 4096)
    requires IsOrder(frames * 4096, order) && size <= 4096 * frames
    ensures RegionIn(s, b, physical, size)
  {
    RegionShown(s0, s, live, lent, free, b, order, lo, hi, physical, frames, size);
    BlockPage(b, lo, live[b]);
    RegionStarts(s0, s, b, lo, hi, physical / 4096);
  }

  lemma BlockPage(b: nat, lo: nat, a: Alloc)
    requires b % 64 == 0 && lo == b / 64 && a.specific && a.order > PAGE_ORDER
    requires Aligned(b, a.order) && b + Pow2(a.order) <= Pow2(MAX_ORDER)
    ensures b == 64 * lo && lo < 0x4_0000 && PageCount(a) > 0
  {
    PagesInHeap(b, a);
    PageCounts(a);
  }

  /** The frames for a region, with the sum cut to 64 bits. */
  function FrameCount(size: Word): nat {
    (size + 4095) % WORD / 4096
  }

  /** They hold the region, unless it is empty or the sum overflows: then there are none. */
  lemma FrameCounts(size: Word)
    ensures FrameCount(size) == 0 <==> size == 0 || size > WORD - 4096
    ensures FrameCount(size) > 0 ==> 4096 * (FrameCount(size) - 1) < size <= 4096 * FrameCount(size)
    ensures FrameCount(size) * 4096 < WORD && Bytes(FrameCount(size)) == FrameCount(size) * 4096
  {
    if size > WORD - 4096 { assert size + 4095 - WORD < 4096; }
  }

  /** The heap has no block for that many frames. */
  ghost predicate NoRoom(free: set<nat>, frames: nat) {
    exists order: nat :: IsOrder(Bytes(frames), order) && (order > MAX_ORDER || forall b :: !Fits(free, MAX_ORDER, b, order))
  }

  /** The heap block for a region, and that it shows the region. */
  method MapFrames(h: Heap, begin: nat, frames: nat, ghost physical: nat, ghost size: nat)
    returns (r: HeapResult, ghost order: nat, ghost lo: nat, ghost hi: nat)
    requires h.Valid() && begin == physical / 4096 && FramesInReach(begin, frames)
    requires 0 < frames * 4096 < WORD && size <= 4096 * frames
    modifies h`live, h.m, h.tree
    ensures r.Got? ==> h.Valid() && RegionIn(h.m.S(), r.block, physical, size)
    ensures r.NoMemory? ==> h.m.free == {}
    ensures r.NoBlock? ==> NoRoom(h.tree.free, frames)
    ensures r.Got? ==> r.block !in old(h.live) && h.live == old(h.live)[r.block := HeapSpec.Alloc(order, true)]
    ensures r.Got? ==> Fits(old(h.tree.free), MAX_ORDER, r.block, order) && IsOrder(frames * 4096, order)
    ensures r.Got? ==> h.tree.free == old(h.tree.free) - Block(r.block, order)
    ensures r.Got? ==> lo == r.block / 64 && hi == lo + PageCount(HeapSpec.Alloc(order, true))
    ensures r.Got? ==> GivenMapped(old(h.m.S()), h.m.S(), lo, hi, begin)
    ensures r.Got? ==> OnlyTablesTaken(old(h.m.S()), h.m.S(), lo, hi)
  {
    r, order, lo, hi := AllocFrames(h, begin, frames);
    if r.Got? {
      RegionMapped(old(h.m.S()), h.m.S(), h.live, h.lent, h.tree.free, r.block, order, lo, hi, physical, frames, size);
    }
  }

  /** `alloc_specific` for at least one frame, whose size does not overflow. */
  method AllocFrames(h: Heap, begin: nat, frames: nat)
    returns (r: HeapResult, ghost order: nat, ghost lo: nat, ghost hi: nat)
    requires h.Valid() && FramesInReach(begin, frames) && 0 < frames * 4096 < WORD
    modifies h`live, h.m, h.tree
    ensures r.Got? ==> h.Valid() && r.block !in old(h.live) && h.live == old(h.live)[r.block := HeapSpec.Alloc(order, true)]
    ensures r.NoMemory? ==> h.m.free == {}
    ensures r.NoBlock? ==> NoRoom(h.tree.free, frames)
    ensures r.Got? ==> Fits(old(h.tree.free), MAX_ORDER, r.block, order) && IsOrder(frames * 4096, order)
    ensures r.Got? ==> h.tree.free == old(h.tree.free) - Block(r.block, order)
    ensures r.Got? ==> lo == r.block / 64 && hi == lo + PageCount(HeapSpec.Alloc(order, true))
    ensures r.Got? ==> GivenMapped(old(h.m.S()), h.m.S(), lo, hi, begin)
    ensures r.Got? ==> OnlyTablesTaken(old(h.m.S()), h.m.S(), lo, hi)
  {
    assert Bytes(frames) == frames * 4096;
    r, order, lo, hi := h.AllocSpecific(begin, frames);
  }

  /** The arithmetic of `map_physical_region`. */
  method MappingFor(b: nat, physical: nat, frames: nat, ghost live: Live) returns (pm: PhysicalMapping)
    requires b % 64 == 0 && b in live && live[b].specific && 0 < frames * 4096 < WORD && IsOrder(frames * 4096, live[b].order)
    ensures pm.virtualStart == ObjectStart(b, physical) && Backs(live, b, pm)
    ensures pm.mappedLength == frames * 4096 && pm.physicalStart == physical / 4096 * 4096
  {
    var address := HEAP_START + 64 * b + physical - physical / 4096 * 4096;
    pm := PhysicalMapping(physical / 4096 * 4096, address, frames * 4096);
  }

  method FramesFor(size: Word) returns (frames: nat)
    ensures frames == FrameCount(size) && frames * 4096 < WORD
    ensures frames > 0 ==> 4096 * (frames - 1) < size <= 4096 * frames
  {
    FrameCounts(size);
    frames := FrameCount(size);
  }

  /**
   `map_physical_region`; none where the kernel panics because it is out of heap or memory. A region
   that comes to no frames gets the smallest block, with the page around it mapped over.
   */
  method MapPhysicalRegion(h: Heap, physical: nat, size: Word)
    returns (r: Option<PhysicalMapping>, ghost b: nat, ghost order: nat, ghost lo: nat, ghost hi: nat)
    requires h.Valid() && FramesInReach(physical / 4096, FrameCount(size))
    modifies h`live, h.m, h.tree
    ensures r.Some? && FrameCount(size) > 0 ==> h.Valid() && Shows(h.m.S(), r.value.virtualStart, physical, size)
    ensures r.Some? && FrameCount(size) > 0 ==> b !in old(h.live) && h.live == old(h.live)[b := HeapSpec.Alloc(order, true)]
    ensures r.Some? ==> Fits(old(h.tree.free), MAX_ORDER, b, order) && h.tree.free == old(h.tree.free) - Block(b, order)
    ensures r.Some? && FrameCount(size) > 0 ==> Backs(h.live, b, r.value) && Describes(h.m.S(), r.value, size)
    ensures r.Some? && FrameCount(size) > 0 ==> lo == b / 64 && hi == lo + PageCount(HeapSpec.Alloc(order, true))
    ensures r.Some? && FrameCount(size) > 0 ==> GivenMapped(old(h.m.S()), h.m.S(), lo, hi, physical / 4096)
    ensures r.Some? && FrameCount(size) > 0 ==> OnlyTablesTaken(old(h.m.S()), h.m.S(), lo, hi)
    ensures r.Some? && FrameCount(size) == 0 ==> MappedOver(old(h.m.S()), h.m.S(), b, physical / 4096) && h.live == old(h.live)
    ensures r.Some? && FrameCount(size) == 0 ==>
              order == 0 && r.value == PhysicalMapping(physical - physical % 4096, ObjectStart(b, physical), 0)
    ensures r.None? ==> h.m.free == {} || NoRoom(h.tree.free, FrameCount(size))
  {
    var frames := FramesFor(size);
    if frames == 0 {
      r, b := MapNothing(h, physical);
      order, lo, hi := 0, 0, 0;
    } else {
      r, b, order, lo, hi := MapRegion(h, physical, frames, size);
    }
  }

  /** The mapping says where it begins, by page, and how long it is: as many whole pages as the region takes. */
  ghost predicate Describes(s: State, pm: PhysicalMapping, size: nat) {
    && ByteAt(s, pm.virtualStart - pm.virtualStart % 4096) == Some(pm.physicalStart)
    && pm.mappedLength % 4096 == 0 && pm.mappedLength - 4096 < size <= pm.mappedLength
  }

  lemma Described(s: State, pm: PhysicalMapping, b: nat, physical: nat, frames: nat, size: nat)
    requires b % 64 == 0 && pm.virtualStart == ObjectStart(b, physical)
    requires pm.mappedLength == frames * 4096 && pm.physicalStart == physical / 4096 * 4096
    requires 4096 * (frames - 1) < size <= 4096 * frames && StartsOn(s, b, physical / 4096)
    ensures Describes(s, pm, size)
  {
    BytePage(b / 64, physical % 4096);
    assert pm.virtualStart % 4096 == physical % 4096;
  }

  /** The page of base block `b` was mapped to the given frame, whatever it was before. */
  ghost predicate MappedOver(s: State, s': State, b: nat, begin: Frame) {
    LeafChanged(s, s', HeapPage(b / 64), Entry(begin, HEAP_FLAGS.Or(PRESENT)))
  }

  method MapNothing(h: Heap, physical: nat) returns (r: Option<PhysicalMapping>, ghost b: nat)
    requires h.Valid() && FramesInReach(physical / 4096, 0)
    modifies h`live, h.m, h.tree
    ensures r.Some? ==> Fits(old(h.tree.free), MAX_ORDER, b, 0) && h.tree.free == old(h.tree.free) - Block(b, 0)
    ensures r.Some? ==> MappedOver(old(h.m.S()), h.m.S(), b, physical / 4096) && h.live == old(h.live)
    ensures r.Some? ==> r.value == PhysicalMapping(physical - physical % 4096, ObjectStart(b, physical), 0)
    ensures r.None? ==> h.m.free == {} || NoRoom(h.tree.free, 0)
  {
    var block;
    ghost var order, lo, hi;
    assert Bytes(0) == 0;
    block, order, lo, hi := h.AllocSpecific(physical / 4096, 0);
    SpecificOrder(0, order);
    assert order == 0;
    r, b := None, 0;
    if block.Got? {
      b := block.block;
      var pm := NothingFor(block.block, physical);
      r := Some(pm);
    }
  }

  /** The same arithmetic for no frames. */
  method NothingFor(b: nat, physical: nat) returns (pm: PhysicalMapping)
    ensures pm == PhysicalMapping(physical - physical % 4096, ObjectStart(b, physical), 0)
  {
    var address := HEAP_START + 64 * b + physical - physical / 4096 * 4096;
    pm := PhysicalMapping(physical / 4096 * 4096, address, 0);
  }

  /** `map_physical_region` where there is a frame to map. */
  method MapRegion(h: Heap, physical: nat, frames: nat, size: Word)
    returns (r: Option<PhysicalMapping>, ghost b: nat, ghost order: nat, ghost lo: nat, ghost hi: nat)
    requires h.Valid() && FramesInReach(physical / 4096, frames) && 0 < frames * 4096 < WORD
    requires 4096 * (frames - 1) < size <= 4096 * frames
    modifies h`live, h.m, h.tree
    ensures r.Some? ==> h.Valid() && Shows(h.m.S(), r.value.virtualStart, physical, size)
    ensures r.Some? ==> b !in old(h.live) && h.live == old(h.live)[b := HeapSpec.Alloc(order, true)]
    ensures r.Some? ==> Fits(old(h.tree.free), MAX_ORDER, b, order) && h.tree.free == old(h.tree.free) - Block(b, order)
    ensures r.Some? ==> Backs(h.live, b, r.value) && Describes(h.m.S(), r.value, size)
    ensures r.Some? ==> lo == b / 64 && hi == lo + PageCount(HeapSpec.Alloc(order, true))
    ensures r.Some? ==> GivenMapped(old(h.m.S()), h.m.S(), lo, hi, physical / 4096)
    ensures r.Some? ==> OnlyTablesTaken(old(h.m.S()), h.m.S(), lo, hi)
    ensures r.None? ==> h.m.free == {} || NoRoom(h.tree.free, frames)
  {
    var block;
    block, order, lo, hi := MapFrames(h, physical / 4096, frames, physical, size);
    r, b := None, 0;
    if block.Got? {
      b := block.block;
      var pm := MappingFor(block.block, physical, frames, h.live);
      Described(h.m.S(), pm, block.block, physical, frames, size);
      r := Some(pm);
    }
  }

  /** `drop`: finds the block and the number of frames again from the mapping alone. */
  method DropMapping(h: Heap, pm: PhysicalMapping, ghost b: nat) returns (ghost lo: nat, ghost hi: nat)
    requires h.Valid() && Backs(h.live, b, pm) && forall i :: i in h.lent ==> !Prefix(b, h.live[b], i)
    modifies h`live, h.m, h.tree
    ensures h.Valid() && h.live == old(h.live) - {b}
    ensures h.tree.free == old(h.tree.free) + Block(b, old(h.live)[b].order)
    ensures lo == b / 64 && hi == lo + PageCount(old(h.live)[b])
    ensures Cleared(old(h.m.S()), h.m.S(), lo, hi, false)
  {
    var block, frames := BlockBehind(pm, h.live, b);
    lo, hi := h.DeallocSpecific(Got(block), frames);
  }

  /** The block and the number of frames, from the addresses. */
  method BlockBehind(pm: PhysicalMapping, ghost live: Live, ghost b: nat) returns (block: nat, frames: nat)
    requires Backs(live, b, pm)
    ensures block == b && frames > 0 && Bytes(frames) == pm.mappedLength
  {
    var pageBegin := pm.virtualStart / 4096 * 4096;
    block, frames := (pageBegin - HEAP_START) / 64, pm.mappedLength / 4096;
    assert frames * 4096 == pm.mappedLength;
  }

  /** Mapping a region and dropping it leaves every translation, and frees no frame. */
  lemma DropUndoesMap(s0: State, s1: State, s2: State, live: Live, lent: set<nat>, free: set<nat>, b: nat, a: Alloc,
                      lo: nat, hi: nat, begin: nat)
    requires HeapOk(s0, live, lent, free) && Fits(free, MAX_ORDER, b, a.order) && a.order > PAGE_ORDER
    requires lo == b / 64 && hi == lo + PageCount(a)
    requires GivenMapped(s0, s1, lo, hi, begin) && Cleared(s1, s2, lo, hi, false)
    ensures SameViews(s0, s2) && s2.free <= s0.free && s2.free == s1.free
  {
    assert IsRoot(s0, Target(s0));
    forall r, p: VPage | IsRoot(s0, r) && Ordinary(p) ensures MmuWalk(s2.mem, r, p) == MmuWalk(s0.mem, r, p) {
      if InRange(p, lo, hi) && SameTop(s0.mem, r, Target(s0), p.p4) {
        UnusedPagesUnmapped(s0, live, lent, free, b, a, p);
        SameTopSameWalk(s0.mem, r, Target(s0), p);
        SameTopSameWalk(s2.mem, r, Target(s0), p);
      }
    }
  }
}
