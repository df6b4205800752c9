/**
 The heap as the rest of the kernel uses it: allocation and deallocation, and blocks on given frames.
 */
module HeapObjects {
  import opened Util
  import opened Entries
  import opened Pages
  import opened Mmu
  import opened Spaces
  import opened Views
  import opened Changes
  import opened Mapper
  import opened RangeMapping
  import opened Buddy
  import opened HeapSpec
  import opened KernelHeap

  /** A block, by its first base block; or what kept the heap from handing one out. */
  datatype HeapResult = Got(block: nat) | NoBlock | NoMemory(block: nat)

  /** Page tables, live blocks, lent pages and the tree's free base blocks agree. */
  ghost predicate HeapOk(s: State, live: Live, lent: set<nat>, free: set<nat>) {
    && Inv(s) && Target(s) == s.cr3 && s.cr3 !in s.boot
    && Accounts(live, free) && HeapInv(s, live, lent)
  }

  lemma AllocDone(s0: State, s: State, live: Live, lent: set<nat>, free: set<nat>, b: nat, a: Alloc,
                  lo: nat, hi: nat)
    requires HeapOk(s0, live, lent, free) && Fits(free, MAX_ORDER, b, a.order) && !a.specific
    requires lo == b / 64 && hi == lo + PageCount(a) && Inv(s) && MissingMapped(s0, s, lo, hi)
    ensures b !in live && HeapOk(s, live[b := a], lent, free - Block(b, a.order))
  {
    AllocAccounts(live, free, b, a);
    assert IsRoot(s0, Target(s0));
    AllocKeepsPages(s0, s, live, free, lent, b, a);
  }

  lemma DeallocDone(s0: State, s: State, live: Live, lent: set<nat>, free: set<nat>, b: nat, freed: bool,
                    lo: nat, hi: nat)
    requires HeapOk(s0, live, lent, free) && b in live && live[b].order >= PAGE_ORDER
    requires forall i :: i in lent ==> !Prefix(b, live[b], i)
    requires lo == b / 64 && hi == lo + PageCount(live[b]) && Inv(s) && Cleared(s0, s, lo, hi, freed)
    ensures HeapOk(s, live - {b}, lent, free + Block(b, live[b].order))
  {
    DeallocAccounts(live, free, b);
    assert IsRoot(s0, Target(s0));
    DeallocKeepsPages(s0, s, live, free, lent, b, freed);
  }

  lemma SmallDeallocDone(s0: State, s: State, live: Live, lent: set<nat>, free: set<nat>, free': set<nat>, b: nat,
                         lo: nat, hi: nat)
    requires HeapOk(s0, live, lent, free) && b in live && live[b].order < PAGE_ORDER
    requires forall i :: i in lent ==> !Prefix(b, live[b], i)
    requires lo == b / 64 && hi == lo + 1 && Inv(s) && free' == free + Block(b, live[b].order)
    requires if PageFree(free', lo) then Cleared(s0, s, lo, hi, true) else s == s0
    ensures HeapOk(s, live - {b}, lent, free')
  {
    DeallocAccounts(live, free, b);
    assert IsRoot(s0, Target(s0));
    SmallDeallocKeepsPages(s0, s, live, free, lent, b);
  }

  lemma AllocSpecificDone(s0: State, s: State, live: Live, lent: set<nat>, free: set<nat>, b: nat, a: Alloc,
                          lo: nat, hi: nat, begin: nat)
    requires HeapOk(s0, live, lent, free) && Fits(free, MAX_ORDER, b, a.order) && a.specific && a.order > PAGE_ORDER
    requires lo == b / 64 && hi == lo + PageCount(a) && Inv(s) && GivenMapped(s0, s, lo, hi, begin)
    ensures b !in live && HeapOk(s, live[b := a], lent, free - Block(b, a.order))
  {
    AllocAccounts(live, free, b, a);
    assert IsRoot(s0, Target(s0));
    GivenKeepsPages(s0, s, live, free, lent, b, a, begin);
  }

  /** The size of a number of frames, cut to 64 bits. */
  function Bytes(frames: nat): nat {
    frames * 4096 % WORD
  }

  /** All frames of the block for `frames` frames from `begin` on can be put into entries. */
  ghost predicate FramesInReach(begin: nat, frames: nat) {
    forall k: nat :: IsOrder(Bytes(frames), k) && k <= MAX_ORDER ==> begin + PageCount(HeapSpec.Alloc(k, true)) <= 0x10_0000_0000
  }

  /** A block for at least one frame is larger than a page, and one for none is the smallest. */
  lemma SpecificOrder(frames: nat, order: nat)
    requires IsOrder(Bytes(frames), order)
    ensures Bytes(frames) > 0 ==> order > PAGE_ORDER
    ensures Bytes(frames) == 0 ==> order == 0 && PageCount(HeapSpec.Alloc(order, true)) == 1
  {
    Pow2Values();
    Pow2Strict(12, order + BASE_ORDER);
    assert Bytes(frames) > 0 ==> Bytes(frames) >= 4096;
    if Bytes(frames) == 0 { OrderUnique(0, order, 0); }
  }

  /** The page, counted from the start of the heap, of byte `j` of the object at block `b`. */
  function PageOfByte(b: nat, j: nat): nat {
    (64 * b + j) / 4096
  }

  /** It is the page of the byte's address. */
  lemma ByteAddress(b: nat, j: nat)
    requires 64 * b + j < 0x4000_0000
    ensures HeapPage(PageOfByte(b, j)) == Indices((HEAP_START + 64 * b + j) / 4096)
  {
    HeapPageAddress(PageOfByte(b, j));
    assert (HEAP_START + 64 * b + j) / 4096 == HEAP_START / 4096 + PageOfByte(b, j);
    assert (HEAP_START + 4096 * PageOfByte(b, j)) / 4096 == HEAP_START / 4096 + PageOfByte(b, j);
  }

  lemma SmallByte(b: nat, j: nat, p: nat)
    requires b + p <= b / 64 * 64 + 64 && 2 * j < 64 * p
    ensures (64 * b + j) / 4096 == b / 64
  {
    var q := b / 64;
    assert 4096 * q <= 64 * b + j < 4096 * q + 4096;
  }

  lemma LargeByte(b: nat, j: nat, n: nat)
    requires b % 64 == 0 && j < 4096 * n
    ensures b / 64 <= (64 * b + j) / 4096 < b / 64 + n
  {
    var q := b / 64;
    assert 4096 * q <= 64 * b + j < 4096 * (q + n);
  }

  /** Every byte asked for lies on a page that the block maps, although only the first half is mapped. */
  lemma RequestedBytesInPrefix(b: nat, a: Alloc, size: nat, j: nat)
    requires Aligned(b, a.order) && !a.specific && IsOrder(size, a.order) && j < size
    ensures Prefix(b, a, PageOfByte(b, j))
  {
    Pow2Values();
    PageCounts(a);
    if a.order < PAGE_ORDER {
      SmallInPage(b, a.order);
      Pow2Add(a.order, BASE_ORDER);
      SmallByte(b, j, Pow2(a.order));
    } else {
      LargeAligned(b, a.order);
      if a.order <= 7 {
        Pow2Mono(a.order + BASE_ORDER, 13);
        LargeByte(b, j, 1);
      } else {
        Pow2Add(13, a.order - 7);
        LargeByte(b, j, Pow2(a.order - 7));
      }
    }
  }

  /** So in every space with the kernel's tables, every byte of every live object is mapped. */
  lemma LiveBytesMapped(s: State, live: Live, lent: set<nat>, free: set<nat>, b: nat, size: nat, j: nat, r: Frame)
    requires HeapOk(s, live, lent, free) && b in live && !live[b].specific && IsOrder(size, live[b].order) && j < size
    requires PageOfByte(b, j) !in lent && r in s.spaces && s.cr3 in s.spaces
    ensures 64 * b + j < 0x4000_0000
    ensures MmuWalk(s.mem, r, Indices((HEAP_START + 64 * b + j) / 4096)).Page4K?
  {
    BytesInHeap(b, live[b], size, j);
    ByteAddress(b, j);
    RequestedBytesInPrefix(b, live[b], size, j);
    var p := HeapPage(PageOfByte(b, j));
    HeapPageAddress(PageOfByte(b, j));
    assert BlockPageOk(s, live, b, p);
    SameTopSameWalk(s.mem, r, s.cr3, p);
  }

  lemma BytesInHeap(b: nat, a: Alloc, size: nat, j: nat)
    requires b + Pow2(a.order) <= Pow2(MAX_ORDER) && IsOrder(size, a.order) && j < size
    ensures 64 * b + j < 0x4000_0000
  {
    Pow2Values();
    Pow2Add(a.order, BASE_ORDER);
  }

  /** The pages a block maps. */
  method PagesOf(b: nat, a: Alloc) returns (lo: nat, hi: nat)
    requires Aligned(b, a.order) && b + Pow2(a.order) <= Pow2(MAX_ORDER) && (a.specific ==> a.order > PAGE_ORDER)
    ensures lo == b / 64 && hi == lo + PageCount(a) && hi <= 0x4_0000
  {
    PagesInHeap(b, a);
    lo, hi := b / 64, b / 64 + PageCount(a);
  }

  /** A place that fits has no page mapped. */
  lemma UnusedPagesUnmapped(s: State, live: Live, lent: set<nat>, free: set<nat>, b: nat, a: Alloc, p: VPage)
    requires HeapOk(s, live, lent, free) && Fits(free, MAX_ORDER, b, a.order) && a.order >= PAGE_ORDER
    requires (a.specific ==> a.order > PAGE_ORDER) && IsHeap(p) && Prefix(b, a, HeapIndex(p))
    ensures HeapIndex(p) !in lent && MmuWalk(s.mem, s.cr3, p) == NoLeaf
  {
    var i := HeapIndex(p);
    if i in lent {
      var c :| c in live && live[c].order >= PAGE_ORDER && Prefix(c, live[c], i);
      SharedPageSmall(live, free, b, a, c, i);
    }
    assert PageOk(s, live, p);
    if Resident(live, i) {
      var c :| c in live && Prefix(c, live[c], i);
      SharedPageSmall(live, free, b, a, c, i);
    }
  }

  /** So is a page that is wholly free. */
  lemma FreePageUnmapped(s: State, live: Live, lent: set<nat>, free: set<nat>, p: VPage)
    requires HeapOk(s, live, lent, free) && PageFree(free, HeapIndex(p)) && IsHeap(p)
    ensures HeapIndex(p) !in lent && MmuWalk(s.mem, s.cr3, p) == NoLeaf
  {
    FreePageNotResident(live, free, HeapIndex(p));
    assert PageOk(s, live, p);
  }

  /** The page of a small block that is not wholly free holds another small block, and so is mapped. */
  lemma SharedPageMapped(s: State, live: Live, lent: set<nat>, free: set<nat>, b: nat, k: nat)
    requires HeapOk(s, live, lent, free) && Fits(free, MAX_ORDER, b, k) && k < PAGE_ORDER && !PageFree(free, b / 64)
    ensures MmuWalk(s.mem, s.cr3, HeapPage(b / 64)) != NoLeaf
  {
    FirstBaseBlock(free, b, k);
    PageOfSmallBlocks(live, lent, free, b);
    forall c | c in live && live[c].order >= PAGE_ORDER ensures !(c <= b / 64 * 64 < c + Pow2(live[c].order)) {
      NotInLarge(live, free, b, c);
    }
    UsedPageResident(live, free, b / 64);
    HeapPageAddress(b / 64);
    assert PageOk(s, live, HeapPage(b / 64));
  }

  lemma FirstBaseBlock(free: set<nat>, b: nat, k: nat)
    requires Fits(free, MAX_ORDER, b, k)
    ensures Fits(free, MAX_ORDER, b, 0) && b / 64 < Pow2(18) == 0x4_0000
  {
    Pow2Values();
    assert forall u :: u in Block(b, 0) ==> u in Block(b, k);
  }

  /** The page of a free base block is not the start of a page in a large block. */
  lemma NotInLarge(live: Live, free: set<nat>, b: nat, c: nat)
    requires Accounts(live, free) && Fits(free, MAX_ORDER, b, 0) && c in live && live[c].order >= PAGE_ORDER
    ensures !(c <= b / 64 * 64 < c + Pow2(live[c].order))
  {
    LargeAligned(c, live[c].order);
    FitsUnused(live, free, b, 0, b);
    WholePage(c, Pow2(live[c].order - PAGE_ORDER), b);
    assert !Covers(c, live[c].order, b);
  }

  lemma WholePage(c: nat, m: nat, b: nat)
    requires c % 64 == 0
    ensures c <= b / 64 * 64 < c + 64 * m ==> c <= b < c + 64 * m
  {
  }

  /** What `alloc` and `alloc_specific` map is data, for the kernel alone: writable, never fetched from. */
  lemma NewPagesAreData(s0: State, s: State, lo: nat, hi: nat, p: VPage)
    requires Inv(s0) && Inv(s) && Target(s0) !in s0.boot && InRange(p, lo, hi)
    requires || (MissingMapped(s0, s, lo, hi) && MmuWalk(s0.mem, Target(s0), p) == NoLeaf)
             || (exists begin :: GivenMapped(s0, s, lo, hi, begin))
    ensures Allows(s.mem, Target(s), p, false, true, false)
  {
    assert IsRoot(s0, Target(s0));
    if MissingMapped(s0, s, lo, hi) && MmuWalk(s0.mem, Target(s0), p) == NoLeaf {
      assert FrameTaken(s0, s, p);
    }
    LeafGrants(s, Target(s), p);
  }

  // ---------------------------------------------------------------- what a block costs for good

  lemma {:induction false} NoneMapped(s: State, lo: nat, hi: nat)
    requires lo <= hi <= 0x4_0000 && forall p: VPage :: InRange(p, lo, hi) ==> MmuWalk(s.mem, Target(s), p) == NoLeaf
    ensures UnmappedPages(s, lo, hi) == hi - lo
  {
    if lo < hi {
      HeapPageAddress(hi - 1);
      NoneMapped(s, lo, hi - 1);
    }
  }

  lemma OneMapped(s: State, i: nat)
    requires Inv(s) && Target(s) !in s.boot && i < 0x4_0000 && MmuWalk(s.mem, Target(s), HeapPage(i)) != NoLeaf
    ensures UnmappedPages(s, i, i + 1) == 0 && LackedTables(s, i, i + 1) == {}
  {
    HeapPageAddress(i);
    MappedLacksNone(s, HeapPage(i));
    LackedStep(s, i, i);
  }

  /** The pages that `dealloc` unmaps are those that `alloc` mapped for the block just before. */
  lemma ClearedWereMissing(s: State, live: Live, lent: set<nat>, free: set<nat>, b: nat, a: Alloc, lo: nat, hi: nat)
    requires HeapOk(s, live, lent, free) && Fits(free, MAX_ORDER, b, a.order) && !a.specific
    requires lo == b / 64 && hi == lo + PageCount(a) && (a.order >= PAGE_ORDER || PageFree(free, lo))
    ensures forall p: VPage :: InRange(p, lo, hi) ==> MmuWalk(s.mem, Target(s), p) == NoLeaf
  {
    PageCounts(a);
    forall p: VPage | InRange(p, lo, hi) ensures MmuWalk(s.mem, Target(s), p) == NoLeaf {
      if a.order >= PAGE_ORDER {
        UnusedPagesUnmapped(s, live, lent, free, b, a, p);
      } else {
        FreePageUnmapped(s, live, lent, free, p);
      }
    }
  }

  /**
   Over a successful `alloc` and the `dealloc` of what it returned, the heap's pages and all translations
   are as before, and the only frames that left the allocator are the tables the block's pages lacked.
   */
  lemma OnlyTablesGone(s0: State, s1: State, s2: State, live: Live, lent: set<nat>, free: set<nat>, b: nat, a: Alloc,
                       lo: nat, hi: nat)
    requires HeapOk(s0, live, lent, free) && Fits(free, MAX_ORDER, b, a.order) && !a.specific
    requires lo == b / 64 && hi == lo + PageCount(a) && MissingMapped(s0, s1, lo, hi) && HeapSpent(s0, s1, lo, hi)
    requires if a.order >= PAGE_ORDER || PageFree(free, lo) then Cleared(s1, s2, lo, hi, true) else s2 == s1
    ensures s2.held == s0.held && |s0.free| == |s2.free| + |LackedTables(s0, lo, hi)|
    ensures SameViews(s0, s2)
  {
    PagesInHeap(b, a);
    PageCounts(a);
    if a.order >= PAGE_ORDER || PageFree(free, lo) {
      ClearedWereMissing(s0, live, lent, free, b, a, lo, hi);
      MappedAndCleared(s0, s1, s2, live, lent, lo, hi);
    } else {
      SharedPageMapped(s0, live, lent, free, b, a.order);
      OneMapped(s0, lo);
      NothingMapped(s0, s1, lo);
    }
  }

  lemma MappedAndCleared(s0: State, s1: State, s2: State, live: Live, lent: set<nat>, lo: nat, hi: nat)
    requires SlotsRecursive(s0) && HeapInv(s0, live, lent) && lo <= hi <= 0x4_0000
    requires MissingMapped(s0, s1, lo, hi) && HeapSpent(s0, s1, lo, hi) && Cleared(s1, s2, lo, hi, true)
    requires forall p: VPage :: InRange(p, lo, hi) ==> MmuWalk(s0.mem, Target(s0), p) == NoLeaf
    ensures s2.held == s0.held && |s0.free| == |s2.free| + |LackedTables(s0, lo, hi)|
    ensures SameViews(s0, s2)
  {
    NoneMapped(s0, lo, hi);
    assert IsRoot(s0, Target(s0));
    RolledBack(s0, s1, s2, live, lent, lo, hi);
  }

  lemma NothingMapped(s: State, s': State, i: nat)
    requires SlotsRecursive(s) && MissingMapped(s, s', i, i + 1) && i < 0x4_0000
    requires MmuWalk(s.mem, Target(s), HeapPage(i)) != NoLeaf
    ensures SameViews(s, s')
  {
    HeapPageAddress(i);
    HeapIndexInjective(HeapPage(i));
    assert IsRoot(s, Target(s));
    forall r, p: VPage | IsRoot(s, r) && Ordinary(p) ensures MmuWalk(s'.mem, r, p) == MmuWalk(s.mem, r, p) {
      if InRange(p, i, i + 1) && SameTop(s.mem, r, Target(s), p.p4) {
        SameTopSameWalk(s.mem, r, Target(s), p);
        SameTopSameWalk(s'.mem, r, Target(s), p);
      }
    }
  }

  /** No frame is left for page `hi` of block `b`; the pages before it were mapped. */
  ghost predicate OutOfFrames(s0: State, s: State, b: nat, a: Alloc, lo: nat, hi: nat) {
    && Inv(s) && s.free == {} && lo == b / 64 && lo <= hi < lo + PageCount(a)
    && MissingMapped(s0, s, lo, hi) && MmuWalk(s.mem, s.cr3, HeapPage(hi)) == NoLeaf
  }

  /** The pages a block has mapped when memory runs out were not mapped before, and can be cleared. */
  lemma RollbackReady(s0: State, s: State, live: Live, lent: set<nat>, free: set<nat>, b: nat, a: Alloc, lo: nat, hi: nat)
    requires HeapOk(s0, live, lent, free) && Fits(free, MAX_ORDER, b, a.order) && !a.specific
    requires OutOfFrames(s0, s, b, a, lo, hi)
    ensures forall p: VPage :: InRange(p, lo, hi) ==> MmuWalk(s0.mem, Target(s0), p) == NoLeaf
    ensures Clearable(s, lo, hi, true)
  {
    PageCounts(a);
    forall p: VPage | InRange(p, lo, hi) ensures MmuWalk(s0.mem, Target(s0), p) == NoLeaf && SelfOwned(s, p) {
      UnusedPagesUnmapped(s0, live, lent, free, b, a, p);
    }
  }

  /** Mapping pages that were not, and clearing them again, is nothing to the heap or to any translation. */
  lemma RolledBack(s0: State, s: State, s': State, live: Live, lent: set<nat>, lo: nat, hi: nat)
    requires IsRoot(s0, Target(s0)) && MissingMapped(s0, s, lo, hi) && Cleared(s, s', lo, hi, true)
    requires forall p: VPage :: InRange(p, lo, hi) ==> MmuWalk(s0.mem, Target(s0), p) == NoLeaf
    requires HeapInv(s0, live, lent)
    ensures SameViews(s0, s') && HeapInv(s', live, lent)
  {
    forall r, p: VPage | IsRoot(s0, r) && Ordinary(p) ensures MmuWalk(s'.mem, r, p) == MmuWalk(s0.mem, r, p) {
      if InRange(p, lo, hi) && SameTop(s0.mem, r, Target(s0), p.p4) {
        SameTopSameWalk(s0.mem, r, Target(s0), p);
        SameTopSameWalk(s'.mem, r, Target(s0), p);
      }
    }
    forall p: VPage | Ordinary(p) && SelfOwned(s0, p) ensures SelfOwned(s', p) {
      assert SelfOwned(s, p);
    }
    StillInOrder(s0, s', live, lent);
  }

  lemma StillInOrder(s: State, s': State, live: Live, lent: set<nat>)
    requires HeapInv(s, live, lent) && SameViews(s, s') && IsRoot(s, Target(s)) && Target(s') == Target(s) && OwnedKept(s, s')
    ensures HeapInv(s', live, lent)
  {
    forall p: VPage | IsHeap(p) && HeapIndex(p) !in lent ensures PageOk(s', live, p) {
      assert PageOk(s, live, p);
    }
    forall p: VPage, b | IsHeap(p) && HeapIndex(p) !in lent && b in live ensures BlockPageOk(s', live, b, p) {
      assert BlockPageOk(s, live, b, p);
      assert SelfOwned(s, p) ==> SelfOwned(s', p);
    }
  }

  /**
   What `alloc` does when memory runs out: the pages `lo` to `hi` are to be unmapped, but `hi` never
   was mapped. So the kernel panics, with every translation and the heap's pages as before the call.
   */
  method Rollback(m: Machine, lo: nat, hi: nat, ghost s0: State, ghost live: Live, ghost lent: set<nat>, ghost free: set<nat>,
                  ghost b: nat, ghost a: Alloc)
    returns (panics: bool)
    requires HeapOk(s0, live, lent, free) && Fits(free, MAX_ORDER, b, a.order) && !a.specific
    requires OutOfFrames(s0, m.S(), b, a, lo, hi)
    modifies m
    ensures panics && m.Valid() && SameViews(s0, m.S()) && HeapInv(m.S(), live, lent)
  {
    ghost var s := m.S();
    RollbackReady(s0, s, live, lent, free, b, a, lo, hi);
    PagesInHeap(b, a);
    UnmapPages(m, lo, hi, true);
    assert IsRoot(s0, Target(s0));
    RolledBack(s0, s, m.S(), live, lent, lo, hi);
    panics := NotMapped(m, hi);
  }

  /** The assertion at the head of `unmap` fails. */
  method NotMapped(m: Machine, i: nat) returns (r: bool)
    requires m.Valid() && Target(m.S()) == m.cr3 && m.cr3 !in m.boot && i < 0x4_0000
    ensures r <==> MmuWalk(m.mem, m.cr3, HeapPage(i)) == NoLeaf
  {
    HeapPageAddress(i);
    PageReady(m.S(), HeapPage(i));
    r := !WalkPageTable(m.mem, m.cr3, HeapPage(i)).Mapped?;
  }

  // ---------------------------------------------------------------- a specific block of no bytes

  method PageUnder(b: nat) returns (page: nat)
    requires b + 1 <= Pow2(MAX_ORDER)
    ensures page == b / 64 < 0x4_0000
  {
    Pow2Values();
    page := b / 64;
  }

  /** `map_to` of the heap page of a base block to a given frame. */
  method MapOver(m: Machine, b: nat, begin: nat, ghost s: State) returns (ok: bool)
    requires m.S() == s && Inv(s) && Target(s) == s.cr3 && s.cr3 !in s.boot && b + 1 <= Pow2(MAX_ORDER)
    requires begin < 0x10_0000_0000
    modifies m
    ensures ok ==> LeafChanged(s, m.S(), HeapPage(b / 64), Entry(begin, HEAP_FLAGS.Or(PRESENT)))
    ensures !ok ==> m.free == {} && Prepared(s, m.S())
  {
    var i := PageUnder(b);
    HeapPageAddress(i);
    BuiltSmallPages(s, Target(s), HeapPage(i));
    ok := m.MapTo(HeapPage(i), begin, HEAP_FLAGS);
  }

  /** The page of a free base block belongs to small blocks only, if to any, and is not lent. */
  lemma PageOfSmallBlocks(live: Live, lent: set<nat>, free: set<nat>, b: nat)
    requires Accounts(live, free) && LentOk(live, lent) && Fits(free, MAX_ORDER, b, 0)
    ensures b / 64 !in lent && forall c :: c in live && Prefix(c, live[c], b / 64) ==> !live[c].specific
  {
    var a := HeapSpec.Alloc(0, false);
    PageCounts(a);
    forall c | c in live && Prefix(c, live[c], b / 64) ensures live[c].order < PAGE_ORDER {
      SharedPageSmall(live, free, b, a, c, b / 64);
    }
  }

  /** A page that owns its frame, set to some frame, still owns it exactly if that is the frame it had. */
  lemma OwnedOverIff(s: State, s': State, page: VPage, e: Entry)
    requires Inv(s) && Ordinary(page) && LeafChanged(s, s', page, e) && e.flags.present && SelfOwned(s, page)
    ensures SelfOwned(s', page) <==> MmuWalk(s.mem, Target(s), page).entry.frame == e.frame
  {
    assert IsRoot(s, Target(s));
    assert MmuWalk(s'.mem, Target(s), page) == Page4K(e);
    if SelfOwned(s', page) {
      assert OwnedMapped(s, e.frame);
      WalkByP1(s.mem, Target(s), page);
    }
  }

  /** One page is set to a frame, and the heap's other pages do not notice. */
  lemma OverOthers(s: State, s': State, live: Live, lent: set<nat>, page: VPage, e: Entry)
    requires Inv(s) && HeapInv(s, live, lent) && IsHeap(page) && LeafChanged(s, s', page, e) && e.flags.present
    requires Resident(live, HeapIndex(page)) && SelfOwned(s', page)
    ensures HeapInv(s', live, lent)
  {
    assert IsRoot(s, Target(s));
    ChangedOwned(s, s', page, e);
    forall p: VPage | IsHeap(p) && HeapIndex(p) !in lent ensures PageOk(s', live, p) {
      assert PageOk(s, live, p);
    }
    forall p: VPage, c | IsHeap(p) && HeapIndex(p) !in lent && c in live ensures BlockPageOk(s', live, c, p) {
      assert BlockPageOk(s, live, c, p);
      assert p != page && SelfOwned(s, p) ==> SelfOwned(s', p);
    }
  }

  /**
   A page mapped over for a block of no bytes leaves the heap's pages in order if and only if the page
   showed that very frame already. The block itself is lost to the tree in any case.
   */
  lemma OverKeepsIff(s: State, s': State, live: Live, lent: set<nat>, free: set<nat>, b: nat, begin: Frame)
    requires HeapOk(s, live, lent, free) && Fits(free, MAX_ORDER, b, 0)
    requires LeafChanged(s, s', HeapPage(b / 64), Entry(begin, HEAP_FLAGS.Or(PRESENT)))
    ensures HeapInv(s', live, lent) <==> Translate(s.mem, s.cr3, HeapPage(b / 64)) == Some(begin)
    ensures !Accounts(live, free - Block(b, 0))
  {
    var page, e := HeapPage(b / 64), Entry(begin, HEAP_FLAGS.Or(PRESENT));
    BaseBlock(live, free, b);
    HeapPageAddress(b / 64);
    PageOfSmallBlocks(live, lent, free, b);
    assert PageOk(s, live, page);
    assert MmuWalk(s'.mem, Target(s), page) == Page4K(e) by { assert IsRoot(s, Target(s)); }
    if Resident(live, b / 64) {
      var c :| c in live && Prefix(c, live[c], b / 64);
      assert BlockPageOk(s, live, c, page);
      OwnedOverIff(s, s', page, e);
      if SelfOwned(s', page) {
        OverOthers(s, s', live, lent, page, e);
      } else {
        assert !BlockPageOk(s', live, c, page);
      }
    } else {
      assert !PageOk(s', live, page);
    }
  }

  lemma BaseBlock(live: Live, free: set<nat>, b: nat)
    requires Accounts(live, free) && Fits(free, MAX_ORDER, b, 0)
    ensures b / 64 < 0x4_0000 && !Accounts(live, free - Block(b, 0))
  {
    Pow2Values();
    assert b in Block(b, 0);
    assert b in free && b !in free - Block(b, 0) && !InUse(live, b);
  }

  /** Maps what is missing of the pages of a block. */
  method MapPages(m: Machine, b: nat, a: Alloc) returns (r: HeapResult, ghost lo: nat, ghost hi: nat)
    requires m.Valid() && Target(m.S()) == m.cr3 && m.cr3 !in m.boot && !a.specific
    requires Aligned(b, a.order) && b + Pow2(a.order) <= Pow2(MAX_ORDER)
    modifies m
    ensures m.Valid() && !r.NoBlock? && r.block == b && lo == b / 64
    ensures r.Got? ==> hi == lo + PageCount(a) && MissingMapped(old(m.S()), m.S(), lo, hi)
    ensures r.Got? ==> HeapSpent(old(m.S()), m.S(), lo, hi)
    ensures r.NoMemory? ==> OutOfFrames(old(m.S()), m.S(), b, a, lo, hi)
  {
    var first, last := PagesOf(b, a);
    var ok, end := MapMissing(m, first, last);
    lo, hi := first, end;
    r := if ok then Got(b) else NoMemory(b);
  }

  /** No frame but the tables that pages `lo` up to `hi` lacked has left the allocator. */
  ghost predicate OnlyTablesTaken(s: State, s': State, lo: nat, hi: nat) {
    s'.held == s.held && |s.free| == |s'.free| + |LackedTables(s, lo, hi)|
  }

  lemma SpecificSpent(s: State, s': State, live: Live, lent: set<nat>, free: set<nat>, b: nat, a: Alloc, lo: nat, hi: nat)
    requires HeapOk(s, live, lent, free) && Fits(free, MAX_ORDER, b, a.order) && a.order > PAGE_ORDER
    requires lo == b / 64 && hi == lo + PageCount(a) && GivenSpent(s, s', lo, hi)
    ensures OnlyTablesTaken(s, s', lo, hi)
  {
    forall p: VPage | InRange(p, lo, hi) ensures MmuWalk(s.mem, Target(s), p) == NoLeaf {
      UnusedPagesUnmapped(s, live, lent, free, b, a, p);
    }
    assert RangeUnmapped(s, lo, hi);
  }

  /** Maps the pages of a block to the frames from `begin` on. */
  method MapPagesTo(m: Machine, b: nat, a: Alloc, begin: nat) returns (r: HeapResult, ghost lo: nat, ghost hi: nat)
    requires m.Valid() && Target(m.S()) == m.cr3 && m.cr3 !in m.boot && a.specific && a.order > PAGE_ORDER
    requires Aligned(b, a.order) && b + Pow2(a.order) <= Pow2(MAX_ORDER) && begin + PageCount(a) <= 0x10_0000_0000
    modifies m
    ensures m.Valid() && !r.NoBlock? && r.block == b && lo == b / 64 && lo <= hi <= lo + PageCount(a)
    ensures GivenMapped(old(m.S()), m.S(), lo, hi, begin) && (r.Got? <==> hi == lo + PageCount(a))
    ensures r.Got? ==> GivenSpent(old(m.S()), m.S(), lo, hi)
    ensures r.NoMemory? ==> m.free == {}
  {
    var first, last := PagesOf(b, a);
    var ok, end := MapGiven(m, first, last, begin);
    lo, hi := first, end;
    r := if ok then Got(b) else NoMemory(b);
  }

  class Heap {
    const m: Machine
    const tree: Tree
    ghost var live: Live
    ghost var lent: set<nat>

    ghost predicate Valid()
      reads this, m, tree
    {
      TreeOk() && HeapOk(m.S(), live, lent, tree.free)
    }

    ghost predicate TreeOk()
      reads tree
    {
      tree.maxOrder == MAX_ORDER && tree.Valid()
    }

    /** An empty heap, none of whose pages is mapped yet. */
    constructor (m: Machine, tree: Tree)
      requires m.Valid() && Target(m.S()) == m.cr3 && m.cr3 !in m.boot
      requires forall p: VPage :: IsHeap(p) ==> MmuWalk(m.mem, m.cr3, p) == NoLeaf
      requires tree.maxOrder == MAX_ORDER && tree.free == Block(0, MAX_ORDER)
      ensures this.m == m && this.tree == tree && Valid() && live == map[] && lent == {}
    {
      this.m, this.tree, live, lent := m, tree, map[], {};
    }

    /** Maps the pages of a block taken from the tree, and counts the block as live. */
    method MapBlock(b: nat, a: Alloc, ghost free: set<nat>, ghost s0: State)
      returns (r: HeapResult, ghost lo: nat, ghost hi: nat)
      requires m.S() == s0 && HeapOk(s0, live, lent, free) && Fits(free, MAX_ORDER, b, a.order) && !a.specific
      modifies this`live, m
      ensures !r.NoBlock? && r.block == b
      ensures r.Got? ==> lo == b / 64 && hi == lo + PageCount(a) && MissingMapped(s0, m.S(), lo, hi)
      ensures r.Got? ==> HeapSpent(s0, m.S(), lo, hi)
      ensures r.Got? ==> HeapOk(m.S(), live, lent, free - Block(b, a.order))
      ensures r.Got? ==> b !in old(live) && live == old(live)[b := a]
      ensures r.NoMemory? ==> OutOfFrames(s0, m.S(), b, a, lo, hi) && live == old(live)
    {
      r, lo, hi := MapPages(m, b, a);
      if r.Got? {
        Record(b, a, free, s0, lo, hi);
      }
    }

    /** The block counts as live from now on. */
    ghost method Record(b: nat, a: Alloc, free: set<nat>, s0: State, lo: nat, hi: nat)
      requires HeapOk(s0, live, lent, free) && Fits(free, MAX_ORDER, b, a.order) && !a.specific
      requires lo == b / 64 && hi == lo + PageCount(a) && m.Valid() && MissingMapped(s0, m.S(), lo, hi)
      modifies this`live
      ensures b !in old(live) && live == old(live)[b := a] && HeapOk(m.S(), live, lent, free - Block(b, a.order))
    {
      AllocDone(s0, m.S(), live, lent, free, b, a, lo, hi);
      live := live[b := a];
    }

    /** `alloc` for a block of order `k`. */
    method AllocBlock(k: nat) returns (r: HeapResult, ghost lo: nat, ghost hi: nat)
      requires Valid()
      modifies this`live, m, tree
      ensures !r.NoMemory? ==> Valid()
      ensures r.NoMemory? ==> OutOfFrames(old(m.S()), m.S(), r.block, HeapSpec.Alloc(k, false), lo, hi) && live == old(live)
      ensures r.Got? ==> r.block !in old(live) && live == old(live)[r.block := HeapSpec.Alloc(k, false)]
      ensures !r.NoBlock? ==> Fits(old(tree.free), MAX_ORDER, r.block, k) && tree.free == old(tree.free) - Block(r.block, k)
      ensures r.Got? ==> lo == r.block / 64 && hi == lo + PageCount(HeapSpec.Alloc(k, false))
      ensures r.Got? ==> MissingMapped(old(m.S()), m.S(), lo, hi) && HeapSpent(old(m.S()), m.S(), lo, hi)
      ensures r.NoBlock? ==> live == old(live) && m.S() == old(m.S()) && tree.free == old(tree.free)
                             && forall b :: !Fits(tree.free, MAX_ORDER, b, k)
    {
      ghost var s0, free := m.S(), tree.free;
      var block := tree.Allocate(k);
      r, lo, hi := NoBlock, 0, 0;
      if block.Some? {
        r, lo, hi := MapBlock(block.value, HeapSpec.Alloc(k, false), free, s0);
      }
    }

    /** `GlobalAlloc::alloc` for `size` bytes. */
    method Alloc(size: nat) returns (r: HeapResult, ghost order: nat, ghost lo: nat, ghost hi: nat)
      requires Valid()
      modifies this`live, m, tree
      ensures IsOrder(size, order) && (!r.NoMemory? ==> Valid())
      ensures r.NoMemory? ==> OutOfFrames(old(m.S()), m.S(), r.block, HeapSpec.Alloc(order, false), lo, hi) && live == old(live)
      ensures r.Got? ==> r.block !in old(live) && live == old(live)[r.block := HeapSpec.Alloc(order, false)]
      ensures !r.NoBlock? ==> Fits(old(tree.free), MAX_ORDER, r.block, order) && tree.free == old(tree.free) - Block(r.block, order)
      ensures r.Got? ==> lo == r.block / 64 && hi == lo + PageCount(HeapSpec.Alloc(order, false))
      ensures r.Got? ==> MissingMapped(old(m.S()), m.S(), lo, hi) && HeapSpent(old(m.S()), m.S(), lo, hi)
      ensures r.NoBlock? ==> live == old(live) && m.S() == old(m.S()) && tree.free == old(tree.free)
                             && (order > MAX_ORDER || forall b :: !Fits(tree.free, MAX_ORDER, b, order))
    {
      var k := Order(size);
      order := k;
      if k > MAX_ORDER {
        return NoBlock, k, 0, 0;
      }
      r, lo, hi := AllocBlock(k);
    }

    /** Unmaps and frees the pages of a block of at least a page that the tree has back. */
    method ReleasePages(b: nat, k: nat, ghost free: set<nat>) returns (ghost first: nat, ghost last: nat)
      requires HeapOk(m.S(), live, lent, free) && b in live && live[b] == HeapSpec.Alloc(k, false) && k >= PAGE_ORDER
      requires forall i :: i in lent ==> !Prefix(b, live[b], i)
      modifies this`live, m
      ensures HeapOk(m.S(), live, lent, free + Block(b, k)) && live == old(live) - {b}
      ensures first == b / 64 && last == first + PageCount(HeapSpec.Alloc(k, false))
      ensures Cleared(old(m.S()), m.S(), first, last, true)
    {
      var lo, hi := PagesOf(b, HeapSpec.Alloc(k, false));
      first, last := lo, hi;
      ghost var s0 := m.S();
      BlockClearable(s0, live, lent, b);
      UnmapPages(m, lo, hi, true);
      live := live - {b};
      DeallocDone(s0, m.S(), old(live), lent, free, b, true, lo, hi);
    }

    /** Whether the node of a page in the tree is wholly free. */
    method PageUnused(page: nat) returns (unused: bool)
      ensures unused == PageFree(tree.free, page)
    {
      WhollyFree(tree.free, page * 64, PAGE_ORDER);
      unused := OrderFree(tree.free, page * 64, PAGE_ORDER) == PAGE_ORDER + 1;
    }

    method ClearIfUnused(lo: nat, hi: nat)
      requires m.Valid() && lo <= hi <= 0x4_0000 && Clearable(m.S(), lo, hi, true)
      modifies m
      ensures m.Valid()
      ensures if PageFree(tree.free, lo) then Cleared(old(m.S()), m.S(), lo, hi, true) else m.S() == old(m.S())
    {
      var unused := PageUnused(lo);
      if unused {
        UnmapPages(m, lo, hi, true);
      }
    }

    /** Unmaps and frees the page of a small block that the tree has back, if all of the page is free. */
    method ReleaseSmall(b: nat, k: nat, ghost free: set<nat>) returns (ghost first: nat, ghost last: nat)
      requires HeapOk(m.S(), live, lent, free) && b in live && live[b] == HeapSpec.Alloc(k, false) && k < PAGE_ORDER
      requires forall i :: i in lent ==> !Prefix(b, live[b], i)
      requires tree.free == free + Block(b, k)
      modifies this`live, m
      ensures HeapOk(m.S(), live, lent, tree.free) && live == old(live) - {b}
      ensures first == b / 64 && last == first + PageCount(HeapSpec.Alloc(k, false))
      ensures if PageFree(tree.free, first) then Cleared(old(m.S()), m.S(), first, last, true) else m.S() == old(m.S())
    {
      var lo, hi := PagesOf(b, HeapSpec.Alloc(k, false));
      first, last := lo, hi;
      PageCounts(live[b]);
      ghost var s0 := m.S();
      BlockClearable(s0, live, lent, b);
      ClearIfUnused(lo, hi);
      ForgetSmall(b, free, s0, lo, hi);
    }

    /** The block is no longer live. */
    ghost method ForgetSmall(b: nat, free: set<nat>, s0: State, lo: nat, hi: nat)
      requires HeapOk(s0, live, lent, free) && b in live && live[b].order < PAGE_ORDER
      requires forall i :: i in lent ==> !Prefix(b, live[b], i)
      requires lo == b / 64 && hi == lo + 1 && m.Valid() && tree.free == free + Block(b, live[b].order)
      requires if PageFree(tree.free, lo) then Cleared(s0, m.S(), lo, hi, true) else m.S() == s0
      modifies this`live
      ensures live == old(live) - {b} && HeapOk(m.S(), live, lent, tree.free)
    {
      SmallDeallocDone(s0, m.S(), live, lent, free, tree.free, b, lo, hi);
      live := live - {b};
    }

    /** `dealloc` for a block of order `k`. */
    method DeallocBlock(b: nat, k: nat) returns (ghost lo: nat, ghost hi: nat)
      requires Valid() && b in live && live[b] == HeapSpec.Alloc(k, false)
      requires forall i :: i in lent ==> !Prefix(b, live[b], i)
      modifies this`live, m, tree
      ensures Valid() && live == old(live) - {b} && tree.free == old(tree.free) + Block(b, k)
      ensures lo == b / 64 && hi == lo + PageCount(HeapSpec.Alloc(k, false))
      ensures if k >= PAGE_ORDER || PageFree(tree.free, lo) then Cleared(old(m.S()), m.S(), lo, hi, true)
              else m.S() == old(m.S())
    {
      DeallocAccounts(live, tree.free, b);
      ghost var free := tree.free;
      tree.Deallocate(b, k);
      if k < PAGE_ORDER {
        lo, hi := ReleaseSmall(b, k, free);
      } else {
        lo, hi := ReleasePages(b, k, free);
      }
    }

    /** `GlobalAlloc::dealloc` of a block that `alloc` returned for `size` bytes. */
    method Dealloc(ptr: HeapResult, size: nat) returns (ghost lo: nat, ghost hi: nat)
      requires Valid()
      requires ptr.Got? ==> ptr.block in live && !live[ptr.block].specific && IsOrder(size, live[ptr.block].order)
                            && forall i :: i in lent ==> !Prefix(ptr.block, live[ptr.block], i)
      modifies this`live, m, tree
      ensures Valid()
      ensures !ptr.Got? ==> live == old(live) && tree.free == old(tree.free) && m.S() == old(m.S())
      ensures ptr.Got? ==> live == old(live) - {ptr.block}
                           && tree.free == old(tree.free) + Block(ptr.block, old(live)[ptr.block].order)
      ensures ptr.Got? ==> lo == ptr.block / 64 && hi == lo + PageCount(old(live)[ptr.block])
      ensures ptr.Got? ==>
                if old(live)[ptr.block].order >= PAGE_ORDER || PageFree(tree.free, lo)
                then Cleared(old(m.S()), m.S(), lo, hi, true) else m.S() == old(m.S())
    {
      if !ptr.Got? {
        return 0, 0;
      }
      var k := Order(size);
      OrderUnique(size, k, live[ptr.block].order);
      lo, hi := DeallocBlock(ptr.block, k);
    }

    /** Maps the pages of a specific block taken from the tree, and counts the block as live. */
    method MapSpecific(b: nat, k: nat, begin: nat, ghost free: set<nat>, ghost s0: State)
      returns (r: HeapResult, ghost first: nat, ghost last: nat)
      requires m.S() == s0 && HeapOk(s0, live, lent, free) && Fits(free, MAX_ORDER, b, k) && k > PAGE_ORDER
      requires begin + PageCount(HeapSpec.Alloc(k, true)) <= 0x10_0000_0000
      modifies this`live, m
      ensures !r.NoBlock? && r.block == b && first == b / 64 && first <= last <= first + PageCount(HeapSpec.Alloc(k, true))
      ensures r.Got? <==> last == first + PageCount(HeapSpec.Alloc(k, true))
      ensures GivenMapped(s0, m.S(), first, last, begin)
      ensures r.Got? ==> OnlyTablesTaken(s0, m.S(), first, last)
      ensures r.Got? ==> HeapOk(m.S(), live, lent, free - Block(b, k))
      ensures r.Got? ==> b !in old(live) && live == old(live)[b := HeapSpec.Alloc(k, true)]
      ensures r.NoMemory? ==> m.free == {} && m.Valid() && live == old(live)
    {
      r, first, last := MapPagesTo(m, b, HeapSpec.Alloc(k, true), begin);
      if r.Got? {
        SpecificSpent(s0, m.S(), live, lent, free, b, HeapSpec.Alloc(k, true), first, last);
        RecordSpecific(b, HeapSpec.Alloc(k, true), free, s0, first, last, begin);
      }
    }

    ghost method RecordSpecific(b: nat, a: Alloc, free: set<nat>, s0: State, lo: nat, hi: nat, begin: nat)
      requires HeapOk(s0, live, lent, free) && Fits(free, MAX_ORDER, b, a.order) && a.specific && a.order > PAGE_ORDER
      requires lo == b / 64 && hi == lo + PageCount(a) && m.Valid() && GivenMapped(s0, m.S(), lo, hi, begin)
      modifies this`live
      ensures b !in old(live) && live == old(live)[b := a] && HeapOk(m.S(), live, lent, free - Block(b, a.order))
    {
      AllocSpecificDone(s0, m.S(), live, lent, free, b, a, lo, hi, begin);
      live := live[b := a];
    }

    /** `alloc_specific` for a block of order `k`. */
    method AllocSpecificBlock(begin: nat, k: nat) returns (r: HeapResult, ghost lo: nat, ghost hi: nat)
      requires Valid() && k > PAGE_ORDER && begin + PageCount(HeapSpec.Alloc(k, true)) <= 0x10_0000_0000
      modifies this`live, m, tree
      ensures !r.NoMemory? ==> Valid()
      ensures r.NoMemory? ==> m.free == {} && m.Valid() && live == old(live)
      ensures r.Got? ==> r.block !in old(live) && live == old(live)[r.block := HeapSpec.Alloc(k, true)]
      ensures !r.NoBlock? ==> Fits(old(tree.free), MAX_ORDER, r.block, k) && tree.free == old(tree.free) - Block(r.block, k)
      ensures !r.NoBlock? ==> lo == r.block / 64 && lo <= hi <= lo + PageCount(HeapSpec.Alloc(k, true))
      ensures !r.NoBlock? ==> (r.Got? <==> hi == lo + PageCount(HeapSpec.Alloc(k, true)))
      ensures !r.NoBlock? ==> GivenMapped(old(m.S()), m.S(), lo, hi, begin)
      ensures r.Got? ==> OnlyTablesTaken(old(m.S()), m.S(), lo, hi)
      ensures r.NoBlock? ==> live == old(live) && m.S() == old(m.S()) && tree.free == old(tree.free)
                             && forall b :: !Fits(tree.free, MAX_ORDER, b, k)
    {
      ghost var s0, free := m.S(), tree.free;
      var block := tree.Allocate(k);
      r, lo, hi := NoBlock, 0, 0;
      if block.Some? {
        r, lo, hi := MapSpecific(block.value, k, begin, free, s0);
      }
    }

    /** `alloc_specific` for no bytes: the smallest block, and the whole page around it mapped to the given frame. */
    method AllocOver(begin: nat) returns (r: HeapResult)
      requires TreeOk() && m.Valid() && Target(m.S()) == m.cr3 && m.cr3 !in m.boot && begin < 0x10_0000_0000
      modifies m, tree
      ensures r.NoBlock? ==> m.S() == old(m.S()) && tree.free == old(tree.free) && forall b :: !Fits(tree.free, MAX_ORDER, b, 0)
      ensures !r.NoBlock? ==> Fits(old(tree.free), MAX_ORDER, r.block, 0) && tree.free == old(tree.free) - Block(r.block, 0)
      ensures r.Got? ==> LeafChanged(old(m.S()), m.S(), HeapPage(r.block / 64), Entry(begin, HEAP_FLAGS.Or(PRESENT)))
      ensures r.NoMemory? ==> m.free == {} && Prepared(old(m.S()), m.S())
    {
      ghost var s0 := m.S();
      var block := tree.Allocate(0);
      r := NoBlock;
      if block.Some? {
        var ok := MapOver(m, block.value, begin, s0);
        r := if ok then Got(block.value) else NoMemory(block.value);
      }
    }

    /**
     `alloc_specific`: a block whose pages map the frames from `begin` on. If the frames come to no
     bytes at all, it maps the page of other blocks; `OverKeepsIff` says what that does to the heap.
     */
    method AllocSpecific(begin: nat, frames: nat) returns (r: HeapResult, ghost order: nat, ghost lo: nat, ghost hi: nat)
      requires Valid() && frames < WORD && FramesInReach(begin, frames)
      modifies this`live, m, tree
      ensures IsOrder(Bytes(frames), order) && (!r.NoMemory? && Bytes(frames) > 0 ==> Valid())
      ensures r.NoMemory? ==> m.free == {} && m.Valid() && live == old(live)
      ensures !r.NoBlock? ==> Fits(old(tree.free), MAX_ORDER, r.block, order)
                              && tree.free == old(tree.free) - Block(r.block, order)
      ensures r.Got? && Bytes(frames) > 0 ==> r.block !in old(live) && live == old(live)[r.block := HeapSpec.Alloc(order, true)]
      ensures !r.NoBlock? && Bytes(frames) > 0 ==>
                && lo == r.block / 64 && lo <= hi <= lo + PageCount(HeapSpec.Alloc(order, true))
                && (r.Got? <==> hi == lo + PageCount(HeapSpec.Alloc(order, true)))
                && GivenMapped(old(m.S()), m.S(), lo, hi, begin)
      ensures r.Got? && Bytes(frames) > 0 ==> OnlyTablesTaken(old(m.S()), m.S(), lo, hi)
      ensures r.Got? && Bytes(frames) == 0 ==>
                live == old(live) && LeafChanged(old(m.S()), m.S(), HeapPage(r.block / 64), Entry(begin, HEAP_FLAGS.Or(PRESENT)))
      ensures r.NoBlock? ==> live == old(live) && m.S() == old(m.S()) && tree.free == old(tree.free)
                             && (order > MAX_ORDER || forall b :: !Fits(tree.free, MAX_ORDER, b, order))
    {
      var k := Order(Bytes(frames));
      order := k;
      SpecificOrder(frames, k);
      r, lo, hi := NoBlock, 0, 0;
      if PAGE_ORDER < k <= MAX_ORDER {
        r, lo, hi := AllocSpecificBlock(begin, k);
      } else if k <= PAGE_ORDER {
        r := AllocOver(begin);
      }
    }

    /** Unmaps the pages of a specific block that the tree has back; their frames are not the kernel's to free. */
    method ReleaseSpecific(b: nat, k: nat, ghost free: set<nat>) returns (ghost first: nat, ghost last: nat)
      requires HeapOk(m.S(), live, lent, free) && b in live && live[b] == HeapSpec.Alloc(k, true) && k > PAGE_ORDER
      requires forall i :: i in lent ==> !Prefix(b, live[b], i)
      modifies this`live, m
      ensures HeapOk(m.S(), live, lent, free + Block(b, k)) && live == old(live) - {b}
      ensures first == b / 64 && last == first + PageCount(HeapSpec.Alloc(k, true))
      ensures Cleared(old(m.S()), m.S(), first, last, false)
    {
      var lo, hi := PagesOf(b, HeapSpec.Alloc(k, true));
      first, last := lo, hi;
      ghost var s0 := m.S();
      BlockClearable(s0, live, lent, b);
      UnmapPages(m, lo, hi, false);
      live := live - {b};
      DeallocDone(s0, m.S(), old(live), lent, free, b, false, lo, hi);
    }

    /** `dealloc_specific` of a block that `alloc_specific` returned for `frames` frames. */
    method DeallocSpecific(ptr: HeapResult, frames: nat) returns (ghost lo: nat, ghost hi: nat)
      requires Valid()
      requires ptr.Got? && frames > 0 ==>
                 && ptr.block in live && live[ptr.block].specific && IsOrder(Bytes(frames), live[ptr.block].order)
                 && forall i :: i in lent ==> !Prefix(ptr.block, live[ptr.block], i)
      modifies this`live, m, tree
      ensures Valid()
      ensures !ptr.Got? || frames == 0 ==> live == old(live) && tree.free == old(tree.free) && m.S() == old(m.S())
      ensures ptr.Got? && frames > 0 ==>
                && live == old(live) - {ptr.block}
                && tree.free == old(tree.free) + Block(ptr.block, old(live)[ptr.block].order)
      ensures ptr.Got? && frames > 0 ==> lo == ptr.block / 64 && hi == lo + PageCount(old(live)[ptr.block])
      ensures ptr.Got? && frames > 0 ==> Cleared(old(m.S()), m.S(), lo, hi, false)
    {
      if !ptr.Got? || frames == 0 {
        return 0, 0;
      }
      var k := Order(Bytes(frames));
      OrderUnique(Bytes(frames), k, live[ptr.block].order);
      lo, hi := DeallocSpecificBlock(ptr.block, k);
    }

    method DeallocSpecificBlock(b: nat, k: nat) returns (ghost lo: nat, ghost hi: nat)
      requires Valid() && b in live && live[b] == HeapSpec.Alloc(k, true)
      requires forall i :: i in lent ==> !Prefix(b, live[b], i)
      modifies this`live, m, tree
      ensures Valid() && live == old(live) - {b} && tree.free == old(tree.free) + Block(b, k)
      ensures lo == b / 64 && hi == lo + PageCount(HeapSpec.Alloc(k, true))
      ensures Cleared(old(m.S()), m.S(), lo, hi, false)
    {
      DeallocAccounts(live, tree.free, b);
      ghost var free := tree.free;
      tree.Deallocate(b, k);
      lo, hi := ReleaseSpecific(b, k, free);
    }
  }
}
