/**
 The kernel heap: blocks from a buddy tree, whose pages are mapped when first needed and unmapped
 when the last block on them is gone.
 */
module KernelHeap {
  import opened Entries
  import opened Pages
  import opened Mmu
  import opened Spaces
  import opened Views
  import opened Changes
  import opened Mapper
  import opened RangeMapping
  import opened Buddy
  import opened HeapSpec

  const HEAP_START: nat := 0xFFFF_FFFF_4000_0000

  /** The gibibyte that starts at `HEAP_START`. */
  predicate IsHeap(p: VPage) {
    p.p4 == KERNEL_SLOT && p.p3 == 509
  }

  function HeapIndex(p: VPage): nat {
    p.p2 * 512 + p.p1
  }

  /** The page of the heap with the given index. */
  function HeapPage(i: nat): VPage {
    VPage(KERNEL_SLOT, 509, (i / 512) % 512, i % 512)
  }

  /** It is the page that holds the address `HEAP_START` + 4096 * `i`. */
  lemma HeapPageAddress(i: nat)
    requires i < 0x4_0000
    ensures HeapPage(i) == Indices((HEAP_START + 4096 * i) / 4096)
    ensures IsHeap(HeapPage(i)) && HeapIndex(HeapPage(i)) == i && Ordinary(HeapPage(i))
  {
    var n := (HEAP_START + 4096 * i) / 4096;
    assert n == 0xF_FFFF_FFF4_0000 + i;
    assert n / 0x4_0000 == 0x3_FFFF_FFFD;
    assert n / 0x800_0000 == 0x1FF_FFFF;
    assert n / 0x200 == 0x7FF_FFFF_FA00 + i / 512;
  }

  lemma HeapIndexInjective(page: VPage)
    requires IsHeap(page)
    ensures forall p: VPage :: IsHeap(p) && HeapIndex(p) == HeapIndex(page) ==> p == page
    ensures HeapIndex(page) < 0x4_0000
  {
  }

  // ---------------------------------------------------------------- mapping what is missing

  predicate InRange(p: VPage, lo: nat, hi: nat) {
    IsHeap(p) && lo <= HeapIndex(p) < hi
  }

  /** What owned pages stay owned. */
  ghost predicate OwnedKept(s0: State, s: State) {
    forall p: VPage {:trigger SelfOwned(s, p)} :: Ordinary(p) && SelfOwned(s0, p) ==> SelfOwned(s, p)
  }

  /** Translations outside heap pages `lo` up to `hi`, or of spaces without them, are as they were. */
  ghost predicate OutsideKept(s0: State, s: State, lo: nat, hi: nat) {
    forall r, p: VPage ::
      IsRoot(s0, r) && Ordinary(p) && !(InRange(p, lo, hi) && SameTop(s0.mem, r, Target(s0), p.p4)) ==>
      MmuWalk(s.mem, r, p) == MmuWalk(s0.mem, r, p)
  }

  /** ... and so are those of pages in the range that were mapped. */
  ghost predicate KeepsMapped(s0: State, s: State, lo: nat, hi: nat) {
    && OutsideKept(s0, s, lo, hi)
    && (forall p: VPage :: InRange(p, lo, hi) && MmuWalk(s0.mem, Target(s0), p) != NoLeaf ==>
          MmuWalk(s.mem, Target(s0), p) == MmuWalk(s0.mem, Target(s0), p))
  }

  ghost predicate FrameTaken(s0: State, s: State, p: VPage) {
    && MmuWalk(s.mem, Target(s0), p).Page4K? && MmuWalk(s.mem, Target(s0), p).entry.frame in s0.free
    && MmuWalk(s.mem, Target(s0), p).entry.flags == HEAP_FLAGS.Or(PRESENT)
  }

  /** The frames behind newly mapped pages came from the allocator, and have the heap's flags. */
  ghost predicate FramesTaken(s0: State, s: State, lo: nat, hi: nat) {
    forall p: VPage {:trigger FrameTaken(s0, s, p)} :: InRange(p, lo, hi) && MmuWalk(s0.mem, Target(s0), p) == NoLeaf ==>
      FrameTaken(s0, s, p)
  }

  /** Since `s0`, exactly the heap pages `lo` up to `hi` that were not mapped were mapped, on frames of their own. */
  ghost predicate MissingMapped(s0: State, s: State, lo: nat, hi: nat) {
    && Framed(s0, s) && Target(s) == Target(s0) && s.free <= s0.free && s0.held <= s.held
    && KeepsMapped(s0, s, lo, hi)
    && (forall p: VPage {:trigger SelfOwned(s, p)} :: InRange(p, lo, hi) && MmuWalk(s0.mem, Target(s0), p) == NoLeaf ==>
          SelfOwned(s, p))
    && FramesTaken(s0, s, lo, hi)
    && OwnedKept(s0, s)
  }

  lemma NothingMissing(s: State, lo: nat)
    ensures MissingMapped(s, s, lo, lo) && HeapSpent(s, s, lo, lo)
  {
  }

  // ---------------------------------------------------------------- what mapping costs

  const HEAP_PAGE: nat := HEAP_START / 4096

  /** The tables that heap pages `lo` up to `hi` lack, by path. */
  ghost function LackedTables(s: State, lo: nat, hi: nat): set<Path> {
    MissingPaths(s.mem, Target(s), HEAP_PAGE + lo, HEAP_PAGE + hi)
  }

  /** How many of heap pages `lo` up to `hi` are not mapped. */
  ghost function UnmappedPages(s: State, lo: nat, hi: nat): nat {
    if hi <= lo then 0
    else UnmappedPages(s, lo, hi - 1) + if MmuWalk(s.mem, Target(s), HeapPage(hi - 1)) == NoLeaf then 1 else 0
  }

  /** Since `s0`, one frame was taken for each of these pages and one for each of these tables, and none is held. */
  ghost predicate HeapSpent(s0: State, s: State, lo: nat, hi: nat) {
    && s.held == s0.held
    && |s0.free| == |s.free| + UnmappedPages(s0, lo, hi) + |LackedTables(s0, lo, hi)|
    && NewWereLacked(s0, s, lo, hi)
  }

  ghost predicate NewWereLacked(s0: State, s: State, lo: nat, hi: nat) {
    forall path :: NewTableAt(s0, s, path) ==> path in LackedTables(s0, lo, hi)
  }

  /** Pages `lo` up to `i` are mapped now, or were before. */
  ghost predicate Reached(s0: State, s: State, lo: nat, i: nat) {
    forall k: nat {:trigger HeapPage(k)} :: lo <= k < i ==>
      MmuWalk(s.mem, Target(s0), HeapPage(k)).Page4K? || MmuWalk(s0.mem, Target(s0), HeapPage(k)) != NoLeaf
  }

  lemma MissingReached(s0: State, s: State, lo: nat, i: nat)
    requires MissingMapped(s0, s, lo, i) && i <= 0x4_0000
    ensures Reached(s0, s, lo, i)
  {
    forall k: nat | lo <= k < i
      ensures MmuWalk(s.mem, Target(s0), HeapPage(k)).Page4K? || MmuWalk(s0.mem, Target(s0), HeapPage(k)) != NoLeaf
    {
      HeapPageAddress(k);
      if MmuWalk(s0.mem, Target(s0), HeapPage(k)) == NoLeaf { assert FrameTaken(s0, s, HeapPage(k)); }
    }
  }

  lemma LackedStep(s: State, lo: nat, i: nat)
    requires lo <= i < 0x4_0000
    ensures LackedTables(s, lo, i + 1) == LackedTables(s, lo, i) + MissingOf(s.mem, Target(s), HeapPage(i))
  {
    HeapPageAddress(i);
    assert (HEAP_START + 4096 * i) / 4096 == HEAP_PAGE + i;
  }

  lemma {:induction false} LackedMean(s: State, lo: nat, hi: nat, path: Path)
    requires hi <= 0x4_0000 && path in LackedTables(s, lo, hi)
    ensures TableAt(s.mem, Target(s), path).None? && exists i: nat :: lo <= i < hi && Leads(path, HeapPage(i))
  {
    if lo < hi {
      LackedStep(s, lo, hi - 1);
      if path in LackedTables(s, lo, hi - 1) { LackedMean(s, lo, hi - 1, path); }
    }
  }

  /** Outside the boot tables, a page that is mapped lacks no table. */
  lemma MappedLacksNone(s: State, p: VPage)
    requires Inv(s) && Target(s) !in s.boot && Ordinary(p) && MmuWalk(s.mem, Target(s), p) != NoLeaf
    ensures MissingOf(s.mem, Target(s), p) == {} && forall path :: Leads(path, p) ==> TableAt(s.mem, Target(s), path).Some?
  {
    assert IsRoot(s, Target(s));
    BuiltSmallPages(s, Target(s), p);
    WalkByP1(s.mem, Target(s), p);
  }

  /** The tables that pages before `i` lacked are there now. */
  lemma BroughtAlready(s0: State, s: State, lo: nat, i: nat, path: Path)
    requires Inv(s0) && Target(s0) !in s0.boot && Reached(s0, s, lo, i) && i <= 0x4_0000
    requires path in LackedTables(s0, lo, i)
    ensures TableAt(s.mem, Target(s0), path).Some?
  {
    LackedMean(s0, lo, i, path);
    var k: nat :| lo <= k < i && Leads(path, HeapPage(k));
    HeapPageAddress(k);
    if MmuWalk(s0.mem, Target(s0), HeapPage(k)) == NoLeaf {
      WalkByP1(s.mem, Target(s0), HeapPage(k));
    } else {
      MappedLacksNone(s0, HeapPage(k));
    }
  }

  lemma LackedNow(s0: State, s: State, lo: nat, i: nat)
    requires Inv(s0) && Target(s0) !in s0.boot && Framed(s0, s) && Reached(s0, s, lo, i) && NewWereLacked(s0, s, lo, i)
    requires lo <= i < 0x4_0000
    ensures |LackedTables(s0, lo, i + 1)| == |LackedTables(s0, lo, i)| + MissingTables(s.mem, Target(s0), HeapPage(i))
  {
    var r, p, before := Target(s0), HeapPage(i), LackedTables(s0, lo, i);
    assert IsRoot(s0, r);
    HeapPageAddress(i);
    forall path | Leads(path, p)
      ensures TableAt(s.mem, r, path).None? <==> TableAt(s0.mem, r, path).None? && path !in before
    {
      if path in before { BroughtAlready(s0, s, lo, i, path); }
      assert NewTableAt(s0, s, path) ==> path in before;
    }
    MissingAdds(s0.mem, s.mem, r, p, before);
    LackedStep(s0, lo, i);
  }

  /** A page was mapped that was not. */
  lemma SpentMapped(s0: State, s: State, s': State, lo: nat, i: nat)
    requires Inv(s0) && Target(s0) !in s0.boot && MissingMapped(s0, s, lo, i) && HeapSpent(s0, s, lo, i)
    requires lo <= i < 0x4_0000 && MmuWalk(s0.mem, Target(s0), HeapPage(i)) == NoLeaf
    requires NewOnPath(s, s', HeapPage(i)) && s'.held == s.held
    requires |s.free| == |s'.free| + MissingTables(s.mem, Target(s), HeapPage(i)) + 1
    ensures HeapSpent(s0, s', lo, i + 1)
  {
    MissingReached(s0, s, lo, i);
    LackedNow(s0, s, lo, i);
    NewLackedStep(s0, s, s', lo, i);
  }

  lemma NewLackedStep(s0: State, s: State, s': State, lo: nat, i: nat)
    requires Target(s) == Target(s0) && lo <= i < 0x4_0000 && NewWereLacked(s0, s, lo, i) && NewOnPath(s, s', HeapPage(i))
    ensures NewWereLacked(s0, s', lo, i + 1)
  {
    LackedStep(s0, lo, i);
    forall path | NewTableAt(s0, s', path) ensures path in LackedTables(s0, lo, i + 1) {
      if NewTableAt(s, s', path) {
        assert path in MissingOf(s0.mem, Target(s0), HeapPage(i));
      } else {
        assert NewTableAt(s0, s, path);
      }
    }
  }

  /** A page was mapped already. */
  lemma SpentNothing(s0: State, s: State, lo: nat, i: nat)
    requires Inv(s0) && Target(s0) !in s0.boot && HeapSpent(s0, s, lo, i)
    requires lo <= i < 0x4_0000 && MmuWalk(s0.mem, Target(s0), HeapPage(i)) != NoLeaf
    ensures HeapSpent(s0, s, lo, i + 1)
  {
    HeapPageAddress(i);
    MappedLacksNone(s0, HeapPage(i));
    LackedStep(s0, lo, i);
  }

  lemma MissingStep(s0: State, s: State, s': State, lo: nat, i: nat, page: VPage, f: Frame)
    requires Inv(s0) && Inv(s) && MissingMapped(s0, s, lo, i) && lo <= i == HeapIndex(page) && IsHeap(page)
    requires MmuWalk(s.mem, Target(s0), page) == NoLeaf && MappedFresh(s, s', page, f, HEAP_FLAGS)
    ensures MissingMapped(s0, s', lo, i + 1)
  {
    FramedTrans(s0, s, s');
    MissingFrames(s0, s, s', lo, i, page, f);
    assert IsRoot(s0, Target(s0));
    MissingViews(s0, s, s', lo, i, page, Page4K(Entry(f, HEAP_FLAGS.Or(PRESENT))));
    MappedOwners(s, s', page, f, HEAP_FLAGS);
    MissingOwned(s0, s, s', lo, i, page);
  }

  lemma MissingFrames(s0: State, s: State, s': State, lo: nat, i: nat, page: VPage, f: Frame)
    requires Target(s) == Target(s0) && IsRoot(s, Target(s0)) && s.free <= s0.free && FramesTaken(s0, s, lo, i)
    requires lo <= i == HeapIndex(page) && IsHeap(page) && f in s.free
    requires Remapped(s, s', page, Page4K(Entry(f, HEAP_FLAGS.Or(PRESENT))))
    ensures FramesTaken(s0, s', lo, i + 1)
  {
    HeapIndexInjective(page);
    forall p: VPage | InRange(p, lo, i + 1) && MmuWalk(s0.mem, Target(s0), p) == NoLeaf ensures FrameTaken(s0, s', p) {
      if p != page { assert FrameTaken(s0, s, p); }
    }
  }

  lemma MissingViews(s0: State, s: State, s': State, lo: nat, i: nat, page: VPage, leaf: Leaf)
    requires Framed(s0, s) && Target(s) == Target(s0) && IsRoot(s0, Target(s0))
    requires KeepsMapped(s0, s, lo, i) && lo <= i == HeapIndex(page) && IsHeap(page)
    requires MmuWalk(s.mem, Target(s0), page) == NoLeaf && Remapped(s, s', page, leaf)
    ensures KeepsMapped(s0, s', lo, i + 1)
  {
    HeapIndexInjective(page);
  }

  lemma MissingOwned(s0: State, s: State, s': State, lo: nat, i: nat, page: VPage)
    requires lo <= i == HeapIndex(page) && IsHeap(page) && OwnedKept(s0, s)
    requires MmuWalk(s.mem, Target(s), page) == NoLeaf && SelfOwned(s', page)
    requires forall p: VPage {:trigger SelfOwned(s', p)} :: Ordinary(p) && p != page && SelfOwned(s, p) ==> SelfOwned(s', p)
    requires forall p: VPage {:trigger SelfOwned(s, p)} ::
               InRange(p, lo, i) && MmuWalk(s0.mem, Target(s0), p) == NoLeaf ==> SelfOwned(s, p)
    ensures OwnedKept(s0, s')
    ensures forall p: VPage {:trigger SelfOwned(s', p)} ::
              InRange(p, lo, i + 1) && MmuWalk(s0.mem, Target(s0), p) == NoLeaf ==> SelfOwned(s', p)
  {
    HeapIndexInjective(page);
    forall p: VPage | Ordinary(p) && SelfOwned(s0, p) ensures SelfOwned(s', p) {
      assert SelfOwned(s, p);
    }
    forall p: VPage | InRange(p, lo, i + 1) && MmuWalk(s0.mem, Target(s0), p) == NoLeaf ensures SelfOwned(s', p) {
      if p != page { assert SelfOwned(s, p); }
    }
  }

  lemma AlreadyThere(s0: State, s: State, lo: nat, i: nat, page: VPage)
    requires Inv(s0) && MissingMapped(s0, s, lo, i) && lo <= i == HeapIndex(page) && IsHeap(page)
    requires MmuWalk(s.mem, Target(s0), page) != NoLeaf
    ensures MissingMapped(s0, s, lo, i + 1)
  {
    HeapIndexInjective(page);
    assert IsRoot(s0, Target(s0));
  }

  /** In the running kernel's tables the walk of a page tells whether it is mapped, and pages are small. */
  lemma PageReady(s: State, page: VPage)
    requires Inv(s) && Target(s) == s.cr3 && s.cr3 !in s.boot && Ordinary(page)
    ensures SmallPages(s.mem, Target(s), page)
    ensures WalkPageTable(s.mem, s.cr3, page).Mapped? <==> MmuWalk(s.mem, Target(s), page) != NoLeaf
  {
    BuiltSmallPages(s, s.cr3, page);
    TargetRecursive(s);
    SoftWalkIsMmuWalk(s.mem, s.cr3, s.cr3, page);
  }

  /** Pages the loop has not reached are as they were. */
  lemma NotReached(s0: State, s: State, lo: nat, i: nat)
    requires Inv(s0) && MissingMapped(s0, s, lo, i) && i < 0x4_0000
    ensures MmuWalk(s.mem, Target(s0), HeapPage(i)) == MmuWalk(s0.mem, Target(s0), HeapPage(i))
  {
    HeapPageAddress(i);
    assert IsRoot(s0, Target(s0));
  }

  /** One round of the loop in `alloc`: map the page if the walk does not find it. */
  method MapIfMissing(m: Machine, lo: nat, i: nat, ghost s0: State) returns (ok: bool)
    requires Inv(s0) && m.Valid() && MissingMapped(s0, m.S(), lo, i) && HeapSpent(s0, m.S(), lo, i) && lo <= i < 0x4_0000
    requires Target(s0) == s0.cr3 && s0.cr3 !in s0.boot
    modifies m
    ensures m.Valid() && MissingMapped(s0, m.S(), lo, if ok then i + 1 else i)
    ensures ok ==> HeapSpent(s0, m.S(), lo, i + 1)
    ensures !ok ==> m.free == {} && MmuWalk(m.mem, Target(s0), HeapPage(i)) == NoLeaf
  {
    HeapPageAddress(i);
    PageReady(m.S(), HeapPage(i));
    ghost var s := m.S();
    NotReached(s0, s, lo, i);
    if WalkPageTable(m.mem, m.cr3, HeapPage(i)).Mapped? {
      AlreadyThere(s0, s, lo, i, HeapPage(i));
      SpentNothing(s0, s, lo, i);
      ok := true;
    } else {
      ok := MapMissingPage(m, HeapPage(i), lo, i, s0);
      if ok { SpentMapped(s0, s, m.S(), lo, i); }
    }
  }

  method MapMissingPage(m: Machine, page: VPage, lo: nat, i: nat, ghost s0: State) returns (ok: bool)
    requires Inv(s0) && m.Valid() && MissingMapped(s0, m.S(), lo, i) && lo <= i == HeapIndex(page) && IsHeap(page)
    requires Target(s0) == s0.cr3 && SmallPages(m.mem, Target(m.S()), page)
    requires MmuWalk(m.mem, Target(m.S()), page) == NoLeaf
    modifies m
    ensures m.Valid() && MissingMapped(s0, m.S(), lo, if ok then i + 1 else i)
    ensures !ok ==> m.free == {} && MmuWalk(m.mem, Target(s0), page) == NoLeaf
    ensures ok ==> OnePageSpent(old(m.S()), m.S(), page)
  {
    ghost var s := m.S();
    ghost var f;
    ok, f := MapHeapPage(m, page);
    if ok {
      MissingStep(s0, s, m.S(), lo, i, page, f);
    } else {
      MissingLeak(s0, s, m.S(), lo, i, page);
    }
  }

  /** Running out of memory does not undo the pages already mapped. */
  lemma MissingLeak(s0: State, s: State, s': State, lo: nat, i: nat, page: VPage)
    requires SlotsRecursive(s0) && MissingMapped(s0, s, lo, i) && Leaked(s, s') && Ordinary(page)
    ensures MissingMapped(s0, s', lo, i) && MmuWalk(s'.mem, Target(s0), page) == MmuWalk(s.mem, Target(s0), page)
  {
    FramedTrans(s0, s, s');
    assert IsRoot(s0, Target(s0)) && IsRoot(s, Target(s0));
    LeakedOwners(s, s');
    forall p: VPage | Ordinary(p) && SelfOwned(s0, p) ensures SelfOwned(s', p) { assert SelfOwned(s, p); }
    forall p: VPage | InRange(p, lo, i) && MmuWalk(s0.mem, Target(s0), p) == NoLeaf
      ensures SelfOwned(s', p) && FrameTaken(s0, s', p)
    {
      assert SelfOwned(s, p) && FrameTaken(s0, s, p);
    }
  }

  lemma LeakedOwners(s: State, s': State)
    requires Leaked(s, s') && IsRoot(s, Target(s))
    ensures OwnedKept(s, s')
  {
    forall p: VPage | Ordinary(p) && SelfOwned(s, p) ensures SelfOwned(s', p) {
      assert MmuWalk(s'.mem, Target(s), p) == MmuWalk(s.mem, Target(s), p);
    }
  }

  /** A frame was taken for the page and one for each table missing on the way to it, and all are in use. */
  ghost predicate OnePageSpent(s: State, s': State, page: VPage) {
    && s'.held == s.held && NewOnPath(s, s', page)
    && |s.free| == |s'.free| + MissingTables(s.mem, Target(s), page) + 1
  }

  /** `map`, zeroing, with the heap's flags: these allow the write. */
  method MapHeapPage(m: Machine, page: VPage) returns (ok: bool, ghost f: Frame)
    requires m.Valid() && Target(m.S()) == m.cr3 && Ordinary(page) && SmallPages(m.mem, Target(m.S()), page)
    modifies m
    ensures ok ==> MappedFresh(old(m.S()), m.S(), page, f, HEAP_FLAGS)
    ensures ok && old(MmuWalk(m.mem, Target(m.S()), page)) == NoLeaf ==> OnePageSpent(old(m.S()), m.S(), page)
    ensures !ok ==> Leaked(old(m.S()), m.S())
  {
    ghost var s := m.S();
    var r;
    r, f := m.Map(page, HEAP_FLAGS, true);
    ok := r.Placed?;
    if ok && MmuWalk(s.mem, Target(s), page) == NoLeaf { FreshHolds(s, m.S(), page, f, HEAP_FLAGS); }
  }

  /** The loop of `alloc` over the pages of the new block; false when there is no memory for page `end`. */
  method MapMissing(m: Machine, lo: nat, hi: nat) returns (ok: bool, end: nat)
    requires m.Valid() && Target(m.S()) == m.cr3 && m.cr3 !in m.boot && lo <= hi <= 0x4_0000
    modifies m
    ensures m.Valid() && MissingMapped(old(m.S()), m.S(), lo, end) && lo <= end <= hi && (ok <==> end == hi)
    ensures !ok ==> m.free == {} && MmuWalk(m.mem, m.cr3, HeapPage(end)) == NoLeaf
    ensures ok ==> HeapSpent(old(m.S()), m.S(), lo, hi)
  {
    ghost var s0 := m.S();
    NothingMissing(s0, lo);
    end := lo;
    while end < hi
      invariant m.Valid() && MissingMapped(s0, m.S(), lo, end) && HeapSpent(s0, m.S(), lo, end) && lo <= end <= hi
    {
      ok := MapIfMissing(m, lo, end, s0);
      if !ok { return; }
      end := end + 1;
    }
    ok := true;
  }

  // ---------------------------------------------------------------- unmapping

  /** The frames that pages `lo` up to `hi` mapped in `s0`. */
  ghost predicate WasBehind(s0: State, lo: nat, hi: nat, f: Frame) {
    exists p: VPage :: InRange(p, lo, hi) && MmuWalk(s0.mem, Target(s0), p).Page4K?
                       && MmuWalk(s0.mem, Target(s0), p).entry.frame == f
  }

  ghost function FreeFrames(s: State): iset<Frame> {
    iset f | f in s.free
  }

  /** The free frames of `s0`, and those that pages `lo` up to `hi` mapped in it. */
  ghost function FreeOrBehind(s0: State, lo: nat, hi: nat): iset<Frame> {
    iset f: Frame | f in s0.free || WasBehind(s0, lo, hi, f)
  }

  /** Since `s0`, exactly the heap pages `lo` up to `hi` were unmapped, and their frames freed if asked for. */
  ghost predicate Cleared(s0: State, s: State, lo: nat, hi: nat, freed: bool) {
    && Framed(s0, s) && Target(s) == Target(s0) && s0.held <= s.held
    && OutsideKept(s0, s, lo, hi)
    && (forall p: VPage :: InRange(p, lo, hi) ==> MmuWalk(s.mem, Target(s0), p) == NoLeaf)
    && (forall p: VPage {:trigger SelfOwned(s, p)} :: Ordinary(p) && !InRange(p, lo, hi) && SelfOwned(s0, p) ==> SelfOwned(s, p))
    && (!freed ==> s.free == s0.free)
    && (freed ==> s.held == s0.held && FreeFrames(s) == FreeOrBehind(s0, lo, hi))
    && (freed ==> Gained(s0, s, lo, hi))
  }

  /** One more frame is free for each of the pages. */
  ghost predicate Gained(s0: State, s: State, lo: nat, hi: nat) {
    lo <= hi && |s.free| == |s0.free| + (hi - lo)
  }

  lemma NothingCleared(s: State, lo: nat, freed: bool)
    ensures Cleared(s, s, lo, lo, freed)
  {
  }

  lemma ClearedStep(s0: State, s: State, s': State, lo: nat, i: nat, next: nat, page: VPage, freed: bool)
    requires SlotsRecursive(s0) && Cleared(s0, s, lo, i, freed) && lo <= i == HeapIndex(page) && IsHeap(page)
    requires PageUnmapped(s, s', page, freed) && OthersOwn(s, s', page) && next == i + 1
    ensures Cleared(s0, s', lo, next, freed)
  {
    FramedTrans(s0, s, s');
    assert IsRoot(s0, Target(s0));
    ClearedViews(s0, s, s', lo, i, page);
    ClearedOwned(s0, s, s', lo, i, page);
    if freed { ClearedFrames(s0, s, s', lo, i, page); }
  }

  lemma ClearedViews(s0: State, s: State, s': State, lo: nat, i: nat, page: VPage)
    requires Framed(s0, s) && Target(s) == Target(s0) && IsRoot(s0, Target(s0))
    requires OutsideKept(s0, s, lo, i) && lo <= i == HeapIndex(page) && IsHeap(page)
    requires forall p: VPage :: InRange(p, lo, i) ==> MmuWalk(s.mem, Target(s0), p) == NoLeaf
    requires Remapped(s, s', page, NoLeaf)
    ensures OutsideKept(s0, s', lo, i + 1)
    ensures forall p: VPage :: InRange(p, lo, i + 1) ==> MmuWalk(s'.mem, Target(s0), p) == NoLeaf
  {
    HeapIndexInjective(page);
  }

  lemma ClearedOwned(s0: State, s: State, s': State, lo: nat, i: nat, page: VPage)
    requires lo <= i == HeapIndex(page) && IsHeap(page)
    requires forall p: VPage {:trigger SelfOwned(s', p)} :: Ordinary(p) && p != page && SelfOwned(s, p) ==> SelfOwned(s', p)
    requires forall p: VPage {:trigger SelfOwned(s, p)} :: Ordinary(p) && !InRange(p, lo, i) && SelfOwned(s0, p) ==> SelfOwned(s, p)
    ensures forall p: VPage {:trigger SelfOwned(s', p)} ::
              Ordinary(p) && !InRange(p, lo, i + 1) && SelfOwned(s0, p) ==> SelfOwned(s', p)
  {
    forall p: VPage | Ordinary(p) && !InRange(p, lo, i + 1) && SelfOwned(s0, p) ensures SelfOwned(s', p) {
      assert SelfOwned(s, p);
    }
  }

  lemma ClearedFrames(s0: State, s: State, s': State, lo: nat, i: nat, page: VPage)
    requires Target(s) == Target(s0) && IsRoot(s0, Target(s0)) && OutsideKept(s0, s, lo, i)
    requires lo <= i == HeapIndex(page) && IsHeap(page) && MmuWalk(s.mem, Target(s), page).Page4K?
    requires s'.free == s.free + {MmuWalk(s.mem, Target(s), page).entry.frame}
    requires FreeFrames(s) == FreeOrBehind(s0, lo, i)
    ensures FreeFrames(s') == FreeOrBehind(s0, lo, i + 1)
  {
    HeapIndexInjective(page);
    assert MmuWalk(s.mem, Target(s0), page) == MmuWalk(s0.mem, Target(s0), page);
    forall f ensures f in FreeFrames(s') <==> f in FreeOrBehind(s0, lo, i + 1) {
      assert f in FreeFrames(s) <==> f in FreeOrBehind(s0, lo, i);
      if WasBehind(s0, lo, i, f) {
        var p: VPage :| InRange(p, lo, i) && MmuWalk(s0.mem, Target(s0), p).Page4K?
                        && MmuWalk(s0.mem, Target(s0), p).entry.frame == f;
        assert InRange(p, lo, i + 1);
      }
      if f == MmuWalk(s.mem, Target(s), page).entry.frame { assert InRange(page, lo, i + 1); }
      if WasBehind(s0, lo, i + 1, f) {
        var p: VPage :| InRange(p, lo, i + 1) && MmuWalk(s0.mem, Target(s0), p).Page4K?
                        && MmuWalk(s0.mem, Target(s0), p).entry.frame == f;
        if p != page { assert InRange(p, lo, i); }
      }
    }
  }

  /** Every page from `lo` up to `hi` is mapped, and owns its frame if that is to be freed. */
  ghost predicate Clearable(s: State, lo: nat, hi: nat, freed: bool) {
    forall p: VPage {:trigger SelfOwned(s, p)} {:trigger MmuWalk(s.mem, Target(s), p)} :: InRange(p, lo, hi) ==>
      MmuWalk(s.mem, Target(s), p).Page4K? && (freed ==> SelfOwned(s, p))
  }

  method UnmapNext(m: Machine, lo: nat, i: nat, hi: nat, freed: bool, ghost s0: State) returns (next: nat)
    requires Inv(s0) && m.Valid() && Cleared(s0, m.S(), lo, i, freed) && lo <= i < hi <= 0x4_0000
    requires Clearable(s0, lo, hi, freed)
    modifies m
    ensures next == i + 1 && m.Valid() && Cleared(s0, m.S(), lo, next, freed)
  {
    ghost var s := m.S();
    var page := HeapPage(i);
    HeapPageAddress(i);
    assert IsRoot(s0, Target(s0));
    assert SelfOwned(s0, page) ==> SelfOwned(s, page);
    assert MmuWalk(s.mem, Target(s0), page) == MmuWalk(s0.mem, Target(s0), page);
    TargetRecursive(s);
    SoftWalkIsMmuWalk(s.mem, s.cr3, Target(s), page);
    m.Unmap(page, freed);
    UnmappedOwned(s, m.S(), page, freed);
    next := i + 1;
    ClearedStep(s0, s, m.S(), lo, i, next, page, freed);
  }

  /** The loops of `dealloc` and `dealloc_specific`. */
  method UnmapPages(m: Machine, lo: nat, hi: nat, freed: bool)
    requires m.Valid() && lo <= hi <= 0x4_0000 && Clearable(m.S(), lo, hi, freed)
    modifies m
    ensures m.Valid() && Cleared(old(m.S()), m.S(), lo, hi, freed)
  {
    ghost var s0 := m.S();
    NothingCleared(s0, lo, freed);
    var i := lo;
    while i < hi
      invariant lo <= i <= hi && m.Valid() && Cleared(s0, m.S(), lo, i, freed)
    {
      i := UnmapNext(m, lo, i, hi, freed, s0);
    }
  }

  // ---------------------------------------------------------------- mapping given frames

  function GivenEntry(p: VPage, lo: nat, begin: nat): Entry {
    Entry(if HeapIndex(p) >= lo then begin + (HeapIndex(p) - lo) else 0, HEAP_FLAGS.Or(PRESENT))
  }

  /** Since `s0`, heap pages `lo` up to `hi` were mapped to consecutive frames from `begin`. */
  ghost predicate GivenMapped(s0: State, s: State, lo: nat, hi: nat, begin: nat) {
    && Framed(s0, s) && Target(s) == Target(s0) && s.free <= s0.free && s0.held <= s.held
    && OutsideKept(s0, s, lo, hi)
    && (forall p: VPage :: InRange(p, lo, hi) ==> MmuWalk(s.mem, Target(s0), p) == Page4K(GivenEntry(p, lo, begin)))
    && (forall p: VPage {:trigger SelfOwned(s, p)} :: Ordinary(p) && !InRange(p, lo, hi) && SelfOwned(s0, p) ==> SelfOwned(s, p))
  }

  lemma NothingGiven(s: State, lo: nat, begin: nat)
    ensures GivenMapped(s, s, lo, lo, begin) && GivenSpent(s, s, lo, lo)
  {
  }

  ghost predicate RangeUnmapped(s: State, lo: nat, hi: nat) {
    forall p: VPage :: InRange(p, lo, hi) ==> MmuWalk(s.mem, Target(s), p) == NoLeaf
  }

  /** Since `s0`, one frame was taken for each table these pages lacked, and no frame was left over. */
  ghost predicate GivenSpent(s0: State, s: State, lo: nat, hi: nat) {
    && (RangeUnmapped(s0, lo, hi) ==> s.held == s0.held)
    && |s0.free| == |s.free| + |LackedTables(s0, lo, hi)| && NewWereLacked(s0, s, lo, hi)
  }

  lemma GivenReached(s0: State, s: State, lo: nat, i: nat, begin: nat)
    requires GivenMapped(s0, s, lo, i, begin) && i <= 0x4_0000
    ensures Reached(s0, s, lo, i)
  {
    forall k: nat | lo <= k < i ensures MmuWalk(s.mem, Target(s0), HeapPage(k)).Page4K? {
      HeapPageAddress(k);
    }
  }

  lemma GivenSpentStep(s0: State, s: State, s': State, lo: nat, i: nat, begin: nat)
    requires Inv(s0) && Target(s0) !in s0.boot && GivenMapped(s0, s, lo, i, begin) && GivenSpent(s0, s, lo, i)
    requires lo <= i < 0x4_0000 && NewOnPath(s, s', HeapPage(i))
    requires MmuWalk(s.mem, Target(s), HeapPage(i)) == NoLeaf ==> s'.held == s.held
    requires |s.free| == |s'.free| + MissingTables(s.mem, Target(s), HeapPage(i))
    ensures GivenSpent(s0, s', lo, i + 1)
  {
    GivenReached(s0, s, lo, i, begin);
    LackedNow(s0, s, lo, i);
    NewLackedStep(s0, s, s', lo, i);
    HeapPageAddress(i);
    assert IsRoot(s0, Target(s0));
    if RangeUnmapped(s0, lo, i + 1) {
      assert InRange(HeapPage(i), lo, i + 1) && RangeUnmapped(s0, lo, i);
      assert MmuWalk(s.mem, Target(s), HeapPage(i)) == NoLeaf;
    }
  }

  lemma GivenViews(s0: State, s: State, s': State, lo: nat, i: nat, page: VPage, begin: nat)
    requires Framed(s0, s) && Target(s) == Target(s0) && IsRoot(s0, Target(s0))
    requires OutsideKept(s0, s, lo, i) && lo <= i == HeapIndex(page) && IsHeap(page)
    requires forall p: VPage :: InRange(p, lo, i) ==> MmuWalk(s.mem, Target(s0), p) == Page4K(GivenEntry(p, lo, begin))
    requires Remapped(s, s', page, Page4K(GivenEntry(page, lo, begin)))
    ensures OutsideKept(s0, s', lo, i + 1)
    ensures forall p: VPage :: InRange(p, lo, i + 1) ==> MmuWalk(s'.mem, Target(s0), p) == Page4K(GivenEntry(p, lo, begin))
  {
    HeapIndexInjective(page);
  }

  lemma GivenStep(s0: State, s: State, s': State, lo: nat, i: nat, page: VPage, begin: nat)
    requires Inv(s0) && Inv(s) && GivenMapped(s0, s, lo, i, begin) && lo <= i == HeapIndex(page) && IsHeap(page)
    requires LeafChanged(s, s', page, GivenEntry(page, lo, begin))
    ensures GivenMapped(s0, s', lo, i + 1, begin)
  {
    FramedTrans(s0, s, s');
    assert IsRoot(s0, Target(s0));
    GivenViews(s0, s, s', lo, i, page, begin);
    ChangedOwned(s, s', page, GivenEntry(page, lo, begin));
    ClearedOwned(s0, s, s', lo, i, page);
  }

  method MapGivenNext(m: Machine, lo: nat, i: nat, begin: nat, ghost s0: State) returns (ok: bool, next: nat)
    requires Inv(s0) && m.Valid() && GivenMapped(s0, m.S(), lo, i, begin) && lo <= i < 0x4_0000
    requires Target(s0) !in s0.boot && begin + (i - lo) < 0x10_0000_0000 && GivenSpent(s0, m.S(), lo, i)
    modifies m
    ensures next == (if ok then i + 1 else i) && m.Valid() && GivenMapped(s0, m.S(), lo, next, begin)
    ensures ok ==> GivenSpent(s0, m.S(), lo, next)
    ensures !ok ==> m.free == {}
  {
    ghost var s := m.S();
    HeapPageAddress(i);
    BuiltSmallPages(s, Target(s), HeapPage(i));
    ok := MapGivenPage(m, HeapPage(i), begin + (i - lo), lo, i, begin, s0);
    next := i;
    if ok {
      GivenSpentStep(s0, s, m.S(), lo, i, begin);
      next := i + 1;
    }
  }

  method MapGivenPage(m: Machine, page: VPage, frame: Frame, ghost lo: nat, ghost i: nat, ghost begin: nat, ghost s0: State)
    returns (ok: bool)
    requires Inv(s0) && m.Valid() && GivenMapped(s0, m.S(), lo, i, begin) && lo <= i == HeapIndex(page) && IsHeap(page)
    requires SmallPages(m.mem, Target(m.S()), page) && frame < 0x10_0000_0000
    requires GivenEntry(page, lo, begin) == Entry(frame, HEAP_FLAGS.Or(PRESENT))
    modifies m
    ensures m.Valid() && GivenMapped(s0, m.S(), lo, if ok then i + 1 else i, begin)
    ensures ok ==> NewOnPath(old(m.S()), m.S(), page)
    ensures ok ==> |old(m.free)| == |m.free| + old(MissingTables(m.mem, Target(m.S()), page))
    ensures ok && old(MmuWalk(m.mem, Target(m.S()), page)) == NoLeaf ==> m.held == old(m.held)
    ensures !ok ==> m.free == {}
  {
    ghost var s := m.S();
    ok := m.MapTo(page, frame, HEAP_FLAGS);
    if ok {
      if MmuWalk(s.mem, Target(s), page) == NoLeaf { ChangedHolds(s, m.S(), page, GivenEntry(page, lo, begin)); }
      GivenStep(s0, s, m.S(), lo, i, page, begin);
    } else {
      GivenPrepared(s0, s, m.S(), lo, i, begin);
    }
  }

  lemma GivenPrepared(s0: State, s: State, s': State, lo: nat, i: nat, begin: nat)
    requires Inv(s0) && Inv(s) && GivenMapped(s0, s, lo, i, begin) && Prepared(s, s')
    ensures GivenMapped(s0, s', lo, i, begin)
  {
    FramedTrans(s0, s, s');
    assert IsRoot(s0, Target(s0)) && IsRoot(s, Target(s0));
    forall p: VPage | Ordinary(p) && !InRange(p, lo, i) && SelfOwned(s0, p) ensures SelfOwned(s', p) {
      assert SelfOwned(s, p);
      OwnsBefore(s, s', p);
    }
  }

  /** The loop of `alloc_specific`; false when there is no memory for tables. */
  method MapGiven(m: Machine, lo: nat, hi: nat, begin: nat) returns (ok: bool, end: nat)
    requires m.Valid() && Target(m.S()) !in m.boot && lo <= hi <= 0x4_0000 && begin + (hi - lo) <= 0x10_0000_0000
    modifies m
    ensures m.Valid() && GivenMapped(old(m.S()), m.S(), lo, end, begin) && lo <= end <= hi && (ok <==> end == hi)
    ensures ok ==> GivenSpent(old(m.S()), m.S(), lo, hi)
    ensures !ok ==> m.free == {}
  {
    ghost var s0 := m.S();
    NothingGiven(s0, lo, begin);
    end := lo;
    while end < hi
      invariant m.Valid() && GivenMapped(s0, m.S(), lo, end, begin) && GivenSpent(s0, m.S(), lo, end) && lo <= end <= hi
    {
      ok, end := MapGivenNext(m, lo, end, begin, s0);
      if !ok { return; }
    }
    ok := true;
  }

  // ---------------------------------------------------------------- the heap's invariant

  /** A heap page is mapped exactly when some live block needs it. */
  ghost predicate PageOk(s: State, live: Live, p: VPage) {
    MmuWalk(s.mem, Target(s), p) != NoLeaf <==> Resident(live, HeapIndex(p))
  }

  /** The pages a block maps are 4 KiB pages, which own their frames unless the frames were given. */
  ghost predicate BlockPageOk(s: State, live: Live, b: nat, p: VPage)
    requires b in live
  {
    Prefix(b, live[b], HeapIndex(p)) ==>
      MmuWalk(s.mem, Target(s), p).Page4K? && (!live[b].specific ==> SelfOwned(s, p))
  }

  /** Pages lent out as temporary pages belong to live blocks of at least a page. */
  ghost predicate LentOk(live: Live, lent: set<nat>) {
    forall i :: i in lent ==> exists b :: b in live && live[b].order >= PAGE_ORDER && Prefix(b, live[b], i)
  }

  ghost predicate HeapInv(s: State, live: Live, lent: set<nat>) {
    && (forall p: VPage {:trigger PageOk(s, live, p)} :: IsHeap(p) && HeapIndex(p) !in lent ==> PageOk(s, live, p))
    && (forall p: VPage, b {:trigger BlockPageOk(s, live, b, p)} ::
          IsHeap(p) && HeapIndex(p) !in lent && b in live ==> BlockPageOk(s, live, b, p))
    && LentOk(live, lent)
  }

  /** A live block that needs a page of the new block is a small one. */
  lemma SharedPageSmall(live: Live, free: set<nat>, b: nat, a: Alloc, c: nat, page: nat)
    requires Accounts(live, free) && Fits(free, MAX_ORDER, b, a.order) && (a.specific ==> a.order > PAGE_ORDER)
    requires c in live && Prefix(c, live[c], page) && Prefix(b, a, page)
    ensures live[c].order < PAGE_ORDER && a.order < PAGE_ORDER
  {
    PrefixInBlock(b, a, page);
    PrefixInBlock(c, live[c], page);
    if live[c].order >= PAGE_ORDER {
      var u := PrefixMeets(b, a, page);
      FitsUnused(live, free, b, a.order, u);
      assert false;
    }
    if a.order >= PAGE_ORDER {
      var u := PrefixMeets(c, live[c], page);
      FitsUnused(live, free, b, a.order, u);
      assert false;
    }
  }

  lemma AllocKeepsPages(s0: State, s: State, live: Live, free: set<nat>, lent: set<nat>, b: nat, a: Alloc)
    requires HeapInv(s0, live, lent) && Accounts(live, free) && Fits(free, MAX_ORDER, b, a.order) && !a.specific
    requires b !in live && IsRoot(s0, Target(s0)) && MissingMapped(s0, s, b / 64, b / 64 + PageCount(a))
    ensures HeapInv(s, live[b := a], lent)
  {
    var live' := live[b := a];
    forall p: VPage | IsHeap(p) && HeapIndex(p) !in lent ensures PageOk(s, live', p) {
      assert PageOk(s0, live, p);
      AllocResident(live, b, a, HeapIndex(p));
      assert InRange(p, b / 64, b / 64 + PageCount(a)) ==> SelfOwned(s, p) || MmuWalk(s0.mem, Target(s0), p) != NoLeaf;
    }
    forall p: VPage, c | IsHeap(p) && HeapIndex(p) !in lent && c in live' ensures BlockPageOk(s, live', c, p) {
      AllocKeepsBlockPage(s0, s, live, free, lent, b, a, p, c);
    }
    AllocKeepsLent(live, lent, b, a);
  }

  lemma AllocKeepsLent(live: Live, lent: set<nat>, b: nat, a: Alloc)
    requires LentOk(live, lent) && b !in live
    ensures LentOk(live[b := a], lent)
  {
    var live' := live[b := a];
    forall i | i in lent ensures exists c :: c in live' && live'[c].order >= PAGE_ORDER && Prefix(c, live'[c], i) {
      var c :| c in live && live[c].order >= PAGE_ORDER && Prefix(c, live[c], i);
      assert c in live' && live'[c] == live[c];
    }
  }

  lemma AllocKeepsBlockPage(s0: State, s: State, live: Live, free: set<nat>, lent: set<nat>, b: nat, a: Alloc, p: VPage, c: nat)
    requires HeapInv(s0, live, lent) && Accounts(live, free) && Fits(free, MAX_ORDER, b, a.order) && !a.specific
    requires b !in live && IsRoot(s0, Target(s0)) && MissingMapped(s0, s, b / 64, b / 64 + PageCount(a))
    requires IsHeap(p) && HeapIndex(p) !in lent && c in live[b := a]
    ensures BlockPageOk(s, live[b := a], c, p)
  {
    var live' := live[b := a];
    if c != b {
      assert BlockPageOk(s0, live, c, p);
      assert SelfOwned(s0, p) ==> SelfOwned(s, p);
    } else if Prefix(b, a, HeapIndex(p)) && MmuWalk(s0.mem, Target(s0), p) != NoLeaf {
      assert PageOk(s0, live, p);
      var d :| d in live && Prefix(d, live[d], HeapIndex(p));
      SharedPageSmall(live, free, b, a, d, HeapIndex(p));
      assert BlockPageOk(s0, live, d, p);
      assert SelfOwned(s, p);
    } else if Prefix(b, a, HeapIndex(p)) {
      assert SelfOwned(s, p);
    }
  }

  /** Given frames: the new block is at least a page, so no live block needed any of its pages. */
  lemma GivenKeepsPages(s0: State, s: State, live: Live, free: set<nat>, lent: set<nat>, b: nat, a: Alloc, begin: nat)
    requires HeapInv(s0, live, lent) && Accounts(live, free) && Fits(free, MAX_ORDER, b, a.order)
    requires a.specific && a.order > PAGE_ORDER && b !in live && IsRoot(s0, Target(s0))
    requires GivenMapped(s0, s, b / 64, b / 64 + PageCount(a), begin)
    ensures HeapInv(s, live[b := a], lent)
  {
    var live' := live[b := a];
    forall p: VPage | IsHeap(p) && HeapIndex(p) !in lent ensures PageOk(s, live', p) {
      assert PageOk(s0, live, p);
      AllocResident(live, b, a, HeapIndex(p));
    }
    forall p: VPage, c | IsHeap(p) && HeapIndex(p) !in lent && c in live' ensures BlockPageOk(s, live', c, p) {
      if c != b {
        assert BlockPageOk(s0, live, c, p);
        if Prefix(c, live[c], HeapIndex(p)) && Prefix(b, a, HeapIndex(p)) {
          SharedPageSmall(live, free, b, a, c, HeapIndex(p));
        }
        assert !InRange(p, b / 64, b / 64 + PageCount(a)) && SelfOwned(s0, p) ==> SelfOwned(s, p);
      }
    }
    AllocKeepsLent(live, lent, b, a);
  }

  lemma DeallocKeepsLent(live: Live, lent: set<nat>, b: nat)
    requires LentOk(live, lent) && b in live && forall i :: i in lent ==> !Prefix(b, live[b], i)
    ensures LentOk(live - {b}, lent)
  {
    var live' := live - {b};
    forall i | i in lent ensures exists c :: c in live' && live'[c].order >= PAGE_ORDER && Prefix(c, live'[c], i) {
      var c :| c in live && live[c].order >= PAGE_ORDER && Prefix(c, live[c], i);
      assert c in live' && live'[c] == live[c];
    }
  }

  /** Freeing a block of at least a page, and clearing the pages it mapped. */
  lemma DeallocKeepsPages(s0: State, s: State, live: Live, free: set<nat>, lent: set<nat>, b: nat, freed: bool)
    requires HeapInv(s0, live, lent) && Accounts(live, free) && b in live && live[b].order >= PAGE_ORDER
    requires forall i :: i in lent ==> !Prefix(b, live[b], i)
    requires IsRoot(s0, Target(s0)) && Cleared(s0, s, b / 64, b / 64 + PageCount(live[b]), freed)
    ensures HeapInv(s, live - {b}, lent)
  {
    var live' := live - {b};
    forall p: VPage | IsHeap(p) && HeapIndex(p) !in lent ensures PageOk(s, live', p) {
      assert PageOk(s0, live, p);
      DeallocLarge(live, free, b, HeapIndex(p));
    }
    forall p: VPage, c | IsHeap(p) && HeapIndex(p) !in lent && c in live' ensures BlockPageOk(s, live', c, p) {
      assert BlockPageOk(s0, live, c, p);
      if Prefix(c, live'[c], HeapIndex(p)) {
        assert Resident(live', HeapIndex(p));
        DeallocLarge(live, free, b, HeapIndex(p));
        assert SelfOwned(s0, p) ==> SelfOwned(s, p);
      }
    }
    DeallocKeepsLent(live, lent, b);
  }

  /** Freeing a small block, and clearing its page exactly if the page's node came out wholly free. */
  lemma SmallDeallocKeepsPages(s0: State, s: State, live: Live, free: set<nat>, lent: set<nat>, b: nat)
    requires HeapInv(s0, live, lent) && Accounts(live, free) && b in live && live[b].order < PAGE_ORDER
    requires forall i :: i in lent ==> !Prefix(b, live[b], i)
    requires IsRoot(s0, Target(s0))
    requires if PageFree(free + Block(b, live[b].order), b / 64) then Cleared(s0, s, b / 64, b / 64 + 1, true) else s == s0
    ensures HeapInv(s, live - {b}, lent)
  {
    var live' := live - {b};
    forall p: VPage | IsHeap(p) && HeapIndex(p) !in lent ensures PageOk(s, live', p) {
      assert PageOk(s0, live, p);
      DeallocSmall(live, free, b, HeapIndex(p));
    }
    forall p: VPage, c | IsHeap(p) && HeapIndex(p) !in lent && c in live' ensures BlockPageOk(s, live', c, p) {
      assert BlockPageOk(s0, live, c, p);
      if Prefix(c, live'[c], HeapIndex(p)) {
        assert Resident(live', HeapIndex(p));
        DeallocSmall(live, free, b, HeapIndex(p));
        assert SelfOwned(s0, p) ==> SelfOwned(s, p);
      }
    }
    DeallocKeepsLent(live, lent, b);
  }

  /** The pages of a live block can be cleared; a freshly freed small block's page can if it is wholly free. */
  lemma BlockClearable(s: State, live: Live, lent: set<nat>, b: nat)
    requires HeapInv(s, live, lent) && b in live && forall i :: i in lent ==> !Prefix(b, live[b], i)
    ensures Clearable(s, b / 64, b / 64 + PageCount(live[b]), !live[b].specific)
  {
    forall p: VPage | InRange(p, b / 64, b / 64 + PageCount(live[b]))
      ensures MmuWalk(s.mem, Target(s), p).Page4K? && (!live[b].specific ==> SelfOwned(s, p))
    {
      assert BlockPageOk(s, live, b, p);
    }
  }

  /** The pages of a block lie in the heap. */
  lemma PagesInHeap(b: nat, a: Alloc)
    requires Aligned(b, a.order) && b + Pow2(a.order) <= Pow2(MAX_ORDER) && (a.specific ==> a.order > PAGE_ORDER)
    ensures b / 64 + PageCount(a) <= 0x4_0000
  {
    Pow2Values();
    PageCounts(a);
    if a.order >= PAGE_ORDER {
      LargeAligned(b, a.order);
    } else {
      SmallInPage(b, a.order);
    }
  }
}
