/**
 The temporary page: a page of a heap block whose own frame is set aside, so that the page can be
 mapped to borrowed frames, one after the other, until it is given back to the heap.
 */
module TemporaryPages {
  import opened Entries
  import opened Pages
  import opened Mmu
  import opened Spaces
  import opened Views
  import opened Changes
  import opened Mapper
  import opened RangeMapping
  import opened Buddy
  import opened HeapSpec
  import opened KernelHeap
  import opened HeapObjects
  import opened AddressSpaces

  datatype TemporaryPage = TemporaryPage(page: VPage, frame: Frame)

  /** The block of a temporary page: twice a page, as `order` rounds. */
  const TEMPORARY_BLOCK := HeapSpec.Alloc(7, false)

  /** The page is lent, and is the one page that live block `b` maps. */
  ghost predicate LentPage(live: Live, lent: set<nat>, b: nat, page: VPage) {
    && IsHeap(page) && HeapIndex(page) in lent
    && b in live && live[b] == TEMPORARY_BLOCK && b == 64 * HeapIndex(page)
  }

  // ---------------------------------------------------------------- lending keeps the heap in order

  /** The heap does not mind what happens to a lent page. */
  lemma LentChange(s: State, s': State, live: Live, lent: set<nat>, page: VPage, leaf: Leaf)
    requires HeapInv(s, live, lent) && IsRoot(s, Target(s)) && Target(s') == Target(s)
    requires IsHeap(page) && HeapIndex(page) in lent && Remapped(s, s', page, leaf) && OthersOwn(s, s', page)
    ensures HeapInv(s', live, lent)
  {
    HeapIndexInjective(page);
    forall p: VPage | IsHeap(p) && HeapIndex(p) !in lent ensures PageOk(s', live, p) {
      assert PageOk(s, live, p);
    }
    forall p: VPage, b | IsHeap(p) && HeapIndex(p) !in lent && b in live ensures BlockPageOk(s', live, b, p) {
      assert BlockPageOk(s, live, b, p);
      assert SelfOwned(s, p) ==> SelfOwned(s', p);
    }
  }

  lemma Lend(s: State, live: Live, lent: set<nat>, b: nat, i: nat)
    requires HeapInv(s, live, lent) && b in live && live[b].order >= PAGE_ORDER && Prefix(b, live[b], i)
    ensures HeapInv(s, live, lent + {i})
  {
  }

  /** Of the live blocks only `b` needs a page of its own. */
  lemma OnlyBlockOnPage(live: Live, free: set<nat>, b: nat, c: nat, i: nat)
    requires Accounts(live, free) && b in live && c in live && live[b].order >= PAGE_ORDER
    requires Prefix(b, live[b], i) && Prefix(c, live[c], i)
    ensures b == c
  {
    PrefixInBlock(b, live[b], i);
    var u := PrefixMeets(c, live[c], i);
    SameBlock(live, free, b, c, u);
  }

  /** A page that owns its frame again can be taken back. */
  lemma TakeBack(s: State, live: Live, lent: set<nat>, free: set<nat>, b: nat, page: VPage)
    requires HeapInv(s, live, lent) && Accounts(live, free) && IsHeap(page) && SelfOwned(s, page)
    requires b in live && !live[b].specific && live[b].order >= PAGE_ORDER && Prefix(b, live[b], HeapIndex(page))
    ensures HeapInv(s, live, lent - {HeapIndex(page)})
  {
    HeapIndexInjective(page);
    var lent' := lent - {HeapIndex(page)};
    forall p: VPage | IsHeap(p) && HeapIndex(p) !in lent' ensures PageOk(s, live, p) {
      if p != page { assert PageOk(s, live, p); }
    }
    forall p: VPage, c | IsHeap(p) && HeapIndex(p) !in lent' && c in live ensures BlockPageOk(s, live, c, p) {
      if p != page {
        assert BlockPageOk(s, live, c, p);
      } else if Prefix(c, live[c], HeapIndex(page)) {
        OnlyBlockOnPage(live, free, b, c, HeapIndex(page));
      }
    }
  }

  // ---------------------------------------------------------------- one address space, one page

  /** Since `s0`, no translation but that of `page` changed. */
  ghost predicate Elsewhere(s0: State, s: State, page: VPage) {
    && Framed(s0, s) && Target(s) == Target(s0)
    && (forall r, p: VPage :: IsRoot(s0, r) && Ordinary(p) && !(p == page && SameTop(s0.mem, r, Target(s0), page.p4)) ==>
          MmuWalk(s.mem, r, p) == MmuWalk(s0.mem, r, p))
  }

  /** ... and frames only left the allocator. */
  ghost predicate OnlyTouched(s0: State, s: State, page: VPage) {
    Elsewhere(s0, s, page) && s.free <= s0.free && s0.held <= s.held
  }

  lemma ElsewhereStep(s0: State, s: State, s': State, page: VPage, leaf: Leaf)
    requires Inv(s0) && Elsewhere(s0, s, page) && Framed(s, s') && Remapped(s, s', page, leaf)
    ensures Elsewhere(s0, s', page)
  {
    assert IsRoot(s0, Target(s0));
    FramedTrans(s0, s, s');
  }

  /** If the page is unmapped before and after, every translation is as it was. */
  lemma Untouched(s0: State, s: State, page: VPage)
    requires IsRoot(s0, Target(s0)) && Elsewhere(s0, s, page) && Ordinary(page)
    requires MmuWalk(s0.mem, Target(s0), page) == NoLeaf && MmuWalk(s.mem, Target(s0), page) == NoLeaf
    ensures SameViews(s0, s)
  {
    forall r, p: VPage | IsRoot(s0, r) && Ordinary(p) ensures MmuWalk(s.mem, r, p) == MmuWalk(s0.mem, r, p) {
      if p == page && SameTop(s0.mem, r, Target(s0), p.p4) {
        SameTopSameWalk(s0.mem, r, Target(s0), p);
        SameTopSameWalk(s.mem, r, Target(s0), p);
      }
    }
  }

  /** The temporary page of block `b` is not mapped, and its own frame is set aside. */
  ghost predicate Idle(s: State, live: Live, lent: set<nat>, free: set<nat>, b: nat, tp: TemporaryPage) {
    && HeapOk(s, live, lent, free) && LentPage(live, lent, b, tp.page)
    && MmuWalk(s.mem, s.cr3, tp.page) == NoLeaf && tp.frame in s.held
    && TableAt(s.mem, s.cr3, P1Path(tp.page)).Some?
  }

  /** ... or is mapped to something else. */
  ghost predicate Busy(s: State, live: Live, lent: set<nat>, free: set<nat>, b: nat, tp: TemporaryPage) {
    && HeapOk(s, live, lent, free) && LentPage(live, lent, b, tp.page)
    && MmuWalk(s.mem, s.cr3, tp.page).Page4K? && !SelfOwned(s, tp.page) && tp.frame in s.held
  }

  /** A page that was not mapped borrows the frame it is set to. */
  lemma Borrowed(s: State, s': State, page: VPage, e: Entry)
    requires Inv(s) && Ordinary(page) && MmuWalk(s.mem, Target(s), page) == NoLeaf && LeafChanged(s, s', page, e)
    requires TableAt(s.mem, Target(s), P1Path(page)).Some?
    ensures !SelfOwned(s', page)
  {
    assert IsRoot(s, Target(s));
    WalkByP1(s.mem, Target(s), page);
    assert e.frame in s.shape ==> OwnedMapped(s, e.frame);
  }

  lemma MapLent(s: State, s': State, live: Live, lent: set<nat>, free: set<nat>, b: nat, tp: TemporaryPage, e: Entry)
    requires Idle(s, live, lent, free, b, tp) && LeafChanged(s, s', tp.page, e) && e.flags.present
    ensures Busy(s', live, lent, free, b, tp)
  {
    assert IsRoot(s, Target(s));
    Borrowed(s, s', tp.page, e);
    ChangedOwned(s, s', tp.page, e);
    LentChange(s, s', live, lent, tp.page, Page4K(e));
  }

  lemma UnmapLent(s: State, s': State, live: Live, lent: set<nat>, free: set<nat>, b: nat, tp: TemporaryPage)
    requires Busy(s, live, lent, free, b, tp) && PageUnmapped(s, s', tp.page, false)
    ensures Idle(s', live, lent, free, b, tp)
  {
    assert IsRoot(s, Target(s));
    WalkByP1(s.mem, s.cr3, tp.page);
    UnmappedOwned(s, s', tp.page, false);
    LentChange(s, s', live, lent, tp.page, NoLeaf);
  }

  // ---------------------------------------------------------------- the operations

  /** `map_to` of a page whose tables exist, which therefore never runs out of memory. */
  method MapWithTables(m: Machine, page: VPage, frame: Frame, flags: EntryFlags)
    requires m.Valid() && Target(m.S()) == m.cr3 && m.cr3 !in m.boot && Ordinary(page) && frame < 0x10_0000_0000
    requires TableAt(m.mem, m.cr3, P1Path(page)).Some?
    modifies m
    ensures LeafChanged(old(m.S()), m.S(), page, Entry(frame, flags.Or(PRESENT))) && |m.free| == |old(m.free)|
  {
    BuiltSmallPages(m.S(), m.cr3, page);
    assert MissingTables(m.mem, m.cr3, page) == 0;
    var ok := m.MapTo(page, frame, flags);
  }

  /** `TemporaryPage::map`. Its page has its tables from the heap, so it cannot run out of memory. */
  method Map(m: Machine, tp: TemporaryPage, frame: Frame, ghost live: Live, ghost lent: set<nat>, ghost free: set<nat>,
             ghost b: nat, ghost s0: State)
    requires Idle(m.S(), live, lent, free, b, tp) && frame < 0x10_0000_0000
    requires Inv(s0) && OnlyTouched(s0, m.S(), tp.page)
    modifies m
    ensures Busy(m.S(), live, lent, free, b, tp)
    ensures OnlyTouched(s0, m.S(), tp.page) && m.held == old(m.held) && |m.free| == |old(m.free)|
    ensures MmuWalk(m.mem, m.cr3, tp.page) == Page4K(Entry(frame, WRITABLE.Or(PRESENT)))
  {
    ghost var s := m.S();
    PageReady(s, tp.page);
    assert !WalkPageTable(m.mem, m.cr3, tp.page).Mapped?;
    MapWithTables(m, tp.page, frame, WRITABLE);
    ChangedHolds(s, m.S(), tp.page, Entry(frame, WRITABLE.Or(PRESENT)));
    MapLent(s, m.S(), live, lent, free, b, tp, Entry(frame, WRITABLE.Or(PRESENT)));
    ElsewhereStep(s0, s, m.S(), tp.page, Page4K(Entry(frame, WRITABLE.Or(PRESENT))));
  }

  /** Writing a held frame through the page disturbs nothing. */
  lemma FillLent(s0: State, s: State, live: Live, lent: set<nat>, free: set<nat>, b: nat, tp: TemporaryPage,
                 f: Frame, contents: Table)
    requires Inv(s0) && OnlyTouched(s0, s, tp.page) && Busy(s, live, lent, free, b, tp) && f in s.held
    ensures Busy(FillState(s, f, contents), live, lent, free, b, tp)
    ensures OnlyTouched(s0, FillState(s, f, contents), tp.page)
  {
    var s' := FillState(s, f, contents);
    FillFramed(s, f, contents);
    assert IsRoot(s, Target(s));
    FilledOwners(s, f, contents, tp.page);
    WalkByP1(s.mem, s.cr3, tp.page);
    LentChange(s, s', live, lent, tp.page, MmuWalk(s.mem, s.cr3, tp.page));
    ElsewhereStep(s0, s, s', tp.page, MmuWalk(s.mem, s.cr3, tp.page));
  }

  lemma FilledOwners(s: State, f: Frame, contents: Table, page: VPage)
    requires Inv(s) && f in s.held && Framed(s, FillState(s, f, contents)) && SameViews(s, FillState(s, f, contents))
    requires Target(FillState(s, f, contents)) == Target(s) && Ordinary(page)
    ensures OthersOwn(s, FillState(s, f, contents), page)
    ensures Remapped(s, FillState(s, f, contents), page, MmuWalk(s.mem, Target(s), page))
  {
    var s' := FillState(s, f, contents);
    assert IsRoot(s, Target(s));
    forall p: VPage | Ordinary(p) && p != page && SelfOwned(s, p) ensures SelfOwned(s', p) {
      assert MmuWalk(s'.mem, Target(s), p) == MmuWalk(s.mem, Target(s), p);
    }
    forall r, p: VPage | IsRoot(s, r) && Ordinary(p)
      ensures p == page && SameTop(s.mem, r, Target(s), page.p4) ==> MmuWalk(s.mem, r, p) == MmuWalk(s.mem, Target(s), page)
    {
      if p == page && SameTop(s.mem, r, Target(s), page.p4) { SameTopSameWalk(s.mem, r, Target(s), page); }
    }
  }

  /** Writes a table word by word through a page whose own walk does not use the frame behind it. */
  method WriteWords(m: Machine, page: VPage, contents: Table, ghost f: Frame)
    requires Translate(m.mem, m.cr3, page) == Some(f) && f in m.mem
    requires Writable(m.mem, m.cr3, page) && WalkAvoids(m.mem, m.cr3, page, f)
    modifies m`mem
    ensures m.mem == PutFrame(old(m.mem), f, contents)
  {
    ghost var mem := m.mem;
    for j := 0 to 512
      invariant m.mem.Keys == mem.Keys
      invariant forall g: Frame, k: Index :: g != f ==> At(m.mem, g, k) == At(mem, g, k)
      invariant forall g :: g in mem && g != f ==> m.mem[g] == mem[g]
      invariant forall k: Index :: k < j ==> At(m.mem, f, k) == contents[k]
      invariant Translate(m.mem, m.cr3, page) == Some(f)
      invariant Writable(m.mem, m.cr3, page) && WalkAvoids(m.mem, m.cr3, page, f)
    {
      ghost var before := m.mem;
      m.Write(page, j, contents[j]);
      AvoidingWalkStable(before, m.mem, m.cr3, page, f);
    }
    assert forall k: Index :: m.mem[f][k] == At(m.mem, f, k);
    assert m.mem[f] == contents;
  }

  /** What a caller does with the frame it mapped: reads it, or writes a table into it. */
  method WriteThrough(m: Machine, tp: TemporaryPage, frame: Frame, contents: Table, ghost live: Live, ghost lent: set<nat>,
                      ghost free: set<nat>, ghost b: nat, ghost s0: State)
    requires Busy(m.S(), live, lent, free, b, tp) && Inv(s0) && OnlyTouched(s0, m.S(), tp.page)
    requires frame in m.held && MmuWalk(m.mem, m.cr3, tp.page) == Page4K(Entry(frame, WRITABLE.Or(PRESENT)))
    modifies m`mem
    ensures Busy(m.S(), live, lent, free, b, tp) && OnlyTouched(s0, m.S(), tp.page)
    ensures frame in m.mem && m.mem[frame] == contents && m.held == old(m.held) && m.free == old(m.free)
  {
    ghost var s := m.S();
    HeldWritable(s, tp.page, frame);
    WriteWords(m, tp.page, contents, frame);
    assert m.S() == FillState(s, frame, contents);
    FillLent(s0, s, live, lent, free, b, tp, frame, contents);
  }

  lemma HeldWritable(s: State, page: VPage, f: Frame)
    requires Inv(s) && Ordinary(page) && f in s.held
    requires MmuWalk(s.mem, s.cr3, page) == Page4K(Entry(f, WRITABLE.Or(PRESENT)))
    ensures Writable(s.mem, s.cr3, page) && Translate(s.mem, s.cr3, page) == Some(f) && f in s.mem
    ensures WalkAvoids(s.mem, s.cr3, page, f)
  {
    HeldPageWritable(s, page, f);
  }

  /** `TemporaryPage::unmap`. */
  method Unmap(m: Machine, tp: TemporaryPage, ghost live: Live, ghost lent: set<nat>, ghost free: set<nat>,
             ghost b: nat, ghost s0: State)
    requires Busy(m.S(), live, lent, free, b, tp)
    requires Inv(s0) && OnlyTouched(s0, m.S(), tp.page)
    modifies m
    ensures Idle(m.S(), live, lent, free, b, tp)
    ensures OnlyTouched(s0, m.S(), tp.page) && m.held == old(m.held) && m.free == old(m.free)
  {
    ghost var s := m.S();
    TargetRecursive(s);
    SoftWalkIsMmuWalk(s.mem, s.cr3, s.cr3, tp.page);
    m.Unmap(tp.page, false);
    NothingHandedOver(s, m.S(), tp.page);
    UnmapLent(s, m.S(), live, lent, free, b, tp);
    ElsewhereStep(s0, s, m.S(), tp.page, NoLeaf);
  }

  lemma NothingHandedOver(s: State, s': State, page: VPage)
    requires PageUnmapped(s, s', page, false) && !SelfOwned(s, page)
    ensures s'.held == s.held && s'.free == s.free
  {
  }

  // ---------------------------------------------------------------- its beginning

  /** 4096 bytes take a block of two pages, of which one is mapped. */
  lemma TemporaryOrder(order: nat)
    requires IsOrder(4096, order)
    ensures order == 7 && PageCount(TEMPORARY_BLOCK) == 1
  {
    Pow2Values();
    Pow2Add(7, 6);
    OrderUnique(4096, order, 7);
    PageCounts(TEMPORARY_BLOCK);
  }

  /** The block's page, by number. */
  lemma TemporaryIndex(b: nat, lo: nat)
    requires Aligned(b, 7) && b + Pow2(7) <= Pow2(MAX_ORDER) && lo == b / 64
    ensures b == 64 * lo && IsHeap(HeapPage(lo)) && HeapIndex(HeapPage(lo)) == lo
    ensures PageCount(TEMPORARY_BLOCK) == 1 && Prefix(b, TEMPORARY_BLOCK, lo)
  {
    LargeAligned(b, 7);
    PageCounts(TEMPORARY_BLOCK);
    PagesInHeap(b, TEMPORARY_BLOCK);
    HeapPageAddress(lo);
  }

  /** The new block's page: mapped now, on a frame of its own from the allocator, and not before. */
  lemma NewPage(s0: State, s: State, live0: Live, live: Live, lent: set<nat>, free0: set<nat>, free: set<nat>,
                b: nat, lo: nat, hi: nat, page: VPage)
    requires HeapOk(s0, live0, lent, free0) && Fits(free0, MAX_ORDER, b, 7)
    requires HeapInv(s, live, lent) && b in live && live[b] == TEMPORARY_BLOCK
    requires IsHeap(page) && HeapIndex(page) == lo && Prefix(b, TEMPORARY_BLOCK, lo)
    requires hi == lo + 1 && MissingMapped(s0, s, lo, hi)
    ensures lo !in lent && MmuWalk(s0.mem, s0.cr3, page) == NoLeaf
    ensures SelfOwned(s, page) && FrameTaken(s0, s, page)
    ensures OnlyTouched(s0, s, page)
  {
    UnusedPagesUnmapped(s0, live0, lent, free0, b, TEMPORARY_BLOCK, page);
    assert BlockPageOk(s, live, b, page);
    assert FrameTaken(s0, s, page);
    HeapIndexInjective(page);
  }

  lemma NewDone(s0: State, s: State, s': State, live: Live, lent: set<nat>, lent': set<nat>, free: set<nat>, b: nat,
                tp: TemporaryPage)
    requires Inv(s0) && OnlyTouched(s0, s, tp.page) && HeapOk(s, live, lent, free) && SelfOwned(s, tp.page)
    requires LentPage(live, lent', b, tp.page) && lent' == lent + {HeapIndex(tp.page)}
    requires tp.frame == MmuWalk(s.mem, s.cr3, tp.page).entry.frame && PageUnmapped(s, s', tp.page, false)
    ensures OnlyTouched(s0, s', tp.page)
    ensures Idle(s', live, lent', free, b, tp)
  {
    var page := tp.page;
    assert IsRoot(s, Target(s));
    WalkByP1(s.mem, s.cr3, page);
    PageCounts(TEMPORARY_BLOCK);
    Lend(s, live, lent, b, HeapIndex(page));
    UnmappedOwned(s, s', page, false);
    LentChange(s, s', live, lent', page, NoLeaf);
    ElsewhereStep(s0, s, s', page, NoLeaf);
  }

  /** Reads the frame of a page, and unmaps the page without freeing the frame. */
  method SetAside(m: Machine, page: VPage) returns (frame: Frame)
    requires m.Valid() && Target(m.S()) == m.cr3 && Ordinary(page) && MmuWalk(m.mem, m.cr3, page).Page4K?
    modifies m
    ensures PageUnmapped(old(m.S()), m.S(), page, false)
    ensures frame == old(MmuWalk(m.mem, m.cr3, page)).entry.frame
    ensures old(SelfOwned(m.S(), page)) ==> m.held == old(m.held) + {frame} && m.free == old(m.free)
  {
    TargetRecursive(m.S());
    SoftWalkIsMmuWalk(m.mem, m.cr3, m.cr3, page);
    frame := WalkPageTable(m.mem, m.cr3, page).entry.frame;
    m.Unmap(page, false);
  }

  /** Sets the frame of a heap page aside and lends the page out. */
  method LendPage(h: Heap, page: VPage, ghost b: nat, ghost lent: set<nat>, ghost s0: State) returns (tp: TemporaryPage)
    requires Inv(s0) && OnlyTouched(s0, h.m.S(), page) && HeapOk(h.m.S(), h.live, h.lent, h.tree.free)
    requires SelfOwned(h.m.S(), page) && LentPage(h.live, lent, b, page) && lent == h.lent + {HeapIndex(page)}
    modifies h`lent, h.m
    ensures h.lent == lent && tp == TemporaryPage(page, old(MmuWalk(h.m.mem, h.m.cr3, page)).entry.frame)
    ensures Idle(h.m.S(), h.live, lent, h.tree.free, b, tp)
    ensures OnlyTouched(s0, h.m.S(), page)
    ensures h.m.held == old(h.m.held) + {tp.frame} && h.m.free == old(h.m.free)
  {
    ghost var s := h.m.S();
    var frame := SetAside(h.m, page);
    tp := TemporaryPage(page, frame);
    h.lent := lent;
    NewDone(s0, s, h.m.S(), h.live, old(h.lent), lent, h.tree.free, b, tp);
  }

  /** The page on which block `b` starts. */
  method FirstPage(b: nat, ghost lo: nat) returns (page: VPage)
    requires Aligned(b, 7) && b + Pow2(7) <= Pow2(MAX_ORDER) && lo == b / 64
    ensures b == 64 * lo && IsHeap(page) && HeapIndex(page) == lo && Prefix(b, TEMPORARY_BLOCK, lo)
  {
    TemporaryIndex(b, lo);
    page := HeapPage(b / 64);
  }

  /** The heap block of a temporary page. */
  method AllocTemporary(h: Heap) returns (r: Option<VPage>, ghost b: nat)
    requires h.Valid()
    modifies h`live, h.m, h.tree
    ensures r.Some? ==> h.Valid() && SelfOwned(h.m.S(), r.value) && HeapIndex(r.value) !in h.lent
    ensures r.Some? ==> LentPage(h.live, h.lent + {HeapIndex(r.value)}, b, r.value)
    ensures r.Some? ==> b !in old(h.live) && h.live == old(h.live)[b := TEMPORARY_BLOCK]
    ensures r.Some? ==> Fits(old(h.tree.free), MAX_ORDER, b, 7) && h.tree.free == old(h.tree.free) - Block(b, 7)
    ensures r.Some? ==> OnlyTouched(old(h.m.S()), h.m.S(), r.value)
    ensures r.Some? ==> h.m.held == old(h.m.held) && TakesPage(old(h.m.free), h.m.free, old(h.m.S()), HeapIndex(r.value))
    ensures r.Some? ==> old(MmuWalk(h.m.mem, h.m.cr3, r.value)) == NoLeaf && FrameTaken(old(h.m.S()), h.m.S(), r.value)
    ensures r.None? ==> h.m.free == {} || forall c :: !Fits(h.tree.free, MAX_ORDER, c, 7)
  {
    var block, page;
    ghost var lo;
    block, page, lo := AllocTwoPages(h);
    r, b := None, 0;
    if block.Got? {
      b := block.block;
      NewPage(old(h.m.S()), h.m.S(), old(h.live), h.live, h.lent, old(h.tree.free), h.tree.free, b, lo, lo + 1, page);
      PageTaken(old(h.m.S()), h.m.S(), page, lo);
      r := Some(page);
    }
  }

  /** A heap page took a frame, and one for each table it lacked in state `s`. */
  ghost predicate TakesPage(free: set<Frame>, free': set<Frame>, s: State, i: nat) {
    |free| == |free'| + 1 + |LackedTables(s, i, i + 1)|
  }

  lemma PageTaken(s: State, s': State, page: VPage, i: nat)
    requires IsHeap(page) && HeapIndex(page) == i && HeapSpent(s, s', i, i + 1)
    requires MmuWalk(s.mem, Target(s), page) == NoLeaf
    ensures s'.held == s.held && TakesPage(s.free, s'.free, s, HeapIndex(page))
  {
    HeapIndexInjective(page);
    HeapPageAddress(i);
    assert HeapPage(i) == page;
    assert UnmappedPages(s, i, i) == 0;
  }

  lemma PageStillTaken(free: set<Frame>, free1: set<Frame>, free2: set<Frame>, s: State, i: nat)
    requires TakesPage(free, free1, s, i) && |free2| == |free1|
    ensures TakesPage(free, free2, s, i)
  {
  }

  /** ... and gave its own back. */
  ghost predicate TakesTables(free: set<Frame>, free': set<Frame>, s: State, i: nat) {
    |free| == |free'| + |LackedTables(s, i, i + 1)|
  }

  lemma PageGivenBack(free: set<Frame>, free1: set<Frame>, free2: set<Frame>, s: State, i: nat)
    requires TakesPage(free, free1, s, i) && |free2| == |free1| + 1
    ensures TakesTables(free, free2, s, i)
  {
  }

  /** `alloc` for 4096 bytes, and the page on which the block starts. */
  method AllocTwoPages(h: Heap) returns (block: HeapResult, page: VPage, ghost lo: nat)
    requires h.Valid()
    modifies h`live, h.m, h.tree
    ensures block.Got? ==> h.Valid() && block.block !in old(h.live) && h.live == old(h.live)[block.block := TEMPORARY_BLOCK]
    ensures block.Got? ==> Fits(old(h.tree.free), MAX_ORDER, block.block, 7)
                           && h.tree.free == old(h.tree.free) - Block(block.block, 7)
    ensures block.Got? ==> MissingMapped(old(h.m.S()), h.m.S(), lo, lo + 1) && HeapSpent(old(h.m.S()), h.m.S(), lo, lo + 1)
    ensures block.Got? ==> block.block == 64 * lo && IsHeap(page) && HeapIndex(page) == lo
                           && Prefix(block.block, TEMPORARY_BLOCK, lo)
    ensures !block.Got? ==> h.m.free == {} || forall c :: !Fits(h.tree.free, MAX_ORDER, c, 7)
  {
    ghost var order, hi;
    block, order, lo, hi := h.Alloc(0x1000);
    TemporaryOrder(order);
    page := HeapPage(0);
    if block.Got? {
      page := FirstPage(block.block, lo);
    }
  }

  /** `TemporaryPage::new`; none where the kernel panics because it is out of heap or memory. */
  method New(h: Heap) returns (r: Option<TemporaryPage>, ghost b: nat)
    requires h.Valid()
    modifies h, h.m, h.tree
    ensures r.Some? ==> h.TreeOk() && Idle(h.m.S(), h.live, h.lent, h.tree.free, b, r.value)
    ensures r.Some? ==> b !in old(h.live) && h.live == old(h.live)[b := TEMPORARY_BLOCK]
    ensures r.Some? ==> HeapIndex(r.value.page) !in old(h.lent) && h.lent == old(h.lent) + {HeapIndex(r.value.page)}
    ensures r.Some? ==> Fits(old(h.tree.free), MAX_ORDER, b, 7) && h.tree.free == old(h.tree.free) - Block(b, 7)
    ensures r.Some? ==> OnlyTouched(old(h.m.S()), h.m.S(), r.value.page)
    ensures r.Some? ==> h.m.held == old(h.m.held) + {r.value.frame}
    ensures r.Some? ==> TakesPage(old(h.m.free), h.m.free, old(h.m.S()), HeapIndex(r.value.page))
    ensures r.Some? ==> old(MmuWalk(h.m.mem, h.m.cr3, r.value.page)) == NoLeaf && r.value.frame in old(h.m.free)
    ensures r.None? ==> h.m.free == {} || forall c :: !Fits(h.tree.free, MAX_ORDER, c, 7)
  {
    var page;
    page, b := AllocTemporary(h);
    r := None;
    if page.Some? {
      ghost var lent := h.lent + {HeapIndex(page.value)};
      var tp := LendPage(h, page.value, b, lent, old(h.m.S()));
      r := Some(tp);
    }
  }

  // ---------------------------------------------------------------- its end

  /** Mapped to its own frame again, the page can own the frame again, and go back to the heap. */
  lemma Returned(s0: State, s: State, s1: State, s2: State, live: Live, lent: set<nat>, lent': set<nat>, free: set<nat>,
                 b: nat, tp: TemporaryPage)
    requires Inv(s0) && OnlyTouched(s0, s, tp.page) && Idle(s, live, lent, free, b, tp)
    requires LeafChanged(s, s1, tp.page, Entry(tp.frame, PRESENT)) && lent' == lent - {HeapIndex(tp.page)}
    requires s2 == AdoptState(s1, TableAt(s1.mem, s1.cr3, P1Path(tp.page)).value, tp.page.p1)
    ensures HeapOk(s2, live, lent', free) && Elsewhere(s0, s2, tp.page)
    ensures MmuWalk(s2.mem, s2.cr3, tp.page) == Page4K(Entry(tp.frame, PRESENT))
    ensures s2.free <= s0.free && s0.held - {tp.frame} <= s2.held
  {
    assert IsRoot(s, Target(s));
    MapLent(s, s1, live, lent, free, b, tp, Entry(tp.frame, PRESENT));
    ElsewhereStep(s0, s, s1, tp.page, Page4K(Entry(tp.frame, PRESENT)));
    AdoptReady(s1, s.cr3, tp.page, Entry(tp.frame, PRESENT));
    AdoptedBack(s0, s1, s2, live, lent, free, b, tp);
  }

  lemma AdoptedBack(s0: State, s1: State, s2: State, live: Live, lent: set<nat>, free: set<nat>, b: nat, tp: TemporaryPage)
    requires Inv(s0) && Elsewhere(s0, s1, tp.page) && Busy(s1, live, lent, free, b, tp)
    requires TableAt(s1.mem, s1.cr3, P1Path(tp.page)).Some? && Inv(s2) && Framed(s1, s2) && s2.mem == s1.mem
    requires MmuWalk(s1.mem, s1.cr3, tp.page).entry.frame == tp.frame
    requires var t := TableAt(s1.mem, s1.cr3, P1Path(tp.page)).value;
             At(s1.mem, t, tp.page.p1).frame == tp.frame && s2 == AdoptState(s1, t, tp.page.p1)
    ensures HeapOk(s2, live, lent - {HeapIndex(tp.page)}, free) && Elsewhere(s0, s2, tp.page)
  {
    assert IsRoot(s0, Target(s0)) && IsRoot(s1, Target(s1));
    AdoptOwned(s1, s2, tp.page, tp.frame);
    FramedTrans(s0, s1, s2);
    LentChange(s1, s2, live, lent, tp.page, MmuWalk(s1.mem, s1.cr3, tp.page));
    TakeLentBack(s2, live, lent, free, b, tp.page);
  }

  lemma TakeLentBack(s: State, live: Live, lent: set<nat>, free: set<nat>, b: nat, page: VPage)
    requires HeapInv(s, live, lent) && Accounts(live, free) && SelfOwned(s, page) && LentPage(live, lent, b, page)
    ensures HeapInv(s, live, lent - {HeapIndex(page)})
  {
    PageCounts(TEMPORARY_BLOCK);
    TakeBack(s, live, lent, free, b, page);
  }

  /** Owning a held frame changes nothing else. */
  lemma AdoptOwned(s: State, s': State, page: VPage, f: Frame)
    requires Accounted(s) && IsRoot(s, Target(s)) && Target(s) == s.cr3 && f in s.held
    requires MmuWalk(s.mem, s.cr3, page).Page4K? && MmuWalk(s.mem, s.cr3, page).entry.frame == f
    requires TableAt(s.mem, s.cr3, P1Path(page)).Some?
    requires var t := TableAt(s.mem, s.cr3, P1Path(page)).value;
             At(s.mem, t, page.p1).frame == f && s' == AdoptState(s, t, page.p1)
    ensures SelfOwned(s', page) && OthersOwn(s, s', page) && Remapped(s, s', page, MmuWalk(s.mem, s.cr3, page))
  {
    forall r, p: VPage | IsRoot(s, r) && Ordinary(p)
      ensures p == page && SameTop(s.mem, r, Target(s), page.p4) ==> MmuWalk(s.mem, r, p) == MmuWalk(s.mem, s.cr3, page)
    {
      if p == page && SameTop(s.mem, r, Target(s), page.p4) { SameTopSameWalk(s.mem, r, s.cr3, page); }
    }
  }

  /** Maps a page to a held frame, which it then owns. */
  method MapOwn(m: Machine, page: VPage, frame: Frame) returns (ghost s1: State)
    requires m.Valid() && Target(m.S()) == m.cr3 && m.cr3 !in m.boot && Ordinary(page) && frame in m.held
    requires TableAt(m.mem, m.cr3, P1Path(page)).Some?
    modifies m
    ensures LeafChanged(old(m.S()), s1, page, Entry(frame, PRESENT))
    ensures |m.free| == |old(m.free)|
    ensures old(MmuWalk(m.mem, m.cr3, page)) == NoLeaf ==> m.held == old(m.held) - {frame}
    ensures m.S() == AdoptState(s1, TableAt(s1.mem, s1.cr3, P1Path(page)).value, page.p1)
  {
    assert frame in m.S().held && frame in m.pool;
    ghost var s := m.S();
    MapWithTables(m, page, frame, NONE);
    s1 := m.S();
    EntrySet(s, s1, page, frame);
    ghost var t := TableAt(m.mem, m.cr3, P1Path(page)).value;
    ghost var g := At(m.mem, t, page.p1).frame;
    m.held, m.shape := m.held - {g}, m.shape[g := Owned(t, page.p1)];
  }

  lemma EntrySet(s: State, s': State, page: VPage, f: Frame)
    requires Inv(s) && Ordinary(page) && LeafChanged(s, s', page, Entry(f, PRESENT))
    ensures At(s'.mem, TableAt(s'.mem, Target(s), P1Path(page)).value, page.p1).frame == f
    ensures MmuWalk(s.mem, Target(s), page) == NoLeaf ==> s'.held == s.held
  {
    if MmuWalk(s.mem, Target(s), page) == NoLeaf { ChangedHolds(s, s', page, Entry(f, PRESENT)); }
    assert IsRoot(s, Target(s));
    WalkByP1(s'.mem, Target(s), page);
  }

  /** Maps the page to its own frame again, and gives it back to its block. */
  method ReturnPage(h: Heap, tp: TemporaryPage, ghost b: nat, ghost lent: set<nat>, ghost s0: State)
    requires Idle(h.m.S(), h.live, h.lent, h.tree.free, b, tp) && lent == h.lent - {HeapIndex(tp.page)}
    requires Inv(s0) && OnlyTouched(s0, h.m.S(), tp.page)
    modifies h`lent, h.m
    ensures h.lent == lent
    ensures HeapOk(h.m.S(), h.live, lent, h.tree.free) && Elsewhere(s0, h.m.S(), tp.page)
    ensures MmuWalk(h.m.mem, h.m.cr3, tp.page) == Page4K(Entry(tp.frame, PRESENT))
    ensures h.m.free <= s0.free && s0.held - {tp.frame} <= h.m.held
    ensures h.m.held == old(h.m.held) - {tp.frame} && |h.m.free| == |old(h.m.free)|
  {
    ghost var s := h.m.S();
    ghost var s1 := MapOwn(h.m, tp.page, tp.frame);
    h.lent := lent;
    Returned(s0, s, s1, h.m.S(), h.live, old(h.lent), lent, h.tree.free, b, tp);
  }

  /** With the block freed, the page is unmapped and its own frame is the one frame that became free. */
  lemma Finished(s0: State, s: State, s': State, page: VPage, e: Entry, lo: nat, hi: nat)
    requires Inv(s0) && Elsewhere(s0, s, page) && Cleared(s, s', lo, hi, true)
    requires IsHeap(page) && lo == HeapIndex(page) && hi == lo + 1 && MmuWalk(s.mem, Target(s), page) == Page4K(e)
    ensures Elsewhere(s0, s', page) && MmuWalk(s'.mem, Target(s0), page) == NoLeaf && s'.free == s.free + {e.frame}
    ensures s'.held == s.held && |s'.free| == |s.free| + 1
  {
    assert IsRoot(s0, Target(s0));
    FramedTrans(s0, s, s');
    HeapIndexInjective(page);
    assert InRange(page, lo, hi);
    forall f ensures f in s'.free <==> f in s.free || f == e.frame {
      assert f in FreeFrames(s') <==> f in FreeOrBehind(s, lo, hi);
    }
  }

  /** The heap's block under a temporary page, and that no lent page is on it. */
  method BlockUnder(page: VPage, ghost live: Live, ghost lent: set<nat>, ghost b: nat) returns (block: nat)
    requires LentPage(live, lent + {HeapIndex(page)}, b, page) && HeapIndex(page) !in lent
    ensures block == b && b / 64 == HeapIndex(page) && PageCount(TEMPORARY_BLOCK) == 1 && IsOrder(4096, 7)
    ensures forall i :: i in lent ==> !Prefix(b, TEMPORARY_BLOCK, i)
  {
    Pow2Values();
    Pow2Add(7, 6);
    TemporaryOrder(7);
    block := 64 * HeapIndex(page);
  }

  /** `TemporaryPage::drop`. It cannot run out of memory either. */
  method Drop(h: Heap, tp: TemporaryPage, ghost b: nat, ghost s0: State)
    requires h.TreeOk() && Idle(h.m.S(), h.live, h.lent, h.tree.free, b, tp)
    requires Inv(s0) && OnlyTouched(s0, h.m.S(), tp.page)
    modifies h, h.m, h.tree
    ensures h.Valid() && h.live == old(h.live) - {b} && h.lent == old(h.lent) - {HeapIndex(tp.page)}
    ensures h.tree.free == old(h.tree.free) + Block(b, 7)
    ensures Elsewhere(s0, h.m.S(), tp.page) && MmuWalk(h.m.mem, Target(s0), tp.page) == NoLeaf
    ensures tp.frame in h.m.free && h.m.free <= s0.free + {tp.frame} && s0.held - {tp.frame} <= h.m.held
    ensures h.m.held == old(h.m.held) - {tp.frame} && |h.m.free| == |old(h.m.free)| + 1
  {
    ghost var lent := h.lent - {HeapIndex(tp.page)};
    assert LentPage(h.live, lent + {HeapIndex(tp.page)}, b, tp.page);
    ReturnPage(h, tp, b, lent, s0);
    ghost var s := h.m.S();
    var block := BlockUnder(tp.page, h.live, lent, b);
    ghost var lo, hi := h.Dealloc(Got(block), 0x1000);
    Finished(s0, s, h.m.S(), tp.page, Entry(tp.frame, PRESENT), lo, hi);
  }

  /** One use of the page: looking at any frame, or writing a table into a frame someone holds. */
  datatype Use = Look(frame: Frame) | Fill(frame: Frame, contents: Table)

  method UseOnce(m: Machine, tp: TemporaryPage, use: Use, ghost live: Live, ghost lent: set<nat>, ghost free: set<nat>,
                 ghost b: nat, ghost s0: State)
    requires Idle(m.S(), live, lent, free, b, tp) && use.frame < 0x10_0000_0000 && (use.Fill? ==> use.frame in s0.held)
    requires Inv(s0) && OnlyTouched(s0, m.S(), tp.page)
    modifies m
    ensures Idle(m.S(), live, lent, free, b, tp) && OnlyTouched(s0, m.S(), tp.page)
    ensures m.held == old(m.held) && |m.free| == |old(m.free)|
  {
    Map(m, tp, use.frame, live, lent, free, b, s0);
    if use.Fill? {
      WriteThrough(m, tp, use.frame, use.contents, live, lent, free, b, s0);
    }
    Unmap(m, tp, live, lent, free, b, s0);
  }

  /** Any number of alternating uses between the beginning and the end. */
  method UseFor(m: Machine, tp: TemporaryPage, uses: seq<Use>, ghost live: Live, ghost lent: set<nat>,
                ghost free: set<nat>, ghost b: nat, ghost s0: State)
    requires Idle(m.S(), live, lent, free, b, tp) && UsesOk(s0, uses)
    requires Inv(s0) && OnlyTouched(s0, m.S(), tp.page)
    modifies m
    ensures Idle(m.S(), live, lent, free, b, tp) && OnlyTouched(s0, m.S(), tp.page)
    ensures m.held == old(m.held) && |m.free| == |old(m.free)|
  {
    for i := 0 to |uses|
      invariant Idle(m.S(), live, lent, free, b, tp) && OnlyTouched(s0, m.S(), tp.page)
      invariant m.held == old(m.held) && |m.free| == |old(m.free)|
    {
      UseOnce(m, tp, uses[i], live, lent, free, b, s0);
    }
  }

  ghost predicate UsesOk(s: State, uses: seq<Use>) {
    forall k :: 0 <= k < |uses| ==> uses[k].frame < 0x10_0000_0000 && (uses[k].Fill? ==> uses[k].frame in s.held)
  }

  lemma AsBefore(live: Live, lent: set<nat>, free: set<nat>, b: nat, i: nat)
    requires b !in live && i !in lent && Block(b, 7) <= free
    ensures live[b := TEMPORARY_BLOCK] - {b} == live && lent + {i} - {i} == lent
    ensures free - Block(b, 7) + Block(b, 7) == free
  {
  }

  lemma NotHeld(s: State, f: Frame)
    requires Accounted(s) && f in s.free
    ensures s.held - {f} == s.held
  {
  }

  /** Uses, then the end, of a temporary page. */
  method UseAndDrop(h: Heap, tp: TemporaryPage, uses: seq<Use>, ghost b: nat, ghost s0: State)
    requires h.TreeOk() && Idle(h.m.S(), h.live, h.lent, h.tree.free, b, tp)
    requires UsesOk(s0, uses)
    requires Inv(s0) && OnlyTouched(s0, h.m.S(), tp.page) && MmuWalk(s0.mem, Target(s0), tp.page) == NoLeaf
    requires tp.frame in s0.free
    modifies h, h.m, h.tree
    ensures h.Valid() && h.live == old(h.live) - {b} && h.lent == old(h.lent) - {HeapIndex(tp.page)}
    ensures h.tree.free == old(h.tree.free) + Block(b, 7)
    ensures SameViews(s0, h.m.S()) && tp.frame in h.m.free && h.m.free <= s0.free && s0.held <= h.m.held
    ensures h.m.held == old(h.m.held) - {tp.frame} && |h.m.free| == |old(h.m.free)| + 1
  {
    NotHeld(s0, tp.frame);
    UseFor(h.m, tp, uses, h.live, h.lent, h.tree.free, b, s0);
    Drop(h, tp, b, s0);
    Untouched(s0, h.m.S(), tp.page);
  }

  /**
   The whole life of a temporary page: every translation ends as it began, the heap has its block
   back, the page's own frame is free again, and no other frame became free. The only frames that left
   the allocator are the tables the page lacked. It fails only at its beginning, when the heap has no
   block or there is no memory for it.
   */
  method TemporaryPageLife(h: Heap, uses: seq<Use>) returns (ok: bool, ghost own: Frame, ghost i: nat)
    requires h.Valid() && UsesOk(h.m.S(), uses)
    modifies h, h.m, h.tree
    ensures ok ==> h.Valid() && h.live == old(h.live) && h.lent == old(h.lent) && h.tree.free == old(h.tree.free)
    ensures ok ==> SameViews(old(h.m.S()), h.m.S())
    ensures ok ==> own in old(h.m.free) && own in h.m.free && h.m.free <= old(h.m.free) && h.m.held == old(h.m.held)
    ensures ok ==> TakesTables(old(h.m.free), h.m.free, old(h.m.S()), i)
    ensures !ok ==> h.m.free == {} || forall c :: !Fits(h.tree.free, MAX_ORDER, c, 7)
  {
    ghost var s0 := h.m.S();
    own, i := 0, 0;
    ghost var b;
    var tp;
    tp, b := New(h);
    if tp.None? {
      return false, own, i;
    }
    own, i := tp.value.frame, HeapIndex(tp.value.page);
    NotHeld(s0, own);
    ghost var free := h.m.free;
    AsBefore(old(h.live), old(h.lent), old(h.tree.free), b, HeapIndex(tp.value.page));
    UseAndDrop(h, tp.value, uses, b, s0);
    PageGivenBack(s0.free, free, h.m.free, s0, i);
    ok := true;
  }
}
