/**
 The kernel remap: a new table set is filled through the redirected recursive slot and switched to.
 */
module Remap {
  import opened Util
  import opened Entries
  import opened Pages
  import opened Mmu
  import opened Spaces
  import opened Views
  import opened Changes
  import opened Mapper
  import opened RangeMapping
  import opened AddressSpaces
  import Boot

  const VGA_PAGE: nat := KERNEL_PAGE + VGA_FRAME
  const VGA_FRAME: nat := 0xB8

  /** The pages `higher_half_map_range` maps for addresses `start` up to `end`: one past the end included. */
  function HigherHalfRange(start: nat, end: nat, flags: EntryFlags): MapperOp {
    OpHigherHalf(start / 4096, RoundUpDivide(end, 4096) + 1, flags)
  }

  // ---------------------------------------------------------------- sections

  /** An allocated ELF section. */
  datatype Section = Section(start: nat, end: nat, writable: bool, executable: bool)

  function SectionFlags(section: Section): EntryFlags {
    GLOBAL.Or(if section.writable then WRITABLE else NONE).Or(if section.executable then NONE else NO_EXECUTE)
  }

  predicate SectionOk(section: Section) {
    && KERNEL_MAPPING_BEGIN <= section.start <= section.end && section.start % 4096 == 0
    && RoundUpDivide(section.end, 4096) < PAGES_END
  }

  /** What the loop over the first `k` sections maps, in order. */
  function SectionOps(sections: seq<Section>, k: nat): Closure
    requires k <= |sections| && forall i :: 0 <= i < |sections| ==> SectionOk(sections[i])
  {
    if k == 0 then Nothing
    else Then(SectionOps(sections, k - 1),
              HigherHalfRange(sections[k - 1].start, sections[k - 1].end, SectionFlags(sections[k - 1])))
  }

  /** Sections in ascending order, none sharing a page with the next. */
  predicate Ascending(sections: seq<Section>) {
    forall i, j :: 0 <= i < j < |sections| ==> RoundUpDivide(sections[i].end, 4096) <= sections[j].start / 4096
  }

  predicate InSection(section: Section, n: nat) {
    section.start / 4096 <= n < RoundUpDivide(section.end, 4096)
  }

  /** Page `n` is in the section or the page past its end. */
  predicate Reaches(section: Section, n: nat) {
    section.start / 4096 <= n <= RoundUpDivide(section.end, 4096)
  }

  /** Of the first `k` sections, number `i` is the last that reaches page `n`. */
  predicate LastToReach(sections: seq<Section>, k: nat, i: nat, n: nat) {
    i < k <= |sections| && Reaches(sections[i], n) && forall j :: i < j < k ==> !Reaches(sections[j], n)
  }

  /** Although each range also maps the page past its end, the pages of a section are its own if they ascend. */
  lemma OwnSectionLast(sections: seq<Section>, i: nat, n: nat)
    requires forall i :: 0 <= i < |sections| ==> SectionOk(sections[i])
    requires Ascending(sections) && i < |sections| && InSection(sections[i], n)
    ensures LastToReach(sections, |sections|, i, n)
  {
    forall j | i < j < |sections| ensures !Reaches(sections[j], n) {
      assert RoundUpDivide(sections[i].end, 4096) <= sections[j].start / 4096;
    }
  }

  /** The last section to reach a page gives it its rights, at its address minus `KERNEL_MAPPING_BEGIN`. */
  lemma {:induction false} SectionRights(sections: seq<Section>, k: nat, i: nat, p: VPage, leaf: Leaf)
    requires forall i :: 0 <= i < |sections| ==> SectionOk(sections[i])
    requires LastToReach(sections, k, i, Number(p))
    ensures Number(p) >= KERNEL_PAGE
    ensures Effect(SectionOps(sections, k), leaf, p) ==
            Page4K(Entry(Number(p) - KERNEL_PAGE, SectionFlags(sections[i]).Or(PRESENT)))
  {
    if i < k - 1 {
      SectionRights(sections, k - 1, i, p, leaf);
    }
  }

  /** Page `n` is the one past the end of a section. */
  predicate PastEnd(section: Section, n: nat) {
    n == RoundUpDivide(section.end, 4096)
  }

  /** A page in no section is not mapped, or it is the page past a section's end, with that section's rights. */
  lemma {:induction false} SectionGaps(sections: seq<Section>, k: nat, p: VPage)
    requires forall i :: 0 <= i < |sections| ==> SectionOk(sections[i])
    requires k <= |sections| && forall i :: 0 <= i < k ==> !InSection(sections[i], Number(p))
    ensures var leaf := Effect(SectionOps(sections, k), NoLeaf, p);
            || (leaf == NoLeaf && forall i :: 0 <= i < k ==> !PastEnd(sections[i], Number(p)))
            || (exists i :: 0 <= i < k && PastEnd(sections[i], Number(p)) && Number(p) >= KERNEL_PAGE
                            && leaf == Page4K(Entry(Number(p) - KERNEL_PAGE, SectionFlags(sections[i]).Or(PRESENT))))
  {
    if k > 0 {
      SectionGaps(sections, k - 1, p);
      assert SectionOk(sections[k - 1]);
      if PastEnd(sections[k - 1], Number(p)) {
        PastEndTouched(sections[k - 1], Number(p));
      }
    }
  }

  lemma PastEndTouched(section: Section, n: nat)
    requires SectionOk(section) && PastEnd(section, n)
    ensures section.start / 4096 <= n && KERNEL_PAGE <= n
  {
  }

  lemma {:induction false} SectionOpsAllowed(sections: seq<Section>, k: nat)
    requires k <= |sections| && forall i :: 0 <= i < |sections| ==> SectionOk(sections[i])
    ensures Allowed(SectionOps(sections, k)) && GivenFramesOnly(SectionOps(sections, k))
  {
    if k > 0 {
      SectionOpsAllowed(sections, k - 1);
      assert SectionOk(sections[k - 1]);
    }
  }

  const VGA_FLAGS := WRITABLE.Or(NO_EXECUTE).Or(USER_ACCESSIBLE)

  /** The closure that fills the new tables: every section, then the VGA buffer. */
  function KernelOps(sections: seq<Section>): Closure
    requires forall i :: 0 <= i < |sections| ==> SectionOk(sections[i])
  {
    Then(SectionOps(sections, |sections|), OpMapTo(VGA_PAGE, VGA_FRAME, VGA_FLAGS))
  }

  lemma KernelOpsAllowed(sections: seq<Section>)
    requires forall i :: 0 <= i < |sections| ==> SectionOk(sections[i])
    ensures Allowed(KernelOps(sections)) && GivenFramesOnly(KernelOps(sections))
  {
    SectionOpsAllowed(sections, |sections|);
    KernelPages(VGA_PAGE);
  }

  // ---------------------------------------------------------------- the GLOBAL flag on entry 511

  /** Adding flags to an absent entry 511 shows in no translation. */
  lemma AddTopFlagsQuiet(s: State, flags: EntryFlags)
    requires Inv(s) && Enabled(s, AddTopFlags(flags))
    ensures Target(s) in s.mem && OpsDone(s, AddTopFlagsState(s, flags), Nothing)
  {
    var s' := AddTopFlagsState(s, flags);
    AddTopFlagsKeeps(s, flags);
    AddTopFlagsFramed(s, flags);
    assert IsRoot(s, Target(s));
    forall r, p: VPage | IsRoot(s, r) && Ordinary(p) ensures OpsView(s, s', Target(s), Nothing, r, p) {
      QuietTopWordWalk(s, s'.mem, Target(s), KERNEL_SLOT, r, p);
      if SameTop(s.mem, r, Target(s), p.p4) { SameTopSameWalk(s.mem, r, Target(s), p); }
    }
  }

  /** `mem'` differs from the state's memory in entry 511 of P4 `t`, absent in both. */
  ghost predicate AbsentEntryChanged(s: State, mem': Mem, t: Frame) {
    && IsRoot(s, t) && !At(s.mem, t, KERNEL_SLOT).flags.present
    && !At(mem', t, KERNEL_SLOT).flags.present
    && (At(mem', t, KERNEL_SLOT).flags.huge ==> At(s.mem, t, KERNEL_SLOT).flags.huge)
    && (forall g: Frame, j: Index :: g != t || j != KERNEL_SLOT ==> At(mem', g, j) == At(s.mem, g, j))
  }

  lemma AddTopFlagsFramed(s: State, flags: EntryFlags)
    requires Inv(s) && Enabled(s, AddTopFlags(flags))
    ensures Target(s) in s.mem && Framed(s, AddTopFlagsState(s, flags))
    ensures Target(AddTopFlagsState(s, flags)) == Target(s)
  {
    var s' := AddTopFlagsState(s, flags);
    assert IsRoot(s, Target(s)) && IsRoot(s, s.cr3);
    assert Upper(s, Target(s), KERNEL_SLOT);
    forall r, path | IsRoot(s, r) && OrdinaryPath(path) && TableAt(s.mem, r, path).Some?
      ensures TableAt(s'.mem, r, path) == TableAt(s.mem, r, path)
    {
      AbsentEntryPath(s, s'.mem, Target(s), r, path);
    }
    forall r, p: VPage | IsRoot(s, r) && Ordinary(p) && SmallPages(s.mem, r, p) ensures SmallPages(s'.mem, r, p) {
      AbsentEntrySmallPages(s, s'.mem, Target(s), r, p);
    }
    AbsentEntryTops(s, s'.mem, Target(s));
  }

  lemma AbsentEntryTops(s: State, mem': Mem, t: Frame)
    requires AbsentEntryChanged(s, mem', t)
    ensures forall r, r', i: Index :: IsRoot(s, r) && IsRoot(s, r') ==> (SameTop(mem', r, r', i) <==> SameTop(s.mem, r, r', i))
  {
  }

  lemma AbsentEntrySmallPages(s: State, mem': Mem, t: Frame, r: Frame, p: VPage)
    requires Inv(s) && AbsentEntryChanged(s, mem', t) && IsRoot(s, r) && Ordinary(p) && SmallPages(s.mem, r, p)
    ensures SmallPages(mem', r, p)
  {
    WalkRoles(s, r, p);
  }

  lemma AbsentEntryPath(s: State, mem': Mem, t: Frame, r: Frame, path: Path)
    requires Inv(s) && AbsentEntryChanged(s, mem', t) && IsRoot(s, r) && OrdinaryPath(path)
    requires TableAt(s.mem, r, path).Some?
    ensures TableAt(mem', r, path) == TableAt(s.mem, r, path)
    decreases 4 - PathLevel(path)
  {
    match path
    case AtP4 =>
    case AtP3(i4) =>
    case AtP2(i4, i3) =>
      AbsentEntryPath(s, mem', t, r, AtP3(i4));
      PathRoles(s, r, AtP3(i4));
    case AtP1(i4, i3, i2) =>
      AbsentEntryPath(s, mem', t, r, AtP2(i4, i3));
      PathRoles(s, r, AtP2(i4, i3));
  }

  /** Doing nothing visible first does not change what a closure does. */
  lemma OpsAfterNothing(s: State, s1: State, s2: State, ops: Closure)
    requires Inv(s) && OpsDone(s, s1, Nothing) && OpsDone(s1, s2, ops)
    ensures OpsDone(s, s2, ops)
  {
    FramedTrans(s, s1, s2);
    assert IsRoot(s, Target(s));
    forall r, p: VPage | IsRoot(s, r) && Ordinary(p) ensures OpsView(s, s2, Target(s), ops, r, p) {
      assert OpsView(s, s1, Target(s), Nothing, r, p) && OpsView(s, s1, Target(s), Nothing, Target(s), p);
      assert OpsView(s1, s2, Target(s), ops, r, p);
      if SameTop(s.mem, r, Target(s), p.p4) { SameTopSameWalk(s.mem, r, Target(s), p); }
    }
  }

  method AddGlobal(m: Machine)
    requires m.Valid() && !At(m.mem, Target(m.S()), KERNEL_SLOT).flags.present
    modifies m`mem
    ensures OpsDone(old(m.S()), m.S(), Nothing) && OnlyHandedOver(old(m.S()), m.S())
  {
    ghost var s := m.S();
    PointerUsable(s, AtP4);
    var entry := m.Read(P4_POINTER, KERNEL_SLOT);
    m.Write(P4_POINTER, KERNEL_SLOT, Entry(entry.frame, entry.flags.Or(GLOBAL)));
    assert m.S() == AddTopFlagsState(s, GLOBAL);
    AddTopFlagsQuiet(s, GLOBAL);
  }

  /** The first use of `with_inactive_p4` in `remap_kernel`. */
  method FillNewTables(m: Machine, t: Frame, page: VPage, sections: seq<Section>) returns (ok: bool)
    requires MayRedirect(m.S(), t, page) && t !in m.boot && !At(m.mem, t, KERNEL_SLOT).flags.present
    requires forall i :: 0 <= i < |sections| ==> SectionOk(sections[i])
    modifies m
    ensures ok ==> InactiveEdited(old(m.S()), m.S(), t, KernelOps(sections)) && MmuWalk(m.mem, m.cr3, page) == NoLeaf
    ensures ok ==> OnlyHandedOver(old(m.S()), m.S())
    ensures !ok ==> m.free == {}
  {
    ghost var s0, s1 := m.S(), m.S();
    ok, s1 := BeginRedirect(m, t, page);
    if !ok { return; }
    ghost var s2 := m.S();
    RedirectReady(s0, s1, t, page);
    EntryUntouched(s0, s1, t, page);
    ok := FillSections(m, sections);
    if !ok { return; }
    ghost var s3 := m.S();
    StillBorrowed(s0, s1, s2, s3, t, page, KernelOps(sections));
    EndRedirect(m, page);
    RoundTripHandsOver(s0, s1, s2, s3, m.S(), t, page);
    ChainMade(s0, s1, s2, s3, m.S(), t, page, KernelOps(sections));
  }

  lemma EntryUntouched(s0: State, s1: State, t: Frame, page: VPage)
    requires MayRedirect(s0, t, page) && LeafChanged(s0, s1, page, Entry(s0.cr3, TEMPORARY)) && s1.cr3 in s1.mem
    ensures At(RedirectState(s1, t).mem, t, KERNEL_SLOT) == At(s0.mem, t, KERNEL_SLOT)
  {
  }

  method FillSections(m: Machine, sections: seq<Section>) returns (ok: bool)
    requires m.Valid() && Target(m.S()) !in m.boot && !At(m.mem, Target(m.S()), KERNEL_SLOT).flags.present
    requires forall i :: 0 <= i < |sections| ==> SectionOk(sections[i])
    modifies m
    ensures ok ==> OpsDone(old(m.S()), m.S(), KernelOps(sections)) && OnlyHandedOver(old(m.S()), m.S())
    ensures !ok ==> m.free == {}
  {
    ghost var s := m.S();
    AddGlobal(m);
    ghost var s1 := m.S();
    KernelOpsAllowed(sections);
    GivenFramesRun(s1, Target(s1), KernelOps(sections), Nothing);
    ghost var done;
    ok, done := RunOps(m, KernelOps(sections));
    GivenFramesRun(s1, Target(s1), KernelOps(sections), done);
    if ok {
      HandedOverTrans(s, s1, m.S());
      OpsAfterNothing(s, s1, m.S(), done);
    }
  }

  // ---------------------------------------------------------------- remap_range

  /** The frame in the entry that the kernel's walk returns for a page. */
  function WalkedFrame(mem: Mem, cr3: Frame, p: VPage): Frame {
    var w := WalkPageTable(mem, cr3, p);
    if w.Mapped? then w.entry.frame else 0
  }

  /** The closure of `remap_range` for pages `lo` up to `hi`, on the frames read beforehand. */
  function RemapOps(mem: Mem, cr3: Frame, lo: nat, hi: nat, flags: EntryFlags): Closure
    decreases hi
  {
    if hi <= lo then Nothing
    else Then(RemapOps(mem, cr3, lo, hi - 1, flags), OpMapTo(hi - 1, WalkedFrame(mem, cr3, Indices(hi - 1)), flags))
  }

  /** Each page of the range gets the frame of its own entry in the active tables. */
  lemma RemapEffect(mem: Mem, cr3: Frame, lo: nat, hi: nat, flags: EntryFlags, leaf: Leaf, p: VPage)
    ensures Effect(RemapOps(mem, cr3, lo, hi, flags), leaf, p) ==
            if lo <= Number(p) < hi then Page4K(Entry(WalkedFrame(mem, cr3, p), flags.Or(PRESENT))) else leaf
  {
    NumberIndices(p);
    RemapEffectAt(mem, cr3, lo, hi, flags, leaf, p, Number(p));
  }

  lemma {:induction false} RemapEffectAt(mem: Mem, cr3: Frame, lo: nat, hi: nat, flags: EntryFlags, leaf: Leaf, p: VPage, n: nat)
    requires Indices(n) == p && forall k: nat, f: Frame :: Touches(OpMapTo(k, f, flags), p) <==> k == n
    ensures Effect(RemapOps(mem, cr3, lo, hi, flags), leaf, p) ==
            if lo <= n < hi then Page4K(Entry(WalkedFrame(mem, cr3, p), flags.Or(PRESENT))) else leaf
    decreases hi
  {
    if lo < hi {
      RemapEffectAt(mem, cr3, lo, hi - 1, flags, leaf, p, n);
      assert Touches(OpMapTo(hi - 1, WalkedFrame(mem, cr3, Indices(hi - 1)), flags), p) <==> hi - 1 == n;
    }
  }

  /** Pages that `remap_range` can deal with: ordinary and mapped, in the range of `PageTableEntry::set`. */
  predicate Remappable(mem: Mem, cr3: Frame, n: nat) {
    && CanonicalPage(n) && Ordinary(Indices(n)) && WalkPageTable(mem, cr3, Indices(n)).Mapped?
    && WalkPageTable(mem, cr3, Indices(n)).entry.frame < 0x10_0000_0000
  }

  ghost predicate RangeRemappable(mem: Mem, cr3: Frame, lo: nat, hi: nat) {
    forall n :: lo <= n < hi ==> Remappable(mem, cr3, n)
  }

  /** The loop of `remap_range` that reads the frames. */
  method ReadFrames(mem: Mem, cr3: Frame, lo: nat, hi: nat, flags: EntryFlags) returns (ops: Closure)
    requires lo <= hi && RangeRemappable(mem, cr3, lo, hi)
    ensures ops == RemapOps(mem, cr3, lo, hi, flags) && Allowed(ops) && GivenFramesOnly(ops)
  {
    ops := Nothing;
    for n := lo to hi
      invariant ops == RemapOps(mem, cr3, lo, n, flags) && Allowed(ops) && GivenFramesOnly(ops)
    {
      assert Remappable(mem, cr3, n);
      ops := Then(ops, OpMapTo(n, WalkPageTable(mem, cr3, Indices(n)).entry.frame, flags));
    }
  }

  /** `ActivePageMap::remap_range` over pages `lo` up to `hi`. */
  method RemapRange(m: Machine, t: Frame, page: VPage, lo: nat, hi: nat, flags: EntryFlags) returns (ok: bool)
    requires MayRedirect(m.S(), t, page) && t !in m.boot
    requires lo <= hi && RangeRemappable(m.mem, m.cr3, lo, hi)
    modifies m
    ensures ok ==> InactiveEdited(old(m.S()), m.S(), t, old(RemapOps(m.mem, m.cr3, lo, hi, flags)))
    ensures ok ==> OnlyHandedOver(old(m.S()), m.S())
    ensures ok ==> MmuWalk(m.mem, m.cr3, page) == NoLeaf
    ensures !ok ==> m.free == {}
  {
    ghost var s := m.S();
    var ops := ReadFrames(m.mem, m.cr3, lo, hi, flags);
    GivenFramesRun(s, t, ops, Nothing);
    ghost var done;
    ok, done := WithInactiveP4(m, t, page, ops);
    GivenFramesRun(s, t, ops, done);
  }

  /**
   `remap_range` gives a page of the new tables the very frame it translates to in the active ones
   if and only if the page is not inside a 2 MiB page, or is the first page of one.
   */
  lemma RemapKeepsFrame(s: State, p: VPage)
    requires Inv(s) && Target(s) == s.cr3 && WalkPageTable(s.mem, s.cr3, p).Mapped?
    ensures Some(WalkedFrame(s.mem, s.cr3, p)) == Translate(s.mem, s.cr3, p) <==>
            WalkPageTable(s.mem, s.cr3, p).size == Kib4 || p.p1 == 0
  {
    TargetRecursive(s);
    SoftWalkIsMmuWalk(s.mem, s.cr3, s.cr3, p);
  }

  /** It does lose the frame of the second page of memory as the boot code maps it. */
  lemma RemapLosesFrame()
    ensures var mem, cr3, p := Boot.ExampleMem(), Boot.EXAMPLE_LAYOUT.p4, VPage(0, 0, 0, 1);
            && Inv(Boot.BootState(mem, Boot.EXAMPLE_LAYOUT, {0, 1000, 1001})) && WalkPageTable(mem, cr3, p).Mapped?
            && Translate(mem, cr3, p) == Some(1) && WalkedFrame(mem, cr3, p) == 0
  {
    Boot.ExampleBoot({0, 1000, 1001});
    var mem, l, p := Boot.ExampleMem(), Boot.EXAMPLE_LAYOUT, VPage(0, 0, 0, 1);
    var s := Boot.BootState(mem, l, {0, 1000, 1001});
    assert At(mem, l.p4, 0) == Entry(l.p3, Boot.WRITABLE_TABLE) && At(mem, l.p3, 0) == Entry(l.p2, Boot.WRITABLE_TABLE);
    assert At(mem, l.p2, 0) == Entry(0, Boot.WRITABLE_TABLE.(huge := true));
    TargetRecursive(s);
    SoftWalkIsMmuWalk(mem, l.p4, l.p4, p);
  }

  // ---------------------------------------------------------------- the whole remap

  lemma MayRedirectEmpty(s: State, s': State, t: Frame, page: VPage)
    requires Inv(s) && Target(s) == s.cr3 && EmptySpaceMade(s, s', t) && Ordinary(page) && s.cr3 < 0x10_0000_0000
    requires SmallPages(s.mem, s.cr3, page) && MmuWalk(s.mem, s.cr3, page) == NoLeaf
    ensures MayRedirect(s', t, page) && t !in s'.boot && !At(s'.mem, t, KERNEL_SLOT).flags.present
  {
    assert IsRoot(s, s.cr3);
  }

  lemma MayRedirectAgain(s: State, s': State, t: Frame, page: VPage, ops: Closure)
    requires MayRedirect(s, t, page) && InactiveEdited(s, s', t, ops) && MmuWalk(s'.mem, s'.cr3, page) == NoLeaf
    ensures MayRedirect(s', t, page)
  {
    assert IsRoot(s, s.cr3);
  }

  /** The active space's own walks are untouched by edits of `t`, so `remap_range` reads what was there. */
  lemma EditKeepsWalked(s: State, s': State, t: Frame, page: VPage, ops: Closure, p: VPage)
    requires MayRedirect(s, t, page) && InactiveEdited(s, s', t, ops) && Ordinary(p)
    ensures WalkPageTable(s'.mem, s'.cr3, p) == WalkPageTable(s.mem, s.cr3, p)
  {
    assert IsRoot(s, s.cr3) && !SameTop(s.mem, s.cr3, t, p.p4);
    assert OpsView(s, s', t, ops, s.cr3, p);
    TargetRecursive(s);
    TargetRecursive(s');
    SoftWalkIsMmuWalk(s.mem, s.cr3, s.cr3, p);
    SoftWalkIsMmuWalk(s'.mem, s'.cr3, s'.cr3, p);
  }

  /** The kernel's walks of the active space are the same in both states. */
  ghost predicate SameSoftWalks(s: State, s': State) {
    forall p: VPage :: Ordinary(p) ==> WalkPageTable(s'.mem, s'.cr3, p) == WalkPageTable(s.mem, s.cr3, p)
  }

  lemma SameSoftWalksRange(s: State, s': State, lo: nat, hi: nat)
    requires SameSoftWalks(s, s') && RangeRemappable(s.mem, s.cr3, lo, hi)
    ensures RangeRemappable(s'.mem, s'.cr3, lo, hi)
  {
    forall n | lo <= n < hi ensures Remappable(s'.mem, s'.cr3, n) {
      assert Remappable(s.mem, s.cr3, n);
    }
  }

  lemma EmptySpaceSoftWalks(s: State, s': State, t: Frame)
    requires Inv(s) && Target(s) == s.cr3 && EmptySpaceMade(s, s', t)
    ensures SameSoftWalks(s, s')
  {
    assert IsRoot(s, s.cr3);
    TargetRecursive(s);
    TargetRecursive(s');
    forall p: VPage | Ordinary(p) ensures WalkPageTable(s'.mem, s'.cr3, p) == WalkPageTable(s.mem, s.cr3, p) {
      SoftWalkIsMmuWalk(s.mem, s.cr3, s.cr3, p);
      SoftWalkIsMmuWalk(s'.mem, s'.cr3, s'.cr3, p);
    }
  }

  lemma EditSoftWalks(s: State, s': State, t: Frame, page: VPage, ops: Closure)
    requires MayRedirect(s, t, page) && InactiveEdited(s, s', t, ops)
    ensures SameSoftWalks(s, s')
  {
    forall p: VPage | Ordinary(p) ensures WalkPageTable(s'.mem, s'.cr3, p) == WalkPageTable(s.mem, s.cr3, p) {
      EditKeepsWalked(s, s', t, page, ops, p);
    }
  }

  /** What the remapped kernel's tables map: the two copied ranges, the VGA buffer, and the sections. */
  ghost function KernelView(s: State, sections: seq<Section>, bLo: nat, bHi: nat, hLo: nat, hHi: nat, p: VPage): Leaf
    requires forall i :: 0 <= i < |sections| ==> SectionOk(sections[i])
  {
    if hLo <= Number(p) < hHi || bLo <= Number(p) < bHi then
      Page4K(Entry(WalkedFrame(s.mem, s.cr3, p), HEAP_FLAGS.Or(PRESENT)))
    else if Number(p) == VGA_PAGE then Page4K(Entry(VGA_FRAME, VGA_FLAGS.Or(PRESENT)))
    else Effect(SectionOps(sections, |sections|), NoLeaf, p)
  }

  lemma RemapViews(s0: State, s1: State, s2: State, s3: State, s4: State, t: Frame, sections: seq<Section>,
                   bLo: nat, bHi: nat, hLo: nat, hHi: nat, p: VPage)
    requires forall i :: 0 <= i < |sections| ==> SectionOk(sections[i])
    requires IsRoot(s1, t) && IsRoot(s2, t) && IsRoot(s3, t) && EmptyRoot(s1.mem, t) && Ordinary(p)
    requires SameSoftWalks(s0, s1) && SameSoftWalks(s1, s2) && SameSoftWalks(s2, s3)
    requires OpsViews(s1, s2, t, KernelOps(sections))
    requires OpsViews(s2, s3, t, RemapOps(s2.mem, s2.cr3, bLo, bHi, HEAP_FLAGS))
    requires OpsViews(s3, s4, t, RemapOps(s3.mem, s3.cr3, hLo, hHi, HEAP_FLAGS))
    ensures MmuWalk(s4.mem, t, p) == KernelView(s0, sections, bLo, bHi, hLo, hHi, p)
  {
    assert OpsView(s1, s2, t, KernelOps(sections), t, p);
    assert OpsView(s2, s3, t, RemapOps(s2.mem, s2.cr3, bLo, bHi, HEAP_FLAGS), t, p);
    assert OpsView(s3, s4, t, RemapOps(s3.mem, s3.cr3, hLo, hHi, HEAP_FLAGS), t, p);
    RemapEffect(s2.mem, s2.cr3, bLo, bHi, HEAP_FLAGS, MmuWalk(s2.mem, t, p), p);
    RemapEffect(s3.mem, s3.cr3, hLo, hHi, HEAP_FLAGS, MmuWalk(s3.mem, t, p), p);
  }

  predicate Copied(bLo: nat, bHi: nat, hLo: nat, hHi: nat, n: nat) {
    hLo <= n < hHi || bLo <= n < bHi
  }

  /** A page of a section, in hardware: as its headers say, global, and not for ring 3. */
  ghost predicate SectionPage(s: State, section: Section, p: VPage) {
    && Allows(s.mem, s.cr3, p, false, section.writable, section.executable)
    && MmuWalk(s.mem, s.cr3, p).entry.flags.global
    && MmuWalk(s.mem, s.cr3, p).entry.frame == Number(p) - KERNEL_PAGE
  }

  /**
   What the hardware allows on a page of the remapped kernel. The copied ranges are data, the VGA
   buffer is data for everyone, and a page that sections reach is as the last of them says.
   */
  ghost predicate KernelPageOk(s: State, sections: seq<Section>, bLo: nat, bHi: nat, hLo: nat, hHi: nat, p: VPage) {
    if Copied(bLo, bHi, hLo, hHi, Number(p)) then Allows(s.mem, s.cr3, p, false, true, false)
    else if Number(p) == VGA_PAGE then Allows(s.mem, s.cr3, p, true, true, false)
    else
      && (forall i: nat :: LastToReach(sections, |sections|, i, Number(p)) ==> SectionPage(s, sections[i], p))
      && ((forall i :: 0 <= i < |sections| ==> !Reaches(sections[i], Number(p))) ==> MmuWalk(s.mem, s.cr3, p) == NoLeaf)
  }

  lemma KernelPageRights(s0: State, s: State, sections: seq<Section>, bLo: nat, bHi: nat, hLo: nat, hHi: nat, p: VPage)
    requires forall i :: 0 <= i < |sections| ==> SectionOk(sections[i])
    requires TablesInv(s) && IsRoot(s, s.cr3) && s.cr3 !in s.boot && Ordinary(p)
    requires MmuWalk(s.mem, s.cr3, p) == KernelView(s0, sections, bLo, bHi, hLo, hHi, p)
    ensures KernelPageOk(s, sections, bLo, bHi, hLo, hHi, p)
  {
    if MmuWalk(s.mem, s.cr3, p).Page4K? { LeafGrants(s, s.cr3, p); }
    if !Copied(bLo, bHi, hLo, hHi, Number(p)) && Number(p) != VGA_PAGE {
      forall i: nat | LastToReach(sections, |sections|, i, Number(p)) ensures SectionPage(s, sections[i], p) {
        SectionRights(sections, |sections|, i, p, NoLeaf);
      }
      if forall i :: 0 <= i < |sections| ==> !Reaches(sections[i], Number(p)) {
        SectionGaps(sections, |sections|, p);
      }
    }
  }

  /** Sections that ascend share no page, so every page of each is as that section says. */
  lemma OwnPageRights(s: State, sections: seq<Section>, bLo: nat, bHi: nat, hLo: nat, hHi: nat, i: nat, p: VPage)
    requires forall i :: 0 <= i < |sections| ==> SectionOk(sections[i])
    requires Ascending(sections) && i < |sections| && InSection(sections[i], Number(p))
    requires KernelPageOk(s, sections, bLo, bHi, hLo, hHi, p)
    requires !Copied(bLo, bHi, hLo, hHi, Number(p)) && Number(p) != VGA_PAGE
    ensures SectionPage(s, sections[i], p)
  {
    OwnSectionLast(sections, i, Number(p));
  }

  /** The tables are filled but not yet in use. */
  ghost predicate TablesFilled(s0: State, s: State, t: Frame, sections: seq<Section>, bLo: nat, bHi: nat, hLo: nat, hHi: nat)
    requires forall i :: 0 <= i < |sections| ==> SectionOk(sections[i])
  {
    && Inv(s) && Target(s) == s.cr3 && IsRoot(s, t) && t !in s.boot
    && (forall p: VPage :: Ordinary(p) ==> MmuWalk(s.mem, t, p) == KernelView(s0, sections, bLo, bHi, hLo, hHi, p))
  }

  method FillTables(m: Machine, page: VPage, sections: seq<Section>, bLo: nat, bHi: nat, hLo: nat, hHi: nat)
    returns (ok: bool, t: Frame)
    requires m.Valid() && Target(m.S()) == m.cr3 && Ordinary(page) && m.cr3 < 0x10_0000_0000
    requires SmallPages(m.mem, m.cr3, page) && MmuWalk(m.mem, m.cr3, page) == NoLeaf
    requires forall i :: 0 <= i < |sections| ==> SectionOk(sections[i])
    requires bLo <= bHi && RangeRemappable(m.mem, m.cr3, bLo, bHi)
    requires hLo <= hHi && RangeRemappable(m.mem, m.cr3, hLo, hHi)
    modifies m
    ensures ok ==> TablesFilled(old(m.S()), m.S(), t, sections, bLo, bHi, hLo, hHi) && OnlyHandedOver(old(m.S()), m.S())
    ensures !ok ==> m.free == {}
  {
    ghost var s0 := m.S();
    ok, t := NewInactive(m, page);
    if !ok { return; }
    ghost var s1 := m.S();
    MayRedirectEmpty(s0, s1, t, page);
    EmptySpaceSoftWalks(s0, s1, t);
    ok := FillNewTables(m, t, page, sections);
    if !ok { return; }
    ghost var s2 := m.S();
    MayRedirectAgain(s1, s2, t, page, KernelOps(sections));
    EditSoftWalks(s1, s2, t, page, KernelOps(sections));
    ok := CopyRanges(m, t, page, bLo, bHi, hLo, hHi, s0, s1, sections);
    if ok {
      HandedOverTrans(s1, s2, m.S());
      HandedOverTrans(s0, s1, m.S());
    }
  }

  /** The two calls of `remap_range`, for the bootstrap heap and the heap's tree. */
  method CopyRanges(m: Machine, t: Frame, page: VPage, bLo: nat, bHi: nat, hLo: nat, hHi: nat,
                    ghost s0: State, ghost s1: State, ghost sections: seq<Section>)
    returns (ok: bool)
    requires MayRedirect(m.S(), t, page) && t !in m.boot
    requires forall i :: 0 <= i < |sections| ==> SectionOk(sections[i])
    requires bLo <= bHi && RangeRemappable(s0.mem, s0.cr3, bLo, bHi)
    requires hLo <= hHi && RangeRemappable(s0.mem, s0.cr3, hLo, hHi)
    requires SameSoftWalks(s0, s1) && SameSoftWalks(s1, m.S())
    requires IsRoot(s1, t) && EmptyRoot(s1.mem, t) && OpsViews(s1, m.S(), t, KernelOps(sections))
    modifies m
    ensures ok ==> TablesFilled(s0, m.S(), t, sections, bLo, bHi, hLo, hHi) && OnlyHandedOver(old(m.S()), m.S())
    ensures !ok ==> m.free == {}
  {
    ghost var s2 := m.S();
    ghost var opsB := RemapOps(m.mem, m.cr3, bLo, bHi, HEAP_FLAGS);
    SameSoftWalksRange(s0, s1, bLo, bHi);
    SameSoftWalksRange(s1, s2, bLo, bHi);
    ok := RemapRange(m, t, page, bLo, bHi, HEAP_FLAGS);
    if !ok { return; }
    ghost var s3 := m.S();
    MayRedirectAgain(s2, s3, t, page, opsB);
    EditSoftWalks(s2, s3, t, page, opsB);
    SameSoftWalksRange(s0, s1, hLo, hHi);
    SameSoftWalksRange(s1, s2, hLo, hHi);
    SameSoftWalksRange(s2, s3, hLo, hHi);
    ok := RemapRange(m, t, page, hLo, hHi, HEAP_FLAGS);
    if !ok { return; }
    HandedOverTrans(s2, s3, m.S());
    forall p: VPage | Ordinary(p) ensures MmuWalk(m.mem, t, p) == KernelView(s0, sections, bLo, bHi, hLo, hHi, p) {
      RemapViews(s0, s1, s2, s3, m.S(), t, sections, bLo, bHi, hLo, hHi, p);
    }
  }

  /**
   `remap_kernel`, given its temporary page: pages `bLo` up to `bHi` are the bootstrap heap's and
   `hLo` up to `hHi` the heap tree's. Afterwards the new tables are the only address space. Entry 511
   is linked on the way, by the VGA page at the latest, and so has lost the GLOBAL flag it was given.
   */
  method RemapKernel(m: Machine, page: VPage, sections: seq<Section>, bLo: nat, bHi: nat, hLo: nat, hHi: nat)
    returns (ok: bool)
    requires m.Valid() && Target(m.S()) == m.cr3 && Ordinary(page) && m.cr3 < 0x10_0000_0000
    requires SmallPages(m.mem, m.cr3, page) && MmuWalk(m.mem, m.cr3, page) == NoLeaf
    requires forall i :: 0 <= i < |sections| ==> SectionOk(sections[i])
    requires bLo <= bHi && RangeRemappable(m.mem, m.cr3, bLo, bHi)
    requires hLo <= hHi && RangeRemappable(m.mem, m.cr3, hLo, hHi)
    modifies m
    ensures ok ==>
              && m.Valid() && Target(m.S()) == m.cr3 && m.cr3 !in m.boot && m.spaces == {m.cr3}
              && (forall p: VPage :: Ordinary(p) ==>
                    MmuWalk(m.mem, m.cr3, p) == KernelView(old(m.S()), sections, bLo, bHi, hLo, hHi, p))
              && At(m.mem, m.cr3, KERNEL_SLOT).flags == LINK
    ensures ok ==> OnlyHandedOver(old(m.S()), m.S())
    ensures ok ==> forall p: VPage :: Ordinary(p) ==> KernelPageOk(m.S(), sections, bLo, bHi, hLo, hHi, p)
    ensures !ok ==> m.free == {}
  {
    ghost var s0 := m.S();
    var t;
    ok, t := FillTables(m, page, sections, bLo, bHi, hLo, hHi);
    if !ok { return; }
    EnterKernel(m, t, sections, bLo, bHi, hLo, hHi, s0);
    assert IsRoot(m.S(), m.cr3);
    forall p: VPage | Ordinary(p) ensures KernelPageOk(m.S(), sections, bLo, bHi, hLo, hHi, p) {
      KernelPageRights(s0, m.S(), sections, bLo, bHi, hLo, hHi, p);
    }
  }

  /** The switch to the filled tables, which become the one address space. */
  method EnterKernel(m: Machine, t: Frame, ghost sections: seq<Section>, ghost bLo: nat, ghost bHi: nat,
                     ghost hLo: nat, ghost hHi: nat, ghost s0: State)
    requires forall i :: 0 <= i < |sections| ==> SectionOk(sections[i])
    requires TablesFilled(s0, m.S(), t, sections, bLo, bHi, hLo, hHi)
    modifies m`cr3, m`spaces
    ensures m.Valid() && Target(m.S()) == m.cr3 == t && t !in m.boot && m.spaces == {t}
    ensures m.mem == old(m.mem) && At(m.mem, t, KERNEL_SLOT).flags == LINK
  {
    var previous := SwitchTo(m, t);
    ghost var s := m.S();
    m.spaces := {t};
    KernelEntryPresent(s0, s, t, sections, bLo, bHi, hLo, hHi);
    assert Upper(s, t, KERNEL_SLOT);
    PublishKeeps(s, t);
  }

  lemma KernelEntryPresent(s0: State, s: State, t: Frame, sections: seq<Section>, bLo: nat, bHi: nat, hLo: nat, hHi: nat)
    requires forall i :: 0 <= i < |sections| ==> SectionOk(sections[i])
    requires forall p: VPage :: Ordinary(p) ==> MmuWalk(s.mem, t, p) == KernelView(s0, sections, bLo, bHi, hLo, hHi, p)
    ensures IsTable(At(s.mem, t, KERNEL_SLOT))
  {
    var p := Indices(VGA_PAGE);
    KernelPages(VGA_PAGE);
    assert MmuWalk(s.mem, t, p).Page4K?;
  }
}
