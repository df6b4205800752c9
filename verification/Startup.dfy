/**
 From boot to the first process: what the remap leaves of the heap, and that the states which the
 rest of the kernel asks for exist.
 */
module Startup {
  import opened Entries
  import opened Pages
  import opened Mmu
  import opened Spaces
  import opened Views
  import opened Changes
  import opened Mapper
  import opened RangeMapping
  import opened AddressSpaces
  import opened Remap
  import opened Buddy
  import opened HeapSpec
  import opened KernelHeap
  import opened HeapObjects
  import Boot
  import SystemCalls

  // ---------------------------------------------------------------- the heap over the remap

  /** The pages `remap_kernel` copies: the bootstrap heap's and the heap tree's. */
  datatype Ranges = Ranges(bLo: nat, bHi: nat, hLo: nat, hHi: nat) {
    predicate Has(p: VPage) {
      bLo <= Number(p) < bHi || hLo <= Number(p) < hHi
    }
  }

  /** What `RemapKernel` promises of the tables. */
  ghost predicate RemapDone(s0: State, s: State, sections: seq<Section>, ranges: Ranges)
    requires forall i :: 0 <= i < |sections| ==> SectionOk(sections[i])
  {
    forall p: VPage :: Ordinary(p) ==>
      MmuWalk(s.mem, s.cr3, p) == KernelView(s0, sections, ranges.bLo, ranges.bHi, ranges.hLo, ranges.hHi, p)
  }

  lemma HeapBelowKernel(p: VPage)
    requires IsHeap(p)
    ensures Ordinary(p) && Number(p) < KERNEL_PAGE
  {
  }

  /** After the remap a heap page is mapped if and only if it was copied. */
  lemma HeapPageAfterRemap(s0: State, s: State, sections: seq<Section>, ranges: Ranges, p: VPage)
    requires forall i :: 0 <= i < |sections| ==> SectionOk(sections[i])
    requires RemapDone(s0, s, sections, ranges) && IsHeap(p)
    ensures MmuWalk(s.mem, s.cr3, p) != NoLeaf <==> ranges.Has(p)
  {
    HeapBelowKernel(p);
    forall i | 0 <= i < |sections| ensures !InSection(sections[i], Number(p)) {
      assert SectionOk(sections[i]);
      assert sections[i].start / 4096 >= KERNEL_PAGE;
    }
    SectionGaps(sections, |sections|, p);
  }

  /** So the remap leaves an empty heap exactly if it copies no heap page. */
  lemma HeapEmptyIff(s0: State, s: State, sections: seq<Section>, ranges: Ranges)
    requires forall i :: 0 <= i < |sections| ==> SectionOk(sections[i])
    requires RemapDone(s0, s, sections, ranges)
    ensures (forall p: VPage :: IsHeap(p) ==> MmuWalk(s.mem, s.cr3, p) == NoLeaf) <==>
            (forall p: VPage :: IsHeap(p) ==> !ranges.Has(p))
  {
    forall p: VPage | IsHeap(p) ensures MmuWalk(s.mem, s.cr3, p) != NoLeaf <==> ranges.Has(p) {
      HeapPageAfterRemap(s0, s, sections, ranges, p);
    }
  }

  /** A page of a block that was live before: mapped then, and lost unless it was copied. */
  lemma LiveBlockLostIff(s0: State, s: State, sections: seq<Section>, ranges: Ranges, live: Live, lent: set<nat>, b: nat,
                         p: VPage)
    requires forall i :: 0 <= i < |sections| ==> SectionOk(sections[i])
    requires RemapDone(s0, s, sections, ranges) && HeapInv(s0, live, lent)
    requires b in live && IsHeap(p) && HeapIndex(p) !in lent && Prefix(b, live[b], HeapIndex(p))
    ensures MmuWalk(s0.mem, Target(s0), p).Page4K?
    ensures MmuWalk(s.mem, s.cr3, p) == NoLeaf <==> !ranges.Has(p)
  {
    assert BlockPageOk(s0, live, b, p);
    HeapPageAfterRemap(s0, s, sections, ranges, p);
  }

  /** Under the boot tables no heap page is mapped, so any can be the temporary page of the remap. */
  lemma BootHeapUnmapped(mem: Mem, l: Boot.Layout, p: VPage)
    requires Boot.BootTables(mem, l) && IsHeap(p)
    ensures Ordinary(p) && MmuWalk(mem, l.p4, p) == NoLeaf && SmallPages(mem, l.p4, p)
  {
  }

  lemma ReadyAtBoot(s: State, l: Boot.Layout, free: set<Frame>)
    requires Boot.Distinct(l) && Boot.BootTables(s.mem, l) && forall f :: Boot.IsBootTable(l, f) ==> f in s.mem
    requires forall f :: f in free ==> f in s.mem && f < 0x400_0000 && !Boot.IsBootTable(l, f)
    requires s == Boot.BootState(s.mem, l, free)
    ensures Inv(s) && Target(s) == s.cr3 == l.p4
    ensures Ordinary(HeapPage(0)) && MmuWalk(s.mem, s.cr3, HeapPage(0)) == NoLeaf && SmallPages(s.mem, s.cr3, HeapPage(0))
  {
    Boot.BootInv(s.mem, l, free);
    HeapPageAddress(0);
    BootHeapUnmapped(s.mem, l, HeapPage(0));
  }

  /** The remap, and an empty heap after it. */
  method RemapThenHeap(m: Machine, page: VPage, sections: seq<Section>, ranges: Ranges) returns (h: Option<Heap>)
    requires m.Valid() && Target(m.S()) == m.cr3 && Ordinary(page) && m.cr3 < 0x10_0000_0000
    requires SmallPages(m.mem, m.cr3, page) && MmuWalk(m.mem, m.cr3, page) == NoLeaf
    requires forall i :: 0 <= i < |sections| ==> SectionOk(sections[i])
    requires ranges.bLo <= ranges.bHi && RangeRemappable(m.mem, m.cr3, ranges.bLo, ranges.bHi)
    requires ranges.hLo <= ranges.hHi && RangeRemappable(m.mem, m.cr3, ranges.hLo, ranges.hHi)
    requires forall p: VPage :: IsHeap(p) ==> !ranges.Has(p)
    modifies m
    ensures h.Some? ==> h.value.m == m && h.value.Valid() && h.value.live == map[] && m.spaces == {m.cr3}
    ensures h.None? ==> m.free == {}
  {
    ghost var s0 := m.S();
    h := None;
    var ok := RemapKernel(m, page, sections, ranges.bLo, ranges.bHi, ranges.hLo, ranges.hHi);
    if ok {
      HeapEmptyIff(s0, m.S(), sections, ranges);
      Pow2Values();
      var tree := new Tree(MAX_ORDER, Block(0, MAX_ORDER));
      var heap := new Heap(m, tree);
      h := Some(heap);
    }
  }

  /** The same from the boot tables on, with the first heap page for the temporary page. */
  method StartFromBoot(m: Machine, ghost l: Boot.Layout, ghost free: set<Frame>, sections: seq<Section>, ranges: Ranges)
    returns (h: Option<Heap>)
    requires Boot.Distinct(l) && Boot.BootTables(m.mem, l) && forall f :: Boot.IsBootTable(l, f) ==> f in m.mem
    requires forall f :: f in free ==> f in m.mem && f < 0x400_0000 && !Boot.IsBootTable(l, f)
    requires m.S() == Boot.BootState(m.mem, l, free) && l.p4 < 0x10_0000_0000
    requires forall i :: 0 <= i < |sections| ==> SectionOk(sections[i])
    requires ranges.bLo <= ranges.bHi && RangeRemappable(m.mem, m.cr3, ranges.bLo, ranges.bHi)
    requires ranges.hLo <= ranges.hHi && RangeRemappable(m.mem, m.cr3, ranges.hLo, ranges.hHi)
    requires forall p: VPage :: IsHeap(p) ==> !ranges.Has(p)
    modifies m
    ensures h.Some? ==> h.value.m == m && h.value.Valid() && h.value.live == map[] && m.spaces == {m.cr3}
    ensures h.None? ==> m.free == {}
  {
    ReadyAtBoot(m.S(), l, free);
    h := RemapThenHeap(m, HeapPage(0), sections, ranges);
  }

  // ---------------------------------------------------------------- there are such states

  /** Frame `f` becomes a P4 with frame `g` behind its entry 511, and the one address space. */
  function EntrySteps(f: Frame, g: Frame): seq<Step> {
    [Take(f)] + ([Step.Fill(f, RootContents(f))] + ([MakeRoot(f)] +
    ([Step.Link(f, KERNEL_SLOT, g)] + ([Publish(f)] + [Switch(f)]))))
  }

  lemma RunsFirst(s: State, step: Step, rest: seq<Step>, s': State)
    requires Inv(s) && Enabled(s, step) && Runs(Apply(s, step), rest, s')
    ensures Runs(s, [step] + rest, s')
  {
    assert ([step] + rest)[0] == step && ([step] + rest)[1..] == rest;
  }

  /** The P4 as `InactivePageMap::new` leaves it. */
  lemma RootRun(s: State, f: Frame, rest: seq<Step>, s3: State, s': State)
    requires Inv(s) && f in s.free && s3 == MakeRootState(FillState(TakeState(s, f), f, RootContents(f)), f)
    requires Runs(s3, rest, s')
    ensures Runs(s, [Take(f)] + ([Step.Fill(f, RootContents(f))] + ([MakeRoot(f)] + rest)), s')
  {
    StepKeeps(s, Take(f));
    FilledRun(TakeState(s, f), f, rest, s3, s');
    RunsFirst(s, Take(f), [Step.Fill(f, RootContents(f))] + ([MakeRoot(f)] + rest), s');
  }

  lemma FilledRun(s1: State, f: Frame, rest: seq<Step>, s3: State, s': State)
    requires Inv(s1) && f in s1.held && s3 == MakeRootState(FillState(s1, f, RootContents(f)), f) && Runs(s3, rest, s')
    ensures Runs(s1, [Step.Fill(f, RootContents(f))] + ([MakeRoot(f)] + rest), s')
  {
    var s2 := FillState(s1, f, RootContents(f));
    StepKeeps(s1, Step.Fill(f, RootContents(f)));
    assert EmptyRoot(s2.mem, f);
    RunsFirst(s2, MakeRoot(f), rest, s');
    RunsFirst(s1, Step.Fill(f, RootContents(f)), [MakeRoot(f)] + rest, s');
  }

  lemma RootMade(s: State, f: Frame, s3: State)
    requires Inv(s) && f in s.free && s3 == MakeRootState(FillState(TakeState(s, f), f, RootContents(f)), f)
    ensures Inv(s3) && EmptyRoot(s3.mem, f) && IsRoot(s3, f) && f !in s3.boot && Target(s3) == Target(s)
  {
    TakeKeeps(s, f);
    MakeRootEffect(TakeState(s, f), f);
  }

  /** An empty kernel half, in use: every page of the space is unmapped. */
  ghost predicate EmptyKernel(s: State) {
    && Inv(s) && Target(s) == s.cr3 && s.cr3 !in s.boot && s.spaces == {s.cr3}
    && (forall p: VPage :: Ordinary(p) ==> MmuWalk(s.mem, s.cr3, p) == NoLeaf)
  }

  lemma LinkedEmpty(s3: State, f: Frame, g: Frame)
    requires Inv(s3) && EmptyRoot(s3.mem, f) && IsRoot(s3, f) && f !in s3.boot && g in s3.free && Target(s3) == s3.cr3
    ensures var s4 := LinkState(s3, f, KERNEL_SLOT, g);
            && Enabled(s3, Step.Link(f, KERNEL_SLOT, g)) && Inv(s4) && IsRoot(s4, f) && Target(s4) == s4.cr3
            && IsTable(At(s4.mem, f, KERNEL_SLOT)) && Enabled(s4, Publish(f))
            && (forall p: VPage :: Ordinary(p) ==> MmuWalk(s4.mem, f, p) == NoLeaf)
  {
    assert IsRoot(s3, s3.cr3);
    StepKeeps(s3, Step.Link(f, KERNEL_SLOT, g));
  }

  lemma EnteredKernel(s4: State, f: Frame) returns (s': State)
    requires Inv(s4) && IsRoot(s4, f) && Target(s4) == s4.cr3 && f !in s4.boot && Enabled(s4, Publish(f))
    requires forall p: VPage :: Ordinary(p) ==> MmuWalk(s4.mem, f, p) == NoLeaf
    ensures Runs(s4, [Publish(f)] + [Switch(f)], s') && EmptyKernel(s') && s'.cr3 == f && s'.free == s4.free
  {
    var s5 := State(s4.mem, s4.cr3, s4.free, s4.held, s4.shape, {f}, s4.boot, s4.pool);
    StepKeeps(s4, Publish(f));
    s' := OnCr3(s5, f);
    StepKeeps(s5, Switch(f));
    SwitchTarget(s5, f);
    assert Runs(s', [], s');
    RunsFirst(s5, Switch(f), [], s');
    assert [Switch(f)] + [] == [Switch(f)];
    RunsFirst(s4, Publish(f), [Switch(f)], s');
  }

  /** From any state with two free frames there is a run to one in which processes can run. */
  lemma EmptyKernelReachable(s: State, f: Frame, g: Frame) returns (s': State)
    requires Inv(s) && Target(s) == s.cr3 && f in s.free && g in s.free && f != g
    ensures Runs(s, EntrySteps(f, g), s') && EmptyKernel(s') && s'.free == s.free - {f, g}
  {
    var s3 := MakeRootState(FillState(TakeState(s, f), f, RootContents(f)), f);
    RootMade(s, f, s3);
    LinkedEmpty(s3, f, g);
    var s4 := LinkState(s3, f, KERNEL_SLOT, g);
    s' := EnteredKernel(s4, f);
    RunsFirst(s3, Step.Link(f, KERNEL_SLOT, g), [Publish(f)] + [Switch(f)], s');
    RootRun(s, f, [Step.Link(f, KERNEL_SLOT, g)] + ([Publish(f)] + [Switch(f)]), s3, s');
  }

  /**
   From the boot tables in a memory of 1024 frames: a state as the system calls, the heap and
   `spawn_from_elf` ask for, with four frames left, in which nothing is mapped yet.
   */
  lemma ExampleKernel() returns (s: State)
    ensures Runs(Boot.BootState(Boot.ExampleMem(), Boot.EXAMPLE_LAYOUT, Boot.EXAMPLE_FREE), EntrySteps(1000, 1001), s)
    ensures EmptyKernel(s) && |s.free| == 4
  {
    ExampleReady();
    s := EmptyKernelReachable(Boot.BootState(Boot.ExampleMem(), Boot.EXAMPLE_LAYOUT, Boot.EXAMPLE_FREE), 1000, 1001);
  }

  lemma ExampleReady()
    ensures var s := Boot.BootState(Boot.ExampleMem(), Boot.EXAMPLE_LAYOUT, Boot.EXAMPLE_FREE);
            Inv(s) && Target(s) == s.cr3 && 1000 in s.free && 1001 in s.free && |s.free - {1000, 1001}| == 4
  {
    Boot.ExampleBoot(Boot.EXAMPLE_FREE);
    BootTarget(Boot.ExampleMem(), Boot.EXAMPLE_LAYOUT, Boot.EXAMPLE_FREE);
    FourLeft();
  }

  lemma BootTarget(mem: Mem, l: Boot.Layout, free: set<Frame>)
    requires Boot.BootTables(mem, l)
    ensures Target(Boot.BootState(mem, l, free)) == l.p4
  {
  }

  lemma FourLeft()
    ensures 1000 in Boot.EXAMPLE_FREE && 1001 in Boot.EXAMPLE_FREE && |Boot.EXAMPLE_FREE - {1000, 1001}| == 4
  {
    assert Boot.EXAMPLE_FREE - {1000, 1001} == {1002, 1003, 1004, 1005};
  }

  /** There a request for a read-only page makes the kernel fault, and one for a writable page is granted. */
  lemma FirstRequests(s: State)
    requires EmptyKernel(s) && |s.free| >= 4
    ensures SystemCalls.Answer(s, 4096, 1, false) == SystemCalls.KernelFault
    ensures SystemCalls.Answer(s, 4096, 1, true) == SystemCalls.Success
  {
    SystemCalls.SecondPage();
    SystemCalls.RequestsAccepted(4096, 1);
    forall p: VPage | Number(p) == 1 ensures MmuWalk(s.mem, s.cr3, p) == NoLeaf { NumberIndices(p); }
    MissingCount(s.mem, s.cr3, Indices(1));
    assert MissingPaths(s.mem, s.cr3, 1, 2) == MissingPaths(s.mem, s.cr3, 1, 1) + MissingOf(s.mem, s.cr3, Indices(1));
    assert MissingPaths(s.mem, s.cr3, 1, 2) == MissingOf(s.mem, s.cr3, Indices(1));
  }
}
