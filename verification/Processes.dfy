/**
 Processes on top of the heap: their tables are made through a temporary page that is a heap page,
 and the heap outlives every change of the user half and every switch.
 */
module Processes {
  import opened Pages
  import opened Mmu
  import opened Spaces
  import opened Views
  import opened Changes
  import opened Mapper
  import opened RangeMapping
  import opened AddressSpaces
  import opened Buddy
  import opened HeapSpec
  import opened KernelHeap
  import opened HeapObjects
  import opened TemporaryPages
  import opened Spawning

  // ---------------------------------------------------------------- what the heap outlives

  /** The heap's pages translate as before, and those that owned their frame still do. */
  ghost predicate HeapSame(s: State, s': State) {
    && (forall p: VPage :: IsHeap(p) ==> MmuWalk(s'.mem, s'.cr3, p) == MmuWalk(s.mem, s.cr3, p))
    && (forall p: VPage {:trigger SelfOwned(s', p)} :: IsHeap(p) && SelfOwned(s, p) ==> SelfOwned(s', p))
  }

  lemma HeapOutlives(s: State, s': State, live: Live, lent: set<nat>, free: set<nat>)
    requires HeapOk(s, live, lent, free) && HeapSame(s, s')
    requires Inv(s') && Target(s') == s'.cr3 && s'.cr3 !in s'.boot
    ensures HeapOk(s', live, lent, free)
  {
    forall p: VPage | IsHeap(p) && HeapIndex(p) !in lent ensures PageOk(s', live, p) {
      assert PageOk(s, live, p);
    }
    forall p: VPage, b | IsHeap(p) && HeapIndex(p) !in lent && b in live ensures BlockPageOk(s', live, b, p) {
      assert BlockPageOk(s, live, b, p);
    }
  }

  /** Processes share the kernel half, so the heap is the same in every one. */
  lemma HeapOutlivesSwitch(s: State, t: Frame, live: Live, lent: set<nat>, free: set<nat>)
    requires HeapOk(s, live, lent, free) && s.cr3 in s.spaces && t in s.spaces
    ensures HeapOk(OnCr3(s, t), live, lent, free)
  {
    var s' := OnCr3(s, t);
    SwitchKeeps(s, t);
    SwitchTarget(s, t);
    forall p: VPage | IsHeap(p)
      ensures MmuWalk(s.mem, t, p) == MmuWalk(s.mem, s.cr3, p) && (SelfOwned(s, p) ==> SelfOwned(s', p))
    {
      assert SameTop(s.mem, s.cr3, t, p.p4);
      SameTopSameWalk(s.mem, s.cr3, t, p);
      SameTopSameTables(s.mem, s.cr3, t, P1Path(p));
    }
    HeapOutlives(s, s', live, lent, free);
  }

  /** Nothing a process does to its own half reaches the heap. */
  lemma HeapOutlivesUser(s: State, s': State, live: Live, lent: set<nat>, free: set<nat>)
    requires HeapOk(s, live, lent, free) && UserOnly(s, s')
    ensures HeapOk(s', live, lent, free)
  {
    assert IsRoot(s, Target(s));
    HeapOutlives(s, s', live, lent, free);
  }

  // ---------------------------------------------------------------- a process's tables

  /** The temporary page is idle again after `new_process_page_tables` used it. */
  lemma StillIdle(s: State, s': State, live: Live, lent: set<nat>, free: set<nat>, b: nat, tp: TemporaryPage, f: Frame)
    requires Idle(s, live, lent, free, b, tp) && SpaceCreated(s, s', f)
    requires OthersOwn(s, s', tp.page) && s.held <= s'.held && TableAt(s'.mem, s'.cr3, P1Path(tp.page)).Some?
    ensures Idle(s', live, lent, free, b, tp)
  {
    assert IsRoot(s, s.cr3);
    forall p: VPage | IsHeap(p) && SelfOwned(s, p) ensures SelfOwned(s', p) {
      assert p != tp.page;
    }
    HeapOutlives(s, s', live, lent, free);
  }

  /** Creating the tables through a temporary page that comes and goes creates just the tables. */
  lemma CreatedThroughPage(s0: State, s1: State, s2: State, s3: State, tp: TemporaryPage, f: Frame)
    requires IsRoot(s0, s0.cr3) && OnlyTouched(s0, s1, tp.page) && Ordinary(tp.page)
    requires MmuWalk(s0.mem, Target(s0), tp.page) == NoLeaf && MmuWalk(s1.mem, Target(s1), tp.page) == NoLeaf
    requires SpaceCreated(s1, s2, f) && MmuWalk(s2.mem, Target(s2), tp.page) == NoLeaf && Target(s0) == s0.cr3
    requires Inv(s3) && Elsewhere(s2, s3, tp.page) && MmuWalk(s3.mem, Target(s2), tp.page) == NoLeaf
    requires tp.frame in s0.free && s3.free <= s2.free + {tp.frame}
    ensures SpaceCreated(s0, s3, f)
  {
    Untouched(s0, s1, tp.page);
    assert IsRoot(s2, Target(s2));
    Untouched(s2, s3, tp.page);
    CreatedBetween(s0, s1, s2, s3, f);
  }

  lemma CreatedBetween(s0: State, s1: State, s2: State, s3: State, f: Frame)
    requires IsRoot(s0, s0.cr3) && Framed(s0, s1) && SameViews(s0, s1) && Target(s1) == Target(s0) && s1.free <= s0.free
    requires SpaceCreated(s1, s2, f)
    requires Framed(s2, s3) && SameViews(s2, s3) && Target(s3) == Target(s2) && s3.free <= s0.free && Inv(s3)
    ensures SpaceCreated(s0, s3, f)
  {
    CreatedPersists(s0, s1, s2, s3);
    CreatedViews(s0, s1, s2, s3, f);
  }

  lemma CreatedPersists(s0: State, s1: State, s2: State, s3: State)
    requires Framed(s0, s1) && Persist(s1, s2) && Framed(s2, s3)
    ensures Persist(s0, s1) && Persist(s0, s3)
  {
    FramedPersists(s0, s1);
    FramedPersists(s2, s3);
    PersistTrans(s0, s1, s2);
    PersistTrans(s0, s2, s3);
  }

  lemma CreatedViews(s0: State, s1: State, s2: State, s3: State, f: Frame)
    requires Persist(s0, s1) && SameViews(s0, s1) && SpaceCreated(s1, s2, f) && SameViews(s2, s3) && IsRoot(s0, s0.cr3)
    ensures SameViews(s0, s3)
    ensures forall p: VPage :: Ordinary(p) ==>
              MmuWalk(s3.mem, f, p) == if p.p4 == KERNEL_SLOT then MmuWalk(s0.mem, s0.cr3, p) else NoLeaf
  {
    forall r, p: VPage | IsRoot(s0, r) && Ordinary(p) ensures MmuWalk(s3.mem, r, p) == MmuWalk(s0.mem, r, p) {
      assert IsRoot(s1, r) && IsRoot(s2, r);
    }
  }

  /** `drop` of an idle temporary page, against the state it finds. */
  method DropAfter(h: Heap, tp: TemporaryPage, ghost b: nat)
    requires h.TreeOk() && Idle(h.m.S(), h.live, h.lent, h.tree.free, b, tp)
    modifies h, h.m, h.tree
    ensures h.Valid() && h.live == old(h.live) - {b} && h.lent == old(h.lent) - {HeapIndex(tp.page)}
    ensures h.tree.free == old(h.tree.free) + Block(b, 7)
    ensures Elsewhere(old(h.m.S()), h.m.S(), tp.page) && MmuWalk(h.m.mem, Target(old(h.m.S())), tp.page) == NoLeaf
    ensures h.m.free <= old(h.m.free) + {tp.frame}
    ensures h.m.held == old(h.m.held) - {tp.frame} && |h.m.free| == |old(h.m.free)| + 1
  {
    Drop(h, tp, b, h.m.S());
  }

  lemma NoneLacking(mem: Mem, r: Frame, p: VPage)
    requires TableAt(mem, r, P1Path(p)).Some?
    ensures MissingTables(mem, r, p) == 0
  {
  }

  /** The tables, made through a temporary page that is idle before and after. */
  method CreateIdle(m: Machine, tp: TemporaryPage, ghost live: Live, ghost lent: set<nat>, ghost free: set<nat>, ghost b: nat)
    returns (ok: bool, f: Frame)
    requires Idle(m.S(), live, lent, free, b, tp) && m.cr3 in m.spaces
    modifies m
    ensures ok ==> Idle(m.S(), live, lent, free, b, tp) && SpaceCreated(old(m.S()), m.S(), f)
    ensures ok ==> m.held == old(m.held) && |old(m.free)| == |m.free| + 1
    ensures !ok ==> m.free == {}
  {
    ghost var s := m.S();
    NoneLacking(s.mem, s.cr3, tp.page);
    ok, f := NewProcessPageTables(m, tp.page);
    if ok { StillIdle(s, m.S(), live, lent, free, b, tp, f); }
  }

  /** The tables, and the end of the temporary page they were made through. */
  method CreateAndDrop(h: Heap, tp: TemporaryPage, ghost b: nat, ghost s0: State) returns (ok: bool, f: Frame)
    requires h.TreeOk() && Idle(h.m.S(), h.live, h.lent, h.tree.free, b, tp) && h.m.cr3 in h.m.spaces
    requires Inv(s0) && Target(s0) == s0.cr3 && OnlyTouched(s0, h.m.S(), tp.page) && tp.frame in s0.free
    requires MmuWalk(s0.mem, s0.cr3, tp.page) == NoLeaf
    modifies h, h.m, h.tree
    ensures ok ==> h.Valid() && h.live == old(h.live) - {b} && h.lent == old(h.lent) - {HeapIndex(tp.page)}
    ensures ok ==> h.tree.free == old(h.tree.free) + Block(b, 7)
    ensures ok ==> SpaceCreated(s0, h.m.S(), f)
    ensures ok ==> h.m.held == old(h.m.held) - {tp.frame} && |h.m.free| == |old(h.m.free)|
    ensures !ok ==> h.m.free == {}
  {
    ghost var s1 := h.m.S();
    ok, f := CreateIdle(h.m, tp, h.live, h.lent, h.tree.free, b);
    if ok {
      ghost var s2 := h.m.S();
      DropAfter(h, tp, b);
      assert IsRoot(s0, s0.cr3);
      CreatedThroughPage(s0, s1, s2, h.m.S(), tp, f);
    }
  }

  /**
   `Process::new_process_page_tables` with its own temporary page, heap page `i`. It leaves the heap as
   it was, takes one frame for the new P4 and one for each table the page lacked, and fails only if the
   heap has no block for the page or there is no memory.
   */
  method NewProcessTables(h: Heap) returns (ok: bool, f: Frame, ghost i: nat)
    requires h.Valid() && h.m.cr3 in h.m.spaces
    modifies h, h.m, h.tree
    ensures ok ==> h.Valid() && h.live == old(h.live) && h.lent == old(h.lent) && h.tree.free == old(h.tree.free)
    ensures ok ==> SpaceCreated(old(h.m.S()), h.m.S(), f)
    ensures ok ==> h.m.held == old(h.m.held) && TakesPage(old(h.m.free), h.m.free, old(h.m.S()), i)
    ensures !ok ==> h.m.free == {} || forall c :: !Fits(h.tree.free, MAX_ORDER, c, 7)
  {
    ghost var s0 := h.m.S();
    ghost var b;
    var tp;
    tp, b := New(h);
    i := 0;
    if tp.None? {
      return false, 0, i;
    }
    i := HeapIndex(tp.value.page);
    NotHeld(s0, tp.value.frame);
    ghost var free := h.m.free;
    AsBefore(old(h.live), old(h.lent), old(h.tree.free), b, HeapIndex(tp.value.page));
    ok, f := CreateAndDrop(h, tp.value, b, s0);
    if ok { PageStillTaken(s0.free, free, h.m.free, s0, i); }
  }

  // ---------------------------------------------------------------- a process's whole space

  /** The heap after a program was loaded into another space. */
  lemma HeapOutlivesLoading(s0: State, s: State, s': State, t: Frame, live: Live, lent: set<nat>, free: set<nat>)
    requires HeapOk(s, live, lent, free) && SameViews(s0, s) && IsRoot(s0, s0.cr3) && s.cr3 == s0.cr3
    requires Spared(s0, s', t) && Target(s0) == s0.cr3 && s'.boot == s.boot && KernelOwners(s, s')
    ensures HeapOk(s', live, lent, free)
  {
    HeapOutlives(s, s', live, lent, free);
  }

  /** Loading the program, which the heap does not notice. */
  method LoadProgram(h: Heap, t: Frame, segments: seq<Segment>, ghost s0: State)
    returns (r: LoadResult, ghost trace: seq<State>)
    requires h.Valid() && Inv(s0) && Target(s0) == s0.cr3 && s0.cr3 in s0.spaces && SpaceCreated(s0, h.m.S(), t)
    modifies h.m
    ensures h.Valid() && Spared(s0, h.m.S(), t)
    ensures EndsAs(r, trace, segments) && !r.NoTables?
    ensures r.Loaded? ==> ProcessSpace(s0, h.m.S(), t, segments) && h.m.mem == trace[|segments|].mem
    ensures trace[0].free == old(h.m.free) && (r.Loaded? ==> h.m.free == trace[|segments|].free)
    ensures r.Loaded? ==> ProcessRights(h.m.S(), t, segments)
    ensures r.NoMemory? ==> h.m.free == {}
  {
    ghost var s := h.m.S();
    assert IsRoot(s0, s0.cr3);
    r, trace := LoadInto(h.m, t, segments, s0);
    HeapOutlivesLoading(s0, s, h.m.S(), t, h.live, h.lent, h.tree.free);
  }

  /**
   The memory side of `Process::spawn_from_elf`. If it succeeds, there is one more address space, as
   the program's segments say; if it returns an error, also for lack of memory, there is one that
   nothing uses. In both cases every other space is as before, and so is the heap. Heap page `i` was the
   temporary page the tables were made through.
   */
  method Spawn(h: Heap, segments: seq<Segment>)
    returns (r: LoadResult, t: Frame, ghost trace: seq<State>, ghost i: nat)
    requires h.Valid() && h.m.cr3 in h.m.spaces
    modifies h, h.m, h.tree
    ensures r.Loaded? ==> ProcessSpace(old(h.m.S()), h.m.S(), t, segments) && ProcessRights(h.m.S(), t, segments)
    ensures !r.NoTables? ==> Spared(old(h.m.S()), h.m.S(), t)
    ensures !r.NoTables? ==>
              h.Valid() && h.live == old(h.live) && h.lent == old(h.lent) && h.tree.free == old(h.tree.free)
    ensures !r.NoTables? ==> EndsAs(r, trace, segments)
    ensures r.Loaded? ==> h.m.mem == trace[|segments|].mem && h.m.free == trace[|segments|].free
    ensures !r.NoTables? ==> TakesPage(old(h.m.free), trace[0].free, old(h.m.S()), i)
    ensures r.NoMemory? ==> h.m.free == {}
    ensures r.NoTables? ==> h.m.free == {} || forall c :: !Fits(h.tree.free, MAX_ORDER, c, 7)
  {
    ghost var s0 := h.m.S();
    var ok;
    ok, t, i := NewProcessTables(h);
    if ok {
      r, trace := LoadProgram(h, t, segments, s0);
    } else {
      r, trace := NoTables, [];
    }
  }
}
