/**
 Where runs start: the tables the boot code builds, and that they meet the invariant.
 */
module Boot {
  import opened Entries
  import opened Pages
  import opened Mmu
  import opened Spaces
  import opened Views

  /** The frames of the boot tables; the P1 tables of the higher half are consecutive. */
  datatype Layout = Layout(p4: Frame, p3: Frame, p2: Frame, p3Higher: Frame, p2Higher: Frame, p1Higher: Frame)

  const WRITABLE_TABLE := PRESENT.Or(WRITABLE)

  predicate InP1s(l: Layout, f: Frame) {
    l.p1Higher <= f < l.p1Higher + 512
  }

  predicate IsBootTable(l: Layout, f: Frame) {
    f == l.p4 || f == l.p3 || f == l.p2 || f == l.p3Higher || f == l.p2Higher || InP1s(l, f)
  }

  predicate Distinct(l: Layout) {
    && l.p4 !in {l.p3, l.p2, l.p3Higher, l.p2Higher} && l.p3 !in {l.p2, l.p3Higher, l.p2Higher}
    && l.p2 !in {l.p3Higher, l.p2Higher} && l.p3Higher != l.p2Higher
    && !InP1s(l, l.p4) && !InP1s(l, l.p3) && !InP1s(l, l.p2) && !InP1s(l, l.p3Higher) && !InP1s(l, l.p2Higher)
  }

  function RoleOf(l: Layout, f: Frame): Role
    requires IsBootTable(l, f)
  {
    if f == l.p4 then Root
    else if f == l.p3 then Sub(3, l.p4, 0)
    else if f == l.p2 then Sub(2, l.p3, 0)
    else if f == l.p3Higher then KernelP3
    else if f == l.p2Higher then Sub(2, l.p3Higher, 510)
    else Sub(1, l.p2Higher, (f - l.p1Higher) % 512)
  }

  /** The entries of the boot tables, as far as the boot code fixes them. */
  ghost predicate BootTables(mem: Mem, l: Layout) {
    && At(mem, l.p4, 0) == Entry(l.p3, WRITABLE_TABLE) && At(mem, l.p4, RECURSIVE_SLOT) == Entry(l.p4, WRITABLE_TABLE)
    && At(mem, l.p4, KERNEL_SLOT) == Entry(l.p3Higher, WRITABLE_TABLE)
    && (forall i: Index :: i != 0 && i != RECURSIVE_SLOT && i != KERNEL_SLOT ==> At(mem, l.p4, i) == UNUSED)
    && At(mem, l.p3, 0) == Entry(l.p2, WRITABLE_TABLE) && (forall i: Index :: i != 0 ==> At(mem, l.p3, i) == UNUSED)
    && (forall i: Index :: At(mem, l.p2, i) == Entry(512 * i, WRITABLE_TABLE.(huge := true)))
    && At(mem, l.p3Higher, 510) == Entry(l.p2Higher, WRITABLE_TABLE)
    && (forall i: Index :: i != 510 ==> At(mem, l.p3Higher, i) == UNUSED)
    && (forall i: Index :: At(mem, l.p2Higher, i) == Entry(l.p1Higher + i, WRITABLE_TABLE))
  }

  /** The state with these tables and the given free frames. */
  ghost function BootState(mem: Mem, l: Layout, free: set<Frame>): State {
    var tables := set f | f in mem.Keys && IsBootTable(l, f);
    State(mem, l.p4, free, {}, map f | f in mem.Keys && IsBootTable(l, f) :: RoleOf(l, f), {}, tables, free)
  }

  /** A state whose tables are the boot tables, in their roles. */
  ghost predicate Booted(s: State, l: Layout) {
    && Distinct(l) && BootTables(s.mem, l) && s.cr3 == l.p4 && s.spaces == {} && s.held == {} && s.pool == s.free
    && (forall f :: f in s.shape <==> IsBootTable(l, f))
    && (forall f :: f in s.shape ==> s.shape[f] == RoleOf(l, f) && f in s.mem)
    && (forall f :: f in s.boot <==> f in s.shape)
    && (forall f :: f in s.free ==> f in s.mem && f < 0x400_0000 && f !in s.shape)
  }

  lemma BootLinked(s: State, l: Layout)
    requires Booted(s, l)
    ensures Linked(s)
  {
    forall t: Frame, i: Index | Upper(s, t, i) && IsTable(At(s.mem, t, i))
      ensures At(s.mem, t, i).flags.writable && At(s.mem, t, i).frame in s.shape
      ensures s.shape[At(s.mem, t, i).frame] == ChildRole(s.shape[t], t, i)
    {
      BootLink(s, l, t, i);
    }
  }

  lemma BootLink(s: State, l: Layout, t: Frame, i: Index)
    requires Booted(s, l) && Upper(s, t, i) && IsTable(At(s.mem, t, i))
    ensures At(s.mem, t, i).flags.writable && At(s.mem, t, i).frame in s.shape
    ensures s.shape[At(s.mem, t, i).frame] == ChildRole(s.shape[t], t, i)
  {
    if t == l.p2Higher {
      assert InP1s(l, l.p1Higher + i);
      assert (l.p1Higher + i - l.p1Higher) % 512 == i;
    }
  }

  lemma BootRealised(s: State, l: Layout, f: Frame)
    requires Booted(s, l) && f in s.shape
    ensures Realised(s, f) && OwnedMapped(s, f)
  {
    if InP1s(l, f) {
      var i: Index := f - l.p1Higher;
      assert At(s.mem, l.p2Higher, i) == Entry(f, WRITABLE_TABLE);
      assert (f - l.p1Higher) % 512 == i;
    }
  }

  /** The boot tables, whatever their frames and the free memory, meet the invariant. */
  lemma BootInv(mem: Mem, l: Layout, free: set<Frame>)
    requires Distinct(l) && BootTables(mem, l) && forall f :: IsBootTable(l, f) ==> f in mem
    requires forall f :: f in free ==> f in mem && f < 0x400_0000 && !IsBootTable(l, f)
    ensures Inv(BootState(mem, l, free))
  {
    var s := BootState(mem, l, free);
    assert Booted(s, l);
    BootLinked(s, l);
    forall f | f in s.shape ensures Realised(s, f) && OwnedMapped(s, f) {
      BootRealised(s, l, f);
    }
    BootRest(s, l);
  }

  lemma BootRest(s: State, l: Layout)
    requires Booted(s, l)
    ensures Accounted(s) && Built(s) && SlotsRecursive(s) && KernelShared(s)
  {
    assert IsBootTable(l, l.p4);
    assert forall r :: IsRoot(s, r) <==> r == l.p4;
  }

  /** So every state that any run of the kernel reaches from there is safe. */
  lemma ReachableSafe(mem: Mem, l: Layout, free: set<Frame>, steps: seq<Step>, s: State)
    requires Distinct(l) && BootTables(mem, l) && forall f :: IsBootTable(l, f) ==> f in mem
    requires forall f :: f in free ==> f in mem && f < 0x400_0000 && !IsBootTable(l, f)
    requires Runs(BootState(mem, l, free), steps, s)
    ensures Inv(s) && KernelAgrees(s) && FreeFramesUnused(s)
    ensures forall f :: f in free <==> f in s.free || f in s.held || (f in s.shape && f !in s.boot)
  {
    BootInv(mem, l, free);
    RunSafety(BootState(mem, l, free), steps, s);
  }

  /** From the remap on, spaces stay and no entry 511 is rewritten, whatever the kernel does. */
  lemma ReachableStays(mem: Mem, l: Layout, free: set<Frame>, before: seq<Step>, s: State, after: seq<Step>, s': State)
    requires Distinct(l) && BootTables(mem, l) && forall f :: IsBootTable(l, f) ==> f in mem
    requires forall f :: f in free ==> f in mem && f < 0x400_0000 && !IsBootTable(l, f)
    requires Runs(BootState(mem, l, free), before, s) && Runs(s, after, s')
    requires forall i :: 0 <= i < |after| ==> !after[i].Publish?
    ensures KernelStays(s, s') && KernelAgrees(s')
  {
    ReachableSafe(mem, l, free, before, s);
    RunSafety(s, after, s');
  }

  // ---------------------------------------------------------------- one such memory

  function BootEntry(l: Layout, f: Frame, i: Index): Entry {
    if f == l.p4 then
      if i == 0 then Entry(l.p3, WRITABLE_TABLE)
      else if i == RECURSIVE_SLOT then Entry(l.p4, WRITABLE_TABLE)
      else if i == KERNEL_SLOT then Entry(l.p3Higher, WRITABLE_TABLE)
      else UNUSED
    else if f == l.p3 then if i == 0 then Entry(l.p2, WRITABLE_TABLE) else UNUSED
    else if f == l.p2 then Entry(512 * i, WRITABLE_TABLE.(huge := true))
    else if f == l.p3Higher then if i == 510 then Entry(l.p2Higher, WRITABLE_TABLE) else UNUSED
    else if f == l.p2Higher then Entry(l.p1Higher + i, WRITABLE_TABLE)
    else if InP1s(l, f) then Entry(512 * (f - l.p1Higher) + i, WRITABLE_TABLE)
    else UNUSED
  }

  function BootTable(l: Layout, f: Frame): (t: Table)
    ensures forall i: Index :: t[i] == BootEntry(l, f, i)
  {
    seq(512, i requires 0 <= i < 512 => BootEntry(l, f, i))
  }

  const EXAMPLE_LAYOUT := Layout(1, 2, 3, 4, 5, 6)

  const EXAMPLE_FREE: set<Frame> := {1000, 1001, 1002, 1003, 1004, 1005}

  ghost function ExampleMem(): Mem {
    map f: Frame | f < 1024 :: BootTable(EXAMPLE_LAYOUT, f)
  }

  /** Memory of 1024 frames with the boot tables in frames 1 to 517: there are states with the invariant. */
  lemma ExampleBoot(free: set<Frame>)
    requires free <= {0} + EXAMPLE_FREE
    ensures BootTables(ExampleMem(), EXAMPLE_LAYOUT) && Distinct(EXAMPLE_LAYOUT)
    ensures Inv(BootState(ExampleMem(), EXAMPLE_LAYOUT, free))
  {
    assert forall f: Frame, i: Index :: f < 1024 ==> At(ExampleMem(), f, i) == BootEntry(EXAMPLE_LAYOUT, f, i);
    BootInv(ExampleMem(), EXAMPLE_LAYOUT, free);
  }
}
