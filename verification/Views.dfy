/**
 What the invariant means for translations: no table is reachable along two paths, every elementary
 change alters exactly the translations it should, and over any run all address spaces agree on the
 kernel half and no free frame is in use.
 */
module Views {
  import opened Entries
  import opened Pages
  import opened Mmu
  import opened Spaces

  /** Two P4s reach the same tables below index `i4`: they are one, or share their kernel P3. */
  ghost predicate SameTop(mem: Mem, r: Frame, r': Frame, i4: Index) {
    || r == r'
    || (&& i4 == KERNEL_SLOT && IsTable(At(mem, r, i4)) && IsTable(At(mem, r', i4))
        && At(mem, r, i4).frame == At(mem, r', i4).frame)
  }

  /** The path of the P1 table of a page. */
  function P1Path(p: VPage): Path {
    AtP1(p.p4, p.p3, p.p2)
  }

  predicate OrdinaryPath(path: Path) {
    path.AtP4? || path.i4 != RECURSIVE_SLOT
  }

  function PathLevel(path: Path): nat {
    match path
    case AtP4 => 4
    case AtP3(_) => 3
    case AtP2(_, _) => 2
    case AtP1(_, _, _) => 1
  }

  // ---------------------------------------------------------------- tables on a path

  /** Every table on an ordinary path is a known frame with the role of its place. */
  lemma PathRoles(s: State, r: Frame, path: Path)
    requires TablesInv(s) && IsRoot(s, r) && OrdinaryPath(path)
    requires TableAt(s.mem, r, path).Some?
    ensures var t := TableAt(s.mem, r, path).value;
            t in s.shape && Level(s.shape[t]) == PathLevel(path)
    ensures match path
            case AtP4 => true
            case AtP3(i4) =>
              s.shape[TableAt(s.mem, r, path).value] == ChildRole(Root, r, i4)
            case AtP2(i4, i3) =>
              && TableAt(s.mem, r, AtP3(i4)).Some?
              && s.shape[TableAt(s.mem, r, path).value] == Sub(2, TableAt(s.mem, r, AtP3(i4)).value, i3)
            case AtP1(i4, i3, i2) =>
              && TableAt(s.mem, r, AtP2(i4, i3)).Some?
              && s.shape[TableAt(s.mem, r, path).value] == Sub(1, TableAt(s.mem, r, AtP2(i4, i3)).value, i2)
    decreases 4 - PathLevel(path)
  {
    match path
    case AtP4 =>
    case AtP3(i4) =>
      assert Upper(s, r, i4);
    case AtP2(i4, i3) =>
      PathRoles(s, r, AtP3(i4));
      assert Upper(s, TableAt(s.mem, r, AtP3(i4)).value, i3);
    case AtP1(i4, i3, i2) =>
      PathRoles(s, r, AtP2(i4, i3));
      assert Upper(s, TableAt(s.mem, r, AtP2(i4, i3)).value, i2);
  }

  /** No table is reachable along two paths, except the kernel half through each P4 that shares it. */
  lemma {:induction false} Unaliased(s: State, r: Frame, path: Path, r': Frame, path': Path)
    requires TablesInv(s) && IsRoot(s, r) && IsRoot(s, r')
    requires OrdinaryPath(path) && OrdinaryPath(path')
    requires TableAt(s.mem, r, path).Some? && TableAt(s.mem, r, path) == TableAt(s.mem, r', path')
    ensures path == path'
    ensures path.AtP4? ==> r == r'
    ensures !path.AtP4? ==> SameTop(s.mem, r, r', path.i4)
    decreases 4 - PathLevel(path)
  {
    PathRoles(s, r, path);
    PathRoles(s, r', path');
    match path
    case AtP4 =>
    case AtP3(i4) =>
    case AtP2(i4, i3) =>
      Unaliased(s, r, AtP3(i4), r', AtP3(path'.i4));
    case AtP1(i4, i3, i2) =>
      Unaliased(s, r, AtP2(i4, i3), r', AtP2(path'.i4, path'.i3));
  }

  lemma SameTopSameTables(mem: Mem, r: Frame, r': Frame, path: Path)
    requires !path.AtP4? && SameTop(mem, r, r', path.i4)
    ensures TableAt(mem, r, path) == TableAt(mem, r', path)
  {
  }

  lemma SameTopSameWalk(mem: Mem, r: Frame, r': Frame, p: VPage)
    requires SameTop(mem, r, r', p.p4)
    ensures MmuWalk(mem, r, p) == MmuWalk(mem, r', p)
  {
  }

  /** A walk that ends below the P2 tables ends in its P1 table. */
  lemma WalkByP1(mem: Mem, r: Frame, p: VPage)
    ensures TableAt(mem, r, P1Path(p)).Some? ==>
              var e := At(mem, TableAt(mem, r, P1Path(p)).value, p.p1);
              MmuWalk(mem, r, p) == if e.flags.present then Page4K(e) else NoLeaf
    ensures MmuWalk(mem, r, p).Page4K? ==> TableAt(mem, r, P1Path(p)).Some?
  {
  }

  /** In tables the kernel built, the levels above grant everything, so the leaf decides. */
  lemma LeafGrants(s: State, r: Frame, p: VPage)
    requires TablesInv(s) && IsRoot(s, r) && r !in s.boot && Ordinary(p) && MmuWalk(s.mem, r, p).Page4K?
    ensures var flags := MmuWalk(s.mem, r, p).entry.flags;
            Allows(s.mem, r, p, flags.user, flags.writable, !flags.noExecute)
  {
    WalkRoles(s, r, p);
    assert Upper(s, r, p.p4);
    assert Upper(s, Entry4(s.mem, r, p).frame, p.p3);
    assert Upper(s, Entry3(s.mem, r, p).frame, p.p2);
  }

  // ---------------------------------------------------------------- effect on translations

  /** The word of the table at `path` that the walk of `p` reads is the same in both memories. */
  ghost predicate SameWord(mem: Mem, mem': Mem, r: Frame, path: Path, i: Index) {
    TableAt(mem, r, path).Some? ==>
      At(mem', TableAt(mem, r, path).value, i) == At(mem, TableAt(mem, r, path).value, i)
  }

  /** A walk depends on four words only. */
  lemma SameWordsSameWalk(mem: Mem, mem': Mem, r: Frame, p: VPage)
    requires SameWord(mem, mem', r, AtP4, p.p4) && SameWord(mem, mem', r, AtP3(p.p4), p.p3)
    requires SameWord(mem, mem', r, AtP2(p.p4, p.p3), p.p2) && SameWord(mem, mem', r, P1Path(p), p.p1)
    ensures MmuWalk(mem', r, p) == MmuWalk(mem, r, p)
  {
  }

  /** `PathRoles` along the whole walk of a page. */
  lemma WalkRoles(s: State, r: Frame, p: VPage)
    requires TablesInv(s) && IsRoot(s, r) && Ordinary(p)
    ensures TableAt(s.mem, r, AtP3(p.p4)).Some? ==>
              var t := TableAt(s.mem, r, AtP3(p.p4)).value; t in s.shape && Level(s.shape[t]) == 3
    ensures TableAt(s.mem, r, AtP2(p.p4, p.p3)).Some? ==>
              var t := TableAt(s.mem, r, AtP2(p.p4, p.p3)).value; t in s.shape && Level(s.shape[t]) == 2
    ensures TableAt(s.mem, r, P1Path(p)).Some? ==> IsP1(s, TableAt(s.mem, r, P1Path(p)).value)
  {
    if TableAt(s.mem, r, AtP3(p.p4)).Some? { PathRoles(s, r, AtP3(p.p4)); }
    if TableAt(s.mem, r, AtP2(p.p4, p.p3)).Some? { PathRoles(s, r, AtP2(p.p4, p.p3)); }
    if TableAt(s.mem, r, P1Path(p)).Some? { PathRoles(s, r, P1Path(p)); }
  }

  /** Linking in a zeroed table changes no translation in any address space. */
  lemma LinkKeepsWalk(s: State, s': State, t: Frame, i: Index, f: Frame, r: Frame, p: VPage)
    requires Inv(s) && LinkedIn(s, s', t, i, f) && IsRoot(s, r) && Ordinary(p)
    ensures MmuWalk(s'.mem, r, p) == MmuWalk(s.mem, r, p)
  {
    WalkRoles(s, r, p);
    if SameWord(s.mem, s'.mem, r, AtP4, p.p4) && SameWord(s.mem, s'.mem, r, AtP3(p.p4), p.p3)
       && SameWord(s.mem, s'.mem, r, AtP2(p.p4, p.p3), p.p2)
    {
      SameWordsSameWalk(s.mem, s'.mem, r, p);
    }
  }

  /** Same tables, same paths. */
  lemma SameTablesSamePath(s: State, s': State, r: Frame, path: Path)
    requires TablesInv(s) && SameTables(s, s') && IsRoot(s, r) && OrdinaryPath(path)
    ensures TableAt(s'.mem, r, path) == TableAt(s.mem, r, path)
    decreases 4 - PathLevel(path)
  {
    match path
    case AtP4 =>
    case AtP3(i4) =>
    case AtP2(i4, i3) =>
      SameTablesSamePath(s, s', r, AtP3(i4));
      if TableAt(s.mem, r, AtP3(i4)).Some? { PathRoles(s, r, AtP3(i4)); }
    case AtP1(i4, i3, i2) =>
      SameTablesSamePath(s, s', r, AtP2(i4, i3));
      if TableAt(s.mem, r, AtP2(i4, i3)).Some? { PathRoles(s, r, AtP2(i4, i3)); }
  }

  /**
   With the tables above the leaves unchanged, a page's translation can only change through the one
   word of its P1 table.
   */
  lemma SameTablesWalk(s: State, s': State, r: Frame, p: VPage)
    requires TablesInv(s) && SameTables(s, s') && IsRoot(s, r) && Ordinary(p)
    requires TableAt(s.mem, r, P1Path(p)).Some? ==>
               var t := TableAt(s.mem, r, P1Path(p)).value;
               At(s'.mem, t, p.p1) == At(s.mem, t, p.p1)
    ensures MmuWalk(s'.mem, r, p) == MmuWalk(s.mem, r, p)
  {
    WalkRoles(s, r, p);
    SameWordsSameWalk(s.mem, s'.mem, r, p);
  }

  /**
   Writing the P1 entry of `page` below `target` changes that page, in exactly the address spaces
   that share its tables, and no other translation anywhere.
   */
  lemma SetLeafWalk(s: State, s': State, target: Frame, page: VPage, e: Entry, r: Frame, p: VPage)
    requires Inv(s) && IsRoot(s, target) && Ordinary(page) && IsRoot(s, r) && Ordinary(p)
    requires TableAt(s.mem, target, P1Path(page)).Some?
    requires IsP1(s, TableAt(s.mem, target, P1Path(page)).value)
    requires s' == SetLeafState(s, TableAt(s.mem, target, P1Path(page)).value, page.p1, e)
    ensures MmuWalk(s'.mem, r, p) ==
            if p == page && SameTop(s.mem, r, target, page.p4)
            then if e.flags.present then Page4K(e) else NoLeaf
            else MmuWalk(s.mem, r, p)
  {
    var t := TableAt(s.mem, target, P1Path(page)).value;
    SetLeafKeeps(s, t, page.p1, e);
    SameTablesSamePath(s, s', r, P1Path(p));
    WalkByP1(s'.mem, r, p);
    if p == page && SameTop(s.mem, r, target, page.p4) {
      SameTopSameTables(s.mem, r, target, P1Path(page));
    } else {
      if TableAt(s.mem, r, P1Path(p)) == Some(t) {
        Unaliased(s, r, P1Path(p), target, P1Path(page));
      }
      SameTablesWalk(s, s', r, p);
    }
  }

  /** A word of a P4 that is absent, or a recursive slot, takes no part in ordinary translations. */
  lemma QuietTopWordWalk(s: State, mem': Mem, t: Frame, i: Index, r: Frame, p: VPage)
    requires TablesInv(s) && IsRoot(s, t) && IsRoot(s, r) && Ordinary(p)
    requires forall g: Frame, j: Index :: g != t || j != i ==> At(mem', g, j) == At(s.mem, g, j)
    requires i == RECURSIVE_SLOT || (!IsTable(At(s.mem, t, i)) && !IsTable(At(mem', t, i)))
    ensures MmuWalk(mem', r, p) == MmuWalk(s.mem, r, p)
  {
    WalkRoles(s, r, p);
    if SameWord(s.mem, mem', r, AtP4, p.p4) { SameWordsSameWalk(s.mem, mem', r, p); }
  }

  /** Removing a 2 MiB entry unmaps the pages below it, in the spaces that share its table, and no others. */
  lemma DropHugeWalk(s: State, target: Frame, page: VPage, r: Frame, p: VPage)
    requires Inv(s) && IsRoot(s, target) && Ordinary(page) && IsRoot(s, r) && Ordinary(p)
    requires TableAt(s.mem, target, AtP2(page.p4, page.p3)).Some?
    requires var t := TableAt(s.mem, target, AtP2(page.p4, page.p3)).value;
             At(s.mem, t, page.p2).flags.present && At(s.mem, t, page.p2).flags.huge
    requires TableAt(s.mem, target, AtP2(page.p4, page.p3)).value in s.mem
    ensures var t := TableAt(s.mem, target, AtP2(page.p4, page.p3)).value;
            MmuWalk(Put(s.mem, t, page.p2, UNUSED), r, p) ==
            if p.p4 == page.p4 && p.p3 == page.p3 && p.p2 == page.p2 && SameTop(s.mem, r, target, page.p4)
            then NoLeaf else MmuWalk(s.mem, r, p)
  {
    var t := TableAt(s.mem, target, AtP2(page.p4, page.p3)).value;
    var mem' := Put(s.mem, t, page.p2, UNUSED);
    PathRoles(s, target, AtP2(page.p4, page.p3));
    WalkRoles(s, r, p);
    if TableAt(s.mem, r, AtP2(p.p4, p.p3)) == Some(t) {
      Unaliased(s, r, AtP2(p.p4, p.p3), target, AtP2(page.p4, page.p3));
    }
    if p.p4 == page.p4 && p.p3 == page.p3 && p.p2 == page.p2 && SameTop(s.mem, r, target, page.p4) {
      SameTopSameTables(s.mem, r, target, AtP2(page.p4, page.p3));
      assert At(mem', r, p.p4) == At(s.mem, r, p.p4);
    } else {
      SameWordsSameWalk(s.mem, mem', r, p);
    }
  }

  // ---------------------------------------------------------------- whole runs

  /** `steps` can be taken one after the other from `s`, and lead to `s'`. */
  ghost predicate Runs(s: State, steps: seq<Step>, s': State)
    decreases |steps|
  {
    if steps == [] then s == s'
    else Inv(s) && Enabled(s, steps[0]) && Runs(Apply(s, steps[0]), steps[1..], s')
  }

  /** All address spaces see the same kernel half. */
  ghost predicate KernelAgrees(s: State) {
    forall r, r', p: VPage :: r in s.spaces && r' in s.spaces && p.p4 == KERNEL_SLOT ==>
      MmuWalk(s.mem, r, p) == MmuWalk(s.mem, r', p)
  }

  /** No frame that is free is a table of any address space, or an owned page. */
  ghost predicate FreeFramesUnused(s: State) {
    && (forall r, path :: IsRoot(s, r) && OrdinaryPath(path) && TableAt(s.mem, r, path).Some? ==>
          TableAt(s.mem, r, path).value !in s.free)
    && (forall f :: f in s.shape ==> f !in s.free)
  }

  lemma InvMeaning(s: State)
    requires Inv(s)
    ensures KernelAgrees(s) && FreeFramesUnused(s)
  {
    forall r, r', p: VPage | r in s.spaces && r' in s.spaces && p.p4 == KERNEL_SLOT
      ensures MmuWalk(s.mem, r, p) == MmuWalk(s.mem, r', p)
    {
      SameTopSameWalk(s.mem, r, r', p);
    }
    forall r, path | IsRoot(s, r) && OrdinaryPath(path) && TableAt(s.mem, r, path).Some?
      ensures TableAt(s.mem, r, path).value !in s.free
    {
      PathRoles(s, r, path);
    }
  }

  /** Address spaces stay, and so do their kernel entries, word for word. */
  ghost predicate KernelStays(s: State, s': State) {
    s.spaces <= s'.spaces && forall r :: r in s.spaces ==> At(s'.mem, r, KERNEL_SLOT) == At(s.mem, r, KERNEL_SLOT)
  }

  lemma StepKeepsKernel(s: State, step: Step)
    requires Inv(s) && Enabled(s, step) && !step.Publish?
    ensures KernelStays(s, Apply(s, step))
  {
  }

  /** No step but the remap's own ever takes a space away or rewrites an entry 511. */
  lemma {:induction false} RunKeepsKernel(s: State, steps: seq<Step>, s': State)
    requires Inv(s) && Runs(s, steps, s') && forall i :: 0 <= i < |steps| ==> !steps[i].Publish?
    ensures KernelStays(s, s')
    decreases |steps|
  {
    if steps != [] {
      StepKeeps(s, steps[0]);
      StepKeepsKernel(s, steps[0]);
      RunKeepsKernel(Apply(s, steps[0]), steps[1..], s');
    }
  }

  /** Entry 511 of a P4 has the GLOBAL flag, unless it is present. */
  ghost predicate GlobalWhileAbsent(s: State, r: Frame) {
    IsRoot(s, r) && r !in s.boot && (At(s.mem, r, KERNEL_SLOT).flags.present || At(s.mem, r, KERNEL_SLOT).flags.global)
  }

  lemma StepKeepsGlobal(s: State, step: Step, r: Frame)
    requires Inv(s) && Enabled(s, step) && GlobalWhileAbsent(s, r)
    ensures GlobalWhileAbsent(Apply(s, step), r)
  {
    if step.Link? || step.SetLeaf? || step.DropHuge? || step.Fill? || step.Adopt? {
      TableStepKeepsGlobal(s, step, r);
    }
  }

  lemma TableStepKeepsGlobal(s: State, step: Step, r: Frame)
    requires Inv(s) && Enabled(s, step) && GlobalWhileAbsent(s, r)
    requires step.Link? || step.SetLeaf? || step.DropHuge? || step.Fill? || step.Adopt?
    ensures GlobalWhileAbsent(Apply(s, step), r)
  {
  }

  lemma {:induction false} RunKeepsGlobal(s: State, steps: seq<Step>, s': State, r: Frame)
    requires Inv(s) && Runs(s, steps, s') && GlobalWhileAbsent(s, r)
    ensures Inv(s') && GlobalWhileAbsent(s', r)
    decreases |steps|
  {
    if steps != [] {
      StepKeeps(s, steps[0]);
      StepKeepsGlobal(s, steps[0], r);
      RunKeepsGlobal(Apply(s, steps[0]), steps[1..], s', r);
    }
  }

  /** So GLOBAL added to the absent entry of new tables is gone after any run exactly if the entry was linked. */
  lemma AddedGlobalLost(s: State, steps: seq<Step>, s': State)
    requires Inv(s) && Enabled(s, AddTopFlags(GLOBAL)) && Target(s) !in s.boot && Target(s) in s.mem
    requires Runs(AddTopFlagsState(s, GLOBAL), steps, s')
    ensures At(s'.mem, Target(s), KERNEL_SLOT).flags.global <==> !At(s'.mem, Target(s), KERNEL_SLOT).flags.present
  {
    StepKeeps(s, AddTopFlags(GLOBAL));
    assert IsRoot(s, Target(s));
    RunKeepsGlobal(AddTopFlagsState(s, GLOBAL), steps, s', Target(s));
    assert Upper(s', Target(s), KERNEL_SLOT);
  }

  /**
   Safety of every run: the kernel half stays common to all address spaces, no free frame is ever
   in use, and frames are neither created nor lost.
   */
  lemma {:induction false} RunSafety(s: State, steps: seq<Step>, s': State)
    requires Inv(s) && Runs(s, steps, s')
    ensures Inv(s') && KernelAgrees(s') && FreeFramesUnused(s')
    ensures s'.pool == s.pool
    ensures forall f :: f in s.pool <==> f in s'.free || f in s'.held || (f in s'.shape && f !in s'.boot)
    ensures (forall i :: 0 <= i < |steps| ==> !steps[i].Publish?) ==> KernelStays(s, s')
    decreases |steps|
  {
    if forall i :: 0 <= i < |steps| ==> !steps[i].Publish? {
      RunKeepsKernel(s, steps, s');
    }
    if steps == [] {
      InvMeaning(s);
    } else {
      StepKeeps(s, steps[0]);
      RunSafety(Apply(s, steps[0]), steps[1..], s');
    }
  }
}
