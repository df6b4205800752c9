/**
 What the mapper's operations amount to: relations between the states before and after one, stated
 over translations, table paths and frame ownership, and the lemmas that build them up from the
 elementary changes.
 */
module Changes {
  import opened Entries
  import opened Pages
  import opened Mmu
  import opened Spaces
  import opened Views

  function Extend(path: Path, i: Index): Path
    requires !path.AtP1?
  {
    match path
    case AtP4 => AtP3(i)
    case AtP3(i4) => AtP2(i4, i)
    case AtP2(i4, i3) => AtP1(i4, i3, i)
  }

  lemma PointerExtends(path: Path, i: Index)
    requires !path.AtP1?
    ensures PointerTo(Extend(path, i)) == ShiftIn(PointerTo(path), i)
  {
  }

  lemma ExtendTable(mem: Mem, r: Frame, path: Path, i: Index)
    requires !path.AtP1? && TableAt(mem, r, path).Some?
    ensures TableAt(mem, r, Extend(path, i)).Some? <==> IsTable(At(mem, TableAt(mem, r, path).value, i))
  {
  }

  // ---------------------------------------------------------------- what an operation may do

  /** No translation of an ordinary page changes, in any address space. */
  ghost predicate SameViews(s: State, s': State) {
    forall r, p: VPage :: IsRoot(s, r) && Ordinary(p) ==> MmuWalk(s'.mem, r, p) == MmuWalk(s.mem, r, p)
  }

  /**
   The plain-map update: in the target space, and the spaces that share the tables of `page`,
   `page` now translates by `leaf`; every other page of every address space is as before.
   */
  ghost predicate Remapped(s: State, s': State, page: VPage, leaf: Leaf) {
    forall r, p: VPage :: IsRoot(s, r) && Ordinary(p) ==>
      MmuWalk(s'.mem, r, p) ==
      if p == page && SameTop(s.mem, r, Target(s), page.p4) then leaf else MmuWalk(s.mem, r, p)
  }

  /** No entry above the P1 slot of `p` has its huge bit set. */
  ghost predicate SmallPages(mem: Mem, r: Frame, p: VPage) {
    && !At(mem, r, p.p4).flags.huge
    && (TableAt(mem, r, AtP3(p.p4)).Some? ==> !At(mem, TableAt(mem, r, AtP3(p.p4)).value, p.p3).flags.huge)
    && (TableAt(mem, r, AtP2(p.p4, p.p3)).Some? ==>
          !At(mem, TableAt(mem, r, AtP2(p.p4, p.p3)).value, p.p2).flags.huge)
  }

  /** What no mapper operation touches: CR3, the set of P4s, other P4s, and links already made. */
  ghost predicate Framed(s: State, s': State) {
    && s'.cr3 == s.cr3 && s'.spaces == s.spaces && s'.boot == s.boot && s'.pool == s.pool
    && s'.mem.Keys == s.mem.Keys
    && (forall r :: IsRoot(s, r) <==> IsRoot(s', r))
    && (forall r, i: Index :: IsRoot(s, r) && (r != Target(s) || i == RECURSIVE_SLOT || IsTable(At(s.mem, r, i))) ==>
          At(s'.mem, r, i) == At(s.mem, r, i))
    && (forall r, r', i: Index :: IsRoot(s, r) && IsRoot(s, r') ==>
          (SameTop(s'.mem, r, r', i) <==> SameTop(s.mem, r, r', i)))
    && (forall r, path :: IsRoot(s, r) && OrdinaryPath(path) && TableAt(s.mem, r, path).Some? ==>
          TableAt(s'.mem, r, path) == TableAt(s.mem, r, path))
    && (forall r, p: VPage :: IsRoot(s, r) && Ordinary(p) && SmallPages(s.mem, r, p) ==> SmallPages(s'.mem, r, p))
  }

  /** So a mapper operation keeps every space, and every entry 511 word for word. */
  lemma FramedKeepsKernel(s: State, s': State)
    requires Inv(s) && Framed(s, s')
    ensures KernelStays(s, s')
  {
  }

  /** Frames only leave the allocator, and the contents of frames that are not tables stay. */
  ghost predicate Grown(s: State, s': State) {
    && s'.free <= s.free && s.held <= s'.held
    && (forall f :: f in s'.shape && f !in s.shape ==> f in s.free && !s'.shape[f].Owned?)
    && (forall f :: f in s'.shape && f in s.shape ==> s'.shape[f] == s.shape[f])
    && (forall g: Frame, j: Index :: g !in s.free && (g in s.shape ==> s.shape[g].Owned?) ==>
          At(s'.mem, g, j) == At(s.mem, g, j))
  }

  /** `f` is the frame the kernel allocated for page `p` of address space `r`, and `p` maps it. */
  ghost predicate Owns(s: State, r: Frame, p: VPage, f: Frame) {
    && MmuWalk(s.mem, r, p).Page4K? && MmuWalk(s.mem, r, p).entry.frame == f
    && TableAt(s.mem, r, P1Path(p)).Some?
    && f in s.shape && s.shape[f] == Owned(TableAt(s.mem, r, P1Path(p)).value, p.p1)
  }

  /** Page `p` of the target space maps a frame that it owns. */
  ghost predicate SelfOwned(s: State, p: VPage) {
    var leaf := MmuWalk(s.mem, Target(s), p);
    leaf.Page4K? && Owns(s, Target(s), p, leaf.entry.frame)
  }

  /** Outside the boot tables there are no huge entries. */
  lemma BuiltSmallPages(s: State, r: Frame, p: VPage)
    requires Inv(s) && IsRoot(s, r) && r !in s.boot && Ordinary(p)
    ensures SmallPages(s.mem, r, p)
  {
    assert Upper(s, r, p.p4);
    WalkRoles(s, r, p);
    if TableAt(s.mem, r, AtP3(p.p4)).Some? {
      var t3 := TableAt(s.mem, r, AtP3(p.p4)).value;
      assert Upper(s, t3, p.p3) && t3 !in s.boot;
      if TableAt(s.mem, r, AtP2(p.p4, p.p3)).Some? {
        var t2 := TableAt(s.mem, r, AtP2(p.p4, p.p3)).value;
        assert Upper(s, t2, p.p2) && t2 !in s.boot;
      }
    }
  }

  // ---------------------------------------------------------------- pointers in a valid state

  /** The walk of a page never passes through frame `f`. */
  ghost predicate WalkAvoids(mem: Mem, root: Frame, p: VPage, f: Frame) {
    && root != f && Entry4(mem, root, p).frame != f
    && Entry3(mem, root, p).frame != f && Entry2(mem, root, p).frame != f
  }

  lemma AvoidingWalkStable(mem: Mem, mem': Mem, root: Frame, p: VPage, f: Frame)
    requires WalkAvoids(mem, root, p, f)
    requires forall g: Frame, j: Index :: g != f ==> At(mem', g, j) == At(mem, g, j)
    ensures MmuWalk(mem', root, p) == MmuWalk(mem, root, p)
    ensures Writable(mem', root, p) == Writable(mem, root, p)
    ensures WalkAvoids(mem', root, p, f)
  {
  }

  /** Table pointers of ordinary tables are writable, and their own walk uses known tables only. */
  lemma PointerUsable(s: State, path: Path)
    requires Inv(s) && OrdinaryPath(path) && TableAt(s.mem, Target(s), path).Some?
    ensures Translate(s.mem, s.cr3, PointerTo(path)) == TableAt(s.mem, Target(s), path)
    ensures Writable(s.mem, s.cr3, PointerTo(path))
    ensures forall f :: f !in s.shape ==> WalkAvoids(s.mem, s.cr3, PointerTo(path), f)
  {
    TargetRecursive(s);
    PointerReachesTable(s.mem, s.cr3, Target(s), path);
    assert IsRoot(s, s.cr3) && IsRoot(s, Target(s));
    PathRoles(s, Target(s), path);
    match path
    case AtP4 =>
    case AtP3(i4) =>
      assert Upper(s, Target(s), i4);
    case AtP2(i4, i3) =>
      PathRoles(s, Target(s), AtP3(i4));
      assert Upper(s, Target(s), i4) && Upper(s, TableAt(s.mem, Target(s), AtP3(i4)).value, i3);
    case AtP1(i4, i3, i2) =>
      PathRoles(s, Target(s), AtP3(i4));
      PathRoles(s, Target(s), AtP2(i4, i3));
      assert Upper(s, Target(s), i4) && Upper(s, TableAt(s.mem, Target(s), AtP3(i4)).value, i3);
      assert Upper(s, TableAt(s.mem, Target(s), AtP2(i4, i3)).value, i2);
  }

  /** Just after an entry was pointed at a fresh frame, the next pointer already leads there. */
  lemma FreshPointerUsable(s: State, mem': Mem, path: Path, i: Index, f: Frame)
    requires Inv(s) && !path.AtP1? && OrdinaryPath(Extend(path, i))
    requires TableAt(s.mem, Target(s), path).Some? && f !in s.shape
    requires var t := TableAt(s.mem, Target(s), path).value;
             && !At(s.mem, t, i).flags.present
             && At(mem', t, i) == Entry(f, LINK)
             && (forall g: Frame, j: Index :: g != t || j != i ==> At(mem', g, j) == At(s.mem, g, j))
    ensures Translate(mem', s.cr3, PointerTo(Extend(path, i))) == Some(f)
    ensures MmuWalk(mem', s.cr3, PointerTo(Extend(path, i))).Page4K?
    ensures Writable(mem', s.cr3, PointerTo(Extend(path, i)))
    ensures WalkAvoids(mem', s.cr3, PointerTo(Extend(path, i)), f)
  {
    TargetRecursive(s);
    assert IsRoot(s, s.cr3) && IsRoot(s, Target(s));
    PathRoles(s, Target(s), path);
    match path
    case AtP4 =>
    case AtP3(i4) =>
      assert Upper(s, Target(s), i4);
    case AtP2(i4, i3) =>
      PathRoles(s, Target(s), AtP3(i4));
      assert Upper(s, Target(s), i4) && Upper(s, TableAt(s.mem, Target(s), AtP3(i4)).value, i3);
  }

  // ---------------------------------------------------------------- relations compose

  lemma FramedTrans(s0: State, s1: State, s2: State)
    requires SlotsRecursive(s0) && Framed(s0, s1) && Framed(s1, s2)
    ensures Framed(s0, s2) && Target(s1) == Target(s0)
  {
    assert IsRoot(s0, s0.cr3);
  }

  lemma GrownTrans(s0: State, s1: State, s2: State)
    requires Accounted(s0) && Grown(s0, s1) && Grown(s1, s2)
    ensures Grown(s0, s2)
  {
  }

  lemma SameViewsTrans(s0: State, s1: State, s2: State)
    requires SlotsRecursive(s0) && Framed(s0, s1) && SameViews(s0, s1) && SameViews(s1, s2)
    ensures SameViews(s0, s2)
  {
  }

  lemma LinkedInFramed(s: State, s': State, path: Path, i: Index, f: Frame)
    requires Inv(s) && OrdinaryPath(path) && TableAt(s.mem, Target(s), path).Some?
    requires LinkedIn(s, s', TableAt(s.mem, Target(s), path).value, i, f)
    ensures Framed(s, s') && Grown(s, s') && Target(s') == Target(s)
  {
    var t := TableAt(s.mem, Target(s), path).value;
    LinkedInTops(s, s', path, i, f);
    forall r, q | IsRoot(s, r) && OrdinaryPath(q) && TableAt(s.mem, r, q).Some?
      ensures TableAt(s'.mem, r, q) == TableAt(s.mem, r, q)
    {
      LinkKeepsPath(s, s', t, i, f, r, q);
    }
    forall r, p: VPage | IsRoot(s, r) && Ordinary(p) && SmallPages(s.mem, r, p)
      ensures SmallPages(s'.mem, r, p)
    {
      LinkKeepsSmallPages(s, s', t, i, f, r, p);
    }
  }

  lemma LinkedInTops(s: State, s': State, path: Path, i: Index, f: Frame)
    requires Inv(s) && OrdinaryPath(path) && TableAt(s.mem, Target(s), path).Some?
    requires LinkedIn(s, s', TableAt(s.mem, Target(s), path).value, i, f)
    ensures Grown(s, s') && Target(s') == Target(s)
    ensures forall r :: IsRoot(s, r) <==> IsRoot(s', r)
    ensures forall r, j: Index :: IsRoot(s, r) && (r != Target(s) || j == RECURSIVE_SLOT || IsTable(At(s.mem, r, j))) ==>
              At(s'.mem, r, j) == At(s.mem, r, j)
    ensures forall r, r', j: Index :: IsRoot(s, r) && IsRoot(s, r') ==>
              (SameTop(s'.mem, r, r', j) <==> SameTop(s.mem, r, r', j))
  {
    var t := TableAt(s.mem, Target(s), path).value;
    assert IsRoot(s, Target(s)) && IsRoot(s, s.cr3);
    PathRoles(s, Target(s), path);
    if IsRoot(s, t) {
      Unaliased(s, Target(s), path, t, AtP4);
    }
  }

  /** The new table is at its path, and paths to other tables lead where they did. */
  lemma LinkPaths(s: State, s': State, path: Path, i: Index, f: Frame)
    requires Inv(s) && !path.AtP1? && OrdinaryPath(Extend(path, i))
    requires TableAt(s.mem, Target(s), path).Some?
    requires LinkedIn(s, s', TableAt(s.mem, Target(s), path).value, i, f)
    ensures TableAt(s'.mem, Target(s), Extend(path, i)) == Some(f)
  {
    assert IsRoot(s, Target(s));
    PathRoles(s, Target(s), path);
    match path
    case AtP4 =>
    case AtP3(i4) =>
    case AtP2(i4, i3) => PathRoles(s, Target(s), AtP3(i4));
  }

  /** What `next_table_create` does when it has to create the table: one frame becomes an empty table. */
  ghost predicate Created(s: State, s': State, path: Path, i: Index, f: Frame)
    requires !path.AtP1?
  {
    && Prepared(s, s') && TableAt(s'.mem, Target(s), Extend(path, i)) == Some(f)
    && f in s.free && s'.free == s.free - {f} && (forall g :: g in s'.shape ==> g in s.shape || g == f)
    && (forall j: Index :: At(s'.mem, f, j) == UNUSED)
    && (forall q :: NewTableAt(s, s', q) ==> q == Extend(path, i))
  }

  /** The path leads to a table now, and did not before. */
  ghost predicate NewTableAt(s: State, s': State, path: Path) {
    OrdinaryPath(path) && TableAt(s'.mem, Target(s), path).Some? && TableAt(s.mem, Target(s), path).None?
  }

  lemma LinkCreates(s: State, path: Path, i: Index, f: Frame)
    requires Inv(s) && !path.AtP1? && OrdinaryPath(Extend(path, i))
    requires TableAt(s.mem, Target(s), path).Some?
    requires Enabled(s, Link(TableAt(s.mem, Target(s), path).value, i, f))
    ensures Created(s, LinkState(s, TableAt(s.mem, Target(s), path).value, i, f), path, i, f)
  {
    var t := TableAt(s.mem, Target(s), path).value;
    var s' := LinkState(s, t, i, f);
    LinkEffect(s, t, i, f);
    LinkKeeps(s, t, i, f);
    LinkedInFramed(s, s', path, i, f);
    LinkPaths(s, s', path, i, f);
    forall r, p: VPage | IsRoot(s, r) && Ordinary(p)
      ensures MmuWalk(s'.mem, r, p) == MmuWalk(s.mem, r, p)
    {
      LinkKeepsWalk(s, s', t, i, f, r, p);
    }
    forall q | NewTableAt(s, s', q) ensures q == Extend(path, i) {
      LinkOnlyNew(s, s', t, i, f, q);
      Unaliased(s', Target(s), q, Target(s), Extend(path, i));
    }
  }

  /** A link leads nowhere but to the new table. */
  lemma LinkOnlyNew(s: State, s': State, t: Frame, i: Index, f: Frame, path: Path)
    requires Inv(s) && LinkedIn(s, s', t, i, f) && NewTableAt(s, s', path)
    ensures TableAt(s'.mem, Target(s), path) == Some(f)
  {
    assert IsRoot(s, Target(s));
    match path
    case AtP3(i4) =>
    case AtP2(i4, i3) =>
      LinkBelow(s, s', t, i, f, AtP3(i4), i3);
    case AtP1(i4, i3, i2) =>
      LinkBelow(s, s', t, i, f, AtP3(i4), i3);
      LinkBelow(s, s', t, i, f, AtP2(i4, i3), i2);
  }

  lemma LinkBelow(s: State, s': State, t: Frame, i: Index, f: Frame, path: Path, j: Index)
    requires Inv(s) && LinkedIn(s, s', t, i, f) && (path.AtP3? || path.AtP2?)
    requires NewTableAt(s, s', path) ==> TableAt(s'.mem, Target(s), path) == Some(f)
    ensures NewTableAt(s, s', Extend(path, j)) ==> TableAt(s'.mem, Target(s), Extend(path, j)) == Some(f)
  {
    var r := Target(s);
    assert IsRoot(s, r);
    if TableAt(s.mem, r, path).Some? && OrdinaryPath(path) {
      LinkKeepsPath(s, s', t, i, f, r, path);
      PathRoles(s, r, path);
    }
  }

  lemma LinkKeepsSmallPages(s: State, s': State, t: Frame, i: Index, f: Frame, r: Frame, p: VPage)
    requires Inv(s) && LinkedIn(s, s', t, i, f) && IsRoot(s, r) && Ordinary(p) && SmallPages(s.mem, r, p)
    ensures SmallPages(s'.mem, r, p)
  {
    WalkRoles(s, r, p);
  }

  /** Tables were linked in and nothing else happened. */
  ghost predicate Prepared(s: State, s': State) {
    && Inv(s') && Framed(s, s') && Grown(s, s') && SameViews(s, s') && Target(s') == Target(s)
    && s'.held == s.held && (forall f :: f in s.shape ==> f in s'.shape)
  }

  lemma PreparedTrans(s0: State, s1: State, s2: State)
    requires Inv(s0) && Prepared(s0, s1) && Prepared(s1, s2)
    ensures Prepared(s0, s2)
  {
    FramedTrans(s0, s1, s2);
    GrownTrans(s0, s1, s2);
  }

  // ---------------------------------------------------------------- which tables, and how many

  /** How many tables `map_to` has to create for a page. */
  function MissingTables(mem: Mem, r: Frame, p: VPage): nat {
    if TableAt(mem, r, AtP3(p.p4)).None? then 3
    else if TableAt(mem, r, AtP2(p.p4, p.p3)).None? then 2
    else if TableAt(mem, r, P1Path(p)).None? then 1
    else 0
  }

  /** `f` is one of the three tables on the way to a page. */
  predicate OnPath(mem: Mem, r: Frame, p: VPage, f: Frame) {
    || TableAt(mem, r, AtP3(p.p4)) == Some(f) || TableAt(mem, r, AtP2(p.p4, p.p3)) == Some(f)
    || TableAt(mem, r, P1Path(p)) == Some(f)
  }

  /** Every new table is on the way to `page`, and the others have the places they had. */
  ghost predicate NewOnPath(s: State, s': State, page: VPage) {
    && (forall f :: f in s'.shape && f !in s.shape && !s'.shape[f].Owned? ==> OnPath(s'.mem, Target(s), page, f))
    && (forall f :: f in s'.shape && f in s.shape && !s'.shape[f].Owned? ==> s'.shape[f] == s.shape[f])
    && (forall path :: NewTableAt(s, s', path) ==> Leads(path, page))
  }

  /** The path is one of the three on the way to a page. */
  predicate Leads(path: Path, page: VPage) {
    path == AtP3(page.p4) || path == AtP2(page.p4, page.p3) || path == P1Path(page)
  }

  ghost predicate NoNewTables(s: State, s': State) {
    forall path :: !NewTableAt(s, s', path)
  }

  /** Tables were linked in on the way to `page`, each for one frame, and nothing else happened. */
  ghost predicate TablesAdded(s: State, s': State, page: VPage) {
    && Prepared(s, s') && NewOnPath(s, s', page)
    && |s.free| + MissingTables(s'.mem, Target(s), page) == |s'.free| + MissingTables(s.mem, Target(s), page)
  }

  /** Entry `i` of the table at `path` is on the way to `page`. */
  predicate Along(path: Path, i: Index, page: VPage) {
    || (path == AtP4 && i == page.p4) || (path == AtP3(page.p4) && i == page.p3)
    || (path == AtP2(page.p4, page.p3) && i == page.p2)
  }

  lemma NothingAdded(s: State, page: VPage)
    requires Inv(s)
    ensures TablesAdded(s, s, page)
  {
  }

  lemma CreatedAdds(s: State, s': State, path: Path, i: Index, f: Frame, page: VPage)
    requires !path.AtP1? && Created(s, s', path, i, f) && Along(path, i, page) && Ordinary(page) && IsRoot(s, Target(s))
    requires TableAt(s.mem, Target(s), path).Some? && TableAt(s.mem, Target(s), Extend(path, i)).None?
    ensures TablesAdded(s, s', page)
  {
    CreatedCounts(s, s', path, i, f, page);
    assert OnPath(s'.mem, Target(s), page, f);
  }

  lemma CreatedCounts(s: State, s': State, path: Path, i: Index, f: Frame, page: VPage)
    requires !path.AtP1? && Created(s, s', path, i, f) && Along(path, i, page) && Ordinary(page) && IsRoot(s, Target(s))
    requires TableAt(s.mem, Target(s), path).Some? && TableAt(s.mem, Target(s), Extend(path, i)).None?
    ensures MissingTables(s'.mem, Target(s), page) + 1 == MissingTables(s.mem, Target(s), page)
  {
    match path
    case AtP4 =>
    case AtP3(i4) =>
    case AtP2(i4, i3) => assert TableAt(s.mem, Target(s), AtP3(i4)).Some?;
  }

  lemma TablesAddedTrans(s0: State, s1: State, s2: State, page: VPage)
    requires Inv(s0) && Ordinary(page) && TablesAdded(s0, s1, page) && TablesAdded(s1, s2, page)
    ensures TablesAdded(s0, s2, page)
  {
    PreparedTrans(s0, s1, s2);
    NewOnPathTrans(s0, s1, s2, page);
  }

  /** Writing the leaf creates nothing. */
  lemma LeafOnPath(s0: State, s1: State, s2: State, page: VPage, e: Entry)
    requires Inv(s0) && Ordinary(page) && Prepared(s0, s1) && NewOnPath(s0, s1, page) && LeafChanged(s1, s2, page, e)
    requires NoNewTables(s1, s2) && forall f :: f in s2.shape ==> f in s1.shape
    ensures NewOnPath(s0, s2, page)
  {
    NewOnPathTrans(s0, s1, s2, page);
  }

  /** What the count of new tables says about the allocator. */
  lemma AddedCounts(s: State, s': State, page: VPage)
    requires TablesAdded(s, s', page)
    ensures TableAt(s'.mem, Target(s), P1Path(page)).Some? ==> |s.free| == |s'.free| + MissingTables(s.mem, Target(s), page)
    ensures s'.free == {} && MissingTables(s'.mem, Target(s), page) > 0 ==> |s.free| < MissingTables(s.mem, Target(s), page)
  {
  }

  lemma NewOnPathTrans(s0: State, s1: State, s2: State, page: VPage)
    requires Ordinary(page) && Framed(s1, s2) && Target(s1) == Target(s0) && IsRoot(s1, Target(s0))
    requires NewOnPath(s0, s1, page) && NewOnPath(s1, s2, page)
    requires forall f :: f in s2.shape && f in s1.shape ==> s2.shape[f] == s1.shape[f]
    requires forall f :: f in s2.shape && f in s0.shape ==> f in s1.shape
    ensures NewOnPath(s0, s2, page)
  {
    forall f | f in s2.shape && f !in s0.shape && !s2.shape[f].Owned? ensures OnPath(s2.mem, Target(s0), page, f) {
      if f in s1.shape { assert OnPath(s1.mem, Target(s0), page, f); }
    }
    forall path | NewTableAt(s0, s2, path) ensures Leads(path, page) {
      assert NewTableAt(s0, s1, path) || NewTableAt(s1, s2, path);
    }
  }

  lemma LinkKeepsPath(s: State, s': State, t: Frame, i: Index, f: Frame, r: Frame, path: Path)
    requires Inv(s) && LinkedIn(s, s', t, i, f) && IsRoot(s, r) && OrdinaryPath(path)
    requires TableAt(s.mem, r, path).Some?
    ensures TableAt(s'.mem, r, path) == TableAt(s.mem, r, path)
    decreases 4 - PathLevel(path)
  {
    match path
    case AtP4 =>
    case AtP3(i4) =>
    case AtP2(i4, i3) =>
      LinkKeepsPath(s, s', t, i, f, r, AtP3(i4));
      PathRoles(s, r, AtP3(i4));
    case AtP1(i4, i3, i2) =>
      LinkKeepsPath(s, s', t, i, f, r, AtP2(i4, i3));
      PathRoles(s, r, AtP2(i4, i3));
  }

  function LeafOf(e: Entry): Leaf {
    if e.flags.present then Page4K(e) else NoLeaf
  }

  /** The frame that `page` owned leaves it exactly when another entry takes its place, and is held. */
  ghost predicate Handover(s: State, s': State, page: VPage, e: Entry) {
    && (forall f :: f in s.shape && f !in s'.shape ==> f in s'.held && Owns(s, Target(s), page, f))
    && (forall f :: Owns(s, Target(s), page, f) ==> (f in s'.shape <==> e.flags.present && e.frame == f))
    && (forall f :: f in s'.held && f !in s.held ==> f in s.shape)
  }

  /**
   What setting the P1 entry of `page` amounts to: the plain-map update, with the frame that the
   page owned, if another one takes its place, handed over to `held`.
   */
  ghost predicate LeafChanged(s: State, s': State, page: VPage, e: Entry) {
    && Inv(s') && Framed(s, s') && Grown(s, s') && Target(s') == Target(s)
    && Remapped(s, s', page, LeafOf(e))
    && TableAt(s'.mem, Target(s), P1Path(page)).Some?
    && Handover(s, s', page, e)
  }

  lemma SetLeafChanges(s: State, page: VPage, e: Entry)
    requires Inv(s) && Ordinary(page) && TableAt(s.mem, Target(s), P1Path(page)).Some?
    requires IsP1(s, TableAt(s.mem, Target(s), P1Path(page)).value)
    ensures var s' := SetLeafState(s, TableAt(s.mem, Target(s), P1Path(page)).value, page.p1, e);
            LeafChanged(s, s', page, e) && NoNewTables(s, s')
  {
    var t := TableAt(s.mem, Target(s), P1Path(page)).value;
    var s' := SetLeafState(s, t, page.p1, e);
    SetLeafKeeps(s, t, page.p1, e);
    SameTablesFramed(s, s');
    SameTablesSamePath(s, s', Target(s), P1Path(page));
    forall r, p: VPage | IsRoot(s, r) && Ordinary(p)
      ensures MmuWalk(s'.mem, r, p) ==
              if p == page && SameTop(s.mem, r, Target(s), page.p4) then LeafOf(e) else MmuWalk(s.mem, r, p)
    {
      SetLeafWalk(s, s', Target(s), page, e, r, p);
    }
    SetLeafOwnership(s, page, e);
  }

  /** Changes below the tables are framed, whatever they are. */
  lemma SameTablesFramed(s: State, s': State)
    requires Inv(s) && SameTables(s, s') && s'.mem.Keys == s.mem.Keys
    ensures Framed(s, s') && Target(s') == Target(s) && NoNewTables(s, s')
  {
    assert IsRoot(s, Target(s)) && IsRoot(s, s.cr3);
    forall path | OrdinaryPath(path) ensures TableAt(s'.mem, Target(s), path) == TableAt(s.mem, Target(s), path) {
      SameTablesSamePath(s, s', Target(s), path);
    }
    forall r, path | IsRoot(s, r) && OrdinaryPath(path) && TableAt(s.mem, r, path).Some?
      ensures TableAt(s'.mem, r, path) == TableAt(s.mem, r, path)
    {
      SameTablesSamePath(s, s', r, path);
    }
    forall r, p: VPage | IsRoot(s, r) && Ordinary(p) && SmallPages(s.mem, r, p)
      ensures SmallPages(s'.mem, r, p)
    {
      SameTablesSmallPages(s, s', r, p);
    }
  }

  lemma SameTablesSmallPages(s: State, s': State, r: Frame, p: VPage)
    requires Inv(s) && SameTables(s, s') && IsRoot(s, r) && Ordinary(p) && SmallPages(s.mem, r, p)
    ensures SmallPages(s'.mem, r, p)
  {
    WalkRoles(s, r, p);
    SameTablesSamePath(s, s', r, AtP3(p.p4));
    SameTablesSamePath(s, s', r, AtP2(p.p4, p.p3));
  }

  lemma SetLeafOwnership(s: State, page: VPage, e: Entry)
    requires Inv(s) && Ordinary(page) && TableAt(s.mem, Target(s), P1Path(page)).Some?
    requires IsP1(s, TableAt(s.mem, Target(s), P1Path(page)).value)
    ensures var s' := SetLeafState(s, TableAt(s.mem, Target(s), P1Path(page)).value, page.p1, e);
            Grown(s, s') && Handover(s, s', page, e)
  {
    WalkByP1(s.mem, Target(s), page);
  }

  /** First tables are linked in, then the leaf is set: together, one plain-map update. */
  lemma PreparedThenChanged(s0: State, s1: State, s2: State, page: VPage, e: Entry)
    requires Inv(s0) && Prepared(s0, s1) && LeafChanged(s1, s2, page, e) && Ordinary(page)
    ensures LeafChanged(s0, s2, page, e)
  {
    FramedTrans(s0, s1, s2);
    GrownTrans(s0, s1, s2);
    HandoverBefore(s0, s1, s2, page, e);
    RemappedBefore(s0, s1, s2, page, LeafOf(e));
  }

  lemma RemappedBefore(s0: State, s1: State, s2: State, page: VPage, leaf: Leaf)
    requires Framed(s0, s1) && SameViews(s0, s1) && Remapped(s1, s2, page, leaf)
    requires Target(s1) == Target(s0) && IsRoot(s0, Target(s0))
    ensures Remapped(s0, s2, page, leaf)
  {
  }

  lemma HandoverBefore(s0: State, s1: State, s2: State, page: VPage, e: Entry)
    requires Inv(s0) && Prepared(s0, s1) && Accounted(s2) && Handover(s1, s2, page, e) && Ordinary(page)
    ensures Handover(s0, s2, page, e)
  {
    OwnsBefore(s0, s1, page);
    HandoverFrames(s0, s1, s2, page, e);
  }

  lemma HandoverFrames(s0: State, s1: State, s2: State, page: VPage, e: Entry)
    requires Grown(s0, s1) && s1.held == s0.held && Accounted(s2) && Handover(s1, s2, page, e)
    ensures forall f :: f in s2.held && f !in s0.held ==> f in s0.shape
  {
  }

  lemma OwnsBefore(s0: State, s1: State, page: VPage)
    requires Inv(s0) && Prepared(s0, s1) && Ordinary(page)
    ensures forall f :: f in s0.shape ==> (Owns(s0, Target(s0), page, f) <==> Owns(s1, Target(s0), page, f))
  {
    assert IsRoot(s0, Target(s0));
    WalkByP1(s0.mem, Target(s0), page);
  }

  /** What an operation on `page` leaves alone: owned frames of other pages, held frames, all data. */
  ghost predicate Kept(s: State, s': State, page: VPage) {
    && s.held <= s'.held && (forall g :: g in s'.held && g !in s.held ==> Owns(s, Target(s), page, g))
    && (forall p: VPage, g :: Ordinary(p) && p != page && Owns(s, Target(s), p, g) ==> Owns(s', Target(s), p, g))
    && (forall g: Frame, j: Index :: g !in s.free && (g in s.shape ==> s.shape[g].Owned?) ==>
          At(s'.mem, g, j) == At(s.mem, g, j))
  }

  /** Two pages of one address space never share a P1 slot. */
  lemma SlotsDiffer(s: State, r: Frame, p: VPage, q: VPage)
    requires TablesInv(s) && IsRoot(s, r) && Ordinary(p) && Ordinary(q) && p != q
    requires TableAt(s.mem, r, P1Path(p)).Some? && TableAt(s.mem, r, P1Path(q)).Some?
    ensures TableAt(s.mem, r, P1Path(p)) != TableAt(s.mem, r, P1Path(q)) || p.p1 != q.p1
  {
    if TableAt(s.mem, r, P1Path(p)) == TableAt(s.mem, r, P1Path(q)) {
      Unaliased(s, r, P1Path(p), r, P1Path(q));
    }
  }

  lemma LeafChangedKeeps(s: State, s': State, page: VPage, e: Entry)
    requires Inv(s) && Ordinary(page) && LeafChanged(s, s', page, e)
    ensures Kept(s, s', page)
  {
    forall p: VPage, g | Ordinary(p) && p != page && Owns(s, Target(s), p, g)
      ensures Owns(s', Target(s), p, g)
    {
      OwnsPersists(s, s', page, e, p, g);
    }
  }

  /** Setting the entry of a page that was not mapped hands nothing over. */
  lemma ChangedHolds(s: State, s': State, page: VPage, e: Entry)
    requires Inv(s) && Ordinary(page) && LeafChanged(s, s', page, e) && MmuWalk(s.mem, Target(s), page) == NoLeaf
    ensures s'.held == s.held
  {
    LeafChangedKeeps(s, s', page, e);
  }

  /** What is held now was held before, or was behind a page that owned it; and no page owns a frame that none did. */
  ghost predicate OnlyHandedOver(s: State, s': State) {
    && (forall g :: g in s'.held && g !in s.held ==> g in s.shape && s.shape[g].Owned?)
    && NoneAdopted(s, s')
  }

  ghost predicate NoneAdopted(s: State, s': State) {
    forall g :: g in s'.shape && s'.shape[g].Owned? ==> g in s.shape && s.shape[g].Owned?
  }

  lemma HandedOverTrans(s0: State, s1: State, s2: State)
    requires OnlyHandedOver(s0, s1) && OnlyHandedOver(s1, s2)
    ensures OnlyHandedOver(s0, s2)
  {
  }

  lemma ChangedHandsOver(s: State, s': State, page: VPage, e: Entry)
    requires Inv(s) && Ordinary(page) && LeafChanged(s, s', page, e)
    ensures OnlyHandedOver(s, s')
  {
    LeafChangedKeeps(s, s', page, e);
  }

  lemma OwnsPersists(s: State, s': State, page: VPage, e: Entry, p: VPage, g: Frame)
    requires Inv(s) && Ordinary(page) && LeafChanged(s, s', page, e)
    requires Ordinary(p) && p != page && Owns(s, Target(s), p, g)
    ensures Owns(s', Target(s), p, g)
  {
    assert IsRoot(s, Target(s));
    assert MmuWalk(s'.mem, Target(s), p) == MmuWalk(s.mem, Target(s), p);
    assert TableAt(s'.mem, Target(s), P1Path(p)) == TableAt(s.mem, Target(s), P1Path(p));
    if g !in s'.shape {
      assert Owns(s, Target(s), page, g);
      SlotsDiffer(s, Target(s), p, page);
    }
  }

  /** What a successful `map` amounts to: the plain-map update, on a fresh frame the page now owns. */
  ghost predicate MappedFresh(s: State, s': State, page: VPage, f: Frame, flags: EntryFlags) {
    && Inv(s') && Framed(s, s') && Target(s') == Target(s)
    && Remapped(s, s', page, Page4K(Entry(f, flags.Or(PRESENT))))
    && f in s.free && s'.free <= s.free - {f}
    && Owns(s', Target(s), page, f)
    && Kept(s, s', page)
  }

  /** Nothing happened for want of a single frame, or exactly one frame left the allocator for nothing. */
  ghost predicate LosesOne(s: State, s': State) {
    || (s.free == {} && s' == s)
    || (exists f :: f in s.free && s'.held == s.held + {f})
  }

  /** What running out of memory in the middle of `map` leaves: tables, and one leaked frame. */
  ghost predicate Leaked(s: State, s': State) {
    && Inv(s') && Framed(s, s') && Target(s') == Target(s) && SameViews(s, s')
    && s'.free == {} && LosesOne(s, s')
    && (forall p: VPage, g :: Ordinary(p) && Owns(s, Target(s), p, g) ==> Owns(s', Target(s), p, g))
    && (forall g: Frame, j: Index :: g !in s.free && (g in s.shape ==> s.shape[g].Owned?) ==>
          At(s'.mem, g, j) == At(s.mem, g, j))
  }

  // ---------------------------------------------------------------- map and unmap

  ghost function TakeState(s: State, f: Frame): State {
    WithFrames(s, s.free - {f}, s.held + {f}, s.shape)
  }

  ghost function GiveState(s: State, f: Frame): State {
    WithFrames(s, s.free + {f}, s.held - {f}, s.shape)
  }

  /** Same memory: whatever moved between the allocator and `held`, translations and roles stand. */
  lemma FramesMovedFramed(s: State, s': State)
    requires Inv(s) && s' == WithFrames(s, s'.free, s'.held, s.shape)
    ensures Framed(s, s') && SameViews(s, s') && Target(s') == Target(s)
    ensures forall r, p, g :: Owns(s', r, p, g) <==> Owns(s, r, p, g)
  {
    SameTablesFramed(s, s');
  }

  /** Once a page maps a held frame, it can own it. */
  lemma AdoptReady(s: State, r: Frame, page: VPage, e: Entry)
    requires Inv(s) && IsRoot(s, r) && Ordinary(page) && e.flags.present && e.frame in s.held
    requires MmuWalk(s.mem, r, page) == Page4K(e)
    ensures TableAt(s.mem, r, P1Path(page)).Some?
    ensures var t := TableAt(s.mem, r, P1Path(page)).value;
            && Enabled(s, Adopt(t, page.p1)) && At(s.mem, t, page.p1) == e
            && Inv(AdoptState(s, t, page.p1)) && Framed(s, AdoptState(s, t, page.p1))
            && Target(AdoptState(s, t, page.p1)) == Target(s)
  {
    var t := TableAt(s.mem, r, P1Path(page)).value;
    WalkByP1(s.mem, r, page);
    PathRoles(s, r, P1Path(page));
    AdoptKeeps(s, t, page.p1);
    SameTablesFramed(s, AdoptState(s, t, page.p1));
  }

  /** Taking a frame first makes no difference to the frame relation. */
  lemma TakeThenFramed(s: State, s2: State, f: Frame)
    requires Inv(s) && Framed(TakeState(s, f), s2)
    ensures Framed(s, s2)
  {
    FramesMovedFramed(s, TakeState(s, f));
    FramedTrans(s, TakeState(s, f), s2);
  }

  /** `map`: take a frame, map it, and let the page own it. */
  lemma TakeMapAdopt(s: State, s2: State, page: VPage, f: Frame, flags: EntryFlags)
    requires Inv(s) && f in s.free && Ordinary(page)
    requires Inv(TakeState(s, f)) && LeafChanged(TakeState(s, f), s2, page, Entry(f, flags.Or(PRESENT)))
    ensures TableAt(s2.mem, Target(s), P1Path(page)).Some?
    ensures var t := TableAt(s2.mem, Target(s), P1Path(page)).value;
            && Enabled(s2, Adopt(t, page.p1)) && At(s2.mem, t, page.p1).frame == f
            && MappedFresh(s, AdoptState(s2, t, page.p1), page, f, flags)
  {
    var s1 := TakeState(s, f);
    assert IsRoot(s1, Target(s)) by { assert IsRoot(s, Target(s)); }
    assert MmuWalk(s2.mem, Target(s), page) == Page4K(Entry(f, flags.Or(PRESENT)));
    AdoptReady(s2, Target(s), page, Entry(f, flags.Or(PRESENT)));
    var s3 := AdoptState(s2, TableAt(s2.mem, Target(s), P1Path(page)).value, page.p1);
    TakeThenFramed(s, s2, f);
    FramedTrans(s, s2, s3);
    LeafChangedKeeps(s1, s2, page, Entry(f, flags.Or(PRESENT)));
    AdoptMapped(s, s1, s2, page, f, flags);
  }

  /** Taking a frame first makes no difference to which tables are new. */
  lemma TakeOnPath(s: State, s2: State, page: VPage, f: Frame)
    requires NewOnPath(TakeState(s, f), s2, page)
    ensures NewOnPath(s, s2, page)
  {
    forall path | NewTableAt(s, s2, path) ensures Leads(path, page) {
      assert NewTableAt(TakeState(s, f), s2, path);
    }
  }

  lemma TakeCounts(s: State, f: Frame)
    requires f in s.free
    ensures |TakeState(s, f).free| + 1 == |s.free|
  {
  }

  lemma AdoptOnPath(s: State, s2: State, page: VPage, f: Frame)
    requires NewOnPath(TakeState(s, f), s2, page) && TableAt(s2.mem, Target(s), P1Path(page)).Some?
    requires At(s2.mem, TableAt(s2.mem, Target(s), P1Path(page)).value, page.p1).frame == f
    ensures NewOnPath(s, AdoptState(s2, TableAt(s2.mem, Target(s), P1Path(page)).value, page.p1), page)
  {
    var s3 := AdoptState(s2, TableAt(s2.mem, Target(s), P1Path(page)).value, page.p1);
    forall g | g in s3.shape && g !in s.shape && !s3.shape[g].Owned? ensures OnPath(s3.mem, Target(s), page, g) {
      assert g in s2.shape && !s2.shape[g].Owned?;
    }
  }

  lemma AdoptMapped(s: State, s1: State, s2: State, page: VPage, f: Frame, flags: EntryFlags)
    requires Accounted(s) && Accounted(s2) && f in s.free && Ordinary(page)
    requires s1 == TakeState(s, f) && Remapped(s1, s2, page, Page4K(Entry(f, flags.Or(PRESENT)))) && Kept(s1, s2, page)
    requires s2.free <= s1.free
    requires TableAt(s2.mem, Target(s), P1Path(page)).Some?
    requires var t := TableAt(s2.mem, Target(s), P1Path(page)).value;
             At(s2.mem, t, page.p1) == Entry(f, flags.Or(PRESENT))
    ensures var s3 := AdoptState(s2, TableAt(s2.mem, Target(s), P1Path(page)).value, page.p1);
            && Remapped(s, s3, page, Page4K(Entry(f, flags.Or(PRESENT))))
            && s3.free <= s.free - {f} && Owns(s3, Target(s), page, f) && Kept(s, s3, page)
  {
    var t := TableAt(s2.mem, Target(s), P1Path(page)).value;
    var s3 := AdoptState(s2, t, page.p1);
    WalkByP1(s2.mem, Target(s), page);
    assert f in s1.held && f in s2.held;
    assert f !in s2.shape;
    AdoptKept(s, s1, s2, s3, page, f);
  }

  lemma AdoptKept(s: State, s1: State, s2: State, s3: State, page: VPage, f: Frame)
    requires f in s.free && s1 == TakeState(s, f) && Kept(s1, s2, page) && f !in s2.shape
    requires s3.mem == s2.mem && s3.held == s2.held - {f} && f !in s.held
    requires forall g :: g in s2.shape ==> g in s3.shape && s3.shape[g] == s2.shape[g]
    ensures Kept(s, s3, page)
  {
    forall p: VPage, g | Ordinary(p) && p != page && Owns(s, Target(s), p, g)
      ensures Owns(s3, Target(s), p, g)
    {
      assert Owns(s1, Target(s1), p, g);
      assert Owns(s2, Target(s1), p, g);
    }
  }

  lemma LeakedNothing(s: State, page: VPage)
    requires Inv(s) && s.free == {}
    ensures Leaked(s, s) && NewOnPath(s, s, page)
  {
  }

  /** `map` without memory for the tables: the frame it took is lost to `held`. */
  lemma TakeThenPrepared(s: State, s': State, f: Frame)
    requires Inv(s) && f in s.free && Inv(TakeState(s, f)) && Prepared(TakeState(s, f), s') && s'.free == {}
    ensures Leaked(s, s')
  {
    var s1 := TakeState(s, f);
    FramesMovedFramed(s, s1);
    FramedTrans(s, s1, s');
    SameViewsTrans(s, s1, s');
    assert IsRoot(s, Target(s));
    forall p: VPage, g | Ordinary(p) && Owns(s, Target(s), p, g) ensures Owns(s', Target(s), p, g) {
      assert Owns(s1, Target(s), p, g);
      OwnsBefore(s1, s', p);
    }
  }

  /** `unmap` of a 2 MiB page: the pages below its entry, in every space that shares its table. */
  ghost predicate HugeUnmapped(s: State, s': State, page: VPage) {
    && Inv(s') && Framed(s, s') && Target(s') == Target(s) && Kept(s, s', page) && s'.free == s.free
    && (forall r, p: VPage :: IsRoot(s, r) && Ordinary(p) ==>
          MmuWalk(s'.mem, r, p) ==
          if p.p4 == page.p4 && p.p3 == page.p3 && p.p2 == page.p2 && SameTop(s.mem, r, Target(s), page.p4)
          then NoLeaf else MmuWalk(s.mem, r, p))
  }

  /**
   `unmap` of a 4 KiB page: the plain-map removal. The frame goes back to the allocator, once, or
   stays with whoever unmapped it.
   */
  ghost predicate PageUnmapped(s: State, s': State, page: VPage, freed: bool) {
    && Inv(s') && Framed(s, s') && Target(s') == Target(s) && Kept(s, s', page)
    && MmuWalk(s.mem, Target(s), page).Page4K? && Remapped(s, s', page, NoLeaf)
    && (freed ==>
          && MmuWalk(s.mem, Target(s), page).entry.frame !in s.free
          && s'.free == s.free + {MmuWalk(s.mem, Target(s), page).entry.frame} && s'.held == s.held)
    && (!freed ==> s'.free == s.free && (forall f :: Owns(s, Target(s), page, f) ==> f in s'.held))
  }

  /** A page whose frame has another use hands nothing over when it is unmapped. */
  lemma UnmappedHolds(s: State, s': State, page: VPage)
    requires PageUnmapped(s, s', page, false)
    requires var f := MmuWalk(s.mem, Target(s), page).entry.frame; f in s.shape ==> !s.shape[f].Owned?
    ensures s'.held == s.held && s'.free == s.free
  {
  }

  lemma ClearedUnmaps(s: State, s': State, page: VPage)
    requires Inv(s) && Ordinary(page) && MmuWalk(s.mem, Target(s), page).Page4K?
    requires LeafChanged(s, s', page, UNUSED) && s'.free == s.free
    ensures PageUnmapped(s, s', page, false)
  {
    LeafChangedKeeps(s, s', page, UNUSED);
  }

  ghost function DropHugeState(s: State, page: VPage): State
    requires TableAt(s.mem, Target(s), AtP2(page.p4, page.p3)).Some?
    requires TableAt(s.mem, Target(s), AtP2(page.p4, page.p3)).value in s.mem
  {
    WithMem(s, Put(s.mem, TableAt(s.mem, Target(s), AtP2(page.p4, page.p3)).value, page.p2, UNUSED))
  }

  lemma HugeEntry(s: State, page: VPage)
    requires Inv(s) && Ordinary(page) && MmuWalk(s.mem, Target(s), page).Page2M?
    ensures TableAt(s.mem, Target(s), AtP2(page.p4, page.p3)).Some?
    ensures var t := TableAt(s.mem, Target(s), AtP2(page.p4, page.p3)).value;
            t in s.mem && Enabled(s, DropHuge(t, page.p2))
  {
    assert IsRoot(s, Target(s));
    PathRoles(s, Target(s), AtP2(page.p4, page.p3));
  }

  lemma DropHugeFramed(s: State, t: Frame, i: Index)
    requires Inv(s) && t in s.mem && Enabled(s, DropHuge(t, i))
    ensures Framed(s, WithMem(s, Put(s.mem, t, i, UNUSED)))
    ensures Target(WithMem(s, Put(s.mem, t, i, UNUSED))) == Target(s)
  {
    var s' := WithMem(s, Put(s.mem, t, i, UNUSED));
    assert IsRoot(s, Target(s)) && IsRoot(s, s.cr3);
    forall r, path | IsRoot(s, r) && OrdinaryPath(path) && TableAt(s.mem, r, path).Some?
      ensures TableAt(s'.mem, r, path) == TableAt(s.mem, r, path)
    {
      DropHugeKeepsPath(s, t, i, r, path);
    }
    forall r, p: VPage | IsRoot(s, r) && Ordinary(p) && SmallPages(s.mem, r, p)
      ensures SmallPages(s'.mem, r, p)
    {
      DropHugeSmallPages(s, t, i, r, p);
    }
  }

  lemma DropHugeChanges(s: State, page: VPage)
    requires Inv(s) && Ordinary(page) && MmuWalk(s.mem, Target(s), page).Page2M?
    requires TableAt(s.mem, Target(s), AtP2(page.p4, page.p3)).Some?
    requires TableAt(s.mem, Target(s), AtP2(page.p4, page.p3)).value in s.mem
    ensures HugeUnmapped(s, DropHugeState(s, page), page)
  {
    HugeEntry(s, page);
    var t := TableAt(s.mem, Target(s), AtP2(page.p4, page.p3)).value;
    var s' := DropHugeState(s, page);
    DropHugeKeeps(s, t, page.p2);
    DropHugeFramed(s, t, page.p2);
    DropHugeOwns(s, page);
    forall r, p: VPage | IsRoot(s, r) && Ordinary(p)
      ensures MmuWalk(s'.mem, r, p) ==
              if p.p4 == page.p4 && p.p3 == page.p3 && p.p2 == page.p2 && SameTop(s.mem, r, Target(s), page.p4)
              then NoLeaf else MmuWalk(s.mem, r, p)
    {
      DropHugeWalk(s, Target(s), page, r, p);
    }
  }

  lemma DropHugeOwns(s: State, page: VPage)
    requires Inv(s) && Ordinary(page) && MmuWalk(s.mem, Target(s), page).Page2M?
    requires TableAt(s.mem, Target(s), AtP2(page.p4, page.p3)).Some?
    requires var t := TableAt(s.mem, Target(s), AtP2(page.p4, page.p3)).value; t in s.mem && t in s.shape && Level(s.shape[t]) == 2
    ensures Kept(s, WithMem(s, Put(s.mem, TableAt(s.mem, Target(s), AtP2(page.p4, page.p3)).value, page.p2, UNUSED)), page)
  {
    var t := TableAt(s.mem, Target(s), AtP2(page.p4, page.p3)).value;
    var s' := WithMem(s, Put(s.mem, t, page.p2, UNUSED));
    assert IsRoot(s, Target(s));
    forall p: VPage, g | Ordinary(p) && p != page && Owns(s, Target(s), p, g) ensures Owns(s', Target(s), p, g) {
      DropHugeWalk(s, Target(s), page, Target(s), p);
      DropHugeKeepsPath(s, t, page.p2, Target(s), P1Path(p));
    }
  }

  lemma DropHugeKeepsPath(s: State, t: Frame, i: Index, r: Frame, path: Path)
    requires Inv(s) && Enabled(s, DropHuge(t, i)) && t in s.mem && IsRoot(s, r) && OrdinaryPath(path)
    requires TableAt(s.mem, r, path).Some?
    ensures TableAt(Put(s.mem, t, i, UNUSED), r, path) == TableAt(s.mem, r, path)
    decreases 4 - PathLevel(path)
  {
    match path
    case AtP4 =>
    case AtP3(i4) =>
    case AtP2(i4, i3) =>
      DropHugeKeepsPath(s, t, i, r, AtP3(i4));
    case AtP1(i4, i3, i2) =>
      DropHugeKeepsPath(s, t, i, r, AtP2(i4, i3));
  }

  lemma DropHugeSmallPages(s: State, t: Frame, i: Index, r: Frame, p: VPage)
    requires Inv(s) && Enabled(s, DropHuge(t, i)) && t in s.mem && IsRoot(s, r) && Ordinary(p)
    requires SmallPages(s.mem, r, p)
    ensures SmallPages(Put(s.mem, t, i, UNUSED), r, p)
  {
    WalkRoles(s, r, p);
  }

  /** An owned page mapped writable in the active space can be zeroed through its own address. */
  lemma OwnedPageWritable(s: State, page: VPage, f: Frame)
    requires Inv(s) && Ordinary(page) && Owns(s, s.cr3, page, f)
    requires MmuWalk(s.mem, s.cr3, page).entry.flags.writable
    ensures Translate(s.mem, s.cr3, page) == Some(f) && f in s.mem
    ensures Writable(s.mem, s.cr3, page) && WalkAvoids(s.mem, s.cr3, page, f)
  {
    assert IsRoot(s, s.cr3);
    WalkRoles(s, s.cr3, page);
    assert Upper(s, s.cr3, page.p4);
    assert Upper(s, Entry4(s.mem, s.cr3, page).frame, page.p3);
    assert Upper(s, Entry3(s.mem, s.cr3, page).frame, page.p2);
  }

  ghost function FillState(s: State, f: Frame, contents: Table): State {
    WithMem(s, PutFrame(s.mem, f, contents))
  }

  /** Writing to data changes no translation and no role. */
  lemma FillFramed(s: State, f: Frame, contents: Table)
    requires Inv(s) && f in s.mem && (f in s.shape ==> s.shape[f].Owned?)
    ensures var s' := FillState(s, f, contents);
            && Inv(s') && Framed(s, s') && SameViews(s, s') && Target(s') == Target(s) && NoNewTables(s, s')
            && (forall r, p: VPage, g :: IsRoot(s, r) && Ordinary(p) && Owns(s, r, p, g) ==> Owns(s', r, p, g))
  {
    var s' := FillState(s, f, contents);
    FillKeeps(s, f, contents);
    SameTablesFramed(s, s');
    forall r, p: VPage | IsRoot(s, r) && Ordinary(p)
      ensures MmuWalk(s'.mem, r, p) == MmuWalk(s.mem, r, p)
    {
      WalkRoles(s, r, p);
      SameTablesWalk(s, s', r, p);
    }
  }

  /** A page that `map` has just mapped can be written exactly if it was mapped writable. */
  lemma FreshWritable(s: State, s': State, page: VPage, f: Frame, flags: EntryFlags)
    requires Inv(s) && Target(s) == s.cr3 && Ordinary(page) && MappedFresh(s, s', page, f, flags)
    ensures Writable(s'.mem, s'.cr3, page) <==> flags.writable
  {
    assert IsRoot(s, Target(s));
    assert MmuWalk(s'.mem, s'.cr3, page) == Page4K(Entry(f, flags.Or(PRESENT)));
    if flags.writable { OwnedPageWritable(s', page, f); }
  }

  lemma MappedThenFilled(s: State, s3: State, page: VPage, f: Frame, flags: EntryFlags, contents: Table)
    requires Inv(s) && Ordinary(page) && MappedFresh(s, s3, page, f, flags)
    ensures MappedFresh(s, FillState(s3, f, contents), page, f, flags)
    ensures NewOnPath(s, s3, page) ==> NewOnPath(s, FillState(s3, f, contents), page)
  {
    FillFramed(s3, f, contents);
    FilledOnPath(s, s3, page, f, contents);
    FramedTrans(s, s3, FillState(s3, f, contents));
    RemappedAfter(s, s3, FillState(s3, f, contents), page, Page4K(Entry(f, flags.Or(PRESENT))));
    assert IsRoot(s3, Target(s)) by { assert IsRoot(s, Target(s)); }
    KeptThenFilled(s, s3, page, f, contents);
  }

  lemma FilledOnPath(s: State, s3: State, page: VPage, f: Frame, contents: Table)
    requires Inv(s) && Ordinary(page) && Framed(s, s3) && Target(s3) == Target(s) && Framed(s3, FillState(s3, f, contents))
    requires NoNewTables(s3, FillState(s3, f, contents))
    ensures NewOnPath(s, s3, page) ==> NewOnPath(s, FillState(s3, f, contents), page)
  {
    assert IsRoot(s, Target(s)) && IsRoot(s3, Target(s));
    if NewOnPath(s, s3, page) { NewOnPathTrans(s, s3, FillState(s3, f, contents), page); }
  }

  lemma KeptThenFilled(s: State, s3: State, page: VPage, f: Frame, contents: Table)
    requires Inv(s3) && Kept(s, s3, page) && f in s.free && f in s3.shape && s3.shape[f].Owned?
    requires IsRoot(s3, Target(s))
    ensures Kept(s, FillState(s3, f, contents), page)
  {
    FillFramed(s3, f, contents);
  }

  lemma RemappedAfter(s0: State, s1: State, s2: State, page: VPage, leaf: Leaf)
    requires Framed(s0, s1) && Remapped(s0, s1, page, leaf) && SameViews(s1, s2)
    ensures Remapped(s0, s2, page, leaf)
  {
  }

  /** Giving back the frame that an unmapped page owned. */
  lemma UnmapThenGive(s: State, s1: State, page: VPage, f: Frame)
    requires Inv(s) && Ordinary(page) && Owns(s, Target(s), page, f)
    requires LeafChanged(s, s1, page, UNUSED) && s1.free == s.free
    ensures f in s1.held
    ensures var s2 := GiveState(s1, f);
            PageUnmapped(s, s2, page, true)
  {
    var s2 := GiveState(s1, f);
    GiveKeeps(s1, f);
    FramesMovedFramed(s1, s2);
    FramedTrans(s, s1, s2);
    RemappedAfter(s, s1, s2, page, NoLeaf);
    LeafChangedKeeps(s, s1, page, UNUSED);
    GivenBack(s, s1, page, f);
  }

  lemma GivenBack(s: State, s1: State, page: VPage, f: Frame)
    requires Inv(s) && Owns(s, Target(s), page, f)
    requires Inv(s1) && Grown(s, s1) && Handover(s, s1, page, UNUSED)
    ensures f in s1.held && s1.held - {f} == s.held
  {
    forall g | g in s1.held && g !in s.held ensures g == f {
      assert g in s.shape && g !in s1.shape;
    }
  }
}
