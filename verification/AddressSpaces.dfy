/**
 Several address spaces: the temporary page, editing an inactive space through a redirected
 recursive slot, creating a process's tables, and switching.
 */
module AddressSpaces {
  import opened Entries
  import opened Pages
  import opened Mmu
  import opened Spaces
  import opened Views
  import opened Changes
  import opened Mapper
  import opened RangeMapping

  // ---------------------------------------------------------------- operations on the target space

  /**
   A mapper operation, by page number. `OpMap` is `map` without zeroing, `OpReflag` one page of
   `set_flags`, and `OpHigherHalf` the range operation on pages `lo` up to `hi`; the other range
   operations are loops of these.
   */
  datatype MapperOp =
    | OpMapTo(number: nat, frame: Frame, flags: EntryFlags)
    | OpMap(number: nat, flags: EntryFlags)
    | OpReflag(number: nat, flags: EntryFlags)
    | OpUnmap(number: nat, freed: bool)
    | OpHigherHalf(lo: nat, hi: nat, flags: EntryFlags)

  predicate OpAllowed(op: MapperOp) {
    match op
    case OpMapTo(n, frame, _) => CanonicalPage(n) && Ordinary(Indices(n)) && frame < 0x10_0000_0000
    case OpHigherHalf(lo, hi, _) => KERNEL_PAGE <= lo && hi <= PAGES_END
    case _ => CanonicalPage(op.number) && Ordinary(Indices(op.number))
  }

  predicate Touches(op: MapperOp, p: VPage) {
    match op
    case OpHigherHalf(lo, hi, _) => lo <= Number(p) < hi
    case _ => Number(p) == op.number
  }

  /** The leaf an operation gives a page it touches, from the one it had. `OpMap` stands for `OpMapTo` its new frame. */
  function OpLeaf(op: MapperOp, was: Leaf, p: VPage): Leaf {
    match op
    case OpMapTo(_, frame, flags) => Page4K(Entry(frame, flags.Or(PRESENT)))
    case OpMap(_, _) => was
    case OpReflag(_, flags) => if was.Page4K? then Page4K(Entry(was.entry.frame, flags.Or(PRESENT))) else was
    case OpUnmap(_, _) => NoLeaf
    case OpHigherHalf(_, _, flags) => Page4K(HigherHalfEntry(p, flags))
  }

  /** What a closure passed to `with_inactive_p4` does: its operations, latest on the outside. */
  datatype Closure = Nothing | Then(first: Closure, op: MapperOp)

  predicate Allowed(ops: Closure) {
    ops.Then? ==> Allowed(ops.first) && OpAllowed(ops.op)
  }

  /** The operations on a plain map from pages to leaves: the last one on a page decides. */
  function Effect(ops: Closure, leaf: Leaf, p: VPage): Leaf {
    match ops
    case Nothing => leaf
    case Then(first, op) =>
      var was := Effect(first, leaf, p);
      if Touches(op, p) then OpLeaf(op, was, p) else was
  }

  /** `done` is `ops` carried out: every `map` became `map_to` the frame it took. */
  ghost predicate Resolved(ops: Closure, done: Closure) {
    match ops
    case Nothing => done.Nothing?
    case Then(first, op) => done.Then? && Resolved(first, done.first) && OpResolved(op, done.op)
  }

  ghost predicate OpResolved(op: MapperOp, done: MapperOp) {
    if op.OpMap? then done.OpMapTo? && done.number == op.number && done.flags == op.flags else done == op
  }

  /** Whether a page owns its frame after an operation, and after a closure. */
  function OpOwned(op: MapperOp, was: bool, p: VPage): bool {
    if Touches(op, p) then op.OpMap? || (op.OpReflag? && was) else was
  }

  function OwnedAfter(ops: Closure, was: bool, p: VPage): bool {
    match ops
    case Nothing => was
    case Then(first, op) => OpOwned(op, OwnedAfter(first, was, p), p)
  }

  /** Page `p` of space `r` maps a frame it owns. */
  ghost predicate OwnedIn(s: State, r: Frame, p: VPage) {
    MmuWalk(s.mem, r, p).Page4K? && Owns(s, r, p, MmuWalk(s.mem, r, p).entry.frame)
  }

  /** Pages are only ever freed together with a frame they own, as the allocator demands. */
  ghost predicate MayFree(s: State, r: Frame, ops: Closure) {
    ops.Then? ==>
      && MayFree(s, r, ops.first)
      && (ops.op.OpUnmap? && ops.op.freed ==>
            OwnedAfter(ops.first, OwnedIn(s, r, Indices(ops.op.number)), Indices(ops.op.number)))
  }

  /** An operation that needs its page mapped panics on this leaf; `set` does not take every frame. */
  predicate Unfit(op: MapperOp, leaf: Leaf) {
    || (op.OpUnmap? && leaf.NoLeaf?)
    || (op.OpReflag? && (leaf.NoLeaf? || (leaf.Page4K? && leaf.entry.frame >= 0x10_0000_0000)))
  }

  /** Having carried out `done`, the closure comes to an operation that panics. */
  ghost predicate Stuck(s: State, r: Frame, ops: Closure, done: Closure) {
    ops.Then? &&
    (|| (&& Resolved(ops.first, done) && (ops.op.OpUnmap? || ops.op.OpReflag?)
         && Unfit(ops.op, Effect(done, MmuWalk(s.mem, r, Indices(ops.op.number)), Indices(ops.op.number))))
     || Stuck(s, r, ops.first, done))
  }

  /** One operation carried out on the target space. */
  ghost predicate OpViews(s: State, s': State, op: MapperOp) {
    forall r, p: VPage :: IsRoot(s, r) && Ordinary(p) ==>
      MmuWalk(s'.mem, r, p) ==
      if Touches(op, p) && SameTop(s.mem, r, Target(s), p.p4) then OpLeaf(op, MmuWalk(s.mem, Target(s), p), p)
      else MmuWalk(s.mem, r, p)
  }

  ghost predicate OpDone(s: State, s': State, op: MapperOp) {
    Inv(s') && Framed(s, s') && Target(s') == Target(s) && OpViews(s, s', op)
  }

  ghost predicate OpOwners(s: State, s': State, op: MapperOp) {
    forall p: VPage {:trigger SelfOwned(s', p)} :: Ordinary(p) && OpOwned(op, SelfOwned(s, p), p) ==> SelfOwned(s', p)
  }

  ghost predicate OpsOwners(s: State, s': State, ops: Closure) {
    forall p: VPage {:trigger SelfOwned(s', p)} :: Ordinary(p) && OwnedAfter(ops, SelfOwned(s, p), p) ==> SelfOwned(s', p)
  }

  /** Page `p` of space `r` shows the effect if the space shares the target's tables for it. */
  ghost predicate OpsView(s: State, s': State, target: Frame, ops: Closure, r: Frame, p: VPage) {
    MmuWalk(s'.mem, r, p) ==
    if SameTop(s.mem, r, target, p.p4) then Effect(ops, MmuWalk(s.mem, target, p), p)
    else MmuWalk(s.mem, r, p)
  }

  /** The target space, and the spaces that share a page's tables, see the effect; no other does. */
  ghost predicate OpsViews(s: State, s': State, target: Frame, ops: Closure) {
    forall r, p: VPage {:trigger OpsView(s, s', target, ops, r, p)} ::
      IsRoot(s, r) && Ordinary(p) ==> OpsView(s, s', target, ops, r, p)
  }

  ghost predicate OpsDone(s: State, s': State, ops: Closure) {
    Inv(s') && Framed(s, s') && Target(s') == Target(s) && OpsViews(s, s', Target(s), ops)
  }

  lemma NoOpsDone(s: State)
    requires Inv(s)
    ensures OpsDone(s, s, Nothing)
  {
    forall r, p: VPage | IsRoot(s, r) && Ordinary(p) ensures OpsView(s, s, Target(s), Nothing, r, p) {
      if SameTop(s.mem, r, Target(s), p.p4) {
        SameTopSameWalk(s.mem, r, Target(s), p);
      }
    }
  }

  lemma OneMoreView(s: State, s1: State, s2: State, ops: Closure, op: MapperOp)
    requires OpsViews(s, s1, Target(s), ops) && Framed(s, s1) && Target(s1) == Target(s) && IsRoot(s, Target(s))
    requires OpViews(s1, s2, op)
    ensures OpsViews(s, s2, Target(s), Then(ops, op))
  {
    forall r, p: VPage | IsRoot(s, r) && Ordinary(p) ensures OpsView(s, s2, Target(s), Then(ops, op), r, p) {
      assert OpsView(s, s1, Target(s), ops, r, p) && OpsView(s, s1, Target(s), ops, Target(s), p);
    }
  }

  lemma OneMoreOp(s: State, s1: State, s2: State, ops: Closure, op: MapperOp)
    requires Inv(s) && OpsDone(s, s1, ops) && OpDone(s1, s2, op)
    ensures OpsDone(s, s2, Then(ops, op))
  {
    FramedTrans(s, s1, s2);
    OneMoreView(s, s1, s2, ops, op);
  }

  lemma OneMoreOwners(s: State, s1: State, s2: State, ops: Closure, op: MapperOp)
    requires OpsOwners(s, s1, ops) && OpOwners(s1, s2, op)
    ensures OpsOwners(s, s2, Then(ops, op))
  {
    forall p: VPage | Ordinary(p) && OwnedAfter(Then(ops, op), SelfOwned(s, p), p) ensures SelfOwned(s2, p) {
      if OwnedAfter(ops, SelfOwned(s, p), p) { assert SelfOwned(s1, p); }
    }
  }

  /**
   Runs the closure. `done` is what was carried out of it. It fails only for want of memory, or at an
   operation on a page that is not mapped.
   */
  method RunOps(m: Machine, ops: Closure) returns (ok: bool, ghost done: Closure)
    requires m.Valid() && Target(m.S()) !in m.boot && Allowed(ops) && MayFree(m.S(), Target(m.S()), ops)
    modifies m
    ensures ok ==> OpsDone(old(m.S()), m.S(), done) && OpsOwners(old(m.S()), m.S(), ops) && Resolved(ops, done)
    ensures ok && GivenFramesOnly(ops) ==> OnlyHandedOver(old(m.S()), m.S())
    ensures !ok ==> m.free == {} || Stuck(old(m.S()), Target(old(m.S())), ops, done)
    decreases ops
  {
    ghost var s := m.S();
    match ops
    case Nothing =>
      NoOpsDone(s);
      ok, done := true, Nothing;
    case Then(first, op) =>
      ok, done := RunOps(m, first);
      if ok {
        ghost var s1 := m.S();
        ok, done := RunNext(m, op, s, first, done);
        if ok && GivenFramesOnly(ops) { HandedOverTrans(s, s1, m.S()); }
      }
  }

  /** One more operation on the target space. */
  method RunNext(m: Machine, op: MapperOp, ghost s0: State, ghost ops: Closure, ghost before: Closure)
    returns (ok: bool, ghost done: Closure)
    requires Inv(s0) && OpsDone(s0, m.S(), before) && OpsOwners(s0, m.S(), ops) && Resolved(ops, before)
    requires Target(s0) !in s0.boot && OpAllowed(op) && MayFree(s0, Target(s0), Then(ops, op))
    modifies m
    ensures ok ==> OpsDone(s0, m.S(), done) && OpsOwners(s0, m.S(), Then(ops, op)) && Resolved(Then(ops, op), done)
    ensures ok && (op.OpMapTo? || op.OpHigherHalf?) ==> OnlyHandedOver(old(m.S()), m.S())
    ensures !ok ==> m.free == {} || Stuck(s0, Target(s0), Then(ops, op), done)
  {
    ghost var s := m.S();
    ghost var result;
    FreeReady(s0, s, ops, before, op);
    ok, result := RunOp(m, op);
    done := before;
    if ok {
      done := Then(before, result);
      OneMoreOwners(s0, s, m.S(), ops, op);
      OneMoreOp(s0, s, m.S(), before, result);
    }
  }

  /** A page to be freed owns its frame, and a page's leaf is the effect so far. */
  lemma FreeReady(s0: State, s: State, ops: Closure, before: Closure, op: MapperOp)
    requires Inv(s0) && OpsDone(s0, s, before) && OpsOwners(s0, s, ops) && OpAllowed(op)
    requires MayFree(s0, Target(s0), Then(ops, op))
    ensures op.OpUnmap? && op.freed ==> SelfOwned(s, Indices(op.number))
    ensures op.OpUnmap? || op.OpReflag? ==>
              Effect(before, MmuWalk(s0.mem, Target(s0), Indices(op.number)), Indices(op.number))
              == MmuWalk(s.mem, Target(s), Indices(op.number))
  {
    assert IsRoot(s0, Target(s0));
    if op.OpUnmap? || op.OpReflag? {
      var p := Indices(op.number);
      assert OpsView(s0, s, Target(s0), before, Target(s0), p);
      assert OwnedAfter(ops, SelfOwned(s0, p), p) ==> SelfOwned(s, p);
    }
  }

  /** One operation; `result` is the operation with the frame that `map` took. */
  method RunOp(m: Machine, op: MapperOp) returns (ok: bool, ghost result: MapperOp)
    requires m.Valid() && Target(m.S()) !in m.boot && OpAllowed(op)
    requires op.OpUnmap? && op.freed ==> SelfOwned(m.S(), Indices(op.number))
    modifies m
    ensures ok ==> OpDone(old(m.S()), m.S(), result) && OpOwners(old(m.S()), m.S(), op) && OpResolved(op, result)
    ensures ok && (op.OpMapTo? || op.OpHigherHalf?) ==> OnlyHandedOver(old(m.S()), m.S())
    ensures !ok ==> m.free == {} || ((op.OpUnmap? || op.OpReflag?)
                                     && Unfit(op, old(MmuWalk(m.mem, Target(m.S()), Indices(op.number)))))
  {
    result := op;
    match op
    case OpMapTo(n, frame, flags) => ok := RunMapTo(m, op, Indices(n));
    case OpMap(n, flags) => ok, result := RunMap(m, op, Indices(n));
    case OpReflag(n, flags) => ok := RunReflag(m, op, Indices(n));
    case OpUnmap(n, freed) => ok := RunUnmap(m, op, Indices(n));
    case OpHigherHalf(lo, hi, flags) =>
      ghost var s := m.S();
      ok := MapHigherHalf(m, lo, hi, flags);
      if ok { RangeOpDone(s, m.S(), lo, hi, flags); }
  }

  method RunMapTo(m: Machine, op: MapperOp, page: VPage) returns (ok: bool)
    requires m.Valid() && Target(m.S()) !in m.boot && op.OpMapTo? && OpAllowed(op) && page == Indices(op.number)
    modifies m
    ensures ok ==> OpDone(old(m.S()), m.S(), op) && OpOwners(old(m.S()), m.S(), op) && OnlyHandedOver(old(m.S()), m.S())
    ensures !ok ==> m.free == {}
  {
    ghost var s := m.S();
    IndicesNumber(op.number);
    BuiltSmallPages(s, Target(s), page);
    ok := m.MapTo(page, op.frame, op.flags);
    if ok {
      ChangedHandsOver(s, m.S(), page, Entry(op.frame, op.flags.Or(PRESENT)));
      ChangedOwned(s, m.S(), page, Entry(op.frame, op.flags.Or(PRESENT)));
      PageOpDone(s, m.S(), op, page);
    }
  }

  /** `map` without zeroing. */
  method MapUnzeroed(m: Machine, page: VPage, flags: EntryFlags) returns (ok: bool, ghost f: Frame)
    requires m.Valid() && Ordinary(page) && SmallPages(m.mem, Target(m.S()), page)
    modifies m
    ensures ok ==> MappedFresh(old(m.S()), m.S(), page, f, flags)
    ensures !ok ==> m.free == {}
  {
    var r;
    r, f := m.Map(page, flags, false);
    ok := r.Placed?;
  }

  method RunMap(m: Machine, op: MapperOp, page: VPage) returns (ok: bool, ghost result: MapperOp)
    requires m.Valid() && Target(m.S()) !in m.boot && op.OpMap? && OpAllowed(op) && page == Indices(op.number)
    modifies m
    ensures ok ==> OpDone(old(m.S()), m.S(), result) && OpOwners(old(m.S()), m.S(), op) && OpResolved(op, result)
    ensures !ok ==> m.free == {}
  {
    ghost var s := m.S();
    IndicesNumber(op.number);
    BuiltSmallPages(s, Target(s), page);
    ghost var f;
    ok, f := MapUnzeroed(m, page, op.flags);
    result := OpMapTo(op.number, f, op.flags);
    if ok {
      MappedOwners(s, m.S(), page, f, op.flags);
      MapOwners(s, m.S(), op, page);
      PageOpDone(s, m.S(), result, page);
    }
  }

  lemma MapOwners(s: State, s': State, op: MapperOp, page: VPage)
    requires op.OpMap? && Number(page) == op.number && SelfOwned(s', page)
    requires forall p: VPage {:trigger SelfOwned(s', p)} :: Ordinary(p) && p != page && SelfOwned(s, p) ==> SelfOwned(s', p)
    ensures OpOwners(s, s', op)
  {
    NumberInjective(page);
  }

  method RunReflag(m: Machine, op: MapperOp, page: VPage) returns (ok: bool)
    requires m.Valid() && Target(m.S()) !in m.boot && op.OpReflag? && OpAllowed(op) && page == Indices(op.number)
    modifies m
    ensures ok ==> OpDone(old(m.S()), m.S(), op) && OpOwners(old(m.S()), m.S(), op)
    ensures !ok ==> Unfit(op, old(MmuWalk(m.mem, Target(m.S()), page)))
  {
    ghost var s := m.S();
    IndicesNumber(op.number);
    BuiltSmallPages(s, Target(s), page);
    SmallPagesWalk(m.mem, Target(s), page);
    TargetRecursive(s);
    SoftWalkIsMmuWalk(m.mem, m.cr3, Target(s), page);
    var walk := WalkPageTable(m.mem, m.cr3, page);
    ok := walk.Mapped? && walk.entry.frame < 0x10_0000_0000;
    if ok {
      SetFlagsOfPage(m, page, op.flags);
      ReflagOwners(s, m.S(), op, page);
      PageOpDone(s, m.S(), op, page);
    }
  }

  lemma ReflagOwners(s: State, s': State, op: MapperOp, page: VPage)
    requires Inv(s) && op.OpReflag? && Number(page) == op.number && Ordinary(page) && Target(s') == Target(s)
    requires OwnersKept(s, s') && MmuWalk(s.mem, Target(s), page).Page4K?
    requires Remapped(s, s', page, Page4K(Reflagged(s, page, op.flags)))
    ensures OpOwners(s, s', op)
  {
    assert IsRoot(s, Target(s));
    NumberInjective(page);
    forall p: VPage | Ordinary(p) && OpOwned(op, SelfOwned(s, p), p) ensures SelfOwned(s', p) {
      assert Owns(s', Target(s), p, MmuWalk(s.mem, Target(s), p).entry.frame);
    }
  }

  method RunUnmap(m: Machine, op: MapperOp, page: VPage) returns (ok: bool)
    requires m.Valid() && Target(m.S()) !in m.boot && op.OpUnmap? && OpAllowed(op) && page == Indices(op.number)
    requires op.freed ==> SelfOwned(m.S(), page)
    modifies m
    ensures ok ==> OpDone(old(m.S()), m.S(), op) && OpOwners(old(m.S()), m.S(), op)
    ensures !ok ==> Unfit(op, old(MmuWalk(m.mem, Target(m.S()), page)))
  {
    ghost var s := m.S();
    IndicesNumber(op.number);
    BuiltSmallPages(s, Target(s), page);
    SmallPagesWalk(m.mem, Target(s), page);
    TargetRecursive(s);
    SoftWalkIsMmuWalk(m.mem, m.cr3, Target(s), page);
    ok := WalkPageTable(m.mem, m.cr3, page).Mapped?;
    if ok {
      m.Unmap(page, op.freed);
      UnmappedOwned(s, m.S(), page, op.freed);
      PageOpDone(s, m.S(), op, page);
    }
  }

  lemma PageOpDone(s: State, s': State, op: MapperOp, page: VPage)
    requires !op.OpHigherHalf? && Number(page) == op.number && Ordinary(page) && IsRoot(s, Target(s))
    requires Remapped(s, s', page, OpLeaf(op, MmuWalk(s.mem, Target(s), page), page))
    ensures OpViews(s, s', op)
  {
    NumberInjective(page);
  }

  lemma RangeOpDone(s: State, s': State, lo: nat, hi: nat, flags: EntryFlags)
    requires RangeViews(s, s', lo, hi, p => HigherHalfEntry(p, flags)) && OwnersOutside(s, s', lo, hi)
    ensures OpViews(s, s', OpHigherHalf(lo, hi, flags)) && OpOwners(s, s', OpHigherHalf(lo, hi, flags))
  {
  }

  /** Closures that only map given frames: they resolve to themselves, free nothing and are never stuck. */
  predicate GivenFramesOnly(ops: Closure) {
    ops.Then? ==> GivenFramesOnly(ops.first) && (ops.op.OpMapTo? || ops.op.OpHigherHalf?)
  }

  lemma {:induction false} GivenFramesRun(s: State, r: Frame, ops: Closure, done: Closure)
    requires GivenFramesOnly(ops)
    ensures Resolved(ops, done) ==> done == ops
    ensures MayFree(s, r, ops) && !Stuck(s, r, ops, done)
  {
    if ops.Then? {
      GivenFramesRun(s, r, ops.first, done);
      if done.Then? { GivenFramesRun(s, r, ops.first, done.first); }
    }
  }

  /** `unmap` without freeing, in a space that has 4 KiB pages only; false when the page is not mapped. */
  method UnmapMapped(m: Machine, page: VPage) returns (ok: bool)
    requires m.Valid() && Ordinary(page) && SmallPages(m.mem, Target(m.S()), page)
    modifies m
    ensures ok == (old(MmuWalk(m.mem, Target(m.S()), page)) != NoLeaf)
    ensures ok ==> PageUnmapped(old(m.S()), m.S(), page, false) && OnlyHandedOver(old(m.S()), m.S())
    ensures !ok ==> m.S() == old(m.S())
  {
    TargetRecursive(m.S());
    SoftWalkIsMmuWalk(m.mem, m.cr3, Target(m.S()), page);
    SmallPagesWalk(m.mem, Target(m.S()), page);
    ok := WalkPageTable(m.mem, m.cr3, page).Mapped?;
    if ok {
      m.Unmap(page, false);
    }
  }

  lemma SmallPagesWalk(mem: Mem, r: Frame, p: VPage)
    requires SmallPages(mem, r, p)
    ensures MmuWalk(mem, r, p).Page4K? || MmuWalk(mem, r, p).NoLeaf?
  {
  }

  // ---------------------------------------------------------------- redirecting the recursive slot

  /** `with_inactive_p4` may edit space `t` from the active one: they share no table. */
  ghost predicate MayRedirect(s: State, t: Frame, page: VPage) {
    && Inv(s) && Target(s) == s.cr3 && IsRoot(s, t) && t != s.cr3
    && !SameTop(s.mem, s.cr3, t, KERNEL_SLOT)
    && Ordinary(page) && SmallPages(s.mem, s.cr3, page) && MmuWalk(s.mem, s.cr3, page) == NoLeaf
    && s.cr3 < 0x10_0000_0000
  }

  const TEMPORARY := WRITABLE.Or(PRESENT)

  /** The head of `with_inactive_p4`: the temporary page shows the active P4, whose slot 510 is redirected. */
  method BeginRedirect(m: Machine, t: Frame, page: VPage) returns (ok: bool, ghost s1: State)
    requires MayRedirect(m.S(), t, page)
    modifies m
    ensures ok ==>
              && LeafChanged(old(m.S()), s1, page, Entry(old(m.cr3), TEMPORARY))
              && Inv(s1) && s1.cr3 in s1.mem && m.S() == RedirectState(s1, t)
    ensures !ok ==> m.free == {}
  {
    ok := m.MapTo(page, m.cr3, WRITABLE);
    s1 := m.S();
    if ok {
      PointerUsable(s1, AtP4);
      m.Write(P4_POINTER, RECURSIVE_SLOT, Entry(t, RECURSIVE));
    }
  }

  /** The tail of `with_inactive_p4`: slot 510 is restored through the temporary page, which is unmapped. */
  method EndRedirect(m: Machine, page: VPage)
    requires m.Valid() && Ordinary(page)
    requires MmuWalk(m.mem, m.cr3, page) == Page4K(Entry(m.cr3, TEMPORARY))
    modifies m
    ensures PageUnmapped(RedirectState(old(m.S()), old(m.cr3)), m.S(), page, false) && OnlyHandedOver(old(m.S()), m.S())
  {
    RestoreSlot(m, page);
    var ok := UnmapMapped(m, page);
  }

  /** Slot 510 of the active P4, written through the temporary page that shows the P4. */
  method RestoreSlot(m: Machine, page: VPage)
    requires m.Valid() && Ordinary(page)
    requires MmuWalk(m.mem, m.cr3, page) == Page4K(Entry(m.cr3, TEMPORARY))
    modifies m`mem
    ensures old(m.cr3 in m.mem) && m.S() == RedirectState(old(m.S()), m.cr3) && m.Valid()
    ensures MmuWalk(m.mem, Target(m.S()), page) != NoLeaf && SmallPages(m.mem, Target(m.S()), page)
  {
    ghost var s := m.S();
    LeafWritable(s, page);
    m.Write(page, RECURSIVE_SLOT, Entry(m.cr3, RECURSIVE));
    RedirectKeeps(s, s.cr3);
    SlotRestored(s, page);
  }

  lemma SlotRestored(s: State, page: VPage)
    requires Inv(s) && Ordinary(page) && MmuWalk(s.mem, s.cr3, page).Page4K?
    ensures s.cr3 in s.mem && Target(RedirectState(s, s.cr3)) == s.cr3
    ensures MmuWalk(RedirectState(s, s.cr3).mem, s.cr3, page).Page4K? && SmallPages(RedirectState(s, s.cr3).mem, s.cr3, page)
  {
    assert IsRoot(s, s.cr3);
    RedirectWalks(s, s.cr3);
    WalkedSmallPages(RedirectState(s, s.cr3).mem, s.cr3, page);
  }

  /** A page with a writable leaf in the active space can be written through. */
  lemma LeafWritable(s: State, page: VPage)
    requires Inv(s) && Ordinary(page) && MmuWalk(s.mem, s.cr3, page).Page4K?
    requires MmuWalk(s.mem, s.cr3, page).entry.flags.writable
    ensures Writable(s.mem, s.cr3, page)
    ensures Translate(s.mem, s.cr3, page) == Some(MmuWalk(s.mem, s.cr3, page).entry.frame)
  {
    assert IsRoot(s, s.cr3);
    WalkRoles(s, s.cr3, page);
    assert Upper(s, s.cr3, page.p4);
    assert Upper(s, Entry4(s.mem, s.cr3, page).frame, page.p3);
    assert Upper(s, Entry3(s.mem, s.cr3, page).frame, page.p2);
  }

  /** Rewriting the active recursive slot changes no ordinary translation. */
  lemma RedirectWalks(s: State, t: Frame)
    requires Inv(s) && IsRoot(s, t)
    ensures s.cr3 in s.mem && SameViews(s, RedirectState(s, t)) && Target(RedirectState(s, t)) == t
  {
    var s' := RedirectState(s, t);
    forall r, p: VPage | IsRoot(s, r) && Ordinary(p) ensures MmuWalk(s'.mem, r, p) == MmuWalk(s.mem, r, p) {
      QuietTopWordWalk(s, s'.mem, s.cr3, RECURSIVE_SLOT, r, p);
    }
  }

  // ---------------------------------------------------------------- what survives edits of any space

  /** What editing any space keeps: P4s, links, sharing, and small pages. */
  ghost predicate Persist(s: State, s': State) {
    && s'.cr3 == s.cr3 && s'.boot == s.boot && s'.pool == s.pool && s.spaces <= s'.spaces
    && (forall r :: IsRoot(s, r) ==> IsRoot(s', r))
    && (forall r, i: Index :: IsRoot(s, r) && i != RECURSIVE_SLOT && IsTable(At(s.mem, r, i)) ==>
          At(s'.mem, r, i) == At(s.mem, r, i))
    && (forall r, r', i: Index :: IsRoot(s, r) && IsRoot(s, r') ==>
          (SameTop(s'.mem, r, r', i) <==> SameTop(s.mem, r, r', i)))
    && (forall r, p: VPage :: IsRoot(s, r) && Ordinary(p) && SmallPages(s.mem, r, p) ==> SmallPages(s'.mem, r, p))
  }

  lemma FramedPersists(s: State, s': State)
    requires Framed(s, s')
    ensures Persist(s, s')
  {
  }

  /** So do edits of any space, and the creation of spaces. */
  lemma PersistKeepsKernel(s: State, s': State)
    requires Inv(s) && Persist(s, s')
    ensures KernelStays(s, s')
  {
  }

  lemma PersistTrans(s0: State, s1: State, s2: State)
    requires Persist(s0, s1) && Persist(s1, s2)
    ensures Persist(s0, s2)
  {
  }

  lemma RedirectPersists(s: State, t: Frame)
    requires Inv(s) && IsRoot(s, t)
    ensures s.cr3 in s.mem && Persist(s, RedirectState(s, t))
  {
    var s' := RedirectState(s, t);
    forall r, p: VPage | IsRoot(s, r) && Ordinary(p) && SmallPages(s.mem, r, p) ensures SmallPages(s'.mem, r, p) {
      WalkRoles(s, r, p);
    }
  }

  // ---------------------------------------------------------------- the round trip

  /** The states `with_inactive_p4` passes through. */
  ghost predicate RedirectChain(s0: State, s1: State, s2: State, s3: State, s4: State, s5: State,
                                t: Frame, page: VPage, ops: Closure)
  {
    && MayRedirect(s0, t, page)
    && LeafChanged(s0, s1, page, Entry(s0.cr3, TEMPORARY)) && s1.cr3 in s1.mem
    && s2 == RedirectState(s1, t) && Inv(s2)
    && OpsDone(s2, s3, ops) && s3.cr3 in s3.mem
    && s4 == RedirectState(s3, s0.cr3) && Inv(s4)
    && PageUnmapped(s4, s5, page, false)
  }

  lemma ChainPersists(s0: State, s1: State, s2: State, s3: State, s4: State, s5: State,
                      t: Frame, page: VPage, ops: Closure)
    requires RedirectChain(s0, s1, s2, s3, s4, s5, t, page, ops)
    ensures Persist(s0, s1) && Persist(s0, s2) && Persist(s0, s3) && Persist(s0, s4) && Persist(s0, s5)
  {
    FramedPersists(s0, s1);
    RedirectPersists(s1, t);
    PersistTrans(s0, s1, s2);
    FramedPersists(s2, s3);
    PersistTrans(s0, s2, s3);
    RedirectPersists(s3, s0.cr3);
    PersistTrans(s0, s3, s4);
    FramedPersists(s4, s5);
    PersistTrans(s0, s4, s5);
  }

  /** While the slot is redirected, the active space still shows its own P4 in the temporary page. */
  lemma StillBorrowed(s0: State, s1: State, s2: State, s3: State, t: Frame, page: VPage, ops: Closure)
    requires MayRedirect(s0, t, page) && LeafChanged(s0, s1, page, Entry(s0.cr3, TEMPORARY)) && s1.cr3 in s1.mem
    requires s2 == RedirectState(s1, t) && Inv(s2) && OpsDone(s2, s3, ops)
    ensures MmuWalk(s3.mem, s0.cr3, page) == Page4K(Entry(s0.cr3, TEMPORARY))
  {
    FramedPersists(s0, s1);
    RedirectPersists(s1, t);
    RedirectWalks(s1, t);
    assert IsRoot(s0, s0.cr3);
    assert MmuWalk(s1.mem, s0.cr3, page) == Page4K(Entry(s0.cr3, TEMPORARY));
    assert !SameTop(s2.mem, s0.cr3, t, page.p4);
    assert OpsView(s2, s3, t, ops, s0.cr3, page);
  }

  /** P4s and sharing are as they were: what the views of a chain of changes rest on. */
  ghost predicate SameSharing(s: State, s': State) {
    && (forall r :: IsRoot(s, r) ==> IsRoot(s', r))
    && (forall r, r', i: Index :: IsRoot(s, r) && IsRoot(s, r') ==>
          (SameTop(s'.mem, r, r', i) <==> SameTop(s.mem, r, r', i)))
  }

  /** The end of the chain, page by page. */
  lemma ChainViews(s0: State, s1: State, s2: State, s3: State, s4: State, s5: State,
                   t: Frame, page: VPage, ops: Closure, leaf: Leaf, r: Frame, p: VPage)
    requires SameSharing(s0, s1) && SameSharing(s0, s2) && SameSharing(s0, s3) && SameSharing(s0, s4)
    requires Target(s4) == Target(s0) && IsRoot(s0, Target(s0)) && IsRoot(s0, t) && t != Target(s0)
    requires !SameTop(s0.mem, Target(s0), t, KERNEL_SLOT) && MmuWalk(s0.mem, Target(s0), page) == NoLeaf
    requires Ordinary(page) && IsRoot(s0, r) && Ordinary(p)
    requires Remapped(s0, s1, page, leaf) && SameViews(s1, s2) && OpsViews(s2, s3, t, ops)
    requires SameViews(s3, s4) && Remapped(s4, s5, page, NoLeaf)
    ensures OpsView(s0, s5, t, ops, r, p)
  {
    assert MmuWalk(s2.mem, t, p) == MmuWalk(s1.mem, t, p) == MmuWalk(s0.mem, t, p);
    assert OpsView(s2, s3, t, ops, r, p);
    if SameTop(s0.mem, r, t, p.p4) {
      assert !SameTop(s0.mem, r, Target(s0), p.p4);
    } else if p == page && SameTop(s0.mem, r, Target(s0), p.p4) {
      SameTopSameWalk(s0.mem, r, Target(s0), p);
    }
  }

  /** What `with_inactive_p4` amounts to: the inactive space is edited, and the active one is as before. */
  ghost predicate InactiveEdited(s: State, s': State, t: Frame, ops: Closure) {
    && Inv(s') && Persist(s, s') && Target(s') == s'.cr3
    && OpsViews(s, s', t, ops)
  }

  lemma RedirectRoundTrip(s0: State, s1: State, s2: State, s3: State, s4: State, s5: State,
                          t: Frame, page: VPage, ops: Closure)
    requires RedirectChain(s0, s1, s2, s3, s4, s5, t, page, ops)
    ensures InactiveEdited(s0, s5, t, ops)
  {
    ChainPersists(s0, s1, s2, s3, s4, s5, t, page, ops);
    RedirectWalks(s1, t);
    RedirectWalks(s3, s0.cr3);
    assert IsRoot(s0, s0.cr3);
    forall r, p: VPage | IsRoot(s0, r) && Ordinary(p) ensures OpsView(s0, s5, t, ops, r, p) {
      ChainViews(s0, s1, s2, s3, s4, s5, t, page, ops, Page4K(Entry(s0.cr3, TEMPORARY)), r, p);
    }
  }

  /** Setting a page of the target space takes no frame from a page of a space that does not share it. */
  lemma ElsewhereOwned(s: State, s': State, page: VPage, e: Entry, r: Frame, p: VPage)
    requires Inv(s) && Ordinary(page) && LeafChanged(s, s', page, e) && IsRoot(s, r) && Ordinary(p)
    requires !SameTop(s.mem, r, Target(s), page.p4) && OwnedIn(s, r, p)
    ensures OwnedIn(s', r, p)
  {
    var g := MmuWalk(s.mem, r, p).entry.frame;
    assert IsRoot(s, Target(s));
    assert MmuWalk(s'.mem, r, p) == MmuWalk(s.mem, r, p);
    if g !in s'.shape {
      assert Owns(s, Target(s), page, g);
      OwnedFramesDistinct(s, r, p, Target(s), page, g);
    }
  }

  lemma RedirectOwned(s: State, t: Frame, r: Frame, p: VPage)
    requires Inv(s) && IsRoot(s, t) && s.cr3 in s.mem && IsRoot(s, r) && Ordinary(p) && OwnedIn(s, r, p)
    ensures OwnedIn(RedirectState(s, t), r, p)
  {
    RedirectWalks(s, t);
    RedirectTable(s, t, r, p);
  }

  lemma RedirectTable(s: State, t: Frame, r: Frame, p: VPage)
    requires TablesInv(s) && s.cr3 in s.mem && IsRoot(s, r) && Ordinary(p)
    ensures TableAt(RedirectState(s, t).mem, r, P1Path(p)) == TableAt(s.mem, r, P1Path(p))
  {
    WalkRoles(s, r, p);
    SlotWritten(s.mem, s.cr3, Entry(t, RECURSIVE), r, p);
  }

  /** Slot 510 of a P4 that no path crosses below its top leads to no other tables. */
  lemma SlotWritten(mem: Mem, c: Frame, e: Entry, r: Frame, p: VPage)
    requires c in mem && Ordinary(p)
    requires TableAt(mem, r, AtP3(p.p4)) != Some(c) && TableAt(mem, r, AtP2(p.p4, p.p3)) != Some(c)
    ensures TableAt(Put(mem, c, RECURSIVE_SLOT, e), r, P1Path(p)) == TableAt(mem, r, P1Path(p))
  {
  }

  lemma {:induction false} OwnedAfterMonotone(ops: Closure, p: VPage)
    ensures OwnedAfter(ops, false, p) ==> OwnedAfter(ops, true, p)
  {
    if ops.Then? { OwnedAfterMonotone(ops.first, p); }
  }

  lemma {:induction false} MayFreeKept(s: State, s': State, r: Frame, ops: Closure)
    requires Allowed(ops) && MayFree(s, r, ops)
    requires forall p: VPage {:trigger OwnedIn(s', r, p)} :: Ordinary(p) && OwnedIn(s, r, p) ==> OwnedIn(s', r, p)
    ensures MayFree(s', r, ops)
  {
    if ops.Then? {
      MayFreeKept(s, s', r, ops.first);
      if ops.op.OpUnmap? {
        var p := Indices(ops.op.number);
        OwnedAfterMonotone(ops.first, p);
        assert OwnedIn(s, r, p) ==> OwnedIn(s', r, p);
      }
    }
  }

  lemma {:induction false} StuckBefore(s: State, s': State, r: Frame, ops: Closure, done: Closure)
    requires Allowed(ops) && Stuck(s', r, ops, done)
    requires forall p: VPage :: Ordinary(p) ==> MmuWalk(s'.mem, r, p) == MmuWalk(s.mem, r, p)
    ensures Stuck(s, r, ops, done)
  {
    if Stuck(s', r, ops.first, done) { StuckBefore(s, s', r, ops.first, done); }
  }

  /** When the slot is redirected, the closure finds the other space as it was. */
  lemma RedirectedSpace(s0: State, s1: State, t: Frame, page: VPage, ops: Closure)
    requires MayRedirect(s0, t, page) && LeafChanged(s0, s1, page, Entry(s0.cr3, TEMPORARY)) && s1.cr3 in s1.mem
    requires Allowed(ops) && MayFree(s0, t, ops)
    ensures MayFree(RedirectState(s1, t), t, ops)
    ensures forall p: VPage :: Ordinary(p) ==> MmuWalk(RedirectState(s1, t).mem, t, p) == MmuWalk(s0.mem, t, p)
  {
    var s2 := RedirectState(s1, t);
    assert IsRoot(s0, s0.cr3) && IsRoot(s1, t);
    RedirectWalks(s1, t);
    forall p: VPage | Ordinary(p) && OwnedIn(s0, t, p) ensures OwnedIn(s2, t, p) {
      ElsewhereOwned(s0, s1, page, Entry(s0.cr3, TEMPORARY), t, p);
      RedirectOwned(s1, t, t, p);
    }
    MayFreeKept(s0, s2, t, ops);
  }

  /**
   `ActivePageMap::with_inactive_p4`. It fails only for want of memory, or where the closure itself
   would panic on the other space.
   */
  method WithInactiveP4(m: Machine, t: Frame, page: VPage, ops: Closure) returns (ok: bool, ghost done: Closure)
    requires MayRedirect(m.S(), t, page) && t !in m.boot
    requires Allowed(ops) && MayFree(m.S(), t, ops)
    modifies m
    ensures ok ==> InactiveEdited(old(m.S()), m.S(), t, done) && Resolved(ops, done)
    ensures ok ==> MmuWalk(m.mem, m.cr3, page) == NoLeaf
    ensures ok && GivenFramesOnly(ops) ==> OnlyHandedOver(old(m.S()), m.S())
    ensures !ok ==> m.free == {} || Stuck(old(m.S()), t, ops, done)
  {
    ghost var s0, s1 := m.S(), m.S();
    done := Nothing;
    ok, s1 := BeginRedirect(m, t, page);
    if !ok { return; }
    ghost var s2 := m.S();
    RedirectReady(s0, s1, t, page);
    RedirectedSpace(s0, s1, t, page, ops);
    ok, done := RunOps(m, ops);
    if !ok {
      if m.free != {} { StuckBefore(s0, s2, t, ops, done); }
      return;
    }
    ghost var s3 := m.S();
    StillBorrowed(s0, s1, s2, s3, t, page, done);
    EndRedirect(m, page);
    if GivenFramesOnly(ops) { RoundTripHandsOver(s0, s1, s2, s3, m.S(), t, page); }
    ChainMade(s0, s1, s2, s3, m.S(), t, page, done);
  }

  /** The detour through the temporary page keeps no frame. */
  lemma RoundTripHandsOver(s0: State, s1: State, s2: State, s3: State, s5: State, t: Frame, page: VPage)
    requires Inv(s0) && Ordinary(page) && LeafChanged(s0, s1, page, Entry(s0.cr3, TEMPORARY)) && s1.cr3 in s1.mem
    requires s2 == RedirectState(s1, t) && OnlyHandedOver(s2, s3) && OnlyHandedOver(s3, s5)
    ensures OnlyHandedOver(s0, s5)
  {
    ChangedHandsOver(s0, s1, page, Entry(s0.cr3, TEMPORARY));
    HandedOverTrans(s1, s3, s5);
    HandedOverTrans(s0, s1, s5);
  }

  lemma RedirectReady(s0: State, s1: State, t: Frame, page: VPage)
    requires MayRedirect(s0, t, page) && LeafChanged(s0, s1, page, Entry(s0.cr3, TEMPORARY)) && s1.cr3 in s1.mem
    ensures Inv(RedirectState(s1, t)) && Target(RedirectState(s1, t)) == t
  {
    RedirectKeeps(s1, t);
    RedirectWalks(s1, t);
  }

  lemma ChainMade(s0: State, s1: State, s2: State, s3: State, s5: State, t: Frame, page: VPage, ops: Closure)
    requires MayRedirect(s0, t, page) && LeafChanged(s0, s1, page, Entry(s0.cr3, TEMPORARY)) && s1.cr3 in s1.mem
    requires s2 == RedirectState(s1, t) && Inv(s2) && OpsDone(s2, s3, ops)
    requires s3.cr3 in s3.mem && PageUnmapped(RedirectState(s3, s3.cr3), s5, page, false)
    ensures InactiveEdited(s0, s5, t, ops)
    ensures MmuWalk(s5.mem, s5.cr3, page) == NoLeaf
  {
    assert IsRoot(s3, s3.cr3) && s3.cr3 == s0.cr3;
    RedirectKeeps(s3, s3.cr3);
    RedirectRoundTrip(s0, s1, s2, s3, RedirectState(s3, s3.cr3), s5, t, page, ops);
    assert IsRoot(s0, s0.cr3);
    assert !SameTop(s0.mem, s0.cr3, t, page.p4);
    assert OpsView(s0, s5, t, ops, s0.cr3, page);
  }

  // ---------------------------------------------------------------- new address spaces

  /** The address spaces of `b` translate the same in `s` and `s'`. */
  ghost predicate SameViewsOf(b: State, s: State, s': State) {
    forall r, p: VPage :: IsRoot(b, r) && Ordinary(p) ==> MmuWalk(s'.mem, r, p) == MmuWalk(s.mem, r, p)
  }

  /** Mapping the unmapped temporary page, doing something no translation shows, and unmapping it again. */
  lemma TemporaryCycle(b: State, s: State, s1: State, s2: State, s3: State, page: VPage, leaf: Leaf)
    requires SameSharing(b, s) && SameSharing(b, s2) && (forall r :: IsRoot(b, r) ==> IsRoot(s1, r))
    requires IsRoot(b, Target(b)) && Target(s) == Target(b) && Target(s2) == Target(b)
    requires Ordinary(page) && MmuWalk(s.mem, Target(b), page) == NoLeaf
    requires Remapped(s, s1, page, leaf) && SameViewsOf(b, s1, s2) && Remapped(s2, s3, page, NoLeaf)
    ensures SameViewsOf(b, s, s3)
  {
    forall r, p: VPage | IsRoot(b, r) && Ordinary(p) ensures MmuWalk(s3.mem, r, p) == MmuWalk(s.mem, r, p) {
      if p == page && SameTop(s.mem, r, Target(b), p.p4) {
        SameTopSameWalk(s.mem, r, Target(b), p);
      }
    }
  }

  /** A new P4 `f` exists and translates nothing; everything else is as before. */
  ghost predicate EmptySpaceMade(s: State, s': State, f: Frame) {
    && Inv(s') && Persist(s, s') && s'.spaces == s.spaces && Target(s') == Target(s)
    && f in s.free && s'.free <= s.free && IsRoot(s', f) && EmptyRoot(s'.mem, f) && SameViews(s, s')
  }

  function RootContents(f: Frame): Table {
    ZeroTable()[RECURSIVE_SLOT := Entry(f, RECURSIVE)]
  }

  /** Through the temporary page: zero the frame and write its recursive slot. */
  method WriteEmptyRoot(m: Machine, page: VPage, f: Frame)
    requires m.Valid() && Ordinary(page) && f in m.held
    requires MmuWalk(m.mem, m.cr3, page) == Page4K(Entry(f, TEMPORARY))
    modifies m`mem
    ensures m.S() == FillState(old(m.S()), f, RootContents(f))
  {
    ghost var s := m.S();
    HeldPageWritable(s, page, f);
    WriteRootWords(m, page, f);
  }

  method WriteRootWords(m: Machine, page: VPage, f: Frame)
    requires Translate(m.mem, m.cr3, page) == Some(f) && f in m.mem
    requires Writable(m.mem, m.cr3, page) && WalkAvoids(m.mem, m.cr3, page, f)
    modifies m`mem
    ensures m.mem == PutFrame(old(m.mem), f, RootContents(f))
  {
    ghost var mem := m.mem;
    m.Zero(page, f);
    AvoidingWalkStable(mem, m.mem, m.cr3, page, f);
    m.Write(page, RECURSIVE_SLOT, Entry(f, RECURSIVE));
    assert m.mem[f] == RootContents(f);
  }

  lemma HeldPageWritable(s: State, page: VPage, f: Frame)
    requires Inv(s) && Ordinary(page) && f in s.held && MmuWalk(s.mem, s.cr3, page) == Page4K(Entry(f, TEMPORARY))
    ensures Writable(s.mem, s.cr3, page) && Translate(s.mem, s.cr3, page) == Some(f) && f in s.mem
    ensures WalkAvoids(s.mem, s.cr3, page, f)
  {
    LeafWritable(s, page);
    assert IsRoot(s, s.cr3);
    WalkRoles(s, s.cr3, page);
  }

  /** The prepared frame becomes a P4: no existing translation is affected, and it has none itself. */
  lemma MakeRootEffect(s: State, f: Frame)
    requires Inv(s) && f in s.held
    ensures var s4 := MakeRootState(FillState(s, f, RootContents(f)), f);
            && Inv(s4) && Persist(s, s4) && Target(s4) == Target(s) && SameViews(s, s4)
            && IsRoot(s4, f) && EmptyRoot(s4.mem, f) && s4.spaces == s.spaces
  {
    var s3 := FillState(s, f, RootContents(f));
    FillFramed(s, f, RootContents(f));
    assert EmptyRoot(s3.mem, f);
    MakeRootKeeps(s3, f);
    FramedPersists(s, s3);
  }

  /** A frame from the allocator, held, shows up in the temporary page. */
  ghost predicate Shown(s: State, s2: State, page: VPage, f: Frame) {
    && Inv(s2) && Persist(s, s2) && s2.spaces == s.spaces && Target(s2) == Target(s)
    && f in s.free && s2.free <= s.free && f in s2.held && Remapped(s, s2, page, Page4K(Entry(f, TEMPORARY)))
    && MmuWalk(s2.mem, s2.cr3, page) == Page4K(Entry(f, TEMPORARY))
  }

  lemma TakenAndShown(s: State, s2: State, page: VPage, f: Frame)
    requires Inv(s) && f in s.free && Ordinary(page) && Target(s) == s.cr3
    requires Inv(TakeState(s, f)) && LeafChanged(TakeState(s, f), s2, page, Entry(f, TEMPORARY))
    ensures Shown(s, s2, page, f) && OthersOwn(s, s2, page) && s.held <= s2.held
    ensures MmuWalk(s.mem, Target(s), page) == NoLeaf ==> s2.held == s.held + {f}
    ensures NoneAdopted(s, s2)
  {
    if MmuWalk(s.mem, Target(s), page) == NoLeaf { ChangedHolds(TakeState(s, f), s2, page, Entry(f, TEMPORARY)); }
    ChangedOwned(TakeState(s, f), s2, page, Entry(f, TEMPORARY));
    TakenOwners(s, f, page);
    OthersOwnTrans(s, TakeState(s, f), s2, page);
    FramesMovedFramed(s, TakeState(s, f));
    TakeThenFramed(s, s2, f);
    FramedPersists(s, s2);
    assert IsRoot(s, Target(s));
  }

  lemma TakenOwners(s: State, f: Frame, page: VPage)
    ensures OthersOwn(s, TakeState(s, f), page)
  {
    forall p: VPage | SelfOwned(s, p) ensures SelfOwned(TakeState(s, f), p) {
    }
  }

  method TakeAndShow(m: Machine, page: VPage) returns (ok: bool, f: Frame)
    requires m.Valid() && Target(m.S()) == m.cr3 && Ordinary(page) && SmallPages(m.mem, m.cr3, page)
    modifies m
    ensures ok ==> Shown(old(m.S()), m.S(), page, f) && OthersOwn(old(m.S()), m.S(), page) && old(m.held) <= m.held
    ensures ok && old(MmuWalk(m.mem, m.cr3, page)) == NoLeaf ==> m.held == old(m.held) + {f}
    ensures ok ==> NoneAdopted(old(m.S()), m.S())
    ensures ok ==> |old(m.free)| == |m.free| + old(MissingTables(m.mem, m.cr3, page)) + 1
    ensures !ok ==> m.free == {}
  {
    ghost var s := m.S();
    f := 0;
    var frame := m.AllocateFrame();
    if frame.None? { return false, 0; }
    f := frame.value;
    m.held := m.held + {f};
    TakeKeeps(s, f);
    TakeCounts(s, f);
    ok := m.MapTo(page, f, WRITABLE);
    if ok { TakenAndShown(s, m.S(), page, f); }
  }

  /** The frame in the temporary page is made an empty P4. */
  method MakeShownRoot(m: Machine, page: VPage, f: Frame)
    requires m.Valid() && Ordinary(page) && f in m.held
    requires MmuWalk(m.mem, m.cr3, page) == Page4K(Entry(f, TEMPORARY))
    modifies m`mem, m`held, m`shape
    ensures m.S() == MakeRootState(FillState(old(m.S()), f, RootContents(f)), f)
  {
    WriteEmptyRoot(m, page, f);
    m.held, m.shape := m.held - {f}, m.shape[f := Root];
  }

  /** The allocation and `InactivePageMap::new` together; false when there is no memory. */
  method NewInactive(m: Machine, page: VPage) returns (ok: bool, f: Frame)
    requires m.Valid() && Target(m.S()) == m.cr3 && Ordinary(page)
    requires SmallPages(m.mem, m.cr3, page) && MmuWalk(m.mem, m.cr3, page) == NoLeaf
    modifies m
    ensures ok ==> EmptySpaceMade(old(m.S()), m.S(), f) && OthersOwn(old(m.S()), m.S(), page) && m.held == old(m.held)
    ensures ok ==> OnlyHandedOver(old(m.S()), m.S())
    ensures ok ==> |old(m.free)| == |m.free| + old(MissingTables(m.mem, m.cr3, page)) + 1
    ensures ok ==> TableAt(m.mem, m.cr3, P1Path(page)).Some?
    ensures !ok ==> m.free == {}
  {
    ghost var s := m.S();
    ok, f := TakeAndShow(m, page);
    if ok {
      ghost var s2 := m.S();
      MakeShownRoot(m, page, f);
      ghost var s4 := m.S();
      MakeRootEffect(s2, f);
      StillShown(s2, s4, page, f);
      var unmapped := UnmapMapped(m, page);
      UnmappedTables(s4, m.S(), page);
      RootAdoptsNone(s, s2, s4, m.S(), f);
      RootOwners(s, s2, s4, m.S(), page, f);
      RootFinished(s, s2, s4, m.S(), page, f);
    }
  }

  lemma RootAdoptsNone(s: State, s2: State, s4: State, s5: State, f: Frame)
    requires NoneAdopted(s, s2) && s4 == MakeRootState(FillState(s2, f, RootContents(f)), f) && OnlyHandedOver(s4, s5)
    ensures NoneAdopted(s, s5)
  {
  }

  /** Nothing that was owned or held is lost over it. */
  lemma RootOwners(s: State, s2: State, s4: State, s5: State, page: VPage, f: Frame)
    requires Inv(s) && f in s.free && Inv(s2) && OthersOwn(s, s2, page) && s2.held == s.held + {f} && Ordinary(page)
    requires s4 == MakeRootState(FillState(s2, f, RootContents(f)), f) && Inv(s4) && PageUnmapped(s4, s5, page, false)
    requires MmuWalk(s4.mem, Target(s4), page) == Page4K(Entry(f, TEMPORARY))
    ensures OthersOwn(s, s5, page) && s5.held == s.held && s5.free == s4.free
  {
    UnmappedHolds(s4, s5, page);
    FilledRootOwners(s2, f, page);
    OthersOwnTrans(s, s2, s4, page);
    UnmappedOwned(s4, s5, page, false);
    OthersOwnTrans(s, s4, s5, page);
  }

  lemma FilledRootOwners(s: State, f: Frame, page: VPage)
    requires Inv(s) && f in s.held
    ensures OthersOwn(s, MakeRootState(FillState(s, f, RootContents(f)), f), page)
  {
    var s3 := FillState(s, f, RootContents(f));
    var s4 := MakeRootState(s3, f);
    FillFramed(s, f, RootContents(f));
    assert IsRoot(s, Target(s));
    forall p: VPage | Ordinary(p) && p != page && SelfOwned(s, p) ensures SelfOwned(s4, p) {
      var g := MmuWalk(s.mem, Target(s), p).entry.frame;
      assert Owns(s3, Target(s), p, g);
    }
  }

  lemma StillShown(s2: State, s4: State, page: VPage, f: Frame)
    requires SlotsRecursive(s2) && s4.cr3 == s2.cr3 && SameViews(s2, s4) && Ordinary(page)
    requires MmuWalk(s2.mem, s2.cr3, page) == Page4K(Entry(f, TEMPORARY))
    ensures MmuWalk(s4.mem, s4.cr3, page) == Page4K(Entry(f, TEMPORARY))
  {
    assert IsRoot(s2, s2.cr3);
  }

  lemma RootFinished(s: State, s2: State, s4: State, s5: State, page: VPage, f: Frame)
    requires Inv(s) && Ordinary(page) && MmuWalk(s.mem, Target(s), page) == NoLeaf && Target(s) == s.cr3
    requires Shown(s, s2, page, f)
    requires Inv(s4) && Persist(s2, s4) && Target(s4) == Target(s2) && SameViews(s2, s4)
    requires s4.spaces == s2.spaces && s4.free == s2.free
    requires IsRoot(s4, f) && EmptyRoot(s4.mem, f) && PageUnmapped(s4, s5, page, false)
    ensures EmptySpaceMade(s, s5, f)
  {
    PersistTrans(s, s2, s4);
    assert IsRoot(s, Target(s));
    TemporaryCycle(s, s, s2, s4, s5, page, Page4K(Entry(f, TEMPORARY)));
    FramedPersists(s4, s5);
    PersistTrans(s, s4, s5);
    EmptyRootKept(s4, s5, f);
  }

  /** Operations on another space leave an empty P4 empty. */
  lemma EmptyRootKept(s: State, s': State, f: Frame)
    requires Framed(s, s') && IsRoot(s, f) && f != Target(s) && EmptyRoot(s.mem, f)
    ensures EmptyRoot(s'.mem, f)
  {
  }

  // ---------------------------------------------------------------- sharing the kernel half

  /** A process's P4 `f` exists: it shares the kernel half and has nothing else; all else is as before. */
  ghost predicate SpaceCreated(s: State, s': State, f: Frame) {
    && Inv(s') && Persist(s, s') && Target(s') == Target(s) && s'.spaces == s.spaces + {f}
    && f in s.free && s'.free <= s.free && IsRoot(s', f) && SameViews(s, s')
    && (forall p: VPage :: Ordinary(p) ==>
          MmuWalk(s'.mem, f, p) == if p.p4 == KERNEL_SLOT then MmuWalk(s.mem, s.cr3, p) else NoLeaf)
  }

  /** Copying entry 511 into a P4 that spaces of `b` do not know changes nothing for them. */
  lemma ShareKernelEffect(b: State, s: State, f: Frame)
    requires Persist(b, s) && !IsRoot(b, f) && Inv(s) && Enabled(s, ShareKernel(f)) && f in s.mem
    ensures Inv(ShareKernelState(s, f)) && Persist(b, ShareKernelState(s, f))
    ensures SameViewsOf(b, s, ShareKernelState(s, f))
    ensures Target(ShareKernelState(s, f)) == Target(s)
  {
    var s' := ShareKernelState(s, f);
    ShareKernelKeeps(s, f);
    forall r, p: VPage | IsRoot(b, r) && Ordinary(p) ensures MmuWalk(s'.mem, r, p) == MmuWalk(s.mem, r, p) {
      WalkRoles(s, r, p);
      SameWordsSameWalk(s.mem, s'.mem, r, p);
    }
    ShareKernelPersists(b, s, f);
  }

  lemma ShareKernelPersists(b: State, s: State, f: Frame)
    requires Persist(b, s) && !IsRoot(b, f) && Inv(s) && IsRoot(s, f) && f in s.mem
    ensures Persist(b, ShareKernelState(s, f))
  {
    var s' := ShareKernelState(s, f);
    forall r, p: VPage | IsRoot(b, r) && Ordinary(p) && SmallPages(b.mem, r, p) ensures SmallPages(s'.mem, r, p) {
      WalkRoles(s, r, p);
    }
  }

  /** Writes the active P4's entry 511 into the P4 shown in the temporary page. */
  method WriteKernelEntry(m: Machine, page: VPage, f: Frame)
    requires m.Valid() && Target(m.S()) == m.cr3 && m.cr3 in m.spaces && Ordinary(page)
    requires IsRoot(m.S(), f) && MmuWalk(m.mem, m.cr3, page) == Page4K(Entry(f, TEMPORARY))
    modifies m`mem, m`spaces
    ensures f in old(m.mem) && m.S() == ShareKernelState(old(m.S()), f)
  {
    PointerUsable(m.S(), AtP4);
    var entry := m.Read(P4_POINTER, KERNEL_SLOT);
    LeafWritable(m.S(), page);
    m.Write(page, KERNEL_SLOT, entry);
    m.spaces := m.spaces + {f};
  }

  /** `Process::new_process_page_tables`, given its temporary page; false when there is no memory. */
  method NewProcessPageTables(m: Machine, page: VPage) returns (ok: bool, f: Frame)
    requires m.Valid() && Target(m.S()) == m.cr3 && m.cr3 in m.spaces
    requires Ordinary(page) && MmuWalk(m.mem, m.cr3, page) == NoLeaf
    modifies m
    ensures ok ==> SpaceCreated(old(m.S()), m.S(), f) && OthersOwn(old(m.S()), m.S(), page) && m.held == old(m.held)
    ensures ok ==> |old(m.free)| == |m.free| + old(MissingTables(m.mem, m.cr3, page)) + 1
    ensures ok ==> TableAt(m.mem, m.cr3, P1Path(page)).Some?
    ensures !ok ==> m.free == {}
  {
    ghost var s0 := m.S();
    BuiltSmallPages(s0, s0.cr3, page);
    ok, f := NewInactive(m, page);
    if ok {
      EmptySpaceReady(s0, m.S(), f, page);
      ShareKernelHalf(m, page, f, s0);
    }
  }

  /** `map_to` of a page whose tables exist, which cannot fail and takes no frame. */
  method MapKnown(m: Machine, page: VPage, f: Frame)
    requires m.Valid() && Ordinary(page) && SmallPages(m.mem, Target(m.S()), page) && f < 0x10_0000_0000
    requires TableAt(m.mem, Target(m.S()), P1Path(page)).Some? && MmuWalk(m.mem, Target(m.S()), page) == NoLeaf
    modifies m
    ensures LeafChanged(old(m.S()), m.S(), page, Entry(f, TEMPORARY))
    ensures m.held == old(m.held) && |m.free| == |old(m.free)|
  {
    ghost var s := m.S();
    assert MissingTables(s.mem, Target(s), page) == 0;
    var ok := m.MapTo(page, f, WRITABLE);
    ChangedHolds(s, m.S(), page, Entry(f, TEMPORARY));
  }

  /** The second half: entry 511 is written into the new P4, through the temporary page once more. */
  method ShareKernelHalf(m: Machine, page: VPage, f: Frame, ghost s0: State)
    requires Inv(s0) && Target(s0) == s0.cr3 && s0.cr3 in s0.spaces && m.Valid() && EmptySpaceMade(s0, m.S(), f)
    requires Ordinary(page) && OthersOwn(s0, m.S(), page) && Target(m.S()) == m.cr3 && f < 0x10_0000_0000
    requires MmuWalk(m.mem, m.cr3, page) == NoLeaf && SmallPages(m.mem, m.cr3, page)
    requires TableAt(m.mem, m.cr3, P1Path(page)).Some?
    modifies m
    ensures SpaceCreated(s0, m.S(), f) && OthersOwn(s0, m.S(), page) && TableAt(m.mem, m.cr3, P1Path(page)).Some?
    ensures m.held == old(m.held) && |m.free| == |old(m.free)|
  {
    ghost var s5 := m.S();
    MapKnown(m, page, f);
    ghost var s6 := m.S();
    ShownAgain(s0, s5, s6, f, page);
    WriteKernelEntry(m, page, f);
    ghost var s7 := m.S();
    ShareKernelEffect(s0, s6, f);
    UnmapAfterShare(m, page, s0, s6, f);
    CreatedOwners(s0, s5, s6, m.S(), f, page);
    UnmappedTables(s7, m.S(), page);
    SpaceFinished(s0, s5, s6, s7, m.S(), f, page);
  }

  lemma EmptySpaceReady(s0: State, s5: State, f: Frame, page: VPage)
    requires Inv(s0) && Target(s0) == s0.cr3 && EmptySpaceMade(s0, s5, f) && Ordinary(page)
    requires MmuWalk(s0.mem, s0.cr3, page) == NoLeaf && SmallPages(s0.mem, s0.cr3, page)
    ensures Target(s5) == s5.cr3 && MmuWalk(s5.mem, s5.cr3, page) == NoLeaf && SmallPages(s5.mem, s5.cr3, page)
    ensures f !in s0.shape && f < 0x10_0000_0000
  {
    assert IsRoot(s0, s0.cr3);
  }

  lemma ShownAgain(s0: State, s5: State, s6: State, f: Frame, page: VPage)
    requires Inv(s0) && Target(s0) == s0.cr3 && s0.cr3 in s0.spaces && EmptySpaceMade(s0, s5, f) && Ordinary(page)
    requires LeafChanged(s5, s6, page, Entry(f, TEMPORARY))
    ensures Persist(s0, s6) && Target(s6) == s6.cr3 && s6.cr3 in s6.spaces && IsRoot(s6, f) && f in s6.mem
    ensures MmuWalk(s6.mem, s6.cr3, page) == Page4K(Entry(f, TEMPORARY))
    ensures Enabled(s6, ShareKernel(f)) && EmptyRoot(s6.mem, f) && s6.spaces == s0.spaces
  {
    FramedPersists(s5, s6);
    PersistTrans(s0, s5, s6);
    assert IsRoot(s0, s0.cr3) && IsRoot(s5, s5.cr3);
    EmptyRootKept(s5, s6, f);
    assert f !in s0.boot;
  }

  method UnmapAfterShare(m: Machine, page: VPage, ghost b: State, ghost s6: State, ghost f: Frame)
    requires Inv(b) && Ordinary(page) && IsRoot(b, s6.cr3) && s6.cr3 == b.cr3
    requires MmuWalk(s6.mem, s6.cr3, page) == Page4K(Entry(f, TEMPORARY))
    requires m.Valid() && m.cr3 == s6.cr3 && Target(m.S()) == m.cr3 && SameViewsOf(b, s6, m.S()) && IsRoot(m.S(), f)
    modifies m
    ensures PageUnmapped(old(m.S()), m.S(), page, false) && m.held == old(m.held) && m.free == old(m.free)
  {
    ghost var s := m.S();
    var ok := UnmapMapped(m, page);
    UnmappedHolds(s, m.S(), page);
  }

  lemma SpaceFinished(s0: State, s5: State, s6: State, s7: State, s8: State, f: Frame, page: VPage)
    requires Inv(s0) && Target(s0) == s0.cr3 && s0.cr3 in s0.spaces && Ordinary(page)
    requires EmptySpaceMade(s0, s5, f) && MmuWalk(s5.mem, s5.cr3, page) == NoLeaf
    requires Framed(s5, s6) && Remapped(s5, s6, page, Page4K(Entry(f, TEMPORARY))) && Persist(s0, s6)
    requires EmptyRoot(s6.mem, f) && f in s6.mem && s6.spaces == s0.spaces && Target(s6) == s6.cr3 && s6.free <= s5.free
    requires s7 == ShareKernelState(s6, f) && Persist(s0, s7) && SameViewsOf(s0, s6, s7)
    requires PageUnmapped(s7, s8, page, false)
    ensures SpaceCreated(s0, s8, f)
  {
    FramedPersists(s7, s8);
    PersistTrans(s0, s7, s8);
    assert IsRoot(s0, s0.cr3);
    assert Target(s7) == s0.cr3;
    TemporaryCycle(s0, s5, s6, s7, s8, page, Page4K(Entry(f, TEMPORARY)));
    NewSpaceViews(s0, s7, s8, f);
  }

  lemma CreatedOwners(s0: State, s5: State, s6: State, s8: State, f: Frame, page: VPage)
    requires Inv(s5) && OthersOwn(s0, s5, page) && Ordinary(page)
    requires LeafChanged(s5, s6, page, Entry(f, TEMPORARY)) && IsRoot(s6, f) && f in s6.mem && f != Target(s6)
    requires Inv(ShareKernelState(s6, f)) && PageUnmapped(ShareKernelState(s6, f), s8, page, false)
    ensures OthersOwn(s0, s8, page)
  {
    var s7 := ShareKernelState(s6, f);
    ChangedOwned(s5, s6, page, Entry(f, TEMPORARY));
    OthersOwnTrans(s0, s5, s6, page);
    assert IsRoot(s6, Target(s6));
    SharedEntryOwners(s6, f, page);
    OthersOwnTrans(s0, s6, s7, page);
    UnmappedOwned(s7, s8, page, false);
    OthersOwnTrans(s0, s7, s8, page);
  }

  lemma UnmappedTables(s: State, s': State, page: VPage)
    requires SlotsRecursive(s) && Ordinary(page) && PageUnmapped(s, s', page, false)
    ensures TableAt(s'.mem, Target(s'), P1Path(page)).Some?
  {
    assert IsRoot(s, Target(s));
    WalkByP1(s.mem, Target(s), page);
  }

  /** Writing into the P4 of another space leaves the owners in the target space alone. */
  lemma SharedEntryOwners(s: State, f: Frame, page: VPage)
    requires TablesInv(s) && IsRoot(s, Target(s)) && IsRoot(s, f) && f in s.mem && f != Target(s)
    ensures OthersOwn(s, ShareKernelState(s, f), page)
  {
    var s' := ShareKernelState(s, f);
    forall p: VPage | Ordinary(p) && SelfOwned(s, p) ensures SelfOwned(s', p) {
      WalkRoles(s, Target(s), p);
      SameWordsSameWalk(s.mem, s'.mem, Target(s), p);
    }
  }

  /** The new space translates the kernel half like the active one, and nothing else. */
  lemma NewSpaceViews(s0: State, s7: State, s8: State, f: Frame)
    requires Inv(s8) && s0.cr3 in s8.spaces && f in s8.spaces && SameViews(s0, s8) && IsRoot(s0, s0.cr3)
    requires Framed(s7, s8) && IsRoot(s7, f) && f != Target(s7)
    requires forall i: Index :: i != RECURSIVE_SLOT && i != KERNEL_SLOT ==> At(s7.mem, f, i) == UNUSED
    ensures forall p: VPage :: Ordinary(p) ==>
              MmuWalk(s8.mem, f, p) == if p.p4 == KERNEL_SLOT then MmuWalk(s0.mem, s0.cr3, p) else NoLeaf
  {
    InvMeaning(s8);
  }

  // ---------------------------------------------------------------- switching

  /** `ActivePageMap::switch`: CR3 is loaded, no translation of any space changes. */
  method SwitchTo(m: Machine, t: Frame) returns (previous: Frame)
    requires m.Valid() && Target(m.S()) == m.cr3 && IsRoot(m.S(), t)
    modifies m`cr3
    ensures previous == old(m.cr3) && m.cr3 == t && m.Valid() && Target(m.S()) == t
  {
    SwitchKeeps(m.S(), t);
    SwitchTarget(m.S(), t);
    previous := m.cr3;
    m.cr3 := t;
  }

  lemma SwitchTarget(s: State, t: Frame)
    requires Inv(s) && Target(s) == s.cr3 && IsRoot(s, t)
    ensures At(s.mem, t, RECURSIVE_SLOT).frame == t
  {
  }

  ghost function OnCr3(s: State, r: Frame): State {
    State(s.mem, r, s.free, s.held, s.shape, s.spaces, s.boot, s.pool)
  }

  /** Edits made while another space was active, seen after switching back. */
  lemma SwitchedBack(s0: State, s2: State, t: Frame, ops: Closure)
    requires Inv(s0) && Target(s0) == s0.cr3 && IsRoot(s0, t) && Target(OnCr3(s0, t)) == t
    requires OpsDone(OnCr3(s0, t), s2, ops)
    requires Inv(OnCr3(s2, s0.cr3)) && Target(OnCr3(s2, s0.cr3)) == s0.cr3
    ensures InactiveEdited(s0, OnCr3(s2, s0.cr3), t, ops)
  {
    var s1, s3 := OnCr3(s0, t), OnCr3(s2, s0.cr3);
    assert Persist(s0, s3);
    forall r, p: VPage | IsRoot(s0, r) && Ordinary(p) ensures OpsView(s0, s3, t, ops, r, p) {
      assert OpsView(s1, s2, t, ops, r, p);
    }
  }

  /** `ActivePageMap::with_inactive`: the same effect as `with_inactive_p4`, by running the closure in the space itself. */
  method WithInactive(m: Machine, t: Frame, ops: Closure) returns (ok: bool, ghost done: Closure)
    requires m.Valid() && Target(m.S()) == m.cr3 && IsRoot(m.S(), t) && t !in m.boot
    requires Allowed(ops) && MayFree(m.S(), t, ops)
    modifies m
    ensures ok ==> InactiveEdited(old(m.S()), m.S(), t, done) && Resolved(ops, done)
    ensures ok ==> OwnersIn(old(m.S()), m.S(), t, ops)
    ensures ok && GivenFramesOnly(ops) ==> OnlyHandedOver(old(m.S()), m.S())
    ensures !ok ==> m.free == {} || Stuck(old(m.S()), t, ops, done)
  {
    ghost var s0 := m.S();
    var previous := SwitchTo(m, t);
    SwitchedTo(s0, m.S(), t, ops);
    ok, done := RunOps(m, ops);
    if ok {
      ghost var s2 := m.S();
      StillRoot(s0, s2, t);
      var _ := SwitchTo(m, previous);
      SwitchedBack(s0, s2, t, done);
      SwitchedOwners(s0, s2, t, ops);
    } else if m.free != {} {
      StuckBefore(s0, OnCr3(s0, t), t, ops, done);
    }
  }

  /** Pages of space `r` own their frames as the closure's operations say. */
  ghost predicate OwnersIn(s: State, s': State, r: Frame, ops: Closure) {
    forall p: VPage {:trigger OwnedIn(s', r, p)} :: Ordinary(p) && OwnedAfter(ops, OwnedIn(s, r, p), p) ==> OwnedIn(s', r, p)
  }

  lemma SwitchedTo(s0: State, s1: State, t: Frame, ops: Closure)
    requires s1 == OnCr3(s0, t) && Allowed(ops) && MayFree(s0, t, ops)
    ensures MayFree(s1, t, ops)
  {
    MayFreeKept(s0, s1, t, ops);
  }

  lemma SwitchedOwners(s0: State, s2: State, t: Frame, ops: Closure)
    requires Target(OnCr3(s0, t)) == t && Target(s2) == t && OpsOwners(OnCr3(s0, t), s2, ops)
    ensures OwnersIn(s0, OnCr3(s2, s0.cr3), t, ops)
  {
    var s1, s3 := OnCr3(s0, t), OnCr3(s2, s0.cr3);
    forall p: VPage | Ordinary(p) && OwnedAfter(ops, OwnedIn(s0, t, p), p) ensures OwnedIn(s3, t, p) {
      assert SelfOwned(s1, p) == OwnedIn(s0, t, p);
      assert SelfOwned(s2, p);
    }
  }

  lemma StillRoot(s0: State, s2: State, t: Frame)
    requires Inv(s0) && Framed(OnCr3(s0, t), s2)
    ensures IsRoot(s2, s0.cr3)
  {
    assert IsRoot(s0, s0.cr3);
    assert IsRoot(OnCr3(s0, t), s0.cr3);
  }
}
