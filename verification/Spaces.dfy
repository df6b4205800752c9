/**
 The machine state behind the page tables of all address spaces, the elementary changes the kernel
 makes to it, and the invariant that every run of them keeps.

 Tables are never reached by searching: each frame in use has one `Role`, which names the single
 entry that may point at it. That makes "no table is reachable twice" a local condition.
 */
module Spaces {
  import opened Entries
  import opened Pages
  import opened Mmu

  /** What a frame is used for. */
  datatype Role =
    | Root                                          // a P4 table
    | KernelP3                                      // a P3 table behind slot 511 of one or more P4s
    | Sub(level: nat, parent: Frame, index: Index)  // any other table, behind one entry of its parent
    | Owned(parent: Frame, index: Index)            // a data frame the kernel allocated for one P1 slot

  function Level(role: Role): nat {
    match role
    case Root => 4
    case KernelP3 => 3
    case Sub(level, _, _) => level
    case Owned(_, _) => 0
  }

  /** The role of the table behind entry `i` of table `t`. */
  function ChildRole(role: Role, t: Frame, i: Index): Role
    requires Level(role) >= 2
  {
    if role.Root? && i == KERNEL_SLOT then KernelP3 else Sub(Level(role) - 1, t, i)
  }

  /**
   The state. `free` is the frame allocator's free set and `pool` everything it ever managed;
   `held` are frames taken from it that no table or owned page uses (in flight, or leaked);
   `boot` are the tables the boot code built; `spaces` are the address spaces that share the
   kernel half.
   */
  datatype State = State(
    mem: Mem, cr3: Frame, free: set<Frame>, held: set<Frame>, shape: map<Frame, Role>,
    spaces: set<Frame>, boot: set<Frame>, pool: set<Frame>)

  ghost predicate IsRoot(s: State, r: Frame) {
    r in s.shape && s.shape[r].Root?
  }

  /** Entry `i` of table `t` is above the leaves and not a recursive slot. */
  ghost predicate Upper(s: State, t: Frame, i: Index) {
    t in s.shape && Level(s.shape[t]) >= 2 && !(s.shape[t].Root? && i == RECURSIVE_SLOT)
  }

  ghost predicate IsP1(s: State, t: Frame) {
    t in s.shape && Level(s.shape[t]) == 1
  }

  /** The P4 that mapper operations act on. */
  ghost function Target(s: State): Frame {
    At(s.mem, s.cr3, RECURSIVE_SLOT).frame
  }

  // ---------------------------------------------------------------- the invariant

  /** Every frame the allocator ever managed is in exactly one place. */
  ghost predicate Accounted(s: State) {
    && (forall f :: f in s.free ==> f !in s.held && f !in s.shape && f in s.mem)
    && (forall f :: f in s.held ==> f !in s.shape && f in s.mem)
    && (forall f :: f in s.shape ==> f in s.mem)
    && (forall f :: f in s.boot ==> f in s.shape && !s.shape[f].Owned?)
    && (forall f :: f in s.pool ==> f < 0x400_0000)
    && (forall f :: f in s.pool <==> f in s.free || f in s.held || (f in s.shape && f !in s.boot))
  }

  /** An entry that leads to a table leads to the one table with the matching role. */
  ghost predicate Linked(s: State) {
    forall t: Frame, i: Index :: Upper(s, t, i) && IsTable(At(s.mem, t, i)) ==>
      && At(s.mem, t, i).flags.writable
      && At(s.mem, t, i).frame in s.shape
      && s.shape[At(s.mem, t, i).frame] == ChildRole(s.shape[t], t, i)
  }

  /** The entry that a table's role names is really there. */
  ghost predicate Realised(s: State, f: Frame)
    requires f in s.shape
  {
    s.shape[f].Sub? ==>
      var Sub(level, p, i) := s.shape[f];
      && 1 <= level <= 3 && Upper(s, p, i) && s.shape[f] == ChildRole(s.shape[p], p, i)
      && IsTable(At(s.mem, p, i)) && At(s.mem, p, i).frame == f
  }

  /** The P1 slot that owns a data frame really maps it. */
  ghost predicate OwnedMapped(s: State, f: Frame)
    requires f in s.shape
  {
    s.shape[f].Owned? ==>
      var Owned(p, i) := s.shape[f];
      IsP1(s, p) && At(s.mem, p, i).flags.present && At(s.mem, p, i).frame == f
  }

  /** Outside the boot tables, upper entries were all written by `next_table_create`. */
  ghost predicate Built(s: State) {
    forall t: Frame, i: Index :: Upper(s, t, i) && t !in s.boot ==>
      && !At(s.mem, t, i).flags.huge
      && (At(s.mem, t, i).flags.present ==> At(s.mem, t, i).flags == LINK && At(s.mem, t, i).frame !in s.boot)
  }

  /** Recursive slots name their own P4, except that the active one may name another P4. */
  ghost predicate SlotsRecursive(s: State) {
    && IsRoot(s, s.cr3) && IsRoot(s, Target(s))
    && (forall r :: IsRoot(s, r) ==>
          && IsTable(At(s.mem, r, RECURSIVE_SLOT)) && At(s.mem, r, RECURSIVE_SLOT).flags.writable
          && (r == s.cr3 || At(s.mem, r, RECURSIVE_SLOT).frame == r))
  }

  /** All address spaces have the same, present, entry 511. */
  ghost predicate KernelShared(s: State) {
    && (forall r :: r in s.spaces ==> IsRoot(s, r) && r !in s.boot && IsTable(At(s.mem, r, KERNEL_SLOT)))
    && (forall r, r' :: r in s.spaces && r' in s.spaces ==> At(s.mem, r, KERNEL_SLOT) == At(s.mem, r', KERNEL_SLOT))
  }

  /** The part of the invariant that depends on nothing below the P2 tables. */
  ghost predicate TablesInv(s: State) {
    && Linked(s)
    && (forall f {:trigger Realised(s, f)} :: f in s.shape ==> Realised(s, f))
    && Built(s)
    && SlotsRecursive(s)
    && KernelShared(s)
  }

  ghost predicate Inv(s: State) {
    && Accounted(s)
    && TablesInv(s)
    && (forall f {:trigger OwnedMapped(s, f)} :: f in s.shape ==> OwnedMapped(s, f))
  }

  lemma TargetRecursive(s: State)
    requires Inv(s)
    ensures Recursive(s.mem, s.cr3, Target(s))
  {
    assert IsRoot(s, s.cr3);
    assert IsRoot(s, Target(s));
  }

  // ---------------------------------------------------------------- elementary changes

  datatype Step =
    | Link(t: Frame, i: Index, f: Frame)         // next_table_create: a fresh zeroed table
    | SetLeaf(t: Frame, i: Index, e: Entry)      // a P1 entry is written or cleared
    | DropHuge(t: Frame, i: Index)               // unmap of a 2 MiB page
    | Take(f: Frame)                             // the allocator hands out a frame
    | Give(f: Frame)                             // a frame goes back to the allocator
    | Adopt(t: Frame, i: Index)                  // a held frame becomes the owned page of a slot
    | Fill(f: Frame, contents: Table)            // the contents of a data frame change
    | MakeRoot(f: Frame)                         // a prepared frame becomes a P4
    | ShareKernel(r: Frame)                      // entry 511 is copied from the active P4
    | Publish(r: Frame)                          // the remapped kernel becomes the first space
    | Switch(r: Frame)                           // CR3 is loaded
    | Redirect(r: Frame)                         // the active recursive slot is rewritten
    | AddTopFlags(flags: EntryFlags)             // flags are added to an absent entry 511

  /** The frame whose ownership ends when slot `i` of P1 table `t` is set to `e`. */
  ghost function Dropped(s: State, t: Frame, i: Index, e: Entry): set<Frame> {
    var was := At(s.mem, t, i);
    if was.flags.present && was.frame in s.shape && s.shape[was.frame] == Owned(t, i)
       && !(e.flags.present && e.frame == was.frame)
    then {was.frame} else {}
  }

  /** A P4 with nothing in it but its recursive slot. */
  ghost predicate EmptyRoot(mem: Mem, f: Frame) {
    && At(mem, f, RECURSIVE_SLOT) == Entry(f, RECURSIVE)
    && (forall i: Index :: i != RECURSIVE_SLOT ==> At(mem, f, i) == UNUSED)
  }

  ghost predicate Enabled(s: State, step: Step) {
    match step
    case Link(t, i, f) =>
      Upper(s, t, i) && !At(s.mem, t, i).flags.present && !At(s.mem, t, i).flags.huge && f in s.free
    case SetLeaf(t, i, e) => IsP1(s, t)
    case DropHuge(t, i) =>
      t in s.shape && Level(s.shape[t]) == 2 && At(s.mem, t, i).flags.present && At(s.mem, t, i).flags.huge
    case Take(f) => f in s.free
    case Give(f) => f in s.held
    case Adopt(t, i) => IsP1(s, t) && At(s.mem, t, i).flags.present && At(s.mem, t, i).frame in s.held
    case Fill(f, contents) => f in s.mem && (f in s.shape ==> s.shape[f].Owned?)
    case MakeRoot(f) => f in s.held && EmptyRoot(s.mem, f)
    case ShareKernel(r) =>
      && IsRoot(s, r) && r !in s.spaces && r !in s.boot && !At(s.mem, r, KERNEL_SLOT).flags.present
      && s.cr3 in s.spaces
    case Publish(r) => IsRoot(s, r) && r !in s.boot && IsTable(At(s.mem, r, KERNEL_SLOT))
    case Switch(r) => IsRoot(s, r) && Target(s) == s.cr3
    case Redirect(r) => IsRoot(s, r)
    case AddTopFlags(flags) =>
      !At(s.mem, Target(s), KERNEL_SLOT).flags.present && !flags.present && !flags.huge
  }

  /** Memory after entry `i` of `t` was pointed at frame `f` and `f` was zeroed. */
  function LinkIn(mem: Mem, t: Frame, i: Index, f: Frame): Mem
    requires t in mem
  {
    PutFrame(Put(mem, t, i, Entry(f, LINK)), f, ZeroTable())
  }

  ghost function WithMem(s: State, mem: Mem): State {
    State(mem, s.cr3, s.free, s.held, s.shape, s.spaces, s.boot, s.pool)
  }

  /** Frames move between the allocator, the held set and the shape. */
  ghost function WithFrames(s: State, free: set<Frame>, held: set<Frame>, shape: map<Frame, Role>): State {
    State(s.mem, s.cr3, free, held, shape, s.spaces, s.boot, s.pool)
  }

  ghost function LinkState(s: State, t: Frame, i: Index, f: Frame): State
    requires Inv(s) && Enabled(s, Link(t, i, f))
  {
    State(LinkIn(s.mem, t, i, f), s.cr3, s.free - {f}, s.held, s.shape[f := ChildRole(s.shape[t], t, i)],
          s.spaces, s.boot, s.pool)
  }

  ghost function SetLeafState(s: State, t: Frame, i: Index, e: Entry): State
    requires Inv(s) && IsP1(s, t)
  {
    State(Put(s.mem, t, i, e), s.cr3, s.free, s.held + Dropped(s, t, i, e),
          s.shape - Dropped(s, t, i, e), s.spaces, s.boot, s.pool)
  }

  ghost function AdoptState(s: State, t: Frame, i: Index): State {
    WithFrames(s, s.free, s.held - {At(s.mem, t, i).frame}, s.shape[At(s.mem, t, i).frame := Owned(t, i)])
  }

  ghost function MakeRootState(s: State, f: Frame): State {
    WithFrames(s, s.free, s.held - {f}, s.shape[f := Root])
  }

  ghost function ShareKernelState(s: State, r: Frame): State
    requires r in s.mem
  {
    State(Put(s.mem, r, KERNEL_SLOT, At(s.mem, s.cr3, KERNEL_SLOT)), s.cr3, s.free, s.held, s.shape,
          s.spaces + {r}, s.boot, s.pool)
  }

  ghost function RedirectState(s: State, r: Frame): State
    requires s.cr3 in s.mem
  {
    WithMem(s, Put(s.mem, s.cr3, RECURSIVE_SLOT, Entry(r, RECURSIVE)))
  }

  ghost function AddTopFlagsState(s: State, flags: EntryFlags): State
    requires Target(s) in s.mem
  {
    var e := At(s.mem, Target(s), KERNEL_SLOT);
    WithMem(s, Put(s.mem, Target(s), KERNEL_SLOT, Entry(e.frame, e.flags.Or(flags))))
  }

  ghost function Apply(s: State, step: Step): State
    requires Inv(s) && Enabled(s, step)
  {
    match step
    case Link(t, i, f) => LinkState(s, t, i, f)
    case SetLeaf(t, i, e) => SetLeafState(s, t, i, e)
    case DropHuge(t, i) => WithMem(s, Put(s.mem, t, i, UNUSED))
    case Take(f) => WithFrames(s, s.free - {f}, s.held + {f}, s.shape)
    case Give(f) => WithFrames(s, s.free + {f}, s.held - {f}, s.shape)
    case Adopt(t, i) => AdoptState(s, t, i)
    case Fill(f, contents) => WithMem(s, PutFrame(s.mem, f, contents))
    case MakeRoot(f) => MakeRootState(s, f)
    case ShareKernel(r) => ShareKernelState(s, r)
    case Publish(r) => State(s.mem, s.cr3, s.free, s.held, s.shape, {r}, s.boot, s.pool)
    case Switch(r) => State(s.mem, r, s.free, s.held, s.shape, s.spaces, s.boot, s.pool)
    case Redirect(r) => RedirectState(s, r)
    case AddTopFlags(flags) => AddTopFlagsState(s, flags)
  }

  // ---------------------------------------------------------------- each change keeps the invariant

  /** Same tables, in the same roles, with the same entries above the leaves. */
  ghost predicate SameTables(s: State, s': State) {
    && s'.cr3 == s.cr3 && s'.spaces == s.spaces && s'.boot == s.boot && s'.pool == s.pool
    && (forall g :: g in s.shape && !s.shape[g].Owned? ==> g in s'.shape && s'.shape[g] == s.shape[g])
    && (forall g :: g in s'.shape && !s'.shape[g].Owned? ==> g in s.shape && s'.shape[g] == s.shape[g])
    && (forall g: Frame, j: Index :: g in s.shape && Level(s.shape[g]) >= 2 ==>
          At(s'.mem, g, j) == At(s.mem, g, j))
  }

  lemma SameTablesKeep(s: State, s': State)
    requires TablesInv(s) && SameTables(s, s')
    ensures TablesInv(s')
  {
    assert forall g: Frame, j: Index :: Upper(s', g, j) <==> Upper(s, g, j);
    forall g | g in s'.shape ensures Realised(s', g) {
      if !s'.shape[g].Owned? { assert Realised(s, g); }
    }
  }

  /** `s'` differs from `s` by a fresh zeroed table `f` behind entry `i` of `t`. */
  ghost predicate LinkedIn(s: State, s': State, t: Frame, i: Index, f: Frame) {
    && s'.cr3 == s.cr3 && s'.held == s.held && s'.spaces == s.spaces && s'.boot == s.boot && s'.pool == s.pool
    && Upper(s, t, i) && !At(s.mem, t, i).flags.present && f in s.free
    && (forall g :: g in s'.free <==> g in s.free && g != f)
    && (forall g :: g in s'.shape <==> g in s.shape || g == f)
    && (forall g :: g in s.shape ==> s'.shape[g] == s.shape[g])
    && s'.shape[f] == ChildRole(s.shape[t], t, i)
    && s'.mem.Keys == s.mem.Keys
    && At(s'.mem, t, i) == Entry(f, LINK)
    && (forall j: Index :: At(s'.mem, f, j) == UNUSED)
    && (forall g: Frame, j: Index :: g != f && (g != t || j != i) ==> At(s'.mem, g, j) == At(s.mem, g, j))
  }

  lemma LinkEffect(s: State, t: Frame, i: Index, f: Frame)
    requires Inv(s) && Enabled(s, Link(t, i, f))
    ensures LinkedIn(s, LinkState(s, t, i, f), t, i, f)
  {
  }

  lemma LinkedInTables(s: State, s': State, t: Frame, i: Index, f: Frame)
    requires Inv(s) && LinkedIn(s, s', t, i, f)
    ensures Accounted(s') && Linked(s') && Built(s')
  {
  }

  lemma LinkedInRest(s: State, s': State, t: Frame, i: Index, f: Frame)
    requires Inv(s) && LinkedIn(s, s', t, i, f)
    ensures SlotsRecursive(s') && KernelShared(s')
    ensures forall g {:trigger Realised(s', g)} {:trigger OwnedMapped(s', g)} :: g in s'.shape ==>
              Realised(s', g) && OwnedMapped(s', g)
  {
    forall g | g in s'.shape ensures Realised(s', g) && OwnedMapped(s', g) {
      assert Realised(s, t);
      if g != f { assert Realised(s, g) && OwnedMapped(s, g); }
    }
  }

  lemma LinkKeeps(s: State, t: Frame, i: Index, f: Frame)
    requires Inv(s) && Enabled(s, Link(t, i, f))
    ensures Inv(LinkState(s, t, i, f))
  {
    LinkEffect(s, t, i, f);
    LinkedInTables(s, LinkState(s, t, i, f), t, i, f);
    LinkedInRest(s, LinkState(s, t, i, f), t, i, f);
  }

  lemma SetLeafKeeps(s: State, t: Frame, i: Index, e: Entry)
    requires Inv(s) && IsP1(s, t)
    ensures SameTables(s, SetLeafState(s, t, i, e))
    ensures Inv(SetLeafState(s, t, i, e))
  {
    var s' := SetLeafState(s, t, i, e);
    assert SameTables(s, s');
    SameTablesKeep(s, s');
    forall g | g in s'.shape ensures OwnedMapped(s', g) {
      assert OwnedMapped(s, g);
    }
  }

  lemma AdoptKeeps(s: State, t: Frame, i: Index)
    requires Inv(s) && Enabled(s, Adopt(t, i))
    ensures SameTables(s, AdoptState(s, t, i))
    ensures Inv(AdoptState(s, t, i))
  {
    var s' := AdoptState(s, t, i);
    assert SameTables(s, s');
    SameTablesKeep(s, s');
    forall g | g in s'.shape ensures OwnedMapped(s', g) {
      if g in s.shape { assert OwnedMapped(s, g); }
    }
  }

  lemma FramesMoved(s: State, s': State)
    requires Inv(s) && s' == WithFrames(s, s'.free, s'.held, s.shape) && Accounted(s')
    ensures Inv(s')
  {
    SameTablesKeep(s, s');
    forall g | g in s'.shape ensures OwnedMapped(s', g) {
      assert OwnedMapped(s, g);
    }
  }

  lemma TakeKeeps(s: State, f: Frame)
    requires Inv(s) && f in s.free
    ensures Inv(WithFrames(s, s.free - {f}, s.held + {f}, s.shape))
  {
    FramesMoved(s, WithFrames(s, s.free - {f}, s.held + {f}, s.shape));
  }

  lemma GiveKeeps(s: State, f: Frame)
    requires Inv(s) && f in s.held
    ensures Inv(WithFrames(s, s.free + {f}, s.held - {f}, s.shape))
  {
    FramesMoved(s, WithFrames(s, s.free + {f}, s.held - {f}, s.shape));
  }

  lemma FillKeeps(s: State, f: Frame, contents: Table)
    requires Inv(s) && f in s.mem && (f in s.shape ==> s.shape[f].Owned?)
    ensures SameTables(s, WithMem(s, PutFrame(s.mem, f, contents)))
    ensures Inv(WithMem(s, PutFrame(s.mem, f, contents)))
  {
    var s' := WithMem(s, PutFrame(s.mem, f, contents));
    assert SameTables(s, s');
    SameTablesKeep(s, s');
    forall g | g in s'.shape ensures OwnedMapped(s', g) {
      assert OwnedMapped(s, g);
    }
  }

  lemma SwitchKeeps(s: State, r: Frame)
    requires Inv(s) && Enabled(s, Switch(r))
    ensures Inv(State(s.mem, r, s.free, s.held, s.shape, s.spaces, s.boot, s.pool))
  {
    var s' := State(s.mem, r, s.free, s.held, s.shape, s.spaces, s.boot, s.pool);
    assert SlotsRecursive(s');
    forall g | g in s'.shape ensures Realised(s', g) && OwnedMapped(s', g) {
      assert Realised(s, g) && OwnedMapped(s, g);
    }
  }

  lemma PublishKeeps(s: State, r: Frame)
    requires Inv(s) && Enabled(s, Publish(r))
    ensures Inv(State(s.mem, s.cr3, s.free, s.held, s.shape, {r}, s.boot, s.pool))
  {
    var s' := State(s.mem, s.cr3, s.free, s.held, s.shape, {r}, s.boot, s.pool);
    assert KernelShared(s');
    forall g | g in s'.shape ensures Realised(s', g) && OwnedMapped(s', g) {
      assert Realised(s, g) && OwnedMapped(s, g);
    }
  }

  lemma MakeRootTables(s: State, f: Frame)
    requires Inv(s) && f in s.held && EmptyRoot(s.mem, f)
    ensures Accounted(MakeRootState(s, f)) && Linked(MakeRootState(s, f)) && Built(MakeRootState(s, f))
  {
    assert forall i: Index :: i != RECURSIVE_SLOT ==> !IsTable(At(s.mem, f, i));
  }

  lemma MakeRootRoles(s: State, f: Frame)
    requires Inv(s) && f in s.held
    ensures forall g {:trigger Realised(MakeRootState(s, f), g)} {:trigger OwnedMapped(MakeRootState(s, f), g)} ::
              g in MakeRootState(s, f).shape ==> Realised(MakeRootState(s, f), g) && OwnedMapped(MakeRootState(s, f), g)
  {
    var s' := MakeRootState(s, f);
    forall g | g in s'.shape ensures Realised(s', g) && OwnedMapped(s', g) {
      if g != f { assert Realised(s, g) && OwnedMapped(s, g); }
    }
  }

  lemma MakeRootKeeps(s: State, f: Frame)
    requires Inv(s) && f in s.held && EmptyRoot(s.mem, f)
    ensures Inv(MakeRootState(s, f))
  {
    MakeRootTables(s, f);
    MakeRootRoles(s, f);
  }

  /** Only entry `i` of table `t`, above the leaves, changes; it led to no table before. */
  ghost predicate WordChanged(s: State, s': State, t: Frame, i: Index) {
    && s'.cr3 == s.cr3 && s'.free == s.free && s'.held == s.held && s'.shape == s.shape
    && s'.boot == s.boot && s'.pool == s.pool && s'.mem.Keys == s.mem.Keys
    && t in s.shape && Level(s.shape[t]) >= 2
    && (forall g: Frame, j: Index :: g != t || j != i ==> At(s'.mem, g, j) == At(s.mem, g, j))
    && (Upper(s, t, i) ==> !IsTable(At(s.mem, t, i)))
  }

  /** The new entry is one that tables may hold. */
  ghost predicate GoodWord(s: State, t: Frame, i: Index, e: Entry) {
    Upper(s, t, i) ==>
      && (IsTable(e) ==> e.flags.writable && e.frame in s.shape && s.shape[e.frame] == ChildRole(s.shape[t], t, i))
      && (t !in s.boot ==> !e.flags.huge && (e.flags.present ==> e.flags == LINK && e.frame !in s.boot))
  }

  lemma WordChangedTables(s: State, s': State, t: Frame, i: Index)
    requires Inv(s) && WordChanged(s, s', t, i) && GoodWord(s, t, i, At(s'.mem, t, i))
    ensures Accounted(s') && Linked(s') && Built(s')
  {
  }

  lemma WordChangedRoles(s: State, s': State, t: Frame, i: Index)
    requires Inv(s) && WordChanged(s, s', t, i)
    ensures forall g {:trigger Realised(s', g)} {:trigger OwnedMapped(s', g)} :: g in s'.shape ==>
              Realised(s', g) && OwnedMapped(s', g)
  {
    forall g | g in s'.shape ensures Realised(s', g) && OwnedMapped(s', g) {
      assert Realised(s, g) && OwnedMapped(s, g);
    }
  }

  lemma DropHugeKeeps(s: State, t: Frame, i: Index)
    requires Inv(s) && Enabled(s, DropHuge(t, i))
    ensures Inv(WithMem(s, Put(s.mem, t, i, UNUSED)))
  {
    WordChangedTables(s, WithMem(s, Put(s.mem, t, i, UNUSED)), t, i);
    WordChangedRoles(s, WithMem(s, Put(s.mem, t, i, UNUSED)), t, i);
  }

  lemma ShareKernelKeeps(s: State, r: Frame)
    requires Inv(s) && Enabled(s, ShareKernel(r))
    ensures Inv(ShareKernelState(s, r))
  {
    var s' := ShareKernelState(s, r);
    assert Upper(s, s.cr3, KERNEL_SLOT) && Upper(s, r, KERNEL_SLOT);
    WordChangedTables(s, s', r, KERNEL_SLOT);
    WordChangedRoles(s, s', r, KERNEL_SLOT);
  }

  lemma RedirectKeeps(s: State, r: Frame)
    requires Inv(s) && IsRoot(s, r)
    ensures Inv(RedirectState(s, r))
  {
    WordChangedTables(s, RedirectState(s, r), s.cr3, RECURSIVE_SLOT);
    WordChangedRoles(s, RedirectState(s, r), s.cr3, RECURSIVE_SLOT);
  }

  lemma AddTopFlagsKeeps(s: State, flags: EntryFlags)
    requires Inv(s) && Enabled(s, AddTopFlags(flags))
    ensures Inv(AddTopFlagsState(s, flags))
  {
    WordChangedTables(s, AddTopFlagsState(s, flags), Target(s), KERNEL_SLOT);
    WordChangedRoles(s, AddTopFlagsState(s, flags), Target(s), KERNEL_SLOT);
  }

  /** Every elementary change keeps the invariant. */
  lemma StepKeeps(s: State, step: Step)
    requires Inv(s) && Enabled(s, step)
    ensures Inv(Apply(s, step))
  {
    match step
    case Link(t, i, f) => LinkKeeps(s, t, i, f);
    case DropHuge(t, i) => DropHugeKeeps(s, t, i);
    case Publish(r) => PublishKeeps(s, r);
    case Switch(r) => SwitchKeeps(s, r);
    case MakeRoot(f) => MakeRootKeeps(s, f);
    case ShareKernel(r) => ShareKernelKeeps(s, r);
    case Redirect(r) => RedirectKeeps(s, r);
    case AddTopFlags(flags) => AddTopFlagsKeeps(s, flags);
    case SetLeaf(t, i, e) => SetLeafKeeps(s, t, i, e);
    case Adopt(t, i) => AdoptKeeps(s, t, i);
    case Take(f) => TakeKeeps(s, f);
    case Give(f) => GiveKeeps(s, f);
    case Fill(f, contents) => FillKeeps(s, f, contents);
  }
}
