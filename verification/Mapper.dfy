/**
 The mapper: every table is read and written through a virtual address in the recursive window,
 translated by the hardware, one word at a time.
 */
module Mapper {
  import opened Entries
  import opened Pages
  import opened Mmu
  import opened Spaces
  import opened Views
  import opened Changes

  /** How `map` ends: the page is mapped, no frame is left, or the page is mapped but zeroing it faults. */
  datatype MapResult = Placed | NoFrames | WriteFault

  class Machine {
    var mem: Mem
    var cr3: Frame
    var free: set<Frame>
    ghost var held: set<Frame>
    ghost var shape: map<Frame, Role>
    ghost var spaces: set<Frame>
    ghost const boot: set<Frame>
    ghost const pool: set<Frame>

    ghost function S(): State
      reads this
    {
      State(mem, cr3, free, held, shape, spaces, boot, pool)
    }

    ghost predicate Valid()
      reads this
    {
      Inv(S())
    }

    /** Reading word `i` of the table a pointer names. */
    function Read(pointer: VPage, i: Index): Entry
      requires Translate(mem, cr3, pointer).Some?
      reads this
    {
      At(mem, Translate(mem, cr3, pointer).value, i)
    }

    /** Writing word `i` of the table a pointer names; faults unless the hardware allows the write. */
    method Write(pointer: VPage, i: Index, e: Entry)
      requires Writable(mem, cr3, pointer) && Translate(mem, cr3, pointer).Some?
      requires Translate(mem, cr3, pointer).value in mem
      modifies this`mem
      ensures mem == Put(old(mem), old(Translate(mem, cr3, pointer)).value, i, e)
    {
      var t := Translate(mem, cr3, pointer).value;
      mem := mem[t := mem[t][i := e]];
    }

    /** `PageTable::zero` through a pointer whose own walk does not use the frame being zeroed. */
    method Zero(pointer: VPage, ghost f: Frame)
      requires Translate(mem, cr3, pointer) == Some(f) && f in mem
      requires Writable(mem, cr3, pointer) && WalkAvoids(mem, cr3, pointer, f)
      modifies this`mem
      ensures mem == PutFrame(old(mem), f, ZeroTable())
    {
      ghost var m := mem;
      for j := 0 to 512
        invariant mem.Keys == m.Keys
        invariant forall g: Frame, k: Index :: g != f ==> At(mem, g, k) == At(m, g, k)
        invariant forall g :: g in m && g != f ==> mem[g] == m[g]
        invariant forall k: Index :: k < j ==> At(mem, f, k) == UNUSED
        invariant Translate(mem, cr3, pointer) == Some(f)
        invariant Writable(mem, cr3, pointer) && WalkAvoids(mem, cr3, pointer, f)
      {
        ghost var before := mem;
        Write(pointer, j, UNUSED);
        AvoidingWalkStable(before, mem, cr3, pointer, f);
      }
      assert forall k: Index :: mem[f][k] == At(mem, f, k);
      assert mem[f] == ZeroTable();
    }

    /** `PHYSICAL_ALLOCATOR.allocate(0)`. */
    method AllocateFrame() returns (r: Option<Frame>)
      modifies this`free
      ensures r.None? ==> old(free) == {} && free == old(free)
      ensures r.Some? ==> r.value in old(free) && free == old(free) - {r.value}
    {
      if free == {} {
        return None;
      }
      var f :| f in free;
      free := free - {f};
      return Some(f);
    }

    /** Points entry `i` of the table at `path` at frame `f`, then zeroes `f` through the new pointer. */
    method PointAndZero(path: Path, i: Index, f: Frame, ghost s: State, ghost t: Frame)
      requires Inv(s) && s.mem == mem && s.cr3 == cr3 && !path.AtP1? && OrdinaryPath(Extend(path, i))
      requires TableAt(mem, Target(s), path) == Some(t) && t in mem
      requires !At(mem, t, i).flags.present && f in mem && f !in s.shape
      modifies this`mem
      ensures mem == LinkIn(old(mem), t, i, f)
    {
      var pointer := PointerTo(path);
      assert Translate(mem, cr3, pointer) == Some(t) && Writable(mem, cr3, pointer) by {
        PointerUsable(s, path);
      }
      Write(pointer, i, Entry(f, LINK));
      var next := ShiftIn(pointer, i);
      PointerExtends(path, i);
      FreshPointerUsable(s, mem, path, i, f);
      Zero(next, f);
    }

    /** The branch of `next_table_create` that links in a fresh table. */
    method CreateTable(path: Path, i: Index) returns (ok: bool, ghost f: Frame)
      requires Valid() && !path.AtP1? && OrdinaryPath(Extend(path, i))
      requires TableAt(mem, Target(S()), path).Some?
      requires !At(mem, TableAt(mem, Target(S()), path).value, i).flags.present
      requires !At(mem, TableAt(mem, Target(S()), path).value, i).flags.huge
      modifies this
      ensures ok ==> Created(old(S()), S(), path, i, f)
      ensures !ok ==> S() == old(S()) && free == {}
    {
      ghost var s := S();
      ghost var t := TableAt(mem, Target(s), path).value;
      PathRoles(s, Target(s), path);
      var frame := AllocateFrame();
      if frame.None? {
        return false, 0;
      }
      f := frame.value;
      PointAndZero(path, i, frame.value, s, t);
      shape := shape[frame.value := ChildRole(shape[t], t, i)];
      assert S() == LinkState(s, t, i, frame.value);
      LinkCreates(s, path, i, frame.value);
      ok := true;
    }

    /** `next_table_create` on the table at `path`, on the way to `page`. */
    method NextTableCreate(path: Path, i: Index, ghost page: VPage) returns (ok: bool)
      requires Valid() && !path.AtP1? && Along(path, i, page) && Ordinary(page)
      requires TableAt(mem, Target(S()), path).Some?
      requires !At(mem, TableAt(mem, Target(S()), path).value, i).flags.huge
      modifies this
      ensures TablesAdded(old(S()), S(), page)
      ensures ok ==> TableAt(mem, Target(S()), Extend(path, i)).Some?
      ensures !ok ==> S() == old(S()) && free == {} && TableAt(mem, Target(S()), Extend(path, i)).None?
    {
      ghost var s := S();
      PointerUsable(s, path);
      ExtendTable(mem, Target(s), path, i);
      if IsTable(Read(PointerTo(path), i)) {
        NothingAdded(s, page);
        return true;
      }
      ok := LinkTable(path, i, page);
    }

    method LinkTable(path: Path, i: Index, ghost page: VPage) returns (ok: bool)
      requires Valid() && !path.AtP1? && Along(path, i, page) && Ordinary(page)
      requires TableAt(mem, Target(S()), path).Some? && TableAt(mem, Target(S()), Extend(path, i)).None?
      requires !At(mem, TableAt(mem, Target(S()), path).value, i).flags.present
      requires !At(mem, TableAt(mem, Target(S()), path).value, i).flags.huge
      modifies this
      ensures TablesAdded(old(S()), S(), page)
      ensures ok ==> TableAt(mem, Target(S()), Extend(path, i)).Some?
      ensures !ok ==> S() == old(S()) && free == {}
    {
      ghost var s := S();
      ghost var f;
      ok, f := CreateTable(path, i);
      if ok {
        assert IsRoot(s, Target(s));
        CreatedAdds(s, S(), path, i, f, page);
      } else {
        NothingAdded(s, page);
      }
    }

    /** The part of `map_to` that makes sure the P3 and P2 tables of a page exist. */
    method PrepareP2(page: VPage) returns (ok: bool)
      requires Valid() && Ordinary(page) && SmallPages(mem, Target(S()), page)
      modifies this
      ensures TablesAdded(old(S()), S(), page)
      ensures ok ==> TableAt(mem, Target(S()), AtP2(page.p4, page.p3)).Some?
      ensures !ok ==> free == {} && MissingTables(mem, Target(S()), page) > 0
    {
      ghost var s0 := S();
      ok := NextTableCreate(AtP4, page.p4, page);
      if !ok { return; }
      ghost var s1 := S();
      ok := NextTableCreate(AtP3(page.p4), page.p3, page);
      TablesAddedTrans(s0, s1, S(), page);
    }

    /** ... and the P1 table. `need` is the number of tables missing before. */
    method PrepareP1(page: VPage, ghost need: nat) returns (ok: bool)
      requires Valid() && Ordinary(page) && SmallPages(mem, Target(S()), page)
      requires need == MissingTables(mem, Target(S()), page)
      modifies this
      ensures Prepared(old(S()), S()) && NewOnPath(old(S()), S(), page)
      ensures ok <==> |old(free)| >= need
      ensures ok ==> TableAt(mem, Target(S()), P1Path(page)).Some? && |old(free)| == |free| + need
      ensures !ok ==> free == {}
    {
      ghost var s0 := S();
      ok := PrepareP2(page);
      if ok {
        ok := PrepareLast(page, s0);
      }
      AddedCounts(s0, S(), page);
    }

    method PrepareLast(page: VPage, ghost s0: State) returns (ok: bool)
      requires Inv(s0) && Ordinary(page) && TablesAdded(s0, S(), page) && SmallPages(mem, Target(S()), page)
      requires TableAt(mem, Target(S()), AtP2(page.p4, page.p3)).Some?
      modifies this
      ensures TablesAdded(s0, S(), page)
      ensures ok ==> TableAt(mem, Target(S()), P1Path(page)).Some?
      ensures !ok ==> free == {} && MissingTables(mem, Target(S()), page) > 0
    {
      ghost var s1 := S();
      ok := NextTableCreate(AtP2(page.p4, page.p3), page.p2, page);
      TablesAddedTrans(s0, s1, S(), page);
    }

    /** Writes the P1 entry of a page whose tables exist. */
    method WriteLeaf(page: VPage, e: Entry)
      requires Valid() && Ordinary(page) && TableAt(mem, Target(S()), P1Path(page)).Some?
      modifies this
      ensures LeafChanged(old(S()), S(), page, e) && free == old(free) && forall f :: f in shape ==> f in old(shape)
      ensures NoNewTables(old(S()), S())
    {
      ghost var s := S();
      ghost var t := TableAt(mem, Target(s), P1Path(page)).value;
      ghost var dropped := Dropped(s, t, page.p1, e);
      PathRoles(s, Target(s), P1Path(page));
      PointerUsable(s, P1Path(page));
      Write(PointerTo(P1Path(page)), page.p1, e);
      held, shape := held + dropped, shape - dropped;
      assert S() == SetLeafState(s, t, page.p1, e);
      SetLeafChanges(s, page, e);
    }

    /** `Mapper::map_to`, which fails exactly when there are fewer free frames than missing tables. */
    method MapTo(page: VPage, frame: Frame, flags: EntryFlags) returns (ok: bool)
      requires Valid() && Ordinary(page) && SmallPages(mem, Target(S()), page)
      requires frame < 0x10_0000_0000
      modifies this
      ensures ok <==> |old(free)| >= old(MissingTables(mem, Target(S()), page))
      ensures ok ==> LeafChanged(old(S()), S(), page, Entry(frame, flags.Or(PRESENT)))
      ensures ok ==> |old(free)| == |free| + old(MissingTables(mem, Target(S()), page))
      ensures !ok ==> Prepared(old(S()), S()) && free == {}
      ensures NewOnPath(old(S()), S(), page)
    {
      ghost var s0 := S();
      ok := PrepareP1(page, MissingTables(mem, Target(s0), page));
      if ok {
        SetLeaf(page, Entry(frame, flags.Or(PRESENT)), s0);
      }
    }

    /** The end of `map_to`, once the tables exist. */
    method SetLeaf(page: VPage, e: Entry, ghost s0: State)
      requires Inv(s0) && Ordinary(page) && Prepared(s0, S()) && NewOnPath(s0, S(), page)
      requires TableAt(mem, Target(S()), P1Path(page)).Some?
      modifies this
      ensures LeafChanged(s0, S(), page, e) && NewOnPath(s0, S(), page) && free == old(free)
    {
      ghost var s1 := S();
      WriteLeaf(page, e);
      LeafOnPath(s0, s1, S(), page, e);
      PreparedThenChanged(s0, s1, S(), page, e);
    }

    /** `Mapper::map` for a 4 KiB page. */
    method Map(page: VPage, flags: EntryFlags, zero: bool) returns (r: MapResult, ghost f: Frame)
      requires Valid() && Ordinary(page) && SmallPages(mem, Target(S()), page)
      requires zero ==> Target(S()) == cr3
      modifies this
      ensures r.NoFrames? <==> |old(free)| <= old(MissingTables(mem, Target(S()), page))
      ensures r.NoFrames? ==> Leaked(old(S()), S())
      ensures !r.NoFrames? ==> MappedFresh(old(S()), S(), page, f, flags)
      ensures !r.NoFrames? ==> |old(free)| == |free| + old(MissingTables(mem, Target(S()), page)) + 1
      ensures r.WriteFault? <==> !r.NoFrames? && zero && !flags.writable
      ensures r.Placed? && zero ==> f in mem && mem[f] == ZeroTable()
      ensures NewOnPath(old(S()), S(), page)
    {
      ghost var s := S();
      var frame := AllocateFrame();
      if frame.None? {
        LeakedNothing(s, page);
        return NoFrames, 0;
      }
      f := frame.value;
      held := held + {f};
      var ok := MapTaken(page, frame.value, flags, s);
      r := if ok then Placed else NoFrames;
      if ok && zero {
        r := ZeroIfWritable(page, f, flags, s);
      }
    }

    /** The call of `map_to` inside `map`, after which the page owns the frame. */
    method MapTaken(page: VPage, f: Frame, flags: EntryFlags, ghost s: State) returns (ok: bool)
      requires Inv(s) && f in s.free && S() == TakeState(s, f)
      requires Ordinary(page) && SmallPages(mem, Target(s), page)
      modifies this
      ensures ok <==> |s.free| > MissingTables(s.mem, Target(s), page)
      ensures ok ==> MappedFresh(s, S(), page, f, flags)
      ensures ok ==> |s.free| == |free| + MissingTables(s.mem, Target(s), page) + 1
      ensures !ok ==> Leaked(s, S())
      ensures NewOnPath(s, S(), page)
    {
      TakeKeeps(s, f);
      TakeCounts(s, f);
      ok := MapTo(page, f, flags);
      if ok {
        AdoptPage(page, f, flags, s);
      } else {
        TakeOnPath(s, S(), page, f);
        TakeThenPrepared(s, S(), f);
      }
    }

    ghost method AdoptPage(page: VPage, f: Frame, flags: EntryFlags, s: State)
      requires Inv(s) && f in s.free && Ordinary(page) && Inv(TakeState(s, f))
      requires LeafChanged(TakeState(s, f), S(), page, Entry(f, flags.Or(PRESENT)))
      requires NewOnPath(TakeState(s, f), S(), page)
      modifies this`held, this`shape
      ensures MappedFresh(s, S(), page, f, flags) && NewOnPath(s, S(), page)
    {
      var s2 := S();
      var t := TableAt(mem, Target(s), P1Path(page)).value;
      held, shape := held - {f}, shape[f := Owned(t, page.p1)];
      TakeMapAdopt(s, s2, page, f, flags);
      AdoptOnPath(s, s2, page, f);
      assert S() == AdoptState(s2, t, page.p1);
    }

    /** The write that zeroes the page, which the hardware allows exactly if the mapping is writable. */
    method ZeroIfWritable(page: VPage, ghost f: Frame, ghost flags: EntryFlags, ghost s: State) returns (r: MapResult)
      requires Inv(s) && Ordinary(page) && MappedFresh(s, S(), page, f, flags) && Target(s) == cr3 && NewOnPath(s, S(), page)
      modifies this`mem
      ensures MappedFresh(s, S(), page, f, flags) && NewOnPath(s, S(), page)
      ensures r == if flags.writable then Placed else WriteFault
      ensures r.Placed? ==> f in mem && mem[f] == ZeroTable()
    {
      FreshWritable(s, S(), page, f, flags);
      if !Writable(mem, cr3, page) {
        return WriteFault;
      }
      ZeroPage(page, f, flags, s);
      r := Placed;
    }

    method ZeroPage(page: VPage, ghost f: Frame, ghost flags: EntryFlags, ghost s: State)
      requires Inv(s) && Ordinary(page) && MappedFresh(s, S(), page, f, flags)
      requires Target(s) == cr3 && flags.writable && NewOnPath(s, S(), page)
      modifies this`mem
      ensures MappedFresh(s, S(), page, f, flags) && f in mem && mem[f] == ZeroTable() && NewOnPath(s, S(), page)
    {
      assert MmuWalk(mem, cr3, page) == Page4K(Entry(f, flags.Or(PRESENT))) by {
        assert IsRoot(s, Target(s));
      }
      ghost var s3 := S();
      OwnedPageWritable(s3, page, f);
      Zero(page, f);
      assert S() == FillState(s3, f, ZeroTable());
      MappedThenFilled(s, s3, page, f, flags, ZeroTable());
    }

    /** `Mapper::unmap`: clears the P1 entry of the page, or the P2 entry of its 2 MiB page. */
    method Unmap(page: VPage, freeMemory: bool)
      requires Valid() && Ordinary(page)
      requires WalkPageTable(mem, cr3, page).Mapped?
      requires freeMemory ==> exists f :: Owns(S(), Target(S()), page, f)
      modifies this
      ensures match old(WalkPageTable(mem, cr3, page)).size
              case Kib4 => PageUnmapped(old(S()), S(), page, freeMemory)
              case Mib2 => HugeUnmapped(old(S()), S(), page)
      ensures OnlyHandedOver(old(S()), S())
    {
      ghost var s := S();
      TargetRecursive(s);
      SoftWalkIsMmuWalk(mem, cr3, Target(s), page);
      PointerUsable(s, AtP2(page.p4, page.p3));
      if IsTable(Read(PointerTo(AtP2(page.p4, page.p3)), page.p2)) {
        Unmap4K(page, freeMemory);
      } else {
        HugeEntry(s, page);
        Write(PointerTo(AtP2(page.p4, page.p3)), page.p2, UNUSED);
        assert S() == DropHugeState(s, page);
        DropHugeChanges(s, page);
      }
    }

    method Unmap4K(page: VPage, freeMemory: bool)
      requires Valid() && Ordinary(page)
      requires MmuWalk(mem, Target(S()), page).Page4K?
      requires freeMemory ==> exists f :: Owns(S(), Target(S()), page, f)
      modifies this
      ensures PageUnmapped(old(S()), S(), page, freeMemory) && OnlyHandedOver(old(S()), S())
    {
      ghost var s := S();
      var frame := ClearLeaf(page);
      ChangedHandsOver(s, S(), page, UNUSED);
      if freeMemory {
        UnmapThenGive(s, S(), page, frame);
        free := free + {frame};
        held := held - {frame};
      } else {
        ClearedUnmaps(s, S(), page);
      }
    }

    method ClearLeaf(page: VPage) returns (frame: Frame)
      requires Valid() && Ordinary(page)
      requires MmuWalk(mem, Target(S()), page).Page4K?
      modifies this
      ensures LeafChanged(old(S()), S(), page, UNUSED) && free == old(free)
      ensures frame == old(MmuWalk(mem, Target(S()), page)).entry.frame
    {
      WalkByP1(mem, Target(S()), page);
      PointerUsable(S(), P1Path(page));
      frame := Read(PointerTo(P1Path(page)), page.p1).frame;
      WriteLeaf(page, UNUSED);
    }
  }
}
