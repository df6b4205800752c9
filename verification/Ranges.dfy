/**
 The mapper's range operations: loops of single-page operations over page numbers.
 */
module RangeMapping {
  import opened Util
  import opened Entries
  import opened Pages
  import opened Mmu
  import opened Spaces
  import opened Views
  import opened Changes
  import opened Mapper

  /** Page `p` was mapped after `s0`, on a frame of its own that was free then. */
  ghost predicate FreshPage(s0: State, s: State, p: VPage, flags: EntryFlags) {
    var leaf := MmuWalk(s.mem, Target(s0), p);
    && leaf.Page4K? && leaf.entry.flags == flags.Or(PRESENT)
    && leaf.entry.frame in s0.free && Owns(s, Target(s0), p, leaf.entry.frame)
  }

  /** Pages not numbered `lo` up to `hi` still own the frames they owned. */
  ghost predicate OwnersOutside(s0: State, s: State, lo: nat, hi: nat) {
    forall p: VPage {:trigger SelfOwned(s, p)} ::
      Ordinary(p) && !(lo <= Number(p) < hi) && SelfOwned(s0, p) ==> SelfOwned(s, p)
  }

  /** Since `s0`, exactly the pages numbered `lo` up to `hi` of the target space were mapped afresh. */
  ghost predicate RangeFresh(s0: State, s: State, lo: nat, hi: nat, flags: EntryFlags) {
    && Inv(s) && Framed(s0, s) && Target(s) == Target(s0) && s.free <= s0.free && s0.held <= s.held
    && OwnersOutside(s0, s, lo, hi)
    && (forall r, p: VPage ::
          IsRoot(s0, r) && Ordinary(p) && !(lo <= Number(p) < hi && SameTop(s0.mem, r, Target(s0), p.p4)) ==>
          MmuWalk(s.mem, r, p) == MmuWalk(s0.mem, r, p))
    && (forall p: VPage :: Ordinary(p) && lo <= Number(p) < hi ==> FreshPage(s0, s, p, flags))
  }

  /** What the hardware allows on the pages numbered `lo` up to `hi` of the target space. */
  ghost predicate PagesAllow(s: State, lo: nat, hi: nat, user: bool, writable: bool, executable: bool) {
    forall p: VPage :: Ordinary(p) && lo <= Number(p) < hi ==> Allows(s.mem, Target(s), p, user, writable, executable)
  }

  /** Outside the boot tables, pages mapped afresh allow what their flags say and nothing more. */
  lemma FreshAllows(s0: State, s: State, lo: nat, hi: nat, flags: EntryFlags)
    requires Inv(s0) && Target(s0) !in s0.boot && RangeFresh(s0, s, lo, hi, flags)
    ensures PagesAllow(s, lo, hi, flags.user, flags.writable, !flags.noExecute)
  {
    assert IsRoot(s0, Target(s0)) && IsRoot(s, Target(s));
    PagesAllowFlags(s0, s, lo, hi, flags);
  }

  lemma PagesAllowFlags(s0: State, s: State, lo: nat, hi: nat, flags: EntryFlags)
    requires TablesInv(s) && Target(s) == Target(s0) && IsRoot(s, Target(s)) && Target(s) !in s.boot
    requires forall p: VPage :: Ordinary(p) && lo <= Number(p) < hi ==> FreshPage(s0, s, p, flags)
    ensures PagesAllow(s, lo, hi, flags.user, flags.writable, !flags.noExecute)
  {
    forall p: VPage | Ordinary(p) && lo <= Number(p) < hi
      ensures Allows(s.mem, Target(s), p, flags.user, flags.writable, !flags.noExecute)
    {
      assert FreshPage(s0, s, p, flags);
      LeafGrants(s, Target(s), p);
    }
  }

  lemma RangeFreshEmpty(s: State, lo: nat, flags: EntryFlags)
    requires Inv(s)
    ensures RangeFresh(s, s, lo, lo, flags) && Spent(s, s, lo, lo)
  {
  }

  /** Pages other than `page` that owned their frame still do. */
  ghost predicate OthersOwn(s: State, s': State, page: VPage) {
    forall p: VPage {:trigger SelfOwned(s', p)} :: Ordinary(p) && p != page && SelfOwned(s, p) ==> SelfOwned(s', p)
  }

  lemma OthersOwnTrans(s: State, s1: State, s2: State, page: VPage)
    requires OthersOwn(s, s1, page) && OthersOwn(s1, s2, page)
    ensures OthersOwn(s, s2, page)
  {
    forall p: VPage | Ordinary(p) && p != page && SelfOwned(s, p) ensures SelfOwned(s2, p) {
      assert SelfOwned(s1, p);
    }
  }

  /** After `map`, the other pages still own their frames. */
  lemma MappedOwners(s: State, s': State, page: VPage, f: Frame, flags: EntryFlags)
    requires Inv(s) && Ordinary(page) && MappedFresh(s, s', page, f, flags)
    ensures SelfOwned(s', page)
    ensures OthersOwn(s, s', page)
  {
    assert IsRoot(s, Target(s));
    forall p: VPage | Ordinary(p) && p != page && SelfOwned(s, p) ensures SelfOwned(s', p) {
      assert MmuWalk(s'.mem, Target(s), p) == MmuWalk(s.mem, Target(s), p);
    }
  }

  /** A page that was not mapped had no frame to hand over. */
  lemma FreshHolds(s: State, s': State, page: VPage, f: Frame, flags: EntryFlags)
    requires MappedFresh(s, s', page, f, flags) && MmuWalk(s.mem, Target(s), page) == NoLeaf
    ensures s'.held == s.held
  {
  }

  /** The same for a page whose entry was set, or that was unmapped. */
  lemma ChangedOwned(s: State, s': State, page: VPage, e: Entry)
    requires Inv(s) && Ordinary(page) && LeafChanged(s, s', page, e)
    ensures OthersOwn(s, s', page)
  {
    assert IsRoot(s, Target(s));
    LeafChangedKeeps(s, s', page, e);
    forall p: VPage | Ordinary(p) && p != page && SelfOwned(s, p) ensures SelfOwned(s', p) {
      assert MmuWalk(s'.mem, Target(s), p) == MmuWalk(s.mem, Target(s), p);
    }
  }

  lemma UnmappedOwned(s: State, s': State, page: VPage, freed: bool)
    requires Inv(s) && Ordinary(page) && PageUnmapped(s, s', page, freed)
    ensures OthersOwn(s, s', page)
  {
    assert IsRoot(s, Target(s));
    forall p: VPage | Ordinary(p) && p != page && SelfOwned(s, p) ensures SelfOwned(s', p) {
      assert MmuWalk(s'.mem, Target(s), p) == MmuWalk(s.mem, Target(s), p);
    }
  }

  lemma OwnersOutsideStep(s0: State, s: State, s': State, lo: nat, n: nat, page: VPage)
    requires OwnersOutside(s0, s, lo, n) && lo <= n == Number(page)
    requires OthersOwn(s, s', page)
    ensures OwnersOutside(s0, s', lo, n + 1)
  {
    forall p: VPage | Ordinary(p) && !(lo <= Number(p) < n + 1) && SelfOwned(s0, p) ensures SelfOwned(s', p) {
      assert SelfOwned(s, p);
    }
  }

  lemma RangeFreshStep(s0: State, s: State, s': State, lo: nat, n: nat, page: VPage, f: Frame, flags: EntryFlags)
    requires Inv(s0) && RangeFresh(s0, s, lo, n, flags) && lo <= n == Number(page) && Ordinary(page)
    requires MappedFresh(s, s', page, f, flags)
    ensures RangeFresh(s0, s', lo, n + 1, flags)
  {
    FramedTrans(s0, s, s');
    assert IsRoot(s0, Target(s0)) && IsRoot(s, Target(s0));
    MappedOwners(s, s', page, f, flags);
    OwnersOutsideStep(s0, s, s', lo, n, page);
    FreshPagesStep(s0, s, s', lo, n, page, f, flags);
    FreshViewsStep(s0, s, s', lo, n, page, Page4K(Entry(f, flags.Or(PRESENT))));
  }

  lemma FreshPagesStep(s0: State, s: State, s': State, lo: nat, n: nat, page: VPage, f: Frame, flags: EntryFlags)
    requires Target(s) == Target(s0) && IsRoot(s, Target(s0)) && s.free <= s0.free && lo <= n == Number(page)
    requires MappedFresh(s, s', page, f, flags)
    requires forall p: VPage :: Ordinary(p) && lo <= Number(p) < n ==> FreshPage(s0, s, p, flags)
    ensures forall p: VPage :: Ordinary(p) && lo <= Number(p) < n + 1 ==> FreshPage(s0, s', p, flags)
  {
    NumberInjective(page);
    forall p: VPage | Ordinary(p) && lo <= Number(p) < n + 1 ensures FreshPage(s0, s', p, flags) {
      if p != page { assert FreshPage(s0, s, p, flags); }
    }
  }

  lemma FreshViewsStep(s0: State, s: State, s': State, lo: nat, n: nat, page: VPage, leaf: Leaf)
    requires Framed(s0, s) && Target(s) == Target(s0) && IsRoot(s0, Target(s0)) && lo <= n == Number(page)
    requires Remapped(s, s', page, leaf)
    requires forall r, p: VPage ::
               IsRoot(s0, r) && Ordinary(p) && !(lo <= Number(p) < n && SameTop(s0.mem, r, Target(s0), p.p4)) ==>
               MmuWalk(s.mem, r, p) == MmuWalk(s0.mem, r, p)
    ensures forall r, p: VPage ::
              IsRoot(s0, r) && Ordinary(p) && !(lo <= Number(p) < n + 1 && SameTop(s0.mem, r, Target(s0), p.p4)) ==>
              MmuWalk(s'.mem, r, p) == MmuWalk(s0.mem, r, p)
  {
  }

  /** Running out of memory on the way does not undo the pages already mapped. */
  lemma RangeFreshLeak(s0: State, s: State, s': State, lo: nat, n: nat, flags: EntryFlags)
    requires Inv(s0) && RangeFresh(s0, s, lo, n, flags) && Leaked(s, s')
    ensures RangeFresh(s0, s', lo, n, flags)
  {
    FramedTrans(s0, s, s');
    assert IsRoot(s0, Target(s0)) && IsRoot(s, Target(s0));
    forall p: VPage | Ordinary(p) && SelfOwned(s, p) ensures SelfOwned(s', p) {
      assert MmuWalk(s'.mem, Target(s), p) == MmuWalk(s.mem, Target(s), p);
    }
    forall p: VPage | Ordinary(p) && !(lo <= Number(p) < n) && SelfOwned(s0, p) ensures SelfOwned(s', p) {
      assert SelfOwned(s, p);
    }
    forall p: VPage | Ordinary(p) && lo <= Number(p) < n ensures FreshPage(s0, s', p, flags) {
      assert FreshPage(s0, s, p, flags);
    }
  }

  /** The frame behind page `p` holds zeroes only. */
  ghost predicate Zeroed(s0: State, s: State, p: VPage) {
    forall j: Index :: MmuWalk(s.mem, Target(s0), p).Page4K? ==> At(s.mem, MmuWalk(s.mem, Target(s0), p).entry.frame, j) == UNUSED
  }

  ghost predicate RangeZeroed(s0: State, s: State, lo: nat, hi: nat) {
    forall p: VPage {:trigger Zeroed(s0, s, p)} :: Ordinary(p) && lo <= Number(p) < hi ==> Zeroed(s0, s, p)
  }

  /** Data behind owned pages does not change. */
  ghost predicate DataKept(s: State, s': State) {
    forall g: Frame, j: Index :: g !in s.free && (g in s.shape ==> s.shape[g].Owned?) ==> At(s'.mem, g, j) == At(s.mem, g, j)
  }

  lemma ZeroedKept(s0: State, s: State, s': State, p: VPage, flags: EntryFlags)
    requires Accounted(s) && FreshPage(s0, s, p, flags) && Zeroed(s0, s, p) && DataKept(s, s')
    requires MmuWalk(s'.mem, Target(s0), p) == MmuWalk(s.mem, Target(s0), p)
    ensures Zeroed(s0, s', p)
  {
  }

  lemma RangeZeroedStep(s0: State, s: State, s': State, lo: nat, n: nat, page: VPage, f: Frame, flags: EntryFlags)
    requires Inv(s0) && RangeFresh(s0, s, lo, n, flags) && lo <= n == Number(page) && Ordinary(page)
    requires MappedFresh(s, s', page, f, flags) && f in s'.mem && s'.mem[f] == ZeroTable()
    requires RangeZeroed(s0, s, lo, n)
    ensures RangeZeroed(s0, s', lo, n + 1)
  {
    assert IsRoot(s0, Target(s0)) && IsRoot(s, Target(s0));
    NumberInjective(page);
    assert DataKept(s, s');
    forall p: VPage | Ordinary(p) && lo <= Number(p) < n + 1 ensures Zeroed(s0, s', p) {
      if p != page {
        assert FreshPage(s0, s, p, flags) && Zeroed(s0, s, p);
        ZeroedKept(s0, s, s', p, flags);
      }
    }
  }

  lemma RangeZeroedLeak(s0: State, s: State, s': State, lo: nat, n: nat, flags: EntryFlags)
    requires Inv(s0) && RangeFresh(s0, s, lo, n, flags) && RangeZeroed(s0, s, lo, n) && Leaked(s, s')
    ensures RangeZeroed(s0, s', lo, n)
  {
    assert IsRoot(s0, Target(s0)) && IsRoot(s, Target(s0));
    assert DataKept(s, s');
    forall p: VPage | Ordinary(p) && lo <= Number(p) < n ensures Zeroed(s0, s', p) {
      assert FreshPage(s0, s, p, flags) && Zeroed(s0, s, p);
      ZeroedKept(s0, s, s', p, flags);
    }
  }

  /** An owned frame has one use: pages that own it, in any two spaces, are one page of shared tables. */
  lemma OwnedFramesDistinct(s: State, r: Frame, p: VPage, r': Frame, q: VPage, f: Frame)
    requires TablesInv(s) && IsRoot(s, r) && IsRoot(s, r') && Ordinary(p) && Ordinary(q)
    requires Owns(s, r, p, f) && Owns(s, r', q, f)
    ensures p == q && SameTop(s.mem, r, r', p.p4)
  {
    Unaliased(s, r, P1Path(p), r', P1Path(q));
  }

  /** One round of the loops below. */
  method MapNext(m: Machine, lo: nat, n: nat, flags: EntryFlags, zero: bool, ghost s0: State) returns (r: MapResult)
    requires Inv(s0) && RangeFresh(s0, m.S(), lo, n, flags) && lo <= n && CanonicalPage(n) && Ordinary(Indices(n))
    requires SmallPages(m.mem, Target(s0), Indices(n))
    requires zero ==> Target(s0) == m.cr3
    modifies m
    ensures !r.NoFrames? ==> RangeFresh(s0, m.S(), lo, n + 1, flags)
    ensures r.NoFrames? ==> RangeFresh(s0, m.S(), lo, n, flags) && m.free == {}
    ensures r.NoFrames? <==> |old(m.free)| <= old(MissingTables(m.mem, Target(m.S()), Indices(n)))
    ensures !r.NoFrames? ==> |old(m.free)| == |m.free| + old(MissingTables(m.mem, Target(m.S()), Indices(n))) + 1
    ensures NewOnPath(old(m.S()), m.S(), Indices(n))
    ensures !r.NoFrames? && old(MmuWalk(m.mem, Target(m.S()), Indices(n))) == NoLeaf ==> m.held == old(m.held)
    ensures r.WriteFault? <==> !r.NoFrames? && zero && !flags.writable
    ensures zero && flags.writable && RangeZeroed(s0, old(m.S()), lo, n) ==>
              RangeZeroed(s0, m.S(), lo, if r.NoFrames? then n else n + 1)
  {
    ghost var s := m.S();
    ghost var f;
    r, f := m.Map(Indices(n), flags, zero);
    ghost var zeroed := zero && flags.writable && RangeZeroed(s0, s, lo, n);
    if r.NoFrames? {
      if zeroed { RangeZeroedLeak(s0, s, m.S(), lo, n, flags); }
      RangeFreshLeak(s0, s, m.S(), lo, n, flags);
    } else {
      IndicesNumber(n);
      if zeroed { RangeZeroedStep(s0, s, m.S(), lo, n, Indices(n), f, flags); }
      if MmuWalk(s.mem, Target(s), Indices(n)) == NoLeaf { FreshHolds(s, m.S(), Indices(n), f, flags); }
      RangeFreshStep(s0, s, m.S(), lo, n, Indices(n), f, flags);
    }
  }

  /** ... and what it costs. */
  method MapCounted(m: Machine, lo: nat, n: nat, flags: EntryFlags, zero: bool, ghost s0: State)
    returns (r: MapResult, next: nat)
    requires Inv(s0) && RangeFresh(s0, m.S(), lo, n, flags) && Spent(s0, m.S(), lo, n) && lo <= n
    requires SmallPages(m.mem, Target(s0), Indices(n))
    requires forall k :: lo <= k <= n ==> CanonicalPage(k) && Ordinary(Indices(k))
    requires zero ==> Target(s0) == m.cr3
    modifies m
    ensures next == if r.NoFrames? then n else n + 1
    ensures RangeFresh(s0, m.S(), lo, next, flags)
    ensures r.NoFrames? ==> m.free == {}
    ensures !r.NoFrames? ==> Spent(s0, m.S(), lo, next)
    ensures r.WriteFault? <==> !r.NoFrames? && zero && !flags.writable
    ensures zero && flags.writable && RangeZeroed(s0, old(m.S()), lo, n) ==> RangeZeroed(s0, m.S(), lo, next)
  {
    ghost var s := m.S();
    r := MapNext(m, lo, n, flags, zero, s0);
    next := n;
    if !r.NoFrames? {
      next := n + 1;
      CanonicalNumbered(lo, n + 1);
      SpentStep(s0, s, m.S(), lo, n, flags);
    }
  }

  /** `Mapper::map_range` over pages numbered `lo` to `hi` inclusive; `end` is the first page not mapped. */
  method MapRange(m: Machine, lo: nat, hi: nat, flags: EntryFlags, zero: bool) returns (r: MapResult, ghost end: nat)
    requires m.Valid() && lo <= hi
    requires forall n :: lo <= n <= hi ==> CanonicalPage(n) && Ordinary(Indices(n)) && SmallPages(m.mem, Target(m.S()), Indices(n))
    requires zero ==> Target(m.S()) == m.cr3
    modifies m
    ensures lo <= end <= hi + 1 && RangeFresh(old(m.S()), m.S(), lo, end, flags)
    ensures r.Placed? ==> end == hi + 1
    ensures r.NoFrames? ==> end <= hi && m.free == {}
    ensures r.WriteFault? ==> end == lo + 1
    ensures r.WriteFault? <==> zero && !flags.writable && end > lo
    ensures zero && flags.writable ==> RangeZeroed(old(m.S()), m.S(), lo, end)
    ensures !r.NoFrames? ==> Spent(old(m.S()), m.S(), lo, end)
  {
    ghost var s0 := m.S();
    var n := lo;
    end := lo;
    RangeFreshEmpty(s0, lo, flags);
    while n <= hi
      invariant lo <= n == end <= hi + 1
      invariant RangeFresh(s0, m.S(), lo, n, flags) && Spent(s0, m.S(), lo, n)
      invariant m.cr3 == s0.cr3 && (zero ==> n == lo || flags.writable)
      invariant zero && flags.writable ==> RangeZeroed(s0, m.S(), lo, n)
    {
      assert SmallPages(m.mem, Target(s0), Indices(n)) by { assert IsRoot(s0, Target(s0)); }
      r, n := MapCounted(m, lo, n, flags, zero, s0);
      end := n;
      if !r.Placed? {
        return;
      }
    }
    r := Placed;
  }

  // ---------------------------------------------------------------- what a range costs

  /** The tables missing on the way to a page, by path. */
  function MissingOf(mem: Mem, r: Frame, p: VPage): set<Path> {
    set path | path in {AtP3(p.p4), AtP2(p.p4, p.p3), P1Path(p)} && TableAt(mem, r, path).None?
  }

  /** ... on the way to any of the pages numbered `lo` up to `hi`. */
  function MissingPaths(mem: Mem, r: Frame, lo: nat, hi: nat): set<Path> {
    if hi <= lo then {} else MissingPaths(mem, r, lo, hi - 1) + MissingOf(mem, r, Indices(hi - 1))
  }

  /** The frames that mapping these pages takes: one for each page and one for each missing table. */
  function FramesNeeded(mem: Mem, r: Frame, lo: nat, hi: nat): nat {
    (if hi <= lo then 0 else hi - lo) + |MissingPaths(mem, r, lo, hi)|
  }

  lemma MissingCount(mem: Mem, r: Frame, p: VPage)
    ensures |MissingOf(mem, r, p)| == MissingTables(mem, r, p)
  {
    var n := MissingTables(mem, r, p);
    assert MissingOf(mem, r, p) ==
           if n == 3 then {AtP3(p.p4), AtP2(p.p4, p.p3), P1Path(p)}
           else if n == 2 then {AtP2(p.p4, p.p3), P1Path(p)}
           else if n == 1 then {P1Path(p)} else {};
  }

  lemma {:induction false} MissingPathsMean(mem: Mem, r: Frame, lo: nat, hi: nat, path: Path)
    ensures path in MissingPaths(mem, r, lo, hi) <==>
            TableAt(mem, r, path).None? && exists k: nat :: lo <= k < hi && Leads(path, Indices(k))
  {
    if hi > lo { MissingPathsMean(mem, r, lo, hi - 1, path); }
  }

  lemma {:induction false} FramesNeededMonotone(mem: Mem, r: Frame, lo: nat, n: nat, hi: nat)
    requires n <= hi
    ensures MissingPaths(mem, r, lo, n) <= MissingPaths(mem, r, lo, hi)
    ensures FramesNeeded(mem, r, lo, n) <= FramesNeeded(mem, r, lo, hi)
  {
    if n < hi {
      FramesNeededMonotone(mem, r, lo, n, hi - 1);
      Subset(MissingPaths(mem, r, lo, hi - 1), MissingPaths(mem, r, lo, hi));
    }
  }

  lemma Subset(a: set<Path>, b: set<Path>)
    requires a <= b
    ensures |a| <= |b| && |b| == |a| + |b - a|
  {
    assert b == a + (b - a);
  }

  /** Only the tables that pages `lo` up to `hi` lacked are new, and all they needed is spent. */
  ghost predicate Spent(s0: State, s: State, lo: nat, hi: nat) {
    && |s0.free| == |s.free| + FramesNeeded(s0.mem, Target(s0), lo, hi)
    && (forall path :: NewTableAt(s0, s, path) ==> path in MissingPaths(s0.mem, Target(s0), lo, hi))
  }

  /** Page `n` now lacks the tables that neither it had nor a page before it brought. */
  lemma StillMissing(s0: State, s: State, lo: nat, n: nat, flags: EntryFlags, path: Path)
    requires SlotsRecursive(s0) && RangeFresh(s0, s, lo, n, flags) && Spent(s0, s, lo, n) && Numbered(lo, n)
    requires Ordinary(Indices(n)) && Leads(path, Indices(n))
    ensures TableAt(s.mem, Target(s0), path).None? <==>
            TableAt(s0.mem, Target(s0), path).None? && path !in MissingPaths(s0.mem, Target(s0), lo, n)
  {
    assert IsRoot(s0, Target(s0));
    if path in MissingPaths(s0.mem, Target(s0), lo, n) { BroughtBefore(s0, s, lo, n, flags, path); }
    assert !NewTableAt(s0, s, path) || path in MissingPaths(s0.mem, Target(s0), lo, n);
    assert TableAt(s0.mem, Target(s0), path).Some? ==> TableAt(s.mem, Target(s0), path) == TableAt(s0.mem, Target(s0), path);
  }

  /** The numbers `lo` up to `hi` are the numbers of ordinary pages. */
  predicate Numbered(lo: nat, hi: nat) {
    forall n :: lo <= n < hi ==> OrdinaryNumber(n)
  }

  predicate OrdinaryNumber(n: nat) {
    Ordinary(Indices(n)) && Number(Indices(n)) == n
  }

  lemma CanonicalNumbered(lo: nat, hi: nat)
    requires forall n :: lo <= n < hi ==> CanonicalPage(n) && Ordinary(Indices(n))
    ensures Numbered(lo, hi)
  {
    forall n | lo <= n < hi ensures OrdinaryNumber(n) {
      IndicesNumber(n);
    }
  }

  lemma LowNumbered(lo: nat, hi: nat)
    requires hi <= 0x8_0000_0000
    ensures Numbered(lo, hi)
  {
    forall n | lo <= n < hi ensures OrdinaryNumber(n) {
      LowIndices(n);
    }
  }

  lemma LowIndices(n: nat)
    requires n < 0x8_0000_0000
    ensures Indices(n).p4 < 256 && Number(Indices(n)) == n
  {
    assert n / 0x800_0000 < 256;
    IndicesNumber(n);
  }

  lemma BroughtBefore(s0: State, s: State, lo: nat, n: nat, flags: EntryFlags, path: Path)
    requires RangeFresh(s0, s, lo, n, flags) && path in MissingPaths(s0.mem, Target(s0), lo, n) && Numbered(lo, n)
    ensures TableAt(s.mem, Target(s0), path).Some?
  {
    MissingPathsMean(s0.mem, Target(s0), lo, n, path);
    var k: nat :| lo <= k < n && Leads(path, Indices(k));
    assert OrdinaryNumber(k);
    assert FreshPage(s0, s, Indices(k), flags);
    WalkByP1(s.mem, Target(s0), Indices(k));
  }

  lemma MissingNow(s0: State, s: State, lo: nat, n: nat, flags: EntryFlags)
    requires SlotsRecursive(s0) && RangeFresh(s0, s, lo, n, flags) && Spent(s0, s, lo, n) && lo <= n
    requires Numbered(lo, n + 1)
    ensures FramesNeeded(s0.mem, Target(s0), lo, n + 1) ==
            FramesNeeded(s0.mem, Target(s0), lo, n) + 1 + MissingTables(s.mem, Target(s0), Indices(n))
  {
    var r, p := Target(s0), Indices(n);
    var before := MissingPaths(s0.mem, r, lo, n);
    assert OrdinaryNumber(n);
    forall path | Leads(path, p)
      ensures TableAt(s.mem, r, path).None? <==> TableAt(s0.mem, r, path).None? && path !in before
    {
      StillMissing(s0, s, lo, n, flags, path);
    }
    MissingAdds(s0.mem, s.mem, r, p, before);
  }

  /** What a page lacks now is what it adds to the tables that the pages before it lacked. */
  lemma MissingAdds(mem0: Mem, mem: Mem, r: Frame, p: VPage, before: set<Path>)
    requires forall path :: Leads(path, p) ==>
               (TableAt(mem, r, path).None? <==> TableAt(mem0, r, path).None? && path !in before)
    ensures |before + MissingOf(mem0, r, p)| == |before| + MissingTables(mem, r, p)
  {
    forall path ensures path in MissingOf(mem, r, p) <==> path in MissingOf(mem0, r, p) && path !in before {
      assert path in MissingOf(mem, r, p) ==> Leads(path, p);
      assert path in MissingOf(mem0, r, p) ==> Leads(path, p);
    }
    MissingCount(mem, r, p);
    AddUp(before, MissingOf(mem0, r, p), MissingOf(mem, r, p));
  }

  lemma AddUp(before: set<Path>, needs: set<Path>, now: set<Path>)
    requires forall path :: path in now <==> path in needs && path !in before
    ensures |before + needs| == |before| + |now|
  {
    assert before + needs - before == now;
    Subset(before, before + needs);
  }

  lemma SpentStep(s0: State, s: State, s': State, lo: nat, n: nat, flags: EntryFlags)
    requires SlotsRecursive(s0) && RangeFresh(s0, s, lo, n, flags) && Spent(s0, s, lo, n) && lo <= n
    requires Numbered(lo, n + 1) && NewOnPath(s, s', Indices(n))
    requires |s.free| == |s'.free| + MissingTables(s.mem, Target(s), Indices(n)) + 1
    ensures Spent(s0, s', lo, n + 1)
  {
    MissingNow(s0, s, lo, n, flags);
    NewPathsNeeded(s0, s, s', lo, n);
  }

  lemma NewPathsNeeded(s0: State, s: State, s': State, lo: nat, n: nat)
    requires Target(s) == Target(s0) && lo <= n && NewOnPath(s, s', Indices(n))
    requires forall path :: NewTableAt(s0, s, path) ==> path in MissingPaths(s0.mem, Target(s0), lo, n)
    ensures forall path :: NewTableAt(s0, s', path) ==> path in MissingPaths(s0.mem, Target(s0), lo, n + 1)
  {
    forall path | NewTableAt(s0, s', path) ensures path in MissingPaths(s0.mem, Target(s0), lo, n + 1) {
      if NewTableAt(s, s', path) {
        assert path in MissingOf(s0.mem, Target(s0), Indices(n));
      } else {
        assert NewTableAt(s0, s, path);
      }
    }
  }

  // ---------------------------------------------------------------- user ranges

  const LAST_USABLE_PAGE: nat := (0x8000_0000_0000 - 1) / 4096 - 1
  const STACK_TOP: nat := 0x7FFF_FFFF_E000
  const INITIAL_STACK_SIZE_PAGES: nat := 16
  const STACK_BOTTOM: nat := STACK_TOP - INITIAL_STACK_SIZE_PAGES
  const STACK_BOTTOM_PAGE: nat := STACK_BOTTOM / 4096

  /** How `try_map_user_range` ends; `ZeroFault` where zeroing the page faults in the kernel. */
  datatype TryMapResult = Done | InvalidAddress(page: nat) | AlreadyMapped(page: nat) | OutOfMemory | ZeroFault(page: nat)

  predicate CanonicalAddress(a: nat) {
    a < 0x8000_0000_0000 || 0xFFFF_8000_0000_0000 <= a < 0x1_0000_0000_0000_0000
  }

  /** `Page::start_address`. */
  function StartAddress(n: nat): nat {
    n * 4096 % WORD
  }

  /** The checks at the head of `try_map_user_range`, in order: the page it rejects, if any. */
  function RejectedPage(lo: nat, hi: nat): Option<nat> {
    if hi > LAST_USABLE_PAGE then Some(hi)
    else if !CanonicalAddress(StartAddress(hi)) then Some(hi)
    else if !CanonicalAddress(StartAddress(lo)) then Some(lo)
    else if StartAddress(hi) / 0x8000_0000_0000_0000 == 1 then Some(hi)
    else if StartAddress(lo) / 0x8000_0000_0000_0000 == 1 then Some(lo)
    else if hi > STACK_BOTTOM_PAGE then Some(hi)
    else None
  }

  /**
   Exactly the ranges are accepted whose first page has an address in the lower half and whose last
   page is at most the page that holds the stack bottom, so every accepted page is below P4 slot 256.
   The pages of addresses are those below 2^52.
   */
  lemma AcceptedRanges(lo: nat, hi: nat)
    ensures RejectedPage(lo, hi).None? <==> lo % 0x10_0000_0000_0000 < 0x8_0000_0000 && hi <= 0x7_FFFF_FFFD
    ensures RejectedPage(lo, hi).None? ==>
              forall n :: lo <= n <= hi ==> CanonicalPage(n) && Indices(n).p4 < 256
  {
    forall n | lo <= n <= hi && RejectedPage(lo, hi).None? ensures CanonicalPage(n) && Indices(n).p4 < 256 {
      assert n / 0x800_0000 < 256;
    }
  }

  /**
   Which page an error names: the end if it is past the last usable page, else the start if its address
   is not in the lower half, else the end if it is past the stack bottom.
   */
  lemma RejectedPageNamed(lo: nat, hi: nat)
    ensures RejectedPage(lo, hi) ==
            if hi >= 0x7_FFFF_FFFF then Some(hi)
            else if lo % 0x10_0000_0000_0000 >= 0x8_0000_0000 then Some(lo)
            else if hi >= 0x7_FFFF_FFFE then Some(hi)
            else None
  {
    AcceptedRanges(lo, hi);
    if hi < 0x7_FFFF_FFFF {
      assert StartAddress(hi) == hi * 4096;
      if hi >= 0x7_FFFF_FFFE {
        AcceptedRanges(lo, 0);
      }
    }
  }

  /** Before page `n` is mapped, the kernel's walk reports what the original tables said about it. */
  lemma UserPageReady(s0: State, s: State, lo: nat, n: nat, flags: EntryFlags)
    requires Inv(s0) && RangeFresh(s0, s, lo, n, flags) && lo <= n && CanonicalPage(n) && Ordinary(Indices(n))
    requires Target(s0) == s0.cr3 && s0.cr3 !in s0.boot
    ensures SmallPages(s.mem, Target(s), Indices(n))
    ensures MmuWalk(s.mem, Target(s), Indices(n)) == MmuWalk(s0.mem, s0.cr3, Indices(n))
    ensures WalkPageTable(s.mem, s.cr3, Indices(n)).Mapped? <==> MmuWalk(s0.mem, s0.cr3, Indices(n)) != NoLeaf
  {
    assert IsRoot(s0, Target(s0)) && IsRoot(s, Target(s0));
    IndicesNumber(n);
    BuiltSmallPages(s, s.cr3, Indices(n));
    TargetRecursive(s);
    SoftWalkIsMmuWalk(s.mem, s.cr3, Target(s), Indices(n));
  }

  /** No page numbered `lo` up to `hi` was mapped in the active space. */
  ghost predicate WasUnmapped(s0: State, lo: nat, hi: nat) {
    forall p: VPage :: lo <= Number(p) < hi ==> MmuWalk(s0.mem, s0.cr3, p) == NoLeaf
  }

  lemma WasUnmappedStep(s0: State, lo: nat, n: nat)
    requires WasUnmapped(s0, lo, n) && MmuWalk(s0.mem, s0.cr3, Indices(n)) == NoLeaf
    ensures WasUnmapped(s0, lo, n + 1)
  {
    forall p: VPage | lo <= Number(p) < n + 1 ensures MmuWalk(s0.mem, s0.cr3, p) == NoLeaf {
      NumberIndices(p);
    }
  }

  /** The first page of a request for pages from `lo` can be mapped. */
  ghost predicate CanBegin(s: State, lo: nat, ignoreMapped: bool) {
    && (ignoreMapped || MmuWalk(s.mem, s.cr3, Indices(lo)) == NoLeaf)
    && |s.free| > MissingTables(s.mem, Target(s), Indices(lo))
  }

  /** One round of the loop: the page is mapped afresh, found mapped, or there is no memory. */
  method TryMapNext(m: Machine, lo: nat, n: nat, flags: EntryFlags, ignoreMapped: bool, zero: bool, ghost s0: State)
    returns (r: TryMapResult, ghost next: nat)
    requires Inv(s0) && RangeFresh(s0, m.S(), lo, n, flags) && Spent(s0, m.S(), lo, n) && lo <= n < 0x8_0000_0000
    requires Target(s0) == s0.cr3 && s0.cr3 !in s0.boot
    modifies m
    ensures next == if r.Done? || r.ZeroFault? then n + 1 else n
    ensures RangeFresh(s0, m.S(), lo, next, flags)
    ensures !ignoreMapped && WasUnmapped(s0, lo, n) ==> WasUnmapped(s0, lo, next)
    ensures r == Done || r == OutOfMemory || r == AlreadyMapped(n) || r == ZeroFault(n)
    ensures !r.OutOfMemory? ==> Spent(s0, m.S(), lo, next) && (!ignoreMapped ==> m.held == old(m.held))
    ensures r.OutOfMemory? ==> |s0.free| < FramesNeeded(s0.mem, Target(s0), lo, n + 1)
    ensures r.Done? ==> !(zero && !flags.writable)
    ensures r.ZeroFault? ==> zero && !flags.writable
    ensures r.AlreadyMapped? ==> !ignoreMapped && MmuWalk(s0.mem, s0.cr3, Indices(n)) != NoLeaf
    ensures r.OutOfMemory? ==> m.free == {}
    ensures old(m.S()) == s0 ==> (r.Done? || r.ZeroFault? <==> CanBegin(s0, n, ignoreMapped))
    ensures zero && flags.writable && RangeZeroed(s0, old(m.S()), lo, n) ==> RangeZeroed(s0, m.S(), lo, next)
  {
    ghost var s := m.S();
    LowIndices(n);
    UserPageReady(s0, s, lo, n, flags);
    if !ignoreMapped && WalkPageTable(m.mem, m.cr3, Indices(n)).Mapped? {
      return AlreadyMapped(n), n;
    }
    if !ignoreMapped && WasUnmapped(s0, lo, n) {
      WasUnmappedStep(s0, lo, n);
    }
    var res := MapNext(m, lo, n, flags, zero, s0);
    r := match res case Placed => Done case NoFrames => OutOfMemory case WriteFault => ZeroFault(n);
    next := if res.NoFrames? then n else n + 1;
    LowNumbered(lo, n + 1);
    MissingNow(s0, s, lo, n, flags);
    if !res.NoFrames? { SpentStep(s0, s, m.S(), lo, n, flags); }
  }

  /** The loop of `try_map_user_range`, over a range that passed the checks. */
  method TryMapAccepted(m: Machine, lo: nat, hi: nat, flags: EntryFlags, ignoreMapped: bool, zero: bool)
    returns (r: TryMapResult, ghost end: nat)
    requires m.Valid() && Target(m.S()) == m.cr3 && m.cr3 !in m.boot
    requires hi < 0x8_0000_0000
    modifies m
    ensures lo <= end && (end <= hi + 1 || end == lo) && RangeFresh(old(m.S()), m.S(), lo, end, flags)
    ensures !ignoreMapped ==> WasUnmapped(old(m.S()), lo, end)
    ensures zero && flags.writable ==> RangeZeroed(old(m.S()), m.S(), lo, end)
    ensures !r.InvalidAddress?
    ensures r.Done? ==> end == hi + 1 || (hi < lo && end == lo)
    ensures r.AlreadyMapped? ==>
              !ignoreMapped && r.page == end <= hi && old(MmuWalk(m.mem, m.cr3, Indices(end))) != NoLeaf
    ensures r.OutOfMemory? ==> end <= hi && m.free == {}
    ensures r.ZeroFault? ==> r.page == lo && end == lo + 1
    ensures r.ZeroFault? <==> zero && !flags.writable && end > lo
    ensures lo <= hi ==> (end > lo <==> CanBegin(old(m.S()), lo, ignoreMapped))
    ensures !(zero && !flags.writable) ==> (r.Done? <==> Fulfillable(old(m.S()), lo, hi, ignoreMapped))
    ensures !r.OutOfMemory? ==> Spent(old(m.S()), m.S(), lo, end) && (!ignoreMapped ==> m.held == old(m.held))
  {
    ghost var s0 := m.S();
    end := lo;
    var n := lo;
    RangeFreshEmpty(s0, lo, flags);
    while n <= hi
      invariant lo <= n == end && (n <= hi + 1 || n == lo)
      invariant RangeFresh(s0, m.S(), lo, n, flags) && Spent(s0, m.S(), lo, n)
      invariant !ignoreMapped ==> WasUnmapped(s0, lo, n)
      invariant zero && flags.writable ==> RangeZeroed(s0, m.S(), lo, n)
      invariant zero ==> n == lo || flags.writable
      invariant if n == lo then m.S() == s0 else CanBegin(s0, lo, ignoreMapped)
      invariant !ignoreMapped ==> m.held == s0.held
    {
      r, end := TryMapNext(m, lo, n, flags, ignoreMapped, zero, s0);
      if !r.Done? {
        Unfulfilled(s0, lo, n, hi, ignoreMapped, r);
        return;
      }
      n := n + 1;
    }
    Fulfilled(s0, lo, n, hi, ignoreMapped);
    r := Done;
  }

  /** All pages `lo` to `hi` of the active space can be mapped. */
  ghost predicate Fulfillable(s: State, lo: nat, hi: nat, ignoreMapped: bool) {
    (ignoreMapped || WasUnmapped(s, lo, hi + 1)) && |s.free| >= FramesNeeded(s.mem, s.cr3, lo, hi + 1)
  }

  lemma Unfulfilled(s: State, lo: nat, n: nat, hi: nat, ignoreMapped: bool, r: TryMapResult)
    requires lo <= n <= hi < 0x8_0000_0000
    requires r.AlreadyMapped? ==> !ignoreMapped && MmuWalk(s.mem, s.cr3, Indices(n)) != NoLeaf
    requires r.OutOfMemory? ==> |s.free| < FramesNeeded(s.mem, s.cr3, lo, n + 1)
    ensures r.AlreadyMapped? || r.OutOfMemory? ==> !Fulfillable(s, lo, hi, ignoreMapped)
  {
    if r.AlreadyMapped? { LowIndices(n); }
    if r.OutOfMemory? { FramesNeededMonotone(s.mem, s.cr3, lo, n + 1, hi + 1); }
  }

  lemma Fulfilled(s: State, lo: nat, n: nat, hi: nat, ignoreMapped: bool)
    requires n == hi + 1 || (n == lo && hi < lo)
    requires (ignoreMapped || WasUnmapped(s, lo, n)) && |s.free| >= FramesNeeded(s.mem, s.cr3, lo, n)
    ensures Fulfillable(s, lo, hi, ignoreMapped)
  {
  }

  /**
   `Mapper::try_map_user_range`. `end` is the first page not mapped.

   Unless told to ignore them, pages that were mapped before are never touched: only pages that
   were unmapped gain an entry, and they form a prefix of the request. A request to zero pages that
   are not to be writable gets its first page mapped, and then the kernel faults zeroing it.

   Unless memory runs out, the call takes exactly one frame for each page it mapped and one for each
   table these pages lacked.
   */
  method TryMapUserRange(m: Machine, lo: nat, hi: nat, flags: EntryFlags, ignoreMapped: bool, zero: bool)
    returns (r: TryMapResult, ghost end: nat)
    requires m.Valid() && Target(m.S()) == m.cr3 && m.cr3 !in m.boot
    modifies m
    ensures lo <= end && (end <= hi + 1 || end == lo) && RangeFresh(old(m.S()), m.S(), lo, end, flags)
    ensures !ignoreMapped ==> WasUnmapped(old(m.S()), lo, end)
    ensures zero && flags.writable ==> RangeZeroed(old(m.S()), m.S(), lo, end)
    ensures r.InvalidAddress? <==> RejectedPage(lo, hi).Some?
    ensures r.InvalidAddress? ==> r.page == RejectedPage(lo, hi).value && end == lo
    ensures r.Done? ==> end == hi + 1 || (hi < lo && end == lo)
    ensures r.AlreadyMapped? ==>
              !ignoreMapped && r.page == end <= hi && old(MmuWalk(m.mem, m.cr3, Indices(end))) != NoLeaf
    ensures r.OutOfMemory? ==> end <= hi && m.free == {}
    ensures r.ZeroFault? ==> r.page == lo && end == lo + 1
    ensures r.ZeroFault? <==> zero && !flags.writable && end > lo
    ensures lo <= hi && RejectedPage(lo, hi).None? ==> (end > lo <==> CanBegin(old(m.S()), lo, ignoreMapped))
    ensures RejectedPage(lo, hi).None? && !(zero && !flags.writable) ==>
              (r.Done? <==> Fulfillable(old(m.S()), lo, hi, ignoreMapped))
    ensures !r.OutOfMemory? ==> Spent(old(m.S()), m.S(), lo, end) && (!ignoreMapped ==> m.held == old(m.held))
  {
    if RejectedPage(lo, hi).Some? {
      RangeFreshEmpty(m.S(), lo, flags);
      return InvalidAddress(RejectedPage(lo, hi).value), lo;
    }
    AcceptedRanges(lo, hi);
    r, end := TryMapAccepted(m, lo, hi, flags, ignoreMapped, zero);
  }

  /** What a user request can reach: nothing outside slots 0 to 255 of the active space alone. */
  lemma UserRangeConfined(s0: State, s: State, lo: nat, hi: nat, end: nat, flags: EntryFlags, r: Frame, p: VPage)
    requires RejectedPage(lo, hi).None? && end <= hi + 1 && RangeFresh(s0, s, lo, end, flags)
    requires IsRoot(s0, r) && Ordinary(p) && (p.p4 >= 256 || r != Target(s0))
    ensures MmuWalk(s.mem, r, p) == MmuWalk(s0.mem, r, p)
  {
    AcceptedRanges(lo, hi);
    NumberIndices(p);
    if lo <= Number(p) < end {
      assert Indices(Number(p)).p4 < 256;
    }
  }

  // ---------------------------------------------------------------- ranges onto given frames

  /** Since `s0`, the target's pages numbered `lo` up to `hi` got the leaves of `e`, and no others changed. */
  ghost predicate RangeViews(s0: State, s: State, lo: nat, hi: nat, e: VPage -> Entry) {
    forall r, p: VPage :: IsRoot(s0, r) && Ordinary(p) ==>
      MmuWalk(s.mem, r, p) ==
      if lo <= Number(p) < hi && SameTop(s0.mem, r, Target(s0), p.p4) then LeafOf(e(p))
      else MmuWalk(s0.mem, r, p)
  }

  ghost predicate RangeSet(s0: State, s: State, lo: nat, hi: nat, e: VPage -> Entry) {
    && Inv(s) && Framed(s0, s) && Target(s) == Target(s0) && s.free <= s0.free && s0.held <= s.held
    && RangeViews(s0, s, lo, hi, e)
  }

  lemma RangeSetEmpty(s: State, lo: nat, e: VPage -> Entry)
    requires Inv(s)
    ensures RangeSet(s, s, lo, lo, e)
  {
  }

  lemma RangeViewsStep(s0: State, s: State, s': State, lo: nat, n: nat, page: VPage, e: VPage -> Entry)
    requires RangeViews(s0, s, lo, n, e) && lo <= n == Number(page)
    requires Framed(s0, s) && Target(s) == Target(s0) && IsRoot(s0, Target(s0))
    requires Remapped(s, s', page, LeafOf(e(page)))
    ensures RangeViews(s0, s', lo, n + 1, e)
  {
    NumberInjective(page);
  }

  lemma RangeSetStep(s0: State, s: State, s': State, lo: nat, n: nat, page: VPage, e: VPage -> Entry)
    requires Inv(s0) && RangeSet(s0, s, lo, n, e) && lo <= n == Number(page) && Ordinary(page)
    requires LeafChanged(s, s', page, e(page))
    ensures RangeSet(s0, s', lo, n + 1, e)
  {
    FramedTrans(s0, s, s');
    RangeViewsStep(s0, s, s', lo, n, page, e);
  }

  /** The entry a page has, with other flags. */
  ghost function Reflagged(s: State, p: VPage, flags: EntryFlags): Entry {
    match MmuWalk(s.mem, Target(s), p)
    case Page4K(e) => Entry(e.frame, flags.Or(PRESENT))
    case _ => UNUSED
  }

  /** Changing the flags of a page keeps every frame with its owner. */
  lemma ReflaggedOwners(s: State, s': State, page: VPage, flags: EntryFlags)
    requires Inv(s) && Ordinary(page) && MmuWalk(s.mem, Target(s), page).Page4K?
    requires LeafChanged(s, s', page, Reflagged(s, page, flags))
    ensures forall p: VPage, f :: Ordinary(p) && Owns(s, Target(s), p, f) ==> Owns(s', Target(s), p, f)
  {
    LeafChangedKeeps(s, s', page, Reflagged(s, page, flags));
    assert IsRoot(s, Target(s));
    forall p: VPage, f | Ordinary(p) && Owns(s, Target(s), p, f) ensures Owns(s', Target(s), p, f) {
      if p == page {
        assert MmuWalk(s'.mem, Target(s), p) == Page4K(Reflagged(s, page, flags));
      }
    }
  }

  ghost predicate OwnersKept(s0: State, s: State) {
    forall p: VPage, f :: Ordinary(p) && Owns(s0, Target(s0), p, f) ==> Owns(s, Target(s0), p, f)
  }

  /** One page of `set_flags`: the walk finds it and the mapping cannot run out of memory. */
  method SetFlagsOfPage(m: Machine, page: VPage, flags: EntryFlags)
    requires m.Valid() && Ordinary(page) && MmuWalk(m.mem, Target(m.S()), page).Page4K?
    requires MmuWalk(m.mem, Target(m.S()), page).entry.frame < 0x10_0000_0000
    modifies m
    ensures LeafChanged(old(m.S()), m.S(), page, old(Reflagged(m.S(), page, flags)))
    ensures OwnersKept(old(m.S()), m.S()) && |m.free| == |old(m.free)|
  {
    ghost var s := m.S();
    TargetRecursive(s);
    SoftWalkIsMmuWalk(m.mem, m.cr3, Target(s), page);
    var entry := WalkPageTable(m.mem, m.cr3, page).entry;
    MapAgain(m, page, entry.frame, flags);
    ReflaggedOwners(s, m.S(), page, flags);
  }

  /** `map_to` of a page that is mapped, which has its tables and so cannot run out of memory. */
  method MapAgain(m: Machine, page: VPage, frame: Frame, flags: EntryFlags)
    requires m.Valid() && Ordinary(page) && MmuWalk(m.mem, Target(m.S()), page).Page4K? && frame < 0x10_0000_0000
    modifies m
    ensures LeafChanged(old(m.S()), m.S(), page, Entry(frame, flags.Or(PRESENT))) && |m.free| == |old(m.free)|
  {
    WalkedSmallPages(m.mem, Target(m.S()), page);
    NoneMissing(m.mem, Target(m.S()), page);
    var ok := m.MapTo(page, frame, flags);
  }

  lemma NoneMissing(mem: Mem, r: Frame, p: VPage)
    requires MmuWalk(mem, r, p).Page4K?
    ensures MissingTables(mem, r, p) == 0
  {
    WalkByP1(mem, r, p);
  }

  lemma WalkedSmallPages(mem: Mem, r: Frame, p: VPage)
    requires MmuWalk(mem, r, p).Page4K?
    ensures SmallPages(mem, r, p)
  {
  }

  /** `Mapper::set_flags` over pages `lo` to `hi` inclusive, which must all be mapped as 4 KiB pages. */
  method SetFlags(m: Machine, lo: nat, hi: nat, flags: EntryFlags)
    requires m.Valid() && lo <= hi
    requires forall n :: lo <= n <= hi ==> CanonicalPage(n) && Ordinary(Indices(n))
    requires forall p: VPage :: lo <= Number(p) <= hi ==>
               && MmuWalk(m.mem, Target(m.S()), p).Page4K?
               && MmuWalk(m.mem, Target(m.S()), p).entry.frame < 0x10_0000_0000
    modifies m
    ensures RangeSet(old(m.S()), m.S(), lo, hi + 1, p => Reflagged(old(m.S()), p, flags))
    ensures OwnersKept(old(m.S()), m.S()) && |m.free| == |old(m.free)|
  {
    ghost var s0 := m.S();
    ghost var e := p => Reflagged(s0, p, flags);
    var n := lo;
    RangeSetEmpty(s0, lo, e);
    while n <= hi
      invariant lo <= n <= hi + 1
      invariant RangeSet(s0, m.S(), lo, n, e) && OwnersKept(s0, m.S()) && |m.free| == |s0.free|
    {
      ghost var s := m.S();
      RangeSetAhead(s0, s, lo, n, e);
      SetFlagsOfPage(m, Indices(n), flags);
      RangeSetStep(s0, s, m.S(), lo, n, Indices(n), e);
      n := n + 1;
    }
  }

  /** Pages that the loop has not reached are as they were. */
  lemma RangeSetAhead(s0: State, s: State, lo: nat, n: nat, e: VPage -> Entry)
    requires Inv(s0) && RangeSet(s0, s, lo, n, e) && lo <= n && CanonicalPage(n) && Ordinary(Indices(n))
    ensures MmuWalk(s.mem, Target(s), Indices(n)) == MmuWalk(s0.mem, Target(s0), Indices(n))
    ensures Number(Indices(n)) == n
  {
    assert IsRoot(s0, Target(s0));
    IndicesNumber(n);
  }

  // ---------------------------------------------------------------- the kernel's own mapping

  const KERNEL_MAPPING_BEGIN: nat := 0xFFFF_FFFF_8000_0000
  const KERNEL_PAGE: nat := 0xF_FFFF_FFF8_0000
  const PAGES_END: nat := 0x10_0000_0000_0000

  /** Pages of the top 2 GiB, where the kernel lives. */
  lemma KernelPages(n: nat)
    requires KERNEL_PAGE <= n < PAGES_END
    ensures CanonicalPage(n) && Indices(n).p4 == KERNEL_SLOT && Ordinary(Indices(n)) && Number(Indices(n)) == n
  {
    assert n / 0x800_0000 == 0x1FF_FFFF;
    IndicesNumber(n);
  }

  /** The entry of a page mapped to its address minus `KERNEL_MAPPING_BEGIN`. */
  function HigherHalfEntry(p: VPage, flags: EntryFlags): Entry {
    Entry(if Number(p) >= KERNEL_PAGE then Number(p) - KERNEL_PAGE else 0, flags.Or(PRESENT))
  }

  /** One page of `higher_half_map_range`. */
  method MapHigherHalfPage(m: Machine, n: nat, flags: EntryFlags) returns (ok: bool)
    requires m.Valid() && Target(m.S()) !in m.boot && KERNEL_PAGE <= n < PAGES_END
    modifies m
    ensures ok ==> LeafChanged(old(m.S()), m.S(), Indices(n), HigherHalfEntry(Indices(n), flags))
    ensures !ok ==> m.free == {}
  {
    KernelPages(n);
    BuiltSmallPages(m.S(), Target(m.S()), Indices(n));
    ok := m.MapTo(Indices(n), n - KERNEL_PAGE, flags);
  }

  /** One round of the loop. */
  method MapHigherHalfNext(m: Machine, lo: nat, n: nat, flags: EntryFlags, ghost s0: State, ghost e: VPage -> Entry)
    returns (ok: bool)
    requires Inv(s0) && RangeSet(s0, m.S(), lo, n, e) && OwnersOutside(s0, m.S(), lo, n) && lo <= n
    requires Target(m.S()) !in m.boot && KERNEL_PAGE <= n < PAGES_END
    requires e(Indices(n)) == HigherHalfEntry(Indices(n), flags)
    modifies m
    ensures ok ==> RangeSet(s0, m.S(), lo, n + 1, e) && OwnersOutside(s0, m.S(), lo, n + 1)
    ensures ok ==> OnlyHandedOver(old(m.S()), m.S())
    ensures !ok ==> m.free == {}
  {
    ghost var s := m.S();
    ok := MapHigherHalfPage(m, n, flags);
    if ok {
      KernelPages(n);
      ChangedHandsOver(s, m.S(), Indices(n), HigherHalfEntry(Indices(n), flags));
      ChangedOwned(s, m.S(), Indices(n), HigherHalfEntry(Indices(n), flags));
      OwnersOutsideStep(s0, s, m.S(), lo, n, Indices(n));
      RangeSetStep(s0, s, m.S(), lo, n, Indices(n), e);
    }
  }

  /** The loop of `Mapper::higher_half_map_range` over pages `lo` up to `hi`; false when it panics. */
  method MapHigherHalf(m: Machine, lo: nat, hi: nat, flags: EntryFlags) returns (ok: bool)
    requires m.Valid() && Target(m.S()) !in m.boot && KERNEL_PAGE <= lo && hi <= PAGES_END
    modifies m
    ensures ok ==> RangeSet(old(m.S()), m.S(), lo, hi, p => HigherHalfEntry(p, flags))
    ensures ok ==> OwnersOutside(old(m.S()), m.S(), lo, hi) && OnlyHandedOver(old(m.S()), m.S())
    ensures !ok ==> m.free == {}
  {
    ghost var s0 := m.S();
    ghost var e := p => HigherHalfEntry(p, flags);
    var n := lo;
    RangeSetEmpty(s0, lo, e);
    while n < hi
      invariant lo <= n && (n <= hi || n == lo)
      invariant RangeSet(s0, m.S(), lo, n, e) && OwnersOutside(s0, m.S(), lo, n) && OnlyHandedOver(s0, m.S())
    {
      ghost var s := m.S();
      ok := MapHigherHalfNext(m, lo, n, flags, s0, e);
      if !ok { return; }
      HandedOverTrans(s0, s, m.S());
      n := n + 1;
    }
    RangeSetMore(s0, m.S(), lo, n, hi, e);
    ok := true;
  }

  lemma RangeSetMore(s0: State, s: State, lo: nat, n: nat, hi: nat, e: VPage -> Entry)
    requires RangeSet(s0, s, lo, n, e) && OwnersOutside(s0, s, lo, n) && (n == hi || (n == lo && hi <= lo))
    ensures RangeSet(s0, s, lo, hi, e) && OwnersOutside(s0, s, lo, hi)
  {
  }
}
