/**
 The address space of a new process: the kernel half, and the pages of the program's segments.
 */
module Spawning {
  import opened Util
  import opened Entries
  import opened Pages
  import opened Mmu
  import opened Spaces
  import opened Views
  import opened Changes
  import opened Mapper
  import opened RangeMapping
  import opened AddressSpaces

  /** A loadable program header: its addresses, its rights, and whether the file holds all its bytes. */
  datatype Segment = Segment(start: Word, size: Word, writable: bool, executable: bool, filled: bool)

  /** How loading ends; `NoTables` where the kernel panics because there are no tables to load into. */
  datatype LoadResult = Loaded | InvalidPage(page: nat) | InvalidHeaderRange | NoMemory | NoTables

  function FirstOf(segment: Segment): nat {
    segment.start / 4096
  }

  /** Where the segment ends, cut to 64 bits. */
  function Stop(segment: Segment): nat {
    (segment.start + segment.size) % WORD
  }

  function LastOf(segment: Segment): nat {
    (Stop(segment) + WORD - 1) % WORD / 4096
  }

  predicate InSegment(segment: Segment, n: nat) {
    FirstOf(segment) <= n <= LastOf(segment)
  }

  /** One past the last page; a segment may also be empty. */
  function EndOf(segment: Segment): nat {
    EndOfPages(FirstOf(segment), LastOf(segment))
  }

  function EndOfPages(lo: nat, hi: nat): nat {
    if lo <= hi then hi + 1 else lo
  }

  /** If it has bytes and its end does not overflow, its pages are those of its bytes. */
  lemma SegmentBytes(segment: Segment, n: nat)
    requires 0 < segment.size && segment.start + segment.size <= WORD
    ensures InSegment(segment, n) <==> exists a: nat :: segment.start <= a < segment.start + segment.size && a / 4096 == n
  {
    var end := segment.start + segment.size - 1;
    assert LastOf(segment) == end / 4096;
    if InSegment(segment, n) {
      var a := if n * 4096 <= segment.start then segment.start else n * 4096;
      assert segment.start <= a < segment.start + segment.size && a / 4096 == n;
    }
  }

  function SegmentFlags(segment: Segment): EntryFlags {
    USER_ACCESSIBLE.Or(if segment.executable then NONE else NO_EXECUTE).Or(if segment.writable then WRITABLE else NONE)
  }

  /** The page a header is rejected for, if any. */
  function Rejection(segment: Segment): Option<nat> {
    if segment.start == 0 && Stop(segment) > 0 then Some(0) else RejectedPage(FirstOf(segment), LastOf(segment))
  }

  /**
   Which headers are accepted: none with bytes at address zero, and none that begins in the upper half or
   has a page after the stack bottom's. The end of a header may have overflowed.
   */
  lemma AcceptedSegments(segment: Segment)
    ensures Rejection(segment).None? <==>
            && !(segment.start == 0 && 0 < segment.size)
            && segment.start < 0x8000_0000_0000 && LastOf(segment) <= 0x7_FFFF_FFFD
    ensures segment.start == 0 && 0 < segment.size ==> Rejection(segment) == Some(0)
  {
    AcceptedRanges(FirstOf(segment), LastOf(segment));
    assert FirstOf(segment) < 0x10_0000_0000_0000;
  }

  /** If it has bytes and its end does not overflow, these are the headers that lie between the two bounds. */
  lemma AcceptedBytes(segment: Segment)
    requires 0 < segment.size && segment.start + segment.size <= WORD
    ensures Rejection(segment).None? <==> 0 < segment.start && segment.start + segment.size <= 0x7FFF_FFFF_E000
  {
    AcceptedSegments(segment);
    LastPageBound(segment);
  }

  lemma LastPageBound(segment: Segment)
    requires 0 < segment.size && segment.start + segment.size <= WORD
    ensures LastOf(segment) <= 0x7_FFFF_FFFD <==> segment.start + segment.size <= 0x7FFF_FFFF_E000
  {
    assert LastOf(segment) == (segment.start + segment.size - 1) / 4096;
  }

  predicate Loadable(segment: Segment) {
    Rejection(segment).None? && segment.filled
  }

  /** How a segment fares in state `s`. */
  ghost function Outcome(s: State, segment: Segment): LoadResult {
    if Rejection(segment).Some? then InvalidPage(Rejection(segment).value)
    else if !Fulfillable(s, FirstOf(segment), LastOf(segment), true) then NoMemory
    else if !segment.filled then InvalidHeaderRange
    else Loaded
  }

  /** Page `n` is in one of the segments. */
  predicate Covered(segments: seq<Segment>, n: nat) {
    segments != [] && (InSegment(segments[|segments| - 1], n) || Covered(segments[..|segments| - 1], n))
  }

  /** The rights of the last segment that has page `n`. */
  function LastFlags(segments: seq<Segment>, n: nat): EntryFlags {
    if segments == [] then NONE
    else if InSegment(segments[|segments| - 1], n) then SegmentFlags(segments[|segments| - 1])
    else LastFlags(segments[..|segments| - 1], n)
  }

  /** Of the segments that have page `n`, the last decides its rights; with none, it is not covered. */
  lemma {:induction false} LastDecides(segments: seq<Segment>, n: nat, i: int)
    requires -1 <= i < |segments| && (i >= 0 ==> InSegment(segments[i], n))
    requires forall j :: i < j < |segments| ==> !InSegment(segments[j], n)
    ensures Covered(segments, n) <==> i >= 0
    ensures i >= 0 ==> LastFlags(segments, n) == SegmentFlags(segments[i])
  {
    if i < |segments| - 1 {
      LastDecides(segments[..|segments| - 1], n, i);
    }
  }

  /** Since `s0`, exactly the pages of the segments were mapped, each on a fresh frame of its own. */
  ghost predicate SegmentsMapped(s0: State, s: State, segments: seq<Segment>) {
    SegmentViews(s0, s, segments) && SegmentPages(s0, s, segments)
  }

  ghost predicate SegmentPages(s0: State, s: State, segments: seq<Segment>) {
    forall p: VPage :: Ordinary(p) && Covered(segments, Number(p)) ==> FreshPage(s0, s, p, LastFlags(segments, Number(p)))
  }

  ghost predicate SegmentViews(s0: State, s: State, segments: seq<Segment>) {
    forall r, p: VPage ::
      IsRoot(s0, r) && Ordinary(p) && !(Covered(segments, Number(p)) && SameTop(s0.mem, r, Target(s0), p.p4)) ==>
      MmuWalk(s.mem, r, p) == MmuWalk(s0.mem, r, p)
  }

  /** Since `s0`, nothing changed but the lower half of the target space, and frames were only taken. */
  ghost predicate UserOnly(s0: State, s: State) {
    && Inv(s) && Framed(s0, s) && Target(s) == Target(s0) && s.free <= s0.free && s0.held <= s.held
    && (forall r, p: VPage :: IsRoot(s0, r) && Ordinary(p) && (p.p4 >= 256 || r != Target(s0)) ==>
          MmuWalk(s.mem, r, p) == MmuWalk(s0.mem, r, p))
    && HigherOwners(s0, s)
  }

  /** Pages of the upper half still own the frames they owned. */
  ghost predicate HigherOwners(s0: State, s: State) {
    forall p: VPage {:trigger SelfOwned(s, p)} :: Ordinary(p) && p.p4 >= 256 && SelfOwned(s0, p) ==> SelfOwned(s, p)
  }

  lemma UserOnlyTrans(s0: State, s1: State, s2: State)
    requires Inv(s0) && UserOnly(s0, s1) && UserOnly(s1, s2)
    ensures UserOnly(s0, s2)
  {
    FramedTrans(s0, s1, s2);
    forall p: VPage | Ordinary(p) && p.p4 >= 256 && SelfOwned(s0, p) ensures SelfOwned(s2, p) {
      assert SelfOwned(s1, p);
    }
  }

  lemma FreshUserOnly(s0: State, s: State, lo: nat, hi: nat, end: nat, flags: EntryFlags)
    requires RejectedPage(lo, hi).None? && (end <= hi + 1 || end == lo) && RangeFresh(s0, s, lo, end, flags)
    ensures UserOnly(s0, s)
  {
    forall r, p: VPage | IsRoot(s0, r) && Ordinary(p) && (p.p4 >= 256 || r != Target(s0))
      ensures MmuWalk(s.mem, r, p) == MmuWalk(s0.mem, r, p)
    {
      if end <= hi + 1 { UserRangeConfined(s0, s, lo, hi, end, flags, r, p); }
    }
    forall p: VPage | Ordinary(p) && p.p4 >= 256 && SelfOwned(s0, p) ensures SelfOwned(s, p) {
      AcceptedRanges(lo, hi);
      NumberIndices(p);
    }
  }

  lemma UntouchedUser(s0: State, s: State, lo: nat)
    requires RangeFresh(s0, s, lo, lo, WRITABLE)
    ensures UserOnly(s0, s)
  {
  }

  // ---------------------------------------------------------------- one segment

  /** Mapping pages afresh and then setting their flags: together, mapping them afresh with these. */
  lemma MappedThenFlagged(s: State, s1: State, s2: State, lo: nat, hi: nat, flags: EntryFlags)
    requires Inv(s) && RangeFresh(s, s1, lo, hi, WRITABLE)
    requires RangeSet(s1, s2, lo, hi, p => Reflagged(s1, p, flags)) && OwnersKept(s1, s2)
    ensures RangeFresh(s, s2, lo, hi, flags)
  {
    FramedTrans(s, s1, s2);
    assert IsRoot(s, Target(s)) && IsRoot(s1, Target(s));
    FlaggedPages(s, s1, s2, lo, hi, flags);
    FlaggedOwners(s, s1, s2, lo, hi, flags);
  }

  lemma FlaggedPages(s: State, s1: State, s2: State, lo: nat, hi: nat, flags: EntryFlags)
    requires Target(s1) == Target(s) && IsRoot(s1, Target(s))
    requires forall p: VPage :: Ordinary(p) && lo <= Number(p) < hi ==> FreshPage(s, s1, p, WRITABLE)
    requires RangeViews(s1, s2, lo, hi, p => Reflagged(s1, p, flags)) && OwnersKept(s1, s2)
    ensures forall p: VPage :: Ordinary(p) && lo <= Number(p) < hi ==> FreshPage(s, s2, p, flags)
  {
    forall p: VPage | Ordinary(p) && lo <= Number(p) < hi ensures FreshPage(s, s2, p, flags) {
      assert FreshPage(s, s1, p, WRITABLE);
      var f := MmuWalk(s1.mem, Target(s), p).entry.frame;
      assert Owns(s1, Target(s1), p, f);
      assert MmuWalk(s2.mem, Target(s), p) == Page4K(Entry(f, flags.Or(PRESENT)));
    }
  }

  lemma FlaggedOwners(s: State, s1: State, s2: State, lo: nat, hi: nat, flags: EntryFlags)
    requires Target(s1) == Target(s) && Target(s2) == Target(s) && IsRoot(s1, Target(s)) && OwnersOutside(s, s1, lo, hi)
    requires RangeViews(s1, s2, lo, hi, p => Reflagged(s1, p, flags)) && OwnersKept(s1, s2)
    ensures OwnersOutside(s, s2, lo, hi)
  {
    forall p: VPage | Ordinary(p) && !(lo <= Number(p) < hi) && SelfOwned(s, p) ensures SelfOwned(s2, p) {
      assert SelfOwned(s1, p);
      assert Owns(s2, Target(s1), p, MmuWalk(s1.mem, Target(s1), p).entry.frame);
    }
  }

  /** The pages are writable while the file is copied into them. */
  lemma CopyAllowed(s0: State, s: State, lo: nat, hi: nat, p: VPage)
    requires Inv(s0) && RangeFresh(s0, s, lo, hi, WRITABLE) && Target(s0) == s0.cr3 && Ordinary(p) && lo <= Number(p) < hi
    ensures Writable(s.mem, s.cr3, p)
  {
    assert FreshPage(s0, s, p, WRITABLE);
    OwnedPageWritable(s, p, MmuWalk(s.mem, Target(s0), p).entry.frame);
  }

  /** Pages just mapped are fit for `set_flags`. */
  lemma FreshFlaggable(s0: State, s: State, lo: nat, hi: nat)
    requires Inv(s0) && RangeFresh(s0, s, lo, hi + 1, WRITABLE)
    requires forall n :: lo <= n <= hi ==> CanonicalPage(n) && Ordinary(Indices(n))
    ensures forall p: VPage :: lo <= Number(p) <= hi ==>
              MmuWalk(s.mem, Target(s), p).Page4K? && MmuWalk(s.mem, Target(s), p).entry.frame < 0x10_0000_0000
  {
    forall p: VPage | lo <= Number(p) <= hi
      ensures MmuWalk(s.mem, Target(s), p).Page4K? && MmuWalk(s.mem, Target(s), p).entry.frame < 0x10_0000_0000
    {
      NumberIndices(p);
      assert FreshPage(s0, s, p, WRITABLE);
    }
  }

  /** `set_flags` on pages just mapped. */
  method Protect(m: Machine, lo: nat, hi: nat, flags: EntryFlags, ghost s0: State)
    requires Inv(s0) && RangeFresh(s0, m.S(), lo, hi + 1, WRITABLE) && lo <= hi
    requires forall n :: lo <= n <= hi ==> CanonicalPage(n) && Ordinary(Indices(n))
    modifies m
    ensures RangeFresh(s0, m.S(), lo, hi + 1, flags) && |m.free| == |old(m.free)|
  {
    ghost var s1 := m.S();
    FreshFlaggable(s0, s1, lo, hi);
    SetFlags(m, lo, hi, flags);
    MappedThenFlagged(s0, s1, m.S(), lo, hi + 1, flags);
  }

  /** Pages `lo` up to `end` took one frame each, and one for each table they lacked. */
  ghost predicate Costs(s: State, s': State, lo: nat, end: nat) {
    |s.free| == |s'.free| + FramesNeeded(s.mem, Target(s), lo, end)
  }

  /** One round of the loop in `Process::spawn_from_elf`. */
  method LoadSegment(m: Machine, segment: Segment) returns (r: LoadResult)
    requires m.Valid() && Target(m.S()) == m.cr3 && m.cr3 !in m.boot
    modifies m
    ensures UserOnly(old(m.S()), m.S()) && r == Outcome(old(m.S()), segment)
    ensures r.Loaded? ==> RangeFresh(old(m.S()), m.S(), FirstOf(segment), EndOf(segment), SegmentFlags(segment))
    ensures r.Loaded? ==> Costs(old(m.S()), m.S(), FirstOf(segment), EndOf(segment))
    ensures r.NoMemory? ==> m.free == {}
  {
    if segment.start == 0 && Stop(segment) > 0 {
      return InvalidPage(0);
    }
    r := LoadPages(m, FirstOf(segment), LastOf(segment), SegmentFlags(segment), segment.filled);
  }

  /** Mapping, filling and protecting pages `lo` to `hi`. */
  method LoadPages(m: Machine, lo: nat, hi: nat, flags: EntryFlags, filled: bool) returns (r: LoadResult)
    requires m.Valid() && Target(m.S()) == m.cr3 && m.cr3 !in m.boot
    modifies m
    ensures UserOnly(old(m.S()), m.S()) && !r.NoTables?
    ensures r.InvalidPage? <==> RejectedPage(lo, hi).Some?
    ensures r.InvalidPage? ==> r.page == RejectedPage(lo, hi).value
    ensures r.NoMemory? <==> RejectedPage(lo, hi).None? && !Fulfillable(old(m.S()), lo, hi, true)
    ensures r.NoMemory? ==> m.free == {}
    ensures r.Loaded? ==> filled && RangeFresh(old(m.S()), m.S(), lo, EndOfPages(lo, hi), flags)
    ensures r.Loaded? ==> Costs(old(m.S()), m.S(), lo, EndOfPages(lo, hi))
    ensures r.InvalidHeaderRange? ==> !filled
  {
    ghost var s0 := m.S();
    var mapped, end := MapToFill(m, lo, hi);
    if mapped.InvalidAddress? {
      return InvalidPage(mapped.page);
    }
    if mapped.OutOfMemory? {
      return NoMemory;
    }
    if !filled {
      return InvalidHeaderRange;
    }
    if lo <= hi {
      AcceptedRanges(lo, hi);
      Protect(m, lo, hi, flags, s0);
      FreshUserOnly(s0, m.S(), lo, hi, hi + 1, flags);
    }
    r := Loaded;
  }

  /** The call of `try_map_user_range`: over mapped pages, writable, and without zeroing. */
  method MapToFill(m: Machine, lo: nat, hi: nat) returns (r: TryMapResult, ghost end: nat)
    requires m.Valid() && Target(m.S()) == m.cr3 && m.cr3 !in m.boot
    modifies m
    ensures UserOnly(old(m.S()), m.S()) && (r.Done? || r.OutOfMemory? || r.InvalidAddress?)
    ensures r.InvalidAddress? <==> RejectedPage(lo, hi).Some?
    ensures r.InvalidAddress? ==> r.page == RejectedPage(lo, hi).value
    ensures r.OutOfMemory? <==> RejectedPage(lo, hi).None? && !Fulfillable(old(m.S()), lo, hi, true)
    ensures r.OutOfMemory? ==> m.free == {}
    ensures r.Done? ==> RangeFresh(old(m.S()), m.S(), lo, end, WRITABLE) && end == EndOfPages(lo, hi)
    ensures r.Done? ==> Costs(old(m.S()), m.S(), lo, end)
  {
    ghost var s0 := m.S();
    r, end := TryMapUserRange(m, lo, hi, WRITABLE, true, false);
    if r.InvalidAddress? {
      UntouchedUser(s0, m.S(), lo);
    } else {
      FreshUserOnly(s0, m.S(), lo, hi, end, WRITABLE);
      if r.Done? { SpentCosts(s0, m.S(), lo, end); }
    }
  }

  lemma SpentCosts(s: State, s': State, lo: nat, end: nat)
    requires Spent(s, s', lo, end)
    ensures Costs(s, s', lo, end)
  {
  }

  // ---------------------------------------------------------------- all segments

  lemma NothingMapped(s: State)
    requires Inv(s)
    ensures SegmentsMapped(s, s, []) && UserOnly(s, s)
  {
  }

  lemma OneMoreSegment(s0: State, s: State, s': State, segments: seq<Segment>, segment: Segment)
    requires SlotsRecursive(s0) && Framed(s0, s) && Target(s) == Target(s0) && s.free <= s0.free
    requires SegmentsMapped(s0, s, segments)
    requires RangeFresh(s, s', FirstOf(segment), EndOf(segment), SegmentFlags(segment))
    ensures SegmentsMapped(s0, s', segments + [segment])
  {
    assert (segments + [segment])[..|segments|] == segments;
    assert IsRoot(s0, Target(s0)) && IsRoot(s, Target(s0));
    MoreViews(s0, s, s', segments, segment);
    MorePages(s0, s, s', segments, segment);
  }

  lemma MoreViews(s0: State, s: State, s': State, segments: seq<Segment>, segment: Segment)
    requires Framed(s0, s) && Target(s) == Target(s0) && SegmentViews(s0, s, segments)
    requires IsRoot(s0, Target(s0)) && (segments + [segment])[..|segments|] == segments
    requires RangeFresh(s, s', FirstOf(segment), EndOf(segment), SegmentFlags(segment))
    ensures SegmentViews(s0, s', segments + [segment])
  {
    forall r, p: VPage | IsRoot(s0, r) && Ordinary(p)
                         && !(Covered(segments + [segment], Number(p)) && SameTop(s0.mem, r, Target(s0), p.p4))
      ensures MmuWalk(s'.mem, r, p) == MmuWalk(s0.mem, r, p)
    {
      assert MmuWalk(s.mem, r, p) == MmuWalk(s0.mem, r, p);
      assert SameTop(s.mem, r, Target(s0), p.p4) == SameTop(s0.mem, r, Target(s0), p.p4);
    }
  }

  lemma MorePages(s0: State, s: State, s': State, segments: seq<Segment>, segment: Segment)
    requires Target(s) == Target(s0) && SegmentPages(s0, s, segments) && s.free <= s0.free
    requires IsRoot(s, Target(s0)) && (segments + [segment])[..|segments|] == segments
    requires RangeFresh(s, s', FirstOf(segment), EndOf(segment), SegmentFlags(segment))
    ensures SegmentPages(s0, s', segments + [segment])
  {
    forall p: VPage | Ordinary(p) && Covered(segments + [segment], Number(p))
      ensures FreshPage(s0, s', p, LastFlags(segments + [segment], Number(p)))
    {
      if InSegment(segment, Number(p)) {
        assert FreshPage(s, s', p, SegmentFlags(segment));
      } else {
        assert FreshPage(s0, s, p, LastFlags(segments, Number(p))) && SelfOwned(s, p);
        assert SelfOwned(s', p) && MmuWalk(s'.mem, Target(s0), p) == MmuWalk(s.mem, Target(s0), p);
      }
    }
  }

  /** Loading one segment leads from `s` to `s'`. */
  ghost predicate Loading(s: State, s': State, segment: Segment) {
    && Outcome(s, segment).Loaded? && Costs(s, s', FirstOf(segment), EndOf(segment))
    && RangeFresh(s, s', FirstOf(segment), EndOf(segment), SegmentFlags(segment))
  }

  /** The states between the segments that were loaded, one after the other. */
  ghost predicate Loads(trace: seq<State>, segments: seq<Segment>) {
    && 1 <= |trace| <= |segments| + 1
    && (forall i {:trigger LoadingAt(trace, segments, i)} :: 0 <= i < |trace| - 1 ==> LoadingAt(trace, segments, i))
  }

  ghost predicate LoadingAt(trace: seq<State>, segments: seq<Segment>, i: nat)
    requires i + 1 < |trace| <= |segments| + 1
  {
    Loading(trace[i], trace[i + 1], segments[i])
  }

  /** All segments were loaded, or `r` is what became of the first that was not. */
  ghost predicate EndsAs(r: LoadResult, trace: seq<State>, segments: seq<Segment>) {
    && Loads(trace, segments) && !r.NoTables?
    && (r.Loaded? <==> |trace| == |segments| + 1)
    && (!r.Loaded? ==> r == Outcome(trace[|trace| - 1], segments[|trace| - 1]))
  }

  /** One round, over the segments before it. */
  method LoadNext(m: Machine, segments: seq<Segment>, i: nat, ghost s0: State) returns (r: LoadResult)
    requires Inv(s0) && Target(s0) == s0.cr3 && s0.cr3 !in s0.boot && i < |segments|
    requires SegmentsMapped(s0, m.S(), segments[..i]) && UserOnly(s0, m.S())
    modifies m
    ensures UserOnly(s0, m.S()) && r == Outcome(old(m.S()), segments[i])
    ensures r.Loaded? ==> SegmentsMapped(s0, m.S(), segments[..i + 1]) && Loading(old(m.S()), m.S(), segments[i])
    ensures r.NoMemory? ==> m.free == {}
  {
    ghost var s := m.S();
    r := LoadSegment(m, segments[i]);
    if r.Loaded? { SegmentLoaded(s0, s, m.S(), segments, i); }
    UserOnlyTrans(s0, s, m.S());
  }

  lemma SegmentLoaded(s0: State, s: State, s': State, segments: seq<Segment>, i: nat)
    requires SlotsRecursive(s0) && Framed(s0, s) && Target(s) == Target(s0) && s.free <= s0.free && i < |segments|
    requires SegmentsMapped(s0, s, segments[..i])
    requires RangeFresh(s, s', FirstOf(segments[i]), EndOf(segments[i]), SegmentFlags(segments[i]))
    ensures SegmentsMapped(s0, s', segments[..i + 1])
  {
    assert segments[..i + 1] == segments[..i] + [segments[i]];
    OneMoreSegment(s0, s, s', segments[..i], segments[i]);
  }

  /**
   The closure `Process::spawn_from_elf` runs in the new space. It stops at the first segment that
   cannot be loaded.
   */
  method LoadSegments(m: Machine, segments: seq<Segment>) returns (r: LoadResult, ghost trace: seq<State>)
    requires m.Valid() && Target(m.S()) == m.cr3 && m.cr3 !in m.boot
    modifies m
    ensures UserOnly(old(m.S()), m.S())
    ensures EndsAs(r, trace, segments) && trace[0] == old(m.S())
    ensures r.Loaded? ==> SegmentsMapped(old(m.S()), m.S(), segments) && trace[|segments|] == m.S()
    ensures r.NoMemory? ==> m.free == {}
  {
    ghost var s0 := m.S();
    NothingMapped(s0);
    var i := 0;
    trace := [s0];
    while i < |segments|
      invariant 0 <= i <= |segments| && |trace| == i + 1 && trace[i] == m.S() && trace[0] == s0 && Loads(trace, segments)
      invariant SegmentsMapped(s0, m.S(), segments[..i]) && UserOnly(s0, m.S())
    {
      r := LoadNext(m, segments, i, s0);
      if !r.Loaded? { return; }
      LoadsOneMore(trace, m.S(), segments);
      trace := trace + [m.S()];
      i := i + 1;
    }
    assert segments[..i] == segments;
    r := Loaded;
  }

  lemma LoadsOneMore(trace: seq<State>, s: State, segments: seq<Segment>)
    requires Loads(trace, segments) && |trace| <= |segments| && Loading(trace[|trace| - 1], s, segments[|trace| - 1])
    ensures Loads(trace + [s], segments)
  {
    var longer := trace + [s];
    forall i | 0 <= i < |longer| - 1 ensures LoadingAt(longer, segments, i) {
      if i < |trace| - 1 { assert LoadingAt(trace, segments, i); }
    }
  }

  // ---------------------------------------------------------------- segments that share a page

  ghost function FrameOf(s: State, p: VPage): Option<Frame> {
    Translate(s.mem, Target(s), p)
  }

  /** Mapping a range afresh gives a page another frame exactly if the page is in the range. */
  lemma FrameKeptIff(s: State, s': State, lo: nat, hi: nat, flags: EntryFlags, p: VPage)
    requires IsRoot(s, Target(s)) && RangeFresh(s, s', lo, hi, flags) && Ordinary(p) && SelfOwned(s, p) && Accounted(s)
    ensures SelfOwned(s', p) && (FrameOf(s', p) == FrameOf(s, p) <==> !(lo <= Number(p) < hi))
  {
    if lo <= Number(p) < hi {
      assert FreshPage(s, s', p, flags);
    } else {
      assert MmuWalk(s'.mem, Target(s), p) == MmuWalk(s.mem, Target(s), p);
    }
  }

  /** Mapping a range afresh gives its pages frames that were free, and leaves the others theirs. */
  lemma FrameStep(s: State, s': State, lo: nat, hi: nat, flags: EntryFlags, p: VPage)
    requires RangeFresh(s, s', lo, hi, flags) && Ordinary(p)
    ensures s'.free <= s.free
    ensures lo <= Number(p) < hi ==>
              FrameOf(s', p).Some? && FrameOf(s', p).value in s.free && FrameOf(s', p).value !in s'.free
    ensures !(lo <= Number(p) < hi) ==> FrameOf(s', p) == FrameOf(s, p)
  {
    assert IsRoot(s', Target(s'));
    if lo <= Number(p) < hi {
      assert FreshPage(s, s', p, flags);
    } else {
      assert MmuWalk(s'.mem, Target(s), p) == MmuWalk(s.mem, Target(s), p);
    }
  }

  /** What happens to one page: the frame it shows, the free frames, and whether segment `k` has it. */
  datatype PageStep = PageStep(frame: Option<Frame>, free: set<Frame>, has: bool)

  /** If the page is had, it gets a frame that was free; if not, it keeps the one it has. */
  ghost predicate Follows(a: PageStep, b: PageStep) {
    && b.free <= a.free
    && (if a.has then b.frame.Some? && b.frame.value in a.free && b.frame.value !in b.free else b.frame == a.frame)
  }

  ghost predicate History(steps: seq<PageStep>) {
    forall k :: 0 <= k < |steps| - 1 ==> Follows(steps[k], steps[k + 1])
  }

  /** Until step `k`, the page shows the frame it got in step `i` exactly if it was not had since. */
  lemma {:induction false} ShownUntil(steps: seq<PageStep>, i: nat, k: nat)
    requires History(steps) && i < k < |steps| && steps[i].has
    ensures steps[i + 1].frame.Some? && steps[i + 1].frame.value !in steps[k].free
    ensures steps[k].frame == steps[i + 1].frame <==> forall j :: i < j < k ==> !steps[j].has
  {
    assert Follows(steps[k - 1], steps[k]);
    if k > i + 1 {
      ShownUntil(steps, i, k - 1);
    }
  }

  ghost function StepAt(trace: seq<State>, segments: seq<Segment>, k: nat, p: VPage): PageStep
    requires k < |trace| == |segments| + 1
  {
    PageStep(FrameOf(trace[k], p), trace[k].free, k < |segments| && InSegment(segments[k], Number(p)))
  }

  lemma LoadingFollows(trace: seq<State>, segments: seq<Segment>, k: nat, p: VPage)
    requires Loads(trace, segments) && k < |segments| == |trace| - 1 && Ordinary(p)
    ensures Follows(StepAt(trace, segments, k, p), StepAt(trace, segments, k + 1, p))
  {
    assert LoadingAt(trace, segments, k);
    FrameStep(trace[k], trace[k + 1], FirstOf(segments[k]), EndOf(segments[k]), SegmentFlags(segments[k]), p);
  }

  /** A page shows what a segment had loaded into it if and only if no later segment has the page. */
  lemma ContentsKeptIff(trace: seq<State>, segments: seq<Segment>, i: nat, p: VPage)
    requires Loads(trace, segments) && |trace| == |segments| + 1
    requires i < |segments| && Ordinary(p) && InSegment(segments[i], Number(p))
    ensures FrameOf(trace[|segments|], p) == FrameOf(trace[i + 1], p) <==>
            forall j :: i < j < |segments| ==> !InSegment(segments[j], Number(p))
  {
    var steps := seq(|trace|, k requires 0 <= k < |trace| => StepAt(trace, segments, k, p));
    forall k | 0 <= k < |steps| - 1 ensures Follows(steps[k], steps[k + 1]) {
      LoadingFollows(trace, segments, k, p);
    }
    ShownUntil(steps, i, |segments|);
    assert forall j :: i < j < |segments| ==> steps[j].has == InSegment(segments[j], Number(p));
  }

  /** Code and data in two halves of one page: once both are loaded, the code is gone. */
  const CODE := Segment(0x1000, 0x800, false, true, true)
  const DATA := Segment(0x1800, 0x800, true, false, true)

  lemma SharedPage()
    ensures Loadable(CODE) && Loadable(DATA) && InSegment(CODE, 1) && InSegment(DATA, 1) && Number(VPage(0, 0, 0, 1)) == 1
  {
    AcceptedRanges(1, 1);
  }

  lemma SharedPageExample(trace: seq<State>)
    requires Loads(trace, [CODE, DATA]) && |trace| == 3
    ensures Loadable(CODE) && Loadable(DATA)
    ensures FrameOf(trace[2], VPage(0, 0, 0, 1)) != FrameOf(trace[1], VPage(0, 0, 0, 1))
  {
    SharedPage();
    var segments := [CODE, DATA];
    assert segments[0] == CODE && segments[1] == DATA;
    ContentsKeptIff(trace, segments, 0, VPage(0, 0, 0, 1));
  }

  // ---------------------------------------------------------------- the whole address space

  /**
   A process's space `t` exists: the kernel half of the active space, the pages of the segments each
   on a frame of its own, and nothing else. Every space there was is as before.
   */
  ghost predicate ProcessSpace(s: State, s': State, t: Frame, segments: seq<Segment>) {
    && Inv(s') && Persist(s, s') && Target(s') == Target(s) && s'.spaces == s.spaces + {t}
    && t in s.free && s'.free <= s.free && IsRoot(s', t) && SameViews(s, s')
    && (forall p: VPage :: Ordinary(p) ==> ProcessPage(s, s', t, segments, p))
  }

  ghost predicate ProcessPage(s: State, s': State, t: Frame, segments: seq<Segment>, p: VPage) {
    var leaf := MmuWalk(s'.mem, t, p);
    if p.p4 == KERNEL_SLOT then leaf == MmuWalk(s.mem, s.cr3, p)
    else if Covered(segments, Number(p)) then
      && leaf.Page4K? && leaf.entry.flags == LastFlags(segments, Number(p)).Or(PRESENT)
      && leaf.entry.frame in s.free && Owns(s', t, p, leaf.entry.frame)
    else leaf == NoLeaf
  }

  /** Of the segments that have page `n`, number `i` is the last. */
  predicate LastWith(segments: seq<Segment>, i: nat, n: nat) {
    i < |segments| && InSegment(segments[i], n) && forall j :: i < j < |segments| ==> !InSegment(segments[j], n)
  }

  /** Ring 3 reads each page of the segments, and writes and executes it as the last segment with the page says. */
  ghost predicate ProcessRights(s: State, t: Frame, segments: seq<Segment>) {
    forall p: VPage, i: nat {:trigger LastWith(segments, i, Number(p))} :: Ordinary(p) && LastWith(segments, i, Number(p)) ==>
      Allows(s.mem, t, p, true, segments[i].writable, segments[i].executable)
  }

  lemma SpaceRights(s: State, s': State, t: Frame, segments: seq<Segment>)
    requires ProcessSpace(s, s', t, segments) && t !in s'.boot && forall i :: 0 <= i < |segments| ==> Loadable(segments[i])
    ensures ProcessRights(s', t, segments)
  {
    forall p: VPage, i: nat | Ordinary(p) && LastWith(segments, i, Number(p))
      ensures Allows(s'.mem, t, p, true, segments[i].writable, segments[i].executable)
    {
      LastDecides(segments, Number(p), i);
      CoveredLow(segments, p);
      assert ProcessPage(s, s', t, segments, p);
      LeafGrants(s', t, p);
    }
  }

  lemma {:induction false} CoveredLow(segments: seq<Segment>, p: VPage)
    requires forall i :: 0 <= i < |segments| ==> Loadable(segments[i])
    requires Covered(segments, Number(p))
    ensures p.p4 < 256
  {
    var last := segments[|segments| - 1];
    if InSegment(last, Number(p)) {
      AcceptedRanges(FirstOf(last), LastOf(last));
      NumberIndices(p);
    } else {
      CoveredLow(segments[..|segments| - 1], p);
    }
  }

  /** Every space there was is as before, and space `t` was added. */
  ghost predicate Spared(s: State, s': State, t: Frame) {
    && Inv(s') && Persist(s, s') && Target(s') == Target(s) && s'.spaces == s.spaces + {t}
    && t in s.free && s'.free <= s.free && IsRoot(s', t) && SameViews(s, s')
  }

  lemma ReadyToLoad(s0: State, s1: State, t: Frame)
    requires Inv(s0) && SpaceCreated(s0, s1, t)
    ensures t !in s1.boot && !IsRoot(s0, t)
  {
  }

  lemma LoadedPersists(s0: State, s1: State, s3: State, t: Frame)
    requires Inv(s0) && SpaceCreated(s0, s1, t) && Framed(OnCr3(s1, t), s3)
    ensures Persist(s0, OnCr3(s3, s0.cr3)) && IsRoot(s3, s0.cr3)
  {
    assert OnCr3(OnCr3(s1, t), s0.cr3) == s1;
    FramedPersistsOn(OnCr3(s1, t), s3, s0.cr3);
    PersistTrans(s0, s1, OnCr3(s3, s0.cr3));
    assert IsRoot(s0, s0.cr3) && IsRoot(s1, s0.cr3);
  }

  /** What an edit of the target space keeps does not depend on which space is active. */
  lemma FramedPersistsOn(s: State, s': State, r: Frame)
    requires Framed(s, s')
    ensures Persist(OnCr3(s, r), OnCr3(s', r))
  {
    forall r' | IsRoot(OnCr3(s, r), r') ensures IsRoot(OnCr3(s', r), r') { assert IsRoot(s, r'); }
    FramedPersists(s, s');
  }

  /** Back in the first space, only the new one has changed. */
  lemma LoadedSpares(s0: State, s1: State, s3: State, t: Frame)
    requires Inv(s0) && Target(s0) == s0.cr3 && SpaceCreated(s0, s1, t)
    requires Target(OnCr3(s1, t)) == t && UserOnly(OnCr3(s1, t), s3)
    requires Inv(OnCr3(s3, s0.cr3)) && Target(OnCr3(s3, s0.cr3)) == s0.cr3
    ensures Spared(s0, OnCr3(s3, s0.cr3), t)
  {
    ReadyToLoad(s0, s1, t);
    LoadedPersists(s0, s1, s3, t);
    var s2, s4 := OnCr3(s1, t), OnCr3(s3, s0.cr3);
    assert IsRoot(s2, t);
    forall r, p: VPage | IsRoot(s0, r) && Ordinary(p) ensures MmuWalk(s4.mem, r, p) == MmuWalk(s0.mem, r, p) {
      assert IsRoot(s2, r);
      assert MmuWalk(s3.mem, r, p) == MmuWalk(s1.mem, r, p);
    }
  }

  lemma LoadedPages(s0: State, s1: State, s3: State, t: Frame, segments: seq<Segment>)
    requires SpaceCreated(s0, s1, t) && Target(OnCr3(s1, t)) == t
    requires SegmentsMapped(OnCr3(s1, t), s3, segments) && forall i :: 0 <= i < |segments| ==> Loadable(segments[i])
    ensures forall p: VPage :: Ordinary(p) ==> ProcessPage(s0, OnCr3(s3, s0.cr3), t, segments, p)
  {
    var s2 := OnCr3(s1, t);
    assert IsRoot(s2, t);
    forall p: VPage | Ordinary(p) ensures ProcessPage(s0, OnCr3(s3, s0.cr3), t, segments, p) {
      if Covered(segments, Number(p)) {
        CoveredLow(segments, p);
        assert FreshPage(s2, s3, p, LastFlags(segments, Number(p)));
      } else {
        assert MmuWalk(s3.mem, t, p) == MmuWalk(s2.mem, t, p);
      }
    }
  }

  /** Pages of the kernel half still own the frames they owned. */
  ghost predicate KernelOwners(s: State, s': State) {
    forall p: VPage {:trigger SelfOwned(s', p)} :: Ordinary(p) && p.p4 == KERNEL_SLOT && SelfOwned(s, p) ==> SelfOwned(s', p)
  }

  /** Two processes own the same frames in their kernel halves. */
  lemma SharedOwners(s: State, r: Frame)
    requires KernelShared(s) && s.cr3 in s.spaces && r in s.spaces && Target(s) == s.cr3 && Target(OnCr3(s, r)) == r
    ensures KernelOwners(s, OnCr3(s, r))
  {
    forall p: VPage | Ordinary(p) && p.p4 == KERNEL_SLOT && SelfOwned(s, p) ensures SelfOwned(OnCr3(s, r), p) {
      assert SameTop(s.mem, s.cr3, r, p.p4);
      SameTopSameWalk(s.mem, s.cr3, r, p);
      SameTopSameTables(s.mem, s.cr3, r, P1Path(p));
    }
  }

  lemma LoadedOwners(s1: State, s3: State, t: Frame)
    requires Inv(s1) && Target(s1) == s1.cr3 && s1.cr3 in s1.spaces && t in s1.spaces
    requires Target(OnCr3(s1, t)) == t && UserOnly(OnCr3(s1, t), s3) && Target(OnCr3(s3, s1.cr3)) == s1.cr3
    ensures KernelOwners(s1, OnCr3(s3, s1.cr3))
  {
    var s2, s4 := OnCr3(s1, t), OnCr3(s3, s1.cr3);
    SharedOwners(s1, t);
    SharedOwners(s3, s1.cr3);
    forall p: VPage | Ordinary(p) && p.p4 == KERNEL_SLOT && SelfOwned(s1, p) ensures SelfOwned(s4, p) {
      assert SelfOwned(s2, p) && SelfOwned(s3, p);
    }
  }

  /** The part of `spawn_from_elf` inside the new space, and the switch back after it. */
  method LoadInto(m: Machine, t: Frame, segments: seq<Segment>, ghost s0: State)
    returns (r: LoadResult, ghost trace: seq<State>)
    requires Inv(s0) && Target(s0) == s0.cr3 && s0.cr3 in s0.spaces && SpaceCreated(s0, m.S(), t)
    modifies m
    ensures Spared(s0, m.S(), t) && KernelOwners(old(m.S()), m.S())
    ensures EndsAs(r, trace, segments) && trace[0] == OnCr3(old(m.S()), t)
    ensures r.Loaded? ==> ProcessSpace(s0, m.S(), t, segments) && m.S() == OnCr3(trace[|segments|], s0.cr3)
    ensures r.Loaded? ==> ProcessRights(m.S(), t, segments)
    ensures r.NoMemory? ==> m.free == {}
  {
    ghost var s1 := m.S();
    ReadyToLoad(s0, s1, t);
    var previous := SwitchTo(m, t);
    r, trace := LoadSegments(m, segments);
    ghost var s3 := m.S();
    LoadedPersists(s0, s1, s3, t);
    var _ := SwitchTo(m, previous);
    LoadedOwners(s1, s3, t);
    LoadedSpares(s0, s1, s3, t);
    if r.Loaded? {
      AllLoadable(trace, segments);
      LoadedPages(s0, s1, s3, t, segments);
      SpaceRights(s0, m.S(), t, segments);
    }
  }

  lemma AllLoadable(trace: seq<State>, segments: seq<Segment>)
    requires Loads(trace, segments) && |trace| == |segments| + 1
    ensures forall i :: 0 <= i < |segments| ==> Loadable(segments[i])
  {
    forall i | 0 <= i < |segments| ensures Loadable(segments[i]) {
      assert LoadingAt(trace, segments, i);
    }
  }
}
