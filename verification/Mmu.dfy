/**
 Physical memory, the hardware's four-level page walk (section 5.3 of the AMD64 Architecture
 Programmer's Manual, Volume 2), and the kernel's own walk through the recursive slot.
 */
module Mmu {
  import opened Entries
  import opened Pages

  datatype Option<+T> = None | Some(value: T)

  /** A physical frame number. */
  type Frame = nat

  /** The contents of a frame: 512 words, read as page table entries. */
  type Table = t: seq<Entry> | |t| == 512 witness seq(512, _ => UNUSED)

  type Mem = map<Frame, Table>

  /** What `PageTable::zero` leaves behind. */
  function ZeroTable(): (t: Table)
    ensures forall i: Index :: t[i] == UNUSED
  {
    seq(512, _ => UNUSED)
  }

  function At(mem: Mem, t: Frame, i: Index): Entry {
    if t in mem then mem[t][i] else UNUSED
  }

  /** Memory with one word rewritten. */
  function Put(mem: Mem, t: Frame, i: Index, e: Entry): (r: Mem)
    requires t in mem
    ensures r.Keys == mem.Keys
    ensures At(r, t, i) == e
    ensures forall t': Frame, i': Index :: t' != t || i' != i ==> At(r, t', i') == At(mem, t', i')
  {
    mem[t := mem[t][i := e]]
  }

  /** Memory with one whole frame rewritten. */
  function PutFrame(mem: Mem, f: Frame, contents: Table): (r: Mem)
    ensures r.Keys == mem.Keys + {f}
    ensures forall i: Index :: At(r, f, i) == contents[i]
    ensures forall t, i: Index :: t != f ==> At(r, t, i) == At(mem, t, i)
  {
    mem[f := contents]
  }

  /** Where a hardware walk ends. */
  datatype Leaf =
    | NoLeaf
    | Page4K(entry: Entry)
    | Page2M(entry: Entry)
    | Page1G(entry: Entry)

  /** The hardware walk. A huge bit in a P4 entry is reserved and faults like a missing entry. */
  function MmuWalk(mem: Mem, root: Frame, p: VPage): Leaf {
    var e4 := At(mem, root, p.p4);
    if !IsTable(e4) then NoLeaf else
    var e3 := At(mem, e4.frame, p.p3);
    if !e3.flags.present then NoLeaf else
    if e3.flags.huge then Page1G(e3) else
    var e2 := At(mem, e3.frame, p.p2);
    if !e2.flags.present then NoLeaf else
    if e2.flags.huge then Page2M(e2) else
    var e1 := At(mem, e2.frame, p.p1);
    if !e1.flags.present then NoLeaf else Page4K(e1)
  }

  /** The frame a page translates to; a misaligned huge frame has reserved bits set and faults. */
  function Translate(mem: Mem, root: Frame, p: VPage): Option<Frame> {
    match MmuWalk(mem, root, p)
    case NoLeaf => None
    case Page4K(e) => Some(e.frame)
    case Page2M(e) => if e.frame % 512 == 0 then Some(e.frame + p.p1) else None
    case Page1G(e) => if e.frame % 0x4_0000 == 0 then Some(e.frame + 512 * p.p2 + p.p1) else None
  }

  /** The entries on the way to the 4 KiB leaf of a page. */
  function Entry4(mem: Mem, root: Frame, p: VPage): Entry { At(mem, root, p.p4) }
  function Entry3(mem: Mem, root: Frame, p: VPage): Entry { At(mem, Entry4(mem, root, p).frame, p.p3) }
  function Entry2(mem: Mem, root: Frame, p: VPage): Entry { At(mem, Entry3(mem, root, p).frame, p.p2) }
  function Entry1(mem: Mem, root: Frame, p: VPage): Entry { At(mem, Entry2(mem, root, p).frame, p.p1) }

  /** Ring 3 may read the page: every level grants it. */
  predicate UserReadable(mem: Mem, root: Frame, p: VPage) {
    && MmuWalk(mem, root, p).Page4K?
    && Entry4(mem, root, p).flags.user && Entry3(mem, root, p).flags.user
    && Entry2(mem, root, p).flags.user && Entry1(mem, root, p).flags.user
  }

  /** A supervisor write to the page does not fault, with write protection on. */
  predicate Writable(mem: Mem, root: Frame, p: VPage) {
    && MmuWalk(mem, root, p).Page4K?
    && Entry4(mem, root, p).flags.writable && Entry3(mem, root, p).flags.writable
    && Entry2(mem, root, p).flags.writable && Entry1(mem, root, p).flags.writable
  }

  /** Instructions may be fetched from the page: no level forbids it. */
  predicate Fetchable(mem: Mem, root: Frame, p: VPage) {
    && MmuWalk(mem, root, p).Page4K?
    && !Entry4(mem, root, p).flags.noExecute && !Entry3(mem, root, p).flags.noExecute
    && !Entry2(mem, root, p).flags.noExecute && !Entry1(mem, root, p).flags.noExecute
  }

  /** What the hardware allows on a page: to ring 3 at all, to write, and to fetch. */
  predicate Allows(mem: Mem, root: Frame, p: VPage, user: bool, writable: bool, executable: bool) {
    && MmuWalk(mem, root, p).Page4K? && (UserReadable(mem, root, p) <==> user)
    && (Writable(mem, root, p) <==> writable) && (Fetchable(mem, root, p) <==> executable)
  }

  // ---------------------------------------------------------------- the kernel's walk

  datatype PageSize = Kib4 | Mib2

  /** Outcomes of `walk_page_table`; `PageFault` if it dereferenced an unmapped table pointer. */
  datatype SoftWalk = PageFault | Panic | Unmapped | Mapped(entry: Entry, size: PageSize)

  datatype Next = Faulted | Absent | NextTable(pointer: VPage)

  /** Reading word `i` of the table a pointer names, through the hardware. */
  function Deref(mem: Mem, cr3: Frame, pointer: VPage, i: Index): Option<Entry> {
    match Translate(mem, cr3, pointer)
    case None => None
    case Some(f) => Some(At(mem, f, i))
  }

  /** `next_page_table`. */
  function NextPageTable(mem: Mem, cr3: Frame, pointer: VPage, i: Index): Next {
    match Deref(mem, cr3, pointer, i)
    case None => Faulted
    case Some(e) => if IsTable(e) then NextTable(ShiftIn(pointer, i)) else Absent
  }

  /** The `huge_page` closure of `walk_page_table`, given the pointer to the P3 table. */
  function HugePage(mem: Mem, cr3: Frame, p3: VPage, p: VPage): SoftWalk {
    match Deref(mem, cr3, p3, p.p3)
    case None => PageFault
    case Some(e3) =>
      if e3.flags.present && e3.flags.huge then Panic else
      match NextPageTable(mem, cr3, p3, p.p3)
      case Faulted => PageFault
      case Absent => Unmapped
      case NextTable(p2) =>
        match Deref(mem, cr3, p2, p.p2)
        case None => PageFault
        case Some(e2) =>
          if !(e2.flags.present && e2.flags.huge) then Unmapped
          else if e2.frame % 512 != 0 then Panic
          else Mapped(e2, Mib2)
  }

  /** `Mapper::walk_page_table`. */
  function WalkPageTable(mem: Mem, cr3: Frame, p: VPage): SoftWalk {
    match NextPageTable(mem, cr3, P4_POINTER, p.p4)
    case Faulted => PageFault
    case Absent => Unmapped
    case NextTable(p3) =>
      match NextPageTable(mem, cr3, p3, p.p3)
      case Faulted => PageFault
      case Absent => HugePage(mem, cr3, p3, p)
      case NextTable(p2) =>
        match NextPageTable(mem, cr3, p2, p.p2)
        case Faulted => PageFault
        case Absent => HugePage(mem, cr3, p3, p)
        case NextTable(p1) =>
          match Deref(mem, cr3, p1, p.p1)
          case None => PageFault
          case Some(e1) => if e1.flags.present then Mapped(e1, Kib4) else HugePage(mem, cr3, p3, p)
  }

  /** CR3's recursive slot leads to `target`, and `target`'s leads to itself. */
  predicate Recursive(mem: Mem, cr3: Frame, target: Frame) {
    && IsTable(At(mem, cr3, RECURSIVE_SLOT)) && At(mem, cr3, RECURSIVE_SLOT).frame == target
    && IsTable(At(mem, target, RECURSIVE_SLOT)) && At(mem, target, RECURSIVE_SLOT).frame == target
  }

  /** The path of a table below the P4 table. */
  datatype Path = AtP4 | AtP3(i4: Index) | AtP2(i4: Index, i3: Index) | AtP1(i4: Index, i3: Index, i2: Index)

  /** The table at a path, found by following entries physically. */
  function TableAt(mem: Mem, root: Frame, path: Path): Option<Frame> {
    match path
    case AtP4 => Some(root)
    case AtP3(i4) => Child(mem, Some(root), i4)
    case AtP2(i4, i3) => Child(mem, Child(mem, Some(root), i4), i3)
    case AtP1(i4, i3, i2) => Child(mem, Child(mem, Child(mem, Some(root), i4), i3), i2)
  }

  function Child(mem: Mem, t: Option<Frame>, i: Index): Option<Frame> {
    if t.Some? && IsTable(At(mem, t.value, i)) then Some(At(mem, t.value, i).frame) else None
  }

  /** The pointer the kernel computes for a path. */
  function PointerTo(path: Path): VPage {
    match path
    case AtP4 => P4_POINTER
    case AtP3(i4) => ShiftIn(P4_POINTER, i4)
    case AtP2(i4, i3) => ShiftIn(ShiftIn(P4_POINTER, i4), i3)
    case AtP1(i4, i3, i2) => ShiftIn(ShiftIn(ShiftIn(P4_POINTER, i4), i3), i2)
  }

  /** The hardware translates a computed table pointer to exactly the table it was computed for. */
  lemma PointerReachesTable(mem: Mem, cr3: Frame, target: Frame, path: Path)
    requires Recursive(mem, cr3, target)
    requires TableAt(mem, target, path).Some?
    ensures Translate(mem, cr3, PointerTo(path)) == TableAt(mem, target, path)
    ensures MmuWalk(mem, cr3, PointerTo(path)).Page4K?
  {
    match path
    case AtP4 =>
    case AtP3(i4) =>
    case AtP2(i4, i3) =>
    case AtP1(i4, i3, i2) =>
  }

  /** What the kernel's walk must report for the leaf the hardware uses. */
  function Reported(leaf: Leaf): SoftWalk {
    match leaf
    case NoLeaf => Unmapped
    case Page4K(e) => Mapped(e, Kib4)
    case Page2M(e) => if e.frame % 512 == 0 then Mapped(e, Mib2) else Panic
    case Page1G(_) => Panic
  }

  /**
   The walk through the recursive slot and the hardware walk agree on every page: it never
   dereferences an unmapped pointer, and reports the entry the hardware uses for `target`.
   */
  lemma SoftWalkIsMmuWalk(mem: Mem, cr3: Frame, target: Frame, p: VPage)
    requires Recursive(mem, cr3, target)
    ensures WalkPageTable(mem, cr3, p) == Reported(MmuWalk(mem, target, p))
  {
    PointerReachesTable(mem, cr3, target, AtP4);
    if IsTable(At(mem, target, p.p4)) {
      PointerReachesTable(mem, cr3, target, AtP3(p.p4));
      var t3 := At(mem, target, p.p4).frame;
      if IsTable(At(mem, t3, p.p3)) {
        PointerReachesTable(mem, cr3, target, AtP2(p.p4, p.p3));
        if IsTable(At(mem, At(mem, t3, p.p3).frame, p.p2)) {
          PointerReachesTable(mem, cr3, target, AtP1(p.p4, p.p3, p.p2));
        }
      }
    }
  }

  /**
   Redirection: with CR3's slot 510 pointed at `target`, every address in the recursive window
   translates exactly as if CR3 held `target`, so the mapper's pointers cannot tell the difference.
   */
  lemma RedirectedWindow(mem: Mem, cr3: Frame, target: Frame, p: VPage)
    requires Recursive(mem, cr3, target)
    requires p.p4 == RECURSIVE_SLOT
    ensures MmuWalk(mem, cr3, p) == MmuWalk(mem, target, p)
    ensures Translate(mem, cr3, p) == Translate(mem, target, p)
  {
  }
}
