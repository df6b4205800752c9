/**
 Buffers passed in by user programs: `BorrowedKernelBuffer::try_from_user` for bytes.
 */
module Buffers {
  import opened Entries
  import opened Pages
  import opened Mmu
  import opened Spaces
  import opened Views
  import opened RangeMapping

  datatype BufferResult = Accepted | OverlapsKernelSpace | InvalidLen | UnmappedBuffer | Null

  const USER_END: nat := (LAST_USABLE_PAGE + 1) * 4096
  const ISIZE_MAX: nat := 0x7FFF_FFFF_FFFF_FFFF
  const U64_MAX: nat := 0xFFFF_FFFF_FFFF_FFFF

  /** The kernel's test of one page: mapped, with the user flag in the leaf entry. */
  predicate LeafUser(mem: Mem, cr3: Frame, n: nat) {
    var w := WalkPageTable(mem, cr3, Indices(n));
    w.Mapped? && w.entry.flags.user
  }

  /** `try_from_user`. */
  function TryFromUser(mem: Mem, cr3: Frame, ptr: nat, len: nat): BufferResult {
    if ptr == 0 then Null
    else if len == 0 || len > ISIZE_MAX then InvalidLen
    else if ptr + (len - 1) > U64_MAX then InvalidLen
    else if ptr + (len - 1) >= USER_END then OverlapsKernelSpace
    else if forall n :: ptr / 4096 <= n <= (ptr + len - 1) / 4096 ==> LeafUser(mem, cr3, n) then Accepted
    else UnmappedBuffer
  }

  /** Why a buffer is rejected: for each error, exactly the buffers that meet it. */
  lemma RejectedBuffers(s: State, ptr: nat, len: nat)
    requires Inv(s) && Target(s) == s.cr3 && s.cr3 !in s.boot
    ensures var r := TryFromUser(s.mem, s.cr3, ptr, len);
            var sized := ptr != 0 && 0 < len < 0x8000_0000_0000_0000 && ptr + len <= 0x1_0000_0000_0000_0000;
            && (r.Null? <==> ptr == 0)
            && (r.InvalidLen? <==> ptr != 0 && !sized)
            && (r.OverlapsKernelSpace? <==> sized && ptr + len > 0x7FFF_FFFF_F000)
            && (r.UnmappedBuffer? <==>
                sized && ptr + len <= 0x7FFF_FFFF_F000 && !UserReadableBytes(s.mem, s.cr3, ptr, len))
  {
    AcceptedBuffers(s, ptr, len);
  }

  /** Every byte of the buffer is canonical, in the lower half, and readable from ring 3 at all levels. */
  ghost predicate UserReadableBytes(mem: Mem, cr3: Frame, ptr: nat, len: nat) {
    forall b :: ptr <= b < ptr + len ==> b < 0x8000_0000_0000 && UserReadable(mem, cr3, Indices(b / 4096))
  }

  /** In a process's tables, upper entries grant user access, so the leaf decides. */
  lemma LeafDecides(s: State, n: nat)
    requires Inv(s) && Target(s) == s.cr3 && s.cr3 !in s.boot && Ordinary(Indices(n))
    ensures LeafUser(s.mem, s.cr3, n) <==> UserReadable(s.mem, s.cr3, Indices(n))
  {
    var p := Indices(n);
    TargetRecursive(s);
    SoftWalkIsMmuWalk(s.mem, s.cr3, s.cr3, p);
    assert IsRoot(s, s.cr3);
    WalkRoles(s, s.cr3, p);
    assert Upper(s, s.cr3, p.p4);
    if IsTable(Entry4(s.mem, s.cr3, p)) {
      assert Upper(s, Entry4(s.mem, s.cr3, p).frame, p.p3);
      if IsTable(Entry3(s.mem, s.cr3, p)) {
        assert Upper(s, Entry3(s.mem, s.cr3, p).frame, p.p2);
      }
    }
  }

  lemma LowPageOrdinary(n: nat)
    requires n < 0x8_0000_0000
    ensures Ordinary(Indices(n))
  {
    assert n / 0x800_0000 < 256;
  }

  /** The pages looked at are the pages the bytes lie in. */
  lemma BytesAndPages(ptr: nat, len: nat, n: nat)
    requires len > 0 && ptr / 4096 <= n <= (ptr + len - 1) / 4096
    ensures exists b :: ptr <= b < ptr + len && b / 4096 == n
  {
    var b := if n * 4096 <= ptr then ptr else n * 4096;
    assert ptr <= b < ptr + len && b / 4096 == n;
  }

  /**
   The check accepts exactly the buffers that ring 3 could read itself: nonempty, not at null, ending at
   or before the end of the last user page, and with every byte accessible in hardware.
   */
  lemma AcceptedBuffers(s: State, ptr: nat, len: nat)
    requires Inv(s) && Target(s) == s.cr3 && s.cr3 !in s.boot
    ensures TryFromUser(s.mem, s.cr3, ptr, len) == Accepted <==>
            && ptr != 0 && 0 < len <= ISIZE_MAX && ptr + len <= USER_END
            && UserReadableBytes(s.mem, s.cr3, ptr, len)
  {
    if ptr != 0 && 0 < len <= ISIZE_MAX && ptr + len <= USER_END {
      if forall n :: ptr / 4096 <= n <= (ptr + len - 1) / 4096 ==> LeafUser(s.mem, s.cr3, n) {
        forall b | ptr <= b < ptr + len
          ensures b < 0x8000_0000_0000 && UserReadable(s.mem, s.cr3, Indices(b / 4096))
        {
          assert LeafUser(s.mem, s.cr3, b / 4096);
          LowPageOrdinary(b / 4096);
          LeafDecides(s, b / 4096);
        }
      }
      if UserReadableBytes(s.mem, s.cr3, ptr, len) {
        forall n | ptr / 4096 <= n <= (ptr + len - 1) / 4096 ensures LeafUser(s.mem, s.cr3, n) {
          BytesAndPages(ptr, len, n);
          LowPageOrdinary(n);
          LeafDecides(s, n);
        }
      }
    }
  }
}
