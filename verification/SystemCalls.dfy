/**
 The system call that maps pages into the calling process, and two requests that end badly.
 */
module SystemCalls {
  import opened Util
  import opened Entries
  import opened Pages
  import opened Mmu
  import opened Spaces
  import opened Mapper
  import opened RangeMapping
  import Boot

  /** What the caller gets; `KernelFault` where the kernel itself faults. */
  datatype MapCall = Success | InvalidPage | InvalidPagesLength | KernelFault

  function UserFlags(writable: bool, executable: bool): EntryFlags {
    PRESENT.Or(USER_ACCESSIBLE).Or(if writable then WRITABLE else NONE).Or(if executable then NONE else NO_EXECUTE)
  }

  function FirstPage(begin: nat): nat {
    begin / 4096
  }

  /** The last page asked for, before the sum is cut to 64 bits. */
  function LastSum(begin: nat, length: nat): int {
    FirstPage(begin) + length - 1
  }

  function LastPage(begin: nat, length: nat): nat {
    LastSum(begin, length) % WORD
  }

  /** The arguments pass every check up to the loop over the pages. */
  predicate WellFormed(begin: nat, length: nat) {
    begin % 4096 == 0 && length > 0 && RejectedPage(FirstPage(begin), LastPage(begin, length)).None?
  }

  /** The sum overflows, to a last page that passes every check. */
  predicate WrapsAround(begin: nat, length: nat) {
    && begin % 4096 == 0 && length > 0 && LastSum(begin, length) >= WORD
    && FirstPage(begin) < 0x8_0000_0000 && LastSum(begin, length) - WORD <= STACK_BOTTOM_PAGE
  }

  /** Which requests pass the checks, and which of them do so by overflow; those are for no page at all. */
  lemma RequestsAccepted(begin: nat, length: nat)
    requires begin < WORD && length < WORD
    ensures WrapsAround(begin, length) <==> WellFormed(begin, length) && LastSum(begin, length) >= WORD
    ensures WellFormed(begin, length) && !WrapsAround(begin, length) <==>
            begin % 4096 == 0 && length > 0 && FirstPage(begin) < 0x8_0000_0000 && LastSum(begin, length) <= STACK_BOTTOM_PAGE
    ensures WellFormed(begin, length) ==>
              (LastPage(begin, length) < FirstPage(begin) <==> WrapsAround(begin, length))
    ensures WellFormed(begin, length) && !WrapsAround(begin, length) ==> LastPage(begin, length) == LastSum(begin, length)
  {
    if length > 0 {
      AcceptedRanges(FirstPage(begin), LastPage(begin, length));
      assert FirstPage(begin) < 0x10_0000_0000_0000;
    }
  }

  /** The call of `try_map_user_range`: never over mapped pages, always zeroing. */
  method MapFrom(m: Machine, first: nat, last: nat, flags: EntryFlags) returns (r: MapCall, ghost end: nat)
    requires m.Valid() && Target(m.S()) == m.cr3 && m.cr3 !in m.boot
    modifies m
    ensures first <= end && RangeFresh(old(m.S()), m.S(), first, end, flags) && WasUnmapped(old(m.S()), first, end)
    ensures flags.writable ==> RangeZeroed(old(m.S()), m.S(), first, end)
    ensures Returned(old(m.S()), first, last, RejectedPage(first, last).None?, flags.writable, r, end)
    ensures !r.InvalidPage? || m.free != {} ==> m.held == old(m.held) && Spent(old(m.S()), m.S(), first, end)
  {
    var result;
    result, end := TryMapUserRange(m, first, last, flags, false, true);
    r := if result.Done? then Success else if result.ZeroFault? then KernelFault else InvalidPage;
  }

  /**
   The arm of `syscall_handler` for `Syscall::Map`. Pages up to `end` were unmapped and are now
   zeroed pages of the caller, each on a frame of its own, which ring 3 can read, and write or execute
   exactly as asked for.

   Which answer a request gets depends on the request, the pages it names, and the free frames alone.
   The kernel faults exactly at requests for pages that are not writable whose first page it can map,
   and a request whose last page overflows is granted without mapping anything.
   */
  method MapPages(m: Machine, begin: nat, length: nat, writable: bool, executable: bool) returns (r: MapCall, ghost end: nat)
    requires m.Valid() && Target(m.S()) == m.cr3 && m.cr3 !in m.boot && begin < WORD && length < WORD
    modifies m
    ensures FirstPage(begin) <= end
    ensures RangeFresh(old(m.S()), m.S(), FirstPage(begin), end, UserFlags(writable, executable))
    ensures PagesAllow(m.S(), FirstPage(begin), end, true, writable, executable)
    ensures WasUnmapped(old(m.S()), FirstPage(begin), end)
    ensures writable ==> RangeZeroed(old(m.S()), m.S(), FirstPage(begin), end)
    ensures r == Answer(old(m.S()), begin, length, writable)
    ensures r.Success? && end != FirstPage(begin) + length <==> WrapsAround(begin, length)
    ensures WrapsAround(begin, length) ==> end == FirstPage(begin)
    ensures !r.InvalidPage? || m.free != {} ==> m.held == old(m.held) && Spent(old(m.S()), m.S(), FirstPage(begin), end)
  {
    end := FirstPage(begin);
    if begin % 4096 != 0 || length == 0 {
      RangeFreshEmpty(m.S(), end, UserFlags(writable, executable));
      r := if begin % 4096 != 0 then InvalidPage else InvalidPagesLength;
    } else {
      ghost var s := m.S();
      r, end := MapFrom(m, FirstPage(begin), LastPage(begin, length), UserFlags(writable, executable));
      Answered(s, begin, length, writable, r, end);
      FreshAllows(s, m.S(), FirstPage(begin), end, UserFlags(writable, executable));
    }
  }

  /** What `MapFrom` returned, as the answer to the request. */
  lemma Answered(s: State, begin: nat, length: nat, writable: bool, r: MapCall, end: nat)
    requires begin < WORD && length < WORD && begin % 4096 == 0 && length > 0
    requires var first, last := FirstPage(begin), LastPage(begin, length);
             Returned(s, first, last, RejectedPage(first, last).None?, writable, r, end)
    ensures r == Answer(s, begin, length, writable)
    ensures r.Success? && end != FirstPage(begin) + length <==> WrapsAround(begin, length)
    ensures WrapsAround(begin, length) ==> end == FirstPage(begin)
  {
    RequestsAccepted(begin, length);
    AnswerByCases(s, FirstPage(begin), LastPage(begin, length), LastSum(begin, length), WellFormed(begin, length),
                  WrapsAround(begin, length), writable, r, end);
  }

  ghost predicate Returned(s: State, first: nat, last: nat, accepted: bool, writable: bool, r: MapCall, end: nat) {
    && !r.InvalidPagesLength? && (r.InvalidPage? || accepted)
    && (r.Success? ==> if first <= last then end == last + 1 else end == first)
    && (accepted ==>
          && (r.Success? <==> first > last || (writable && Fulfillable(s, first, last, false)))
          && (r.KernelFault? <==> first <= last && !writable && CanBegin(s, first, false)))
  }

  lemma AnswerByCases(s: State, first: nat, last: nat, sum: int, accepted: bool, wraps: bool, writable: bool, r: MapCall,
                      end: nat)
    requires Returned(s, first, last, accepted, writable, r, end)
    requires (wraps ==> accepted && sum >= WORD > first) && (accepted ==> (last < first <==> wraps))
    requires accepted && !wraps ==> last == sum
    ensures r == if wraps then Success else if !accepted then InvalidPage
                 else if writable then if Fulfillable(s, first, last, false) then Success else InvalidPage
                 else if CanBegin(s, first, false) then KernelFault else InvalidPage
    ensures r.Success? && end != sum + 1 <==> wraps
    ensures wraps ==> end == first
  {
  }

  /** What a request is answered. Lack of memory and pages already mapped are both an invalid page. */
  ghost function Answer(s: State, begin: nat, length: nat, writable: bool): MapCall {
    if begin % 4096 != 0 then InvalidPage
    else if length == 0 then InvalidPagesLength
    else if WrapsAround(begin, length) then Success
    else if !WellFormed(begin, length) then InvalidPage
    else if writable then
      if Fulfillable(s, FirstPage(begin), LastSum(begin, length), false) then Success else InvalidPage
    else if CanBegin(s, FirstPage(begin), false) then KernelFault else InvalidPage
  }

  /** A request for 2^64 - 1 pages from address 0x2000 on, granted without a single page. */
  lemma OverflowingRequest(s: State, writable: bool)
    ensures WrapsAround(0x2000, WORD - 1) && Answer(s, 0x2000, WORD - 1, writable) == Success
  {
  }

  /** A request for one writable page, at any accepted place, when no frame is free. */
  lemma NoMemoryRequest(s: State, begin: nat)
    requires begin % 4096 == 0 && FirstPage(begin) <= STACK_BOTTOM_PAGE && s.free == {}
    ensures Answer(s, begin, 1, true) == InvalidPage && WellFormed(begin, 1)
  {
    RequestsAccepted(begin, 1);
  }

  lemma SecondPage()
    ensures WellFormed(4096, 1) && !WrapsAround(4096, 1) && FirstPage(4096) == 1 && Indices(1) == VPage(0, 0, 0, 1)
  {
    RequestsAccepted(4096, 1);
  }

  /** One read-only page at address 4096: whenever it is unmapped and four frames are free, the kernel faults. */
  method ReadOnlyRequest(m: Machine) returns (r: MapCall)
    requires m.Valid() && Target(m.S()) == m.cr3 && m.cr3 !in m.boot
    requires MmuWalk(m.mem, m.cr3, VPage(0, 0, 0, 1)) == NoLeaf && |m.free| >= 4
    modifies m
    ensures r.KernelFault?
  {
    SecondPage();
    assert CanBegin(m.S(), 1, false);
    ghost var end;
    r, end := MapPages(m, 4096, 1, false, true);
  }

  /** `map` where three tables are missing and one frame is free: the page is not mapped and the frame is lost. */
  method MapLosesFrame(m: Machine) returns (r: MapResult)
    requires m.S() == Boot.BootState(Boot.ExampleMem(), Boot.EXAMPLE_LAYOUT, {1000})
    modifies m
    ensures r.NoFrames? && m.Valid() && m.free == {} && m.held == {1000}
  {
    Boot.ExampleBoot({1000});
    ghost var f;
    r, f := m.Map(VPage(1, 0, 0, 0), WRITABLE, false);
  }
}
