/**
 Page table entries: the flag set, the entry value the rest of the model works with, and the
 64-bit word that stores it.
 */
module Entries {

  /** `EntryFlags`, one boolean per named bit. */
  datatype EntryFlags = EntryFlags(
    present: bool, writable: bool, user: bool, writeDirect: bool, noCache: bool,
    accessed: bool, dirty: bool, huge: bool, global: bool, noExecute: bool)
  {
    /** The `|` of two flag sets. */
    function Or(other: EntryFlags): EntryFlags {
      EntryFlags(present || other.present, writable || other.writable, user || other.user,
                 writeDirect || other.writeDirect, noCache || other.noCache,
                 accessed || other.accessed, dirty || other.dirty, huge || other.huge,
                 global || other.global, noExecute || other.noExecute)
    }
  }

  const NONE := EntryFlags(false, false, false, false, false, false, false, false, false, false)
  const PRESENT := NONE.(present := true)
  const WRITABLE := NONE.(writable := true)
  const USER_ACCESSIBLE := NONE.(user := true)
  const GLOBAL := NONE.(global := true)
  const NO_EXECUTE := NONE.(noExecute := true)

  /** The flags `next_table_create` gives every table it links. */
  const LINK := PRESENT.Or(WRITABLE).Or(USER_ACCESSIBLE)

  /** The flags of every recursive slot the kernel writes. */
  const RECURSIVE := PRESENT.Or(WRITABLE).Or(NO_EXECUTE).Or(GLOBAL)

  /** The flags of kernel data: the heap, its tree, and the bootstrap heap. */
  const HEAP_FLAGS := WRITABLE.Or(NO_EXECUTE).Or(GLOBAL)

  /** An entry: a frame number (physical address / 4096) and its flags. */
  datatype Entry = Entry(frame: nat, flags: EntryFlags)

  const UNUSED := Entry(0, NONE)

  /** Present and not huge: the condition under which an entry leads to a next-level table. */
  predicate IsTable(e: Entry) {
    e.flags.present && !e.flags.huge
  }
}

/** The stored word behind an entry, bit for bit. */
module EntryWords {
  import opened Entries
  import opened Words

  /** Outside these bits a word of `EntryFlags` is zero. */
  const NAMED: bv64 := 0x8000_0000_0000_01FF

  /** The named bits of a word, read one by one. */
  function Flags(w: bv64): EntryFlags {
    EntryFlags(w & 1 != 0, w & 2 != 0, w & 4 != 0, w & 8 != 0, w & 16 != 0, w & 32 != 0,
               w & 64 != 0, w & 128 != 0, w & 256 != 0, w & 0x8000_0000_0000_0000 != 0)
  }

  /** The flag sets the kernel puts into entries, as the words it writes. */
  lemma FlagSetWords()
    ensures LINK == Flags(0x7) && RECURSIVE == Flags(0x8000_0000_0000_0103)
    ensures HEAP_FLAGS.Or(PRESENT) == Flags(0x8000_0000_0000_0103)
  {
  }

  /** The address bits `physical_address` keeps; the source reads them when the word is present. */
  function Address(w: bv64): bv64 {
    w & 0x000F_FFFF_FFFF_F000
  }

  /** The assertions at the head of `PageTableEntry::set`. */
  predicate SetAccepts(address: bv64) {
    && address & 0xFFF == 0
    && (if (address >> 48) & 1 == 1 then address >> 48 == 0xFFFF else address >> 48 == 0)
  }

  /** The word `PageTableEntry::set` stores, and the one `add_flags` leaves behind. */
  function Merge(w: bv64, flags: bv64): bv64 {
    w | flags
  }

  /**
   For a physical address (below 2^52) the sign-extension test can only pass with all high bits
   clear, so `set` accepts exactly the page-aligned addresses below 2^48.
   */
  lemma SetAcceptsExactly(address: bv64)
    requires address < 0x10_0000_0000_0000
    ensures SetAccepts(address) <==> address & 0xFFF == 0 && address < 0x1_0000_0000_0000
  {
    assert address >> 48 < 16;
    assert address >> 48 == 0 <==> address < 0x1_0000_0000_0000;
  }

  lemma OrTest(x: bv64, y: bv64, mask: bv64)
    ensures (x | y) & mask != 0 <==> x & mask != 0 || y & mask != 0
  {
    assert (x | y) & mask == (x & mask) | (y & mask);
  }

  lemma UnionFlags(x: bv64, y: bv64)
    ensures Flags(x | y) == Flags(x).Or(Flags(y))
  {
    OrTest(x, y, 1);
    OrTest(x, y, 2);
    OrTest(x, y, 4);
    OrTest(x, y, 8);
    OrTest(x, y, 16);
    OrTest(x, y, 32);
    OrTest(x, y, 64);
    OrTest(x, y, 128);
    OrTest(x, y, 256);
    OrTest(x, y, 0x8000_0000_0000_0000);
  }

  lemma AddressBitsApart(address: bv64, flags: bv64)
    requires address & 0xFFF == 0 && address < 0x1_0000_0000_0000
    requires flags & 0x8000_0000_0000_01FF == flags
    ensures (address | flags) & 0x000F_FFFF_FFFF_F000 == address
    ensures (address | flags) & 0x8000_0000_0000_01FF == flags
    ensures address & 1 == 0 && address & 2 == 0 && address & 4 == 0 && address & 8 == 0
    ensures address & 16 == 0 && address & 32 == 0 && address & 64 == 0 && address & 128 == 0
    ensures address & 256 == 0 && address & 0x8000_0000_0000_0000 == 0
  {
  }

  lemma MergedFlags(address: bv64, flags: bv64)
    requires address & 1 == 0 && address & 2 == 0 && address & 4 == 0 && address & 8 == 0
    requires address & 16 == 0 && address & 32 == 0 && address & 64 == 0 && address & 128 == 0
    requires address & 256 == 0 && address & 0x8000_0000_0000_0000 == 0
    ensures Flags(Merge(address, flags)) == Flags(flags)
  {
    UnionFlags(address, flags);
  }

  /** A word read back gives the address and the flags it was set with: neither leaks into the other. */
  lemma SetRoundTrip(address: bv64, flags: bv64)
    requires address < 0x10_0000_0000_0000 && SetAccepts(address)
    requires flags & NAMED == flags
    ensures Merge(address, flags) & NAMED == flags
    ensures Flags(Merge(address, flags)) == Flags(flags)
    ensures Address(Merge(address, flags)) == address
  {
    SetAcceptsExactly(address);
    AddressBitsApart(address, flags);
    MergedFlags(address, flags);
  }

  lemma AddressUntouched(w: bv64, flags: bv64)
    requires flags & 0x8000_0000_0000_01FF == flags
    ensures (w | flags) & 0x000F_FFFF_FFFF_F000 == w & 0x000F_FFFF_FFFF_F000
  {
  }

  /** Adding flags is the union on the flag side and leaves the address alone. */
  lemma AddFlagsIsUnion(w: bv64, flags: bv64)
    requires flags & NAMED == flags
    ensures Flags(Merge(w, flags)) == Flags(w).Or(Flags(flags))
    ensures Address(Merge(w, flags)) == Address(w)
  {
    UnionFlags(w, flags);
    AddressUntouched(w, flags);
  }

  /** The entry a stored word stands for. */
  function Decode(w: bv64): Entry {
    Entry(PageNumber(Address(w)), Flags(w))
  }

  /** The entry `set` leaves: the frame of the address, with the flags. Its number is below 2^36. */
  lemma SetDecodes(address: bv64, flags: bv64)
    requires address < 0x10_0000_0000_0000 && SetAccepts(address) && flags & NAMED == flags
    ensures Decode(Merge(address, flags)) == Entry(PageNumber(address), Flags(flags))
    ensures Value(address) == 4096 * PageNumber(address) && PageNumber(address) < 0x10_0000_0000
  {
    SetRoundTrip(address, flags);
    SetAcceptsExactly(address);
    AlignedFrame(address);
  }

  lemma AlignedFrame(address: bv64)
    requires address & 0xFFF == 0 && address < 0x1_0000_0000_0000
    ensures Value(address) == 4096 * PageNumber(address) && PageNumber(address) < 0x10_0000_0000
  {
    AlignedDigits(address);
    assert Low9(0) == 0;
    FourDigits(Low9((address >> 12) & 511), Low9((address >> 21) & 511), Low9((address >> 30) & 511), Low9((address >> 39) & 511));
  }

  lemma FourDigits(d1: nat, d2: nat, d3: nat, d4: nat)
    requires d1 < 512 && d2 < 512 && d3 < 512 && d4 < 512
    ensures Digits(d1, d2, d3, d4, 0, 0) < 0x10_0000_0000
  {
  }

  lemma AlignedDigits(address: bv64)
    requires address & 0xFFF == 0 && address < 0x1_0000_0000_0000
    ensures (address >> 48) & 511 == 0 && (address >> 57) & 127 == 0 && address & 511 == 0 && (address >> 9) & 7 == 0
  {
  }

  /** ... and the one `add_flags` leaves. */
  lemma AddFlagsDecodes(w: bv64, flags: bv64)
    requires flags & NAMED == flags
    ensures Decode(Merge(w, flags)) == Entry(Decode(w).frame, Decode(w).flags.Or(Flags(flags)))
  {
    AddFlagsIsUnion(w, flags);
  }

  /** A word of zeroes, which `set_unused` leaves, is the unused entry. */
  lemma UnusedDecodes()
    ensures Decode(0) == UNUSED
  {
    assert Low9(0) == 0;
  }
}
