/**
 Virtual pages: the four 9-bit table indices of a page, page numbers as the kernel's `Page` type
 keeps them, and the address arithmetic of the recursive table pointers.
 */
module Pages {

  /** An index into a page table. */
  type Index = i: nat | i < 512

  /** A virtual page, as the indices the hardware takes from its address. */
  datatype VPage = VPage(p4: Index, p3: Index, p2: Index, p1: Index)

  const RECURSIVE_SLOT: Index := 510
  const KERNEL_SLOT: Index := 511

  /** Pages outside the recursive window, the only ones the kernel maps and unmaps. */
  predicate Ordinary(p: VPage) {
    p.p4 != RECURSIVE_SLOT
  }

  /** `p4_index` .. `p1_index` of a page number. */
  function Indices(n: nat): VPage {
    VPage((n / 0x800_0000) % 512, (n / 0x4_0000) % 512, (n / 0x200) % 512, n % 512)
  }

  /** Numbers of the pages whose addresses are canonical. */
  predicate CanonicalPage(n: nat) {
    n < 0x8_0000_0000 || 0xF_FFF8_0000_0000 <= n < 0x10_0000_0000_0000
  }

  /** The number of the canonical page with the given indices. */
  function Number(p: VPage): nat {
    (if p.p4 >= 256 then 0xF_FFF0_0000_0000 else 0) +
    p.p4 * 0x800_0000 + p.p3 * 0x4_0000 + p.p2 * 0x200 + p.p1
  }

  /** Every index tuple belongs to a canonical page ... */
  lemma NumberIndices(p: VPage)
    ensures CanonicalPage(Number(p))
    ensures Indices(Number(p)) == p
  {
    var n := Number(p);
    assert n / 0x200 == (if p.p4 >= 256 then 0x7FF_F800_0000 else 0) + p.p4 * 0x4_0000 + p.p3 * 0x200 + p.p2;
    assert n / 0x4_0000 == (if p.p4 >= 256 then 0x3_FFFC_0000 else 0) + p.p4 * 0x200 + p.p3;
    assert n / 0x800_0000 == (if p.p4 >= 256 then 0x1FFFE00 else 0) + p.p4;
  }

  /** ... and to only one. */
  lemma IndicesNumber(n: nat)
    requires CanonicalPage(n)
    ensures Number(Indices(n)) == n
  {
    assert n == (n / 0x200) * 0x200 + n % 0x200;
    assert n / 0x4_0000 == (n / 0x200) / 0x200;
    assert n / 0x800_0000 == (n / 0x4_0000) / 0x200;
    var top := n / 0x800_0000;
    if n < 0x8_0000_0000 {
      assert top < 256;
    } else {
      assert 0x1FFFF00 <= top < 0x2000000;
    }
  }

  /** Distinct canonical pages differ in some index. */
  lemma IndicesInjective(n: nat, m: nat)
    requires CanonicalPage(n) && CanonicalPage(m) && Indices(n) == Indices(m)
    ensures n == m
  {
    IndicesNumber(n);
    IndicesNumber(m);
  }

  /** No two index tuples have the same number. */
  lemma NumberInjective(page: VPage)
    ensures forall p: VPage :: Number(p) == Number(page) ==> p == page
  {
    forall p: VPage | Number(p) == Number(page) ensures p == page {
      NumberIndices(p);
      NumberIndices(page);
    }
  }

  /** The page that a table pointer names once the next index has been shifted in. */
  function ShiftIn(p: VPage, i: Index): VPage {
    VPage(p.p3, p.p2, p.p1, i)
  }

  /** Where the recursive slot puts the P4 table. */
  const P4_POINTER := VPage(RECURSIVE_SLOT, RECURSIVE_SLOT, RECURSIVE_SLOT, RECURSIVE_SLOT)
}

/** The same pointers as 64-bit addresses. */
module Pointers {
  import opened Pages
  import opened Words

  /** 0o177_777_776_776_776_776_0000, the address the mapper starts from. */
  const P4_ADDRESS: bv64 := 0xFFFF_FF7F_BFDF_E000

  predicate Canonical(a: bv64) {
    a >> 47 == 0 || a >> 47 == 0x1_FFFF
  }

  /** The address computed by `next_table_addr` from a table's own address. */
  function NextTableAddr(a: bv64, i: bv64): bv64 {
    0xFFFF_0000_0000_0000 | (a << 9) | (i << 12)
  }

  /** The indices the hardware takes from an address. */
  function PageOf(a: bv64): VPage {
    VPage(Low9((a >> 39) & 511), Low9((a >> 30) & 511), Low9((a >> 21) & 511), Low9((a >> 12) & 511))
  }

  /** They are the indices of the page the address lies in. */
  lemma PageOfIndices(a: bv64)
    ensures PageOf(a) == Indices(Value(a) / 4096)
  {
    ValuePage(a);
    DigitIndices(Low9((a >> 12) & 511), Low9((a >> 21) & 511), Low9((a >> 30) & 511), Low9((a >> 39) & 511),
                 Low9((a >> 48) & 511), Low9((a >> 57) & 127));
  }

  lemma DigitIndices(d1: nat, d2: nat, d3: nat, d4: nat, d5: nat, d6: nat)
    requires d1 < 512 && d2 < 512 && d3 < 512 && d4 < 512
    ensures Indices(Digits(d1, d2, d3, d4, d5, d6)) == VPage(d4, d3, d2, d1)
  {
    var n, top := Digits(d1, d2, d3, d4, d5, d6), d5 + 0x200 * d6;
    var q3 := d4 + 0x200 * top;
    var q2 := d3 + 0x200 * q3;
    var q1 := d2 + 0x200 * q2;
    Digit(n, d1, q1);
    Digit(q1, d2, q2);
    Digit(q2, d3, q3);
    Digit(q3, d4, top);
    Quotients(n);
  }

  lemma Digit(n: nat, d: nat, q: nat)
    requires n == d + 0x200 * q && d < 512
    ensures n / 0x200 == q && n % 0x200 == d
  {
  }

  lemma Quotients(n: nat)
    ensures n / 0x4_0000 == (n / 0x200) / 0x200 && n / 0x800_0000 == ((n / 0x200) / 0x200) / 0x200
  {
  }

  lemma NextTableBits(a: bv64, i: bv64)
    requires i < 512 && a & 0xFFF == 0
    ensures var b := 0xFFFF_0000_0000_0000 | (a << 9) | (i << 12);
            && b & 0xFFF == 0
            && (b >> 39) & 511 == (a >> 30) & 511
            && (b >> 30) & 511 == (a >> 21) & 511
            && (b >> 21) & 511 == (a >> 12) & 511
            && (b >> 12) & 511 == i
            && (b >> 47 == 0x1_FFFF <==> (a >> 30) & 256 == 256)
  {
  }

  /** A table address from which `NextTableAddr` computes the next pointer correctly. */
  predicate Shiftable(a: bv64) {
    a & 0xFFF == 0 && (a >> 30) & 256 == 256
  }

  /** `NextTableAddr` from the canonical high half is `ShiftIn`, and stays canonical. */
  lemma NextTableAddrShifts(a: bv64, i: bv64)
    requires i < 512 && Shiftable(a)
    ensures NextTableAddr(a, i) & 0xFFF == 0
    ensures Canonical(NextTableAddr(a, i))
    ensures PageOf(NextTableAddr(a, i)) == ShiftIn(PageOf(a), Low9(i))
  {
    NextTableBits(a, i);
  }

  /** The mapper's first pointer is the page behind four recursive steps. */
  lemma FirstPointer()
    ensures PageOf(P4_ADDRESS) == P4_POINTER
    ensures Canonical(P4_ADDRESS) && P4_ADDRESS & 0xFFF == 0
  {
    assert (P4_ADDRESS >> 39) & 511 == 510 && (P4_ADDRESS >> 30) & 511 == 510;
    assert (P4_ADDRESS >> 21) & 511 == 510 && (P4_ADDRESS >> 12) & 511 == 510;
    assert Low9(510) == 510;
  }

  /** Every pointer a walk derives another pointer from is one, whatever the indices. */
  lemma WalkPointersShiftable(i4: bv64, i3: bv64)
    requires i4 < 512 && i3 < 512
    ensures Shiftable(P4_ADDRESS)
    ensures Shiftable(NextTableAddr(P4_ADDRESS, i4))
    ensures Shiftable(NextTableAddr(NextTableAddr(P4_ADDRESS, i4), i3))
  {
  }
}
