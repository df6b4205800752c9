/**
 The heap's accounting: which blocks are live, which pages should be mapped for them, and how the
 orders of blocks follow from the sizes asked for. Units are the tree's base blocks of 64 bytes.
 */
module HeapSpec {
  import opened Util
  import opened Buddy

  const BASE_ORDER: nat := 6
  const MAX_ORDER: nat := 24
  const PAGE_ORDER: nat := 12 - BASE_ORDER

  // ---------------------------------------------------------------- sizes and orders

  /** `log2_floor`. */
  method Log2Floor(val: nat) returns (log2: nat)
    requires val > 0
    ensures Pow2(log2) <= val < Pow2(log2 + 1)
  {
    var v := val;
    log2 := 0;
    assert v * Pow2(0) <= val < (v + 1) * Pow2(0);
    while v > 1
      invariant v >= 1 && v * Pow2(log2) <= val < (v + 1) * Pow2(log2)
    {
      HalveOnce(v, log2, val);
      v := v / 2;
      log2 := log2 + 1;
    }
  }

  lemma HalveOnce(v: nat, k: nat, val: nat)
    requires v * Pow2(k) <= val < (v + 1) * Pow2(k)
    ensures (v / 2) * Pow2(k + 1) <= val < (v / 2 + 1) * Pow2(k + 1)
  {
    var h, p := v / 2, Pow2(k);
    assert Pow2(k + 1) == 2 * p;
    assert h * (2 * p) == (2 * h) * p;
    assert (h + 1) * (2 * p) == (2 * h + 2) * p;
    MulMono(2 * h, v, p);
    MulMono(v + 1, 2 * h + 2, p);
  }

  lemma MulMono(a: nat, b: nat, p: nat)
    requires a <= b
    ensures a * p <= b * p
  {
  }

  /** The least power of two, as an exponent, that is not below `val`. */
  ghost predicate IsLog2Ceil(val: nat, log2: nat) {
    val <= Pow2(log2) && (log2 > 0 ==> Pow2(log2 - 1) < val)
  }

  /** `log2_ceil`. */
  method Log2Ceil(val: nat) returns (log2: nat)
    requires val > 0
    ensures IsLog2Ceil(val, log2)
  {
    log2 := Log2Floor(val);
    if val != Pow2(log2) {
      log2 := log2 + 1;
    }
  }

  /** What `order` promises: the smallest block at least twice the size asked for. */
  ghost predicate IsOrder(val: nat, order: nat) {
    2 * val <= Pow2(order + BASE_ORDER) && (order > 0 ==> Pow2(order + BASE_ORDER - 1) < 2 * val)
  }

  /** `order`. */
  method Order(val: nat) returns (order: nat)
    ensures IsOrder(val, order)
  {
    if val == 0 {
      return 0;
    }
    var ceil := Log2Ceil(val);
    var log2 := ceil + 1;
    if log2 > BASE_ORDER {
      order := log2 - BASE_ORDER;
    } else {
      order := 0;
      Pow2Mono(log2, BASE_ORDER);
    }
  }

  lemma OrderUnique(val: nat, a: nat, b: nat)
    requires IsOrder(val, a) && IsOrder(val, b)
    ensures a == b
  {
    if a < b { Pow2Mono(a + BASE_ORDER, b + BASE_ORDER - 1); }
    if b < a { Pow2Mono(b + BASE_ORDER, a + BASE_ORDER - 1); }
  }

  // ---------------------------------------------------------------- live blocks

  /** A live block: its order, and whether it was placed on given frames by `alloc_specific`. */
  datatype Alloc = Alloc(order: nat, specific: bool)

  type Live = map<nat, Alloc>

  /** How many pages of a block are mapped: those of its first half, or all for a specific block. */
  function PageCount(a: Alloc): nat {
    if a.specific then RoundUpDivide(Pow2(a.order + BASE_ORDER), 4096)
    else RoundUpDivide(Pow2(a.order + BASE_ORDER - 1), 4096)
  }

  /** The pages of the heap that a block maps, counted from the start of the heap. */
  predicate Prefix(b: nat, a: Alloc, page: nat) {
    b / 64 <= page < b / 64 + PageCount(a)
  }

  /** Some live block needs the page. */
  ghost predicate Resident(live: Live, page: nat) {
    exists b :: b in live && Prefix(b, live[b], page)
  }

  /** Live blocks are aligned, in bounds, disjoint, and exactly what the tree does not have free. */
  ghost predicate Accounts(live: Live, free: set<nat>) {
    && (forall b :: b in live ==> Aligned(b, live[b].order) && b + Pow2(live[b].order) <= Pow2(MAX_ORDER))
    && (forall b :: b in live && live[b].specific ==> live[b].order > PAGE_ORDER)
    && (forall b, c, u: nat :: b in live && c in live && Covers(b, live[b].order, u) && Covers(c, live[c].order, u) ==> b == c)
    && (forall u: nat :: u in free <==> u < Pow2(MAX_ORDER) && !InUse(live, u))
  }

  ghost predicate InUse(live: Live, u: nat) {
    exists b :: b in live && Covers(b, live[b].order, u)
  }

  // ---------------------------------------------------------------- page arithmetic

  lemma MultipleOf64(b: nat, p: nat, m: nat)
    requires p > 0 && p == 64 * m && b % p == 0
    ensures b % 64 == 0
  {
    var q := b / p;
    assert b == p * q;
    assert p * q == 64 * (m * q);
    Multiple(m * q);
  }

  lemma Multiple(x: nat)
    ensures (64 * x) % 64 == 0
  {
  }

  /** A block of at least a page starts on a page boundary. */
  lemma LargeAligned(b: nat, k: nat)
    requires Aligned(b, k) && k >= PAGE_ORDER
    ensures b % 64 == 0 && Pow2(k) == 64 * Pow2(k - PAGE_ORDER)
  {
    Pow2Values();
    Pow2Add(PAGE_ORDER, k - PAGE_ORDER);
    MultipleOf64(b, Pow2(k), Pow2(k - PAGE_ORDER));
  }

  /** A block of `p` base blocks, where `p` divides a page's 64, ends within the page it starts in. */
  lemma WithinPage(b: nat, c: nat, p: nat, m: nat)
    requires m > 0 && p * m == 64 && b == p * c
    ensures b + p <= b / 64 * 64 + 64
  {
    var q, r := c / m, c % m;
    PageQuotient(c, m, q, r, p);
    MulMono(r + 1, m, p);
    Distribute(p, r, 1);
    PageRest(b, q, p * r, p);
  }

  lemma PageQuotient(c: nat, m: nat, q: nat, r: nat, p: nat)
    requires c == m * q + r && p * m == 64
    ensures p * c == 64 * q + p * r
  {
    Distribute(p, m * q, r);
    Associate(p, m, q);
  }

  lemma Distribute(p: nat, x: nat, y: nat)
    ensures p * (x + y) == p * x + p * y
  {
  }

  lemma Associate(p: nat, m: nat, q: nat)
    ensures p * (m * q) == (p * m) * q
  {
  }

  lemma PageRest(b: nat, q: nat, x: nat, p: nat)
    requires b == 64 * q + x && x + p <= 64 && p > 0
    ensures b + p <= b / 64 * 64 + 64
  {
  }

  lemma DividedWithinPage(b: nat, p: nat, m: nat)
    requires p > 0 && m > 0 && p * m == 64 && b % p == 0
    ensures b / 64 * 64 <= b && b + p <= b / 64 * 64 + 64
  {
    var c := b / p;
    assert b == p * c;
    WithinPage(b, c, p, m);
  }

  /** A smaller block lies within one page. */
  lemma SmallInPage(b: nat, k: nat)
    requires Aligned(b, k) && k < PAGE_ORDER
    ensures b / 64 * 64 <= b && b + Pow2(k) <= b / 64 * 64 + 64
  {
    Pow2Add(k, PAGE_ORDER - k);
    Pow2Values();
    DividedWithinPage(b, Pow2(k), Pow2(PAGE_ORDER - k));
  }

  lemma DivideByPage(n: nat)
    ensures RoundUpDivide(4096 * n, 4096) == n
  {
  }

  /** The page counts of the source's formulas, in pages. */
  lemma PageCounts(a: Alloc)
    ensures !a.specific ==> PageCount(a) == if a.order <= 7 then 1 else Pow2(a.order - 7)
    ensures a.specific && a.order > PAGE_ORDER ==> PageCount(a) == Pow2(a.order - PAGE_ORDER)
    ensures a.order >= PAGE_ORDER && (a.specific ==> a.order > PAGE_ORDER) ==> 1 <= PageCount(a) <= Pow2(a.order - PAGE_ORDER)
  {
    Pow2Values();
    if a.order <= 7 {
      Pow2Mono(a.order + BASE_ORDER - 1, 12);
    } else {
      Pow2Add(12, a.order - 7);
      DivideByPage(Pow2(a.order - 7));
      Pow2Mono(a.order - 7, a.order - 6);
    }
    if a.order > PAGE_ORDER {
      Pow2Add(12, a.order - PAGE_ORDER);
      DivideByPage(Pow2(a.order - PAGE_ORDER));
    }
  }

  /** A page that a block maps lies inside the block, or is the page a small block lies in. */
  lemma PrefixInBlock(b: nat, a: Alloc, page: nat)
    requires Aligned(b, a.order) && (a.specific ==> a.order > PAGE_ORDER) && Prefix(b, a, page)
    ensures a.order >= PAGE_ORDER ==> b <= page * 64 && page * 64 + 64 <= b + Pow2(a.order)
    ensures a.order < PAGE_ORDER ==> page == b / 64 && page * 64 <= b && b + Pow2(a.order) <= page * 64 + 64
  {
    PageCounts(a);
    if a.order >= PAGE_ORDER {
      LargeAligned(b, a.order);
    } else {
      SmallInPage(b, a.order);
    }
  }

  /** In either case the block and the page have a base block in common. */
  lemma PrefixMeets(b: nat, a: Alloc, page: nat) returns (u: nat)
    requires Aligned(b, a.order) && (a.specific ==> a.order > PAGE_ORDER) && Prefix(b, a, page)
    ensures Covers(b, a.order, u) && page * 64 <= u < page * 64 + 64
  {
    PrefixInBlock(b, a, page);
    u := if a.order >= PAGE_ORDER then page * 64 else b;
  }

  // ---------------------------------------------------------------- residency

  /** Allocating adds exactly the new block's pages. */
  lemma AllocResident(live: Live, b: nat, a: Alloc, page: nat)
    requires b !in live
    ensures Resident(live[b := a], page) <==> Resident(live, page) || Prefix(b, a, page)
  {
    var live' := live[b := a];
    if Resident(live, page) {
      var c :| c in live && Prefix(c, live[c], page);
      assert c in live' && Prefix(c, live'[c], page);
    }
    if Prefix(b, a, page) {
      assert b in live' && Prefix(b, live'[b], page);
    }
  }

  /** Live blocks that share a base block are one block. */
  lemma SameBlock(live: Live, free: set<nat>, b: nat, c: nat, u: nat)
    requires Accounts(live, free) && b in live && c in live
    requires Covers(b, live[b].order, u) && Covers(c, live[c].order, u)
    ensures b == c
  {
  }

  lemma UseAdded(live: Live, b: nat, a: Alloc, u: nat)
    requires b !in live
    ensures InUse(live[b := a], u) <==> InUse(live, u) || Covers(b, a.order, u)
  {
    var live' := live[b := a];
    if InUse(live, u) {
      var c :| c in live && Covers(c, live[c].order, u);
      assert c in live' && Covers(c, live'[c].order, u);
    }
    if Covers(b, a.order, u) { assert b in live' && Covers(b, live'[b].order, u); }
  }

  lemma UseRemoved(live: Live, free: set<nat>, b: nat, u: nat)
    requires Accounts(live, free) && b in live
    ensures InUse(live - {b}, u) <==> InUse(live, u) && !Covers(b, live[b].order, u)
  {
    var live' := live - {b};
    if InUse(live', u) {
      var c :| c in live' && Covers(c, live'[c].order, u);
      assert c in live && Covers(c, live[c].order, u);
    }
    if InUse(live, u) && !Covers(b, live[b].order, u) {
      var c :| c in live && Covers(c, live[c].order, u);
      assert c in live' && Covers(c, live'[c].order, u);
    }
  }

  /** A place that fits is used by no live block. */
  lemma FitsUnused(live: Live, free: set<nat>, b: nat, k: nat, u: nat)
    requires Accounts(live, free) && Fits(free, MAX_ORDER, b, k) && Covers(b, k, u)
    ensures !InUse(live, u)
  {
    assert u in Block(b, k);
  }

  /** A block the tree hands out overlaps no live block, and accounts stay right. */
  lemma AllocAccounts(live: Live, free: set<nat>, b: nat, a: Alloc)
    requires Accounts(live, free) && Fits(free, MAX_ORDER, b, a.order) && (a.specific ==> a.order > PAGE_ORDER)
    ensures b !in live && Accounts(live[b := a], free - Block(b, a.order))
  {
    var live' := live[b := a];
    FitsUnused(live, free, b, a.order, b);
    assert forall c :: c in live ==> Covers(c, live[c].order, c);
    forall u: nat ensures u in free - Block(b, a.order) <==> u < Pow2(MAX_ORDER) && !InUse(live', u) {
      UseAdded(live, b, a, u);
    }
    forall c, d, u: nat | c in live' && d in live' && Covers(c, live'[c].order, u) && Covers(d, live'[d].order, u)
      ensures c == d
    {
      if c == b || d == b { FitsUnused(live, free, b, a.order, u); }
    }
  }

  lemma DeallocAccounts(live: Live, free: set<nat>, b: nat)
    requires Accounts(live, free) && b in live
    ensures Block(b, live[b].order) !! free && Accounts(live - {b}, free + Block(b, live[b].order))
  {
    forall u | u in Block(b, live[b].order) ensures u !in free {
      assert InUse(live, u);
    }
    forall u: nat ensures u in free + Block(b, live[b].order) <==> u < Pow2(MAX_ORDER) && !InUse(live - {b}, u) {
      UseRemoved(live, free, b, u);
    }
  }

  /** The page's own node in the tree, a block of page order, is wholly free. */
  ghost predicate PageFree(free: set<nat>, page: nat) {
    Block(page * 64, PAGE_ORDER) <= free
  }

  /** No live block needs a page that is wholly free. */
  lemma FreePageNotResident(live: Live, free: set<nat>, page: nat)
    requires Accounts(live, free) && PageFree(free, page)
    ensures !Resident(live, page)
  {
    forall c | c in live ensures !Prefix(c, live[c], page) {
      if Prefix(c, live[c], page) {
        var u := PrefixMeets(c, live[c], page);
        assert InUse(live, u);
        PageHolds(page, u);
        assert false;
      }
    }
  }

  lemma PageHolds(page: nat, u: nat)
    requires page * 64 <= u < page * 64 + 64
    ensures u in Block(page * 64, PAGE_ORDER)
  {
    Pow2Values();
    assert Covers(page * 64, PAGE_ORDER, u);
  }

  /** A page that is not wholly free, and lay in no larger block, has a small live block on it. */
  lemma UsedPageResident(live: Live, free: set<nat>, page: nat)
    requires Accounts(live, free) && !PageFree(free, page) && page < Pow2(18)
    requires forall c :: c in live && live[c].order >= PAGE_ORDER ==> !(c <= page * 64 < c + Pow2(live[c].order))
    ensures Resident(live, page)
  {
    Pow2Values();
    var u :| u in Block(page * 64, PAGE_ORDER) && u !in free;
    assert InUse(live, u);
    var c :| c in live && Covers(c, live[c].order, u);
    PageCounts(live[c]);
    if live[c].order >= PAGE_ORDER {
      LargeAligned(c, live[c].order);
      LargeCoversPage(c, Pow2(live[c].order - PAGE_ORDER), page, u);
    } else {
      SmallInPage(c, live[c].order);
      assert Prefix(c, live[c], page);
    }
  }

  lemma LargeCoversPage(c: nat, m: nat, page: nat, u: nat)
    requires c % 64 == 0 && c <= u < c + 64 * m && page * 64 <= u < page * 64 + 64
    ensures c <= page * 64 < c + 64 * m
  {
  }

  /** Freeing a block of at least a page leaves none of its pages needed, and no other page less so. */
  lemma DeallocLarge(live: Live, free: set<nat>, b: nat, page: nat)
    requires Accounts(live, free) && b in live && live[b].order >= PAGE_ORDER
    ensures Resident(live - {b}, page) <==> Resident(live, page) && !Prefix(b, live[b], page)
  {
    var live' := live - {b};
    if Resident(live', page) {
      var c :| c in live' && Prefix(c, live'[c], page);
      assert c in live && Prefix(c, live[c], page);
      if Prefix(b, live[b], page) {
        PrefixInBlock(b, live[b], page);
        var u := PrefixMeets(c, live[c], page);
        SameBlock(live, free, b, c, u);
      }
    }
    if Resident(live, page) && !Prefix(b, live[b], page) {
      var c :| c in live && Prefix(c, live[c], page);
      assert c in live' && Prefix(c, live'[c], page);
    }
  }

  /** Freeing a small block: its page is still needed unless its node came out wholly free. */
  lemma DeallocSmall(live: Live, free: set<nat>, b: nat, page: nat)
    requires Accounts(live, free) && b in live && live[b].order < PAGE_ORDER
    ensures var live', free' := live - {b}, free + Block(b, live[b].order);
            Resident(live', page) <==> Resident(live, page) && !(page == b / 64 && PageFree(free', b / 64))
  {
    var live', free' := live - {b}, free + Block(b, live[b].order);
    DeallocAccounts(live, free, b);
    PageCounts(live[b]);
    if Resident(live', page) {
      var c :| c in live' && Prefix(c, live'[c], page);
      assert c in live && Prefix(c, live[c], page);
      if page == b / 64 && PageFree(free', page) { FreePageNotResident(live', free', page); }
    }
    if Resident(live, page) {
      var c :| c in live && Prefix(c, live[c], page);
      if c != b {
        assert c in live' && Prefix(c, live'[c], page);
      } else if !PageFree(free', page) {
        StillUsed(live, free, b);
      }
    }
  }

  lemma StillUsed(live: Live, free: set<nat>, b: nat)
    requires Accounts(live, free) && b in live && live[b].order < PAGE_ORDER
    requires !PageFree(free + Block(b, live[b].order), b / 64)
    ensures Resident(live - {b}, b / 64)
  {
    var live', free', page := live - {b}, free + Block(b, live[b].order), b / 64;
    DeallocAccounts(live, free, b);
    SmallInPage(b, live[b].order);
    Pow2Values();
    forall c | c in live' && live'[c].order >= PAGE_ORDER ensures !(c <= page * 64 < c + Pow2(live'[c].order)) {
      LargeAligned(c, live'[c].order);
      if c <= page * 64 < c + Pow2(live'[c].order) {
        LargeHoldsPage(c, Pow2(live'[c].order - PAGE_ORDER), page);
        SameBlock(live, free, b, c, b);
      }
    }
    UsedPageResident(live', free', page);
  }

  lemma LargeHoldsPage(c: nat, m: nat, page: nat)
    requires c % 64 == 0 && c <= page * 64 < c + 64 * m
    ensures page * 64 + 64 <= c + 64 * m
  {
  }
}
