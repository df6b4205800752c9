/**
 The contract of the buddy tree that both the heap and the frame allocator are built on: a tree
 over 2^maxOrder base blocks, handing out blocks of 2^k of them, aligned to their size.
 */
module Buddy {
  import opened Mmu

  function Pow2(n: nat): (r: nat)
    ensures r >= 1
  {
    if n == 0 then 1 else 2 * Pow2(n - 1)
  }

  lemma {:induction false} Pow2Add(a: nat, b: nat)
    ensures Pow2(a + b) == Pow2(a) * Pow2(b)
  {
    if a > 0 {
      Pow2Add(a - 1, b);
      assert Pow2(a + b) == 2 * Pow2(a - 1 + b);
      assert 2 * (Pow2(a - 1) * Pow2(b)) == (2 * Pow2(a - 1)) * Pow2(b);
    }
  }

  lemma {:induction false} Pow2Mono(a: nat, b: nat)
    requires a <= b
    ensures Pow2(a) <= Pow2(b)
  {
    if a < b { Pow2Mono(a, b - 1); }
  }

  lemma {:induction false} Pow2Strict(a: nat, b: nat)
    ensures Pow2(a) < Pow2(b) ==> a < b
  {
    if b <= a { Pow2Mono(b, a); }
  }

  lemma Pow2Values()
    ensures Pow2(5) == 32 && Pow2(6) == 64 && Pow2(7) == 128 && Pow2(11) == 2048 && Pow2(12) == 4096
    ensures Pow2(18) == 0x4_0000 && Pow2(24) == 0x100_0000 && Pow2(30) == 0x4000_0000
  {
    assert Pow2(3) == 8;
    assert Pow2(5) == 32;
    assert Pow2(6) == 64;
    assert Pow2(7) == 128;
    Pow2Add(5, 6);
    Pow2Add(6, 6);
    Pow2Add(12, 6);
    Pow2Add(12, 12);
    Pow2Add(24, 6);
  }

  predicate Covers(b: nat, k: nat, u: nat) {
    b <= u < b + Pow2(k)
  }

  /** Base blocks `b` up to `b` + 2^k. */
  function Block(b: nat, k: nat): set<nat> {
    set u: nat | b <= u < b + Pow2(k) && Covers(b, k, u)
  }

  predicate Aligned(b: nat, k: nat) {
    b % Pow2(k) == 0
  }

  /** A place where a block of order `k` can be allocated. */
  predicate Fits(free: set<nat>, maxOrder: nat, b: nat, k: nat) {
    Aligned(b, k) && b + Pow2(k) <= Pow2(maxOrder) && Block(b, k) <= free
  }

  /** `order_free` of the node for block `b` of order `k`: one more than the largest free order inside it. */
  function OrderFree(free: set<nat>, b: nat, k: nat): nat
    decreases k
  {
    if Block(b, k) <= free then k + 1
    else if k == 0 then 0
    else
      var left, right := OrderFree(free, b, k - 1), OrderFree(free, b + Pow2(k - 1), k - 1);
      if left >= right then left else right
  }

  lemma {:induction false} OrderFreeBound(free: set<nat>, b: nat, k: nat)
    ensures OrderFree(free, b, k) <= k + 1
    decreases k
  {
    if k > 0 {
      OrderFreeBound(free, b, k - 1);
      OrderFreeBound(free, b + Pow2(k - 1), k - 1);
    }
  }

  /** It is the order plus one exactly when the whole block is free. */
  lemma WhollyFree(free: set<nat>, b: nat, k: nat)
    ensures OrderFree(free, b, k) == k + 1 <==> Block(b, k) <= free
  {
    if k > 0 {
      OrderFreeBound(free, b, k - 1);
      OrderFreeBound(free, b + Pow2(k - 1), k - 1);
    }
  }

  /** Any tree that keeps its free base blocks as a set. */
  class Tree {
    const maxOrder: nat
    var free: set<nat>

    constructor (maxOrder: nat, usable: set<nat>)
      requires forall u :: u in usable ==> u < Pow2(maxOrder)
      ensures this.maxOrder == maxOrder && free == usable && Valid()
    {
      this.maxOrder := maxOrder;
      free := usable;
    }

    ghost predicate Valid()
      reads this
    {
      forall u :: u in free ==> u < Pow2(maxOrder)
    }

    /** A free aligned block, or none when there is no such block. */
    method Allocate(k: nat) returns (r: Option<nat>)
      requires Valid()
      modifies this
      ensures Valid()
      ensures r.Some? ==> Fits(old(free), maxOrder, r.value, k) && free == old(free) - Block(r.value, k)
      ensures r.None? ==> free == old(free) && forall b :: !Fits(free, maxOrder, b, k)
    {
      if b :| 0 <= b < Pow2(maxOrder) && Fits(free, maxOrder, b, k) {
        free := free - Block(b, k);
        return Some(b);
      }
      return None;
    }

    /** Gives a block back; the real tree panics if it is free or out of bounds. */
    method Deallocate(b: nat, k: nat)
      requires Valid() && Aligned(b, k) && b + Pow2(k) <= Pow2(maxOrder) && Block(b, k) !! free
      modifies this
      ensures Valid() && free == old(free) + Block(b, k)
    {
      free := free + Block(b, k);
    }
  }
}
