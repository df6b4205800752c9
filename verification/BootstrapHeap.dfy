/**
 The bootstrap heap: eight slots of one size, handed out by a bitmap that is locked anew for every
 bit, so that other callers may allocate and drop boxes in the middle of an allocation.
 */
module BootstrapHeap {
  import opened Mmu

  const SLOTS: nat := 8

  /** One locked section of another caller: looking at a bit, and taking its slot if clear, or dropping a box. */
  datatype Action = LookAt(bit: nat) | DropAt(bit: nat)

  type Bits = s: seq<bool> | |s| == SLOTS witness seq(SLOTS, _ => false)

  function Effect(bits: Bits, action: Action): Bits {
    if action.bit >= SLOTS then bits else bits[action.bit := action.LookAt?]
  }

  function Effects(bits: Bits, actions: seq<Action>): Bits {
    if actions == [] then bits else Effect(Effects(bits, actions[..|actions| - 1]), actions[|actions| - 1])
  }

  /** The bitmap that `allocate` meets when it comes to bit `k`, all earlier bits having been set. */
  function Seen(bits: Bits, others: seq<seq<Action>>, k: nat): Bits
    requires k < |others|
  {
    Effects(if k == 0 then bits else Seen(bits, others, k - 1), others[k])
  }

  /** Bit `k` is the first that is clear when `allocate` comes to it. */
  ghost predicate FirstClear(bits: Bits, others: seq<seq<Action>>, k: nat)
    requires |others| == SLOTS
  {
    k < SLOTS && !Seen(bits, others, k)[k] && forall j: nat :: j < k ==> Seen(bits, others, j)[j]
  }

  lemma Product(a: nat, b: nat, d: nat)
    requires a < b
    ensures a * d + d <= b * d
  {
    assert (b - a - 1) * d >= 0;
    assert b * d == a * d + d + (b - a - 1) * d;
  }

  lemma Quotient(x: nat, q: nat, p: nat, r: nat, d: nat)
    requires x == q * d && x == p * d + r && r < d
    ensures p == q
  {
    if p < q { Product(p, q, d); }
    if q < p { Product(q, p, d); }
  }

  class BootstrapAllocator {
    const start: nat
    const size: nat
    var bitmap: Bits
    ghost var boxes: multiset<nat>   // the addresses of the live boxes

    constructor (start: nat, size: nat)
      requires size > 0
      ensures Valid() && boxes == multiset{} && this.start == start && this.size == size
    {
      this.start, this.size := start, size;
      bitmap := seq(SLOTS, _ => false);
      boxes := multiset{};
    }

    function Slot(bit: nat): nat {
      start + bit * size
    }

    /** A bit is set exactly when one live box sits at its slot, and there are no other boxes. */
    ghost predicate Valid()
      reads this
    {
      BitsRight(bitmap, boxes)
    }

    ghost predicate BitsRight(bits: Bits, live: multiset<nat>) {
      && size > 0
      && (forall bit: nat :: bit < SLOTS ==> live[Slot(bit)] == if bits[bit] then 1 else 0)
      && (forall a :: a in live ==> exists bit: nat :: bit < SLOTS && a == Slot(bit))
    }

    /** Slots of different bits differ. */
    lemma SlotsApart(bit: nat, other: nat)
      requires size > 0 && bit < other
      ensures Slot(bit) + size <= Slot(other)
    {
      Product(bit, other, size);
    }

    /** Live boxes lie in the reserved space, and no two overlap. */
    lemma BoxesDisjoint(a: nat, c: nat)
      requires Valid() && a in boxes && c in boxes
      ensures start <= a && a + size <= start + SLOTS * size
      ensures a != c ==> a + size <= c || c + size <= a
      ensures boxes[a] == 1
    {
      var i: nat :| i < SLOTS && a == Slot(i);
      var j: nat :| j < SLOTS && c == Slot(j);
      SlotsApart(i, SLOTS);
      if i < j { SlotsApart(i, j); }
      if j < i { SlotsApart(j, i); }
    }

    /** One locked section of `allocate`: takes the slot if its bit is clear. */
    method TryBit(bit: nat) returns (r: Option<nat>)
      requires Valid() && bit < SLOTS
      modifies this
      ensures Valid() && (r.None? <==> old(bitmap)[bit])
      ensures r.None? ==> bitmap == old(bitmap) && boxes == old(boxes)
      ensures r.Some? ==> r.value == Slot(bit) && r.value !in old(boxes) && boxes == old(boxes) + multiset{r.value}
      ensures r.Some? ==> bitmap == old(bitmap)[bit := true]
    {
      if bitmap[bit] {
        return None;
      }
      bitmap := bitmap[bit := true];
      boxes := boxes + multiset{Slot(bit)};
      SlotsDiffer();
      r := Some(Slot(bit));
    }

    lemma SlotsDiffer()
      requires size > 0
      ensures forall i: nat, j: nat {:trigger Slot(i), Slot(j)} :: Slot(i) == Slot(j) ==> i == j
    {
      forall i: nat, j: nat | Slot(i) == Slot(j) ensures i == j {
        if i < j { SlotsApart(i, j); }
        if j < i { SlotsApart(j, i); }
      }
    }

    /** `set_used`: one locked section. */
    method SetUsed(index: nat, used: bool)
      modifies this`bitmap
      ensures bitmap == old(bitmap)[index % 8 := used]
    {
      var bit := index % 8;
      bitmap := bitmap[bit := used];
    }

    /** `deallocate`, in the drop of a box: finds the bit from the address. */
    method Deallocate(address: nat) returns (ghost bit: nat)
      requires Valid() && address in boxes
      modifies this
      ensures Valid() && boxes == old(boxes) - multiset{address}
      ensures bit < SLOTS && address == Slot(bit) && bitmap == old(bitmap)[bit := false]
    {
      bit := SlotOf(address);
      var index := IndexOf(address, bit);
      BoxDropped(bitmap, boxes, bit);
      SetUsed(index, false);
      boxes := boxes - multiset{address};
    }

    lemma SlotOf(address: nat) returns (bit: nat)
      requires Valid() && address in boxes
      ensures bit < SLOTS && address == Slot(bit)
    {
      bit :| bit < SLOTS && address == Slot(bit);
    }

    /** With the box gone from its slot, all bits are right again. */
    lemma BoxDropped(bits: Bits, live: multiset<nat>, bit: nat)
      requires BitsRight(bits, live) && bit < SLOTS && Slot(bit) in live
      ensures BitsRight(bits[bit := false], live - multiset{Slot(bit)})
    {
      SlotsDiffer();
    }

    /** The index arithmetic of `deallocate`. */
    method IndexOf(address: nat, ghost bit: nat) returns (index: nat)
      requires size > 0 && address == Slot(bit)
      ensures index == bit
    {
      var x := address - start;
      assert x == (x / size) * size + x % size;
      Quotient(x, bit, x / size, x % size, size);
      index := x / size;
    }

    /** Whatever other callers do in between. */
    method RunOthers(actions: seq<Action>)
      requires Valid()
      modifies this
      ensures Valid() && bitmap == Effects(old(bitmap), actions)
    {
      for k := 0 to |actions|
        invariant Valid() && bitmap == Effects(old(bitmap), actions[..k])
      {
        assert actions[..k + 1][..k] == actions[..k];
        RunOther(actions[k]);
      }
      assert actions[..|actions|] == actions;
    }

    method RunOther(action: Action)
      requires Valid()
      modifies this
      ensures Valid() && bitmap == Effect(old(bitmap), action)
    {
      match action {
        case LookAt(bit) =>
          if bit < SLOTS {
            var _ := TryBit(bit);
          }
        case DropAt(bit) =>
          if bit < SLOTS && bitmap[bit] {
            var _ := Deallocate(Slot(bit));
          }
      }
    }

    /** The part of `allocate` for one bit. */
    method Look(actions: seq<Action>, bit: nat) returns (r: Option<nat>, ghost before: multiset<nat>)
      requires Valid() && bit < SLOTS
      modifies this
      ensures Valid() && (r.None? <==> Effects(old(bitmap), actions)[bit])
      ensures r.None? ==> bitmap == Effects(old(bitmap), actions)
      ensures r.Some? ==> r.value == Slot(bit) && r.value !in before && boxes == before + multiset{r.value}
    {
      RunOthers(actions);
      before := boxes;
      r := TryBit(bit);
    }

    /**
     `allocate`, with whatever other callers do before each of its locked sections: it takes the
     first slot whose bit is clear when it gets to it, and fails only if every bit is set then.
     `before` are the live boxes just before it takes the slot.
     */
    method Allocate(others: seq<seq<Action>>) returns (r: Option<nat>, ghost bit: nat, ghost before: multiset<nat>)
      requires Valid() && |others| == SLOTS
      modifies this
      ensures Valid()
      ensures r.Some? ==> r.value == Slot(bit) && r.value !in before && boxes == before + multiset{r.value}
      ensures r.Some? ==> FirstClear(old(bitmap), others, bit)
      ensures r.None? ==> forall k: nat :: k < SLOTS ==> Seen(old(bitmap), others, k)[k]
    {
      ghost var bits := bitmap;
      before := boxes;
      for k := 0 to SLOTS
        invariant Valid() && bitmap == if k == 0 then bits else Seen(bits, others, k - 1)
        invariant forall j: nat :: j < k ==> Seen(bits, others, j)[j]
      {
        r, before := Look(others[k], k);
        if r.Some? {
          bit := k;
          return;
        }
      }
      return None, 0, boxes;
    }
  }
}
