/**
 Finding the usable physical memory: the areas of the memory map, with the areas already in use
 taken out of them one after the other.
 */
module MemoryMap {
  import opened Mmu

  datatype Range = Range(start: nat, end: nat)

  predicate In(r: Range, a: nat) {
    r.start <= a < r.end
  }

  predicate InAny(rs: seq<Range>, a: nat) {
    exists i :: 0 <= i < |rs| && In(rs[i], a)
  }

  /** Start does not exceed end, as the source demands of every range. */
  predicate Ordered(r: Range) {
    r.start <= r.end
  }

  predicate AllOrdered(rs: seq<Range>) {
    forall i :: 0 <= i < |rs| ==> Ordered(rs[i])
  }

  /** `range_sub`. */
  function RangeSub(main: Range, sub: Range): (Option<Range>, Option<Range>) {
    if sub.start <= main.start then
      if sub.end < main.end then (None, Some(Range(sub.end, main.end))) else (None, None)
    else if sub.start < main.end then
      if sub.end >= main.end then (Some(Range(main.start, sub.start)), None)
      else (Some(Range(main.start, sub.start)), Some(Range(sub.end, main.end)))
    else (Some(main), None)
  }

  function Pieces(main: Range, sub: Range): seq<Range> {
    var (first, second) := RangeSub(main, sub);
    (if first.Some? then [first.value] else []) + (if second.Some? then [second.value] else [])
  }

  /** What a hole below the range adds: the addresses between the two. */
  predicate Phantom(main: Range, sub: Range, a: nat) {
    sub.end <= a < main.start
  }

  /** The meaning of `range_sub`, for every range and every hole. */
  lemma PiecesMean(main: Range, sub: Range, a: nat)
    requires Ordered(main) && Ordered(sub)
    ensures InAny(Pieces(main, sub), a) <==> (In(main, a) && !In(sub, a)) || Phantom(main, sub, a)
    ensures AllOrdered(Pieces(main, sub))
  {
    var (first, second) := RangeSub(main, sub);
    var ps := Pieces(main, sub);
    if first.Some? { assert ps[0] == first.value; }
    if second.Some? { assert ps[|ps| - 1] == second.value; }
    assert InAny(ps, a) <==> (first.Some? && In(first.value, a)) || (second.Some? && In(second.value, a));
  }

  /** No piece has an address of the hole. */
  lemma PiecesMissHole(main: Range, sub: Range, a: nat)
    requires Ordered(main) && Ordered(sub) && In(sub, a)
    ensures !InAny(Pieces(main, sub), a)
  {
    PiecesMean(main, sub, a);
  }

  ghost predicate SubtractsExactly(main: Range, sub: Range) {
    forall a: nat :: InAny(Pieces(main, sub), a) <==> In(main, a) && !In(sub, a)
  }

  /** The pieces are the range without the hole exactly when the hole does not end below the range. */
  lemma ExactIff(main: Range, sub: Range)
    requires Ordered(main) && Ordered(sub)
    ensures SubtractsExactly(main, sub) <==> sub.end >= main.start
  {
    forall a: nat ensures InAny(Pieces(main, sub), a) <==> (In(main, a) && !In(sub, a)) || Phantom(main, sub, a) {
      PiecesMean(main, sub, a);
    }
    if sub.end < main.start {
      assert Phantom(main, sub, sub.end) && !In(main, sub.end);
    }
  }

  /** One stage of the chain: the hole taken out of every area. */
  function TakeOut(areas: seq<Range>, hole: Range): seq<Range> {
    if areas == [] then [] else Pieces(areas[0], hole) + TakeOut(areas[1..], hole)
  }

  lemma InConcat(xs: seq<Range>, ys: seq<Range>, a: nat)
    ensures InAny(xs + ys, a) <==> InAny(xs, a) || InAny(ys, a)
  {
    if InAny(xs, a) {
      var i :| 0 <= i < |xs| && In(xs[i], a);
      assert In((xs + ys)[i], a);
    }
    if InAny(ys, a) {
      var i :| 0 <= i < |ys| && In(ys[i], a);
      assert In((xs + ys)[|xs| + i], a);
    }
  }

  ghost predicate AnyPhantom(areas: seq<Range>, hole: Range, a: nat) {
    exists i :: 0 <= i < |areas| && Phantom(areas[i], hole, a)
  }

  lemma {:induction false} TakeOutMeans(areas: seq<Range>, hole: Range, a: nat)
    requires AllOrdered(areas) && Ordered(hole)
    ensures InAny(TakeOut(areas, hole), a) <==> (InAny(areas, a) && !In(hole, a)) || AnyPhantom(areas, hole, a)
    ensures AllOrdered(TakeOut(areas, hole))
  {
    if areas != [] {
      var rest := areas[1..];
      assert areas == [areas[0]] + rest;
      TakeOutMeans(rest, hole, a);
      PiecesMean(areas[0], hole, a);
      InConcat(Pieces(areas[0], hole), TakeOut(rest, hole), a);
      InConcat([areas[0]], rest, a);
      assert InAny([areas[0]], a) <==> In(areas[0], a) by {
        if In(areas[0], a) { assert In([areas[0]][0], a); }
      }
      assert AnyPhantom(areas, hole, a) <==> Phantom(areas[0], hole, a) || AnyPhantom(rest, hole, a) by {
        if AnyPhantom(rest, hole, a) {
          var i :| 0 <= i < |rest| && Phantom(rest[i], hole, a);
          assert Phantom(areas[i + 1], hole, a);
        }
        if AnyPhantom(areas, hole, a) {
          var i :| 0 <= i < |areas| && Phantom(areas[i], hole, a);
          assert i > 0 ==> Phantom(rest[i - 1], hole, a);
        }
      }
    }
  }

  /** Exactly the addresses of the areas outside the hole. */
  ghost predicate TakesOutExactly(areas: seq<Range>, hole: Range) {
    forall a: nat :: InAny(TakeOut(areas, hole), a) <==> InAny(areas, a) && !In(hole, a)
  }

  /** Whatever lies between the hole and an area above it is in an area anyway. */
  ghost predicate NothingBetween(areas: seq<Range>, hole: Range) {
    forall i, a: nat {:trigger Phantom(areas[i], hole, a)} ::
      0 <= i < |areas| && Phantom(areas[i], hole, a) ==> InAny(areas, a)
  }

  /** A stage is exact exactly when there is nothing else between the hole and an area above it. */
  lemma StageExactIff(areas: seq<Range>, hole: Range)
    requires AllOrdered(areas) && Ordered(hole)
    ensures TakesOutExactly(areas, hole) <==> NothingBetween(areas, hole)
  {
    forall a: nat
      ensures InAny(TakeOut(areas, hole), a) <==> (InAny(areas, a) && !In(hole, a)) || AnyPhantom(areas, hole, a)
    {
      TakeOutMeans(areas, hole, a);
    }
    if TakesOutExactly(areas, hole) {
      forall i, a: nat | 0 <= i < |areas| && Phantom(areas[i], hole, a) ensures InAny(areas, a) {
        assert AnyPhantom(areas, hole, a);
      }
    }
    if NothingBetween(areas, hole) {
      forall a: nat ensures InAny(TakeOut(areas, hole), a) <==> InAny(areas, a) && !In(hole, a) {
        if AnyPhantom(areas, hole, a) {
          var i :| 0 <= i < |areas| && Phantom(areas[i], hole, a);
        }
      }
    }
  }

  /** The chain: every hole in turn, each taken out of what the one before left. */
  function TakeOutAll(areas: seq<Range>, holes: seq<Range>): seq<Range>
    decreases |holes|
  {
    if holes == [] then areas else TakeOutAll(TakeOut(areas, holes[0]), holes[1..])
  }

  /** Some stage adds the address, and no later hole takes it out. */
  ghost predicate Added(areas: seq<Range>, holes: seq<Range>, a: nat)
    decreases |holes|
  {
    holes != [] &&
    (|| (AnyPhantom(areas, holes[0], a) && !InAny(holes[1..], a))
     || Added(TakeOut(areas, holes[0]), holes[1..], a))
  }

  lemma HeadAndRest(rs: seq<Range>, a: nat)
    requires rs != []
    ensures InAny(rs, a) <==> In(rs[0], a) || InAny(rs[1..], a)
  {
    assert rs == [rs[0]] + rs[1..];
    InConcat([rs[0]], rs[1..], a);
    if In(rs[0], a) { assert In([rs[0]][0], a); }
  }

  /** The meaning of the chain, for every memory map and every list of holes. */
  lemma {:induction false} ChainMeans(areas: seq<Range>, holes: seq<Range>, a: nat)
    requires AllOrdered(areas) && AllOrdered(holes)
    ensures InAny(TakeOutAll(areas, holes), a) <==> (InAny(areas, a) && !InAny(holes, a)) || Added(areas, holes, a)
    decreases |holes|
  {
    if holes != [] {
      TakeOutMeans(areas, holes[0], a);
      ChainMeans(TakeOut(areas, holes[0]), holes[1..], a);
      HeadAndRest(holes, a);
      assert AnyPhantom(areas, holes[0], a) ==> !In(holes[0], a);
    }
  }

  ghost predicate ChainIsExact(areas: seq<Range>, holes: seq<Range>) {
    forall a: nat :: InAny(TakeOutAll(areas, holes), a) <==> InAny(areas, a) && !InAny(holes, a)
  }

  /** The chain is exact if and only if whatever its stages add is in the memory map and no hole anyway. */
  lemma ChainExactIff(areas: seq<Range>, holes: seq<Range>)
    requires AllOrdered(areas) && AllOrdered(holes)
    ensures ChainIsExact(areas, holes) <==> forall a: nat :: Added(areas, holes, a) ==> InAny(areas, a) && !InAny(holes, a)
  {
    forall a: nat
      ensures InAny(TakeOutAll(areas, holes), a) <==> (InAny(areas, a) && !InAny(holes, a)) || Added(areas, holes, a)
    {
      ChainMeans(areas, holes, a);
    }
  }

  /** No hole ends below the start of an area it is taken from. */
  ghost predicate NoHoleBelow(areas: seq<Range>, holes: seq<Range>)
    decreases |holes|
  {
    holes == [] ||
    (&& (forall i :: 0 <= i < |areas| ==> holes[0].end >= areas[i].start)
     && NoHoleBelow(TakeOut(areas, holes[0]), holes[1..]))
  }

  lemma NoneBelowExact(areas: seq<Range>, hole: Range)
    requires AllOrdered(areas) && Ordered(hole) && forall i :: 0 <= i < |areas| ==> hole.end >= areas[i].start
    ensures TakesOutExactly(areas, hole) && AllOrdered(TakeOut(areas, hole))
  {
    StageExactIff(areas, hole);
    TakeOutMeans(areas, hole, 0);
  }

  /** Then the chain leaves exactly the addresses of the memory map that are in no hole. */
  lemma {:induction false} ChainExact(areas: seq<Range>, holes: seq<Range>, a: nat)
    requires AllOrdered(areas) && AllOrdered(holes) && NoHoleBelow(areas, holes)
    ensures InAny(TakeOutAll(areas, holes), a) <==> InAny(areas, a) && !InAny(holes, a)
    decreases |holes|
  {
    if holes != [] {
      NoneBelowExact(areas, holes[0]);
      ChainExact(TakeOut(areas, holes[0]), holes[1..], a);
      HeadAndRest(holes, a);
    }
  }

  ghost predicate StartBelow(areas: seq<Range>, limit: nat) {
    forall i :: 0 <= i < |areas| ==> areas[i].start <= limit
  }

  lemma {:induction false} TakeOutStarts(areas: seq<Range>, hole: Range)
    requires StartBelow(areas, hole.end)
    ensures StartBelow(TakeOut(areas, hole), hole.end)
  {
    if areas != [] {
      TakeOutStarts(areas[1..], hole);
    }
  }

  /** A condition on the memory map and the holes themselves under which no hole ends below an area. */
  lemma {:induction false} RisingHoles(areas: seq<Range>, holes: seq<Range>)
    requires AllOrdered(areas) && AllOrdered(holes) && (holes != [] ==> StartBelow(areas, holes[0].end))
    requires forall i, j :: 0 <= i < j < |holes| ==> holes[i].end <= holes[j].end
    ensures NoHoleBelow(areas, holes)
    decreases |holes|
  {
    if holes != [] {
      TakeOutStarts(areas, holes[0]);
      TakeOutMeans(areas, holes[0], 0);
      RisingHoles(TakeOut(areas, holes[0]), holes[1..]);
    }
  }

  /** The three areas in use, given as inclusive ranges: the kernel from address 0, boot information, bootstrap heap. */
  function UsedAreas(kernelEnd: nat, bootInfo: Range, bootstrapHeap: Range): seq<Range> {
    [Range(0, kernelEnd + 1), Range(bootInfo.start, bootInfo.end + 1), Range(bootstrapHeap.start, bootstrapHeap.end + 1)]
  }

  function UsableAreas(memoryMap: seq<Range>, kernelEnd: nat, bootInfo: Range, bootstrapHeap: Range): seq<Range> {
    TakeOutAll(memoryMap, UsedAreas(kernelEnd, bootInfo, bootstrapHeap))
  }

  lemma UsableExactly(memoryMap: seq<Range>, kernelEnd: nat, bootInfo: Range, bootstrapHeap: Range, a: nat)
    requires AllOrdered(memoryMap) && Ordered(bootInfo) && Ordered(bootstrapHeap)
    requires NoHoleBelow(memoryMap, UsedAreas(kernelEnd, bootInfo, bootstrapHeap))
    ensures InAny(UsableAreas(memoryMap, kernelEnd, bootInfo, bootstrapHeap), a) <==>
            && InAny(memoryMap, a) && a > kernelEnd
            && !(bootInfo.start <= a <= bootInfo.end) && !(bootstrapHeap.start <= a <= bootstrapHeap.end)
  {
    var holes := UsedAreas(kernelEnd, bootInfo, bootstrapHeap);
    ChainExact(memoryMap, holes, a);
    assert InAny(holes, a) <==> In(holes[0], a) || In(holes[1], a) || In(holes[2], a);
  }

  // ---------------------------------------------------------------- the three holes of the kernel

  /** Some area ends above `a`. */
  predicate EndsAbove(areas: seq<Range>, a: nat) {
    exists i :: 0 <= i < |areas| && a < areas[i].end
  }

  /** Every area is a nonempty one that starts at `k`. */
  predicate AllStartAt(areas: seq<Range>, k: nat) {
    forall i :: 0 <= i < |areas| ==> areas[i].start == k < areas[i].end
  }

  predicate HasStart(areas: seq<Range>, x: nat) {
    exists i :: 0 <= i < |areas| && areas[i].start == x
  }

  /** A hole from address 0 leaves of each area what is above the hole, down to the hole. */
  lemma {:induction false} StartsAfterFirst(areas: seq<Range>, k: nat)
    ensures AllStartAt(TakeOut(areas, Range(0, k)), k)
  {
    if areas != [] {
      StartsAfterFirst(areas[1..], k);
      assert Pieces(areas[0], Range(0, k)) == if k < areas[0].end then [Range(k, areas[0].end)] else [];
    }
  }

  lemma {:induction false} EndsAfterFirst(areas: seq<Range>, k: nat, a: nat)
    ensures EndsAbove(TakeOut(areas, Range(0, k)), a) <==> EndsAbove(areas, if a < k then k else a)
  {
    if areas != [] {
      EndsAfterFirst(areas[1..], k, a);
      var pieces, x := Pieces(areas[0], Range(0, k)), if a < k then k else a;
      assert pieces == if k < areas[0].end then [Range(k, areas[0].end)] else [];
      EndsAboveConcat(pieces, TakeOut(areas[1..], Range(0, k)), a);
      EndsAboveHead(areas, x);
      assert EndsAbove(pieces, a) <==> x < areas[0].end by {
        if x < areas[0].end { assert a < pieces[0].end; }
      }
    }
  }

  lemma EndsAboveHead(areas: seq<Range>, a: nat)
    requires areas != []
    ensures EndsAbove(areas, a) <==> a < areas[0].end || EndsAbove(areas[1..], a)
  {
    assert areas == [areas[0]] + areas[1..];
    EndsAboveConcat([areas[0]], areas[1..], a);
    if a < areas[0].end { assert a < [areas[0]][0].end; }
  }

  lemma EndsAboveConcat(xs: seq<Range>, ys: seq<Range>, a: nat)
    ensures EndsAbove(xs + ys, a) <==> EndsAbove(xs, a) || EndsAbove(ys, a)
  {
    if EndsAbove(xs, a) {
      var i :| 0 <= i < |xs| && a < xs[i].end;
      assert (xs + ys)[i] == xs[i];
    }
    if EndsAbove(ys, a) {
      var i :| 0 <= i < |ys| && a < ys[i].end;
      assert (xs + ys)[|xs| + i] == ys[i];
    }
  }

  lemma HasStartConcat(xs: seq<Range>, ys: seq<Range>, x: nat)
    ensures HasStart(xs + ys, x) <==> HasStart(xs, x) || HasStart(ys, x)
  {
    if HasStart(xs, x) {
      var i :| 0 <= i < |xs| && xs[i].start == x;
      assert (xs + ys)[i] == xs[i];
    }
    if HasStart(ys, x) {
      var i :| 0 <= i < |ys| && ys[i].start == x;
      assert (xs + ys)[|xs| + i] == ys[i];
    }
  }

  /** Where the pieces start that a hole leaves of areas with a common start. */
  lemma {:induction false} StartsAfterHole(areas: seq<Range>, k: nat, hole: Range, x: nat)
    requires AllStartAt(areas, k) && Ordered(hole)
    ensures HasStart(TakeOut(areas, hole), x) <==>
            (x == k && hole.start > k && areas != []) || (x == hole.end && EndsAbove(areas, hole.end))
  {
    if areas != [] {
      StartsAfterHole(areas[1..], k, hole, x);
      EndsAboveHead(areas, hole.end);
      HasStartConcat(Pieces(areas[0], hole), TakeOut(areas[1..], hole), x);
      OnePieceStarts(areas[0], hole, x);
    }
  }

  lemma OnePieceStarts(main: Range, hole: Range, x: nat)
    requires main.start < main.end && Ordered(hole)
    ensures HasStart(Pieces(main, hole), x) <==>
            (x == main.start && hole.start > main.start) || (x == hole.end && hole.end < main.end)
  {
    var (first, second) := RangeSub(main, hole);
    var ps := Pieces(main, hole);
    if first.Some? { assert ps[0] == first.value; }
    if second.Some? { assert ps[|ps| - 1] == second.value; }
  }

  /** What the chain leaves for the kernel's three holes, in terms of the memory map and the holes alone. */
  predicate Usable(memoryMap: seq<Range>, k: nat, h2: Range, h3: Range, a: nat) {
    EndsAbove(memoryMap, k) &&
    (|| (k <= a && EndsAbove(memoryMap, a) && !In(h2, a) && !In(h3, a))
     || (h2.end <= a < k && !In(h3, a))
     || (h3.end <= a < k < h2.start)
     || (h3.end <= a < h2.end && EndsAbove(memoryMap, if k < h2.end then h2.end else k)))
  }

  lemma UsableMeans(memoryMap: seq<Range>, kernelEnd: nat, bootInfo: Range, bootstrapHeap: Range, a: nat)
    requires AllOrdered(memoryMap) && Ordered(bootInfo) && Ordered(bootstrapHeap)
    ensures var holes := UsedAreas(kernelEnd, bootInfo, bootstrapHeap);
            InAny(UsableAreas(memoryMap, kernelEnd, bootInfo, bootstrapHeap), a) <==>
            Usable(memoryMap, kernelEnd + 1, holes[1], holes[2], a)
  {
    var k, holes := kernelEnd + 1, UsedAreas(kernelEnd, bootInfo, bootstrapHeap);
    var one := TakeOut(memoryMap, holes[0]);
    var two := TakeOut(one, holes[1]);
    assert UsableAreas(memoryMap, kernelEnd, bootInfo, bootstrapHeap) == TakeOut(two, holes[2]) by {
      assert TakeOutAll(memoryMap, holes) == TakeOutAll(one, holes[1..]) && holes[1..][0] == holes[1];
      assert TakeOutAll(one, holes[1..]) == TakeOutAll(two, holes[1..][1..]) && holes[1..][1..][0] == holes[2];
      assert TakeOutAll(TakeOut(two, holes[2]), holes[1..][1..][1..]) == TakeOut(two, holes[2]);
    }
    FirstLeaves(memoryMap, k, a);
    SecondLeaves(memoryMap, k, holes[1], a);
    ThirdPhantoms(memoryMap, k, holes[1], holes[2], a);
    TakeOutMeans(two, holes[2], a);
  }

  lemma FirstLeaves(memoryMap: seq<Range>, k: nat, a: nat)
    requires AllOrdered(memoryMap)
    ensures var one := TakeOut(memoryMap, Range(0, k));
            AllOrdered(one) && (InAny(one, a) <==> k <= a && EndsAbove(memoryMap, a)) && (one != [] <==> EndsAbove(memoryMap, k))
  {
    var one := TakeOut(memoryMap, Range(0, k));
    StartsAfterFirst(memoryMap, k);
    EndsAfterFirst(memoryMap, k, a);
    EndsAfterFirst(memoryMap, k, k);
    assert one != [] ==> k < one[0].end;
    if k <= a && EndsAbove(one, a) {
      var i :| 0 <= i < |one| && a < one[i].end;
      assert In(one[i], a);
    }
  }

  lemma SecondLeaves(memoryMap: seq<Range>, k: nat, hole: Range, a: nat)
    requires AllOrdered(memoryMap) && Ordered(hole)
    ensures var two := TakeOut(TakeOut(memoryMap, Range(0, k)), hole);
            && AllOrdered(two)
            && (InAny(two, a) <==> (k <= a && EndsAbove(memoryMap, a) && !In(hole, a))
                                   || (hole.end <= a < k && EndsAbove(memoryMap, k)))
  {
    var one := TakeOut(memoryMap, Range(0, k));
    FirstLeaves(memoryMap, k, a);
    StartsAfterFirst(memoryMap, k);
    TakeOutMeans(one, hole, a);
    if one != [] && hole.end <= a < k { assert Phantom(one[0], hole, a); }
  }

  lemma ThirdPhantoms(memoryMap: seq<Range>, k: nat, h2: Range, h3: Range, a: nat)
    requires AllOrdered(memoryMap) && Ordered(h2)
    ensures var two := TakeOut(TakeOut(memoryMap, Range(0, k)), h2);
            AnyPhantom(two, h3, a) <==>
            || (h3.end <= a < k < h2.start && EndsAbove(memoryMap, k))
            || (h3.end <= a < h2.end && EndsAbove(memoryMap, if k < h2.end then h2.end else k))
  {
    var one := TakeOut(memoryMap, Range(0, k));
    var two := TakeOut(one, h2);
    FirstLeaves(memoryMap, k, a);
    StartsAfterFirst(memoryMap, k);
    EndsAfterFirst(memoryMap, k, h2.end);
    StartsAfterHole(one, k, h2, k);
    StartsAfterHole(one, k, h2, h2.end);
    if AnyPhantom(two, h3, a) {
      var i :| 0 <= i < |two| && Phantom(two[i], h3, a);
      StartsAfterHole(one, k, h2, two[i].start);
      assert HasStart(two, two[i].start);
    }
    if h3.end <= a < k && HasStart(two, k) {
      var i :| 0 <= i < |two| && two[i].start == k;
      assert Phantom(two[i], h3, a);
    }
    if h3.end <= a < h2.end && HasStart(two, h2.end) {
      var i :| 0 <= i < |two| && two[i].start == h2.end;
      assert Phantom(two[i], h3, a);
    }
  }

  /** The memory above the kernel and outside the holes, as it should be. */
  ghost predicate UsableIsExact(memoryMap: seq<Range>, k: nat, h2: Range, h3: Range) {
    forall a: nat :: Usable(memoryMap, k, h2, h3, a) <==> InAny(memoryMap, a) && k <= a && !In(h2, a) && !In(h3, a)
  }

  /** Above the kernel and outside the holes, the memory map has no gaps. */
  ghost predicate NoGaps(memoryMap: seq<Range>, k: nat, h2: Range, h3: Range) {
    forall a: nat :: k <= a && EndsAbove(memoryMap, a) && !In(h2, a) && !In(h3, a) ==> InAny(memoryMap, a)
  }

  /** ... and no hole brings back what an earlier one took out. */
  predicate NothingBack(memoryMap: seq<Range>, k: nat, h2: Range, h3: Range) {
    && (h2.end >= k || (h3.start <= h2.end && h3.end >= k))
    && (h3.end >= k || h2.start <= k)
    && (h3.end >= h2.end || !EndsAbove(memoryMap, if k < h2.end then h2.end else k))
  }

  /**
   The usable memory is what is in the memory map and in no area in use, if and only if there is none
   above the kernel, or the map has no gaps there and no hole brings anything back.
   */
  lemma UsableExactIff(memoryMap: seq<Range>, kernelEnd: nat, bootInfo: Range, bootstrapHeap: Range)
    requires AllOrdered(memoryMap) && Ordered(bootInfo) && Ordered(bootstrapHeap)
    ensures var holes := UsedAreas(kernelEnd, bootInfo, bootstrapHeap);
            ChainIsExact(memoryMap, holes) <==>
            || !EndsAbove(memoryMap, kernelEnd + 1)
            || (NoGaps(memoryMap, kernelEnd + 1, holes[1], holes[2]) && NothingBack(memoryMap, kernelEnd + 1, holes[1], holes[2]))
  {
    var k, holes := kernelEnd + 1, UsedAreas(kernelEnd, bootInfo, bootstrapHeap);
    forall a: nat
      ensures InAny(TakeOutAll(memoryMap, holes), a) <==> Usable(memoryMap, k, holes[1], holes[2], a)
      ensures InAny(holes, a) <==> a < k || In(holes[1], a) || In(holes[2], a)
    {
      UsableMeans(memoryMap, kernelEnd, bootInfo, bootstrapHeap, a);
      if a < k { assert In(holes[0], a); }
    }
    ExactCondition(memoryMap, k, holes[1], holes[2]);
  }

  lemma ExactCondition(memoryMap: seq<Range>, k: nat, h2: Range, h3: Range)
    requires h2.start < h2.end
    ensures UsableIsExact(memoryMap, k, h2, h3) <==>
            !EndsAbove(memoryMap, k) || (NoGaps(memoryMap, k, h2, h3) && NothingBack(memoryMap, k, h2, h3))
  {
    forall a: nat | InAny(memoryMap, a) ensures EndsAbove(memoryMap, a) && (k <= a ==> EndsAbove(memoryMap, k)) {
      var i :| 0 <= i < |memoryMap| && In(memoryMap[i], a);
    }
    if UsableIsExact(memoryMap, k, h2, h3) && EndsAbove(memoryMap, k) {
      assert Usable(memoryMap, k, h2, h3, h2.end) ==> k <= h2.end;
      assert Usable(memoryMap, k, h2, h3, h3.end) ==> k <= h3.end;
      assert Usable(memoryMap, k, h2, h3, h2.end - 1) ==> !In(h2, h2.end - 1);
      forall a: nat | k <= a && EndsAbove(memoryMap, a) && !In(h2, a) && !In(h3, a) ensures InAny(memoryMap, a) {
        assert Usable(memoryMap, k, h2, h3, a);
      }
    }
  }

  /** A hole that ends below an area puts addresses on the list that are in no area. */
  lemma HoleBelowExample()
    ensures var areas, hole := [Range(0x10_0000, 0x800_0000), Range(0x1_0000_0000, 0x1_4000_0000)], Range(0, 0x20_0000);
            InAny(TakeOut(areas, hole), 0xFEC0_0000) && !InAny(areas, 0xFEC0_0000)
  {
    var areas, hole := [Range(0x10_0000, 0x800_0000), Range(0x1_0000_0000, 0x1_4000_0000)], Range(0, 0x20_0000);
    assert Phantom(areas[1], hole, 0xFEC0_0000);
    TakeOutMeans(areas, hole, 0xFEC0_0000);
  }

  /** A later hole that ends below an earlier one puts addresses of the earlier one back on the list. */
  lemma HoleBackExample()
    ensures var areas, holes := [Range(0, 0x800_0000)], [Range(0, 0x20_0000), Range(0x1_0000, 0x1_1000)];
            InAny(TakeOutAll(areas, holes), 0x10_0000) && InAny(holes, 0x10_0000)
  {
    var areas, holes := [Range(0, 0x800_0000)], [Range(0, 0x20_0000), Range(0x1_0000, 0x1_1000)];
    var left := [Range(0x20_0000, 0x800_0000)];
    assert TakeOut(areas, holes[0]) == left;
    assert Phantom(left[0], holes[1], 0x10_0000);
    TakeOutMeans(left, holes[1], 0x10_0000);
    assert TakeOutAll(areas, holes) == TakeOutAll(left, holes[1..]);
    assert TakeOutAll(left, holes[1..]) == TakeOut(left, holes[1]);
    assert In(holes[0], 0x10_0000);
  }
}
