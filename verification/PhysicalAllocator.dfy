/**
 The physical frame allocator: one buddy tree for each of 256 gibibytes, searched without waiting
 for trees that other cores have locked.
 */
module PhysicalAllocators {
  import opened Util
  import opened Mmu
  import opened Buddy
  import opened MemoryMap

  const TREES: nat := 256
  const MAX_ORDER: nat := 18
  const TREE_FRAMES: nat := 0x4_0000
  const TREE_BYTES: nat := 0x4000_0000

  /** A tree, by its free base blocks of one frame each; none where there is no tree. */
  type TreeSlot = Option<set<nat>>

  ghost predicate FitsIn(t: TreeSlot, b: nat, order: nat) {
    t.Some? && Fits(t.value, MAX_ORDER, b, order)
  }

  /** There is no tree, or no free block of the order in it. */
  ghost predicate Exhausted(t: TreeSlot, order: nat) {
    forall b :: !FitsIn(t, b, order)
  }

  // ---------------------------------------------------------------- the search

  datatype TryState = Tried | WasInUse | Untried

  /** What an attempt meets: whether the tree it tries is locked, and what the trees hold at that time. */
  datatype Attempt = Attempt(busy: bool, trees: seq<TreeSlot>)

  /** The first index from `i` on with the given state, or the length. */
  function FirstOf(tried: seq<TryState>, state: TryState, i: nat): nat
    requires i <= |tried|
    decreases |tried| - i
  {
    if i == |tried| then i else if tried[i] == state then i else FirstOf(tried, state, i + 1)
  }

  /** The index to try next: the first not tried yet, or else the first that was in use; the length when all are done. */
  function NextOf(tried: seq<TryState>): nat {
    var untried := FirstOf(tried, Untried, 0);
    if untried < |tried| then untried else FirstOf(tried, WasInUse, 0)
  }

  lemma {:induction false} FirstOfMeans(tried: seq<TryState>, state: TryState, i: nat)
    requires i <= |tried|
    ensures i <= FirstOf(tried, state, i) <= |tried|
    ensures FirstOf(tried, state, i) < |tried| ==> tried[FirstOf(tried, state, i)] == state
    ensures forall j :: i <= j < FirstOf(tried, state, i) ==> tried[j] != state
    decreases |tried| - i
  {
    if i < |tried| && tried[i] != state { FirstOfMeans(tried, state, i + 1); }
  }

  lemma NextOfMeans(tried: seq<TryState>)
    ensures NextOf(tried) <= |tried|
    ensures NextOf(tried) < |tried| ==> !tried[NextOf(tried)].Tried?
    ensures NextOf(tried) == |tried| <==> forall i :: 0 <= i < |tried| ==> tried[i].Tried?
  {
    FirstOfMeans(tried, Untried, 0);
    FirstOfMeans(tried, WasInUse, 0);
  }

  /** `position`, as a loop over the array. */
  method Position(tried: array<TryState>, state: TryState) returns (r: Option<nat>)
    ensures r == if FirstOf(tried[..], state, 0) < tried.Length then Some(FirstOf(tried[..], state, 0)) else None
  {
    for i := 0 to tried.Length
      invariant FirstOf(tried[..], state, 0) == FirstOf(tried[..], state, i)
    {
      if tried[i] == state {
        return Some(i);
      }
    }
    return None;
  }

  /** A block of the order in a tree, if there is one. */
  method TreeAllocate(t: set<nat>, order: nat) returns (r: Option<nat>)
    ensures r.Some? ==> Fits(t, MAX_ORDER, r.value, order)
    ensures r.None? ==> forall b :: !Fits(t, MAX_ORDER, b, order)
  {
    if b :| 0 <= b < Pow2(MAX_ORDER) && Fits(t, MAX_ORDER, b, order) {
      return Some(b);
    }
    return None;
  }

  /** The states after `k` attempts none of which allocated. */
  ghost function Marks(env: nat -> Attempt, k: nat): (t: seq<TryState>)
    ensures |t| == TREES
  {
    if k == 0 then seq(TREES, _ => Untried)
    else
      var t := Marks(env, k - 1);
      if NextOf(t) >= TREES then t else t[NextOf(t) := if env(k - 1).busy then WasInUse else Tried]
  }

  /** The index attempt `k` tries. */
  ghost function Tries(env: nat -> Attempt, k: nat): nat {
    NextOf(Marks(env, k))
  }

  /** Attempt `k` looks at a tree and finds no block: it is locked, absent, or has none. */
  ghost predicate Misses(env: nat -> Attempt, order: nat, k: nat) {
    Tries(env, k) < |env(k).trees| && (env(k).busy || Exhausted(env(k).trees[Tries(env, k)], order))
  }

  ghost predicate AllMiss(env: nat -> Attempt, order: nat, n: nat) {
    forall k :: 0 <= k < n ==> Tries(env, k) < TREES && Misses(env, order, k)
  }

  /** Attempt `n` is the first to find a block, and it is this one. */
  ghost predicate FindsAt(env: nat -> Attempt, order: nat, n: nat, i: nat, b: nat) {
    && AllMiss(env, order, n) && i == Tries(env, n) < |env(n).trees| && !env(n).busy
    && FitsIn(env(n).trees[i], b, order)
  }

  /** After `n` attempts, all in vain, there is nothing left to try. */
  ghost predicate GivesUpAt(env: nat -> Attempt, order: nat, n: nat) {
    AllMiss(env, order, n) && Tries(env, n) == TREES
  }

  // ---------------------------------------------------------------- what the attempts amount to

  /** How many of the first `n` attempts found their tree locked. */
  ghost function Failures(env: nat -> Attempt, n: nat): nat {
    if n == 0 then 0 else Failures(env, n - 1) + if env(n - 1).busy then 1 else 0
  }

  /** How many of the first `n` states are `Tried`. */
  ghost function TriedCount(tried: seq<TryState>, n: nat): nat
    requires n <= |tried|
  {
    if n == 0 then 0 else TriedCount(tried, n - 1) + if tried[n - 1].Tried? then 1 else 0
  }

  lemma {:induction false} TriedCountUpdate(tried: seq<TryState>, n: nat, i: nat, s: TryState)
    requires i < |tried| && n <= |tried| && !tried[i].Tried?
    ensures TriedCount(tried[i := s], n) == TriedCount(tried, n) + if i < n && s.Tried? then 1 else 0
  {
    if n > 0 { TriedCountUpdate(tried, n - 1, i, s); }
  }

  lemma {:induction false} TriedCountBound(tried: seq<TryState>, n: nat)
    requires n <= |tried|
    ensures TriedCount(tried, n) <= n
    ensures TriedCount(tried, n) == n <==> forall i :: 0 <= i < n ==> tried[i].Tried?
  {
    if n > 0 { TriedCountBound(tried, n - 1); }
  }

  lemma {:induction false} NothingTried(tried: seq<TryState>, n: nat)
    requires n <= |tried| && forall i :: 0 <= i < |tried| ==> tried[i].Untried?
    ensures TriedCount(tried, n) == 0
  {
    if n > 0 { NothingTried(tried, n - 1); }
  }

  /** Every attempt in vain either met a lock or finished with one more tree. */
  lemma {:induction false} MarksCount(env: nat -> Attempt, order: nat, n: nat)
    requires AllMiss(env, order, n)
    ensures n == TriedCount(Marks(env, n), TREES) + Failures(env, n)
  {
    if n == 0 {
      NothingTried(Marks(env, 0), TREES);
    } else {
      assert AllMiss(env, order, n - 1) && Tries(env, n - 1) < TREES && Misses(env, order, n - 1);
      MarksCount(env, order, n - 1);
      var t := Marks(env, n - 1);
      NextOfMeans(t);
      TriedCountUpdate(t, TREES, NextOf(t), if env(n - 1).busy then WasInUse else Tried);
    }
  }

  /** A tree marked as tried was seen absent, or without a block of the order. */
  ghost predicate SeenExhausted(env: nat -> Attempt, order: nat, n: nat, i: nat) {
    exists k :: 0 <= k < n && Tries(env, k) == i < |env(k).trees| && !env(k).busy && Exhausted(env(k).trees[i], order)
  }

  lemma {:induction false} TriedWasSeen(env: nat -> Attempt, order: nat, n: nat, i: nat)
    requires AllMiss(env, order, n) && i < TREES && Marks(env, n)[i].Tried?
    ensures SeenExhausted(env, order, n, i)
  {
    assert Tries(env, n - 1) < TREES && Misses(env, order, n - 1);
    if Tries(env, n - 1) != i || env(n - 1).busy {
      NextOfMeans(Marks(env, n - 1));
      TriedWasSeen(env, order, n - 1, i);
    }
  }

  /** Giving up means that every tree was seen absent or exhausted, after exactly 256 attempts and the failed locks. */
  lemma GivingUpIsComplete(env: nat -> Attempt, order: nat, n: nat)
    requires GivesUpAt(env, order, n)
    ensures forall i :: 0 <= i < TREES ==> SeenExhausted(env, order, n, i)
    ensures n == TREES + Failures(env, n)
  {
    NextOfMeans(Marks(env, n));
    TriedCountBound(Marks(env, n), TREES);
    MarksCount(env, order, n);
    forall i | 0 <= i < TREES ensures SeenExhausted(env, order, n, i) {
      TriedWasSeen(env, order, n, i);
    }
  }

  /** And a block is found within that many attempts. */
  lemma FindingIsPrompt(env: nat -> Attempt, order: nat, n: nat, i: nat, b: nat)
    requires FindsAt(env, order, n, i, b) && i < TREES
    ensures n < TREES + Failures(env, n)
  {
    NextOfMeans(Marks(env, n));
    TriedCountBound(Marks(env, n), TREES);
    MarksCount(env, order, n);
  }

  // ---------------------------------------------------------------- in which order

  /** The first attempts leave their marks on the trees from the first on. */
  lemma {:induction false} MarksInOrder(env: nat -> Attempt, order: nat, k: nat)
    requires AllMiss(env, order, k) && k <= TREES
    ensures forall j :: 0 <= j < k ==> !Marks(env, k)[j].Untried?
    ensures forall j :: k <= j < TREES ==> Marks(env, k)[j].Untried?
    ensures Tries(env, k) == k || k == TREES
  {
    if k > 0 { MarksInOrder(env, order, k - 1); }
    var marks := Marks(env, k);
    FirstOfMeans(marks, Untried, 0);
    assert k < TREES ==> marks[k].Untried? && FirstOf(marks, Untried, 0) == k;
  }

  /** The first 256 attempts try the trees in order, whether or not some are locked. */
  lemma TriesInOrder(env: nat -> Attempt, order: nat, k: nat)
    requires AllMiss(env, order, k) && k < TREES
    ensures Tries(env, k) == k
  {
    MarksInOrder(env, order, k);
  }

  /** A tree that was seen is never tried again. */
  lemma {:induction false} SeenStaysTried(env: nat -> Attempt, order: nat, j: nat, k: nat)
    requires AllMiss(env, order, k) && j < k && !env(j).busy
    ensures Tries(env, j) < TREES && Marks(env, k)[Tries(env, j)].Tried?
  {
    assert Tries(env, j) < TREES && Misses(env, order, j);
    if k > j + 1 {
      assert AllMiss(env, order, k - 1);
      SeenStaysTried(env, order, j, k - 1);
      NextOfMeans(Marks(env, k - 1));
    }
  }

  /** A tree is tried again only if it was locked, and only after every tree was tried once. */
  lemma TriedAgain(env: nat -> Attempt, order: nat, j: nat, k: nat)
    requires AllMiss(env, order, k) && j < k && Tries(env, j) == Tries(env, k) < TREES
    ensures k >= TREES && env(j).busy
  {
    if k < TREES {
      assert AllMiss(env, order, j);
      TriesInOrder(env, order, j);
      TriesInOrder(env, order, k);
    }
    if !env(j).busy {
      SeenStaysTried(env, order, j, k);
      NextOfMeans(Marks(env, k));
    }
  }

  lemma {:induction false} NoneUntried(env: nat -> Attempt, order: nat, k: nat)
    requires AllMiss(env, order, k) && k >= TREES
    ensures forall i :: 0 <= i < TREES ==> !Marks(env, k)[i].Untried?
  {
    if k == TREES {
      MarksInOrder(env, order, k);
    } else {
      NoneUntried(env, order, k - 1);
    }
  }

  /** From then on it is the first tree that has not been seen. */
  lemma TriesFirstLeft(env: nat -> Attempt, order: nat, k: nat, i: nat)
    requires AllMiss(env, order, k) && k >= TREES && i < Tries(env, k)
    ensures SeenExhausted(env, order, k, i)
  {
    var marks := Marks(env, k);
    NoneUntried(env, order, k);
    NextOfMeans(marks);
    FirstOfMeans(marks, Untried, 0);
    FirstOfMeans(marks, WasInUse, 0);
    assert !marks[i].Untried? && marks[i] != WasInUse;
    TriedWasSeen(env, order, k, i);
  }

  /** Attempt `i` could take block `b` from tree `i`. */
  ghost predicate Offers(env: nat -> Attempt, order: nat, i: nat, b: nat) {
    i < TREES && i < |env(i).trees| && !env(i).busy && FitsIn(env(i).trees[i], b, order)
  }

  /** Such a block is not waited past, and not missed. */
  lemma NotPassedOver(env: nat -> Attempt, order: nat, i: nat, b: nat, n: nat)
    requires Offers(env, order, i, b)
    ensures AllMiss(env, order, n) ==> n <= i
    ensures !GivesUpAt(env, order, n)
  {
    if AllMiss(env, order, n) && n > i {
      assert AllMiss(env, order, i) && Misses(env, order, i);
      TriesInOrder(env, order, i);
    }
    if GivesUpAt(env, order, n) { GivingUpIsComplete(env, order, n); }
  }

  lemma NoneMissed(env: nat -> Attempt, order: nat, n: nat)
    requires AllMiss(env, order, n)
    ensures forall i, b {:trigger Offers(env, order, i, b)} :: Offers(env, order, i, b) ==> n <= i && !GivesUpAt(env, order, n)
  {
    forall i: nat, b: nat | Offers(env, order, i, b) ensures n <= i && !GivesUpAt(env, order, n) {
      NotPassedOver(env, order, i, b, n);
    }
  }

  // ---------------------------------------------------------------- the loop

  /** The next index to try; none when all are done. */
  method Next(tried: array<TryState>) returns (r: Option<nat>)
    ensures r == if NextOf(tried[..]) < tried.Length then Some(NextOf(tried[..])) else None
  {
    r := Position(tried, Untried);
    if r.None? {
      r := Position(tried, WasInUse);
    }
  }

  /** One attempt: what to note about the tree, or the block found. */
  method TryTree(a: Attempt, i: nat, order: nat) returns (note: TryState, block: Option<nat>)
    requires i < |a.trees|
    ensures block.Some? ==> !a.busy && FitsIn(a.trees[i], block.value, order)
    ensures block.None? ==> if a.busy then note.WasInUse? else note.Tried? && Exhausted(a.trees[i], order)
  {
    if a.busy {
      return WasInUse, None;
    }
    if a.trees[i].None? {
      return Tried, None;
    }
    block := TreeAllocate(a.trees[i].value, order);
    note := Tried;
  }

  /** One more attempt in vain: what it leaves to do. */
  lemma OneMoreMiss(env: nat -> Attempt, order: nat, k: nat, i: nat, note: TryState)
    requires AllMiss(env, order, k) && i == Tries(env, k) < TREES && i < |env(k).trees|
    requires if env(k).busy then note.WasInUse? else note.Tried? && Exhausted(env(k).trees[i], order)
    ensures AllMiss(env, order, k + 1) && Marks(env, k + 1) == Marks(env, k)[i := note]
    ensures TriedCount(Marks(env, k), TREES) < TREES
    ensures TriedCount(Marks(env, k + 1), TREES) == TriedCount(Marks(env, k), TREES) + if env(k).busy then 0 else 1
  {
    var t := Marks(env, k);
    NextOfMeans(t);
    TriedCountBound(t, TREES);
    TriedCountUpdate(t, TREES, NextOf(t), note);
  }

  /**
   The loop of `allocate`, for every way in which other cores may lock trees and change them between
   the attempts, as long as from attempt `quiet` on no more locks are in the way.
   */
  method Search(order: nat, env: nat -> Attempt, ghost quiet: nat) returns (r: Option<(nat, nat)>, n: nat)
    requires forall k :: |env(k).trees| == TREES
    requires forall k :: k >= quiet ==> !env(k).busy
    ensures r.None? ==> GivesUpAt(env, order, n)
    ensures r.Some? ==> FindsAt(env, order, n, r.value.0, r.value.1)
    ensures forall i, b {:trigger Offers(env, order, i, b)} :: Offers(env, order, i, b) ==> r.Some? && n <= i
  {
    var tried := new TryState[TREES](_ => Untried);
    ghost var marks := tried[..];
    n := 0;
    while true
      invariant tried.Length == TREES && tried[..] == marks == Marks(env, n) && AllMiss(env, order, n)
      decreases if n < quiet then quiet - n else 0, TREES - TriedCount(marks, TREES)
    {
      NextOfMeans(marks);
      var index := Next(tried);
      if index.None? {
        NoneMissed(env, order, n);
        return None, n;
      }
      var i := index.value;
      var note, block := TryTree(env(n), i, order);
      if block.Some? {
        NoneMissed(env, order, n);
        return Some((i, block.value)), n;
      }
      OneMoreMiss(env, order, n, i, note);
      tried[i] := note;
      marks := marks[i := note];
      n := n + 1;
    }
  }

  // ---------------------------------------------------------------- addresses

  /** The address `allocate` gives for block `b` of tree `i`. */
  function Compose(i: nat, b: nat): nat {
    4096 * b + i * TREE_BYTES
  }

  function TreeOf(address: nat): nat {
    address / TREE_BYTES
  }

  function LocalOf(address: nat): nat {
    address % TREE_BYTES
  }

  /** `deallocate` finds the tree and the place in it again. */
  lemma ComposeInverse(i: nat, b: nat)
    requires b < TREE_FRAMES
    ensures TreeOf(Compose(i, b)) == i && LocalOf(Compose(i, b)) == 4096 * b
    ensures Compose(i, b) / 4096 == i * TREE_FRAMES + b && Compose(i, b) % 4096 == 0
  {
    assert Compose(i, b) == 4096 * (i * TREE_FRAMES + b);
  }

  /** Frame `f`, counted through all gibibytes, is free. */
  ghost predicate FrameFree(trees: seq<TreeSlot>, f: nat) {
    var i := f / TREE_FRAMES;
    i < |trees| && trees[i].Some? && f % TREE_FRAMES in trees[i].value
  }

  /** Frame `f` belongs to the block of the given order at `address`. */
  predicate FrameIn(address: nat, order: nat, f: nat) {
    Covers(address / 4096, order, f)
  }

  /** A block inside one tree covers the same frames, whether counted in the tree or through all. */
  lemma BlockFrames(i: nat, b: nat, order: nat, f: nat)
    requires b + Pow2(order) <= TREE_FRAMES
    ensures FrameIn(Compose(i, b), order, f) <==> f / TREE_FRAMES == i && f % TREE_FRAMES in Block(b, order)
  {
    ComposeInverse(i, b);
    var g, u := f / TREE_FRAMES, f % TREE_FRAMES;
    assert f == g * TREE_FRAMES + u;
    assert u in Block(b, order) <==> Covers(b, order, u);
    if FrameIn(Compose(i, b), order, f) {
      assert i * TREE_FRAMES <= f < (i + 1) * TREE_FRAMES;
      assert g == i;
    }
  }

  lemma OneTreeChanged(trees: seq<TreeSlot>, i: nat, free: set<nat>, f: nat)
    requires i < |trees|
    ensures FrameFree(trees[i := Some(free)], f) <==>
            if f / TREE_FRAMES == i then f % TREE_FRAMES in free else FrameFree(trees, f)
  {
  }

  /** With single frames, none left in any tree means no frame is free. */
  lemma NoFrameLeft(trees: seq<TreeSlot>)
    requires |trees| == TREES && forall i :: 0 <= i < TREES ==> Exhausted(trees[i], 0)
    ensures forall f :: !FrameFree(trees, f)
  {
    Pow2Values();
    forall f: nat ensures !FrameFree(trees, f) {
      var i, u := f / TREE_FRAMES, f % TREE_FRAMES;
      if FrameFree(trees, f) {
        assert Block(u, 0) == {u};
        assert FitsIn(trees[i], u, 0);
        assert false;
      }
    }
  }

  // ---------------------------------------------------------------- taking and giving blocks

  /** The block at `address` lies inside a tree that exists, aligned to its size. */
  ghost predicate InTree(trees: seq<TreeSlot>, address: nat, order: nat) {
    exists i, b :: address == Compose(i, b) && BlockOf(trees, i, b, order)
  }

  ghost predicate BlockOf(trees: seq<TreeSlot>, i: nat, b: nat, order: nat) {
    i < |trees| && trees[i].Some? && Aligned(b, order) && b + Pow2(order) <= TREE_FRAMES
  }

  /** Live blocks, by address and order, are disjoint across all trees, and no frame of theirs is free. */
  ghost predicate LiveOk(trees: seq<TreeSlot>, live: map<nat, nat>) {
    && |trees| == TREES
    && (forall a :: a in live ==> InTree(trees, a, live[a]))
    && (forall a, f: nat :: a in live && FrameIn(a, live[a], f) ==> !FrameFree(trees, f))
    && (forall a, c, f: nat :: a in live && c in live && FrameIn(a, live[a], f) && FrameIn(c, live[c], f) ==> a == c)
  }

  /** Since `trees`, the free frames lost exactly those of a block. */
  ghost predicate FramesLost(trees: seq<TreeSlot>, trees': seq<TreeSlot>, address: nat, order: nat) {
    && (forall f: nat {:trigger FrameIn(address, order, f)} :: FrameIn(address, order, f) ==> FrameFree(trees, f))
    && (forall f: nat {:trigger FrameFree(trees', f)} ::
          FrameFree(trees', f) <==> FrameFree(trees, f) && !FrameIn(address, order, f))
  }

  function Without(trees: seq<TreeSlot>, i: nat, b: nat, order: nat): seq<TreeSlot>
    requires i < |trees| && trees[i].Some?
  {
    trees[i := Some(trees[i].value - Block(b, order))]
  }

  function With(trees: seq<TreeSlot>, i: nat, b: nat, order: nat): seq<TreeSlot>
    requires i < |trees| && trees[i].Some?
  {
    trees[i := Some(trees[i].value + Block(b, order))]
  }

  lemma BlockTaken(trees: seq<TreeSlot>, i: nat, b: nat, order: nat)
    requires i < |trees| && FitsIn(trees[i], b, order)
    ensures FramesLost(trees, Without(trees, i, b, order), Compose(i, b), order)
    ensures Compose(i, b) % 4096 == 0 && FrameIn(Compose(i, b), order, Compose(i, b) / 4096)
  {
    Pow2Values();
    ComposeInverse(i, b);
    var trees', a := Without(trees, i, b, order), Compose(i, b);
    forall f: nat ensures FrameIn(a, order, f) ==> FrameFree(trees, f)
      ensures FrameFree(trees', f) <==> FrameFree(trees, f) && !FrameIn(a, order, f)
    {
      BlockFrames(i, b, order, f);
      OneTreeChanged(trees, i, trees[i].value - Block(b, order), f);
    }
  }

  /** A block that fits overlaps no live one, wherever that is. */
  lemma TakeKeepsLive(trees: seq<TreeSlot>, live: map<nat, nat>, i: nat, b: nat, order: nat)
    requires LiveOk(trees, live) && i < TREES && FitsIn(trees[i], b, order)
    ensures Compose(i, b) !in live && LiveOk(Without(trees, i, b, order), live[Compose(i, b) := order])
  {
    var trees', a := Without(trees, i, b, order), Compose(i, b);
    var live' := live[a := order];
    BlockTaken(trees, i, b, order);
    FirstFrames(trees, live);
    assert a !in live;
    Pow2Values();
    assert BlockOf(trees', i, b, order);
    forall c | c in live' ensures InTree(trees', c, live'[c]) {
      if c != a {
        var j, d :| c == Compose(j, d) && BlockOf(trees, j, d, live[c]);
        assert BlockOf(trees', j, d, live[c]);
      }
    }
    forall c, f: nat | c in live' && FrameIn(c, live'[c], f) ensures !FrameFree(trees', f) {
      if c != a { assert FrameIn(c, live[c], f); }
    }
    forall c, d, f: nat | c in live' && d in live' && FrameIn(c, live'[c], f) && FrameIn(d, live'[d], f) ensures c == d {
      if c != a { assert FrameIn(c, live[c], f); }
      if d != a { assert FrameIn(d, live[d], f); }
    }
  }

  lemma FirstFrames(trees: seq<TreeSlot>, live: map<nat, nat>)
    requires LiveOk(trees, live)
    ensures forall a :: a in live ==> FrameIn(a, live[a], a / 4096)
  {
  }

  ghost predicate FramesGained(trees: seq<TreeSlot>, trees': seq<TreeSlot>, address: nat, order: nat) {
    forall f: nat {:trigger FrameFree(trees', f)} :: FrameFree(trees', f) <==> FrameFree(trees, f) || FrameIn(address, order, f)
  }

  lemma BlockGiven(trees: seq<TreeSlot>, i: nat, b: nat, order: nat)
    requires BlockOf(trees, i, b, order)
    ensures FramesGained(trees, With(trees, i, b, order), Compose(i, b), order)
  {
    var trees', a := With(trees, i, b, order), Compose(i, b);
    forall f: nat ensures FrameFree(trees', f) <==> FrameFree(trees, f) || FrameIn(a, order, f) {
      BlockFrames(i, b, order, f);
      OneTreeChanged(trees, i, trees[i].value + Block(b, order), f);
    }
  }

  lemma GiveKeepsLive(trees: seq<TreeSlot>, live: map<nat, nat>, i: nat, b: nat, order: nat)
    requires LiveOk(trees, live) && BlockOf(trees, i, b, order) && Compose(i, b) in live && live[Compose(i, b)] == order
    ensures LiveOk(With(trees, i, b, order), live - {Compose(i, b)})
  {
    var trees', a := With(trees, i, b, order), Compose(i, b);
    var live' := live - {a};
    BlockGiven(trees, i, b, order);
    forall c | c in live' ensures InTree(trees', c, live'[c]) {
      var j, d :| c == Compose(j, d) && BlockOf(trees, j, d, live[c]);
      assert BlockOf(trees', j, d, live[c]);
    }
    forall c, f: nat | c in live' && FrameIn(c, live'[c], f) ensures !FrameFree(trees', f) {
      assert FrameIn(c, live[c], f);
      assert FrameIn(a, live[a], f) ==> a == c;
    }
    forall c, d, f: nat | c in live' && d in live' && FrameIn(c, live'[c], f) && FrameIn(d, live'[d], f) ensures c == d {
      assert FrameIn(c, live[c], f) && FrameIn(d, live[d], f);
    }
  }

  /** Deallocating right after allocating restores every tree. */
  lemma TakeGive(trees: seq<TreeSlot>, i: nat, b: nat, order: nat)
    requires i < |trees| && FitsIn(trees[i], b, order)
    ensures var a, taken := Compose(i, b), Without(trees, i, b, order);
            TreeOf(a) == i && With(taken, TreeOf(a), LocalOf(a) / 4096, order) == trees
  {
    Pow2Values();
    ComposeInverse(i, b);
    assert trees[i].value - Block(b, order) + Block(b, order) == trees[i].value;
  }

  /** The tree and place that `deallocate` computes for a live block. */
  lemma FindBlock(trees: seq<TreeSlot>, address: nat, order: nat)
    requires InTree(trees, address, order)
    ensures BlockOf(trees, TreeOf(address), LocalOf(address) / 4096, order)
    ensures Compose(TreeOf(address), LocalOf(address) / 4096) == address
  {
    var i, b :| address == Compose(i, b) && BlockOf(trees, i, b, order);
    ComposeInverse(i, b);
  }

  // ---------------------------------------------------------------- setting up the trees

  /** The part of a usable range that touches gibibyte `gib`, counted from its start, if it does. */
  function LocalRange(gib: nat, range: Range): seq<Range> {
    var start, end := gib * TREE_BYTES, (gib + 1) * TREE_BYTES + 1;
    if range.start <= end && range.end >= start
    then [Range(if range.start >= start then range.start - start else 0, range.end - start)]
    else []
  }

  /** `localize`: these parts of all usable ranges. */
  function Localize(gib: nat, usable: seq<Range>): seq<Range> {
    if usable == [] then [] else LocalRange(gib, usable[0]) + Localize(gib, usable[1..])
  }

  lemma LocalRangeExact(gib: nat, range: Range, a: nat)
    requires a < TREE_BYTES
    ensures InAny(LocalRange(gib, range), a) <==> In(range, gib * TREE_BYTES + a)
  {
    var here := LocalRange(gib, range);
    if In(range, gib * TREE_BYTES + a) { assert In(here[0], a); }
  }

  /** Within the gibibyte, they are exactly the usable addresses. */
  lemma {:induction false} LocalizeExact(gib: nat, usable: seq<Range>, a: nat)
    requires a < TREE_BYTES
    ensures InAny(Localize(gib, usable), a) <==> InAny(usable, gib * TREE_BYTES + a)
  {
    if usable != [] {
      var range, rest := usable[0], usable[1..];
      var address := gib * TREE_BYTES + a;
      LocalRangeExact(gib, range, a);
      LocalizeExact(gib, rest, a);
      InConcat(LocalRange(gib, range), Localize(gib, rest), a);
      HeadAndRest(usable, address);
    }
  }

  /** All bytes of frame `b` are in the ranges. */
  predicate Whole(ranges: seq<Range>, b: nat) {
    forall a :: 4096 * b <= a < 4096 * b + 4096 ==> InAny(ranges, a)
  }

  /** A new tree has the base blocks free that are usable from end to end. */
  function NewTree(ranges: seq<Range>): set<nat> {
    set b: nat | b < TREE_FRAMES && Whole(ranges, b)
  }

  /** The two stages make trees 0 to 7, and 8 up to the given number. */
  predicate HasTree(i: nat, gibibytes: nat) {
    i < 8 || i <= gibibytes
  }

  ghost predicate TreesBuilt(trees: seq<TreeSlot>, usable: seq<Range>, gibibytes: nat) {
    |trees| == TREES && forall i :: 0 <= i < TREES ==>
      trees[i] == if HasTree(i, gibibytes) then Some(NewTree(Localize(i, usable))) else None
  }

  /** After both stages, the free frames are the wholly usable ones in the gibibytes that have a tree. */
  lemma FreeAfterInit(trees: seq<TreeSlot>, usable: seq<Range>, gibibytes: nat, f: nat)
    requires TreesBuilt(trees, usable, gibibytes) && gibibytes < TREES
    ensures FrameFree(trees, f) <==>
            && HasTree(f / TREE_FRAMES, gibibytes)
            && forall a :: 4096 * f <= a < 4096 * f + 4096 ==> InAny(usable, a)
  {
    var i, b := f / TREE_FRAMES, f % TREE_FRAMES;
    if HasTree(i, gibibytes) {
      var ranges := Localize(i, usable);
      assert trees[i] == Some(NewTree(ranges));
      WholeFrame(i, b, usable);
      assert f == i * TREE_FRAMES + b;
    }
  }

  lemma WholeFrame(i: nat, b: nat, usable: seq<Range>)
    requires b < TREE_FRAMES
    ensures var f := i * TREE_FRAMES + b;
            Whole(Localize(i, usable), b) <==> forall a :: 4096 * f <= a < 4096 * f + 4096 ==> InAny(usable, a)
  {
    var f := i * TREE_FRAMES + b;
    var base := i * TREE_BYTES;
    assert 4096 * f == base + 4096 * b;
    if Whole(Localize(i, usable), b) {
      forall a | 4096 * f <= a < 4096 * f + 4096 ensures InAny(usable, a) {
        LocalizeExact(i, usable, a - base);
      }
    }
    if forall a :: 4096 * f <= a < 4096 * f + 4096 ==> InAny(usable, a) {
      forall a | 4096 * b <= a < 4096 * b + 4096 ensures InAny(Localize(i, usable), a) {
        LocalizeExact(i, usable, a);
        assert InAny(usable, base + a);
      }
    }
  }

  /** Trees added where there were none leave live blocks alone. */
  lemma GrowKeepsLive(trees: seq<TreeSlot>, trees': seq<TreeSlot>, live: map<nat, nat>)
    requires LiveOk(trees, live) && |trees'| == TREES
    requires forall i :: 0 <= i < TREES && trees[i].Some? ==> trees'[i] == trees[i]
    ensures LiveOk(trees', live)
  {
    forall a | a in live ensures InTree(trees', a, live[a]) {
      var i, b :| a == Compose(i, b) && BlockOf(trees, i, b, live[a]);
      assert BlockOf(trees', i, b, live[a]);
    }
    forall a, f: nat | a in live && FrameIn(a, live[a], f) ensures !FrameFree(trees', f) {
      var i, b :| a == Compose(i, b) && BlockOf(trees, i, b, live[a]);
      GrowFrame(trees, trees', i, b, live[a], f);
    }
  }

  lemma GrowFrame(trees: seq<TreeSlot>, trees': seq<TreeSlot>, i: nat, b: nat, order: nat, f: nat)
    requires |trees'| == |trees| && BlockOf(trees, i, b, order) && trees'[i] == trees[i]
    requires FrameIn(Compose(i, b), order, f)
    ensures FrameFree(trees', f) <==> FrameFree(trees, f)
  {
    BlockFrames(i, b, order, f);
  }

  // ---------------------------------------------------------------- other cores

  /** One locked section of some core: a tree hands out a block, or takes one back. */
  datatype Event = Handed(i: nat, b: nat, order: nat) | Returned(i: nat, b: nat, order: nat)

  ghost predicate Possible(trees: seq<TreeSlot>, live: map<nat, nat>, e: Event) {
    match e
    case Handed(i, b, order) => i < |trees| && FitsIn(trees[i], b, order)
    case Returned(i, b, order) => BlockOf(trees, i, b, order) && Compose(i, b) in live && live[Compose(i, b)] == order
  }

  ghost function TreesAfter(trees: seq<TreeSlot>, e: Event): seq<TreeSlot>
    requires e.i < |trees| && trees[e.i].Some?
  {
    match e
    case Handed(i, b, order) => Without(trees, i, b, order)
    case Returned(i, b, order) => With(trees, i, b, order)
  }

  ghost function LiveAfter(live: map<nat, nat>, e: Event): map<nat, nat> {
    match e
    case Handed(i, b, order) => live[Compose(i, b) := order]
    case Returned(i, b, order) => live - {Compose(i, b)}
  }

  ghost predicate Run(trees: seq<TreeSlot>, live: map<nat, nat>, events: seq<Event>, trees': seq<TreeSlot>, live': map<nat, nat>)
    decreases |events|
  {
    if events == [] then trees' == trees && live' == live
    else
      && Possible(trees, live, events[0])
      && Run(TreesAfter(trees, events[0]), LiveAfter(live, events[0]), events[1..], trees', live')
  }

  /** However the locked sections of all cores interleave, live blocks stay disjoint and off the free lists. */
  lemma {:induction false} RunKeepsLive(trees: seq<TreeSlot>, live: map<nat, nat>, events: seq<Event>,
                                        trees': seq<TreeSlot>, live': map<nat, nat>)
    requires LiveOk(trees, live) && Run(trees, live, events, trees', live')
    ensures LiveOk(trees', live')
    decreases |events|
  {
    if events != [] {
      var e := events[0];
      match e {
        case Handed(i, b, order) => TakeKeepsLive(trees, live, i, b, order);
        case Returned(i, b, order) => GiveKeepsLive(trees, live, i, b, order);
      }
      RunKeepsLive(TreesAfter(trees, e), LiveAfter(live, e), events[1..], trees', live');
    }
  }

  ghost predicate Leads(trees: seq<TreeSlot>, live: map<nat, nat>, trees': seq<TreeSlot>, live': map<nat, nat>) {
    exists events :: Run(trees, live, events, trees', live')
  }

  /** Locked sections of all cores lead from attempt `k` to the next. */
  ghost predicate Between(env: nat -> Attempt, lives: nat -> map<nat, nat>, k: nat) {
    Leads(env(k).trees, lives(k), env(k + 1).trees, lives(k + 1))
  }

  lemma {:induction false} AlwaysOk(env: nat -> Attempt, lives: nat -> map<nat, nat>, k: nat)
    requires LiveOk(env(0).trees, lives(0)) && forall n: nat :: Between(env, lives, n)
    ensures LiveOk(env(k).trees, lives(k))
  {
    if k > 0 {
      AlwaysOk(env, lives, k - 1);
      assert Between(env, lives, k - 1);
      var events :| Run(env(k - 1).trees, lives(k - 1), events, env(k).trees, lives(k));
      RunKeepsLive(env(k - 1).trees, lives(k - 1), events, env(k).trees, lives(k));
    }
  }

  // ---------------------------------------------------------------- the allocator

  lemma OneFrame(trees: seq<TreeSlot>, trees': seq<TreeSlot>, address: nat)
    requires FramesLost(trees, trees', address, 0)
    ensures FrameFree(trees, address / 4096)
    ensures forall f: nat :: FrameFree(trees', f) <==> FrameFree(trees, f) && f != address / 4096
  {
    assert FrameIn(address, 0, address / 4096);
  }

  class PhysicalAllocator {
    var trees: seq<TreeSlot>
    ghost var live: map<nat, nat>

    ghost predicate Valid()
      reads this
    {
      LiveOk(trees, live)
    }

    /** `init_prelim`: the first eight gibibytes. */
    constructor InitPrelim(usable: seq<Range>)
      ensures Valid() && live == map[] && TreesBuilt(trees, usable, 0)
    {
      trees, live := seq(TREES, _ => None), map[];
      new;
      for i := 0 to 8
        invariant |trees| == TREES && live == map[]
        invariant forall j :: 0 <= j < i ==> trees[j] == Some(NewTree(Localize(j, usable)))
        invariant forall j :: i <= j < TREES ==> trees[j] == None
      {
        trees := trees[i := Some(NewTree(Localize(i, usable)))];
      }
    }

    /** `init_rest`: the gibibytes from the ninth to the given one, while blocks of the first eight are in use. */
    method InitRest(gibibytes: nat, usable: seq<Range>)
      requires Valid() && gibibytes < TREES && forall i :: 8 <= i < TREES ==> trees[i].None?
      modifies this`trees
      ensures Valid()
      ensures forall i :: 0 <= i < TREES ==>
                trees[i] == if 8 <= i <= gibibytes then Some(NewTree(Localize(i, usable))) else old(trees)[i]
    {
      var i := 8;
      while i <= gibibytes
        invariant 8 <= i && |trees| == TREES
        invariant forall j :: 0 <= j < TREES ==>
                    trees[j] == if 8 <= j < i && j <= gibibytes then Some(NewTree(Localize(j, usable))) else old(trees)[j]
      {
        trees := trees[i := Some(NewTree(Localize(i, usable)))];
        i := i + 1;
      }
      GrowKeepsLive(old(trees), trees, live);
    }

    /**
     `allocate`, among other cores: attempt `k` finds the trees `env(k)`, in which the blocks
     `lives(k)` are live, and between attempts all cores do what they like. The block comes from the
     trees of attempt `n`, or there was none to be had by then.
     */
    method Allocate(order: nat, env: nat -> Attempt, ghost lives: nat -> map<nat, nat>, ghost quiet: nat)
      returns (r: Option<nat>, n: nat)
      requires Valid() && trees == env(0).trees && live == lives(0) && forall k: nat :: Between(env, lives, k)
      requires forall k :: k >= quiet ==> !env(k).busy
      modifies this
      ensures Valid()
      ensures r.None? ==> GivesUpAt(env, order, n) && trees == env(n).trees && live == lives(n)
      ensures r.None? && (forall k :: env(k).trees == old(trees)) ==> forall i :: 0 <= i < TREES ==> Exhausted(trees[i], order)
      ensures forall i, b {:trigger Offers(env, order, i, b)} :: Offers(env, order, i, b) ==> r.Some? && n <= i
      ensures r.Some? ==> r.value !in lives(n) && live == lives(n)[r.value := order]
      ensures r.Some? ==> FramesLost(env(n).trees, trees, r.value, order)
      ensures r.Some? ==> exists i: nat, b: nat :: FindsAt(env, order, n, i, b) && r.value == Compose(i, b)
                                                   && trees == Without(env(n).trees, i, b, order)
    {
      forall k: nat ensures LiveOk(env(k).trees, lives(k)) { AlwaysOk(env, lives, k); }
      var found;
      found, n := Search(order, env, quiet);
      trees, live := env(n).trees, lives(n);
      if found.None? {
        if forall k :: env(k).trees == old(trees) { ExhaustedNow(env, trees, order, n); }
        return None, n;
      }
      var (i, b) := found.value;
      BlockTaken(trees, i, b, order);
      TakeKeepsLive(trees, live, i, b, order);
      trees := Without(trees, i, b, order);
      live := live[Compose(i, b) := order];
      r := Some(Compose(i, b));
    }

    /**
     `allocate(0)`, by frame number. If no other core interferes, this is what the page-table code
     takes the allocator to do.
     */
    method AllocateFrame(env: nat -> Attempt, ghost lives: nat -> map<nat, nat>, ghost quiet: nat)
      returns (r: Option<Frame>, n: nat)
      requires Valid() && trees == env(0).trees && live == lives(0) && forall k: nat :: Between(env, lives, k)
      requires forall k :: k >= quiet ==> !env(k).busy
      modifies this
      ensures Valid()
      ensures r.None? ==> trees == env(n).trees && forall i :: 0 <= i < TREES ==> SeenExhausted(env, 0, n, i)
      ensures r.None? && (forall k :: env(k).trees == old(trees)) ==> forall f: nat :: !FrameFree(trees, f)
      ensures r.Some? ==> FrameFree(env(n).trees, r.value)
      ensures r.Some? ==> forall f: nat :: FrameFree(trees, f) <==> FrameFree(env(n).trees, f) && f != r.value
    {
      var address;
      address, n := Allocate(0, env, lives, quiet);
      if address.None? {
        GivingUpIsComplete(env, 0, n);
        if forall k :: env(k).trees == old(trees) { NoFrameLeft(trees); }
        return None, n;
      }
      OneFrame(env(n).trees, trees, address.value);
      r := Some(address.value / 4096);
    }

    /** `deallocate` of a live block. */
    method Deallocate(address: nat, order: nat)
      requires Valid() && address in live && live[address] == order
      modifies this
      ensures Valid() && live == old(live) - {address}
      ensures FramesGained(old(trees), trees, address, order)
      ensures BlockOf(old(trees), TreeOf(address), LocalOf(address) / 4096, order)
      ensures trees == With(old(trees), TreeOf(address), LocalOf(address) / 4096, order)
    {
      FindBlock(trees, address, order);
      var i, b := TreeOf(address), LocalOf(address) / 4096;
      BlockGiven(trees, i, b, order);
      GiveKeepsLive(trees, live, i, b, order);
      trees := With(trees, i, b, order);
      live := live - {address};
    }
  }

  /** If nobody interferes, giving up means that there is no block. */
  lemma ExhaustedNow(env: nat -> Attempt, trees: seq<TreeSlot>, order: nat, n: nat)
    requires (forall k :: env(k).trees == trees) && |trees| == TREES && GivesUpAt(env, order, n)
    ensures forall i :: 0 <= i < TREES ==> Exhausted(trees[i], order)
  {
    GivingUpIsComplete(env, order, n);
    forall i | 0 <= i < TREES ensures Exhausted(trees[i], order) {
      assert SeenExhausted(env, order, n, i);
    }
  }

  // ---------------------------------------------------------------- how many trees

  /** The highest address of the memory map. */
  function Highest(areas: seq<Range>): nat
    requires areas != [] && forall i :: 0 <= i < |areas| ==> areas[i].start < areas[i].end
  {
    var last := areas[|areas| - 1].end - 1;
    if |areas| == 1 then last
    else
      var others := Highest(areas[..|areas| - 1]);
      if others >= last then others else last
  }

  lemma {:induction false} HighestIs(areas: seq<Range>)
    requires areas != [] && forall i :: 0 <= i < |areas| ==> areas[i].start < areas[i].end
    ensures InAny(areas, Highest(areas)) && forall a: nat :: InAny(areas, a) ==> a <= Highest(areas)
  {
    var n := |areas| - 1;
    var front := areas[..n];
    assert areas == front + [areas[n]];
    assert In(areas[n], areas[n].end - 1);
    if n > 0 {
      HighestIs(front);
      InConcat(front, [areas[n]], Highest(areas));
      var i :| 0 <= i < |front| && In(front[i], Highest(front));
      assert In(areas[i], Highest(front));
    }
    forall a: nat | InAny(areas, a) ensures a <= Highest(areas) {
      InConcat(front, [areas[n]], a);
    }
  }

  /** The number of trees, which the source cuts to a byte. */
  function TreeCount(highest: nat): nat {
    RoundUpDivide(highest, TREE_BYTES) % 256
  }

  /** Every address of the memory map belongs to a gibibyte that gets a tree. */
  ghost predicate AllCovered(areas: seq<Range>, gibibytes: nat) {
    forall a: nat :: InAny(areas, a) ==> HasTree(TreeOf(a), gibibytes)
  }

  lemma HighestIndex(highest: nat)
    ensures var n := RoundUpDivide(highest, TREE_BYTES); TreeOf(highest) <= n <= TreeOf(highest) + 1
  {
  }

  /** All memory is covered exactly when the number of trees fits in a byte. */
  lemma CoveredIff(areas: seq<Range>)
    requires areas != [] && forall i :: 0 <= i < |areas| ==> areas[i].start < areas[i].end
    ensures AllCovered(areas, TreeCount(Highest(areas))) <==> RoundUpDivide(Highest(areas), TREE_BYTES) < 256
  {
    HighestIs(areas);
    var h := Highest(areas);
    HighestIndex(h);
    forall a: nat | InAny(areas, a) ensures TreeOf(a) <= TreeOf(h) {
    }
    if RoundUpDivide(h, TREE_BYTES) >= 256 {
      assert !HasTree(TreeOf(h), TreeCount(h));
    }
  }

  /** 256 GiB of memory: the count wraps to 0, and all but the first 8 GiB are lost. */
  lemma WrappedCountExample()
    ensures TreeCount(Highest([Range(0, 0x40_0000_0000)])) == 0
    ensures !HasTree(TreeOf(0x2_0000_0000), 0)
  {
  }
}
