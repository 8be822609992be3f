/**
  The initial decomposition of memory, and what holds after every run of allocations and
  releases that starts from it.
 */
module BuddyRuns {
  import opened Types
  import opened Dyadic
  import opened FreeBlocks
  import opened BuddyLists

  // ---------------------------------------------------------------- initial decomposition

  /** The largest order up to k whose run fits into the remaining pages. */
  function FittingOrder(remaining: nat, k: nat): (o: nat)
    requires remaining > 0
    ensures o <= k && Pow2(o) <= remaining
    ensures forall j: nat :: o < j <= k ==> Pow2(j) > remaining
  {
    if k == 0 || Pow2(k) <= remaining then k else FittingOrder(remaining, k - 1)
  }

  function GreedyLists(lists: seq<seq<nat>>, pfn: nat, remaining: nat): (r: seq<seq<nat>>)
    requires |lists| == ORDERS
    ensures |r| == ORDERS
    decreases remaining
  {
    if remaining == 0 then lists else
    var o := FittingOrder(remaining, MAX_ORDER);
    GreedyLists(lists[o := [pfn] + lists[o]], pfn + Pow2(o), remaining - Pow2(o))
  }

  function NoBlocks(): (r: seq<seq<nat>>)
    ensures |r| == ORDERS && forall k: nat :: k < ORDERS ==> r[k] == []
  {
    seq(ORDERS, _ => [])
  }

  function Initial(n: nat): (b: Buddy)
    ensures |b.lists| == ORDERS
  {
    Buddy(n, GreedyLists(NoBlocks(), 0, n), map[])
  }

  /** Between two steps of the greedy loop, pfn is aligned well enough for every order that
      can still be chosen. */
  ghost predicate GreedyAt(pfn: nat, remaining: nat, k: nat) {
    k <= MAX_ORDER && Aligned(pfn, k) && (k < MAX_ORDER ==> remaining < Pow2(k))
  }

  lemma GreedyStep(pfn: nat, remaining: nat, k: nat)
    requires remaining > 0 && GreedyAt(pfn, remaining, k)
    ensures var o := FittingOrder(remaining, MAX_ORDER);
            && o <= k && Aligned(pfn, o) && (o < MAX_ORDER ==> o < k)
            && (o < MAX_ORDER ==> Sibling(pfn, o) == pfn + Pow2(o))
            && GreedyAt(pfn + Pow2(o), remaining - Pow2(o), o)
  {
    hide Pow2, Aligned, Sibling, Base, FittingOrder;
    var o := FittingOrder(remaining, MAX_ORDER);
    if k < o || (k == o && o < MAX_ORDER) {
      Pow2Monotone(k, o);
    }
    assert o <= k;
    AlignedDown(pfn, o, k);
    AlignedNext(pfn, o);
    if o < MAX_ORDER {
      assert o < k;
      AlignedDown(pfn, o + 1, k);
      BaseUnique(pfn, o + 1, pfn);
      Halves(pfn, o);
    }
  }

  lemma {:induction false} AlignedNext(h: nat, k: nat)
    requires Aligned(h, k)
    ensures Aligned(h + Pow2(k), k)
  {
    if k != 0 {
      AlignedNext(h / 2, k - 1);
      assert (h + Pow2(k)) / 2 == h / 2 + Pow2(k - 1);
    }
  }

  /** One step of the greedy loop adds a block without a partner. */
  lemma GreedyAdd(lists: seq<seq<nat>>, pfn: nat, remaining: nat, k: nat)
    requires |lists| == ORDERS && Canonical(lists, Interval(0, pfn)) && remaining > 0
    requires GreedyAt(pfn, remaining, k)
    ensures var o := FittingOrder(remaining, MAX_ORDER);
      && (forall j: nat :: j < ORDERS ==> pfn !in lists[j])
      && Canonical(lists[o := [pfn] + lists[o]], Interval(0, pfn + Pow2(o)))
      && GreedyAt(pfn + Pow2(o), remaining - Pow2(o), o)
  {
    hide Pow2, Aligned, Sibling, Base, FittingOrder, Interval, Canonical, Run, Weight;
    var o := FittingOrder(remaining, MAX_ORDER);
    GreedyStep(pfn, remaining, k);
    if o < MAX_ORDER {
      assert pfn + Pow2(o) !in Interval(0, pfn);
    }
    AddCanonical(lists, Interval(0, pfn), pfn, o);
    assert Interval(0, pfn) + Run(pfn, o) == Interval(0, pfn + Pow2(o));
  }

  lemma {:induction false} GreedyCanonical(lists: seq<seq<nat>>, pfn: nat, remaining: nat, k: nat)
    requires Canonical(lists, Interval(0, pfn)) && GreedyAt(pfn, remaining, k)
    ensures Canonical(GreedyLists(lists, pfn, remaining), Interval(0, pfn + remaining))
    decreases remaining
  {
    hide Pow2, Aligned, Sibling, Base, FittingOrder, Interval, Canonical, Run, Weight;
    CanonicalLength(lists, Interval(0, pfn));
    if remaining > 0 {
      var o := FittingOrder(remaining, MAX_ORDER);
      GreedyAdd(lists, pfn, remaining, k);
      GreedyCanonical(lists[o := [pfn] + lists[o]], pfn + Pow2(o), remaining - Pow2(o), o);
    }
  }

  lemma {:induction false} NoWeight(lists: seq<seq<nat>>)
    requires forall k: nat :: k < |lists| ==> lists[k] == []
    ensures Weight(lists) == 0
  {
    if |lists| != 0 {
      NoWeight(lists[1..]);
    }
  }

  lemma {:induction false} ZeroAligned(k: nat)
    ensures Aligned(0, k)
  {
    if k != 0 {
      ZeroAligned(k - 1);
    }
  }

  lemma NoneCanonical()
    ensures Canonical(NoBlocks(), Interval(0, 0))
  {
    hide Pow2, Aligned, Base, Interval, Weight;
    NoWeight(NoBlocks());
    var s := Interval(0, 0);
    forall h: nat, k: nat ensures !Block(s, h, k) {
      assert Free(s, h, k) ==> h in s;
    }
  }

  lemma InitialKeeps(n: nat)
    ensures Inv(Initial(n)) && FreePages(n, map[]) == Interval(0, n)
  {
    hide Pow2, Aligned, Base, Interval, Weight, Canonical;
    NoneCanonical();
    ZeroAligned(MAX_ORDER);
    GreedyCanonical(NoBlocks(), 0, n, MAX_ORDER);
    assert FreePages(n, map[]) == Interval(0, n);
  }

  /** The blocks of untouched memory are the binary digits of n: as many blocks of the top
      order as fit, and below it exactly one block for each order whose bit is set. */
  lemma InitialBlocks(n: nat, h: nat, k: nat)
    requires k <= MAX_ORDER
    ensures h in Initial(n).lists[k] <==>
            if k == MAX_ORDER then Aligned(h, k) && h + Pow2(k) <= n
            else h == Base(n, k + 1) && h + Pow2(k) <= n
  {
    hide Pow2, Aligned, Base, Interval, Weight, Sibling, Initial;
    InitialKeeps(n);
    assert FreePages(Initial(n).n, Initial(n).live) == Interval(0, n) by { InitialShape(n); }
    FreeBelow(n, h, k);
    if k < MAX_ORDER {
      FreeBelow(n, Base(h, k + 1), k + 1);
      BaseBounds(n, k + 1);
      BaseBounds(h, k + 1);
      if Aligned(h, k) {
        Halves(h, k);
        BaseUnique(h, k, h);
        if h == Base(h, k + 1) && h <= n < h + Pow2(k + 1) {
          BaseUnique(h, k + 1, n);
        }
      }
      if h == Base(n, k + 1) {
        AlignedDown(h, k, k + 1);
        BaseUnique(h, k + 1, h);
      }
    }
  }

  lemma InitialShape(n: nat)
    ensures Initial(n).n == n && Initial(n).live == map[]
  {
  }

  lemma FreeBelow(n: nat, h: nat, k: nat)
    ensures Free(Interval(0, n), h, k) <==> h + Pow2(k) <= n
  {
    hide Pow2, Interval;
    if Free(Interval(0, n), h, k) {
      assert h + Pow2(k) - 1 in Interval(0, n);
    }
  }

  // ---------------------------------------------------------------- runs

  datatype Op = AllocPages(order: nat) | FreePfn(pfn: nat, order: nat)

  function Apply(b: Buddy, op: Op): (b': Buddy)
    requires |b.lists| == ORDERS
    ensures |b'.lists| == ORDERS
  {
    match op
    case AllocPages(k) => Alloc(b, k).0
    case FreePfn(h, k) => Release(b, h, k)
  }

  function Exec(b: Buddy, ops: seq<Op>): (b': Buddy)
    requires |b.lists| == ORDERS
    ensures |b'.lists| == ORDERS
    decreases |ops|
  {
    if ops == [] then b else Exec(Apply(b, ops[0]), ops[1..])
  }

  /** What the allocator asks of its callers: a live allocation is released with the order
      it was allocated with. */
  predicate Proper(b: Buddy, op: Op) {
    op.FreePfn? && op.pfn in b.live && op.order <= MAX_ORDER ==> op.order == b.live[op.pfn]
  }

  predicate ProperRun(b: Buddy, ops: seq<Op>)
    requires |b.lists| == ORDERS
    decreases |ops|
  {
    ops == [] || (Proper(b, ops[0]) && ProperRun(Apply(b, ops[0]), ops[1..]))
  }

  lemma {:induction false} RunKeeps(b: Buddy, ops: seq<Op>)
    requires Inv(b) && ProperRun(b, ops)
    ensures Inv(Exec(b, ops)) && Exec(b, ops).n == b.n
    decreases |ops|
  {
    hide Alloc, Release, LiveOk, Canonical;
    InvShape(b);
    if ops != [] {
      match ops[0] {
        case AllocPages(k) => AllocKeeps(b, k);
        case FreePfn(h, k) => ReleaseStep(b, h, k);
      }
      RunKeeps(Apply(b, ops[0]), ops[1..]);
    }
  }

  lemma InvShape(b: Buddy)
    requires Inv(b)
    ensures |b.lists| == ORDERS
  {
  }

  lemma ReleaseStep(b: Buddy, h: nat, k: nat)
    requires Inv(b) && Proper(b, FreePfn(h, k))
    ensures |b.lists| == ORDERS && Inv(Release(b, h, k)) && Release(b, h, k).n == b.n
  {
    hide MergeLists, LiveOk, Canonical;
    InvShape(b);
    if k <= MAX_ORDER && h in b.live {
      ReleaseKeeps(b, h);
    }
  }

  /** After every run, the live allocations are aligned, in range and pairwise disjoint, and
      none of their pages is on a free list. */
  lemma RunSafety(n: nat, ops: seq<Op>, h: nat, p: nat)
    requires ProperRun(Initial(n), ops)
    ensures var b := Exec(Initial(n), ops);
      h in b.live && h <= p < h + Pow2(b.live[h]) ==>
        && b.live[h] <= MAX_ORDER && Aligned(h, b.live[h]) && p < n
        && (forall g: nat :: g in b.live && g <= p < g + Pow2(b.live[g]) ==> g == h)
        && (forall g: nat, k: nat :: k < ORDERS && g in b.lists[k] ==> !(g <= p < g + Pow2(k)))
  {
    hide Pow2, Aligned, Base, Weight, Exec, Initial, FreePages, ProperRun;
    InitialKeeps(n);
    InitialShape(n);
    RunKeeps(Initial(n), ops);
    var b := Exec(Initial(n), ops);
    if h in b.live && h <= p < h + Pow2(b.live[h]) {
      assert Covered(b.live, p);
      forall g: nat | g in b.live && g <= p < g + Pow2(b.live[g]) ensures g == h {
        assert Overlap(h, b.live[h], g, b.live[g]);
      }
    }
  }

  /** An allocation is cut from the front of a block of the smallest order that suffices. */
  lemma AllocIsBestFit(b: Buddy, k: nat, h: nat)
    requires Inv(b)
    requires Alloc(b, k).1 == Some(h)
    ensures exists o: nat ::
      && k <= o && Block(FreePages(b.n, b.live), h, o)
      && (forall g: nat, j: nat :: k <= j < o ==> !Block(FreePages(b.n, b.live), g, j))
  {
    hide Pow2, Aligned, Base, Weight, FreePages, LiveOk, SplitLists, Block;
    var o := FirstFit(b.lists, k);
    assert h == b.lists[o][0] && h in b.lists[o];
    forall g: nat, j: nat | k <= j < o ensures !Block(FreePages(b.n, b.live), g, j) {
      assert g !in b.lists[j];
    }
  }

  ghost predicate SameBlocks(x: seq<seq<nat>>, y: seq<seq<nat>>) {
    && |x| == |y| == ORDERS
    && forall k: nat, h: nat :: k < ORDERS ==> (h in x[k] <==> h in y[k])
  }

  lemma CanonicalSame(x: seq<seq<nat>>, y: seq<seq<nat>>, s: set<nat>)
    requires Canonical(x, s) && Canonical(y, s)
    ensures SameBlocks(x, y)
  {
    hide Weight, Block;
  }

  /** After any two runs from the start that leave the same pages free, the free lists hold
      the same blocks: how the state was reached leaves no trace in the block structure. */
  lemma HistoryIndependence(n: nat, ops: seq<Op>, ops': seq<Op>)
    requires ProperRun(Initial(n), ops) && ProperRun(Initial(n), ops')
    requires FreePages(n, Exec(Initial(n), ops).live) == FreePages(n, Exec(Initial(n), ops').live)
    ensures SameBlocks(Exec(Initial(n), ops).lists, Exec(Initial(n), ops').lists)
  {
    hide Pow2, Aligned, Base, Weight, Exec, Initial, FreePages, LiveOk, ProperRun, Canonical, SameBlocks;
    InitialKeeps(n);
    InitialShape(n);
    RunKeeps(Initial(n), ops);
    RunKeeps(Initial(n), ops');
    CanonicalSame(Exec(Initial(n), ops).lists, Exec(Initial(n), ops').lists,
                  FreePages(n, Exec(Initial(n), ops).live));
  }

  /** An allocation followed by its release restores the blocks. */
  lemma AllocThenRelease(b: Buddy, k: nat, h: nat)
    requires Inv(b)
    requires Alloc(b, k).1 == Some(h)
    ensures Release(Alloc(b, k).0, h, k).live == b.live
    ensures SameBlocks(Release(Alloc(b, k).0, h, k).lists, b.lists)
  {
    hide Pow2, Aligned, Base, Weight, LiveOk, FreePages, MergeLists, Canonical, SameBlocks, Alloc;
    InvShape(b);
    AllocKeeps(b, k);
    var b' := Alloc(b, k).0;
    ReleaseKeeps(b', h);
    assert b.live[h := k] - {h} == b.live;
    CanonicalSame(Release(b', h, k).lists, b.lists, FreePages(b.n, b.live));
  }

  /** The lists are stacks: a run whose partner is not listed goes to the front of its list
      when it is released, and the next allocation of that order takes it. */
  lemma LastReleasedFirst(b: Buddy, h: nat)
    requires Inv(b) && h in b.live
    ensures |b.lists| == ORDERS && b.live[h] <= MAX_ORDER
    ensures b.live[h] == MAX_ORDER || Partner(h, b.live[h]) !in b.lists[b.live[h]] ==>
              var b' := Release(b, h, b.live[h]);
              Alloc(b', b.live[h]) == (b, Some(h))
  {
    hide Pow2, Aligned, Base, Weight, FreePages, Block, Xor;
    var k := b.live[h];
    if k == MAX_ORDER || Partner(h, k) !in b.lists[k] {
      var b' := Release(b, h, k);
      assert b'.lists == b.lists[k := [h] + b.lists[k]];
      assert FirstFit(b'.lists, k) == k;
      assert b'.lists[k := b'.lists[k][1..]] == b.lists;
      assert (b.live - {h})[h := k] == b.live;
    }
  }

  /** Releases the given allocations of b, one after the other. */
  function ReleaseEach(b: Buddy, hs: seq<nat>): (ops: seq<Op>)
    requires forall h: nat :: h in hs ==> h in b.live
  {
    if hs == [] then [] else [FreePfn(hs[0], b.live[hs[0]])] + ReleaseEach(b, hs[1..])
  }

  /** Releasing all allocations, in whatever order, is a proper run to an empty allocator. */
  lemma {:induction false} ReleasesRun(b: Buddy, hs: seq<nat>)
    requires Inv(b) && Distinct(hs) && forall h: nat :: h in hs <==> h in b.live
    ensures |b.lists| == ORDERS && ProperRun(b, ReleaseEach(b, hs))
    ensures Exec(b, ReleaseEach(b, hs)).live == map[]
    decreases |hs|
  {
    hide Pow2, Aligned, Base, Weight, LiveOk, FreePages, MergeLists, Canonical, Exec, ProperRun;
    InvShape(b);
    if hs == [] {
      NoOps(b);
      assert b.live == map[];
    } else {
      var h, op := hs[0], FreePfn(hs[0], b.live[hs[0]]);
      var b' := Release(b, h, b.live[h]);
      LiveOrder(b, h);
      ReleaseKeeps(b, h);
      forall g: nat ensures g in hs[1..] <==> g in b'.live {
        assert g in hs <==> g == h || g in hs[1..];
      }
      ReleasesRun(b', hs[1..]);
      SameReleases(b, b', hs[1..]);
      FirstOp(b, op, ReleaseEach(b', hs[1..]));
    }
  }

  /** Releasing all allocations, in whatever order, restores the initial decomposition. */
  lemma AllReleased(b: Buddy, hs: seq<nat>)
    requires Inv(b) && Distinct(hs) && forall h: nat :: h in hs <==> h in b.live
    ensures |b.lists| == ORDERS && SameBlocks(Exec(b, ReleaseEach(b, hs)).lists, Initial(b.n).lists)
  {
    hide Pow2, Aligned, Base, Weight, LiveOk, FreePages, Initial, Canonical, Exec, ProperRun, SameBlocks, ReleaseEach;
    ReleasesRun(b, hs);
    RunKeeps(b, ReleaseEach(b, hs));
    InitialKeeps(b.n);
    InitialShape(b.n);
    CanonicalSame(Exec(b, ReleaseEach(b, hs)).lists, Initial(b.n).lists, FreePages(b.n, map[]));
  }

  lemma NoOps(b: Buddy)
    requires |b.lists| == ORDERS
    ensures Exec(b, []) == b && ProperRun(b, [])
  {
  }

  lemma FirstOp(b: Buddy, op: Op, rest: seq<Op>)
    requires |b.lists| == ORDERS
    ensures Exec(b, [op] + rest) == Exec(Apply(b, op), rest)
    ensures ProperRun(b, [op] + rest) <==> Proper(b, op) && ProperRun(Apply(b, op), rest)
  {
    assert ([op] + rest)[1..] == rest;
  }

  lemma LiveOrder(b: Buddy, h: nat)
    requires Inv(b) && h in b.live
    ensures b.live[h] <= MAX_ORDER
  {
  }

  lemma {:induction false} SameReleases(b: Buddy, b': Buddy, hs: seq<nat>)
    requires forall h: nat :: h in hs ==> h in b.live && h in b'.live && b.live[h] == b'.live[h]
    ensures ReleaseEach(b, hs) == ReleaseEach(b', hs)
  {
    if hs != [] {
      SameReleases(b, b', hs[1..]);
    }
  }

  /** Exactly one tile, a live allocation or a listed block, contains each page. */
  lemma Tiling(b: Buddy, p: nat)
    requires Inv(b) && p < b.n
    ensures Covered(b.live, p) <==>
            !exists h: nat, k: nat :: k < ORDERS && h in b.lists[k] && h <= p < h + Pow2(k)
    ensures forall h: nat, g: nat ::
              (h in b.live && g in b.live && h <= p < h + Pow2(b.live[h]) && g <= p < g + Pow2(b.live[g]))
              ==> h == g
    ensures forall h: nat, k: nat, g: nat, j: nat ::
              (k < ORDERS && j < ORDERS && h in b.lists[k] && g in b.lists[j]
               && h <= p < h + Pow2(k) && g <= p < g + Pow2(j))
              ==> h == g && k == j
    ensures forall h: nat, k: nat ::
              k < ORDERS && h in b.lists[k] ==> Aligned(h, k) && h + Pow2(k) <= b.n
    ensures forall h: nat ::
              h in b.live ==> Aligned(h, b.live[h]) && h + Pow2(b.live[h]) <= b.n
  {
    hide Pow2, Aligned, Base, Weight, FreePages;
    var s := FreePages(b.n, b.live);
    forall h: nat, k: nat | k < ORDERS && h in b.lists[k] ensures h + Pow2(k) <= b.n {
      assert h + Pow2(k) - 1 in s;
    }
    if p in s {
      var h, k := BlockOf(s, p);
      assert h in b.lists[k];
    }
    forall h: nat, g: nat | h in b.live && g in b.live && h <= p < h + Pow2(b.live[h])
      && g <= p < g + Pow2(b.live[g]) ensures h == g
    {
      assert Overlap(h, b.live[h], g, b.live[g]);
    }
    forall h: nat, k: nat, g: nat, j: nat | k < ORDERS && j < ORDERS && h in b.lists[k]
      && g in b.lists[j] && h <= p < h + Pow2(k) && g <= p < g + Pow2(j) ensures h == g && k == j
    {
      BlocksDisjoint(s, h, k, g, j);
    }
  }

  /** No two listed blocks below the top order are each other's partner. */
  lemma FullyCoalesced(b: Buddy, h: nat, k: nat)
    requires Inv(b) && k < MAX_ORDER && h in b.lists[k]
    ensures Partner(h, k) !in b.lists[k]
  {
    hide Pow2, Aligned, Base, Weight, FreePages, Sibling, Xor;
    var s := FreePages(b.n, b.live);
    XorIsSibling(h, k);
    if Partner(h, k) in b.lists[k] {
      SiblingsFree(s, h, k);
    }
  }

  lemma SiblingsFree(s: set<nat>, h: nat, k: nat)
    requires Aligned(h, k) && Free(s, h, k) && Free(s, Sibling(h, k), k)
    ensures Free(s, Base(h, k + 1), k + 1)
  {
    hide Pow2, Aligned, Base, Sibling;
    Halves(h, k);
  }

  // ---------------------------------------------------------------- helpers

  lemma {:induction false} WithoutLength(s: seq<nat>, h: nat)
    requires h in s
    ensures |Without(s, h)| == |s| - 1
  {
    if s[0] != h {
      WithoutLength(s[1..], h);
    }
  }

  lemma {:induction false} Pow2Injective(j: nat, k: nat)
    requires Pow2(j) == Pow2(k)
    ensures j == k
  {
    if j < k { Pow2Monotone(j, k); } else if k < j { Pow2Monotone(k, j); }
  }
}
