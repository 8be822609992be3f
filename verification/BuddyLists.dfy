/**
  The buddy allocator as a function on its free lists: which block an allocation takes, where
  the split-off halves go, which siblings a release merges.  `Inv` says that the lists hold
  exactly the blocks of the set of free pages, and every operation keeps it.
 */
module BuddyLists {
  import opened Types
  import opened Dyadic
  import opened FreeBlocks

  const ORDERS: nat := MAX_ORDER + 1

  /** n pages, the free list of each order, and the order of each live allocation by its
      first page. */
  datatype Buddy = Buddy(n: nat, lists: seq<seq<nat>>, live: map<nat, nat>)

  // ---------------------------------------------------------------- live allocations

  ghost predicate Covered(live: map<nat, nat>, p: nat) {
    exists h: nat :: h in live && h <= p < h + Pow2(live[h])
  }

  ghost predicate LiveOk(n: nat, live: map<nat, nat>) {
    && (forall h: nat :: h in live ==>
          live[h] <= MAX_ORDER && Aligned(h, live[h]) && h + Pow2(live[h]) <= n)
    && (forall h: nat, g: nat :: h in live && g in live && h != g ==> !Overlap(h, live[h], g, live[g]))
  }

  ghost function FreePages(n: nat, live: map<nat, nat>): (s: set<nat>)
    ensures forall p: nat :: p in s <==> p < n && !Covered(live, p)
  {
    set p: nat | p in Interval(0, n) && !Covered(live, p)
  }

  lemma CoveredAfterAlloc(live: map<nat, nat>, h: nat, k: nat, p: nat)
    requires h !in live
    ensures Covered(live[h := k], p) <==> Covered(live, p) || h <= p < h + Pow2(k)
  {
    hide Pow2;
    var live' := live[h := k];
    if Covered(live, p) {
      var g: nat :| g in live && g <= p < g + Pow2(live[g]);
      assert g in live' && live'[g] == live[g];
    }
    assert h in live' && live'[h] == k;
  }

  lemma CoveredAfterRelease(n: nat, live: map<nat, nat>, h: nat, p: nat)
    requires LiveOk(n, live) && h in live
    ensures Covered(live - {h}, p) <==> Covered(live, p) && !(h <= p < h + Pow2(live[h]))
  {
    hide Pow2, Aligned;
    if Covered(live, p) {
      var g: nat :| g in live && g <= p < g + Pow2(live[g]);
      assert g != h ==> g in live - {h};
    }
    if Covered(live - {h}, p) {
      var g: nat :| g in live - {h} && g <= p < g + Pow2((live - {h})[g]);
      assert g in live && !Overlap(g, live[g], h, live[h]);
    }
  }

  lemma AllocLive(n: nat, live: map<nat, nat>, h: nat, k: nat)
    requires LiveOk(n, live) && k <= MAX_ORDER && Aligned(h, k)
    requires Free(FreePages(n, live), h, k)
    ensures h !in live && LiveOk(n, live[h := k])
    ensures FreePages(n, live[h := k]) == FreePages(n, live) - Run(h, k)
    ensures Run(h, k) <= FreePages(n, live)
  {
    hide Pow2, Aligned, Run, FreePages;
    var s, live' := FreePages(n, live), live[h := k];
    assert h in s && h + Pow2(k) - 1 in s;
    assert h in live ==> Covered(live, h);
    forall g: nat | g in live ensures !Overlap(h, k, g, live[g]) {
      var q := if h < g then g else h;
      assert h <= q < h + Pow2(k) ==> q in s;
    }
    forall p: nat ensures p in FreePages(n, live') <==> p in s && p !in Run(h, k) {
      CoveredAfterAlloc(live, h, k, p);
    }
  }

  lemma ReleaseLive(n: nat, live: map<nat, nat>, h: nat)
    requires LiveOk(n, live) && h in live
    ensures LiveOk(n, live - {h})
    ensures FreePages(n, live - {h}) == FreePages(n, live) + Run(h, live[h])
    ensures FreePages(n, live) !! Run(h, live[h])
  {
    hide Pow2, Aligned, Run, FreePages;
    var s, live' := FreePages(n, live), live - {h};
    forall p: nat | p in Run(h, live[h]) ensures Covered(live, p) {
      assert h in live;
    }
    forall p: nat ensures p in FreePages(n, live') <==> p in s || p in Run(h, live[h]) {
      CoveredAfterRelease(n, live, h, p);
    }
  }

  // ---------------------------------------------------------------- free lists

  ghost predicate Distinct(s: seq<nat>) {
    forall i, j :: 0 <= i < j < |s| ==> s[i] != s[j]
  }

  /** Total number of pages on the lists: a block of the first list counts once, one of
      the second twice, and so on. */
  ghost function Weight(lists: seq<seq<nat>>): nat {
    if |lists| == 0 then 0 else |lists[0]| + 2 * Weight(lists[1..])
  }

  /** The lists hold exactly the blocks of s, each once. */
  ghost predicate Canonical(lists: seq<seq<nat>>, s: set<nat>) {
    && |lists| == ORDERS
    && (forall k: nat, h: nat :: k <= MAX_ORDER ==> (h in lists[k] <==> Block(s, h, k)))
    && (forall k: nat :: k <= MAX_ORDER ==> Distinct(lists[k]))
    && Weight(lists) == |s|
  }

  ghost predicate Inv(b: Buddy) {
    LiveOk(b.n, b.live) && Canonical(b.lists, FreePages(b.n, b.live))
  }

  lemma {:induction false} WeightGrows(lists: seq<seq<nat>>, k: nat, s: seq<nat>)
    requires k < |lists| && |s| == |lists[k]| + 1
    ensures Weight(lists[k := s]) == Weight(lists) + Pow2(k)
  {
    if k == 0 {
      assert lists[k := s][1..] == lists[1..];
    } else {
      assert lists[k := s][1..] == lists[1..][k - 1 := s];
      WeightGrows(lists[1..], k - 1, s);
    }
  }

  lemma WeightShrinks(lists: seq<seq<nat>>, k: nat, s: seq<nat>)
    requires k < |lists| && |s| == |lists[k]| - 1
    ensures Weight(lists[k := s]) == Weight(lists) - Pow2(k)
  {
    hide Weight, Pow2;
    assert lists[k := s][k := lists[k]] == lists;
    WeightGrows(lists[k := s], k, lists[k]);
  }

  /** s without its first occurrence of h. */
  function Without(s: seq<nat>, h: nat): (r: seq<nat>)
  {
    if s == [] then [] else if s[0] == h then s[1..] else [s[0]] + Without(s[1..], h)
  }

  lemma {:induction false} WithoutAt(s: seq<nat>, h: nat, i: nat)
    requires Distinct(s) && i < |s| && s[i] == h
    ensures Without(s, h) == s[..i] + s[i + 1..]
  {
    if i != 0 {
      assert s[0] != s[i];
      WithoutAt(s[1..], h, i - 1);
      assert s[1..][..i - 1] == s[1..i];
      assert s[1..][i..] == s[i + 1..];
    }
  }

  lemma DistinctWithout(s: seq<nat>, h: nat)
    requires Distinct(s) && h in s
    ensures Distinct(Without(s, h)) && |Without(s, h)| == |s| - 1
    ensures forall x: nat :: x in Without(s, h) <==> x in s && x != h
  {
    var i: nat :| i < |s| && s[i] == h;
    WithoutAt(s, h, i);
    forall x: nat ensures x in Without(s, h) <==> x in s && x != h {
      if x in s && x != h {
        var j: nat :| j < |s| && s[j] == x;
        assert Without(s, h)[if j < i then j else j - 1] == x;
      }
    }
  }

  /** Unlinking one block keeps the lists canonical for what remains free. */
  lemma RemoveCanonical(lists: seq<seq<nat>>, s: set<nat>, h: nat, k: nat)
    requires Canonical(lists, s) && k <= MAX_ORDER && h in lists[k]
    ensures Block(s, h, k) && Run(h, k) <= s
    ensures Canonical(lists[k := Without(lists[k], h)], s - Run(h, k))
  {
    hide Pow2, Aligned, Run, Base, Weight, Without;
    var lists', s' := lists[k := Without(lists[k], h)], s - Run(h, k);
    DistinctWithout(lists[k], h);
    forall j: nat, g: nat | j <= MAX_ORDER ensures g in lists'[j] <==> Block(s', g, j) {
      RemoveBlock(s, h, k, g, j);
    }
    assert Run(h, k) <= s by {
      forall p: nat | p in Run(h, k) ensures p in s {}
    }
    WeightShrinks(lists, k, Without(lists[k], h));
  }

  lemma BlockStart(s: set<nat>, h: nat, k: nat)
    ensures Block(s, h, k) ==> h in s
  {
    hide Pow2, Aligned, Base;
    assert h < h + Pow2(k);
  }

  /** Linking in a run whose sibling is not a whole free block keeps the lists canonical. */
  lemma AddCanonical(lists: seq<seq<nat>>, s: set<nat>, h: nat, k: nat)
    requires Canonical(lists, s) && k <= MAX_ORDER && Aligned(h, k) && s !! Run(h, k)
    requires k < MAX_ORDER ==> !Free(s, Sibling(h, k), k)
    ensures Canonical(lists[k := [h] + lists[k]], s + Run(h, k))
    ensures forall j: nat :: j <= MAX_ORDER ==> h !in lists[j]
  {
    hide Pow2, Aligned, Run, Base, Weight, Sibling, Block, Free;
    var lists', s' := lists[k := [h] + lists[k]], s + Run(h, k);
    assert h in Run(h, k);
    forall j: nat | j <= MAX_ORDER ensures h !in lists[j] {
      BlockStart(s, h, j);
    }
    forall j: nat, g: nat | j <= MAX_ORDER ensures g in lists'[j] <==> Block(s', g, j) {
      AddBlock(s, h, k, g, j);
    }
    WeightGrows(lists, k, [h] + lists[k]);
  }

  /** Next to a run that is not free, the merge test of the free lists asks exactly whether
      the whole sibling is free. */
  lemma MergeTest(lists: seq<seq<nat>>, s: set<nat>, h: nat, k: nat)
    requires Canonical(lists, s) && k < MAX_ORDER && Aligned(h, k) && h !in s
    ensures Sibling(h, k) in lists[k] <==> Free(s, Sibling(h, k), k)
  {
    hide Pow2, Aligned, Base, Weight, Sibling;
    Halves(h, k);
    Halves(Sibling(h, k), k);
    assert Base(h, k + 1) <= h < Base(h, k + 1) + Pow2(k + 1);
  }

  // ---------------------------------------------------------------- operations

  /** The smallest order from k up whose list is not empty, ORDERS when there is none. */
  function FirstFit(lists: seq<seq<nat>>, k: nat): (o: nat)
    requires |lists| == ORDERS && k <= ORDERS
    ensures k <= o <= ORDERS && (o < ORDERS ==> lists[o] != [])
    ensures forall j: nat :: k <= j < o ==> lists[j] == []
    decreases ORDERS - k
  {
    if k == ORDERS || lists[k] != [] then k else FirstFit(lists, k + 1)
  }

  /** Cuts the run of order k at h down to order target, listing each upper half. */
  function SplitLists(lists: seq<seq<nat>>, h: nat, k: nat, target: nat): (r: seq<seq<nat>>)
    requires k <= |lists|
    ensures |r| == |lists|
    decreases k
  {
    if k <= target then lists
    else SplitLists(lists[k - 1 := [h + Pow2(k - 1)] + lists[k - 1]], h, k - 1, target)
  }

  function Partner(h: nat, k: nat): nat {
    Xor(h, Pow2(k))
  }

  /** Merges the run of order k at h with its partner as long as that one is listed. */
  function MergeLists(lists: seq<seq<nat>>, h: nat, k: nat): (r: seq<seq<nat>>)
    requires |lists| == ORDERS && k <= MAX_ORDER
    ensures |r| == |lists|
    decreases MAX_ORDER - k
  {
    var p := Partner(h, k);
    if k < MAX_ORDER && p in lists[k] then
      MergeLists(lists[k := Without(lists[k], p)], if p < h then p else h, k + 1)
    else
      lists[k := [h] + lists[k]]
  }

  function Alloc(b: Buddy, k: nat): (r: (Buddy, Option<nat>))
    requires |b.lists| == ORDERS
    ensures |r.0.lists| == ORDERS
  {
    if k > MAX_ORDER then (b, None) else
    var o := FirstFit(b.lists, k);
    if o == ORDERS then (b, None) else
    var h := b.lists[o][0];
    var rest := b.lists[o := b.lists[o][1..]];
    (Buddy(b.n, SplitLists(rest, h, o, k), b.live[h := k]), Some(h))
  }

  function Release(b: Buddy, h: nat, k: nat): (b': Buddy)
    requires |b.lists| == ORDERS
    ensures |b'.lists| == ORDERS
  {
    if k > MAX_ORDER || h !in b.live then b
    else Buddy(b.n, MergeLists(b.lists, h, k), b.live - {h})
  }

  // ---------------------------------------------------------------- what the operations keep

  /** The upper half of a run has the lower half as its sibling. */
  lemma UpperHalf(h: nat, k: nat)
    requires Aligned(h, k + 1)
    ensures Aligned(h, k) && Pow2(k + 1) == 2 * Pow2(k)
    ensures Aligned(h + Pow2(k), k) && Sibling(h + Pow2(k), k) == h
  {
    hide Pow2, Aligned, Base, Sibling;
    AlignedDown(h, k, k + 1);
    Halves(h, k);
    BaseUnique(h, k + 1, h) by { assert h < h + Pow2(k + 1); }
  }

  lemma UpperRun(h: nat, k: nat)
    requires Pow2(k + 1) == 2 * Pow2(k)
    ensures var u := h + Pow2(k);
      Run(h, k + 1) == Run(h, k) + Run(u, k) && Run(h, k) !! Run(u, k) && h in Run(h, k)
  {
    hide Pow2, Run;
  }

  lemma {:induction false} SplitCanonical(lists: seq<seq<nat>>, s: set<nat>, h: nat, k: nat, target: nat)
    requires Canonical(lists, s) && target <= k <= MAX_ORDER && Aligned(h, k) && s !! Run(h, k)
    ensures Canonical(SplitLists(lists, h, k, target), s + (Run(h, k) - Run(h, target)))
    ensures Aligned(h, target) && Run(h, target) <= Run(h, k)
    decreases k
  {
    hide Pow2, Aligned, Run, Base, Weight, Sibling, Canonical;
    CanonicalLength(lists, s);
    if target < k {
      var u := h + Pow2(k - 1);
      UpperHalf(h, k - 1);
      UpperRun(h, k - 1);
      AddCanonical(lists, s, u, k - 1);
      var lists', s' := lists[k - 1 := [u] + lists[k - 1]], s + Run(u, k - 1);
      SplitCanonical(lists', s', h, k - 1, target);
      assert s' + (Run(h, k - 1) - Run(h, target)) == s + (Run(h, k) - Run(h, target));
    } else {
      assert s + (Run(h, k) - Run(h, target)) == s;
    }
  }

  lemma CanonicalLength(lists: seq<seq<nat>>, s: set<nat>)
    requires Canonical(lists, s)
    ensures |lists| == ORDERS
  {
  }

  /** One merge: the partner's pages move from the listed pages into the merged run. */
  lemma MergeStep(lists: seq<seq<nat>>, s: set<nat>, h: nat, k: nat)
    requires Canonical(lists, s) && |lists| == ORDERS && k < MAX_ORDER && Aligned(h, k) && s !! Run(h, k)
    requires Partner(h, k) in lists[k]
    ensures var p := Partner(h, k);
      var b := if p < h then p else h;
      && Canonical(lists[k := Without(lists[k], p)], s - Run(p, k))
      && Aligned(b, k + 1) && s - Run(p, k) !! Run(b, k + 1)
      && s + Run(h, k) == s - Run(p, k) + Run(b, k + 1)
  {
    hide Pow2, Aligned, Base, Weight, Block, Run, Canonical, Without, Sibling, Xor;
    XorIsSibling(h, k);
    var p := Sibling(h, k);
    RemoveCanonical(lists, s, p, k);
    TwoHalves(h, k);
  }

  lemma TwoHalves(h: nat, k: nat)
    requires Aligned(h, k)
    ensures var p := Sibling(h, k);
      var b := if p < h then p else h;
      Aligned(b, k + 1) && Run(b, k + 1) == Run(h, k) + Run(p, k) && Run(h, k) !! Run(p, k)
  {
    hide Pow2, Aligned, Base, Run, Sibling;
    Halves(h, k);
  }

  lemma {:induction false} MergeCanonical(lists: seq<seq<nat>>, s: set<nat>, h: nat, k: nat)
    requires Canonical(lists, s) && k <= MAX_ORDER && Aligned(h, k) && s !! Run(h, k)
    ensures Canonical(MergeLists(lists, h, k), s + Run(h, k))
    decreases MAX_ORDER - k
  {
    hide Pow2, Aligned, Run, Base, Weight, Sibling, Canonical, Xor, Without, Free;
    CanonicalLength(lists, s);
    assert h in Run(h, k);
    XorIsSibling(h, k);
    var p := Sibling(h, k);
    if k < MAX_ORDER {
      MergeTest(lists, s, h, k);
      if p in lists[k] {
        MergeStep(lists, s, h, k);
        MergeCanonical(lists[k := Without(lists[k], p)], s - Run(p, k), if p < h then p else h, k + 1);
        return;
      }
    }
    AddCanonical(lists, s, h, k);
  }

  /** An allocation fails exactly when no aligned run of 2^k pages is wholly free; otherwise
      it takes such a run, and the lists are canonical again. */
  lemma AllocKeeps(b: Buddy, k: nat)
    requires Inv(b)
    ensures Inv(Alloc(b, k).0) && Alloc(b, k).0.n == b.n
    ensures Alloc(b, k).1 == None <==>
            k > MAX_ORDER || forall h: nat :: Aligned(h, k) ==> !Free(FreePages(b.n, b.live), h, k)
    ensures Alloc(b, k).1 == None ==> Alloc(b, k).0 == b
    ensures forall h: nat :: Alloc(b, k).1 == Some(h) ==>
              && Aligned(h, k) && h + Pow2(k) <= b.n && Run(h, k) <= FreePages(b.n, b.live)
              && h !in b.live && Alloc(b, k).0.live == b.live[h := k]
              && FreePages(b.n, b.live[h := k]) == FreePages(b.n, b.live) - Run(h, k)
  {
    hide Pow2, Aligned, Run, Base, Weight, Sibling, FreePages, LiveOk, SplitLists;
    var s := FreePages(b.n, b.live);
    if k <= MAX_ORDER {
      var o := FirstFit(b.lists, k);
      if o == ORDERS {
        forall h: nat | Aligned(h, k) ensures !Free(s, h, k) {
          if Free(s, h, k) {
            var g, j := BlockAround(s, h, k);
          }
        }
      } else {
        var h := b.lists[o][0];
        AllocFrom(b, s, h, k, o);
      }
    }
  }

  lemma AllocFrom(b: Buddy, s: set<nat>, h: nat, k: nat, o: nat)
    requires Inv(b) && s == FreePages(b.n, b.live)
    requires k <= o <= MAX_ORDER && b.lists[o] != [] && h == b.lists[o][0]
    ensures Aligned(h, k) && Free(s, h, k) && h + Pow2(k) <= b.n && Run(h, k) <= s
    ensures h !in b.live && FreePages(b.n, b.live[h := k]) == s - Run(h, k)
    ensures Inv(Buddy(b.n, SplitLists(b.lists[o := b.lists[o][1..]], h, o, k), b.live[h := k]))
  {
    hide Pow2, Aligned, Run, Base, Weight, Sibling, FreePages, SplitLists, Canonical, Block, Without;
    CanonicalLength(b.lists, s);
    RemoveCanonical(b.lists, s, h, o);
    WithoutAt(b.lists[o], h, 0) by { CanonicalDistinct(b.lists, s, o); }
    assert b.lists[o][..0] + b.lists[o][0 + 1..] == b.lists[o][1..];
    BlockAligned(s, h, o);
    SplitCanonical(b.lists[o := b.lists[o][1..]], s - Run(h, o), h, o, k);
    assert h + Pow2(k) - 1 in Run(h, k);
    assert Free(s, h, k) by {
      forall p: nat | h <= p < h + Pow2(k) ensures p in s { assert p in Run(h, k); }
    }
    AllocLive(b.n, b.live, h, k);
    assert s - Run(h, o) + (Run(h, o) - Run(h, k)) == s - Run(h, k);
  }

  lemma BlockAligned(s: set<nat>, h: nat, k: nat)
    requires Block(s, h, k)
    ensures Aligned(h, k) && k <= MAX_ORDER
  {
  }

  lemma CanonicalDistinct(lists: seq<seq<nat>>, s: set<nat>, k: nat)
    requires Canonical(lists, s) && k <= MAX_ORDER
    ensures |lists| == ORDERS && Distinct(lists[k])
  {
  }

  /** Releasing an allocation with its own order makes exactly its pages free again. */
  lemma ReleaseKeeps(b: Buddy, h: nat)
    requires Inv(b) && h in b.live
    ensures Inv(Release(b, h, b.live[h]))
    ensures FreePages(b.n, b.live - {h}) == FreePages(b.n, b.live) + Run(h, b.live[h])
  {
    hide Pow2, Aligned, Run, FreePages, Canonical, MergeLists;
    ReleaseLive(b.n, b.live, h);
    MergeCanonical(b.lists, FreePages(b.n, b.live), h, b.live[h]);
    CanonicalLength(b.lists, FreePages(b.n, b.live));
  }
}
