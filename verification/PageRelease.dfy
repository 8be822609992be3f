/**
  The release as lines of code on descriptors, links and counters.  With the order of the
  allocation it does what `Release` says; `FreeNeedsItsOrder` says what any other order does.
 */
module PageRelease {
  import opened Types
  import opened Dyadic
  import opened FreeBlocks
  import opened BuddyLists
  import opened BuddyRuns
  import opened PageLists
  import opened MergeTest
  import opened PageMemory

  // ---------------------------------------------------------------- a release with its order

  /** The run of order k at h is free and on no list; the pages of t are the listed ones. */
  ghost predicate Merging(m: Memory, lists: seq<seq<nat>>, live: map<nat, nat>, t: set<nat>, h: nat, k: nat) {
    && Wired(m, lists) && Described(m.pages, live) && Canonical(lists, t) && |lists| == ORDERS
    && LiveOk(|m.pages|, live) && FreePages(|m.pages|, live) == t + Run(h, k) && t !! Run(h, k)
    && k <= MAX_ORDER && Aligned(h, k) && h < |m.pages| && m.pages[h].order == k
  }

  /** The merge test succeeds exactly when the partner is listed. */
  lemma TestDecides(m: Memory, lists: seq<seq<nat>>, live: map<nat, nat>, t: set<nat>, h: nat, k: nat)
    requires Merging(m, lists, live, t, h, k) && k < MAX_ORDER
    ensures LooksFree(m, Partner(h, k), k) <==> Partner(h, k) in lists[k]
  {
    hide Pow2, Aligned, Base, Weight, Block, Linked, Run, Distinct, Described, Canonical, Counted, LiveOk,
      FreePages, Xor, LinksOk;
    DescriptorTest(m.pages, m.heads, lists, live, t, h, k);
  }

  lemma JoinKeeps(m: Memory, lists: seq<seq<nat>>, live: map<nat, nat>, t: set<nat>, h: nat, k: nat)
    requires Merging(m, lists, live, t, h, k) && k < MAX_ORDER && Partner(h, k) in lists[k]
    ensures LooksFree(m, Partner(h, k), k)
    ensures var p := Partner(h, k);
      Merging(Joined(m, h, k), lists[k := Without(lists[k], p)], live, t - Run(p, k), if p < h then p else h, k + 1)
  {
    hide Pow2, Aligned, Base, Weight, Block, Linked, Run, Distinct, Described, SameDescriptors, Canonical,
      Counted, Unlisted, LiveOk, FreePages, Without, Xor, LinksOk, Pulled;
    TestDecides(m, lists, live, t, h, k);
    var p := Partner(h, k);
    var b := if p < h then p else h;
    var lists', t' := lists[k := Without(lists[k], p)], t - Run(p, k);
    MergeStep(lists, t, h, k);
    PullKeeps(m, lists, k, p);
    var m1 := Pulled(m, k, p);
    SameDescribed(m.pages, m1.pages, live, h);
    FreeHead(|m.pages|, live, t', b, k + 1);
    NotListed(lists', t', b);
    FreeDescriptor(m1.pages, live, b, k + 1);
    DescribeKeeps(m1, lists', b, m1.pages[b].(order := k + 1));
  }

  /** The merge loop on descriptors does to the lists what `MergeLists` says. */
  lemma {:induction false} MergedKeeps(m: Memory, lists: seq<seq<nat>>, live: map<nat, nat>, t: set<nat>,
                                       h: nat, k: nat)
    requires Merging(m, lists, live, t, h, k)
    ensures Wired(Merged(m, h, k), MergeLists(lists, h, k)) && Described(Merged(m, h, k).pages, live)
    decreases MAX_ORDER - k
  {
    hide Pow2, Aligned, Base, Weight, Block, Linked, Run, Distinct, Described, SameDescriptors, Canonical,
      Counted, Unlisted, LiveOk, FreePages, Without, Xor, LinksOk, Pulled, Joined, LooksFree, Pushed;
    var p := Partner(h, k);
    if k < MAX_ORDER {
      TestDecides(m, lists, live, t, h, k);
      if p in lists[k] {
        JoinKeeps(m, lists, live, t, h, k);
        MergedKeeps(Joined(m, h, k), lists[k := Without(lists[k], p)], live, t - Run(p, k),
                    if p < h then p else h, k + 1);
        return;
      }
    }
    FreeHead(|m.pages|, live, t, h, k);
    NotListed(lists, t, h);
    PushKeeps(m, lists, k, h);
    SameDescribed(m.pages, Pushed(m, k, h).pages, live, h);
  }

  lemma ReturnedAccounts(stats: Stats, n: nat, free: nat, usage: seq<nat>, back: nat)
    requires Accounted(stats, n, free, usage) && n <= MAX_PHYS_PAGES && back <= n - free
    ensures Accounted(Returned(stats, back, FLAG_KERNEL), n, free + back, usage + [n - (free + back)])
  {
    hide Peak, WrapAdd, WrapSub;
    NoWrap(free, back);
    NoWrap(n - free, back);
    PeakSnoc(usage, n - (free + back));
    PeakAtLeast(usage, usage[|usage| - 1]);
  }

  /** Releasing a live allocation with its order keeps the memory consistent; the lists
      become those of `MergeLists`. */
  lemma FreedKeeps(m: Memory, lists: seq<seq<nat>>, live: map<nat, nat>, usage: seq<nat>, h: nat)
    requires Consistent(m, lists, live, usage) && |lists| == ORDERS && h in live && live[h] <= MAX_ORDER
    ensures Consistent(Freed(m, h, live[h]), MergeLists(lists, h, live[h]), live - {h},
                       usage + [InUse(|m.pages|, live - {h})])
  {
    hide Pow2, Aligned, Base, Weight, Block, Linked, Run, Distinct, Described, Canonical, Counted, Unlisted,
      LiveOk, FreePages, MergeLists, Accounted, Free, LinksOk, Merged, Inv, Returned;
    var n, s, k, b := |m.pages|, FreePages(|m.pages|, live), live[h], Buddy(|m.pages|, lists, live);
    LiveInRange(b, h);
    LiveFlags(m.pages, live, h);
    ReleaseKeeps(b, h);
    ReturnedRun(b, s, h);
    InvShape(b);
    ReturnedAccounts(m.stats, n, |s|, usage, Pow2(k));
    Reclaimed(m.pages, live, h, k);
    var page := Reset(m.pages[h], k);
    DescribeKeeps(m, lists, h, page);
    var m1 := m.(stats := Returned(m.stats, Pow2(k), m.pages[h].flags), pages := m.pages[h := page]);
    MergedKeeps(m1, lists, live - {h}, s, h, k);
  }

  // ---------------------------------------------------------------- a release with any order

  /** Whatever order a release is called with, it leaves every other allocation described. */
  lemma {:induction false} MergedDescribed(m: Memory, live: map<nat, nat>, h: nat, k: nat)
    requires Safe(m) && Described(m.pages, live) && h < |m.pages| && h !in live && k <= MAX_ORDER
    ensures Described(Merged(m, h, k).pages, live)
    decreases MAX_ORDER - k
  {
    hide Described, SameDescriptors, LinksOk, Xor, Joined, LooksFree, Pushed, AfterAdd, Pow2;
    var p := Partner(h, k);
    if k < MAX_ORDER && LooksFree(m, p, k) {
      JoinedDescribed(m, live, h, k);
      MergedDescribed(Joined(m, h, k), live, if p < h then p else h, k + 1);
    } else {
      HeadInRange(m, k);
      AddDescriptors(m.pages, m.heads[k], h);
      PushedPages(m, k, h);
      SameDescribed(m.pages, Pushed(m, k, h).pages, live, h);
    }
  }

  lemma HeadInRange(m: Memory, k: nat)
    requires Safe(m) && k < ORDERS
    ensures |m.heads| == ORDERS && InRange(m.heads[k], |m.pages|)
  {
  }

  lemma PushedPages(m: Memory, o: nat, p: nat)
    requires Safe(m) && o < ORDERS && p < |m.pages| && |m.heads| == ORDERS && InRange(m.heads[o], |m.pages|)
    ensures Pushed(m, o, p).pages == AfterAdd(m.pages, m.heads[o], p)
  {
  }

  lemma JoinedDescribed(m: Memory, live: map<nat, nat>, h: nat, k: nat)
    requires Safe(m) && Described(m.pages, live) && h < |m.pages| && h !in live && k < MAX_ORDER
    requires LooksFree(m, Partner(h, k), k)
    ensures Partner(h, k) !in live && Described(Joined(m, h, k).pages, live)
  {
    hide Described, SameDescriptors, LinksOk, Xor, AfterRemove, HeadsAfterRemove;
    var p := Partner(h, k);
    LiveFlags(m.pages, live, p);
    RemoveLinksOk(m.pages, m.heads, k, p);
    RemoveDescriptors(m.pages, p);
    SameDescribed(m.pages, Pulled(m, k, p).pages, live, p);
    FreeDescriptor(Pulled(m, k, p).pages, live, if p < h then p else h, k + 1);
  }

  /** The descriptors determine the live allocations. */
  lemma LiveIsDetermined(pages: seq<Page>, live: map<nat, nat>, live': map<nat, nat>)
    requires Described(pages, live) && LiveOk(|pages|, live)
    requires Described(pages, live') && LiveOk(|pages|, live')
    ensures live == live'
  {
    hide Aligned, Pow2;
    forall h: nat ensures h in live <==> h in live' {
      LiveFlags(pages, live, h);
      LiveFlags(pages, live', h);
    }
  }

  lemma SmallPow2(k: nat)
    requires k <= MAX_ORDER
    ensures Pow2(k) <= 1024
  {
    if k < MAX_ORDER {
      Pow2Monotone(k, MAX_ORDER);
    }
  }

  ghost predicate Describable(m: Memory) {
    exists lists: seq<seq<nat>>, live: map<nat, nat>, usage: seq<nat> :: Consistent(m, lists, live, usage)
  }

  lemma NotConsistent(m: Memory, lists: seq<seq<nat>>, live: map<nat, nat>, usage: seq<nat>)
    ensures Consistent(m, lists, live, usage) ==> Describable(m)
  {
    hide Consistent;
  }

  /** The number of free pages after a release of a live allocation with any order. */
  lemma FreedCount(m: Memory, lists: seq<seq<nat>>, live: map<nat, nat>, usage: seq<nat>, h: nat, k: nat)
    requires Consistent(m, lists, live, usage) && h in live && k <= MAX_ORDER
    ensures h < |m.pages| && live[h] <= MAX_ORDER
    ensures Freed(m, h, k).stats.freePages == m.stats.freePages + Pow2(k)
    ensures FreePages(|m.pages|, live - {h}) == FreePages(|m.pages|, live) + Run(h, live[h])
    ensures |FreePages(|m.pages|, live - {h})| == m.stats.freePages + Pow2(live[h])
    ensures Described(Freed(m, h, k).pages, live - {h})
  {
    hide Pow2, Described, LiveOk, FreePages, Merged, Canonical, Linked, Counted, LinksOk, Run;
    var n, b := |m.pages|, Buddy(|m.pages|, lists, live);
    LiveInRange(b, h);
    LiveFlags(m.pages, live, h);
    ReturnedRun(b, FreePages(n, live), h);
    SmallPow2(k);
    NoWrap(|FreePages(n, live)|, Pow2(k));
    Reclaimed(m.pages, live, h, k);
    var page := Reset(m.pages[h], k);
    var m1 := m.(stats := Returned(m.stats, Pow2(k), m.pages[h].flags), pages := m.pages[h := page]);
    ResetSafe(m, h, k, m1.stats);
    MergedDescribed(m1, live - {h}, h, k);
  }

  /** A live allocation may be released with any order, and the source does not notice.  What
      it leaves is a consistent memory if and only if the order is the allocation's, and so
      is the number of free pages it reports. */
  lemma FreeNeedsItsOrder(m: Memory, lists: seq<seq<nat>>, live: map<nat, nat>, usage: seq<nat>, h: nat, k: nat)
    requires Consistent(m, lists, live, usage) && h in live && k <= MAX_ORDER
    ensures Describable(Freed(m, h, k)) <==> k == live[h]
    ensures Freed(m, h, k).stats.freePages == |FreePages(|m.pages|, live - {h})| <==> k == live[h]
  {
    hide Pow2, Described, FreePages, Freed, MergeLists, Canonical, Linked, Counted, LinksOk, LiveOk, Run;
    FreedCount(m, lists, live, usage, h, k);
    if Pow2(k) == Pow2(live[h]) {
      Pow2Injective(k, live[h]);
    }
    if k == live[h] {
      InvShape(Buddy(|m.pages|, lists, live));
      FreedKeeps(m, lists, live, usage, h);
    } else if Describable(Freed(m, h, k)) {
      var lists', live', usage' :| Consistent(Freed(m, h, k), lists', live', usage');
      LiveOkAfter(Buddy(|m.pages|, lists, live), h);
      LiveIsDetermined(Freed(m, h, k).pages, live', live - {h});
    }
  }

  lemma LiveOkAfter(b: Buddy, h: nat)
    requires Inv(b) && h in b.live
    ensures LiveOk(b.n, b.live - {h})
  {
    ReleaseLive(b.n, b.live, h);
  }

  // ---------------------------------------------------------------- four pages

  function Nulls(): (r: seq<Link>)
    ensures |r| == ORDERS
  {
    seq(ORDERS, _ => Null)
  }

  function Zeros(): (r: seq<nat>)
    ensures |r| == ORDERS
  {
    seq(ORDERS, _ => 0)
  }

  /** Four pages after the first two have been allocated as one run of order 1. */
  function FourPages(): Memory {
    Memory([Page(0, 1, FLAG_KERNEL, 1, Null, Null), Page(1, 0, FLAG_FREE, 0, Null, Null),
            Page(2, 1, FLAG_FREE, 0, Null, Null), Page(3, 0, FLAG_FREE, 0, Null, Null)],
           Nulls()[1 := To(2)], Zeros()[1 := 1], Stats(4, 2, 0, 2, 0, 2))
  }

  lemma FourPagesStart()
    ensures Initial(4) == Buddy(4, NoBlocks()[2 := [0]], map[])
    ensures Alloc(Initial(4), 1) == (Buddy(4, NoBlocks()[1 := [2]], map[0 := 1]), Some(0))
    ensures Inv(Buddy(4, NoBlocks()[2 := [0]], map[])) && |FreePages(4, map[])| == 4
    ensures Inv(Buddy(4, NoBlocks()[1 := [2]], map[0 := 1])) && |FreePages(4, map[0 := 1])| == 2
  {
    hide Inv, FreePages, Run;
    FourPagesLists();
    InitialKeeps(4);
    AllocKeeps(Initial(4), 1);
    var s, t := FreePages(4, map[]), FreePages(4, map[0 := 1]);
    assert map[][0 := 1] == map[0 := 1];
    SmallerBy(s, t, 0, 1);
  }

  lemma FourPagesLists()
    ensures Initial(4) == Buddy(4, NoBlocks()[2 := [0]], map[])
    ensures Alloc(Initial(4), 1) == (Buddy(4, NoBlocks()[1 := [2]], map[0 := 1]), Some(0))
  {
    hide NoBlocks;
    var none, whole := NoBlocks(), NoBlocks()[2 := [0]];
    assert Pow2(2) == 4 && Pow2(3) == 8;
    var o := FittingOrder(4, MAX_ORDER);
    assert o == 2 by {
      if o > 2 { Pow2Monotone(3, o); }
    }
    assert [0] + none[2] == [0] && [2] + none[1] == [2];
    assert GreedyLists(none, 0, 4) == GreedyLists(whole, 4, 0);
    assert FirstFit(whole, 1) == 2;
    assert whole[2 := whole[2][1..]] == none;
    assert SplitLists(none, 0, 2, 1) == SplitLists(none[1 := [2] + none[1]], 0, 1, 1);
    assert map[][0 := 1] == map[0 := 1];
  }

  lemma FourPagesConsistent()
    ensures Consistent(FourPages(), NoBlocks()[1 := [2]], map[0 := 1], [0, 2])
  {
    hide Inv, FreePages;
    FourPagesStart();
    var m, lists := FourPages(), NoBlocks()[1 := [2]];
    forall k: nat | k < ORDERS ensures Chain(m.pages, m.heads[k], lists[k], k) {
    }
    assert Peak([0, 2]) == 2;
  }

  /** Releasing the run of order 1 with order 0: the unsplit page 1 still carries a free
      descriptor of order 0 and is merged, page 2 next.  The lists end as those of four free
      pages, but the counter of order 0 wraps around and one page is missing from the
      statistics. */
  lemma FourPagesWrongOrder()
    ensures Freed(FourPages(), 0, 0) == FourPagesLeft() && !Describable(FourPagesLeft())
    ensures Linked(FourPagesLeft().pages, FourPagesLeft().heads, NoBlocks()[2 := [0]])
    ensures Described(FourPagesLeft().pages, map[]) && Inv(Buddy(4, NoBlocks()[2 := [0]], map[]))
    ensures FourPagesLeft().stats.freePages == 3 && |FreePages(4, map[])| == 4
  {
    hide Inv, FreePages, Describable, Linked, NoBlocks, Described, Consistent;
    FourPagesStart();
    FourPagesConsistent();
    FreeNeedsItsOrder(FourPages(), NoBlocks()[1 := [2]], map[0 := 1], [0, 2], 0, 0);
    FourPagesFreed();
    FourPagesLinked();
  }

  /** What the release with order 0 leaves. */
  function FourPagesLeft(): Memory {
    Memory([Page(0, 2, FLAG_FREE, 0, Null, Null), Page(1, 0, FLAG_FREE, 0, Null, Null),
            Page(2, 1, FLAG_FREE, 0, Null, Null), Page(3, 0, FLAG_FREE, 0, Null, Null)],
           Nulls()[2 := To(0)], Zeros()[0 := U64 - 1][2 := 1], Stats(4, 3, 0, 1, 0, 2))
  }

  lemma FourPagesFreed()
    ensures Freed(FourPages(), 0, 0) == FourPagesLeft()
  {
    assert Xor(0, 1) == 1 && Xor(0, 2) == 2 && Xor(0, 4) == 4;
    var m0 := FourPages();
    var m1 := m0.(stats := Stats(4, 3, 0, 1, 0, 2), pages := m0.pages[0 := Page(0, 0, FLAG_FREE, 0, Null, Null)]);
    var m2 := m1.(pages := m1.pages[0 := Page(0, 1, FLAG_FREE, 0, Null, Null)], counts := m1.counts[0 := U64 - 1]);
    var m3 := m2.(pages := m2.pages[0 := Page(0, 2, FLAG_FREE, 0, Null, Null)], heads := Nulls(),
                  counts := m2.counts[1 := 0]);
    assert Joined(m1, 0, 0) == m2;
    assert Joined(m2, 0, 1) == m3;
    assert Merged(m3, 0, 2) == FourPagesLeft();
  }

  lemma FourPagesLinked()
    ensures var m := FourPagesLeft(); Linked(m.pages, m.heads, NoBlocks()[2 := [0]]) && Described(m.pages, map[])
  {
  }
}
