/**
  The physical page allocator: an array of page descriptors, one free list and one counter
  per order, and the statistics, all updated in place.
 */
module PhysMemory {
  import opened Types
  import opened Dyadic
  import opened FreeBlocks
  import opened BuddyLists
  import opened BuddyRuns
  import opened PageLists
  import opened MergeTest
  import opened PageMemory
  import opened PageRelease

  const PAGE_SIZE: nat := 4096

  class PhysMemory {
    var pages: array<Page>
    var totalPages: nat
    var physBase: nat
    const freeLists: array<Link>
    const freeCount: array<nat>
    var stats: Stats
    var ready: bool
    /** The pages on each free list, front first. */
    ghost var lists: seq<seq<nat>>
    /** The live allocations: order by first page. */
    ghost var live: map<nat, nat>
    /** Pages in use after initialization and after every allocation and release since. */
    ghost var usage: seq<nat>

    ghost function Mem(): Memory
      reads this, pages, freeLists, freeCount
    {
      Memory(pages[..], freeLists[..], freeCount[..], stats)
    }

    ghost function Abs(): Buddy
      reads this
    {
      Buddy(totalPages, lists, live)
    }

    ghost predicate Listed()
      reads this, pages, freeLists, freeCount
    {
      pages.Length == totalPages && Wired(Mem(), lists)
    }

    /** No access leaves the arrays. */
    ghost predicate Sound()
      reads this, pages, freeLists, freeCount
    {
      && freeLists.Length == freeCount.Length == ORDERS
      && (ready ==> pages.Length == totalPages && Safe(Mem()))
    }

    ghost predicate Valid()
      reads this, pages, freeLists, freeCount
    {
      Sound() && (ready ==> Consistent(Mem(), lists, live, usage))
    }

    constructor ()
      ensures Valid() && !ready
    {
      pages := new Page[0];
      totalPages, physBase, ready := 0, 0, false;
      freeLists := new Link[ORDERS];
      freeCount := new nat[ORDERS];
      stats := Stats(0, 0, 0, 0, 0, 0);
      lists, live, usage := NoBlocks(), map[], [];
    }

    method ListAdd(o: nat, p: nat)
      requires o < freeLists.Length && p < pages.Length && InRange(freeLists[o], pages.Length)
      modifies pages, freeLists
      ensures pages[..] == AfterAdd(old(pages[..]), old(freeLists[o]), p)
      ensures freeLists[..] == old(freeLists[..])[o := To(p)]
    {
      pages[p] := pages[p].(next := freeLists[o], prev := Null);
      if freeLists[o].To? {
        pages[freeLists[o].pfn] := pages[freeLists[o].pfn].(prev := To(p));
      }
      freeLists[o] := To(p);
    }

    method ListRemove(o: nat, p: nat)
      requires o < freeLists.Length && p < pages.Length
      requires InRange(pages[p].next, pages.Length) && InRange(pages[p].prev, pages.Length)
      modifies pages, freeLists
      ensures pages[..] == AfterRemove(old(pages[..]), p)
      ensures freeLists[..] == HeadsAfterRemove(old(pages[..]), old(freeLists[..]), o, p)
    {
      if pages[p].prev.To? {
        pages[pages[p].prev.pfn] := pages[pages[p].prev.pfn].(next := pages[p].next);
      } else {
        freeLists[o] := pages[p].next;
      }
      if pages[p].next.To? {
        pages[pages[p].next.pfn] := pages[pages[p].next.pfn].(prev := pages[p].prev);
      }
      pages[p] := pages[p].(next := Null, prev := Null);
    }

    /** Links page p in front of list o and counts it, whatever the lists are. */
    method PushBlock(o: nat, p: nat)
      requires Safe(Mem()) && o < ORDERS && p < pages.Length
      modifies pages, freeLists, freeCount
      ensures Mem() == Pushed(old(Mem()), o, p)
    {
      hide AfterAdd;
      ListAdd(o, p);
      freeCount[o] := WrapAdd(freeCount[o], 1);
    }

    /** Unlinks page p as if it were on list o and counts it off, whatever the lists are. */
    method PullBlock(o: nat, p: nat)
      requires Safe(Mem()) && o < ORDERS && p < pages.Length
      modifies pages, freeLists, freeCount
      ensures Mem() == Pulled(old(Mem()), o, p)
    {
      hide AfterRemove, HeadsAfterRemove;
      ListRemove(o, p);
      freeCount[o] := WrapSub(freeCount[o], 1);
    }

    method LinkBlock(o: nat, p: nat)
      requires Listed() && o < ORDERS && p < totalPages && pages[p].order == o && Unlisted(lists, p)
      modifies pages, freeLists, freeCount, `lists
      ensures Listed() && SameDescriptors(old(pages[..]), pages[..])
      ensures lists == old(lists)[o := [p] + old(lists)[o]]
    {
      hide Linked, SameDescriptors, LinksOk, Counted, Pushed, Unlisted;
      PushKeeps(Mem(), lists, o, p);
      PushBlock(o, p);
      lists := lists[o := [p] + lists[o]];
    }

    method UnlinkBlock(o: nat, p: nat)
      requires Listed() && o < ORDERS && |lists| == ORDERS && p in lists[o]
      modifies pages, freeLists, freeCount, `lists
      ensures Listed() && SameDescriptors(old(pages[..]), pages[..])
      ensures lists == old(lists)[o := Without(old(lists)[o], p)]
    {
      hide Linked, SameDescriptors, LinksOk, Counted, Pulled, Without;
      PullKeeps(Mem(), lists, o, p);
      PullBlock(o, p);
      lists := lists[o := Without(lists[o], p)];
    }

    /** Rewrites the descriptor of a page that is on no list. */
    method Describe(p: nat, page: Page)
      requires Listed() && p < totalPages && Unlisted(lists, p)
      requires page.next == pages[p].next && page.prev == pages[p].prev
      modifies pages
      ensures Listed() && pages[..] == old(pages[..])[p := page]
    {
      hide Linked, LinksOk, Unlisted, Counted;
      DescribeKeeps(Mem(), lists, p, page);
      pages[p] := page;
      assert Mem() == old(Mem()).(pages := old(pages[..])[p := page]);
    }

    /** Cuts the unlisted free block at p down to order target; s are the listed pages. */
    method SplitBlock(p: nat, target: nat, ghost s: set<nat>) returns (q: nat)
      requires Listed() && Described(pages[..], live) && Canonical(lists, s)
      requires p < totalPages && target <= pages[p].order <= MAX_ORDER && Aligned(p, pages[p].order)
      requires p + Pow2(pages[p].order) <= totalPages && s !! Run(p, pages[p].order)
      requires forall x: nat :: p <= x < p + Pow2(pages[p].order) ==> x !in live
      modifies pages, freeLists, freeCount, `lists
      ensures Listed() && Described(pages[..], live)
      ensures q == p && pages[p].order == target && Unlisted(lists, p)
      ensures lists == SplitLists(old(lists), p, old(pages[p].order), target)
    {
      hide Pow2, Aligned, Weight, Block, Linked, Run, Distinct, Described, SameDescriptors, Canonical, Wired,
        Unlisted;
      ghost var top, s' := pages[p].order, s;
      NotListed(lists, s, p);
      CanonicalLength(lists, s);
      while pages[p].order > target
        invariant Listed() && Described(pages[..], live) && Canonical(lists, s') && |lists| == ORDERS
        invariant target <= pages[p].order <= top && Aligned(p, pages[p].order)
        invariant Pow2(pages[p].order) <= Pow2(top)
        invariant s' !! Run(p, pages[p].order) && Unlisted(lists, p)
        invariant SplitLists(lists, p, pages[p].order, target) == SplitLists(old(lists), p, top, target)
        decreases pages[p].order
      {
        var newOrder := pages[p].order - 1;
        var buddy := pages[p].pfn + Pow2(newOrder);
        OwnPfn(pages[..], live, p);
        HalfStep(lists, s', p, newOrder);
        FreeDescriptor(pages[..], live, buddy, newOrder);
        Describe(buddy, pages[buddy].(order := newOrder, flags := FLAG_FREE, refcount := 0));
        ghost var before := pages[..];
        LinkBlock(newOrder, buddy);
        SameDescribed(before, pages[..], live, p);
        s' := s' + Run(buddy, newOrder);
        FreeDescriptor(pages[..], live, p, newOrder);
        Describe(p, pages[p].(order := newOrder));
      }
      q := p;
    }

    /** Merges the block of order k at h with its partners as long as they look free, and
        links the result.  The loop reads descriptors only. */
    method MergeBlock(h: nat, k: nat)
      requires pages.Length == totalPages && Safe(Mem()) && h < totalPages && k <= MAX_ORDER
      modifies pages, freeLists, freeCount
      ensures Mem() == Merged(old(Mem()), h, k)
    {
      hide Safe, Pow2, Xor, Pushed, Pulled;
      var pfn: nat, order: nat := h, k;
      while order < MAX_ORDER
        invariant pfn < totalPages && order <= MAX_ORDER && Safe(Mem())
        invariant Merged(Mem(), pfn, order) == Merged(old(Mem()), h, k)
      {
        var buddyPfn := Xor(pfn, Pow2(order));
        if buddyPfn >= totalPages {
          break;
        }
        if pages[buddyPfn].flags & FLAG_FREE == 0 || pages[buddyPfn].order != order {
          break;
        }
        ghost var m := Mem();
        PullBlock(order, buddyPfn);
        if buddyPfn < pfn {
          pfn := buddyPfn;
        }
        order := order + 1;
        pages[pfn] := pages[pfn].(order := order);
        assert Mem() == WithOrder(Pulled(m, order - 1, buddyPfn), pfn, order);
      }
      PushBlock(order, pfn);
    }

    /** Takes the front block of list o, cuts it down to order k and hands out its front. */
    method TakeBlockFrom(o: nat, k: nat, ghost s: set<nat>) returns (h: nat)
      requires Listed() && Described(pages[..], live) && Canonical(lists, s) && |lists| == ORDERS
      requires LiveOk(totalPages, live) && s == FreePages(totalPages, live)
      requires k <= o <= MAX_ORDER && lists[o] != []
      modifies pages, freeLists, freeCount, `lists, `live
      ensures Listed() && Described(pages[..], live) && h < totalPages && pages[h].pfn == h
      ensures h == old(lists)[o][0] && live == old(live)[h := k]
      ensures lists == SplitLists(old(lists)[o := old(lists)[o][1..]], h, o, k)
    {
      hide Pow2, Aligned, Base, Weight, Block, Linked, Run, Distinct, Described, SameDescriptors, Canonical,
        Counted, Unlisted, LiveOk, FreePages, Without, Xor, SplitLists, LinksOk;
      TakeFront(pages[..], freeLists[..], lists, s, o);
      var page := freeLists[o].pfn;
      TakenBlock(totalPages, live, lists, s, o, page);
      UnlinkBlock(o, page);
      SameDescribed(old(pages[..]), pages[..], live, page);
      h := SplitBlock(page, k, s - Run(page, o));
      HandedOut(pages[..], live, h, k);
      Describe(h, pages[h].(flags := (pages[h].flags & !FLAG_FREE) | FLAG_KERNEL, refcount := 1));
      live := live[h := k];
      OwnPfn(pages[..], live, h);
    }

    /** Moves n pages from the free to the kernel pages. */
    method CountTaken(n: nat, ghost free: nat)
      requires Accounted(stats, totalPages, free, usage) && n <= free
      modifies `stats, `usage
      ensures Accounted(stats, totalPages, free - n, usage)
      ensures usage == old(usage) + [totalPages - (free - n)]
    {
      hide Peak;
      stats := stats.(freePages := stats.freePages - n, kernelPages := stats.kernelPages + n);
      if stats.totalPages - stats.freePages > stats.peakUsed {
        stats := stats.(peakUsed := stats.totalPages - stats.freePages);
      }
      PeakSnoc(usage, totalPages - (free - n));
      usage := usage + [totalPages - (free - n)];
    }

    /** Allocates 2^order contiguous pages; None stands for the source's all-ones result. */
    method MmAlloc(order: nat) returns (r: Option<nat>)
      requires Valid()
      modifies this, pages, freeLists, freeCount
      ensures Valid() && pages == old(pages) && ready == old(ready)
      ensures r == None ==> unchanged(this) && unchanged(pages) && unchanged(freeLists) && unchanged(freeCount)
      ensures !ready ==> r == None
      ensures ready ==> (Abs(), r) == Alloc(old(Abs()), order)
      ensures ready && order <= MAX_ORDER ==>
          (r == None <==>
           forall h: nat :: Aligned(h, order) ==> !Free(FreePages(totalPages, old(live)), h, order))
      ensures r.Some? ==>
          && Run(r.value, order) <= FreePages(totalPages, old(live))
          && FreePages(totalPages, live) == FreePages(totalPages, old(live)) - Run(r.value, order)
          && usage == old(usage) + [InUse(totalPages, live)]
    {
      hide Pow2, Aligned, Base, Weight, Block, Linked, Run, Distinct, Described, Canonical,
        Counted, LiveOk, FreePages, SplitLists, Accounted, Free, Inv, LinksOk;
      if !ready || order > MAX_ORDER {
        return None;
      }
      ghost var b := Abs();
      ghost var s := FreePages(totalPages, live);
      InvShape(b);
      InvParts(b);
      AllocKeeps(b, order);
      var o := order;
      while o <= MAX_ORDER
        invariant unchanged(this) && unchanged(pages) && unchanged(freeLists) && unchanged(freeCount)
        invariant Listed() && Described(pages[..], live)
        invariant order <= o <= ORDERS && |lists| == ORDERS
        invariant FirstFit(lists, order) == FirstFit(lists, o)
      {
        FrontLink(pages[..], freeLists[..], lists, o);
        if freeLists[o].To? {
          var h := TakeBlockFrom(o, order, s);
          SmallerBy(s, FreePages(totalPages, live), h, order);
          var n := Pow2(order);
          CountTaken(n, |s|);
          return Some(pages[h].pfn);
        }
        o := o + 1;
      }
      return None;
    }

    /** Moves n pages with the given flags back to the free pages. */
    method CountReturned(n: nat, flags: bv32)
      modifies `stats
      ensures stats == Returned(old(stats), n, flags)
    {
      stats := stats.(freePages := WrapAdd(stats.freePages, n));
      if flags & FLAG_KERNEL != 0 {
        stats := stats.(kernelPages := WrapSub(stats.kernelPages, n));
      }
      if flags & FLAG_USER != 0 {
        stats := stats.(userPages := WrapSub(stats.userPages, n));
      }
    }

    /** Returns 2^order pages from pfn on.  The source does not compare the order with the
        order of the allocation: with another order the release still runs to its end and
        leaves an allocator that is no longer valid. */
    method MmFree(pfn: nat, order: nat)
      requires Sound()
      modifies this, pages, freeLists, freeCount
      ensures Sound() && pages == old(pages) && ready == old(ready) && totalPages == old(totalPages)
      ensures Mem() == if ready then Freed(old(Mem()), pfn, order) else old(Mem())
      ensures old(Valid()) && (!ready || order > MAX_ORDER || pfn !in old(live)) ==>
          unchanged(this) && unchanged(pages) && unchanged(freeLists) && unchanged(freeCount)
      ensures old(Valid()) && ready && order <= MAX_ORDER && pfn in old(live) ==>
          && (Valid() <==> order == old(live)[pfn])
          && (stats.freePages == |FreePages(totalPages, live)| <==> order == old(live)[pfn])
          && stats.freePages == old(stats).freePages + Pow2(order)
          && live == old(live) - {pfn}
          && FreePages(totalPages, live) == FreePages(totalPages, old(live)) + Run(pfn, old(live)[pfn])
          && usage == old(usage) + [InUse(totalPages, live)]
      ensures old(Valid()) && ready && Proper(old(Abs()), FreePfn(pfn, order)) ==>
          Valid() && Abs() == Release(old(Abs()), pfn, order)
    {
      hide Pow2, Run, FreePages, MergeLists, Consistent, Describable, Merged, Returned, Safe, Covered, Accounted, InUse;
      if !ready || order > MAX_ORDER {
        return;
      }
      ghost var m, was := Mem(), Valid();
      if was {
        KnownLive(m, lists, live, usage, pfn);
      }
      if pfn >= totalPages || pages[pfn].flags & FLAG_FREE != 0 {
        return;
      }
      if was {
        FreeNeedsItsOrder(m, lists, live, usage, pfn, order);
        FreedCount(m, lists, live, usage, pfn, order);
        if order == live[pfn] {
          FreedKeeps(m, lists, live, usage, pfn);
        }
      }
      CountReturned(Pow2(order), pages[pfn].flags);
      pages[pfn] := pages[pfn].(flags := FLAG_FREE, refcount := 0, order := order);
      ResetSafe(m, pfn, order, stats);
      assert Mem() == m.(stats := stats, pages := m.pages[pfn := Reset(m.pages[pfn], order)]);
      MergeBlock(pfn, order);
      if was {
        assert Mem() == Freed(m, pfn, order);
        NotConsistent(Mem(), MergeLists(lists, pfn, order), live - {pfn}, usage + [InUse(totalPages, live - {pfn})]);
        lists := MergeLists(lists, pfn, order);
        live := live - {pfn};
        usage := usage + [InUse(totalPages, live)];
      }
    }

    /** A copy of the statistics. */
    method MmGetStats() returns (out: Stats)
      requires Valid()
      ensures out == stats
      ensures ready ==>
          && out.freePages == CountedPages(freeCount[..]) == |FreePages(totalPages, live)|
          && out.freePages + out.kernelPages == out.totalPages == totalPages
          && out.kernelPages <= out.peakUsed && out.userPages == 0
    {
      hide Consistent, CountedPages;
      out := stats;
      if ready {
        AccountsAgree(Mem(), lists, live, usage);
      }
    }

    /** The order the greedy loop chooses: the largest that fits into the remaining pages. */
    static method ChooseOrder(remaining: nat) returns (order: nat)
      requires remaining > 0
      ensures order == FittingOrder(remaining, MAX_ORDER)
    {
      hide Pow2;
      order := MAX_ORDER;
      while order > 0 && Pow2(order) > remaining
        invariant order <= MAX_ORDER
        invariant FittingOrder(remaining, order) == FittingOrder(remaining, MAX_ORDER)
      {
        order := order - 1;
      }
      OrderZero(remaining);
    }

    method ClearLists()
      requires freeLists.Length == freeCount.Length == ORDERS
      modifies freeLists, freeCount
      ensures forall k: nat :: k < ORDERS ==> freeLists[k] == Null && freeCount[k] == 0
    {
      for k := 0 to ORDERS
        invariant forall j: nat :: j < k ==> freeLists[j] == Null && freeCount[j] == 0
      {
        freeLists[k] := Null;
        freeCount[k] := 0;
      }
    }

    /** Clears lists and counters and describes n free single pages. */
    method ClearPages(n: nat)
      requires freeLists.Length == freeCount.Length == ORDERS && totalPages == n <= MAX_PHYS_PAGES
      modifies this, freeLists, freeCount
      ensures fresh(pages) && Listed() && Described(pages[..], map[]) && lists == NoBlocks() && live == map[]
      ensures ready == old(ready) && totalPages == n && physBase == old(physBase) && stats == old(stats)
    {
      hide NoBlocks;
      var descriptors := new Page[n](_ => Page(0, 0, 0, 0, Null, Null));
      ClearLists();
      for i := 0 to n
        modifies descriptors
        invariant forall j: nat :: j < i ==> descriptors[j] == Page(j, 0, FLAG_FREE, 0, Null, Null)
      {
        descriptors[i] := Page(i, 0, FLAG_FREE, 0, Null, Null);
      }
      pages := descriptors;
      lists, live := NoBlocks(), map[];
    }

    /** Tiles the pages greedily with free blocks of the largest order that still fits. */
    method BuildFreeLists()
      requires Listed() && Described(pages[..], map[]) && lists == NoBlocks() && live == map[]
      requires stats == Stats(totalPages, 0, 0, 0, 0, 0)
      modifies pages, freeLists, freeCount, `lists, `stats
      ensures Listed() && Described(pages[..], map[]) && lists == Initial(totalPages).lists
      ensures stats == Stats(totalPages, totalPages, 0, 0, 0, 0)
    {
      hide Pow2, Aligned, Base, Weight, Block, Linked, Run, Distinct, Described, SameDescriptors, Canonical,
        Counted, FittingOrder, Interval, NoBlocks, Sibling, LinksOk;
      var remaining: nat, pfn: nat := totalPages, 0;
      ghost var last := MAX_ORDER;
      NothingListed();
      while remaining > 0
        invariant pfn + remaining == totalPages && stats == Stats(totalPages, pfn, 0, 0, 0, 0)
        invariant Listed() && Described(pages[..], map[]) && |lists| == ORDERS
        invariant Canonical(lists, Interval(0, pfn)) && GreedyAt(pfn, remaining, last)
        invariant GreedyLists(lists, pfn, remaining) == GreedyLists(NoBlocks(), 0, totalPages)
      {
        var order := ChooseOrder(remaining);
        GreedyAdd(lists, pfn, remaining, last);
        FreeDescriptor(pages[..], map[], pfn, order);
        AllFree(pages[..], pfn);
        Describe(pfn, pages[pfn].(order := order, flags := FLAG_FREE));
        ghost var before := pages[..];
        LinkBlock(order, pfn);
        SameDescribed(before, pages[..], map[], pfn);
        var n := Pow2(order);
        pfn := pfn + n;
        remaining := remaining - n;
        stats := stats.(freePages := stats.freePages + n);
        last := order;
      }
    }

    /** Initializes the allocator for a memory of physSize bytes; callocOk says whether the
        descriptor array could be obtained. */
    method MmInit(base: nat, physSize: nat, callocOk: bool) returns (st: Status)
      requires Valid()
      modifies this, pages, freeLists, freeCount
      ensures Valid() && ready == (old(ready) || st == Ok)
      ensures st == if old(ready) then ErrState else if physSize < PAGE_SIZE then ErrInval
                    else if !callocOk then ErrNoMem else Ok
      ensures st == ErrState || st == ErrInval ==>
          unchanged(this) && unchanged(pages) && unchanged(freeLists) && unchanged(freeCount)
      ensures st == Ok ==>
          && totalPages == (if physSize / PAGE_SIZE > MAX_PHYS_PAGES then MAX_PHYS_PAGES else physSize / PAGE_SIZE)
          && physBase % PAGE_SIZE == 0 && physBase <= base < physBase + PAGE_SIZE
          && Abs() == Initial(totalPages) && usage == [0] && fresh(pages)
    {
      hide Pow2, Described, Canonical, Linked, Counted, LiveOk, Initial, Inv, Interval, NoBlocks, Peak, FreePages,
        LinksOk;
      if ready {
        return ErrState;
      }
      if physSize < PAGE_SIZE {
        return ErrInval;
      }
      physBase := base - base % PAGE_SIZE;
      totalPages := physSize / PAGE_SIZE;
      if totalPages > MAX_PHYS_PAGES {
        totalPages := MAX_PHYS_PAGES;
      }
      if !callocOk {
        pages := new Page[0];
        return ErrNoMem;
      }
      ClearPages(totalPages);
      stats := Stats(totalPages, 0, 0, 0, 0, 0);
      BuildFreeLists();
      InitialKeeps(totalPages);
      InitialShape(totalPages);
      usage := [0];
      ready := true;
      return Ok;
    }

    method MmShutdown()
      requires Sound()
      modifies this, freeLists, freeCount
      ensures Valid() && !ready
      ensures !old(ready) ==> unchanged(this) && unchanged(freeLists) && unchanged(freeCount)
      ensures old(ready) ==>
          && totalPages == 0 && pages.Length == 0 && stats == Stats(0, 0, 0, 0, 0, 0)
          && (forall k: nat :: k < ORDERS ==> freeLists[k] == Null && freeCount[k] == 0)
    {
      if !ready {
        return;
      }
      pages := new Page[0];
      totalPages := 0;
      ready := false;
      ClearLists();
      stats := Stats(0, 0, 0, 0, 0, 0);
    }
  }

  /** Any run of calls carries the allocator through the run of `Exec`. */
  method Replay(mm: PhysMemory, ops: seq<Op>)
    requires mm.Valid() && mm.ready && ProperRun(mm.Abs(), ops)
    modifies mm, mm.pages, mm.freeLists, mm.freeCount
    ensures mm.Valid() && mm.ready && mm.Abs() == Exec(old(mm.Abs()), ops)
    decreases |ops|
  {
    hide Pow2, Described, Canonical, Linked, Counted, LiveOk, FreePages, Accounted, Run, Consistent, Safe, Freed;
    if ops != [] {
      match ops[0] {
        case AllocPages(order) =>
          var r := mm.MmAlloc(order);
        case FreePfn(pfn, order) =>
          mm.MmFree(pfn, order);
      }
      Replay(mm, ops[1..]);
    }
  }

  /** An allocation followed by its release leaves the same blocks on the free lists. */
  method AllocAndFree(mm: PhysMemory, order: nat)
    requires mm.Valid() && mm.ready
    modifies mm, mm.pages, mm.freeLists, mm.freeCount
    ensures mm.Valid() && mm.live == old(mm.live) && SameBlocks(mm.lists, old(mm.lists))
    ensures mm.stats.(peakUsed := 0) == old(mm.stats).(peakUsed := 0)
  {
    hide Pow2, Described, Canonical, Linked, Counted, LiveOk, FreePages, Run, SameBlocks, Peak, Safe, Freed;
    ghost var b := mm.Abs();
    InvShape(b);
    var r := mm.MmAlloc(order);
    if r.Some? {
      AllocThenRelease(b, order, r.value);
      AllocKeeps(b, order);
      mm.MmFree(r.value, order);
    } else {
      CanonicalSame(b.lists, b.lists, FreePages(b.n, b.live));
    }
  }

  /** From initialization on: four pages and an allocation of order 1. */
  method TwoPagesTaken(mm: PhysMemory)
    requires mm.Valid() && !mm.ready
    modifies mm, mm.pages, mm.freeLists, mm.freeCount
    ensures mm.Valid() && mm.ready && (mm.pages == old(mm.pages) || fresh(mm.pages))
    ensures mm.totalPages == 4 && mm.live == map[0 := 1] && mm.stats.freePages == 2
  {
    hide PhysMemory.Valid, PhysMemory.Sound, PhysMemory.Mem, FreePages, Run, Alloc, Initial, Inv, NoBlocks, Pow2,
      CountedPages, Aligned, Free, InUse;
    FourPagesStart();
    var st := mm.MmInit(0, 4 * PAGE_SIZE, true);
    var r := mm.MmAlloc(1);
    var stats := mm.MmGetStats();
  }

  /** From initialization on: four pages, an allocation of order 1, its release with order 0.
      All pages are returned, three are reported free. */
  method WrongOrderRun(mm: PhysMemory)
    requires mm.Valid() && !mm.ready
    modifies mm, mm.pages, mm.freeLists, mm.freeCount
    ensures mm.Sound() && mm.ready && mm.live == map[] && !mm.Valid()
    ensures mm.totalPages == 4 && mm.stats.freePages == 3
  {
    TwoPagesTaken(mm);
    hide *;
    mm.MmFree(0, 0);
    assert map[0 := 1] - {0} == map[];
  }
}
