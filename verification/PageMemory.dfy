/**
  The memory of the allocator as a value: descriptors, list heads, counters and statistics.
  `Pushed`, `Pulled`, `Merged` and `Freed` are what the code does to it for any arguments,
  with 64-bit counters that wrap around; `Consistent` is what it looks like in every
  state that proper calls reach.
 */
module PageMemory {
  import opened Types
  import opened Dyadic
  import opened FreeBlocks
  import opened BuddyLists
  import opened BuddyRuns
  import opened PageLists
  import opened MergeTest

  const MAX_PHYS_PAGES: nat := 0x10_0000
  const U64: nat := 0x1_0000_0000_0000_0000

  datatype Stats = Stats(totalPages: nat, freePages: nat, reservedPages: nat, kernelPages: nat,
                         userPages: nat, peakUsed: nat)

  datatype Memory = Memory(pages: seq<Page>, heads: seq<Link>, counts: seq<nat>, stats: Stats)

  // ---------------------------------------------------------------- what the code does

  function WrapAdd(x: nat, n: nat): nat {
    (x + n) % U64
  }

  function WrapSub(x: nat, n: nat): nat {
    (x - n) % U64
  }

  predicate Safe(m: Memory) {
    |m.heads| == |m.counts| == ORDERS && LinksOk(m.pages, m.heads)
  }

  /** Links page p in front of list o and counts it. */
  function Pushed(m: Memory, o: nat, p: nat): (r: Memory)
    requires Safe(m) && o < ORDERS && p < |m.pages|
    ensures Safe(r) && |r.pages| == |m.pages| && r.stats == m.stats
  {
    AddLinksOk(m.pages, m.heads, o, p);
    m.(pages := AfterAdd(m.pages, m.heads[o], p), heads := m.heads[o := To(p)],
       counts := m.counts[o := WrapAdd(m.counts[o], 1)])
  }

  /** Unlinks page p, taken to be on list o, and counts it off. */
  function Pulled(m: Memory, o: nat, p: nat): (r: Memory)
    requires Safe(m) && o < ORDERS && p < |m.pages|
    ensures Safe(r) && |r.pages| == |m.pages| && r.stats == m.stats
  {
    RemoveLinksOk(m.pages, m.heads, o, p);
    m.(pages := AfterRemove(m.pages, p), heads := HeadsAfterRemove(m.pages, m.heads, o, p),
       counts := m.counts[o := WrapSub(m.counts[o], 1)])
  }

  function WithOrder(m: Memory, p: nat, k: nat): (r: Memory)
    requires p < |m.pages|
    ensures |r.pages| == |m.pages| && r.stats == m.stats
  {
    m.(pages := m.pages[p := m.pages[p].(order := k)])
  }

  /** The merge test: it reads one descriptor. */
  predicate LooksFree(m: Memory, p: nat, k: nat) {
    p < |m.pages| && m.pages[p].flags & FLAG_FREE != 0 && m.pages[p].order == k
  }

  lemma WithOrderSafe(m: Memory, p: nat, k: nat)
    requires Safe(m) && p < |m.pages|
    ensures Safe(WithOrder(m, p, k))
  {
  }

  /** One merge of the run of order k at h with its partner. */
  function Joined(m: Memory, h: nat, k: nat): (r: Memory)
    requires Safe(m) && h < |m.pages| && k < MAX_ORDER && LooksFree(m, Partner(h, k), k)
    ensures Safe(r) && |r.pages| == |m.pages| && r.stats == m.stats
  {
    var p := Partner(h, k);
    var b := if p < h then p else h;
    WithOrderSafe(Pulled(m, k, p), b, k + 1);
    WithOrder(Pulled(m, k, p), b, k + 1)
  }

  /** Merges the run of order k at h as long as the partner looks free, and lists it. */
  function Merged(m: Memory, h: nat, k: nat): (r: Memory)
    requires Safe(m) && h < |m.pages| && k <= MAX_ORDER
    ensures Safe(r) && |r.pages| == |m.pages| && r.stats == m.stats
    decreases MAX_ORDER - k
  {
    var p := Partner(h, k);
    if k < MAX_ORDER && LooksFree(m, p, k) then Merged(Joined(m, h, k), if p < h then p else h, k + 1)
    else Pushed(m, k, h)
  }

  /** The statistics after n pages with the given flags have come back. */
  function Returned(stats: Stats, n: nat, flags: bv32): Stats {
    var s1 := stats.(freePages := WrapAdd(stats.freePages, n));
    var s2 := if flags & FLAG_KERNEL != 0 then s1.(kernelPages := WrapSub(s1.kernelPages, n)) else s1;
    if flags & FLAG_USER != 0 then s2.(userPages := WrapSub(s2.userPages, n)) else s2
  }

  function Owned(stats: Stats): nat {
    (stats.freePages + stats.kernelPages + stats.userPages) % U64
  }

  /** Coming back, pages move from one account to another exactly when the page carries one
      of the two owner flags: with none they appear from nowhere, with both they are taken
      away twice. */
  lemma ReturnedBalances(stats: Stats, n: nat, flags: bv32)
    requires 0 < n < U64
    ensures Owned(Returned(stats, n, flags)) == Owned(stats) <==>
            (flags & FLAG_KERNEL != 0) != (flags & FLAG_USER != 0)
  {
  }

  function Reset(page: Page, k: nat): Page {
    page.(flags := FLAG_FREE, refcount := 0, order := k)
  }

  lemma ResetSafe(m: Memory, p: nat, k: nat, stats: Stats)
    requires Safe(m) && p < |m.pages|
    ensures Safe(m.(stats := stats, pages := m.pages[p := Reset(m.pages[p], k)]))
  {
  }

  /** The whole release, for any page and any order. */
  function Freed(m: Memory, h: nat, k: nat): (r: Memory)
    requires Safe(m)
    ensures Safe(r) && |r.pages| == |m.pages|
  {
    if k > MAX_ORDER || h >= |m.pages| || m.pages[h].flags & FLAG_FREE != 0 then m else
    var stats := Returned(m.stats, Pow2(k), m.pages[h].flags);
    ResetSafe(m, h, k, stats);
    Merged(m.(stats := stats, pages := m.pages[h := Reset(m.pages[h], k)]), h, k)
  }

  // ---------------------------------------------------------------- consistent memory

  ghost predicate Counted(counts: seq<nat>, lists: seq<seq<nat>>) {
    |counts| == |lists| == ORDERS && forall k: nat :: k < ORDERS ==> counts[k] == |lists[k]|
  }

  /** Links and counters are those of the given lists. */
  ghost predicate Wired(m: Memory, lists: seq<seq<nat>>) {
    && |m.pages| <= MAX_PHYS_PAGES && Safe(m)
    && Linked(m.pages, m.heads, lists) && Counted(m.counts, lists)
  }

  /** The largest number in a history, 0 for the empty one. */
  function Peak(s: seq<nat>): (m: nat)
    ensures forall x: nat :: x in s ==> x <= m
    ensures s != [] ==> m in s
  {
    if s == [] then 0
    else
      var m := Peak(s[..|s| - 1]);
      assert s == s[..|s| - 1] + [s[|s| - 1]];
      if m < s[|s| - 1] || |s| == 1 then s[|s| - 1] else m
  }

  /** The number of pages of n that belong to live allocations. */
  ghost function InUse(n: nat, live: map<nat, nat>): (u: nat)
    ensures u == n - |FreePages(n, live)|
  {
    hide Covered, Pow2;
    SubsetSize(FreePages(n, live), Interval(0, n));
    n - |FreePages(n, live)|
  }

  ghost predicate Accounted(stats: Stats, n: nat, free: nat, usage: seq<nat>) {
    && free <= n
    && usage != [] && usage[|usage| - 1] == n - free
    && stats == Stats(n, free, 0, n - free, 0, Peak(usage))
  }

  /** The memory is the one of the given lists, live allocations and history of use. */
  ghost predicate Consistent(m: Memory, lists: seq<seq<nat>>, live: map<nat, nat>, usage: seq<nat>) {
    && 1 <= |m.pages| && Wired(m, lists) && Described(m.pages, live)
    && Inv(Buddy(|m.pages|, lists, live))
    && Accounted(m.stats, |m.pages|, |FreePages(|m.pages|, live)|, usage)
  }

  // ---------------------------------------------------------------- counters

  lemma {:induction false} DistinctSize(s: seq<nat>, n: nat)
    requires Distinct(s) && forall i: nat :: i < |s| ==> s[i] < n
    ensures |s| <= n
  {
    var elements := set x: nat | x in s;
    ElementsSize(s);
    assert elements <= Interval(0, n);
    SubsetSize(elements, Interval(0, n));
  }

  lemma {:induction false} ElementsSize(s: seq<nat>)
    requires Distinct(s)
    ensures |set x: nat | x in s| == |s|
  {
    if |s| != 0 {
      var n := |s| - 1;
      ElementsSize(s[..n]);
      assert (set x: nat | x in s) == (set x: nat | x in s[..n]) + {s[n]};
    }
  }

  lemma ShortList(m: Memory, lists: seq<seq<nat>>, k: nat)
    requires Wired(m, lists) && k < ORDERS
    ensures |lists[k]| <= MAX_PHYS_PAGES && m.counts[k] == |lists[k]|
  {
    hide LinkedAt;
    assert Chain(m.pages, m.heads[k], lists[k], k);
    DistinctSize(lists[k], |m.pages|);
  }

  lemma NoWrap(x: nat, n: nat)
    ensures x + n < U64 ==> WrapAdd(x, n) == x + n
    ensures n <= x < U64 ==> WrapSub(x, n) == x - n
  {
  }

  /** Sum of the block sizes according to the counters. */
  ghost function CountedPages(counts: seq<nat>): nat {
    var n := |counts|;
    if n == 0 then 0 else CountedPages(counts[..n - 1]) + counts[n - 1] * Pow2(n - 1)
  }

  /** The counters account for exactly the free pages. */
  lemma CountersAddUp(counts: seq<nat>, lists: seq<seq<nat>>, s: set<nat>)
    requires Counted(counts, lists) && Canonical(lists, s)
    ensures CountedPages(counts) == |s|
  {
    hide Weight, Block, Pow2;
    CountedWeight(counts, lists);
  }

  /** The three accounts of the free pages agree: the statistics, the counters weighted by
      block size, and the pages outside every live allocation. */
  lemma AccountsAgree(m: Memory, lists: seq<seq<nat>>, live: map<nat, nat>, usage: seq<nat>)
    requires Consistent(m, lists, live, usage)
    ensures m.stats.freePages == CountedPages(m.counts) == |FreePages(|m.pages|, live)|
    ensures m.stats.freePages + m.stats.kernelPages == m.stats.totalPages == |m.pages|
    ensures m.stats.kernelPages <= m.stats.peakUsed && m.stats.userPages == 0
  {
    hide Linked, Described, FreePages, Canonical, LinksOk, LiveOk, CountedPages;
    InvParts(Buddy(|m.pages|, lists, live));
    PeakAtLeast(usage, usage[|usage| - 1]);
    CountersAddUp(m.counts, lists, FreePages(|m.pages|, live));
  }

  lemma {:induction false} CountedWeight(counts: seq<nat>, lists: seq<seq<nat>>)
    requires |counts| == |lists| && forall k: nat :: k < |counts| ==> counts[k] == |lists[k]|
    ensures CountedPages(counts) == Weight(lists)
  {
    hide Pow2, Weight;
    var n := |counts|;
    if n == 0 {
      WeightOfNone(lists);
    } else {
      CountedWeight(counts[..n - 1], lists[..n - 1]);
      WeightFromEnd(lists);
    }
  }

  lemma WeightOfNone(lists: seq<seq<nat>>)
    requires |lists| == 0
    ensures Weight(lists) == 0
  {
  }

  lemma {:induction false} WeightFromEnd(lists: seq<seq<nat>>)
    requires |lists| > 0
    ensures var n := |lists| - 1; Weight(lists) == Weight(lists[..n]) + |lists[n]| * Pow2(n)
  {
    var n := |lists| - 1;
    if n > 0 {
      WeightFromEnd(lists[1..]);
      assert lists[1..][..n - 1] == lists[..n][1..];
      assert |lists[n]| * Pow2(n) == 2 * (|lists[n]| * Pow2(n - 1));
    }
  }

  // ---------------------------------------------------------------- single steps

  /** Listing an unlisted page of the right order, by links and counter. */
  lemma PushKeeps(m: Memory, lists: seq<seq<nat>>, o: nat, p: nat)
    requires Wired(m, lists) && o < ORDERS && p < |m.pages| && m.pages[p].order == o && Unlisted(lists, p)
    ensures |lists| == ORDERS && Wired(Pushed(m, o, p), lists[o := [p] + lists[o]])
    ensures SameDescriptors(m.pages, Pushed(m, o, p).pages)
  {
    hide Linked, SameDescriptors, LinksOk, WrapAdd, AfterAdd;
    ShortList(m, lists, o);
    NoWrap(m.counts[o], 1);
    AddLinked(m.pages, m.heads, lists, o, p);
  }

  /** Unlisting a listed page, by links and counter. */
  lemma PullKeeps(m: Memory, lists: seq<seq<nat>>, o: nat, p: nat)
    requires Wired(m, lists) && o < ORDERS && |lists| == ORDERS && p in lists[o]
    ensures p < |m.pages| && Wired(Pulled(m, o, p), lists[o := Without(lists[o], p)])
    ensures SameDescriptors(m.pages, Pulled(m, o, p).pages)
  {
    hide Linked, SameDescriptors, LinksOk, WrapSub, AfterRemove, HeadsAfterRemove, Without;
    ShortList(m, lists, o);
    WithoutLength(lists[o], p);
    NoWrap(m.counts[o], 1);
    RemoveLinked(m.pages, m.heads, lists, o, p);
  }

  /** Rewriting an unlisted descriptor but for its links. */
  lemma DescribeKeeps(m: Memory, lists: seq<seq<nat>>, p: nat, page: Page)
    requires Wired(m, lists) && p < |m.pages| && Unlisted(lists, p)
    requires page.next == m.pages[p].next && page.prev == m.pages[p].prev
    ensures Wired(m.(pages := m.pages[p := page]), lists)
  {
    hide Linked;
    RelinkOther(m.pages, m.heads, lists, p, page);
  }

  lemma RelinkOther(pages: seq<Page>, heads: seq<Link>, lists: seq<seq<nat>>, p: nat, page: Page)
    requires Linked(pages, heads, lists) && p < |pages| && Unlisted(lists, p)
    ensures Linked(pages[p := page], heads, lists)
  {
    hide LinkedAt;
    forall k: nat | k < ORDERS ensures Chain(pages[p := page], heads[k], lists[k], k) {
      ChainFrame(pages, pages[p := page], heads[k], lists[k], k);
    }
  }

  lemma OwnPfn(pages: seq<Page>, live: map<nat, nat>, p: nat)
    requires Described(pages, live) && p < |pages|
    ensures pages[p].pfn == p
  {
  }

  lemma FreeDescriptor(pages: seq<Page>, live: map<nat, nat>, p: nat, o: nat)
    requires Described(pages, live) && p < |pages| && p !in live
    ensures Described(pages[p := pages[p].(order := o)], live)
    ensures pages[p].(order := o, flags := FLAG_FREE, refcount := 0) == pages[p].(order := o)
  {
  }

  lemma SameDescribed(pages: seq<Page>, pages': seq<Page>, live: map<nat, nat>, p: nat)
    requires Described(pages, live) && SameDescriptors(pages, pages') && p < |pages|
    ensures Described(pages', live) && pages'[p].order == pages[p].order
  {
    forall q: nat | q < |pages| ensures pages'[q].order == pages[q].order && pages'[q].flags == pages[q].flags
      && pages'[q].pfn == pages[q].pfn && pages'[q].refcount == pages[q].refcount
    {
      var r := pages'[q].(next := Null, prev := Null);
      assert r == pages[q].(next := Null, prev := Null);
    }
  }

  lemma HalfStep(lists: seq<seq<nat>>, s: set<nat>, p: nat, k: nat)
    requires Canonical(lists, s) && k < MAX_ORDER && Aligned(p, k + 1) && s !! Run(p, k + 1)
    ensures var u := p + Pow2(k);
      && Unlisted(lists, u) && Unlisted(lists, p) && Unlisted(lists[k := [u] + lists[k]], p)
      && Canonical(lists[k := [u] + lists[k]], s + Run(u, k))
      && Aligned(p, k) && s + Run(u, k) !! Run(p, k) && u + Pow2(k) == p + Pow2(k + 1)
  {
    hide Pow2, Aligned, Base, Weight, Block, Run, Sibling;
    var u := p + Pow2(k);
    UpperHalf(p, k);
    assert p in Run(p, k + 1);
    AddCanonical(lists, s, u, k);
    NotListed(lists, s, p);
  }

  lemma NotListed(lists: seq<seq<nat>>, s: set<nat>, p: nat)
    requires Canonical(lists, s) && p !in s
    ensures Unlisted(lists, p)
  {
    forall k: nat | k < ORDERS ensures p !in lists[k] {
      assert Block(s, p, k) ==> p in s;
    }
  }

  lemma FreeHead(n: nat, live: map<nat, nat>, s: set<nat>, h: nat, k: nat)
    requires FreePages(n, live) == s + Run(h, k) && s !! Run(h, k)
    ensures h !in live && h !in s
  {
    hide Pow2, Run, FreePages;
    assert h in Run(h, k);
    assert h in live ==> Covered(live, h);
  }

  /** The head link of a non-empty list is its front page, of the right order. */
  lemma TakeFront(pages: seq<Page>, heads: seq<Link>, lists: seq<seq<nat>>, s: set<nat>, o: nat)
    requires Linked(pages, heads, lists) && Canonical(lists, s) && o <= MAX_ORDER && lists[o] != []
    ensures heads[o] == To(lists[o][0]) && lists[o][0] < |pages| && pages[lists[o][0]].order == o
    ensures Without(lists[o], lists[o][0]) == lists[o][1..]
  {
    hide LinkedAt, Block;
    ChainOrder(pages, heads[o], lists[o], o, lists[o][0]);
  }

  lemma TakenBlock(n: nat, live: map<nat, nat>, lists: seq<seq<nat>>, s: set<nat>, o: nat, h: nat)
    requires Canonical(lists, s) && s == FreePages(n, live) && o <= MAX_ORDER && h in lists[o]
    ensures Canonical(lists[o := Without(lists[o], h)], s - Run(h, o))
    ensures Aligned(h, o) && h + Pow2(o) <= n && s - Run(h, o) !! Run(h, o)
    ensures forall x: nat :: h <= x < h + Pow2(o) ==> x !in live
  {
    hide Pow2, Aligned, Weight, Block, Run, Without, FreePages, Canonical;
    RemoveCanonical(lists, s, h, o);
    BlockAligned(s, h, o);
    assert h + Pow2(o) - 1 in Run(h, o);
    forall x: nat | h <= x < h + Pow2(o) ensures x !in live {
      assert x in Run(h, o);
      assert x in live ==> Covered(live, x);
    }
  }

  lemma HandedOut(pages: seq<Page>, live: map<nat, nat>, h: nat, k: nat)
    requires Described(pages, live) && h < |pages| && h !in live && pages[h].order == k
    ensures Described(pages[h := pages[h].(flags := (pages[h].flags & !FLAG_FREE) | FLAG_KERNEL, refcount := 1)],
                      live[h := k])
  {
  }

  lemma SmallerBy(s: set<nat>, t: set<nat>, h: nat, k: nat)
    requires t == s - Run(h, k) && Run(h, k) <= s
    ensures |t| == |s| - Pow2(k)
  {
  }

  lemma PeakSnoc(s: seq<nat>, x: nat)
    ensures Peak(s + [x]) == if x > Peak(s) then x else Peak(s)
  {
    assert (s + [x])[..|s|] == s;
  }

  lemma FrontLink(pages: seq<Page>, heads: seq<Link>, lists: seq<seq<nat>>, o: nat)
    requires Linked(pages, heads, lists) && o < ORDERS
    ensures |heads| == |lists| == ORDERS && (heads[o].To? <==> lists[o] != [])
  {
  }

  lemma InvParts(b: Buddy)
    requires Inv(b)
    ensures LiveOk(b.n, b.live) && Canonical(b.lists, FreePages(b.n, b.live))
  {
  }

  lemma PeakAtLeast(s: seq<nat>, x: nat)
    requires x in s
    ensures x <= Peak(s)
  {
  }

  lemma LiveInRange(b: Buddy, h: nat)
    requires Inv(b)
    ensures h in b.live ==> h < b.n && b.live[h] <= MAX_ORDER && Aligned(h, b.live[h])
  {
    hide Pow2, Aligned;
  }

  /** The free bit is missing exactly at the first pages of live allocations. */
  lemma LiveFlags(pages: seq<Page>, live: map<nat, nat>, p: nat)
    requires Described(pages, live)
    ensures p < |pages| ==> (pages[p].flags & FLAG_FREE == 0 <==> p in live)
    ensures p < |pages| && p in live ==> pages[p].flags == FLAG_KERNEL
  {
  }

  /** The guard of the release lets exactly the live first pages through. */
  lemma KnownLive(m: Memory, lists: seq<seq<nat>>, live: map<nat, nat>, usage: seq<nat>, p: nat)
    requires Consistent(m, lists, live, usage)
    ensures p < |m.pages| && m.pages[p].flags & FLAG_FREE == 0 <==> p in live
    ensures |lists| == ORDERS && (p in live ==> live[p] <= MAX_ORDER)
  {
    hide Described, Linked, FreePages, LinksOk;
    var b := Buddy(|m.pages|, lists, live);
    InvShape(b);
    LiveInRange(b, p);
    LiveFlags(m.pages, live, p);
  }

  lemma Reclaimed(pages: seq<Page>, live: map<nat, nat>, h: nat, k: nat)
    requires Described(pages, live) && h < |pages|
    ensures Described(pages[h := pages[h].(flags := FLAG_FREE, refcount := 0, order := k)], live - {h})
  {
  }

  /** A live run is disjoint from the free pages, and both lie in memory. */
  lemma ReturnedRun(b: Buddy, s: set<nat>, h: nat)
    requires Inv(b) && h in b.live && s == FreePages(b.n, b.live)
    ensures s !! Run(h, b.live[h]) && |s + Run(h, b.live[h])| == |s| + Pow2(b.live[h]) <= b.n
    ensures Unlisted(b.lists, h) && Canonical(b.lists, s) && LiveOk(b.n, b.live - {h})
    ensures FreePages(b.n, b.live - {h}) == s + Run(h, b.live[h])
  {
    hide Pow2, Aligned, Canonical, FreePages, Run;
    ReleaseLive(b.n, b.live, h);
    assert h in Run(h, b.live[h]);
    NotListed(b.lists, s, h);
    assert s + Run(h, b.live[h]) <= Interval(0, b.n);
    SubsetSize(s + Run(h, b.live[h]), Interval(0, b.n));
  }

  lemma {:induction false} SubsetSize(a: set<nat>, b: set<nat>)
    requires a <= b
    ensures |a| <= |b|
  {
    assert b == a + (b - a);
  }

  lemma OrderZero(remaining: nat)
    requires remaining > 0
    ensures Pow2(0) <= remaining && FittingOrder(remaining, 0) == 0
    ensures forall k: nat :: Pow2(k) <= remaining ==> FittingOrder(remaining, k) == k
  {
  }

  lemma NothingListed()
    ensures Canonical(NoBlocks(), Interval(0, 0)) && GreedyAt(0, 0, MAX_ORDER)
    ensures forall n: nat :: GreedyAt(0, n, MAX_ORDER)
  {
    ZeroAligned(MAX_ORDER);
    NoneCanonical();
  }

  lemma AllFree(pages: seq<Page>, p: nat)
    requires Described(pages, map[]) && p < |pages|
    ensures pages[p].flags == FLAG_FREE
  {
  }
}
