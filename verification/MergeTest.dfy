/**
  The merge test of the release reads the flags and the order of one page descriptor, and
  interior pages carry stale values of both.  `DescriptorTest` shows that it nevertheless
  decides whether the partner block is listed.
 */
module MergeTest {
  import opened Dyadic
  import opened FreeBlocks
  import opened BuddyLists
  import opened PageLists

  /** Exactly the first pages of live allocations are not marked free; they carry the
      kernel flag alone, one reference and the order of the allocation. */
  ghost predicate Described(pages: seq<Page>, live: map<nat, nat>) {
    forall q: nat :: q < |pages| ==>
      && pages[q].pfn == q
      && pages[q].flags == (if q in live then FLAG_KERNEL else FLAG_FREE)
      && pages[q].refcount == (if q in live then 1 else 0)
      && (q in live ==> pages[q].order == live[q])
  }

  /** A run that contains the sibling of h but not h itself starts at the sibling. */
  lemma StartsAtSibling(h: nat, k: nat, g: nat, j: nat)
    requires Aligned(h, k) && Aligned(g, j)
    requires g <= Sibling(h, k) < g + Pow2(j) && !(g <= h < g + Pow2(j))
    ensures g == Sibling(h, k) && j <= k
  {
    hide Pow2, Aligned, Base, Sibling;
    var p := Sibling(h, k);
    Halves(h, k);
    Halves(p, k);
    if j <= k {
      Inside(p, k, g, j);
    } else {
      Inside(g, j, p, k);
    }
  }

  /** While the run of order k at h is being merged, its partner carries a free descriptor
      of order k exactly when the partner's whole block is on the list of order k. */
  lemma DescriptorTest(pages: seq<Page>, heads: seq<Link>, lists: seq<seq<nat>>,
                       live: map<nat, nat>, s: set<nat>, h: nat, k: nat)
    requires Linked(pages, heads, lists) && Described(pages, live) && Canonical(lists, s)
    requires LiveOk(|pages|, live) && k < MAX_ORDER && Aligned(h, k)
    requires FreePages(|pages|, live) == s + Run(h, k) && s !! Run(h, k)
    ensures Partner(h, k) in lists[k] <==>
            && Partner(h, k) < |pages|
            && pages[Partner(h, k)].flags & FLAG_FREE != 0
            && pages[Partner(h, k)].order == k
  {
    hide Pow2, Aligned, Base, Sibling, Weight, Xor, FreePages, LinkedAt;
    XorIsSibling(h, k);
    Halves(h, k);
    var p := Sibling(h, k);
    assert h in Run(h, k) && p !in Run(h, k);
    if p in lists[k] {
      Listed(pages, heads, lists, live, s, h, k, p);
    }
    if p < |pages| && pages[p].flags & FLAG_FREE != 0 && pages[p].order == k {
      assert p !in live;
      if p in s {
        var g, j := BlockOf(s, p);
        assert h !in s;
        StartsAtSibling(h, k, g, j);
        assert p in lists[j];
        ChainOrder(pages, heads[j], lists[j], j, p);
      } else {
        var g: nat :| g in live && g <= p < g + Pow2(live[g]);
        assert !Covered(live, h);
        StartsAtSibling(h, k, g, live[g]);
      }
    }
  }

  lemma ChainOrder(pages: seq<Page>, head: Link, s: seq<nat>, k: nat, p: nat)
    requires Chain(pages, head, s, k) && p in s
    ensures p < |pages| && pages[p].order == k
  {
    var i: nat :| i < |s| && s[i] == p;
  }

  lemma Listed(pages: seq<Page>, heads: seq<Link>, lists: seq<seq<nat>>,
               live: map<nat, nat>, s: set<nat>, h: nat, k: nat, p: nat)
    requires Linked(pages, heads, lists) && Described(pages, live) && Canonical(lists, s)
    requires k <= MAX_ORDER && FreePages(|pages|, live) == s + Run(h, k) && p in lists[k]
    ensures p < |pages| && pages[p].order == k && pages[p].flags == FLAG_FREE
  {
    hide Pow2, Aligned, Base, Weight, FreePages, LinkedAt, Run;
    ChainOrder(pages, heads[k], lists[k], k, p);
    assert p in s;
    assert p in live ==> Covered(live, p);
  }
}
