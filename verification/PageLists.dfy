/**
  Page descriptors and the doubly linked free lists threaded through them.  `Linked` ties
  the links to the sequences they stand for; the lemmas say what linking and unlinking one
  page does to all lists at once.
 */
module PageLists {
  import opened FreeBlocks
  import opened BuddyLists

  const FLAG_FREE: bv32 := 1
  const FLAG_KERNEL: bv32 := 4
  const FLAG_USER: bv32 := 8

  datatype Link = Null | To(pfn: nat)

  datatype Page = Page(pfn: nat, order: nat, flags: bv32, refcount: nat, next: Link, prev: Link)

  ghost function LinkAt(s: seq<nat>, i: int): Link {
    if 0 <= i < |s| then To(s[i]) else Null
  }

  ghost predicate LinkedAt(pages: seq<Page>, s: seq<nat>, i: nat)
    requires i < |s|
  {
    s[i] < |pages| && pages[s[i]].next == LinkAt(s, i + 1) && pages[s[i]].prev == LinkAt(s, i - 1)
  }

  /** head is a doubly linked, null-terminated chain through exactly the pages of s, all of
      order k. */
  ghost predicate Chain(pages: seq<Page>, head: Link, s: seq<nat>, k: nat) {
    && head == LinkAt(s, 0)
    && Distinct(s)
    && (forall i: nat :: i < |s| ==> LinkedAt(pages, s, i))
    && (forall i: nat :: i < |s| ==> s[i] < |pages| && pages[s[i]].order == k)
  }

  ghost predicate Linked(pages: seq<Page>, heads: seq<Link>, lists: seq<seq<nat>>) {
    && |heads| == |lists| == ORDERS
    && (forall k: nat :: k < ORDERS ==> Chain(pages, heads[k], lists[k], k))
  }

  ghost predicate Unlisted(lists: seq<seq<nat>>, p: nat) {
    forall k: nat :: k < |lists| ==> p !in lists[k]
  }

  /** Everything but the links is the same. */
  ghost predicate SameDescriptors(pages: seq<Page>, pages': seq<Page>) {
    && |pages| == |pages'|
    && forall q: nat :: q < |pages| ==>
         pages'[q].(next := Null, prev := Null) == pages[q].(next := Null, prev := Null)
  }

  lemma ChainFrame(pages: seq<Page>, pages': seq<Page>, head: Link, s: seq<nat>, k: nat)
    requires Chain(pages, head, s, k) && |pages| <= |pages'|
    requires forall i: nat :: i < |s| && s[i] < |pages| ==> pages'[s[i]] == pages[s[i]]
    ensures Chain(pages', head, s, k)
  {
    forall i: nat | i < |s| ensures LinkedAt(pages', s, i) && pages'[s[i]].order == k {
      assert LinkedAt(pages, s, i);
    }
  }

  /** The descriptors after linking page p in front of list o. */
  function AfterAdd(pages: seq<Page>, head: Link, p: nat): (r: seq<Page>)
    requires p < |pages| && (head.To? ==> head.pfn < |pages|)
    ensures |r| == |pages|
  {
    var pages1 := pages[p := pages[p].(next := head, prev := Null)];
    if head.To? then pages1[head.pfn := pages1[head.pfn].(prev := To(p))] else pages1
  }

  lemma AddLinked(pages: seq<Page>, heads: seq<Link>, lists: seq<seq<nat>>, o: nat, p: nat)
    requires Linked(pages, heads, lists) && o < ORDERS && p < |pages|
    requires pages[p].order == o && Unlisted(lists, p)
    ensures heads[o].To? ==> heads[o].pfn < |pages| && heads[o].pfn != p
    ensures Linked(AfterAdd(pages, heads[o], p), heads[o := To(p)], lists[o := [p] + lists[o]])
    ensures SameDescriptors(pages, AfterAdd(pages, heads[o], p))
  {
    var s, t := lists[o], [p] + lists[o];
    assert s != [] ==> LinkedAt(pages, s, 0);
    var pages' := AfterAdd(pages, heads[o], p);
    assert Chain(pages', To(p), t, o) by {
      AddChain(pages, heads[o], s, o, p);
    }
    forall k: nat | k < ORDERS && k != o ensures Chain(pages', heads[k], lists[k], k) {
      ChainFrame(pages, pages', heads[k], lists[k], k);
    }
  }

  lemma AddChain(pages: seq<Page>, head: Link, s: seq<nat>, o: nat, p: nat)
    requires Chain(pages, head, s, o) && p < |pages| && pages[p].order == o && p !in s
    requires head.To? ==> head.pfn < |pages|
    ensures Chain(AfterAdd(pages, head, p), To(p), [p] + s, o)
  {
    var t, pages' := [p] + s, AfterAdd(pages, head, p);
    forall i: nat | i < |t| ensures LinkedAt(pages', t, i) && pages'[t[i]].order == o {
      if i > 0 {
        assert t[i] == s[i - 1] && LinkedAt(pages, s, i - 1);
      }
    }
  }

  /** The descriptors after unlinking page p. */
  function AfterRemove(pages: seq<Page>, p: nat): (r: seq<Page>)
    requires p < |pages|
    requires pages[p].prev.To? ==> pages[p].prev.pfn < |pages|
    requires pages[p].next.To? ==> pages[p].next.pfn < |pages|
    ensures |r| == |pages|
  {
    var prev, next := pages[p].prev, pages[p].next;
    var pages1 := if prev.To? then pages[prev.pfn := pages[prev.pfn].(next := next)] else pages;
    var pages2 := if next.To? then pages1[next.pfn := pages1[next.pfn].(prev := prev)] else pages1;
    pages2[p := pages2[p].(next := Null, prev := Null)]
  }

  function HeadsAfterRemove(pages: seq<Page>, heads: seq<Link>, o: nat, p: nat): (r: seq<Link>)
    requires p < |pages| && o < |heads|
    ensures |r| == |heads|
  {
    if pages[p].prev.To? then heads else heads[o := pages[p].next]
  }

  // ---------------------------------------------------------------- links in range

  predicate InRange(link: Link, n: nat) {
    link.To? ==> link.pfn < n
  }

  /** No link leaves the descriptors, whatever lists they form. */
  predicate LinksOk(pages: seq<Page>, heads: seq<Link>) {
    && (forall q: nat :: q < |pages| ==> InRange(pages[q].next, |pages|) && InRange(pages[q].prev, |pages|))
    && (forall k: nat :: k < |heads| ==> InRange(heads[k], |pages|))
  }

  lemma AddLinksOk(pages: seq<Page>, heads: seq<Link>, o: nat, p: nat)
    requires LinksOk(pages, heads) && o < |heads| && p < |pages|
    ensures InRange(heads[o], |pages|) && LinksOk(AfterAdd(pages, heads[o], p), heads[o := To(p)])
  {
  }

  lemma RemoveLinksOk(pages: seq<Page>, heads: seq<Link>, o: nat, p: nat)
    requires LinksOk(pages, heads) && o < |heads| && p < |pages|
    ensures InRange(pages[p].next, |pages|) && InRange(pages[p].prev, |pages|)
    ensures LinksOk(AfterRemove(pages, p), HeadsAfterRemove(pages, heads, o, p))
  {
  }

  // ---------------------------------------------------------------- unlinking a listed page

  lemma RemoveLinked(pages: seq<Page>, heads: seq<Link>, lists: seq<seq<nat>>, o: nat, p: nat)
    requires Linked(pages, heads, lists) && o < ORDERS && p in lists[o]
    ensures p < |pages| && pages[p].order == o
    ensures pages[p].prev.To? ==> pages[p].prev.pfn < |pages| && pages[p].prev.pfn != p
    ensures pages[p].next.To? ==> pages[p].next.pfn < |pages| && pages[p].next.pfn != p
    ensures pages[p].prev.To? && pages[p].next.To? ==> pages[p].prev.pfn != pages[p].next.pfn
    ensures |heads| == ORDERS
    ensures Linked(AfterRemove(pages, p), HeadsAfterRemove(pages, heads, o, p), lists[o := Without(lists[o], p)])
    ensures SameDescriptors(pages, AfterRemove(pages, p))
  {
    hide Chain, LinkedAt, Without, Distinct, SameDescriptors, AfterRemove;
    var s := lists[o];
    var i: nat :| i < |s| && s[i] == p;
    Neighbours(pages, heads[o], s, o, i);
    ChainDistinct(pages, heads[o], s, o);
    WithoutAt(s, p, i);
    RemoveChain(pages, heads[o], s, o, i);
    RemoveDescriptors(pages, p);
    forall k: nat | k < ORDERS && k != o ensures Chain(AfterRemove(pages, p), heads[k], lists[k], k) {
      RemoveElsewhere(pages, p, heads[k], lists[k], k);
    }
  }

  lemma ChainDistinct(pages: seq<Page>, head: Link, s: seq<nat>, k: nat)
    requires Chain(pages, head, s, k)
    ensures Distinct(s)
  {
  }

  lemma RemoveDescriptors(pages: seq<Page>, p: nat)
    requires p < |pages| && InRange(pages[p].next, |pages|) && InRange(pages[p].prev, |pages|)
    ensures SameDescriptors(pages, AfterRemove(pages, p))
  {
  }

  lemma AddDescriptors(pages: seq<Page>, head: Link, p: nat)
    requires p < |pages| && InRange(head, |pages|)
    ensures SameDescriptors(pages, AfterAdd(pages, head, p))
  {
  }

  lemma RemoveElsewhere(pages: seq<Page>, p: nat, head: Link, s: seq<nat>, k: nat)
    requires p < |pages| && pages[p].order != k && Chain(pages, head, s, k)
    requires pages[p].prev.To? ==> pages[p].prev.pfn < |pages| && pages[pages[p].prev.pfn].order != k
    requires pages[p].next.To? ==> pages[p].next.pfn < |pages| && pages[pages[p].next.pfn].order != k
    ensures Chain(AfterRemove(pages, p), head, s, k)
  {
    ChainFrame(pages, AfterRemove(pages, p), head, s, k);
  }

  lemma Neighbours(pages: seq<Page>, head: Link, s: seq<nat>, o: nat, i: nat)
    requires Chain(pages, head, s, o) && i < |s|
    ensures s[i] < |pages| && pages[s[i]].order == o
    ensures pages[s[i]].prev == LinkAt(s, i - 1) && pages[s[i]].next == LinkAt(s, i + 1)
    ensures i > 0 ==> s[i - 1] < |pages| && s[i - 1] != s[i] && pages[s[i - 1]].order == o
    ensures i + 1 < |s| ==> s[i + 1] < |pages| && s[i + 1] != s[i] && pages[s[i + 1]].order == o
    ensures 0 < i && i + 1 < |s| ==> s[i - 1] != s[i + 1]
  {
    assert LinkedAt(pages, s, i);
    assert i > 0 ==> LinkedAt(pages, s, i - 1);
    assert i + 1 < |s| ==> LinkedAt(pages, s, i + 1);
  }

  lemma RemoveChain(pages: seq<Page>, head: Link, s: seq<nat>, o: nat, i: nat)
    requires Chain(pages, head, s, o) && i < |s| && s[i] < |pages|
    requires pages[s[i]].prev == LinkAt(s, i - 1) && pages[s[i]].next == LinkAt(s, i + 1)
    requires i > 0 ==> s[i - 1] < |pages|
    requires i + 1 < |s| ==> s[i + 1] < |pages|
    ensures Chain(AfterRemove(pages, s[i]), if i > 0 then head else pages[s[i]].next, s[..i] + s[i + 1..], o)
  {
    var t, pages' := s[..i] + s[i + 1..], AfterRemove(pages, s[i]);
    forall j: nat | j < |t| ensures LinkedAt(pages', t, j) && pages'[t[j]].order == o {
      var j' := if j < i then j else j + 1;
      assert t[j] == s[j'] && LinkedAt(pages, s, j');
    }
  }
}
