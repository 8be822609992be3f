/**
  The blocks of a buddy allocator, as a function of the set of free pages alone: a block is
  a maximal aligned run of free pages of order at most MAX_ORDER.  The lemmas say what one
  list removal and one list insertion do to the set of blocks; splitting and merging are
  sequences of those two steps.
 */
module FreeBlocks {
  import opened Dyadic

  const MAX_ORDER: nat := 10

  ghost predicate Free(g: set<nat>, h: nat, k: nat) {
    forall p: nat :: h <= p < h + Pow2(k) ==> p in g
  }

  ghost predicate Block(g: set<nat>, h: nat, k: nat) {
    && k <= MAX_ORDER
    && Aligned(h, k)
    && Free(g, h, k)
    && (k < MAX_ORDER ==> !Free(g, Base(h, k + 1), k + 1))
  }

  ghost predicate Overlap(h: nat, k: nat, g: nat, j: nat) {
    h < g + Pow2(j) && g < h + Pow2(k)
  }

  /** Two aligned runs that share a page are nested; here the one of smaller order is
      shown to lie, with its sibling, inside the larger one. */
  lemma Inside(h: nat, k: nat, g: nat, j: nat)
    requires Aligned(h, k) && Aligned(g, j) && j <= k && Overlap(h, k, g, j)
    ensures h <= g && g + Pow2(j) <= h + Pow2(k)
    ensures j == k ==> g == h
    ensures j < k ==> h <= Base(g, j + 1) && Base(g, j + 1) + Pow2(j + 1) <= h + Pow2(k)
  {
    hide Pow2, Base, Aligned;
    var p := if h < g then g else h;
    BaseUnique(h, k, p);
    BaseUnique(g, j, p);
    Nested(p, j, k);
    if j < k {
      BaseUnique(h, k, g);
      Nested(g, j + 1, k);
    }
  }

  lemma FreeMonotone(s: set<nat>, t: set<nat>, h: nat, k: nat)
    requires Free(s, h, k)
    requires forall p: nat :: h <= p < h + Pow2(k) && p in s ==> p in t
    ensures Free(t, h, k)
  {
    hide Pow2;
    forall p: nat | h <= p < h + Pow2(k) ensures p in t {
      assert p in s;
    }
  }

  /** No two different blocks share a page. */
  lemma BlocksDisjoint(s: set<nat>, h: nat, k: nat, g: nat, j: nat)
    requires Block(s, h, k) && Block(s, g, j) && Overlap(h, k, g, j)
    ensures h == g && k == j
  {
    hide Pow2, Base, Aligned;
    if j <= k { Inside(h, k, g, j); } else { Inside(g, j, h, k); }
  }

  /** Every free aligned run of order k lies in a block of order at least k. */
  lemma {:induction false} BlockAround(s: set<nat>, h: nat, k: nat) returns (g: nat, j: nat)
    requires k <= MAX_ORDER && Aligned(h, k) && Free(s, h, k)
    ensures Block(s, g, j) && k <= j && g <= h && h + Pow2(k) <= g + Pow2(j)
    decreases MAX_ORDER - k
  {
    hide Pow2, Base, Aligned;
    if k == MAX_ORDER || !Free(s, Base(h, k + 1), k + 1) {
      return h, k;
    }
    BaseUnique(h, k, h);
    BaseBounds(h, k + 1);
    Nested(h, k, k + 1);
    g, j := BlockAround(s, Base(h, k + 1), k + 1);
  }

  /** Every free page lies in exactly one block. */
  lemma BlockOf(s: set<nat>, p: nat) returns (g: nat, j: nat)
    requires p in s
    ensures Block(s, g, j) && g <= p < g + Pow2(j)
    ensures forall h: nat, k: nat :: Block(s, h, k) && h <= p < h + Pow2(k) ==> h == g && k == j
  {
    g, j := BlockAround(s, p, 0);
    forall h: nat, k: nat | Block(s, h, k) && h <= p < h + Pow2(k) ensures h == g && k == j {
      BlocksDisjoint(s, h, k, g, j);
    }
  }

  /** Taking one block away leaves exactly the other blocks. */
  lemma RemoveBlock(s: set<nat>, h: nat, k: nat, g: nat, j: nat)
    requires Block(s, h, k)
    ensures Block(s - Run(h, k), g, j) <==> Block(s, g, j) && !(g == h && j == k)
  {
    hide Pow2, Base, Aligned, Run;
    var s' := s - Run(h, k);
    if Block(s, g, j) && !(g == h && j == k) {
      if Overlap(h, k, g, j) { BlocksDisjoint(s, h, k, g, j); }
      FreeMonotone(s, s', g, j);
      if j < MAX_ORDER && Free(s', Base(g, j + 1), j + 1) {
        FreeMonotone(s', s, Base(g, j + 1), j + 1);
      }
    }
    if Block(s', g, j) {
      assert g in s' && h in Run(h, k);
      FreeMonotone(s', s, g, j);
      if j < MAX_ORDER && Free(s, Base(g, j + 1), j + 1) {
        RemovedParent(s, h, k, g, j);
      }
    }
  }

  /** A free run that reaches outside a block stays free when the block is taken away. */
  lemma RemovedParent(s: set<nat>, h: nat, k: nat, g: nat, j: nat)
    requires Block(s, h, k) && j < MAX_ORDER && g !in Run(h, k)
    requires Free(s, Base(g, j + 1), j + 1)
    ensures Free(s - Run(h, k), Base(g, j + 1), j + 1)
  {
    hide Pow2, Base, Aligned, Run;
    var b := Base(g, j + 1);
    BaseBounds(g, j + 1);
    if Overlap(h, k, b, j + 1) {
      if k <= j {
        Inside(b, j + 1, h, k);
      } else {
        Inside(h, k, b, j + 1);
      }
    }
    FreeMonotone(s, s - Run(h, k), b, j + 1);
  }

  /** Adding a run whose sibling is not wholly free adds one block and keeps the others. */
  lemma AddBlock(s: set<nat>, h: nat, k: nat, g: nat, j: nat)
    requires k <= MAX_ORDER && Aligned(h, k) && s !! Run(h, k)
    requires k < MAX_ORDER ==> !Free(s, Sibling(h, k), k)
    ensures Block(s + Run(h, k), g, j) <==> Block(s, g, j) || (g == h && j == k)
  {
    hide Pow2, Base, Aligned, Run, Sibling;
    AddedBlock(s, h, k);
    if Block(s, g, j) {
      AddKeeps(s, h, k, g, j);
    }
    var s' := s + Run(h, k);
    if Block(s', g, j) && !(g == h && j == k) {
      if Overlap(h, k, g, j) {
        BlocksDisjoint(s', h, k, g, j);
      }
      FreeMonotone(s', s, g, j);
    }
  }

  lemma AddedBlock(s: set<nat>, h: nat, k: nat)
    requires k <= MAX_ORDER && Aligned(h, k) && s !! Run(h, k)
    requires k < MAX_ORDER ==> !Free(s, Sibling(h, k), k)
    ensures Block(s + Run(h, k), h, k)
  {
    hide Pow2, Base, Aligned, Run, Sibling;
    var s' := s + Run(h, k);
    if k < MAX_ORDER && Free(s', Base(h, k + 1), k + 1) {
      var b := Sibling(h, k);
      Halves(h, k);
      FreeMonotone(s', s, b, k);
    }
  }

  lemma AddKeeps(s: set<nat>, h: nat, k: nat, g: nat, j: nat)
    requires k <= MAX_ORDER && Aligned(h, k) && s !! Run(h, k)
    requires k < MAX_ORDER ==> !Free(s, Sibling(h, k), k)
    requires Block(s, g, j)
    ensures Block(s + Run(h, k), g, j)
  {
    hide Pow2, Base, Aligned, Run, Sibling;
    var s', b := s + Run(h, k), Base(g, j + 1);
    AddedBlock(s, h, k);
    FreeMonotone(s, s', g, j);
    assert g in s;
    if j < MAX_ORDER && Free(s', b, j + 1) {
      RemovedParent(s', h, k, g, j);
    }
  }
}
