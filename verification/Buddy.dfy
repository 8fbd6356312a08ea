/**
  The buddy allocator of code/kern/mm/buddy_pmm.c: free lists by order, blocks
  split on allocation and merged with their buddies when freed.
 */
module Buddy {
  import opened Sequences
  import opened BuddyMath

  // ------------------------------------------------------------ decompositions

  // `prop` gives the first page of every free block and the block's order.
  type Blocks = map<Page, nat>

  ghost predicate Covered(prop: Blocks, x: Page) {
    exists p :: p in prop && x in Block(p, prop[p])
  }

  ghost predicate BuddyFree(prop: Blocks, p: Page, k: nat) {
    Buddy(p, k) in prop && prop[Buddy(p, k)] == k
  }

  // The blocks are aligned, disjoint, cover exactly the free pages `f`, and no
  // two of them are buddies that should have been merged.
  ghost predicate Decomposes(prop: Blocks, f: set<Page>) {
    && (forall p :: p in prop ==> prop[p] <= MAX_ORDER && Aligned(p, prop[p]) && Block(p, prop[p]) <= f)
    && (forall x :: x in f ==> Covered(prop, x))
    && (forall p, q :: p in prop && q in prop && p != q ==> Block(p, prop[p]) !! Block(q, prop[q]))
    && (forall p :: p in prop && prop[p] < MAX_ORDER ==> !BuddyFree(prop, p, prop[p]))
  }

  lemma FirstPage(p: Page, k: nat)
    ensures p in Block(p, k)
  {
    Pow2Pos(k);
    assert p == Page(p.zone, p.idx);
  }

  lemma AddBlockOk(prop: Blocks, f: set<Page>, p: Page, k: nat)
    requires Decomposes(prop, f) && k <= MAX_ORDER && Aligned(p, k) && Block(p, k) !! f
    requires k < MAX_ORDER ==> !BuddyFree(prop, p, k)
    ensures p !in prop && Decomposes(prop[p := k], f + Block(p, k))
  {
    hide Block, Aligned, Buddy;
    FirstPage(p, k);
    if p in prop { FirstPage(p, prop[p]); }
    var prop' := prop[p := k];
    forall x | x in f + Block(p, k) ensures Covered(prop', x) {
      if x in f {
        var q :| q in prop && x in Block(q, prop[q]);
        assert q in prop' && prop'[q] == prop[q];
      } else {
        assert p in prop' && x in Block(p, prop'[p]);
      }
    }
    forall q | q in prop' && prop'[q] < MAX_ORDER ensures !BuddyFree(prop', q, prop'[q]) {
      if q != p { BuddyOk(q, prop'[q]); } else { BuddyOk(p, k); }
    }
  }

  lemma DelBlockOk(prop: Blocks, f: set<Page>, p: Page)
    requires Decomposes(prop, f) && p in prop
    ensures Decomposes(prop - {p}, f - Block(p, prop[p]))
  {
    hide Block, Aligned, Buddy;
    var prop' := prop - {p};
    forall x | x in f - Block(p, prop[p]) ensures Covered(prop', x) {
      var q :| q in prop && x in Block(q, prop[q]);
      assert q in prop';
    }
  }

  // Every aligned run of free pages lies in one free block.
  lemma {:induction false} Largest(prop: Blocks, f: set<Page>, q: Page, k: nat) returns (p: Page)
    requires Decomposes(prop, f) && k <= MAX_ORDER && Aligned(q, k) && Block(q, k) <= f
    ensures p in prop && prop[p] >= k && Block(q, k) <= Block(p, prop[p])
    decreases k
  {
    hide Block, Aligned, Buddy;
    FirstPage(q, k);
    if k == 0 {
      assert Covered(prop, q);
      p :| p in prop && q in Block(p, prop[p]);
      Nested(q, 0, p, prop[p], q);
    } else {
      var r := q.(idx := q.idx + Pow2(k - 1));
      Halves(q, k - 1);
      SplitBlock(q, k - 1);
      p := Largest(prop, f, q, k - 1);
      if prop[p] >= k {
        FirstPage(q, k - 1);
        Nested(q, k, p, prop[p], q);
      } else {
        var p' := Largest(prop, f, r, k - 1);
        SameBlock(q, p, k - 1);
        if prop[p'] >= k {
          FirstPage(r, k - 1);
          Nested(q, k, p', prop[p'], r);
          p := p';
        } else {
          SameBlock(r, p', k - 1);
          assert false;
        }
      }
    }
  }

  lemma SameBlock(p: Page, q: Page, k: nat)
    requires Aligned(p, k) && Aligned(q, k) && Block(p, k) <= Block(q, k)
    ensures p == q
  {
    FirstPage(p, k);
    BlockBits(q, k, p);
  }

  // A set of free pages has one decomposition.
  lemma Unique(prop: Blocks, prop': Blocks, f: set<Page>)
    requires Decomposes(prop, f) && Decomposes(prop', f)
    ensures prop == prop'
  {
    forall p | p in prop ensures p in prop' && prop'[p] == prop[p] { UniqueHalf(prop, prop', f, p); }
    forall p | p in prop' ensures p in prop { UniqueHalf(prop', prop, f, p); }
  }

  lemma UniqueHalf(prop: Blocks, prop': Blocks, f: set<Page>, p: Page)
    requires Decomposes(prop, f) && Decomposes(prop', f) && p in prop
    ensures p in prop' && prop'[p] == prop[p]
  {
    hide Block, Aligned, Buddy, BuddyFree;
    var q := Largest(prop', f, p, prop[p]);
    var r := Largest(prop, f, q, prop'[q]);
    FirstPage(p, prop[p]);
    assert r == p;
    SameBlock(q, p, prop[p]);
  }

  // ------------------------------------------------------------ counting

  // buddy_nr_free_pages over the first `k` orders.
  function NrPages(nr: seq<nat>, k: nat): nat
    requires k <= |nr|
  {
    if k == 0 then 0 else NrPages(nr, k - 1) + nr[k - 1] * Pow2(k - 1)
  }

  lemma {:induction false} NrNone(nr: seq<nat>, k: nat)
    requires k <= |nr| && forall i :: 0 <= i < |nr| ==> nr[i] == 0
    ensures NrPages(nr, k) == 0
  {
    hide Pow2;
    if k > 0 { NrNone(nr, k - 1); }
  }

  lemma {:induction false} NrChange(nr: seq<nat>, o: nat, v: nat, k: nat)
    requires o < |nr| && k <= |nr|
    ensures NrPages(nr[o := v], k) == NrPages(nr, k) + if o < k then v * Pow2(o) - nr[o] * Pow2(o) else 0
  {
    if k > 0 { NrChange(nr, o, v, k - 1); }
  }

  lemma NrAdd(nr: seq<nat>, o: nat)
    requires o < |nr|
    ensures NrPages(nr[o := nr[o] + 1], |nr|) == NrPages(nr, |nr|) + Pow2(o)
    ensures nr[o] > 0 ==> NrPages(nr[o := nr[o] - 1], |nr|) == NrPages(nr, |nr|) - Pow2(o)
  {
    NrChange(nr, o, nr[o] + 1, |nr|);
    assert (nr[o] + 1) * Pow2(o) == nr[o] * Pow2(o) + Pow2(o);
    if nr[o] > 0 {
      NrChange(nr, o, nr[o] - 1, |nr|);
      assert (nr[o] - 1) * Pow2(o) == nr[o] * Pow2(o) - Pow2(o);
    }
  }

  // ------------------------------------------------------------ lists

  ghost predicate ListsOk(free: seq<seq<Page>>, nr: seq<nat>, prop: Blocks) {
    && |free| == |nr| == MAX_ORDER + 1
    && (forall o :: 0 <= o <= MAX_ORDER ==> nr[o] == |free[o]| && NoDup(free[o]))
    && (forall o, p :: 0 <= o <= MAX_ORDER ==> (p in free[o] <==> p in prop && prop[p] == o))
  }

  lemma ListsAdd(free: seq<seq<Page>>, nr: seq<nat>, prop: Blocks, p: Page, k: nat)
    requires ListsOk(free, nr, prop) && p !in prop && k <= MAX_ORDER
    ensures ListsOk(free[k := [p] + free[k]], nr[k := nr[k] + 1], prop[p := k])
  {
    assert p !in free[k];
  }

  lemma ListsDel(free: seq<seq<Page>>, nr: seq<nat>, prop: Blocks, p: Page)
    requires ListsOk(free, nr, prop) && p in prop && prop[p] <= MAX_ORDER
    ensures nr[prop[p]] > 0
    ensures var k := prop[p]; ListsOk(free[k := Without(free[k], p)], nr[k := nr[k] - 1], prop - {p})
  {
    WithoutOk(free[prop[p]], p);
  }

  // ------------------------------------------------------------ the allocator

  ghost predicate InZones(zones: map<nat, nat>, f: set<Page>) {
    forall x :: x in f ==> x.zone in zones && x.idx < zones[x.zone]
  }

  // Some zone-aligned run of 2^k pages is free.
  ghost predicate HasRun(f: set<Page>, k: nat) {
    exists q :: Aligned(q, k) && Block(q, k) <= f
  }

  // The minimal order whose blocks hold `n` pages.
  predicate IsOrder(n: nat, k: nat) { n <= Pow2(k) && (k > 0 ==> Pow2(k - 1) < n) }

  class Allocator {
    // The number of pages of each zone.
    var zones: map<nat, nat>
    // free_list and nr_free, by order.
    var free: seq<seq<Page>>
    var nr: seq<nat>
    // The pages with PageProperty set, and their property.
    var prop: Blocks
    // The free pages.
    ghost var avail: set<Page>

    ghost predicate Valid()
      reads this
    {
      && Decomposes(prop, avail)
      && ListsOk(free, nr, prop)
      && InZones(zones, avail)
      && NrPages(nr, |nr|) == |avail|
    }

    // buddy_init
    constructor ()
      ensures Valid() && avail == {} && zones == map[]
    {
      zones, prop, avail := map[], map[], {};
      free, nr := [[], [], [], [], [], [], [], [], [], [], []], [0, 0, 0, 0, 0, 0, 0, 0, 0, 0, 0];
      NrNone([0, 0, 0, 0, 0, 0, 0, 0, 0, 0, 0], 11);
    }

    // SetPageProperty and list_add.
    method AddBlock(p: Page, k: nat)
      requires Valid() && k <= MAX_ORDER && Aligned(p, k) && Block(p, k) !! avail && InZones(zones, Block(p, k))
      requires k < MAX_ORDER ==> !BuddyFree(prop, p, k)
      modifies this`free, this`nr, this`prop, this`avail
      ensures Valid() && avail == old(avail) + Block(p, k) && prop == old(prop)[p := k]
    {
      hide Decomposes, ListsOk, BuddyFree, Aligned, Block, NrPages;
      AddBlockOk(prop, avail, p, k);
      ListsAdd(free, nr, prop, p, k);
      assert |free| == |nr| == MAX_ORDER + 1 by { ListsLength(free, nr, prop); }
      NrAdd(nr, k);
      assert |Block(p, k)| == Pow2(k) by { BlockSize(p, k); }
      prop := prop[p := k];
      nr := nr[k := nr[k] + 1];
      free := free[k := [p] + free[k]];
      avail := avail + Block(p, k);
    }

    // list_del and ClearPageProperty.
    method DelBlock(p: Page)
      requires Valid() && p in prop
      modifies this`free, this`nr, this`prop, this`avail
      ensures Valid() && avail == old(avail) - Block(p, old(prop)[p]) && prop == old(prop) - {p}
    {
      hide Decomposes, ListsOk, BuddyFree, Aligned, Block, NrPages;
      var k := prop[p];
      BlockIn(prop, avail, p);
      DelBlockOk(prop, avail, p);
      ListsDel(free, nr, prop, p);
      ListsLength(free, nr, prop);
      NrAdd(nr, k);
      BlockSize(p, k);
      RemoveSize(avail, Block(p, k));
      prop := prop - {p};
      nr := nr[k := nr[k] - 1];
      free := free[k := Without(free[k], p)];
      avail := avail - Block(p, k);
    }

    // getorder; a request of more than 2^MAX_ORDER pages panics.
    method GetOrder(n: nat) returns (k: nat)
      requires 0 < n <= Pow2(MAX_ORDER)
      ensures k <= MAX_ORDER && IsOrder(n, k)
    {
      var size := 1;
      k := 0;
      while k <= MAX_ORDER
        invariant k <= MAX_ORDER && size == Pow2(k) && (k > 0 ==> Pow2(k - 1) < n)
      {
        if n <= size {
          return;
        }
        ShlOuter(1, k);
        size := size * 2;
        k := k + 1;
      }
    }

    // buddy_alloc_pages_sub
    method AllocSub(order: nat) returns (r: Option<Page>)
      requires Valid() && order <= MAX_ORDER
      modifies this`free, this`nr, this`prop, this`avail
      ensures Valid()
      ensures r.None? ==> avail == old(avail)
      ensures r.None? <==> !HasRun(old(avail), order)
      ensures r.Some? ==> Aligned(r.value, order) && Block(r.value, order) <= old(avail)
      ensures r.Some? ==> avail == old(avail) - Block(r.value, order)
    {
      hide Decomposes, ListsOk, BuddyFree, Aligned, Block, NrPages;
      ListsLength(free, nr, prop);
      var cur := order;
      while cur <= MAX_ORDER
        invariant order <= cur <= MAX_ORDER + 1
        invariant forall o :: order <= o < cur ==> free[o] == []
      {
        if free[cur] != [] {
          var page := free[cur][0];
          InList(free, nr, prop, page, cur);
          r := Some(page);
          Split(page, cur, order);
          return;
        }
        cur := cur + 1;
      }
      r := None;
      NoneLeft(free, nr, prop, avail, order);
    }

    // The block at `page` leaves its list; upper halves go back until the
    // block has the order asked for.
    method Split(page: Page, from: nat, order: nat)
      requires Valid() && order <= from <= MAX_ORDER && page in prop && prop[page] == from
      modifies this`free, this`nr, this`prop, this`avail
      ensures Valid() && Aligned(page, order) && Block(page, order) <= old(avail)
      ensures avail == old(avail) - Block(page, order)
    {
      hide Decomposes, ListsOk, BuddyFree, Aligned, Block, NrPages;
      BlockIn(prop, avail, page);
      ghost var f := avail;
      DelBlock(page);
      var cur := from;
      while cur > order
        invariant order <= cur <= MAX_ORDER
        invariant Valid() && Aligned(page, cur) && Block(page, cur) <= f && avail == f - Block(page, cur)
        invariant InZones(zones, f)
      {
        cur := cur - 1;
        SplitOnce(page, cur, f);
      }
    }

    // One round: of a block of order `cur + 1` the upper half is freed.
    method SplitOnce(page: Page, cur: nat, ghost f: set<Page>)
      requires Valid() && cur < MAX_ORDER && InZones(zones, f)
      requires Aligned(page, cur + 1) && Block(page, cur + 1) <= f && avail == f - Block(page, cur + 1)
      modifies this`free, this`nr, this`prop, this`avail
      ensures Valid() && Aligned(page, cur) && Block(page, cur) <= f && avail == f - Block(page, cur)
    {
      hide Decomposes, ListsOk, BuddyFree, Aligned, Block, NrPages;
      Halves(page, cur);
      SplitBlock(page, cur);
      FirstPage(page, cur + 1);
      NotListed(prop, avail, page, cur);
      var buddy := page.(idx := page.idx + Pow2(cur));
      AddBlock(buddy, cur);
    }

    // buddy_alloc_pages; `k` is the order that holds `n` pages.
    method Alloc(n: nat) returns (r: Option<Page>, ghost k: nat)
      requires Valid() && 0 < n <= Pow2(MAX_ORDER)
      modifies this`free, this`nr, this`prop, this`avail
      ensures Valid() && k <= MAX_ORDER && IsOrder(n, k)
      ensures r.None? <==> !HasRun(old(avail), k)
      ensures r.None? ==> avail == old(avail)
      ensures r.Some? ==>
        Aligned(r.value, k) && Span(r.value, n) <= old(avail) && avail == old(avail) - Span(r.value, n)
      ensures r.Some? ==> |avail| == |old(avail)| - n
    {
      hide Valid, Aligned, Pow2, HasRun, InZones, Block, Span, Orderly;
      Zoned();
      var order := GetOrder(n);
      k := order;
      r := AllocSub(order);
      if r.Some? {
        var page, size := r.value, Pow2(order);
        Trim(zones, old(avail), page, n, order);
        SpanSize(page, n);
        if n != size {
          Pow2Mono(order, MAX_ORDER);
          Pow2Ten();
          Fewer(page.(idx := page.idx + n), size - n);
          var _ := Free(page.(idx := page.idx + n), size - n);
        }
      }
    }

    // buddy_free_pages_sub
    method FreeSub(base: Page, order: nat)
      requires Valid() && order <= MAX_ORDER && Aligned(base, order)
      requires Block(base, order) !! avail && InZones(zones, Block(base, order))
      modifies this`free, this`nr, this`prop, this`avail
      ensures Valid() && avail == old(avail) + Block(base, order)
    {
      hide Valid, BuddyFree, Aligned, Block, Buddy, Parent, InZones, Floating;
      ghost var f := avail + Block(base, order);
      Float(zones, avail, base, order) by { Zoned(); }
      var page, k := base, order;
      while k < MAX_ORDER
        invariant order <= k <= MAX_ORDER && Aligned(page, k) && Valid() && Floating(zones, avail, f, page, k)
      {
        var buddy := Buddy(page, k);
        NotBuddy(prop, page, k);
        if !(buddy in prop && prop[buddy] == k) {
          break;
        }
        Merge(page, k, f);
        page := Parent(page, k);
        k := k + 1;
      }
      Land(zones, avail, f, page, k);
      AddBlock(page, k);
    }

    lemma Zoned()
      requires Valid()
      ensures InZones(zones, avail)
    {
    }

    // One round: the free buddy leaves its list and joins the block.
    method Merge(page: Page, k: nat, ghost f: set<Page>)
      requires Valid() && Aligned(page, k) && Buddy(page, k) in prop && prop[Buddy(page, k)] == k
      requires Floating(zones, avail, f, page, k)
      modifies this`free, this`nr, this`prop, this`avail
      ensures Valid() && Aligned(Parent(page, k), k + 1) && Floating(zones, avail, f, Parent(page, k), k + 1)
    {
      hide Decomposes, ListsOk, BuddyFree, Aligned, Block, NrPages, Buddy, Parent;
      BuddyOk(page, k);
      BlockIn(prop, avail, Buddy(page, k));
      DelBlock(Buddy(page, k));
    }

    // Frees the aligned block at the start of what is left of a range.
    method FreePiece(p: Page, left: nat, order: nat, ghost f: set<Page>) returns (p': Page, left': nat)
      requires Valid() && Rest(zones, avail, f, p, left) && Aligned(p, order) && Pow2(order) <= left
      requires order <= MAX_ORDER
      modifies this`free, this`nr, this`prop, this`avail
      ensures Valid() && Rest(zones, avail, f, p', left')
      ensures p' == p.(idx := p.idx + Pow2(order)) && left' == left - Pow2(order) < left
    {
      hide Decomposes, ListsOk, BuddyFree, NrPages, Pow2, Aligned, Block, Rest, InZones;
      RestSplit(zones, avail, f, p, left, order);
      Pow2Pos(order);
      FreeSub(p, order);
      p', left' := p.(idx := p.idx + Pow2(order)), left - Pow2(order);
    }

    // buddy_free_pages; `ok` is false when its order assertion fails.
    method Free(base: Page, n: nat) returns (ok: bool)
      requires Valid() && 0 < n
      requires Span(base, n) !! avail && InZones(zones, Span(base, n))
      modifies this`free, this`nr, this`prop, this`avail
      ensures Valid() && (ok <==> Orderly(base, n))
      ensures ok ==> avail == old(avail) + Span(base, n) && |avail| == |old(avail)| + n
    {
      hide Decomposes, ListsOk, BuddyFree, NrPages, Pow2, Aligned, Block, Orderly;
      Pow2Zero(base);
      SpanSize(base, n);
      if n == 1 {
        FreeSub(base, 0);
        Fewer(base, 1);
        ok := true;
      } else {
        ghost var f := avail + Span(base, n);
        var p, left, order;
        ok, p, left, order := FreeLow(base, n, f);
        if ok { FreeHigh(p, left, order, f); }
      }
    }

    // The first loop: up to an alignment that exceeds what is left.
    method FreeLow(base: Page, n: nat, ghost f: set<Page>) returns (ok: bool, p: Page, left: nat, order: nat)
      requires Valid() && Rest(zones, avail, f, base, n)
      modifies this`free, this`nr, this`prop, this`avail
      ensures Valid() && Rest(zones, avail, f, p, left) && (ok <==> Orderly(base, n))
      ensures ok ==> order <= MAX_ORDER + 1 && Aligned(p, order) && left < Pow2(order)
    {
      hide Decomposes, ListsOk, BuddyFree, NrPages, Pow2, Aligned, Block, Rest, InZones, Valid, Orderly;
      ok, p, left, order := true, base, n, 0;
      var size := 1;
      Pow2Zero(base);
      while left >= size
        invariant order <= MAX_ORDER + 1 && size == Pow2(order) && Aligned(p, order) && ok
        invariant p.idx + left == base.idx + n && base.idx <= p.idx < base.idx + size
        invariant Valid() && Rest(zones, avail, f, p, left)
        decreases MAX_ORDER + 1 - order
      {
        if order > MAX_ORDER {
          OrderFails(base, n, p, left);
          return false, p, left, order;
        }
        AlignedUp(p, order);
        ShlOuter(1, order);
        if BitSet(p, order) {
          p, left := FreePiece(p, left, order, f);
        }
        order := order + 1;
        size := size * 2;
      }
      OrderHolds(base, n, p, left, order);
    }

    // The second loop: the largest blocks that fit, in falling order.
    method FreeHigh(base: Page, n: nat, top: nat, ghost f: set<Page>)
      requires Valid() && Rest(zones, avail, f, base, n) && top <= MAX_ORDER + 1 && Aligned(base, top) && n < Pow2(top)
      modifies this`free, this`nr, this`prop, this`avail
      ensures Valid() && avail == f
    {
      hide Decomposes, ListsOk, BuddyFree, NrPages, Pow2, Aligned, Block, Rest, InZones, Valid;
      var p, left: nat, order: nat := base, n, top;
      var size := Pow2(top);
      while left != 0
        invariant size == Pow2(order) && Aligned(p, order) && left < size && order <= MAX_ORDER + 1
        invariant Valid() && Rest(zones, avail, f, p, left)
        decreases left
      {
        while left < size
          invariant size == Pow2(order) && Aligned(p, order) && left < 2 * size && order <= MAX_ORDER + 1
          invariant Valid() && Rest(zones, avail, f, p, left)
          invariant left >= size ==> order <= MAX_ORDER
          decreases order
        {
          Pow2Zero(p);
          AlignedDown(p, order - 1, order);
          ShlOuter(1, order - 1);
          order := order - 1;
          size := size / 2;
        }
        AlignedUp(p, order);
        p, left := FreePiece(p, left, order, f);
      }
      RestDone(zones, avail, f, p);
    }

    // buddy_nr_free_pages
    method NrFreePages() returns (r: nat)
      requires Valid()
      ensures r == |avail|
    {
      hide Decomposes, Pow2;
      r := 0;
      for order := 0 to MAX_ORDER + 1
        invariant r == NrPages(nr, order)
      {
        r := r + nr[order] * Pow2(order);
      }
    }

    // buddy_init_memmap for a new zone of `n` pages.
    method InitMemmap(zone: nat, n: nat)
      requires Valid() && zone !in zones && n > 0
      modifies this
      ensures Valid() && zones == old(zones)[zone := n]
      ensures avail == old(avail) + Span(Page(zone, 0), n)
    {
      hide Decomposes, ListsOk, BuddyFree, NrPages, Pow2, Aligned, Block, Rest, InZones;
      NewZone(zones, zones[zone := n], avail, zone, n);
      zones := zones[zone := n];
      Fill(Page(zone, 0), n, avail + Span(Page(zone, 0), n));
    }

    // The two nested loops: blocks of the largest order that still fits.
    method Fill(p0: Page, n: nat, ghost f: set<Page>)
      requires Valid() && p0.idx == 0 && p0.zone in zones && zones[p0.zone] == n && Rest(zones, avail, f, p0, n)
      modifies this`free, this`nr, this`prop, this`avail
      ensures Valid() && avail == f
    {
      hide Valid, Pow2, Aligned, Rest, ZonePlace;
      var p, left: nat, order: nat, size := p0, n, MAX_ORDER, 1024;
      StartPlace(p, n);
      while left != 0
        invariant order <= MAX_ORDER && size == Pow2(order) && ZonePlace(p, p0.zone, n, left, order)
        invariant p.zone == p0.zone
        invariant Valid() && Rest(zones, avail, f, p, left)
        decreases left, order
      {
        while left >= size
          invariant order <= MAX_ORDER && size == Pow2(order) && ZonePlace(p, p0.zone, n, left, order)
          invariant p.zone == p0.zone
          invariant Valid() && Rest(zones, avail, f, p, left)
          decreases left
        {
          p, left := AddPiece(p, left, order, f);
        }
        if left != 0 {
          Pow2Zero(p);
          PlaceDown(p, p0.zone, n, left, order);
          order := order - 1;
          size := size / 2;
        }
      }
      RestDone(zones, avail, f, p);
    }

    // Adds the block at the start of what is left of a new zone.
    method AddPiece(p: Page, left: nat, order: nat, ghost f: set<Page>) returns (p': Page, left': nat)
      requires Valid() && Rest(zones, avail, f, p, left) && order <= MAX_ORDER && Pow2(order) <= left
      requires p.zone in zones && ZonePlace(p, p.zone, zones[p.zone], left, order)
      modifies this`free, this`nr, this`prop, this`avail
      ensures Valid() && Rest(zones, avail, f, p', left')
      ensures p'.zone == p.zone && ZonePlace(p', p.zone, zones[p.zone], left', order)
      ensures left' == left - Pow2(order) < left
    {
      hide Decomposes, ListsOk, BuddyFree, NrPages, Pow2, Aligned, Block, Rest, InZones;
      RestSplit(zones, avail, f, p, left, order);
      AlignedUp(p, order);
      Pow2Pos(order);
      if order < MAX_ORDER { Beyond(prop, avail, f, zones, p, left, order); }
      AddBlock(p, order);
      p', left' := p.(idx := p.idx + Pow2(order)), left - Pow2(order);
    }
  }

  lemma StartPlace(p: Page, n: nat)
    requires p.idx == 0
    ensures Pow2(MAX_ORDER) == 1024 && ZonePlace(p, p.zone, n, n, MAX_ORDER)
  {
    Pow2Ten();
    ZeroAligned(p, MAX_ORDER);
  }

  // Where buddy_init_memmap stands: below the top order at most one block of
  // each order fits, so the next one starts at a double alignment.
  ghost predicate ZonePlace(p: Page, zone: nat, n: nat, left: nat, order: nat) {
    && p.zone == zone && p.idx + left == n && Aligned(p, order)
    && (order < MAX_ORDER ==> left < 2 * Pow2(order) && (left >= Pow2(order) ==> Aligned(p, order + 1)))
  }

  lemma PlaceDown(p: Page, zone: nat, n: nat, left: nat, order: nat)
    requires ZonePlace(p, zone, n, left, order) && 0 < left < Pow2(order) && order <= MAX_ORDER
    ensures order > 0 && ZonePlace(p, zone, n, left, order - 1) && Pow2(order) == 2 * Pow2(order - 1)
  {
    assert Pow2(0) == 1;
    AlignedDown(p, order - 1, order);
    ShlOuter(1, order - 1);
  }

  lemma NewZone(zones: map<nat, nat>, zones': map<nat, nat>, avail: set<Page>, zone: nat, n: nat)
    requires InZones(zones, avail) && zone !in zones && zones' == zones[zone := n]
    ensures InZones(zones', avail) && Rest(zones', avail, avail + Span(Page(zone, 0), n), Page(zone, 0), n)
  {
  }

  // A block cut down to its first n pages.
  lemma Trim(zones: map<nat, nat>, avail: set<Page>, p: Page, n: nat, k: nat)
    requires InZones(zones, avail) && Block(p, k) <= avail && 0 < n && IsOrder(n, k)
    ensures n <= Pow2(k) && Pow2(k) - n < 2 * Pow2(k)
    ensures var rest := Span(p.(idx := p.idx + n), Pow2(k) - n);
      && InZones(zones, rest) && rest !! avail - Block(p, k) && Span(p, n) <= avail
      && avail - Block(p, k) + rest == avail - Span(p, n)
      && (n == Pow2(k) ==> Block(p, k) == Span(p, n))
  {
    hide Pow2;
    SpanSplit(p, n, Pow2(k));
  }

  // The block is all that `avail` lacks of `f`.
  ghost predicate Floating(zones: map<nat, nat>, avail: set<Page>, f: set<Page>, p: Page, k: nat) {
    InZones(zones, f) && Block(p, k) <= f && avail == f - Block(p, k)
  }

  lemma Float(zones: map<nat, nat>, avail: set<Page>, p: Page, k: nat)
    requires InZones(zones, avail) && InZones(zones, Block(p, k)) && Block(p, k) !! avail
    ensures Floating(zones, avail, avail + Block(p, k), p, k)
  {
    hide Block;
    assert avail == avail + Block(p, k) - Block(p, k);
  }

  lemma Land(zones: map<nat, nat>, avail: set<Page>, f: set<Page>, p: Page, k: nat)
    requires Floating(zones, avail, f, p, k)
    ensures Block(p, k) !! avail && InZones(zones, Block(p, k)) && avail + Block(p, k) == f
  {
    hide Block;
  }

  // The free range `p`, `left` is what `avail` still lacks of `f`.
  ghost predicate Rest(zones: map<nat, nat>, avail: set<Page>, f: set<Page>, p: Page, left: nat) {
    avail + Span(p, left) == f && Span(p, left) !! avail && InZones(zones, f)
  }

  lemma RestSplit(zones: map<nat, nat>, avail: set<Page>, f: set<Page>, p: Page, left: nat, k: nat)
    requires Rest(zones, avail, f, p, left) && Pow2(k) <= left
    ensures Block(p, k) !! avail && InZones(zones, Block(p, k))
    ensures Rest(zones, avail + Block(p, k), f, p.(idx := p.idx + Pow2(k)), left - Pow2(k))
  {
    hide Pow2;
    SpanSplit(p, Pow2(k), left);
  }

  lemma RestDone(zones: map<nat, nat>, avail: set<Page>, f: set<Page>, p: Page)
    requires Rest(zones, avail, f, p, 0)
    ensures avail == f
  {
    assert Span(p, 0) == {};
  }

  lemma NotBuddy(prop: Blocks, p: Page, k: nat)
    ensures BuddyFree(prop, p, k) <==> Buddy(p, k) in prop && prop[Buddy(p, k)] == k
  {
  }

  lemma Pow2Zero(p: Page)
    ensures Pow2(0) == 1 && Aligned(p, 0) && Span(p, 1) == Block(p, 0)
  {
  }

  lemma Pow2Ten()
    ensures Pow2(MAX_ORDER) == 1024
  {
    assert Pow2(0) == 1;
    ShlOuter(1, 0); ShlOuter(1, 1); ShlOuter(1, 2); ShlOuter(1, 3); ShlOuter(1, 4);
    ShlOuter(1, 5); ShlOuter(1, 6); ShlOuter(1, 7); ShlOuter(1, 8); ShlOuter(1, 9);
  }

  // Behind the first multiple of 2^(MAX_ORDER + 1) there is less than that many
  // pages: the first loop of buddy_free_pages stays within the orders.
  predicate Orderly(base: Page, n: nat) {
    var top := 2 * Pow2(MAX_ORDER); base.idx + n < (base.idx + top - 1) / top * top + top
  }

  lemma Fewer(base: Page, n: nat)
    requires n < 2048
    ensures Orderly(base, n)
  {
    hide Pow2;
    Pow2Ten();
  }

  lemma TopAligned(p: Page)
    requires Aligned(p, MAX_ORDER + 1)
    ensures Pow2(MAX_ORDER) == 1024 && Pow2(MAX_ORDER + 1) == 2048 && p.idx % 2048 == 0
  {
    var b := Shr(p.idx, MAX_ORDER + 1);
    ShlTop(1);
    ShlTop(b);
    ShlOuter(1, MAX_ORDER);
  }

  lemma ShlTop(b: nat)
    ensures Shl(b, MAX_ORDER + 1) == 2048 * b
  {
    hide Pow2;
    ShlOuter(b, 10); ShlOuter(b, 9); ShlOuter(b, 8); ShlOuter(b, 7); ShlOuter(b, 6); ShlOuter(b, 5);
    ShlOuter(b, 4); ShlOuter(b, 3); ShlOuter(b, 2); ShlOuter(b, 1); ShlOuter(b, 0);
  }

  lemma OrderFails(base: Page, n: nat, p: Page, left: nat)
    requires p.idx + left == base.idx + n && base.idx <= p.idx < base.idx + Pow2(MAX_ORDER + 1)
    requires Aligned(p, MAX_ORDER + 1)
    requires left >= Pow2(MAX_ORDER + 1)
    ensures !Orderly(base, n)
  {
    hide Pow2, Aligned;
    TopAligned(p);
  }

  lemma OrderHolds(base: Page, n: nat, p: Page, left: nat, k: nat)
    requires p.idx + left == base.idx + n && base.idx <= p.idx < base.idx + Pow2(k) && Aligned(p, k)
    requires k <= MAX_ORDER + 1
    requires left < Pow2(k)
    ensures Orderly(base, n)
  {
    hide Pow2, Aligned;
    ShlTop(1);
    RoundsUp(base, p, k);
  }

  // The next multiple of a larger power of two is not before the next multiple
  // of a smaller one.
  lemma {:induction false} RoundsUp(base: Page, p: Page, k: nat)
    requires base.idx <= p.idx < base.idx + Pow2(k) && Aligned(p, k) && k <= MAX_ORDER + 1
    ensures Pow2(MAX_ORDER) == 1024 && Pow2(k) <= 2048 && p.idx <= (base.idx + 2047) / 2048 * 2048
    decreases MAX_ORDER + 1 - k
  {
    hide Pow2, Aligned;
    if k == MAX_ORDER + 1 {
      TopAligned(p);
    } else {
      AlignedUp(p, k);
      ShlOuter(1, k);
      RoundsUp(base, if BitSet(p, k) then p.(idx := p.idx + Pow2(k)) else p, k + 1);
    }
  }

  lemma OneOrder(n: nat, k: nat)
    requires IsOrder(n, k)
    ensures forall j: nat :: IsOrder(n, j) ==> j == k
  {
    hide Pow2;
    forall j: nat | IsOrder(n, j) ensures j == k {
      if j < k { Pow2Mono(j, k - 1); }
      if k < j { Pow2Mono(k, j - 1); }
    }
  }

  lemma ZeroAligned(p: Page, k: nat)
    requires p.idx == 0
    ensures Aligned(p, k)
  {
    ShlAdd(0, 0, k);
    ShrShl(0, k);
  }

  // In a fresh zone the buddy of the last block added lies beyond it.
  lemma Beyond(prop: Blocks, avail: set<Page>, f: set<Page>, zones: map<nat, nat>, p: Page, left: nat, k: nat)
    requires Decomposes(prop, avail) && Rest(zones, avail, f, p, left) && Aligned(p, k + 1)
    requires Pow2(k) <= left < 2 * Pow2(k)
    requires p.zone in zones && p.idx + left == zones[p.zone]
    ensures !BuddyFree(prop, p, k)
  {
    Halves(p, k);
    var b := Buddy(p, k);
    if b in prop { FirstPage(b, prop[b]); }
  }

  lemma BlockIn(prop: Blocks, f: set<Page>, p: Page)
    requires Decomposes(prop, f) && p in prop
    ensures prop[p] <= MAX_ORDER && Aligned(p, prop[p]) && Block(p, prop[p]) <= f
  {
  }

  lemma RemoveSize(f: set<Page>, b: set<Page>)
    requires b <= f
    ensures |f - b| == |f| - |b|
  {
    assert f == (f - b) + b;
  }

  lemma InList(free: seq<seq<Page>>, nr: seq<nat>, prop: Blocks, p: Page, k: nat)
    requires ListsOk(free, nr, prop) && k <= MAX_ORDER && p in free[k]
    ensures p in prop && prop[p] == k
  {
  }

  lemma ListNonEmpty(free: seq<seq<Page>>, nr: seq<nat>, prop: Blocks, p: Page)
    requires ListsOk(free, nr, prop) && p in prop && prop[p] <= MAX_ORDER
    ensures free[prop[p]] != []
  {
    assert p in free[prop[p]];
  }

  // With the lists from `order` on empty there is no free run of that order.
  lemma NoneLeft(free: seq<seq<Page>>, nr: seq<nat>, prop: Blocks, f: set<Page>, order: nat)
    requires Decomposes(prop, f) && ListsOk(free, nr, prop) && order <= MAX_ORDER
    requires forall o :: order <= o <= MAX_ORDER ==> free[o] == []
    ensures !HasRun(f, order)
  {
    hide Aligned, Block, BuddyFree;
    if HasRun(f, order) {
      var q :| Aligned(q, order) && Block(q, order) <= f;
      var p := Largest(prop, f, q, order);
      ListNonEmpty(free, nr, prop, p);
      assert false;
    }
  }

  // A page outside the free set is no block, so its buddy has no free buddy.
  lemma NotListed(prop: Blocks, f: set<Page>, p: Page, k: nat)
    requires Decomposes(prop, f) && p !in f && Aligned(p, k + 1)
    ensures !BuddyFree(prop, p.(idx := p.idx + Pow2(k)), k)
  {
    hide Block;
    Halves(p, k);
    BuddyOk(p, k);
    if p in prop { FirstPage(p, prop[p]); }
  }

  lemma ListsLength(free: seq<seq<Page>>, nr: seq<nat>, prop: Blocks)
    requires ListsOk(free, nr, prop)
    ensures |free| == |nr| == MAX_ORDER + 1
  {
  }

  lemma BlockSize(p: Page, k: nat)
    ensures |Block(p, k)| == Pow2(k)
  {
    SpanSize(p, Pow2(k));
  }
}
