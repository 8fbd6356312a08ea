/**
  Powers of two and aligned blocks: what the buddy system relies on.
 */
module BuddyMath {

  const MAX_ORDER := 10

  // x >> k and b << k.
  function Shr(x: nat, k: nat): nat {
    if k == 0 then x else Shr(x, k - 1) / 2
  }

  function Shl(b: nat, k: nat): nat
    decreases k
  {
    if k == 0 then b else Shl(2 * b, k - 1)
  }

  function Pow2(k: nat): nat { Shl(1, k) }

  // A page, by its zone and its index in the zone.
  datatype Page = Page(zone: nat, idx: nat)

  // `n` consecutive pages, and the block of order `k` that starts at `p`.
  function Span(p: Page, n: nat): set<Page> {
    set i | p.idx <= i < p.idx + n :: Page(p.zone, i)
  }

  function Block(p: Page, k: nat): set<Page> { Span(p, Pow2(k)) }

  // The low `k` bits of the index are zero.
  predicate Aligned(p: Page, k: nat) { Shl(Shr(p.idx, k), k) == p.idx }

  // page_idx & (1 << order)
  predicate BitSet(p: Page, k: nat) { Shr(p.idx, k) % 2 == 1 }

  // page_idx ^ (1 << order)
  function Buddy(p: Page, k: nat): Page {
    if !BitSet(p, k) then p.(idx := p.idx + Pow2(k))
    else if p.idx >= Pow2(k) then p.(idx := p.idx - Pow2(k))
    else p
  }

  // page_idx & buddy_idx
  function Parent(p: Page, k: nat): Page {
    if BitSet(p, k) then Buddy(p, k) else p
  }

  // ------------------------------------------------------------ shifts

  lemma {:induction false} ShlAdd(a: nat, b: nat, k: nat)
    ensures Shl(a + b, k) == Shl(a, k) + Shl(b, k)
    decreases k
  {
    if k > 0 {
      assert 2 * (a + b) == 2 * a + 2 * b;
      ShlAdd(2 * a, 2 * b, k - 1);
    }
  }

  lemma {:induction false} ShlOuter(b: nat, k: nat)
    ensures Shl(b, k + 1) == 2 * Shl(b, k) && Pow2(k + 1) == 2 * Pow2(k)
  {
    ShlAdd(b, b, k);
    ShlAdd(1, 1, k);
  }

  lemma {:induction false} Pow2Pos(k: nat)
    ensures Pow2(k) > 0
  {
    if k > 0 { ShlOuter(1, k - 1); Pow2Pos(k - 1); }
  }

  // Being in the block number `b` of order `k` is having `b` as high bits.
  lemma {:induction false} InBlock(x: nat, b: nat, k: nat)
    ensures Shr(x, k) == b <==> Shl(b, k) <= x < Shl(b, k) + Pow2(k)
    decreases k
  {
    if k > 0 {
      InBlock(x, 2 * b, k - 1);
      InBlock(x, 2 * b + 1, k - 1);
      ShlAdd(2 * b, 1, k - 1);
      ShlOuter(1, k - 1);
    }
  }

  lemma ShrShl(b: nat, k: nat)
    ensures Shr(Shl(b, k), k) == b
  {
    Pow2Pos(k);
    InBlock(Shl(b, k), b, k);
  }

  lemma {:induction false} ShrShr(x: nat, y: nat, i: nat, j: nat)
    requires i <= j && Shr(x, i) == Shr(y, i)
    ensures Shr(x, j) == Shr(y, j)
    decreases j
  {
    if i < j { ShrShr(x, y, i, j - 1); }
  }

  // ------------------------------------------------------------ blocks

  lemma BlockBits(p: Page, k: nat, x: Page)
    requires Aligned(p, k)
    ensures x in Block(p, k) <==> x.zone == p.zone && Shr(x.idx, k) == Shr(p.idx, k)
  {
    InBlock(x.idx, Shr(p.idx, k), k);
    if x.zone == p.zone && p.idx <= x.idx < p.idx + Pow2(k) { assert x == Page(p.zone, x.idx); }
  }

  // Aligned blocks are nested or disjoint.
  lemma Nested(p: Page, i: nat, q: Page, j: nat, x: Page)
    requires i <= j && Aligned(p, i) && Aligned(q, j) && x in Block(p, i) && x in Block(q, j)
    ensures Block(p, i) <= Block(q, j)
  {
    BlockBits(p, i, x);
    BlockBits(q, j, x);
    forall y | y in Block(p, i) ensures y in Block(q, j) {
      BlockBits(p, i, y);
      ShrShr(x.idx, y.idx, i, j);
      BlockBits(q, j, y);
    }
  }

  // An aligned start has even and odd halves, and they are aligned.
  lemma Halves(p: Page, k: nat)
    requires Aligned(p, k + 1)
    ensures Aligned(p, k) && !BitSet(p, k)
    ensures var q := p.(idx := p.idx + Pow2(k)); Aligned(q, k) && BitSet(q, k)
    ensures Buddy(p, k) == p.(idx := p.idx + Pow2(k))
  {
    var b := Shr(p.idx, k + 1);
    ShrShl(2 * b, k);
    ShrShl(2 * b + 1, k);
    ShlAdd(2 * b, 1, k);
  }

  lemma {:induction false} AlignedDown(p: Page, i: nat, j: nat)
    requires i <= j && Aligned(p, j)
    ensures Aligned(p, i)
    decreases j
  {
    if i < j {
      Halves(p, j - 1);
      AlignedDown(p, i, j - 1);
    }
  }

  // The bit above the low zeros decides the next alignment.
  lemma AlignedUp(p: Page, k: nat)
    requires Aligned(p, k)
    ensures !BitSet(p, k) <==> Aligned(p, k + 1)
    ensures BitSet(p, k) ==> Aligned(p.(idx := p.idx + Pow2(k)), k + 1)
    ensures Aligned(p.(idx := p.idx + Pow2(k)), k)
  {
    var b := Shr(p.idx, k);
    ShlAdd(b, 1, k);
    ShrShl(b + 1, k);
    if !BitSet(p, k) {
      assert 2 * (b / 2) == b;
    } else {
      assert 2 * ((b + 1) / 2) == b + 1;
      ShlAdd(2 * (b / 2), 1, k);
      Pow2Pos(k);
    }
  }

  lemma SplitBlock(p: Page, k: nat)
    ensures Block(p, k + 1) == Block(p, k) + Block(p.(idx := p.idx + Pow2(k)), k)
    ensures Block(p, k) !! Block(p.(idx := p.idx + Pow2(k)), k)
  {
    ShlOuter(1, k);
  }

  // The buddy of an aligned block and the block they form.
  lemma BuddyOk(p: Page, k: nat)
    requires Aligned(p, k)
    ensures Aligned(Buddy(p, k), k) && Buddy(p, k) != p && Buddy(p, k).zone == p.zone
    ensures Aligned(Parent(p, k), k + 1) && Parent(p, k).zone == p.zone
    ensures Block(Parent(p, k), k + 1) == Block(p, k) + Block(Buddy(p, k), k)
    ensures Block(p, k) !! Block(Buddy(p, k), k)
    ensures Buddy(Buddy(p, k), k) == p
  {
    Pow2Pos(k);
    var b := Shr(p.idx, k);
    AlignedUp(p, k);
    if BitSet(p, k) {
      ShlAdd(b - 1, 1, k);
      ShrShl(b - 1, k);
      var q := Buddy(p, k);
      assert q.idx == Shl(b - 1, k);
      AlignedUp(q, k);
    } else {
      Halves(p, k);
    }
    SplitBlock(Parent(p, k), k);
  }

  // ------------------------------------------------------------ sizes

  lemma {:induction false} SpanSize(p: Page, n: nat)
    ensures |Span(p, n)| == n
  {
    if n == 0 {
      assert Span(p, 0) == {};
    } else {
      SpanSize(p, n - 1);
      assert Span(p, n) == Span(p, n - 1) + {Page(p.zone, p.idx + n - 1)};
    }
  }

  lemma {:induction false} Pow2Mono(i: nat, j: nat)
    requires i <= j
    ensures Pow2(i) <= Pow2(j)
    decreases j
  {
    if i < j { ShlOuter(1, j - 1); Pow2Mono(i, j - 1); }
  }

  lemma SpanSplit(p: Page, m: nat, n: nat)
    requires m <= n
    ensures Span(p, n) == Span(p, m) + Span(p.(idx := p.idx + m), n - m)
    ensures Span(p, m) !! Span(p.(idx := p.idx + m), n - m)
  {
  }
}
