/**
  The loops of the swap code: looking a slot up in the hash list, finding a
  swap entry, scanning the two page lists, and unmapping or copying a range.
 */
module SwapDaemon {
  import opened Sequences
  import opened VmState
  import opened VmPrims
  import opened VmOps

  // Pages per page table.
  const PT_PAGES := 1024

  class Swap {
    var s: State
    // The hash list, newest page first.
    var hash: seq<Frame>
    // Where try_alloc_swap_entry goes on; slots are 1 .. maxOffset - 1.
    var next: Slot
    const maxOffset: Slot
    // The page tables that exist, by address space and index of the table.
    var tables: set<Addr>

    ghost predicate Valid()
      reads this
    {
      && Inv(s, {})
      && NoDup(hash) && (forall f :: f in hash <==> f in s.index)
      && 1 < maxOffset && 1 <= next < maxOffset
      && (forall o :: o in s.memMap <==> 1 <= o < maxOffset)
      && (forall a :: a in s.pte ==> Addr(a.mm, a.va / PT_PAGES) in tables)
    }

    // The hash list names the cached pages, and no two share a slot.
    ghost predicate HashOk()
      reads this
    {
      && NoDup(hash) && (forall f :: f in hash <==> f in s.index)
      && (forall f, g :: f in s.index && g in s.index && s.index[f] == s.index[g] ==> f == g)
    }

    // swap_hash_find
    method HashFind(o: Slot) returns (r: Option<Frame>)
      requires HashOk()
      ensures r.Some? <==> o in s.index.Values
      ensures r.Some? ==> r.value == Owner(s.index, o)
    {
      var i := 0;
      while i < |hash|
        invariant 0 <= i <= |hash|
        invariant forall j :: 0 <= j < i ==> hash[j] in s.index && s.index[hash[j]] != o
      {
        assert hash[i] in s.index;
        if s.index[hash[i]] == o {
          return Some(hash[i]);
        }
        i := i + 1;
      }
      forall f | f in s.index ensures s.index[f] != o {
        assert f in hash;
      }
      return None;
    }

    // page_remove_pte
    method PageRemovePte(a: Addr)
      requires Valid()
      modifies this`s, this`hash
      ensures Valid() && WellFormed(old(s)) && s == RemovePte(old(s), a)
    {
      hide Inv, Memory, DropPresent, DropSwapped;
      RemovePteOk(s, {}, a);
      if a in s.pte && s.pte[a].Present? {
        DropFields(s, a);
        s := DropPresent(s, a);
      } else if a in s.pte {
        SwapRemoveEntry(a);
      }
    }

    // swap_remove_entry for the entry at `a`, which is cleared.
    method SwapRemoveEntry(a: Addr)
      requires Valid() && a in s.pte && s.pte[a].Swapped? && WellFormed(s)
      modifies this`s, this`hash
      ensures Valid() && s == DropSwapped(old(s), a)
    {
      hide Inv, Memory, Evict, Without;
      DropSwappedInv(s, a);
      Injective(s);
      ghost var s0 := s;
      var o := s.pte[a].o;
      s := s.(pte := s.pte - {a}, memMap := s.memMap[o := s.memMap[o] - 1]);
      if s.memMap[o] == 0 {
        var page := HashFind(o);
        if page.Some? {
          var f := page.value;
          if s.ref[f] == 0 {
            WithoutOk(hash, f);
            EvictFields(s, f);
            hash := Without(hash, f);
            s := Evict(s, f);
          }
        } else {
          s := s.(memMap := s.memMap[o := SWAP_UNUSED]);
          assert s.memMap == s0.memMap[o := SWAP_UNUSED];
        }
      }
    }

    // try_alloc_swap_entry
    method TryAllocSwapEntry() returns (o: Slot)
      requires Valid()
      modifies this
      ensures Valid() && tables == old(tables)
      ensures o == 0 <==> forall q :: q in old(s).memMap ==> old(s).memMap[q] != SWAP_UNUSED && old(s).memMap[q] != 0
      ensures o == 0 ==> s == old(s)
      ensures o != 0 ==> Grantable(old(s), o) && o in s.memMap && s.memMap[o] == SWAP_UNUSED
      ensures o != 0 && old(s).memMap[o] == SWAP_UNUSED ==> s == old(s)
      ensures o != 0 && old(s).memMap[o] != SWAP_UNUSED ==>
        o in old(s).index.Values && s == Evict(old(s), Owner(old(s).index, o))
    {
      hide Inv, Memory, Evict;
      var empty, zero;
      empty, zero := ScanMap();
      o := empty;
      if empty == 0 && zero != 0 {
        o := zero;
        StealOk(s, o);
        Injective(s);
        var page := HashFind(o);
        var f := page.value;
        WithoutHash(s, hash, f);
        EvictFields(s, f);
        hash := Without(hash, f);
        s := Evict(s, f);
      }
    }

    // The do-while loop of try_alloc_swap_entry.
    method ScanMap() returns (empty: Slot, zero: Slot)
      requires Valid()
      modifies this`next
      ensures Valid()
      ensures empty != 0 ==> empty in s.memMap && s.memMap[empty] == SWAP_UNUSED
      ensures zero != 0 ==> zero in s.memMap && s.memMap[zero] == 0
      ensures empty == 0 ==> forall q :: q in s.memMap ==> s.memMap[q] != SWAP_UNUSED
      ensures empty == 0 && zero == 0 ==> forall q :: q in s.memMap ==> s.memMap[q] != 0
    {
      hide Inv;
      empty, zero := 0, 0;
      var end := next;
      ghost var left := maxOffset - 1;
      ghost var wrapped := false;
      while true
        invariant 1 <= next < maxOffset && (forall o :: o in s.memMap <==> 1 <= o < maxOffset)
        invariant empty == 0 && (zero != 0 ==> zero in s.memMap && s.memMap[zero] == 0)
        invariant if wrapped then next < end && left == end - next
            else end <= next && left == maxOffset - 1 - next + end
        invariant forall q :: 1 <= q < maxOffset && (if wrapped then q < next || end <= q else end <= q < next) ==>
          s.memMap[q] != SWAP_UNUSED && (s.memMap[q] == 0 ==> zero != 0)
        decreases left
      {
        if s.memMap[next] == SWAP_UNUSED {
          empty := next;
        } else if s.memMap[next] == 0 && zero == 0 {
          zero := next;
        }
        left := left - 1;
        next := next + 1;
        if next == maxOffset {
          next := 1;
          wrapped := true;
        }
        if empty != 0 || next == end {
          break;
        }
      }
    }

    // unmap_range on page numbers; a missing page table is skipped at once.
    method UnmapRange(mm: nat, first: nat, end: nat)
      requires Valid() && first < end
      modifies this`s, this`hash
      ensures Valid()
      ensures Memory(s) == old(Memory(s)) - Range(mm, first, end)
      ensures s.pte == old(s).pte - Range(mm, first, end) && s.area == old(s).area
    {
      hide Inv, Memory, RemovePte, Range;
      var start := first;
      ghost var s0 := s;
      RangeEmpty(s0.pte, Memory(s0), mm, first);
      while true
        invariant first <= start && (start < end || start == first)
        invariant Valid() && Memory(s) == Memory(s0) - Range(mm, first, start)
        invariant s.pte == s0.pte - Range(mm, first, start) && s.area == s0.area
        decreases end - start
      {
        var a := Addr(mm, start);
        if Addr(mm, start / PT_PAGES) !in tables {
          ghost var from := start;
          start := (start + PT_PAGES) / PT_PAGES * PT_PAGES;
          MemoryKeys(s0, {});
          SkipTable(s0.pte, s0.pte, tables, mm, first, from, start, end);
          SkipTable(Memory(s0), s0.pte, tables, mm, first, from, start, end);
        } else {
          RemovePteOk(s, {}, a);
          PageRemovePte(a);
          RangeNext(s0.pte, Memory(s0), mm, first, start);
          start := start + 1;
        }
        if start >= end {
          break;
        }
      }
    }

    // One entry of copy_range.  The child may need a page table; `room` more
    // can be allocated.
    method CopyPte(a: Addr, to: Addr, room: nat) returns (ok: bool, left: nat)
      requires Valid() && Enabled(s, CopyPage(a, to))
      modifies this`s, this`tables
      ensures Valid() && WellFormed(old(s))
      ensures ok <==> a !in old(s).pte || Addr(to.mm, to.va / PT_PAGES) in old(tables) || room > 0
      ensures s == if ok then CopyEntry(old(s), a, to) else old(s)
      ensures tables == if ok && a in old(s).pte then old(tables) + {Addr(to.mm, to.va / PT_PAGES)} else old(tables)
      ensures left == if ok && a in old(s).pte && Addr(to.mm, to.va / PT_PAGES) !in old(tables) then room - 1 else room
    {
      hide Inv, Memory, CopyEntry;
      CopyEntryOk(s, a, to);
      CopyRest(s, a, to);
      MemoryKeys(s, {});
      MemoryKeys(CopyEntry(s, a, to), {});
      ok, left := true, room;
      if a in s.pte {
        if Addr(to.mm, to.va / PT_PAGES) !in tables {
          if room == 0 { return false, room; }
          tables, left := tables + {Addr(to.mm, to.va / PT_PAGES)}, room - 1;
        }
        s := CopyEntry(s, a, to);
      }
    }

    // copy_range of a private area, once the areas of the child are inserted.
    // Pages are copied in order up to `stop`; the copy stops short, with
    // -E_NO_MEM, at a page whose child page table cannot be allocated.
    method CopyRange(to: nat, mm: nat, first: nat, end: nat, room: nat) returns (ok: bool, stop: nat)
      requires Valid() && first < end && to != mm
      requires forall va :: first <= va < end ==> Addr(to, va) in s.area && Addr(to, va) !in s.pte
      modifies this`s, this`tables
      ensures Valid() && s.area == old(s).area && first <= stop <= end && (ok <==> stop == end)
      ensures CopiedTo(old(Memory(s)), Memory(s), to, mm, first, stop)
      ensures !ok ==> Addr(mm, stop) in s.pte && Addr(to, stop / PT_PAGES) !in tables
    {
      hide Inv, Memory, CopyEntry, CopiedTo, Enabled;
      var start, left := first, room;
      ghost var s0, m0 := s, Memory(s);
      MemoryKeys(s, {});
      CopyStart(m0, to, mm, first);
      while true
        invariant first <= start < end
        invariant Valid() && s.area == s0.area
        invariant CopiedTo(m0, Memory(s), to, mm, first, start)
        decreases end - start
      {
        var a, b := Addr(mm, start), Addr(to, start);
        MemoryKeys(s, {});
        if Addr(mm, start / PT_PAGES) !in tables {
          ghost var from := start;
          start := (start + PT_PAGES) / PT_PAGES * PT_PAGES;
          CopySkip(m0, Memory(s), s.pte, tables, to, mm, first, from, start, end);
        } else {
          CopyReady(m0, s, to, mm, first, start, end);
          CopyEntryOk(s, a, b);
          CopyNext(m0, Memory(s), Memory(CopyEntry(s, a, b)), to, mm, first, start);
          CopyRest(s, a, b);
          ok, left := CopyPte(a, b, left);
          if !ok { return false, start; }
          start := start + 1;
        }
        if start >= end { return true, end; }
      }
    }

    // refill_inactive_scan
    method RefillInactiveScan()
      requires Valid()
      modifies this`s
      ensures Valid() && Memory(s) == old(Memory(s)) && SameButLists(old(s), s)
      ensures forall f :: f in s.active <==> f in old(s).active && s.ref[f] != 0
    {
      hide Inv, Memory, Relist;
      ListedAll(s);
      var scan := s.active;
      var i := 0;
      ghost var s0 := s;
      while i < |scan|
        invariant 0 <= i <= |scan| && Inv(s, {}) && Memory(s) == Memory(s0) && SameButLists(s0, s)
        invariant NoDup(scan) && forall f :: f in scan ==> f in s.index && f in s.ref
        invariant forall f :: f in s.active <==> f in scan && (f in scan[i..] || s.ref[f] != 0)
      {
        var f := scan[i];
        if s.ref[f] == 0 {
          RelistOk(s, {}, f, false);
          ListsPlain(s);
          RelistFields(s, f, false);
          s := Relist(s, f, false);
        }
        assert scan[i..] == [f] + scan[i + 1..];
        i := i + 1;
      }
    }

    // page_launder; `failed` are the pages whose disk write fails.
    method PageLaunder(failed: set<Frame>) returns (count: nat)
      requires Valid()
      modifies this`s, this`hash
      ensures Valid() && Memory(s) == old(Memory(s)) && s.pte == old(s).pte && s.ref == old(s).ref
      ensures s.index.Keys <= old(s).index.Keys && old(s).free <= s.free && count == |s.free| - |old(s).free|
      ensures forall f :: f in old(s).inactive && s.ref[f] == 0 && f !in failed ==> f in s.free
    {
      hide Inv, Memory, LaunderPage, Without;
      ListedAll(s);
      var scan := s.inactive;
      var i := 0;
      count := 0;
      ghost var s0 := s;
      while i < |scan|
        invariant 0 <= i <= |scan| && Inv(s, {}) && Memory(s) == Memory(s0) && s.pte == s0.pte && s.ref == s0.ref
        invariant NoDup(hash) && (forall f :: f in hash <==> f in s.index)
        invariant s.memMap.Keys == s0.memMap.Keys
        invariant NoDup(scan) && forall j :: i <= j < |scan| ==> scan[j] in s.inactive
        invariant s.index.Keys <= s0.index.Keys && s0.free <= s.free && count == |s.free| - |s0.free|
        invariant forall j :: 0 <= j < i && scan[j] in s.ref && s.ref[scan[j]] == 0 && scan[j] !in failed ==>
          scan[j] in s.free
      {
        var f := scan[i];
        Listed(s, f);
        LaunderPageOk(s, f, f !in failed);
        LaunderFields(s, f, f !in failed);
        WithoutOk(hash, f);
        s := LaunderPage(s, f, f !in failed);
        if f !in s.index {
          hash := Without(hash, f);
          count := count + 1;
        }
        i := i + 1;
      }
      assert forall f :: f in scan ==> exists j :: 0 <= j < |scan| && scan[j] == f;
    }

    // After everything is unmapped: every slot unused, every frame free.
    method Drain()
      requires Valid() && s.pte == map[]
      modifies this`s, this`hash
      ensures Valid() && s.pte == map[]
      ensures s.free == s.ref.Keys && hash == []
      ensures forall o :: o in s.memMap ==> s.memMap[o] == SWAP_UNUSED
    {
      hide Inv, Memory;
      DrainFacts(s);
      ListedAll(s);
      RefillInactiveScan();
      ListedAll(s);
      ghost var s1 := s;
      var _ := PageLaunder({});
      DrainFacts(s);
      FreeNotCached(s);
      assert forall f :: f in s.index ==> f in s1.inactive && f in s.free;
      assert s.index.Keys == {};
      assert s.index == map[];
      Empty(hash);
    }
  }

  lemma ListedAll(s: State)
    requires Inv(s, {})
    ensures forall f :: f in s.index <==> f in s.active || f in s.inactive
    ensures s.index.Keys <= s.ref.Keys && NoDup(s.active) && NoDup(s.inactive)
  {
  }

  lemma Empty(q: seq<Frame>)
    ensures q != [] ==> exists f :: f in q
  {
    if q != [] { assert q[0] in q; }
  }

  lemma FreeNotCached(s: State)
    requires Inv(s, {})
    ensures forall f :: f in s.free ==> f !in s.index
  {
  }

  // The child's range mirrors the parent's; everything else is as before.
  ghost predicate CopiedTo(m: map<Addr, Data>, m': map<Addr, Data>, to: nat, mm: nat, first: nat, end: nat) {
    && (forall b: Addr :: b !in Range(to, first, end) ==> SameAt(m, b, m', b))
    && (forall va :: first <= va < end ==> SameAt(m, Addr(mm, va), m', Addr(to, va)))
  }

  ghost predicate SameAt(m: map<Addr, Data>, a: Addr, m': map<Addr, Data>, b: Addr) {
    (a in m <==> b in m') && (a in m ==> m'[b] == m[a])
  }

  lemma CopyNext(m: map<Addr, Data>, m1: map<Addr, Data>, m2: map<Addr, Data>, to: nat, mm: nat, first: nat, start: nat)
    requires CopiedTo(m, m1, to, mm, first, start) && to != mm && first <= start && Addr(to, start) !in m
    requires m2 == if Addr(mm, start) in m1 then m1[Addr(to, start) := m1[Addr(mm, start)]] else m1
    ensures CopiedTo(m, m2, to, mm, first, start + 1)
  {
    var a, t := Addr(mm, start), Addr(to, start);
    assert a !in Range(to, first, start) && t !in Range(to, first, start);
    assert SameAt(m, a, m1, a) && SameAt(m, t, m1, t);
    forall b: Addr | b !in Range(to, first, start + 1) ensures SameAt(m, b, m2, b) {
      assert t in Range(to, first, start + 1);
      assert b !in Range(to, first, start);
      assert SameAt(m, b, m1, b);
    }
    forall va | first <= va < start + 1 ensures SameAt(m, Addr(mm, va), m2, Addr(to, va)) {
      if va < start { assert SameAt(m, Addr(mm, va), m1, Addr(to, va)); }
    }
  }

  lemma CopySkip(m: map<Addr, Data>, m1: map<Addr, Data>, pte: map<Addr, Pte>, tables: set<Addr>,
                 to: nat, mm: nat, first: nat, from: nat, start: nat, end: nat)
    requires CopiedTo(m, m1, to, mm, first, from) && to != mm && first <= from
    requires m1.Keys == pte.Keys && forall a :: a in pte ==> Addr(a.mm, a.va / PT_PAGES) in tables
    requires Addr(mm, from / PT_PAGES) !in tables && start == (from + PT_PAGES) / PT_PAGES * PT_PAGES
    requires forall va :: first <= va < end ==> Addr(to, va) !in m
    ensures from < start
    ensures from <= end <= start ==> CopiedTo(m, m1, to, mm, first, end)
    ensures start <= end ==> CopiedTo(m, m1, to, mm, first, start)
  {
    forall va | from <= va < start ensures Addr(mm, va) !in m1 {
      assert va / PT_PAGES == from / PT_PAGES;
    }
    var stop := if end < start then end else start;
    if from <= stop {
      forall b: Addr | b !in Range(to, first, stop) ensures SameAt(m, b, m1, b) {
        assert b !in Range(to, first, from);
      }
      forall va | first <= va < stop ensures SameAt(m, Addr(mm, va), m1, Addr(to, va)) {
        if from <= va {
          assert Addr(mm, va) !in Range(to, first, from) && Addr(to, va) !in Range(to, first, from);
          assert SameAt(m, Addr(mm, va), m1, Addr(mm, va)) && SameAt(m, Addr(to, va), m1, Addr(to, va));
        }
      }
    }
  }

  lemma CopyRest(s: State, a: Addr, to: Addr)
    requires WellFormed(s)
    ensures var s' := CopyEntry(s, a, to); s'.area == s.area && s'.index == s.index && (a !in s.pte ==> s' == s)
    ensures var s' := CopyEntry(s, a, to);
      s'.memMap == if a in s.pte && s.pte[a].Swapped? then s.memMap[s.pte[a].o := s.memMap[s.pte[a].o] + 1]
          else s.memMap
  {
    if a in s.pte && s.pte[a].Present? {
      var s1 := if s.pte[a].w then SetFlags(s, a, false, s.pte[a].a, s.pte[a].d) else s;
      assert s1 == s.(pte := s1.pte);
    }
  }

  lemma CopyStart(m: map<Addr, Data>, to: nat, mm: nat, first: nat)
    ensures CopiedTo(m, m, to, mm, first, first)
  {
  }

  lemma CopyReady(m: map<Addr, Data>, s: State, to: nat, mm: nat, first: nat, start: nat, end: nat)
    requires Inv(s, {}) && CopiedTo(m, Memory(s), to, mm, first, start) && first <= start < end
    requires Addr(to, start) !in m && Addr(to, start) in s.area
    ensures Enabled(s, CopyPage(Addr(mm, start), Addr(to, start)))
  {
    hide Inv;
    MemoryKeys(s, {});
    assert Addr(to, start) !in Range(to, first, start);
    assert SameAt(m, Addr(to, start), Memory(s), Addr(to, start));
  }

  // The pages of one address space from `first` up to `end`.
  function Range(mm: nat, first: nat, end: nat): set<Addr> {
    set va | first <= va < end :: Addr(mm, va)
  }

  lemma RangeEmpty<T>(p: map<Addr, Pte>, m: map<Addr, T>, mm: nat, first: nat)
    ensures p - Range(mm, first, first) == p && m - Range(mm, first, first) == m
  {
  }

  lemma RangeNext<T>(p: map<Addr, Pte>, m: map<Addr, T>, mm: nat, first: nat, start: nat)
    requires first <= start
    ensures p - Range(mm, first, start) - {Addr(mm, start)} == p - Range(mm, first, start + 1)
    ensures m - Range(mm, first, start) - {Addr(mm, start)} == m - Range(mm, first, start + 1)
  {
    assert Range(mm, first, start + 1) == Range(mm, first, start) + {Addr(mm, start)};
  }

  // A page table that does not exist holds no entry, so its whole span may be
  // skipped, even beyond the end of the range.
  lemma SkipTable<T>(m: map<Addr, T>, pte: map<Addr, Pte>, tables: set<Addr>, mm: nat, first: nat, from: nat,
                     start: nat, end: nat)
    requires m.Keys == pte.Keys && forall a :: a in pte ==> Addr(a.mm, a.va / PT_PAGES) in tables
    requires Addr(mm, from / PT_PAGES) !in tables && start == (from + PT_PAGES) / PT_PAGES * PT_PAGES && first <= from
    ensures from < start
    ensures m - Range(mm, first, from) == m - Range(mm, first, start)
    ensures from < end <= start ==> m - Range(mm, first, from) == m - Range(mm, first, end)
  {
    forall va | from <= va < start ensures Addr(mm, va) !in m {
      assert va / PT_PAGES == from / PT_PAGES;
    }
    forall a | a in m ensures a in Range(mm, first, from) <==> a in Range(mm, first, start) {
    }
  }

  lemma DropSwappedInv(s: State, a: Addr)
    requires Inv(s, {}) && a in s.pte && s.pte[a].Swapped?
    ensures s.memMap[s.pte[a].o] > 0 && Inv(DropSwapped(s, a), {})
  {
    hide Inv, Memory, DropSwapped;
    DropSwappedOk(s, {}, a);
  }

  lemma DropFields(s: State, a: Addr)
    requires a in s.pte && s.pte[a].Present? && s.pte[a].f in s.ref && s.ref[s.pte[a].f] > 0
    ensures var s' := DropPresent(s, a); s'.index == s.index && s'.memMap == s.memMap && s'.pte == s.pte - {a}
  {
  }

  lemma Injective(s: State)
    requires Inv(s, {})
    ensures forall f, g :: f in s.index && g in s.index && s.index[f] == s.index[g] ==> f == g
    ensures s.index.Keys <= s.ref.Keys && forall f :: f in s.index ==> s.index[f] in s.memMap
  {
  }

  // Two states that differ in the page lists alone.
  ghost predicate SameButLists(s: State, s': State) {
    s' == s.(active := s'.active, inactive := s'.inactive, hot := s'.hot)
  }

  lemma ListsPlain(s: State)
    requires Inv(s, {})
    ensures NoDup(s.active) && NoDup(s.inactive)
  {
  }

  lemma RelistFields(s: State, f: Frame, toHot: bool)
    requires NoDup(s.active) && NoDup(s.inactive)
    ensures SameButLists(s, Relist(s, f, toHot))
    ensures forall g :: g in Relist(s, f, false).active <==> g in s.active && g != f
    ensures forall g :: g != f ==> (g in Relist(s, f, toHot).inactive <==> g in s.inactive)
  {
    WithoutOk(s.active, f);
    WithoutOk(s.inactive, f);
  }

  lemma LaunderFields(s: State, f: Frame, written: bool)
    requires Inv(s, {}) && f in s.index && f in s.ref && f in s.data && s.index[f] in s.memMap
    ensures var s' := LaunderPage(s, f, written);
      && s'.pte == s.pte && s'.ref == s.ref && s'.memMap.Keys == s.memMap.Keys
      && (forall g :: g != f ==> (g in s'.inactive <==> g in s.inactive))
      && s'.index == (if f in s'.index then s.index else s.index - {f})
      && s'.free == (if f in s'.index then s.free else s.free + {f}) && f !in s.free
      && (s.ref[f] == 0 && written ==> f !in s'.index)
  {
    hide Inv, Evict, Relist, WriteBack, NoDup;
    FreeNotCached(s);
    ListsPlain(s);
    WriteBackRest(s, f);
    RelistFields(s, f, true);
    RelistFields(s, f, false);
    EvictFields(s, f);
    WriteBackFields(s, f);
    EvictFields(WriteBack(s, f), f);
  }

  lemma EvictFields(s: State, f: Frame)
    requires f in s.index && s.index[f] in s.memMap && f in s.ref
    ensures var s' := Evict(s, f);
      && s'.pte == s.pte && s'.ref == s.ref && s'.memMap.Keys == s.memMap.Keys && s'.index == s.index - {f}
      && s'.free == (if s.ref[f] == 0 then s.free + {f} else s.free)
      && (forall g :: g != f ==> (g in s'.inactive <==> g in s.inactive))
  {
    OthersStay(s.inactive, f);
  }

  lemma WriteBackRest(s: State, f: Frame)
    requires f in s.index && f in s.data
    ensures var s' := WriteBack(s, f);
      s'.pte == s.pte && s'.free == s.free && s'.active == s.active && s'.inactive == s.inactive
  {
  }

  // Once no entry is left, one scan of each list empties the cache.
  lemma DrainFacts(s: State)
    requires Inv(s, {}) && s.pte == map[]
    ensures forall f :: f in s.ref ==> s.ref[f] == 0
    ensures forall o :: o in s.memMap ==> s.memMap[o] == 0 || s.memMap[o] == SWAP_UNUSED
    ensures s.index == map[] ==> s.free == s.ref.Keys && forall o :: o in s.memMap ==> s.memMap[o] == SWAP_UNUSED
  {
    hide ListsOk, ExclusiveOk, CleanOk, AreaOk;
    assert forall f :: Refs(s.pte, f) == {};
    assert forall o :: Holders(s.pte, o) == {};
  }

  // The hash list after an eviction.
  lemma WithoutHash(s: State, hash: seq<Frame>, f: Frame)
    requires NoDup(hash) && (forall g :: g in hash <==> g in s.index) && f in s.index && s.index[f] in s.memMap
    requires f in s.ref
    ensures NoDup(Without(hash, f)) && forall g :: g in Without(hash, f) <==> g in Evict(s, f).index
  {
    WithoutOk(hash, f);
  }
}
