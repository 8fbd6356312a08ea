/**
  The operations of the virtual memory core on one page: the page fault with
  the access it serves, fork's copy of an entry, unmapping, and the steps of
  the swap daemon.  Every operation keeps the reference counts and refines an
  operation on private memory.
 */
module VmOps {
  import opened Bytes
  import opened Sequences
  import opened VmState
  import opened VmPrims

  // What the kernel can do to a page.  Frames that alloc_page returns, slots
  // that try_alloc_swap_entry returns and the outcome of a disk write are
  // parameters; None is a failed allocation.
  datatype Action =
    | MapArea(a: Addr, perm: Perm)
    | UnmapPage(a: Addr)
    | UnmapArea(a: Addr)
    | Read(a: Addr, newp: Option<Frame>, inp: Option<Frame>)
    | Write(a: Addr, off: nat, x: byte, newp: Option<Frame>, inp: Option<Frame>)
    | CopyPage(a: Addr, to: Addr)
    | SwapOut(a: Addr, slot: Option<Slot>)
    | Launder(f: Frame, written: bool)
    | Refill(f: Frame)

  ghost predicate FreeFrame(s: State, p: Option<Frame>) { p.Some? ==> p.value in s.free }

  // try_alloc_swap_entry takes an unused slot if there is one, and otherwise
  // steals the slot of a cached page that no entry holds.
  ghost predicate Grantable(s: State, o: Slot) {
    o in s.memMap && (s.memMap[o] == SWAP_UNUSED || (s.memMap[o] == 0 && forall q :: q in s.memMap ==>
        s.memMap[q] != SWAP_UNUSED))
  }

  // The assertion of swap_duplicate.

  ghost predicate Enabled(s: State, t: Action) {
    match t
    case MapArea(a, _) => a !in s.area && a.mm < MAX_MM
    case UnmapPage(a) => true
    case UnmapArea(a) => a !in s.pte
    case Read(a, newp, inp) => a in s.area && FreeFrame(s, newp) && FreeFrame(s, inp) && (newp.Some? ==> newp != inp)
    case Write(a, off, _, newp, inp) =>
      a in s.area && off < PGSIZE && FreeFrame(s, newp) && FreeFrame(s, inp) && (newp.Some? ==> newp != inp)
    case CopyPage(a, to) => to in s.area && to !in s.pte && to.va == a.va
    case SwapOut(a, slot) => slot.Some? ==> Grantable(s, slot.value)
    case Launder(f, _) => f in s.inactive
    case Refill(f) => f in s.active
  }

  // ------------------------------------------------------------ swap entries

  // The swapped branch of page_remove_pte.
  ghost function DropSwapped(s: State, a: Addr): State
    requires a in s.pte && s.pte[a].Swapped? && s.pte[a].o in s.memMap && s.memMap[s.pte[a].o] > 0
    requires s.index.Keys <= s.ref.Keys
  {
    var s1, o := DecSlot(s, a), s.pte[a].o;
    if s1.memMap[o] == 0 && o in s.index.Values && s.ref[Owner(s.index, o)] == 0
    then Evict(s1, Owner(s.index, o))
    else s1
  }

  lemma DropSwappedOk(s: State, pin: set<Frame>, a: Addr)
    requires Inv(s, pin) && a in s.pte && s.pte[a].Swapped?
    ensures s.memMap[s.pte[a].o] > 0
    ensures Inv(DropSwapped(s, a), pin)
    ensures Memory(DropSwapped(s, a)) == Memory(s) - {a}
    ensures DropSwapped(s, a).pte == s.pte - {a} && DropSwapped(s, a).area == s.area
    ensures DropSwapped(s, a).data == s.data && DropSwapped(s, a).ref == s.ref
    ensures forall f :: f in pin && f in s.index ==>
      f in DropSwapped(s, a).index && DropSwapped(s, a).index[f] == s.index[f]
    ensures forall f :: f in DropSwapped(s, a).index ==> f in s.index
    ensures DropSwapped(s, a).memMap == s.memMap[s.pte[a].o := if LastOf(s, a) then SWAP_UNUSED
        else s.memMap[s.pte[a].o] - 1]
    ensures forall f :: f in s.index ==> (f !in DropSwapped(s, a).index <==> LastOf(s, a) && s.index[f] == s.pte[a].o)
    ensures DropSwapped(s, a).free == s.free + set f | f in s.index && f !in DropSwapped(s, a).index
  {
    hide Inv, Memory;
    DecSlotOk(s, pin, a);
    DropSwappedParts(s, pin, a);
    assert Shape(s, pin) && RefsOk(s.ref, s.pte, pin) by { InvParts(s, pin); }
    DecSlotOk(s, pin, a);
    var s1, o := DecSlot(s, a), s.pte[a].o;
    if s1.memMap[o] == 0 && o in s.index.Values && s.ref[Owner(s.index, o)] == 0 {
      EvictOk(s1, pin, Owner(s.index, o));
    }
  }

  // The entry is the last reference to its slot: no other entry holds it, and
  // the page that caches it, if any, is not mapped.
  ghost predicate LastOf(s: State, a: Addr)
    requires a in s.pte && s.pte[a].Swapped? && s.pte[a].o in s.memMap && s.index.Keys <= s.ref.Keys
  {
    s.memMap[s.pte[a].o] == 1 && (s.pte[a].o in s.index.Values ==> s.ref[Owner(s.index, s.pte[a].o)] == 0)
  }

  lemma DropSwappedParts(s: State, pin: set<Frame>, a: Addr)
    requires Inv(s, pin) && a in s.pte && s.pte[a].Swapped? && s.memMap[s.pte[a].o] > 0
    ensures var s' := DropSwapped(s, a); var o := s.pte[a].o;
      && s'.memMap == s.memMap[o := if LastOf(s, a) then SWAP_UNUSED else s.memMap[o] - 1]
      && s'.index == (if LastOf(s, a) && o in s.index.Values then s.index - {Owner(s.index, o)} else s.index)
      && s'.free == (if LastOf(s, a) && o in s.index.Values then s.free + {Owner(s.index, o)} else s.free)
    ensures forall f :: f in s.index && s.index[f] == s.pte[a].o ==> f == Owner(s.index, s.pte[a].o)
  {
    hide Memory, RefsOk, SlotsOk, ListsOk, FreeOk, ExclusiveOk, CleanOk, AreaOk;
  }

  lemma InvParts(s: State, pin: set<Frame>)
    requires Inv(s, pin)
    ensures Shape(s, pin) && RefsOk(s.ref, s.pte, pin)
    ensures ExclusiveOk(s.pte, s.index, s.memMap) && AreaOk(s.pte, s.area)
    ensures CacheOk(s.index, s.memMap) && SlotsOk(s.memMap, s.pte) && FreeOk(s.ref, s.index, s.free)
  {
  }

  ghost predicate WellFormed(s: State) {
    && s.index.Keys <= s.ref.Keys && s.data.Keys == s.ref.Keys && s.free <= s.ref.Keys && s.disk.Keys == s.memMap.Keys
    && (forall f :: f in s.index ==> s.index[f] in s.memMap)
    && (forall a :: a in s.pte && s.pte[a].Present? ==> s.pte[a].f in s.ref && s.ref[s.pte[a].f] > 0)
    && (forall a :: a in s.pte && s.pte[a].Swapped? ==> s.pte[a].o in s.memMap && s.memMap[s.pte[a].o] > 0)
  }

  lemma InvWellFormed(s: State, pin: set<Frame>)
    requires Inv(s, pin)
    ensures WellFormed(s)
  {
    hide CacheOk, ListsOk, FreeOk, ExclusiveOk, CleanOk, AreaOk, SlotsOk, RefsOk;
    forall a | a in s.pte
      ensures s.pte[a].Present? ==> s.ref[s.pte[a].f] > 0
      ensures s.pte[a].Swapped? ==> s.memMap[s.pte[a].o] > 0
    {
      if s.pte[a].Present? {
        RefsUnlink(s.ref, s.pte, pin, a);
      } else {
        SlotsDec(s.memMap, s.pte, a);
      }
    }
  }

  // page_remove_pte.
  ghost function RemovePte(s: State, a: Addr): State
    requires WellFormed(s)
  {
    if a !in s.pte then s
    else if s.pte[a].Present? then DropPresent(s, a)
    else DropSwapped(s, a)
  }

  lemma RemovePteOk(s: State, pin: set<Frame>, a: Addr)
    requires Inv(s, pin)
    ensures WellFormed(s)
    ensures Inv(RemovePte(s, a), pin)
    ensures Memory(RemovePte(s, a)) == Memory(s) - {a}
    ensures RemovePte(s, a).pte == s.pte - {a} && RemovePte(s, a).area == s.area && RemovePte(s, a).data == s.data
    ensures forall f :: f in RemovePte(s, a).index ==> f in s.index
  {
    hide Inv, Memory, DropSwapped;
    InvWellFormed(s, pin);
    if a !in s.pte {
      assert a !in Memory(s) by { MemoryKeys(s, pin); }
    } else if s.pte[a].Present? {
      DropPresentOk(s, pin, a);
    } else {
      DropSwappedOk(s, pin, a);
    }
  }

  // ------------------------------------------------------------ page faults

  // page_insert of a frame just allocated and filled with `v`.
  ghost function InsertNew(s: State, a: Addr, n: Frame, v: Data, w: bool): State
    requires WellFormed(s) && n in s.free && WellFormed(PinNew(s, n, v))
  {
    LinkPinned(RemovePte(PinNew(s, n, v), a), a, n, w)
  }

  lemma InsertNewOk(s: State, a: Addr, n: Frame, v: Data, w: bool)
    requires Inv(s, {}) && n in s.free && a in s.area && (w ==> s.area[a].write)
    ensures WellFormed(s) && WellFormed(PinNew(s, n, v))
    ensures var s' := InsertNew(s, a, n, v, w);
      && Inv(s', {}) && Memory(s') == Memory(s)[a := v]
      && s'.area == s.area && a in s'.pte && s'.pte[a] == Present(n, w, false, false) && Sole(s', a)
  {
    hide Inv, Memory, RemovePte, WellFormed;
    PinNewOk(s, {}, n, v);
    InvWellFormed(s, {});
    var s1 := PinNew(s, n, v);
    InvWellFormed(s1, {} + {n});
    RemovePteOk(s1, {} + {n}, a);
    var s2 := RemovePte(s1, a);
    RefsShrink(s1.pte, a, n);
    FrameNone(s2.pte, s2.index, n, a.va);
    LinkPinnedOk(s2, {} + {n}, a, n, w);
    var s3 := LinkPinned(s2, a, n, w);
    PutEntry(s2.pte, s3.pte, a, s3.pte[a]);
    assert {} + {n} - {n} == {};
    assert (Memory(s) - {a})[a := v] == Memory(s)[a := v];
  }

  // A first access: the frame is mapped as it is.
  lemma InsertFirst(s: State, a: Addr, n: Frame, v: Data, w: bool)
    requires WellFormed(s) && n in s.free && WellFormed(PinNew(s, n, v)) && a !in s.pte
    ensures InsertNew(s, a, n, v, w) ==
      s.(free := s.free - {n}, ref := s.ref[n := 1], data := s.data[n := v], pte := s.pte[a := Present(n, w, false, false)])
  {
    hide WellFormed;
  }

  lemma RefsShrink(pte: map<Addr, Pte>, a: Addr, f: Frame)
    ensures Refs(pte - {a}, f) == Refs(pte, f) - {a}
  {
  }

  // page_insert of a page found in, or brought into, the swap cache.
  ghost function InsertCached(s: State, a: Addr, f: Frame, w: bool): State
    requires WellFormed(s) && f in s.ref && WellFormed(Pin(s, f))
  {
    LinkPinned(RemovePte(Pin(s, f), a), a, f, w)
  }

  lemma InsertCachedOk(s: State, a: Addr, f: Frame, w: bool)
    requires Inv(s, {}) && a in s.pte && s.pte[a].Swapped? && f in s.index && s.index[f] == s.pte[a].o && a in s.area
    requires w ==> s.area[a].write && s.ref[f] == 0 && s.memMap[s.pte[a].o] == 1
    ensures WellFormed(s) && WellFormed(Pin(s, f))
    ensures var s' := InsertCached(s, a, f, w);
      && Inv(s', {}) && Memory(s') == Memory(s)
      && s'.area == s.area && a in s'.pte && s'.pte[a] == Present(f, w, false, false) && (w ==> Sole(s', a))
  {
    hide Inv, Memory, WellFormed, DropSwapped;
    var o := s.pte[a].o;
    CachedFacts(s, a, f);
    PinOk(s, {}, f);
    var s1 := Pin(s, f);
    InvWellFormed(s, {});
    InvWellFormed(s1, {} + {f});
    DropSwappedOk(s1, {} + {f}, a);
    DropCount(s1, {} + {f}, a, f);
    var s2 := RemovePte(s1, a);
    RefsShrink(s1.pte, a, f);
    SlotFrame(s, a, f, s2);
    LinkPinnedOk(s2, {} + {f}, a, f, w);
    var s3 := LinkPinned(s2, a, f, w);
    PutEntry(s2.pte, s3.pte, a, s3.pte[a]);
    assert {} + {f} - {f} == {};
    assert (Memory(s) - {a})[a := s.data[f]] == Memory(s);
  }

  lemma FrameNone(pte: map<Addr, Pte>, index: map<Frame, Slot>, f: Frame, va: nat)
    requires Refs(pte, f) == {} && f !in index
    ensures FrameAt(pte, index, f, va)
  {
    forall b | b in pte ensures b in Refs(pte, f) <==> pte[b].Present? && pte[b].f == f {}
  }

  // The entries for a page are at one address, also when one of them is cleared.
  lemma SlotFrame(s: State, a: Addr, f: Frame, t: State)
    requires Inv(s, {}) && a in s.pte && s.pte[a].Swapped? && f in s.index && s.index[f] == s.pte[a].o
    requires t.pte == s.pte - {a} && f in t.index && t.index[f] == s.index[f]
    ensures FrameAt(t.pte, t.index, f, a.va)
  {
    hide RefsOk, SlotsOk, CacheOk, ListsOk, FreeOk, ExclusiveOk, CleanOk, AreaOk;
    assert SlotAt(s.pte, s.index, s.pte[a].o, a.va);
  }

  lemma FrameSlot(s: State, a: Addr, t: State)
    requires Inv(s, {}) && a in s.pte && s.pte[a].Present? && s.pte[a].f in s.index && t.pte == s.pte - {a}
    requires t.index == s.index
    ensures SlotAt(t.pte, t.index, s.index[s.pte[a].f], a.va)
  {
    hide RefsOk, SlotsOk, ListsOk, FreeOk, ExclusiveOk, CleanOk, AreaOk;
    assert FrameAt(s.pte, s.index, s.pte[a].f, a.va);
  }

  lemma FrameIs(s: State, a: Addr)
    requires Inv(s, {}) && a in s.pte && s.pte[a].Present?
    ensures FrameAt(s.pte, s.index, s.pte[a].f, a.va)
  {
    hide RefsOk, SlotsOk, CacheOk, ListsOk, FreeOk, ExclusiveOk, CleanOk, AreaOk;
  }

  // A cached page whose slot is held by some entry is not mapped writable.
  lemma CachedFacts(s: State, a: Addr, f: Frame)
    requires Inv(s, {}) && a in s.pte && s.pte[a].Swapped? && f in s.index && s.index[f] == s.pte[a].o
    ensures f in s.ref && f in s.data && f !in s.free && s.memMap[s.pte[a].o] > 0 && s.index.Keys <= s.ref.Keys
    ensures forall b :: b in Refs(s.pte, f) ==> !s.pte[b].w
    ensures s.ref[f] == 0 ==> Refs(s.pte, f) == {}
    ensures a in Memory(s) && Memory(s)[a] == s.data[f]
  {
    hide ListsOk, CleanOk, AreaOk;
    SlotsDec(s.memMap, s.pte, a);
    OwnerIs(s.index, s.memMap, f);
  }

  // Dropping an entry of a pinned page's slot leaves the page in the cache.
  lemma DropCount(s: State, pin: set<Frame>, a: Addr, f: Frame)
    requires Inv(s, pin) && f in pin && a in s.pte && s.pte[a].Swapped? && f in s.index && s.index[f] == s.pte[a].o
    requires s.memMap[s.pte[a].o] > 0 && s.index.Keys <= s.ref.Keys
    ensures var s' := DropSwapped(s, a); f in s'.index && s'.memMap[s.index[f]] == s.memMap[s.index[f]] - 1
  {
    hide ListsOk, CleanOk, AreaOk, SlotsOk, FreeOk, ExclusiveOk;
    OwnerIs(s.index, s.memMap, f);
  }

  // swap_in_page.
  ghost function SwapIn(s: State, o: Slot, inp: Option<Frame>): (State, bool)
    requires o in s.disk && FreeFrame(s, inp)
  {
    if o in s.index.Values then (s, true)
    else if inp.None? then (s, false)
    else (CacheNew(s, inp.value, o), true)
  }

  lemma SwapInOk(s: State, a: Addr, inp: Option<Frame>)
    requires Inv(s, {}) && a in s.pte && s.pte[a].Swapped? && FreeFrame(s, inp)
    ensures s.pte[a].o in s.disk
    ensures var (s', ok) := SwapIn(s, s.pte[a].o, inp);
      && Inv(s', {}) && Memory(s') == Memory(s) && s'.pte == s.pte && s'.area == s.area
      && (ok ==> s.pte[a].o in s'.index.Values)
      && s.free - (if inp.Some? then {inp.value} else {}) <= s'.free
  {
    hide Memory;
    var o := s.pte[a].o;
    SlotsDec(s.memMap, s.pte, a);
    hide SlotsOk, RefsOk, CacheOk, ListsOk, FreeOk, ExclusiveOk, CleanOk, AreaOk;
    if o !in s.index.Values && inp.Some? {
      CacheNewOk(s, {}, inp.value, o);
      assert s.index[inp.value := o][inp.value] == o;
    }
  }

  // do_pgfault for a store to `a`; the flag tells whether the entry is now
  // writable.  A page shared with another entry is copied to `newp`.
  ghost function FaultWrite(s: State, a: Addr, newp: Option<Frame>, inp: Option<Frame>): (State, bool)
    requires Inv(s, {}) && a in s.area && s.area[a].write && FreeFrame(s, newp) && FreeFrame(s, inp)
    requires (newp.Some? ==> newp != inp)
  {
    InvWellFormed(s, {});
    if a !in s.pte then
      (if newp.None? then (s, false) else FreshPage(s, a, newp.value, true))
    else if s.pte[a].Present? then
      (if s.pte[a].w || Count(s, s.pte[a].f) <= 1 then (s, true)
       else if newp.None? then (s, false)
       else CopyOf(s, a, s.pte[a].f, newp.value))
    else
      SwapInOk(s, a, inp);
      var (s1, ok) := SwapIn(s, s.pte[a].o, inp);
      if !ok then (s1, false)
      else
        InvWellFormed(s1, {});
        var f := Owner(s1.index, s.pte[a].o);
        if Count(s1, f) > 1 then
          (if newp.None? then (s1, false) else CopyOf(s1, a, f, newp.value))
        else
          MapCached(s1, a, f, true)
  }

  // page_ref(page) + swap_page_count(page).
  function Count(s: State, f: Frame): nat
    requires f in s.ref && (f in s.index ==> s.index[f] in s.memMap)
  {
    s.ref[f] + if f in s.index then s.memMap[s.index[f]] else 0
  }

  ghost function FreshPage(s: State, a: Addr, n: Frame, w: bool): (State, bool)
    requires Inv(s, {}) && n in s.free && a in s.area && (w ==> s.area[a].write)
  {
    InvWellFormed(s, {});
    InsertNewOk(s, a, n, s.data[n], w);
    (InsertNew(s, a, n, s.data[n], w), true)
  }

  ghost function CopyOf(s: State, a: Addr, f: Frame, n: Frame): (State, bool)
    requires Inv(s, {}) && n in s.free && a in s.area && s.area[a].write && f in s.data
  {
    InsertNewOk(s, a, n, s.data[f], true);
    (InsertNew(s, a, n, s.data[f], true), true)
  }

  ghost function MapCached(s: State, a: Addr, f: Frame, w: bool): (State, bool)
    requires Inv(s, {}) && a in s.pte && s.pte[a].Swapped? && f in s.index && s.index[f] == s.pte[a].o && a in s.area
    requires w ==> s.area[a].write && f in s.ref && s.index[f] in s.memMap && Count(s, f) <= 1
  {
    if w then (SoleCount(s, a, f); InsertCachedOk(s, a, f, w); (InsertCached(s, a, f, w), true))
    else (InsertCachedOk(s, a, f, w); (InsertCached(s, a, f, w), true))
  }

  lemma SoleCount(s: State, a: Addr, f: Frame)
    requires Inv(s, {}) && a in s.pte && s.pte[a].Swapped? && f in s.index && s.index[f] == s.pte[a].o
    requires f in s.ref && s.index[f] in s.memMap && Count(s, f) <= 1
    ensures s.ref[f] == 0 && s.memMap[s.pte[a].o] == 1
  {
    CachedFacts(s, a, f);
  }

  lemma FaultWriteOk(s: State, a: Addr, newp: Option<Frame>, inp: Option<Frame>)
    requires Inv(s, {}) && a in s.area && s.area[a].write && FreeFrame(s, newp) && FreeFrame(s, inp)
    requires (newp.Some? ==> newp != inp)
    ensures var (s', ok) := FaultWrite(s, a, newp, inp);
      && Inv(s', {}) && s'.area == s.area
      && (ok ==> a in s'.pte && s'.pte[a].Present? && Sole(s', a))
      && (a in s.pte || !ok ==> Memory(s') == Memory(s))
      && (a !in s.pte && ok ==> newp.Some? && newp.value in s.data && Memory(s') == Memory(s)[a := s.data[newp.value]])
      && (newp.Some? && inp.Some? ==> ok)
  {
    hide Inv, Memory, InsertNew, InsertCached, Sole, WellFormed, SwapIn, Count, Owner;
    if a !in s.pte {
      if newp.Some? {
        InvWellFormed(s, {});
        FreeIn(s, newp.value);
        InsertNewOk(s, a, newp.value, s.data[newp.value], true);
      }
    } else if s.pte[a].Present? {
      FrameIn(s, a);
      if s.pte[a].w || Count(s, s.pte[a].f) <= 1 {
        SoleFrame(s, a);
      } else if newp.Some? {
        InvWellFormed(s, {});
        InsertNewOk(s, a, newp.value, s.data[s.pte[a].f], true);
        MemoryAt(s, a);
        SameBack(Memory(s), a);
      }
    } else {
      SwapInOk(s, a, inp);
      var (s1, ok) := SwapIn(s, s.pte[a].o, inp);
      SwapInSome(s, s.pte[a].o, inp);
      if ok {
        InvWellFormed(s1, {});
        var f := Owner(s1.index, s.pte[a].o);
        FrameOf(s1, f);
        if Count(s1, f) > 1 {
          if newp.Some? {
            InsertNewOk(s1, a, newp.value, s1.data[f], true);
            CachedFacts(s1, a, f);
            SameBack(Memory(s1), a);
          }
        } else {
          SoleCount(s1, a, f);
          InsertCachedOk(s1, a, f, true);
        }
      }
    }
  }

  lemma SameBack(m: map<Addr, Data>, a: Addr)
    requires a in m
    ensures m[a := m[a]] == m
  {
  }

  // page_ref(page) + swap_page_count(page) of the page behind an entry, in
  // memory or in swap.
  ghost function Total(s: State, a: Addr): nat
    requires Inv(s, {}) && a in s.pte
  {
    match s.pte[a]
    case Present(f, _, _, _) => FrameIn(s, a); Count(s, f)
    case Swapped(o) => SlotTotal(s, o)
  }

  ghost function SlotTotal(s: State, o: Slot): nat
    requires s.index.Keys <= s.ref.Keys && o in s.memMap
  {
    s.memMap[o] + if o in s.index.Values then s.ref[Owner(s.index, o)] else 0
  }

  // A page that was there is copied to the new frame exactly if something
  // else refers to it; otherwise it is mapped where it is.
  lemma CopiedWhenShared(s: State, a: Addr, newp: Option<Frame>, inp: Option<Frame>)
    requires Inv(s, {}) && a in s.area && s.area[a].write && FreeFrame(s, newp) && FreeFrame(s, inp)
    requires (newp.Some? ==> newp != inp)
    requires a in s.pte && FaultWrite(s, a, newp, inp).1
    ensures var s' := FaultWrite(s, a, newp, inp).0;
      a in s'.pte && s'.pte[a].Present? && (newp == Some(s'.pte[a].f) <==> Total(s, a) > 1)
  {
    hide Inv, Memory, InsertNew, InsertCached, Sole, WellFormed, Owner;
    FaultWriteOk(s, a, newp, inp);
    if s.pte[a].Present? {
      FrameIn(s, a);
      Mapped(s, a);
      if s.pte[a].w || Count(s, s.pte[a].f) <= 1 {
        SoleOne(s, a);
      } else {
        InsertNewOk(s, a, newp.value, s.data[s.pte[a].f], true);
      }
    } else {
      SwapInOk(s, a, inp);
      var s1 := SwapIn(s, s.pte[a].o, inp).0;
      var f := Owner(s1.index, s.pte[a].o);
      SwapInTotal(s, a, inp);
      if Count(s1, f) > 1 {
        InsertNewOk(s1, a, newp.value, s1.data[f], true);
      } else {
        SoleCount(s1, a, f);
        InsertCachedOk(s1, a, f, true);
      }
    }
  }

  // The sole reference to a page counts one.
  lemma SoleOne(s: State, a: Addr)
    requires Inv(s, {}) && a in s.pte && s.pte[a].Present? && s.pte[a].f in s.ref
    requires s.pte[a].f in s.index ==> s.index[s.pte[a].f] in s.memMap
    requires s.pte[a].w || Count(s, s.pte[a].f) <= 1
    ensures Count(s, s.pte[a].f) <= 1
  {
    hide ListsOk, CleanOk, AreaOk, SlotsOk, FreeOk, CacheOk;
  }

  // Bringing a page in does not change the total count of its slot.
  lemma SwapInTotal(s: State, a: Addr, inp: Option<Frame>)
    requires Inv(s, {}) && a in s.pte && s.pte[a].Swapped? && FreeFrame(s, inp) && s.pte[a].o in s.disk
    requires SwapIn(s, s.pte[a].o, inp).1
    ensures var s1 := SwapIn(s, s.pte[a].o, inp).0; s.pte[a].o in s1.index.Values
    ensures var s1 := SwapIn(s, s.pte[a].o, inp).0; var f := Owner(s1.index, s.pte[a].o);
      f in s1.ref && f in s1.data && s1.index[f] in s1.memMap && Total(s, a) == Count(s1, f)
          && (f !in s.free || inp == Some(f))
  {
    hide RefsOk, SlotsOk, ListsOk, ExclusiveOk, CleanOk, AreaOk, Memory;
    var o := s.pte[a].o;
    if o !in s.index.Values {
      Encache(s.index, s.index[inp.value := o], s.memMap, inp.value, o) by { UnusedIn(s, inp.value); }
      UnusedIn(s, inp.value);
    } else {
      FrameOf(s, Owner(s.index, o));
    }
  }

  lemma UnusedIn(s: State, f: Frame)
    requires Inv(s, {}) && f in s.free
    ensures f in s.ref && s.ref[f] == 0 && f !in s.index
  {
  }

  lemma FreeIn(s: State, f: Frame)
    requires Inv(s, {}) && f in s.free
    ensures f in s.data
  {
  }

  lemma FrameIn(s: State, a: Addr)
    requires Inv(s, {}) && a in s.pte && s.pte[a].Present?
    ensures s.pte[a].f in s.data && s.pte[a].f in s.ref
    ensures s.pte[a].f in s.index ==> s.index[s.pte[a].f] in s.memMap
  {
  }

  lemma FrameOf(s: State, f: Frame)
    requires Inv(s, {}) && f in s.index
    ensures f in s.data && f in s.ref && s.index[f] in s.memMap
  {
  }

  lemma SwapInSome(s: State, o: Slot, inp: Option<Frame>)
    requires o in s.disk && FreeFrame(s, inp)
    ensures inp.Some? ==> SwapIn(s, o, inp).1
  {
  }

  // A writable entry, or an entry whose page has a total count of one, is the
  // sole reference to its page.
  lemma SoleFrame(s: State, a: Addr)
    requires Inv(s, {}) && a in s.pte && s.pte[a].Present?
    requires s.pte[a].f in s.ref && (s.pte[a].f in s.index ==> s.index[s.pte[a].f] in s.memMap)
    requires s.pte[a].w || Count(s, s.pte[a].f) <= 1
    ensures Sole(s, a)
  {
    hide ListsOk, CleanOk, AreaOk, SlotsOk, FreeOk, CacheOk;
    assert a in Refs(s.pte, s.pte[a].f);
    if !s.pte[a].w {
      var r := Refs(s.pte, s.pte[a].f);
      assert |r| == 1;
      assert |r - {a}| == 0;
      assert r == {a} + (r - {a});
    }
  }

  // do_pgfault for a load from `a`: a page brought in from swap is mapped
  // read-only, whatever its count.
  ghost function FaultRead(s: State, a: Addr, newp: Option<Frame>, inp: Option<Frame>): (State, bool)
    requires Inv(s, {}) && a in s.area && FreeFrame(s, newp) && FreeFrame(s, inp)
  {
    InvWellFormed(s, {});
    if a !in s.pte then
      (if newp.None? then (s, false) else FreshPage(s, a, newp.value, s.area[a].write))
    else if s.pte[a].Present? then
      (s, true)
    else
      SwapInOk(s, a, inp);
      var (s1, ok) := SwapIn(s, s.pte[a].o, inp);
      if !ok then (s1, false) else MapCached(s1, a, Owner(s1.index, s.pte[a].o), false)
  }

  lemma FaultReadOk(s: State, a: Addr, newp: Option<Frame>, inp: Option<Frame>)
    requires Inv(s, {}) && a in s.area && FreeFrame(s, newp) && FreeFrame(s, inp)
    ensures var (s', ok) := FaultRead(s, a, newp, inp);
      && Inv(s', {}) && s'.area == s.area
      && (ok ==> a in s'.pte && s'.pte[a].Present?)
      && (a in s.pte || !ok ==> Memory(s') == Memory(s))
      && (a !in s.pte && ok ==> newp.Some? && newp.value in s.data && Memory(s') == Memory(s)[a := s.data[newp.value]])
      && (newp.Some? && inp.Some? ==> ok)
  {
    hide Inv, Memory, InsertNew, InsertCached, Sole, WellFormed, SwapIn, Count, Owner;
    if a !in s.pte {
      if newp.Some? {
        InvWellFormed(s, {});
        FreeIn(s, newp.value);
        InsertNewOk(s, a, newp.value, s.data[newp.value], s.area[a].write);
      }
    } else if s.pte[a].Swapped? {
      SwapInOk(s, a, inp);
      var (s1, ok) := SwapIn(s, s.pte[a].o, inp);
      SwapInSome(s, s.pte[a].o, inp);
      if ok {
        InsertCachedOk(s1, a, Owner(s1.index, s.pte[a].o), false);
      }
    }
  }

  // ------------------------------------------------------------ swap daemon

  // The part of swap_out_vma that gives an uncached page a slot.
  ghost function GiveSlot(s: State, f: Frame, o: Slot): State
    requires Inv(s, {}) && Grantable(s, o)
  {
    if s.memMap[o] == SWAP_UNUSED then CachePage(s, f, o)
    else
      StealOk(s, o);
      CachePage(Evict(s, Owner(s.index, o)), f, o)
  }

  // A slot with count zero has a cached page to evict.
  lemma StealOk(s: State, o: Slot)
    requires Inv(s, {}) && Grantable(s, o) && s.memMap[o] != SWAP_UNUSED
    ensures o in s.index.Values
    ensures var f := Owner(s.index, o); f in s.ref && s.index[f] in s.memMap
    ensures var s' := Evict(s, Owner(s.index, o)); Inv(s', {}) && Memory(s') == Memory(s)
    ensures var s' := Evict(s, Owner(s.index, o));
      s'.pte == s.pte && s'.area == s.area && s'.ref == s.ref && s'.memMap == s.memMap[o := SWAP_UNUSED]
          && s'.index.Keys <= s.index.Keys
  {
    hide SlotsOk, RefsOk, ListsOk, FreeOk, ExclusiveOk, CleanOk, AreaOk, Memory;
    EvictOk(s, {}, Owner(s.index, o));
  }

  lemma GiveSlotOk(s: State, a: Addr, o: Slot)
    requires Inv(s, {}) && Grantable(s, o) && a in s.pte && s.pte[a].Present? && s.pte[a].f !in s.index
    ensures var s', f := GiveSlot(s, s.pte[a].f, o), s.pte[a].f;
      && Inv(s', {}) && Memory(s') == Memory(s) && s'.pte == s.pte && s'.area == s.area
      && f in s'.index && s'.index[f] == o && o in s'.memMap && s'.memMap[o] == 0
  {
    hide Inv, Memory, Evict;
    Mapped(s, a);
    if s.memMap[o] == SWAP_UNUSED {
      CachePageOk(s, {}, s.pte[a].f, o);
    } else {
      StealOk(s, o);
      var s1 := Evict(s, Owner(s.index, o));
      Mapped(s1, a);
      CachePageOk(s1, {}, s.pte[a].f, o);
    }
  }

  lemma Mapped(s: State, a: Addr)
    requires Inv(s, {}) && a in s.pte && s.pte[a].Present?
    ensures s.pte[a].f in s.ref && s.pte[a].f !in s.free
  {
    hide SlotsOk, RefsOk, ListsOk, CacheOk, ExclusiveOk, CleanOk, AreaOk;
    RefsUnlink(s.ref, s.pte, {}, a);
  }

  // The end of swap_out_vma's round: the entry of a cached page becomes its slot.
  ghost function ToSlot(s: State, a: Addr): State
    requires Inv(s, {}) && a in s.pte && s.pte[a].Present? && s.pte[a].f in s.index
  {
    InvWellFormed(s, {});
    AddSwapped(DropPresent(s, a), a, s.index[s.pte[a].f])
  }

  lemma ToSlotOk(s: State, a: Addr)
    requires Inv(s, {}) && a in s.pte && s.pte[a].Present? && s.pte[a].f in s.index
    ensures Inv(ToSlot(s, a), {}) && Memory(ToSlot(s, a)) == Memory(s)
  {
    hide Inv, Memory, CacheOk;
    var f, o := s.pte[a].f, s.index[s.pte[a].f];
    InvParts(s, {});
    DropPresentOk(s, {}, a);
    var s1 := DropPresent(s, a);
    LastWriter(s, a);
    FrameSlot(s, a, s1);
    AddSwappedOk(s1, {}, a, o);
    OwnerIs(s.index, s.memMap, f);
    assert SlotData(s1, o) == s.data[f];
    MemoryAt(s, a);
    PutBack(Memory(s), a);
  }

  lemma PutBack(m: map<Addr, Data>, a: Addr)
    requires a in m
    ensures (m - {a})[a := m[a]] == m
  {
  }

  // Besides the entry `a`, no writable entry maps the page of `a`.
  lemma LastWriter(s: State, a: Addr)
    requires Inv(s, {}) && a in s.pte && s.pte[a].Present? && s.pte[a].f in s.index
    ensures forall b :: b in s.pte - {a} && s.pte[b].Present? && s.pte[b].w && s.pte[b].f in s.index ==>
      s.index[s.pte[b].f] != s.index[s.pte[a].f]
  {
    hide ListsOk, CleanOk, AreaOk, SlotsOk, FreeOk, RefsOk;
    assert a in Refs(s.pte, s.pte[a].f);
  }

  lemma MemoryAt(s: State, a: Addr)
    requires Inv(s, {}) && a in s.pte && s.pte[a].Present?
    ensures s.pte[a].f in s.data && a in Memory(s) && Memory(s)[a] == s.data[s.pte[a].f]
  {
  }

  // One round of swap_out_vma.
  ghost function SwapOutPage(s: State, a: Addr, slot: Option<Slot>): State
    requires Inv(s, {}) && Enabled(s, SwapOut(a, slot))
  {
    if a !in s.pte || s.pte[a].Swapped? then s
    else if s.pte[a].a then SetFlags(s, a, s.pte[a].w, false, s.pte[a].d)
    else if s.pte[a].f in s.index then ToSlot(s, a)
    else if slot.None? then s
    else
      GiveSlotOk(s, a, slot.value);
      ToSlot(GiveSlot(s, s.pte[a].f, slot.value), a)
  }

  lemma SwapOutPageOk(s: State, a: Addr, slot: Option<Slot>)
    requires Inv(s, {}) && Enabled(s, SwapOut(a, slot))
    ensures var s' := SwapOutPage(s, a, slot); Inv(s', {}) && Memory(s') == Memory(s)
  {
    hide Inv, Memory, ToSlot, GiveSlot;
    if a in s.pte && s.pte[a].Present? {
      if s.pte[a].a {
        assert a in s.area by { InvParts(s, {}); }
        SetFlagsOk(s, {}, a, s.pte[a].w, false, s.pte[a].d);
      } else if s.pte[a].f in s.index {
        ToSlotOk(s, a);
      } else if slot.Some? {
        GiveSlotOk(s, a, slot.value);
        ToSlotOk(GiveSlot(s, s.pte[a].f, slot.value), a);
      }
    }
  }

  // One round of page_launder.
  function LaunderPage(s: State, f: Frame, written: bool): State
    requires f in s.index && f in s.ref && f in s.data && s.index[f] in s.memMap
  {
    if s.ref[f] != 0 then Relist(s, f, true)
    else if s.memMap[s.index[f]] == 0 || f !in s.dirty then Evict(s, f)
    else if !written then Relist(s, f, false)
    else Evict(WriteBack(s, f), f)
  }

  lemma LaunderPageOk(s: State, f: Frame, written: bool)
    requires Inv(s, {}) && f in s.index
    ensures f in s.ref && f in s.data && s.index[f] in s.memMap
    ensures var s' := LaunderPage(s, f, written); Inv(s', {}) && Memory(s') == Memory(s)
    ensures var s' := LaunderPage(s, f, written);
      && (f in s'.free <==> s.ref[f] == 0 && (s.memMap[s.index[f]] == 0 || f !in s.dirty || written))
      && s'.disk == (if s.ref[f] == 0 && s.memMap[s.index[f]] != 0 && f in s.dirty && written then s.disk[s.index[f] := s.data[f]] else s.disk)
      && (f in s'.free && s.memMap[s.index[f]] != 0 ==> s.index[f] in s'.disk && s'.disk[s.index[f]] == s.data[f])
  {
    hide Inv, Memory, Relist, Evict, WriteBack;
    FrameOf(s, f);
    LaunderDisk(s, f, written);
    if s.ref[f] != 0 {
      RelistOk(s, {}, f, true);
    } else if s.memMap[s.index[f]] == 0 || f !in s.dirty {
      EvictOk(s, {}, f);
    } else if !written {
      RelistOk(s, {}, f, false);
    } else {
      WriteBackOk(s, {}, f);
      WriteBackFields(s, f);
      EvictOk(WriteBack(s, f), {}, f);
    }
  }

  // Where the frame and the disk end up.
  lemma LaunderDisk(s: State, f: Frame, written: bool)
    requires Inv(s, {}) && f in s.index && f in s.ref && f in s.data && s.index[f] in s.memMap
    ensures var s' := LaunderPage(s, f, written);
      && (f in s'.free <==> s.ref[f] == 0 && (s.memMap[s.index[f]] == 0 || f !in s.dirty || written))
      && s'.disk == (if s.ref[f] == 0 && s.memMap[s.index[f]] != 0 && f in s.dirty && written then s.disk[s.index[f] := s.data[f]] else s.disk)
      && (f in s'.free && s.memMap[s.index[f]] != 0 ==> s.index[f] in s'.disk && s'.disk[s.index[f]] == s.data[f])
  {
    hide Memory, SlotsOk, ListsOk, ExclusiveOk, AreaOk, CacheOk;
    if s.ref[f] == 0 && f !in s.dirty { IdleFrame(s, {}, f); }
  }

  lemma WriteBackFields(s: State, f: Frame)
    requires f in s.index && f in s.data
    ensures var s' := WriteBack(s, f);
      s'.index == s.index && s'.ref == s.ref && s'.memMap == s.memMap && f !in s'.dirty
  {
  }

  // One round of refill_inactive_scan.
  function RefillPage(s: State, f: Frame): State
    requires f in s.ref
  {
    if s.ref[f] == 0 then Relist(s, f, false) else s
  }

  // ------------------------------------------------------------ fork

  // One entry of copy_range for a private area.
  function CopyEntry(s: State, a: Addr, to: Addr): State
    requires WellFormed(s)
  {
    if a !in s.pte then s
    else if s.pte[a].Swapped? then AddSwapped(s, to, s.pte[a].o)
    else
      var s1 := if s.pte[a].w then SetFlags(s, a, false, s.pte[a].a, s.pte[a].d) else s;
      LinkPinned(Pin(s1, s.pte[a].f), to, s.pte[a].f, false)
  }

  lemma CopyEntryOk(s: State, a: Addr, to: Addr)
    requires Inv(s, {}) && Enabled(s, CopyPage(a, to))
    ensures WellFormed(s)
    ensures var s' := CopyEntry(s, a, to);
      Inv(s', {}) && Memory(s') == if a in Memory(s) then Memory(s)[to := Memory(s)[a]] else Memory(s)
  {
    hide Inv, Memory;
    InvWellFormed(s, {});
    MemoryKeys(s, {});
    if a in s.pte {
      if s.pte[a].Swapped? {
        CopySwapped(s, a, to);
      } else {
        assert a in s.area by { InvParts(s, {}); }
        CopyPresent(s, a, to);
      }
    }
  }

  lemma CopySwapped(s: State, a: Addr, to: Addr)
    requires Inv(s, {}) && a in s.pte && s.pte[a].Swapped? && to !in s.pte && to in s.area && to.va == a.va
    ensures s.pte[a].o in s.memMap
    ensures var s' := AddSwapped(s, to, s.pte[a].o);
      a in Memory(s) && Inv(s', {}) && Memory(s') == Memory(s)[to := Memory(s)[a]]
  {
    hide ListsOk, CleanOk, CacheOk, RefsOk, FreeOk, AreaOk, Memory;
    var o := s.pte[a].o;
    SlotsDec(s.memMap, s.pte, a);
    AddSwappedOk(s, {}, to, o);
    MemoryOfSlot(s, a);
  }

  lemma MemoryOfSlot(s: State, a: Addr)
    requires Inv(s, {}) && a in s.pte && s.pte[a].Swapped?
    ensures s.pte[a].o in s.disk && s.index.Keys <= s.data.Keys && a in Memory(s)
    ensures Memory(s)[a] == SlotData(s, s.pte[a].o)
  {
  }

  lemma CopyPresent(s: State, a: Addr, to: Addr)
    requires Inv(s, {}) && a in s.pte && s.pte[a].Present? && to !in s.pte && to in s.area && a in s.area
    requires s.pte[a].f in s.ref && to.va == a.va
    ensures a in Memory(s)
    ensures
      var s2 := if s.pte[a].w then SetFlags(s, a, false, s.pte[a].a, s.pte[a].d) else s;
      var s' := LinkPinned(Pin(s2, s.pte[a].f), to, s.pte[a].f, false);
      Inv(s', {}) && Memory(s') == Memory(s)[to := Memory(s)[a]]
  {
    hide Inv, Memory;
    var f := s.pte[a].f;
    var s2 := if s.pte[a].w then SetFlags(s, a, false, s.pte[a].a, s.pte[a].d) else s;
    if s.pte[a].w { SetFlagsOk(s, {}, a, false, s.pte[a].a, s.pte[a].d); }
    NoWriter(s2, a);
    Mapped(s2, a);
    MemoryAt(s, a);
    PinOk(s2, {}, f);
    FrameIs(s2, a);
    var s3 := Pin(s2, f);
    LinkPinnedOk(s3, {} + {f}, to, f, false);
    assert {} + {f} - {f} == {};
  }

  // A page with a read-only entry has no writable one.
  lemma NoWriter(s: State, a: Addr)
    requires Inv(s, {}) && a in s.pte && s.pte[a].Present? && !s.pte[a].w
    ensures forall b :: b in Refs(s.pte, s.pte[a].f) ==> !s.pte[b].w
  {
    hide ListsOk, CleanOk, AreaOk, SlotsOk, FreeOk, CacheOk, RefsOk;
    assert a in Refs(s.pte, s.pte[a].f);
  }

  // ------------------------------------------------------------ steps

  ghost function Step(s: State, t: Action): State
    requires Inv(s, {}) && Enabled(s, t)
  {
    match t
    case MapArea(a, perm) => s.(area := s.area[a := perm])
    case UnmapPage(a) => RemovePteOk(s, {}, a); RemovePte(s, a)
    case UnmapArea(a) => s.(area := s.area - {a})
    case Read(a, newp, inp) =>
      if !s.area[a].read && !(a in s.pte && s.pte[a].Present?) then s
      else
        FaultReadOk(s, a, newp, inp);
        var (s1, ok) := FaultRead(s, a, newp, inp);
        if ok then SetFlags(s1, a, s1.pte[a].w, true, s1.pte[a].d) else s1
    case Write(a, off, x, newp, inp) =>
      if !s.area[a].write then s
      else
        FaultWriteOk(s, a, newp, inp);
        var (s1, ok) := FaultWrite(s, a, newp, inp);
        if ok then (FrameIn(s1, a); Store(s1, a, Poke(s1.data[s1.pte[a].f], off, x))) else s1
    case CopyPage(a, to) => CopyEntryOk(s, a, to); CopyEntry(s, a, to)
    case SwapOut(a, slot) => SwapOutPage(s, a, slot)
    case Launder(f, written) => Listed(s, f); LaunderPageOk(s, f, written); LaunderPage(s, f, written)
    case Refill(f) => Listed(s, f); FrameOf(s, f); RefillPage(s, f)
  }

  lemma Listed(s: State, f: Frame)
    requires Inv(s, {}) && (f in s.active || f in s.inactive)
    ensures f in s.index
  {
  }

  // The operations of a private memory: each address space sees its own
  // writes, and what its parent held at the fork.  The first access to a page
  // gives it some contents; ReadOk and WriteOk say which.  An access may fail.
  ghost predicate PrivateStep(m: map<Addr, Data>, t: Action, m': map<Addr, Data>) {
    match t
    case MapArea(_, _) => m' == m
    case UnmapPage(a) => m' == m - {a}
    case UnmapArea(_) => m' == m
    case Read(a, _, _) => m' == m || (a !in m && a in m' && m' == m[a := m'[a]])
    case Write(a, off, x, _, _) =>
      m' == m || (off < PGSIZE && a in m' && if a in m then m' == m[a := Poke(m[a], off, x)]
          else m' == m[a := m'[a]] && m'[a][off] == x)
    case CopyPage(a, to) => m' == if a in m then m[to := m[a]] else m
    case SwapOut(_, _) => m' == m
    case Launder(_, _) => m' == m
    case Refill(_) => m' == m
  }

  lemma StepOk(s: State, t: Action)
    requires Inv(s, {}) && Enabled(s, t)
    ensures Inv(Step(s, t), {}) && PrivateStep(Memory(s), t, Memory(Step(s, t)))
  {
    hide Inv, Memory, RemovePte, FaultRead, FaultWrite, Store, CopyEntry, SwapOutPage, LaunderPage, Relist, Sole;
    match t
    case MapArea(a, perm) => MapAreaOk(s, {}, a, perm);
    case UnmapPage(a) => RemovePteOk(s, {}, a);
    case UnmapArea(a) => UnmapAreaOk(s, {}, a);
    case Read(a, newp, inp) =>
      MemoryKeys(s, {});
      ReadOk(s, a, newp, inp);
    case Write(a, off, x, newp, inp) => WriteOk(s, a, off, x, newp, inp);
    case CopyPage(a, to) => CopyEntryOk(s, a, to);
    case SwapOut(a, slot) => SwapOutPageOk(s, a, slot);
    case Launder(f, written) =>
      Listed(s, f);
      LaunderPageOk(s, f, written);
    case Refill(f) =>
      Listed(s, f);
      FrameOf(s, f);
      RelistOk(s, {}, f, false);
  }

  // A load that is allowed and finds memory succeeds.  A page that was there
  // reads as before; a page never touched shows what the frame it gets held.
  lemma ReadOk(s: State, a: Addr, newp: Option<Frame>, inp: Option<Frame>)
    requires Inv(s, {}) && Enabled(s, Read(a, newp, inp))
    ensures var s' := Step(s, Read(a, newp, inp));
      && Inv(s', {})
      && (a in s.pte ==> Memory(s') == Memory(s))
      && (a !in s.pte ==> Memory(s') == if s.area[a].read && newp.Some? && newp.value in s.data then Memory(s)[a := s.data[newp.value]] else Memory(s))
      && (s.area[a].read && newp.Some? && inp.Some? ==> a in s'.pte && s'.pte[a].Present? && a in Memory(s'))
  {
    hide Inv, Memory, FaultRead;
    MemoryKeys(s, {});
    if s.area[a].read || (a in s.pte && s.pte[a].Present?) {
      FaultReadOk(s, a, newp, inp);
      var (s1, ok) := FaultRead(s, a, newp, inp);
      if newp.Some? { FreeIn(s, newp.value); }
      FreshOk(s, a, newp, inp);
      if ok {
        SetFlagsOk(s1, {}, a, s1.pte[a].w, true, s1.pte[a].d);
        MemoryKeys(s1, {});
      }
    }
  }

  // A first access succeeds exactly if a frame is found.
  lemma FreshOk(s: State, a: Addr, newp: Option<Frame>, inp: Option<Frame>)
    requires Inv(s, {}) && a in s.area && FreeFrame(s, newp) && FreeFrame(s, inp)
    ensures a !in s.pte ==> FaultRead(s, a, newp, inp).1 == newp.Some?
    ensures a !in s.pte && s.area[a].write && (newp.Some? ==> newp != inp) ==>
      FaultWrite(s, a, newp, inp).1 == newp.Some?
  {
    hide Inv;
  }

  // A store of one byte that is allowed and finds memory changes that byte;
  // the rest of the page is as it was, or as the new frame was.
  lemma WriteOk(s: State, a: Addr, off: nat, x: byte, newp: Option<Frame>, inp: Option<Frame>)
    requires Inv(s, {}) && Enabled(s, Write(a, off, x, newp, inp))
    ensures var s' := Step(s, Write(a, off, x, newp, inp)); Inv(s', {})
    ensures var s' := Step(s, Write(a, off, x, newp, inp));
      a in Memory(s) ==> Memory(s') == Memory(s) || Memory(s') == Memory(s)[a := Poke(Memory(s)[a], off, x)]
    ensures var s' := Step(s, Write(a, off, x, newp, inp));
      a in Memory(s) && s.area[a].write && newp.Some? && inp.Some? ==>
          Memory(s') == Memory(s)[a := Poke(Memory(s)[a], off, x)]
    ensures var s' := Step(s, Write(a, off, x, newp, inp));
      a !in Memory(s) && s.area[a].write && newp.Some? ==>
        newp.value in s.data && Memory(s') == Memory(s)[a := Poke(s.data[newp.value], off, x)]
    ensures var s' := Step(s, Write(a, off, x, newp, inp));
      !s.area[a].write || (a !in Memory(s) && newp.None?) ==> Memory(s') == Memory(s)
  {
    hide Inv, Memory, FaultWrite, Store, Sole, Poke;
    MemoryKeys(s, {});
    if s.area[a].write {
      FaultWriteOk(s, a, newp, inp);
      FreshOk(s, a, newp, inp);
      if newp.Some? { FreeIn(s, newp.value); }
      var (s1, ok) := FaultWrite(s, a, newp, inp);
      if ok {
        FrameIn(s1, a);
        MemoryAt(s1, a);
        StoreOk(s1, {}, a, Poke(s1.data[s1.pte[a].f], off, x));
      }
    }
  }
}
