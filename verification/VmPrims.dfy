/**
  The elementary updates of page tables, reference counts and the swap cache,
  each with what it keeps: the invariant and the memory the page tables stand for.
 */
module VmPrims {
  import opened Sequences
  import opened VmState

  // ------------------------------------------------------------ pinning

  // alloc_page followed by the page_ref_inc of page_insert.
  function PinNew(s: State, f: Frame, v: Data): State
    requires f in s.free
  {
    s.(free := s.free - {f}, ref := s.ref[f := 1], data := s.data[f := v])
  }

  lemma PinNewOk(s: State, pin: set<Frame>, f: Frame, v: Data)
    requires Inv(s, pin) && f in s.free
    ensures f !in pin && Refs(s.pte, f) == {} && f !in s.index
    ensures Inv(PinNew(s, f, v), pin + {f})
    ensures Memory(PinNew(s, f, v)) == Memory(s)
  {
    hide RefsOk, SlotsOk, CacheOk, ListsOk, FreeOk, ExclusiveOk, CleanOk, AreaOk, PlacesOk, Memory, Refs;
    var s' := PinNew(s, f, v);
    UnusedFrame(s, pin, f);
    RefsPin(s.ref, s.pte, pin, f);
    FreePin(s.ref, s.index, s.free, f);
    CleanSame(s, s');
    MemorySame(s, s');
  }

  lemma FreePin(ref: map<Frame, nat>, index: map<Frame, Slot>, free: set<Frame>, f: Frame)
    requires FreeOk(ref, index, free) && f in ref
    ensures FreeOk(ref[f := ref[f] + 1], index, free - {f})
    ensures f !in free ==> free - {f} == free
  {
  }

  // page_ref_inc of a frame already in use.
  function Pin(s: State, f: Frame): State
    requires f in s.ref
  {
    s.(ref := s.ref[f := s.ref[f] + 1])
  }

  lemma PinOk(s: State, pin: set<Frame>, f: Frame)
    requires Inv(s, pin) && f in s.ref && f !in s.free && f !in pin
    ensures Inv(Pin(s, f), pin + {f})
    ensures Memory(Pin(s, f)) == Memory(s)
  {
    hide RefsOk, SlotsOk, CacheOk, ListsOk, FreeOk, ExclusiveOk, CleanOk, AreaOk, PlacesOk, Memory, Refs;
    var s' := Pin(s, f);
    RefsPin(s.ref, s.pte, pin, f);
    FreePin(s.ref, s.index, s.free, f);
    CleanSame(s, s');
    MemorySame(s, s');
  }

  // ------------------------------------------------------------ present entries

  // The assignment of page_insert to an empty entry; the pin becomes the
  // entry's reference.
  function LinkPinned(s: State, a: Addr, f: Frame, w: bool): State {
    s.(pte := s.pte[a := Present(f, w, false, false)])
  }

  lemma LinkPinnedOk(s: State, pin: set<Frame>, a: Addr, f: Frame, w: bool)
    requires Inv(s, pin) && f in pin && a !in s.pte && a in s.area && (w ==> s.area[a].write)
    requires w ==> Refs(s.pte, f) == {} && (f in s.index ==> s.memMap[s.index[f]] == 0)
    requires (forall b :: b in Refs(s.pte, f) ==> !s.pte[b].w) && FrameAt(s.pte, s.index, f, a.va)
    ensures Inv(LinkPinned(s, a, f, w), pin - {f})
    ensures Memory(LinkPinned(s, a, f, w)) == Memory(s)[a := s.data[f]]
  {
    hide RefsOk, SlotsOk, CacheOk, ListsOk, FreeOk, ExclusiveOk, CleanOk, AreaOk, PlacesOk, Memory, Refs;
    var s' := LinkPinned(s, a, f, w);
    RefsLink(s.ref, s.pte, pin, a, s'.pte[a]);
    SlotsPresent(s.memMap, s.pte, a);
    ExclusiveLink(s, a, f, w);
    CleanLink(s, a, f, w);
    AreaLink(s, a, f, w);
    PlacesPut(s.pte, s.index, a, s'.pte[a]);
    MemoryPut(s, s', a);
  }

  lemma PlacesPut(pte: map<Addr, Pte>, index: map<Frame, Slot>, a: Addr, p: Pte)
    requires PlacesOk(pte, index) && a !in pte
    requires match p case Present(f, _, _, _) => FrameAt(pte, index, f, a.va) case Swapped(o) => SlotAt(pte, index, o, a.va)
    ensures PlacesOk(pte[a := p], index)
  {
  }

  lemma PlacesClear(pte: map<Addr, Pte>, index: map<Frame, Slot>, a: Addr)
    requires PlacesOk(pte, index)
    ensures PlacesOk(pte - {a}, index)
  {
  }

  // A frame becomes the cache of a slot, or is no longer.
  lemma PlacesJoin(pte: map<Addr, Pte>, index: map<Frame, Slot>, f: Frame, o: Slot)
    requires PlacesOk(pte, index) && f !in index && (Refs(pte, f) == {} || Holders(pte, o) == {}) && o !in index.Values
    ensures PlacesOk(pte, index[f := o])
  {
    forall a | a in pte ensures a in Refs(pte, f) <==> pte[a].Present? && pte[a].f == f {}
    forall a | a in pte ensures a in Holders(pte, o) <==> pte[a] == Swapped(o) {}
    forall g | g in index ensures index[g] != o { assert index[g] in index.Values; }
  }

  lemma PlacesLeave(pte: map<Addr, Pte>, index: map<Frame, Slot>, f: Frame)
    requires PlacesOk(pte, index)
    ensures PlacesOk(pte, index - {f})
  {
  }

  lemma PlacesFlags(pte: map<Addr, Pte>, index: map<Frame, Slot>, a: Addr, p: Pte)
    requires PlacesOk(pte, index) && a in pte && pte[a].Present? && p.Present? && p.f == pte[a].f
    ensures PlacesOk(pte[a := p], index)
  {
  }

  lemma ExclusiveLink(s: State, a: Addr, f: Frame, w: bool)
    requires ExclusiveOk(s.pte, s.index, s.memMap) && a !in s.pte
    requires w ==> Refs(s.pte, f) == {} && (f in s.index && s.index[f] in s.memMap ==> s.memMap[s.index[f]] == 0)
    requires forall b :: b in Refs(s.pte, f) ==> !s.pte[b].w
    ensures ExclusiveOk(LinkPinned(s, a, f, w).pte, s.index, s.memMap)
  {
    var pte' := LinkPinned(s, a, f, w).pte;
    PutEntry(s.pte, pte', a, pte'[a]);
    forall b | b in s.pte && s.pte[b].Present? && s.pte[b].w ensures s.pte[b].f != f {
      assert b in Refs(s.pte, s.pte[b].f);
    }
  }

  lemma CleanLink(s: State, a: Addr, f: Frame, w: bool)
    requires CleanOk(s) && a !in s.pte
    ensures CleanOk(LinkPinned(s, a, f, w))
  {
    var s' := LinkPinned(s, a, f, w);
    PutEntry(s.pte, s'.pte, a, s'.pte[a]);
  }

  lemma AreaLink(s: State, a: Addr, f: Frame, w: bool)
    requires AreaOk(s.pte, s.area) && a in s.area && (w ==> s.area[a].write)
    ensures AreaOk(LinkPinned(s, a, f, w).pte, s.area)
  {
  }

  // The present branch of page_remove_pte.
  function DropPresent(s: State, a: Addr): State
    requires a in s.pte && s.pte[a].Present? && s.pte[a].f in s.ref && s.ref[s.pte[a].f] > 0
  {
    var f, d := s.pte[a].f, s.pte[a].d;
    var freed := f !in s.index && s.ref[f] == 1;
    s.(pte := s.pte - {a},
       ref := s.ref[f := s.ref[f] - 1],
       free := if freed then s.free + {f} else s.free,
       dirty := if freed then s.dirty - {f} else if f in s.index && d then s.dirty + {f} else s.dirty,
       hot := if freed then s.hot - {f} else s.hot)
  }

  lemma DropPresentOk(s: State, pin: set<Frame>, a: Addr)
    requires Inv(s, pin) && a in s.pte && s.pte[a].Present?
    ensures s.ref[s.pte[a].f] > 0
    ensures Inv(DropPresent(s, a), pin)
    ensures Memory(DropPresent(s, a)) == Memory(s) - {a}
  {
    hide RefsOk, SlotsOk, CacheOk, ListsOk, FreeOk, ExclusiveOk, CleanOk, AreaOk, PlacesOk, Memory, Refs;
    RefsUnlink(s.ref, s.pte, pin, a);
    var s' := DropPresent(s, a);
    SlotsPresent(s.memMap, s.pte, a);
    FreeDrop(s.ref, s.index, s.free, s.pte[a].f);
    ListsHot(s.index, s.hot, s'.hot, s.active, s.inactive);
    ExclusiveClear(s.pte, s.index, s.memMap, a);
    CleanClear(s, s', a);
    AreaClear(s.pte, s.area, a);
    PlacesClear(s.pte, s.index, a);
    MemoryClear(s, s', a);
  }

  lemma FreeDrop(ref: map<Frame, nat>, index: map<Frame, Slot>, free: set<Frame>, f: Frame)
    requires FreeOk(ref, index, free) && f in ref && ref[f] > 0
    ensures FreeOk(ref[f := ref[f] - 1], index, if f !in index && ref[f] == 1 then free + {f} else free)
  {
  }

  // ------------------------------------------------------------ swap entries

  // swap_duplicate and the assignment of the entry.
  function AddSwapped(s: State, a: Addr, o: Slot): State
    requires o in s.memMap
  {
    s.(pte := s.pte[a := Swapped(o)], memMap := s.memMap[o := s.memMap[o] + 1])
  }

  lemma AddSwappedOk(s: State, pin: set<Frame>, a: Addr, o: Slot)
    requires Inv(s, pin) && a !in s.pte && a in s.area && o in s.memMap && s.memMap[o] != SWAP_UNUSED
    requires SlotAt(s.pte, s.index, o, a.va)
    requires forall b :: b in s.pte && s.pte[b].Present? && s.pte[b].w && s.pte[b].f in s.index ==>
      s.index[s.pte[b].f] != o
    ensures Inv(AddSwapped(s, a, o), pin)
    ensures o in s.disk && s.index.Keys <= s.data.Keys
    ensures Memory(AddSwapped(s, a, o)) == Memory(s)[a := SlotData(s, o)]
  {
    hide RefsOk, SlotsOk, CacheOk, ListsOk, FreeOk, ExclusiveOk, CleanOk, AreaOk, PlacesOk, Memory, Refs;
    var s' := AddSwapped(s, a, o);
    RefsSwapped(s.ref, s.pte, pin, a, o);
    FewHolders(s, pin, o);
    PlacesPut(s.pte, s.index, a, Swapped(o));
    SlotsAdd(s.memMap, s.pte, a, o);
    CacheCount(s.index, s.memMap, o, s.memMap[o] + 1);
    ExclusiveAdd(s, a, o);
    CleanAdd(s, a, o);
    AreaAdd(s, a, o);
    MemoryPut(s, s', a);
  }

  // swap_duplicate: a slot has at most one entry in each address space.
  ghost predicate CanCount(s: State, o: Slot) {
    o in s.memMap ==> s.memMap[o] < MAX_SWAP_REF || s.memMap[o] == SWAP_UNUSED
  }

  // The page `va` of every address space.
  function Column(va: nat, n: nat): set<Addr> { set m | 0 <= m < n :: Addr(m, va) }

  lemma {:induction false} ColumnSize(va: nat, n: nat)
    ensures |Column(va, n)| == n
  {
    if n == 0 {
      assert Column(va, 0) == {};
    } else {
      ColumnSize(va, n - 1);
      assert Column(va, n) == Column(va, n - 1) + {Addr(n - 1, va)};
    }
  }

  lemma FewHolders(s: State, pin: set<Frame>, o: Slot)
    requires Inv(s, pin)
    ensures CanCount(s, o)
  {
    hide RefsOk, CacheOk, ListsOk, FreeOk, ExclusiveOk, CleanOk;
    var h := Holders(s.pte, o);
    if a :| a in h {
      forall b | b in h ensures b in Column(a.va, MAX_MM) { assert b == Addr(b.mm, a.va); }
      ColumnSize(a.va, MAX_MM);
      SubsetSize(h, Column(a.va, MAX_MM));
    }
  }

  lemma {:induction false} SubsetSize(x: set<Addr>, y: set<Addr>)
    requires x <= y
    ensures |x| <= |y|
    decreases x
  {
    if a :| a in x { SubsetSize(x - {a}, y - {a}); }
  }

  lemma RefsSwapped(ref: map<Frame, nat>, pte: map<Addr, Pte>, pin: set<Frame>, a: Addr, o: Slot)
    requires RefsOk(ref, pte, pin) && a !in pte
    ensures RefsOk(ref, pte[a := Swapped(o)], pin)
  {
    PutEntry(pte, pte[a := Swapped(o)], a, Swapped(o));
  }

  lemma SlotsAdd(memMap: map<Slot, nat>, pte: map<Addr, Pte>, a: Addr, o: Slot)
    requires SlotsOk(memMap, pte) && a !in pte && o in memMap && memMap[o] < MAX_SWAP_REF
    ensures SlotsOk(memMap[o := memMap[o] + 1], pte[a := Swapped(o)])
  {
    hide Holders;
    forall q | q in memMap ensures |Holders(pte[a := Swapped(o)], q)| == |Holders(pte, q)| + if q == o then 1 else 0 {
      CountPut(pte, a, Swapped(o), q);
    }
  }

  lemma CacheCount(index: map<Frame, Slot>, memMap: map<Slot, nat>, o: Slot, n: nat)
    requires CacheOk(index, memMap) && o in memMap
    requires n == 0 ==> o in index.Values
    requires n == SWAP_UNUSED ==> o !in index.Values
    ensures CacheOk(index, memMap[o := n])
  {
  }

  lemma ExclusiveAdd(s: State, a: Addr, o: Slot)
    requires ExclusiveOk(s.pte, s.index, s.memMap) && a !in s.pte && o in s.memMap
    requires forall b :: b in s.pte && s.pte[b].Present? && s.pte[b].w && s.pte[b].f in s.index ==>
      s.index[s.pte[b].f] != o
    ensures var s' := AddSwapped(s, a, o); ExclusiveOk(s'.pte, s'.index, s'.memMap)
  {
    PutEntry(s.pte, s.pte[a := Swapped(o)], a, Swapped(o));
  }

  lemma CleanAdd(s: State, a: Addr, o: Slot)
    requires CleanOk(s) && a !in s.pte && o in s.memMap
    ensures CleanOk(AddSwapped(s, a, o))
  {
    PutEntry(s.pte, s.pte[a := Swapped(o)], a, Swapped(o));
  }

  lemma AreaAdd(s: State, a: Addr, o: Slot)
    requires AreaOk(s.pte, s.area) && a in s.area && o in s.memMap
    ensures AreaOk(AddSwapped(s, a, o).pte, s.area)
  {
  }

  // The count of swap_remove_entry goes down; a slot with no entry and no
  // cached page becomes unused.
  ghost function DecSlot(s: State, a: Addr): State
    requires a in s.pte && s.pte[a].Swapped? && s.pte[a].o in s.memMap && s.memMap[s.pte[a].o] > 0
  {
    var o := s.pte[a].o;
    var n := s.memMap[o] - 1;
    s.(pte := s.pte - {a},
       memMap := s.memMap[o := if n == 0 && o !in s.index.Values then SWAP_UNUSED else n])
  }

  lemma DecSlotOk(s: State, pin: set<Frame>, a: Addr)
    requires Inv(s, pin) && a in s.pte && s.pte[a].Swapped?
    ensures 0 < s.memMap[s.pte[a].o] < SWAP_UNUSED
    ensures Inv(DecSlot(s, a), pin)
    ensures Memory(DecSlot(s, a)) == Memory(s) - {a}
  {
    hide RefsOk, SlotsOk, CacheOk, ListsOk, FreeOk, ExclusiveOk, CleanOk, AreaOk, PlacesOk, Memory, Refs;
    var o := s.pte[a].o;
    SlotsDec(s.memMap, s.pte, a);
    var s' := DecSlot(s, a);
    RefsClear(s.ref, s.pte, pin, a);
    assert s'.memMap[o] == SWAP_UNUSED ==> o !in s.index.Values;
    CacheCount(s.index, s.memMap, o, s'.memMap[o]);
    ExclusiveClear(s.pte, s.index, s.memMap, a);
    ExclusiveDec(s'.pte, s.index, s.memMap, o, s'.memMap[o]);
    CleanClear(s, s', a);
    AreaClear(s.pte, s.area, a);
    PlacesClear(s.pte, s.index, a);
    MemoryClear(s, s', a);
  }

  lemma SlotsDec(memMap: map<Slot, nat>, pte: map<Addr, Pte>, a: Addr)
    requires SlotsOk(memMap, pte) && a in pte && pte[a].Swapped? && pte[a].o in memMap
    ensures 0 < memMap[pte[a].o] < SWAP_UNUSED
    ensures SlotsOk(memMap[pte[a].o := memMap[pte[a].o] - 1], pte - {a})
    ensures memMap[pte[a].o] == 1 ==> SlotsOk(memMap[pte[a].o := SWAP_UNUSED], pte - {a})
  {
    hide Holders;
    forall q | q in memMap ensures |Holders(pte - {a}, q)| == |Holders(pte, q)| - if q == pte[a].o then 1 else 0 {
      CountClear(pte, a, q);
    }
  }

  lemma RefsClear(ref: map<Frame, nat>, pte: map<Addr, Pte>, pin: set<Frame>, a: Addr)
    requires RefsOk(ref, pte, pin) && a in pte && pte[a].Swapped?
    ensures RefsOk(ref, pte - {a}, pin)
  {
    ClearEntry(pte, pte - {a}, a);
  }

  lemma ExclusiveDec(pte: map<Addr, Pte>, index: map<Frame, Slot>, memMap: map<Slot, nat>, o: Slot, n: nat)
    requires ExclusiveOk(pte, index, memMap) && o in memMap
    requires n <= memMap[o] || o !in index.Values
    ensures ExclusiveOk(pte, index, memMap[o := n])
  {
  }

  // ------------------------------------------------------------ swap cache

  // The disk read of swap_in_page: a free frame becomes the cache of `o`.
  function CacheNew(s: State, f: Frame, o: Slot): State
    requires f in s.free && o in s.disk
  {
    s.(free := s.free - {f}, data := s.data[f := s.disk[o]], index := s.index[f := o],
       hot := s.hot + {f}, active := s.active + [f])
  }

  lemma CacheNewOk(s: State, pin: set<Frame>, f: Frame, o: Slot)
    requires Inv(s, pin) && f in s.free && o in s.memMap && o !in s.index.Values && s.memMap[o] != SWAP_UNUSED
    ensures Inv(CacheNew(s, f, o), pin)
    ensures Memory(CacheNew(s, f, o)) == Memory(s)
    ensures Refs(s.pte, f) == {} && f !in s.index && s.memMap[o] > 0
  {
    hide RefsOk, SlotsOk, CacheOk, ListsOk, FreeOk, ExclusiveOk, CleanOk, AreaOk, PlacesOk, Memory, Refs;
    var s' := CacheNew(s, f, o);
    UnusedFrame(s, pin, f);
    CacheJoin(s.index, s.memMap, f, o);
    PlacesJoin(s.pte, s.index, f, o);
    ListsJoin(s.index, s.hot, s.active, s.inactive, f, o);
    FreeJoin(s.ref, s.index, s.free, f, o);
    ExclusiveJoin(s.pte, s.index, s.memMap, f, o);
    CleanJoin(s, s', f);
    MemoryJoin(s, s', f, o);
  }

  lemma CacheJoin(index: map<Frame, Slot>, memMap: map<Slot, nat>, f: Frame, o: Slot)
    requires CacheOk(index, memMap) && f !in index && o !in index.Values && o in memMap && memMap[o] != SWAP_UNUSED
    ensures CacheOk(index[f := o], memMap) && memMap[o] > 0
  {
    Encache(index, index[f := o], memMap, f, o);
    forall g | g in index ensures index[g] != o { assert index[g] in index.Values; }
  }

  lemma ListsJoin(index: map<Frame, Slot>, hot: set<Frame>, active: seq<Frame>, inactive: seq<Frame>, f: Frame, o: Slot)
    requires ListsOk(index, hot, active, inactive) && f !in index
    ensures ListsOk(index[f := o], hot + {f}, active + [f], inactive)
  {
    AppendOk(active, f);
  }

  lemma FreeJoin(ref: map<Frame, nat>, index: map<Frame, Slot>, free: set<Frame>, f: Frame, o: Slot)
    requires FreeOk(ref, index, free)
    ensures FreeOk(ref, index[f := o], free - {f})
  {
  }

  lemma ExclusiveJoin(pte: map<Addr, Pte>, index: map<Frame, Slot>, memMap: map<Slot, nat>, f: Frame, o: Slot)
    requires ExclusiveOk(pte, index, memMap)
    requires Refs(pte, f) == {} || (o in memMap && memMap[o] == 0)
    ensures ExclusiveOk(pte, index[f := o], memMap)
  {
    forall a | a in pte && pte[a].Present? ensures a in Refs(pte, pte[a].f) {
    }
  }

  lemma CleanJoin(s: State, s': State, f: Frame)
    requires CleanOk(s) && f in s'.index && s'.index == s.index[f := s'.index[f]] && s'.pte == s.pte
    requires s'.disk == s.disk
    requires s.dirty <= s'.dirty && f in s'.data && s'.data == s.data[f := s'.data[f]]
    requires f in s'.dirty || (s'.index[f] in s'.disk ==> s'.data[f] == s'.disk[s'.index[f]])
    ensures CleanOk(s')
  {
  }

  // A slot that gets a cache keeps its contents if they are copied from disk,
  // or if no entry holds it.
  lemma MemoryJoin(s: State, s': State, f: Frame, o: Slot)
    requires CacheOk(s.index, s.memMap) && f !in s.index && o !in s.index.Values && s'.index == s.index[f := o]
    requires s'.pte == s.pte && s'.disk == s.disk && f in s.data && f in s'.data && s'.data == s.data[f := s'.data[f]]
    requires s.index.Keys <= s.data.Keys
    requires s'.data[f] == s.data[f] || Refs(s.pte, f) == {}
    requires (o in s.disk && s'.data[f] == s.disk[o]) || Holders(s.pte, o) == {}
    ensures Memory(s') == Memory(s)
  {
    Encache(s.index, s'.index, s.memMap, f, o);
    forall a | a in s.pte
      ensures Readable(s, a) <==> Readable(s', a)
      ensures Readable(s, a) ==> View(s', a) == View(s, a)
    {
      if s.pte[a].Present? {
        assert a in Refs(s.pte, s.pte[a].f);
      } else {
        assert a in Holders(s.pte, s.pte[a].o);
      }
    }
  }

  // swap_page_add with a fresh slot, and swap_active_list_add: a mapped frame
  // becomes the cache of a slot that was unused.
  function CachePage(s: State, f: Frame, o: Slot): State {
    s.(memMap := s.memMap[o := 0], dirty := s.dirty + {f}, index := s.index[f := o],
       hot := s.hot + {f}, active := s.active + [f])
  }

  lemma CachePageOk(s: State, pin: set<Frame>, f: Frame, o: Slot)
    requires Inv(s, pin) && f in s.ref && f !in s.free && f !in s.index && o in s.memMap && s.memMap[o] == SWAP_UNUSED
    ensures Inv(CachePage(s, f, o), pin)
    ensures Memory(CachePage(s, f, o)) == Memory(s)
  {
    hide RefsOk, SlotsOk, CacheOk, ListsOk, FreeOk, ExclusiveOk, CleanOk, AreaOk, PlacesOk, Memory, Refs;
    var s' := CachePage(s, f, o);
    UnusedSlot(s, o);
    SlotsZero(s.memMap, s.pte, o);
    CacheFresh(s.index, s.memMap, f, o);
    PlacesJoin(s.pte, s.index, f, o);
    ListsJoin(s.index, s.hot, s.active, s.inactive, f, o);
    FreeJoin(s.ref, s.index, s.free, f, o);
    ExclusiveDec(s.pte, s.index, s.memMap, o, 0);
    ExclusiveJoin(s.pte, s.index, s'.memMap, f, o);
    CleanJoin(s, s', f);
    MemoryJoin(s, s', f, o);
    assert s.free - {f} == s.free;
  }

  lemma UnusedSlot(s: State, o: Slot)
    requires SlotsOk(s.memMap, s.pte) && CacheOk(s.index, s.memMap) && o in s.memMap && s.memMap[o] == SWAP_UNUSED
    ensures o !in s.index.Values && Holders(s.pte, o) == {}
  {
  }

  lemma SlotsZero(memMap: map<Slot, nat>, pte: map<Addr, Pte>, o: Slot)
    requires SlotsOk(memMap, pte) && o in memMap
    ensures memMap[o] == SWAP_UNUSED ==> SlotsOk(memMap[o := 0], pte)
    ensures memMap[o] == 0 ==> SlotsOk(memMap[o := SWAP_UNUSED], pte) && Holders(pte, o) == {}
  {
  }

  lemma CacheFresh(index: map<Frame, Slot>, memMap: map<Slot, nat>, f: Frame, o: Slot)
    requires CacheOk(index, memMap) && f !in index && o !in index.Values && o in memMap
    ensures CacheOk(index[f := o], memMap[o := 0])
  {
    Encache(index, index[f := o], memMap, f, o);
    forall g | g in index ensures index[g] != o { assert index[g] in index.Values; }
  }

  // A frame leaves the cache; it is freed when nothing maps it.
  function Evict(s: State, f: Frame): State
    requires f in s.index && s.index[f] in s.memMap && f in s.ref
  {
    var o := s.index[f];
    var freed := s.ref[f] == 0;
    s.(index := s.index - {f},
       active := Without(s.active, f), inactive := Without(s.inactive, f),
       memMap := if s.memMap[o] == 0 then s.memMap[o := SWAP_UNUSED] else s.memMap,
       free := if freed then s.free + {f} else s.free,
       dirty := if freed then s.dirty - {f} else s.dirty,
       hot := if freed then s.hot - {f} else s.hot)
  }

  lemma EvictOk(s: State, pin: set<Frame>, f: Frame)
    requires Inv(s, pin) && f in s.index
    requires s.memMap[s.index[f]] == 0 || (s.ref[f] == 0 && f !in s.dirty)
    ensures Inv(Evict(s, f), pin)
    ensures Memory(Evict(s, f)) == Memory(s)
  {
    hide RefsOk, SlotsOk, CacheOk, ListsOk, FreeOk, ExclusiveOk, CleanOk, AreaOk, PlacesOk, Memory, Refs;
    var s', o := Evict(s, f), s.index[f];
    SlotsZero(s.memMap, s.pte, o);
    CacheLeave(s.index, s.memMap, f);
    PlacesLeave(s.pte, s.index, f);
    ListsLeave(s.index, s.hot, s.active, s.inactive, f);
    ListsHot(s'.index, s.hot, s'.hot, s'.active, s'.inactive);
    FreeLeave(s.ref, s.index, s.free, f);
    ExclusiveLeave(s.pte, s.index, s.memMap, f);
    CleanLeave(s, s', f);
    if s.memMap[o] != 0 { IdleFrame(s, pin, f); }
    MemoryLeave(s, s', f);
  }

  lemma CacheLeave(index: map<Frame, Slot>, memMap: map<Slot, nat>, f: Frame)
    requires CacheOk(index, memMap) && f in index && index[f] in memMap
    ensures CacheOk(index - {f}, if memMap[index[f]] == 0 then memMap[index[f] := SWAP_UNUSED] else memMap)
  {
    Uncache(index, index - {f}, memMap, f);
  }

  lemma ListsLeave(index: map<Frame, Slot>, hot: set<Frame>, active: seq<Frame>, inactive: seq<Frame>, f: Frame)
    requires ListsOk(index, hot, active, inactive)
    ensures ListsOk(index - {f}, hot, Without(active, f), Without(inactive, f))
  {
    WithoutOk(active, f);
    WithoutOk(inactive, f);
  }

  lemma FreeLeave(ref: map<Frame, nat>, index: map<Frame, Slot>, free: set<Frame>, f: Frame)
    requires FreeOk(ref, index, free) && f in ref && f in index
    ensures FreeOk(ref, index - {f}, if ref[f] == 0 then free + {f} else free)
  {
  }

  lemma ExclusiveLeave(pte: map<Addr, Pte>, index: map<Frame, Slot>, memMap: map<Slot, nat>, f: Frame)
    requires ExclusiveOk(pte, index, memMap) && f in index && index[f] in memMap
    requires CacheOk(index, memMap)
    ensures ExclusiveOk(pte, index - {f}, if memMap[index[f]] == 0 then memMap[index[f] := SWAP_UNUSED] else memMap)
  {
  }

  lemma CleanLeave(s: State, s': State, f: Frame)
    requires CleanOk(s) && s'.index == s.index - {f} && s'.pte == s.pte && s'.disk == s.disk && s'.data == s.data
    requires s.dirty - {f} <= s'.dirty
    ensures CleanOk(s')
  {
  }

  // A clean cached frame that nothing maps equals its slot.
  lemma IdleFrame(s: State, pin: set<Frame>, f: Frame)
    requires CleanOk(s) && RefsOk(s.ref, s.pte, pin) && f in s.ref && s.ref[f] == 0 && f !in s.dirty
    requires f in s.index && f in s.data && s.index[f] in s.disk
    ensures s.data[f] == s.disk[s.index[f]]
  {
    assert Refs(s.pte, f) == {};
    assert forall a :: a in s.pte && s.pte[a].Present? && s.pte[a].f == f ==> a in Refs(s.pte, f);
  }

  lemma MemoryLeave(s: State, s': State, f: Frame)
    requires CacheOk(s.index, s.memMap) && f in s.index && s'.index == s.index - {f}
    requires s'.pte == s.pte && s'.disk == s.disk && s'.data == s.data && s.index.Keys <= s.data.Keys
    requires Holders(s.pte, s.index[f]) == {} || (s.index[f] in s.disk && s.data[f] == s.disk[s.index[f]])
    ensures Memory(s') == Memory(s)
  {
    Uncache(s.index, s'.index, s.memMap, f);
    OwnerIs(s.index, s.memMap, f);
    forall a | a in s.pte
      ensures Readable(s, a) <==> Readable(s', a)
      ensures Readable(s, a) ==> View(s', a) == View(s, a)
    {
      if s.pte[a].Swapped? { assert a in Holders(s.pte, s.pte[a].o); }
    }
  }

  // swap_list_del and the add to the list that `toHot` names.
  function Relist(s: State, f: Frame, toHot: bool): State {
    if toHot then
      s.(active := Without(s.active, f) + [f], inactive := Without(s.inactive, f), hot := s.hot + {f})
    else
      s.(active := Without(s.active, f), inactive := Without(s.inactive, f) + [f], hot := s.hot - {f})
  }

  lemma RelistOk(s: State, pin: set<Frame>, f: Frame, toHot: bool)
    requires Inv(s, pin) && f in s.index
    ensures Inv(Relist(s, f, toHot), pin)
    ensures Memory(Relist(s, f, toHot)) == Memory(s)
  {
    hide RefsOk, SlotsOk, CacheOk, ListsOk, FreeOk, ExclusiveOk, CleanOk, AreaOk, PlacesOk, Memory, Refs;
    var s' := Relist(s, f, toHot);
    ListsMove(s.index, s.hot, s.active, s.inactive, f);
    CleanSame(s, s');
    MemorySame(s, s');
  }

  lemma ListsMove(index: map<Frame, Slot>, hot: set<Frame>, active: seq<Frame>, inactive: seq<Frame>, f: Frame)
    requires ListsOk(index, hot, active, inactive) && f in index
    ensures ListsOk(index, hot + {f}, Without(active, f) + [f], Without(inactive, f))
    ensures ListsOk(index, hot - {f}, Without(active, f), Without(inactive, f) + [f])
  {
    WithoutOk(active, f);
    WithoutOk(inactive, f);
    AppendOk(Without(active, f), f);
    AppendOk(Without(inactive, f), f);
  }

  // A successful swapfs_write of page_launder.
  function WriteBack(s: State, f: Frame): State
    requires f in s.index && f in s.data
  {
    s.(disk := s.disk[s.index[f] := s.data[f]], dirty := s.dirty - {f})
  }

  lemma WriteBackOk(s: State, pin: set<Frame>, f: Frame)
    requires Inv(s, pin) && f in s.index
    ensures Inv(WriteBack(s, f), pin)
    ensures Memory(WriteBack(s, f)) == Memory(s)
  {
    hide RefsOk, SlotsOk, ListsOk, FreeOk, ExclusiveOk, CleanOk, AreaOk, PlacesOk, Memory, Refs;
    var s' := WriteBack(s, f);
    CleanWrite(s, s', f);
    MemoryWrite(s, s', f);
  }

  lemma CleanWrite(s: State, s': State, f: Frame)
    requires CleanOk(s) && CacheOk(s.index, s.memMap) && f in s.index && f in s.data && s' == WriteBack(s, f)
    ensures CleanOk(s')
  {
  }

  lemma MemoryWrite(s: State, s': State, f: Frame)
    requires CacheOk(s.index, s.memMap) && f in s.index && f in s.data && s.index[f] in s.disk && s' == WriteBack(s, f)
    ensures Memory(s') == Memory(s)
  {
    OwnerIs(s.index, s.memMap, f);
    forall a | a in s.pte
      ensures Readable(s, a) <==> Readable(s', a)
      ensures Readable(s, a) ==> View(s', a) == View(s, a)
    {
    }
  }

  // ------------------------------------------------------------ entry flags

  // An entry keeps its frame and gets other flags.
  function SetFlags(s: State, a: Addr, w: bool, acc: bool, d: bool): State
    requires a in s.pte && s.pte[a].Present?
  {
    s.(pte := s.pte[a := Present(s.pte[a].f, w, acc, d)])
  }

  lemma SetFlagsOk(s: State, pin: set<Frame>, a: Addr, w: bool, acc: bool, d: bool)
    requires Inv(s, pin) && a in s.pte && s.pte[a].Present? && (s.pte[a].d ==> d) && a in s.area
    requires w ==> s.pte[a].w || (s.area[a].write && Sole(s, a))
    ensures Inv(SetFlags(s, a, w, acc, d), pin)
    ensures Memory(SetFlags(s, a, w, acc, d)) == Memory(s)
  {
    hide RefsOk, SlotsOk, CacheOk, ListsOk, FreeOk, ExclusiveOk, CleanOk, AreaOk, PlacesOk, Memory, Refs;
    var s' := SetFlags(s, a, w, acc, d);
    SameFrame(s, s', a);
    RefsSame(s.ref, s.pte, s'.pte, pin);
    SlotsSame(s.memMap, s.pte, s'.pte);
    ExclusiveFlags(s, s', a);
    CleanFlags(s, s', a);
    AreaFlags(s, s', a);
    PlacesFlags(s.pte, s.index, a, s'.pte[a]);
    MemoryFlags(s, s', a);
  }

  // The entry is the only reference to its page, in memory or in swap.
  ghost predicate Sole(s: State, a: Addr)
    requires a in s.pte && s.pte[a].Present?
  {
    var f := s.pte[a].f;
    Refs(s.pte, f) == {a} && (f in s.index && s.index[f] in s.memMap ==> s.memMap[s.index[f]] == 0)
  }

  ghost predicate SameEntries(pte: map<Addr, Pte>, pte': map<Addr, Pte>) {
    && (forall g :: Refs(pte', g) == Refs(pte, g))
    && (forall o :: Holders(pte', o) == Holders(pte, o))
  }

  lemma SameFrame(s: State, s': State, a: Addr)
    requires a in s.pte && s.pte[a].Present? && a in s'.pte && s'.pte[a].Present? && s'.pte == s.pte[a := s'.pte[a]]
    requires s'.pte[a].f == s.pte[a].f
    ensures SameEntries(s.pte, s'.pte)
  {
  }

  lemma RefsSame(ref: map<Frame, nat>, pte: map<Addr, Pte>, pte': map<Addr, Pte>, pin: set<Frame>)
    requires RefsOk(ref, pte, pin) && SameEntries(pte, pte')
    ensures RefsOk(ref, pte', pin)
  {
  }

  lemma SlotsSame(memMap: map<Slot, nat>, pte: map<Addr, Pte>, pte': map<Addr, Pte>)
    requires SlotsOk(memMap, pte) && SameEntries(pte, pte')
    ensures SlotsOk(memMap, pte')
  {
  }

  lemma ExclusiveFlags(s: State, s': State, a: Addr)
    requires ExclusiveOk(s.pte, s.index, s.memMap) && SameEntries(s.pte, s'.pte)
    requires a in s.pte && s.pte[a].Present? && a in s'.pte && s'.pte == s.pte[a := s'.pte[a]]
    requires s'.pte[a].Present? && s'.pte[a].f == s.pte[a].f && (s'.pte[a].w ==> s.pte[a].w || Sole(s, a))
    ensures ExclusiveOk(s'.pte, s.index, s.memMap)
  {
  }

  lemma CleanFlags(s: State, s': State, a: Addr)
    requires CleanOk(s) && a in s.pte && s.pte[a].Present? && a in s'.pte && s' == s.(pte := s.pte[a := s'.pte[a]])
    requires s'.pte[a].Present? && s'.pte[a].f == s.pte[a].f && (s.pte[a].d ==> s'.pte[a].d)
    ensures CleanOk(s')
  {
    forall f | Written(s.pte, f) ensures Written(s'.pte, f) {
      var b :| b in s.pte && s.pte[b].Present? && s.pte[b].f == f && s.pte[b].d;
      assert b in s'.pte && s'.pte[b].d;
    }
  }

  lemma AreaFlags(s: State, s': State, a: Addr)
    requires AreaOk(s.pte, s.area) && a in s.pte && a in s'.pte && s'.pte == s.pte[a := s'.pte[a]]
    requires a in s.area && s'.pte[a].Present? && (s'.pte[a].w ==> s.area[a].write || (s.pte[a].Present? && s.pte[a].w))
    ensures AreaOk(s'.pte, s.area)
  {
  }

  lemma MemoryFlags(s: State, s': State, a: Addr)
    requires a in s.pte && s.pte[a].Present? && a in s'.pte && s' == s.(pte := s.pte[a := s'.pte[a]])
    requires s'.pte[a].Present? && s'.pte[a].f == s.pte[a].f
    ensures Memory(s') == Memory(s)
  {
    forall b | b in s.pte
      ensures Readable(s, b) <==> Readable(s', b)
      ensures Readable(s, b) ==> View(s', b) == View(s, b)
    {
    }
  }

  // The store of the program through a writable entry, which sets its
  // accessed and dirty bits.
  function Store(s: State, a: Addr, v: Data): State
    requires a in s.pte && s.pte[a].Present?
  {
    s.(pte := s.pte[a := Present(s.pte[a].f, true, true, true)], data := s.data[s.pte[a].f := v])
  }

  lemma StoreOk(s: State, pin: set<Frame>, a: Addr, v: Data)
    requires Inv(s, pin) && a in s.pte && s.pte[a].Present? && a in s.area && s.area[a].write && Sole(s, a)
    ensures Inv(Store(s, a, v), pin)
    ensures Memory(Store(s, a, v)) == Memory(s)[a := v]
  {
    hide RefsOk, SlotsOk, CacheOk, ListsOk, FreeOk, ExclusiveOk, CleanOk, AreaOk, PlacesOk, Memory, Refs;
    var s1 := SetFlags(s, a, true, true, true);
    SetFlagsOk(s, pin, a, true, true, true);
    SameFrame(s, s1, a);
    CleanData(s1, a, v);
    NoHolders(s, a);
    MemoryData(s1, a, v);
    assert Store(s, a, v) == s1.(data := s1.data[s1.pte[a].f := v]);
  }

  lemma NoHolders(s: State, a: Addr)
    requires SlotsOk(s.memMap, s.pte) && a in s.pte && s.pte[a].Present? && Sole(s, a) && Shape(s, {}) 
    ensures s.pte[a].f in s.index ==> Holders(s.pte, s.index[s.pte[a].f]) == {}
  {
  }

  lemma CleanData(s: State, a: Addr, v: Data)
    requires CleanOk(s) && a in s.pte && s.pte[a].Present? && s.pte[a].d
    ensures CleanOk(s.(data := s.data[s.pte[a].f := v]))
  {
    assert Written(s.pte, s.pte[a].f);
  }

  lemma MemoryData(s: State, a: Addr, v: Data)
    requires a in s.pte && s.pte[a].Present? && Refs(s.pte, s.pte[a].f) == {a} && s.pte[a].f in s.data
    requires s.index.Keys <= s.data.Keys
    requires s.pte[a].f in s.index ==> Holders(s.pte, s.index[s.pte[a].f]) == {}
    ensures Memory(s.(data := s.data[s.pte[a].f := v])) == Memory(s)[a := v]
  {
    var s' := s.(data := s.data[s.pte[a].f := v]);
    forall b | b in s.pte && b != a
      ensures Readable(s, b) <==> Readable(s', b)
      ensures Readable(s, b) ==> View(s', b) == View(s, b)
    {
      if s.pte[b].Present? {
        assert b in Refs(s.pte, s.pte[b].f);
      } else {
        assert b in Holders(s.pte, s.pte[b].o);
      }
    }
    assert Readable(s', a) && View(s', a) == v;
  }

  // ------------------------------------------------------------ areas

  lemma MapAreaOk(s: State, pin: set<Frame>, a: Addr, p: Perm)
    requires Inv(s, pin) && a !in s.area && a.mm < MAX_MM
    ensures Inv(s.(area := s.area[a := p]), pin) && Memory(s.(area := s.area[a := p])) == Memory(s)
  {
    hide RefsOk, SlotsOk, CacheOk, ListsOk, FreeOk, ExclusiveOk, CleanOk, PlacesOk, Memory, Refs;
    CleanSame(s, s.(area := s.area[a := p]));
    MemorySame(s, s.(area := s.area[a := p]));
  }

  lemma UnmapAreaOk(s: State, pin: set<Frame>, a: Addr)
    requires Inv(s, pin) && a !in s.pte
    ensures Inv(s.(area := s.area - {a}), pin) && Memory(s.(area := s.area - {a})) == Memory(s)
  {
    hide RefsOk, SlotsOk, CacheOk, ListsOk, FreeOk, ExclusiveOk, CleanOk, PlacesOk, Memory, Refs;
    CleanSame(s, s.(area := s.area - {a}));
    MemorySame(s, s.(area := s.area - {a}));
  }
}
