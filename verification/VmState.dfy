/**
  The state behind copy-on-write and swapping: page tables, page reference
  counts, the swap cache with its two lists, the swap map and the swap disk.

  A frame is in `index` exactly when its PG_swap flag is set; `index` gives the
  swap slot it caches.  `hot` is the PG_active flag and `dirty` PG_dirty.
 */
module VmState {
  import opened Bytes
  import opened Sequences

  type Frame = nat
  type Slot = nat
  const PGSIZE := 4096
  // The contents of one page.
  type Data = s: seq<byte> | |s| == PGSIZE witness seq(PGSIZE, _ => 0)

  // One byte of a page replaced.
  function Poke(d: Data, off: nat, x: byte): Data
    requires off < PGSIZE
  {
    d[off := x]
  }

  // A page of one address space.
  datatype Addr = Addr(mm: nat, va: nat)

  // A page-table entry that is not zero; a zero entry is absent from the map.
  datatype Pte = Present(f: Frame, w: bool, a: bool, d: bool) | Swapped(o: Slot)

  // What the area around a page allows.
  datatype Perm = Perm(read: bool, write: bool)

  const SWAP_UNUSED := 0xFFFF
  const MAX_SWAP_REF := 0xFFFE
  // One address space for each of MAX_PROCESS processes and each fork under way.
  const MAX_MM := 2 * 4096

  datatype State = State(
    pte: map<Addr, Pte>,
    area: map<Addr, Perm>,
    ref: map<Frame, nat>,
    free: set<Frame>,
    data: map<Frame, Data>,
    index: map<Frame, Slot>,
    dirty: set<Frame>,
    hot: set<Frame>,
    active: seq<Frame>,
    inactive: seq<Frame>,
    memMap: map<Slot, nat>,
    disk: map<Slot, Data>)

  // ------------------------------------------------------------ invariant

  // The entries that map a frame, and those that hold a swap slot.
  ghost function Refs(pte: map<Addr, Pte>, f: Frame): set<Addr> {
    set a | a in pte && pte[a].Present? && pte[a].f == f
  }

  ghost function Holders(pte: map<Addr, Pte>, o: Slot): set<Addr> {
    set a | a in pte && pte[a] == Swapped(o)
  }

  // A reference count is the number of entries, plus one for a pinned frame,
  // which is about to be linked into a page table.
  ghost predicate RefsOk(ref: map<Frame, nat>, pte: map<Addr, Pte>, pin: set<Frame>) {
    && (forall f :: f in ref ==> ref[f] == |Refs(pte, f)| + if f in pin then 1 else 0)
  }

  ghost predicate SlotsOk(memMap: map<Slot, nat>, pte: map<Addr, Pte>) {
    (forall o :: o in memMap ==>
        memMap[o] <= SWAP_UNUSED && |Holders(pte, o)| == if memMap[o] == SWAP_UNUSED then 0 else memMap[o])
  }

  ghost predicate CacheOk(index: map<Frame, Slot>, memMap: map<Slot, nat>) {
    && (forall f :: f in index ==> index[f] in memMap && memMap[index[f]] != SWAP_UNUSED)
    && (forall f, g :: f in index && g in index && index[f] == index[g] ==> f == g)
    && (forall o :: o in memMap && memMap[o] == 0 ==> o in index.Values)
  }

  ghost predicate ListsOk(index: map<Frame, Slot>, hot: set<Frame>, active: seq<Frame>, inactive: seq<Frame>) {
    && NoDup(active) && NoDup(inactive)
    && (forall f :: f in active <==> f in index && f in hot)
    && (forall f :: f in inactive <==> f in index && f !in hot)
  }

  ghost predicate FreeOk(ref: map<Frame, nat>, index: map<Frame, Slot>, free: set<Frame>) {
    (forall f :: f in ref ==> (f in free <==> ref[f] == 0 && f !in index))
  }

  // A writable entry is the only reference to its frame.
  ghost predicate ExclusiveOk(pte: map<Addr, Pte>, index: map<Frame, Slot>, memMap: map<Slot, nat>) {
    forall a :: a in pte && pte[a].Present? && pte[a].w ==>
      Refs(pte, pte[a].f) == {a} &&
      (pte[a].f in index && index[pte[a].f] in memMap ==> memMap[index[pte[a].f]] == 0)
  }

  ghost predicate Written(pte: map<Addr, Pte>, f: Frame) {
    exists a :: a in pte && pte[a].Present? && pte[a].f == f && pte[a].d
  }

  // A cached frame that nothing marks dirty equals its slot on disk.
  ghost predicate CleanOk(s: State) {
    forall f :: f in s.index && f in s.data && s.index[f] in s.disk && f !in s.dirty && !Written(s.pte, f) ==>
      s.data[f] == s.disk[s.index[f]]
  }

  ghost predicate AreaOk(pte: map<Addr, Pte>, area: map<Addr, Perm>) {
    && pte.Keys <= area.Keys && (forall a :: a in area ==> a.mm < MAX_MM)
    && (forall a :: a in pte && pte[a].Present? && pte[a].w ==> area[a].write)
  }

  // Every entry for the page in the frame `f`, or in the slot `o`, is at `va`.
  ghost predicate FrameAt(pte: map<Addr, Pte>, index: map<Frame, Slot>, f: Frame, va: nat) {
    && (forall b :: b in pte && pte[b].Present? && pte[b].f == f ==> b.va == va)
    && (f in index ==> forall b :: b in pte && pte[b] == Swapped(index[f]) ==> b.va == va)
  }

  ghost predicate SlotAt(pte: map<Addr, Pte>, index: map<Frame, Slot>, o: Slot, va: nat) {
    && (forall b :: b in pte && pte[b] == Swapped(o) ==> b.va == va)
    && (forall b :: b in pte && pte[b].Present? && pte[b].f in index && index[pte[b].f] == o ==> b.va == va)
  }

  // A private page spreads only by fork, to the same address.
  ghost predicate PlacesOk(pte: map<Addr, Pte>, index: map<Frame, Slot>) {
    && (forall a :: a in pte && pte[a].Present? ==> FrameAt(pte, index, pte[a].f, a.va))
    && (forall a :: a in pte && pte[a].Swapped? ==> SlotAt(pte, index, pte[a].o, a.va))
  }

  // Entries, caches and lists speak of frames and slots that exist.
  ghost predicate Shape(s: State, pin: set<Frame>) {
    && s.data.Keys == s.ref.Keys && s.disk.Keys == s.memMap.Keys
    && pin <= s.ref.Keys && s.index.Keys <= s.ref.Keys && s.free <= s.ref.Keys
    && (forall f :: f in s.index ==> s.index[f] in s.memMap)
    && (forall a :: a in s.pte ==> match s.pte[a] case Present(f, _, _, _) => f in s.ref case Swapped(o) => o in s.memMap)
  }

  ghost predicate Inv(s: State, pin: set<Frame>) {
    && Shape(s, pin)
    && RefsOk(s.ref, s.pte, pin)
    && SlotsOk(s.memMap, s.pte)
    && CacheOk(s.index, s.memMap)
    && ListsOk(s.index, s.hot, s.active, s.inactive)
    && FreeOk(s.ref, s.index, s.free)
    && ExclusiveOk(s.pte, s.index, s.memMap)
    && CleanOk(s)
    && AreaOk(s.pte, s.area)
    && PlacesOk(s.pte, s.index)
  }

  // ------------------------------------------------------------ view

  // The frame that caches a slot.
  ghost function Owner(index: map<Frame, Slot>, o: Slot): (f: Frame)
    requires o in index.Values
    ensures f in index && index[f] == o
  {
    var f :| f in index && index[f] == o;
    f
  }

  ghost function SlotData(s: State, o: Slot): Data
    requires s.index.Keys <= s.data.Keys && o in s.disk
  {
    if o in s.index.Values then s.data[Owner(s.index, o)] else s.disk[o]
  }

  ghost predicate Readable(s: State, a: Addr) {
    && a in s.pte && s.index.Keys <= s.data.Keys
    && (s.pte[a].Present? ==> s.pte[a].f in s.data)
    && (s.pte[a].Swapped? ==> s.pte[a].o in s.disk)
  }

  // What the program would read at a page that has been touched.
  ghost function View(s: State, a: Addr): Data
    requires Readable(s, a)
  {
    match s.pte[a]
    case Present(f, _, _, _) => s.data[f]
    case Swapped(o) => SlotData(s, o)
  }

  // The private memory a page table stands for.
  ghost function Memory(s: State): map<Addr, Data> {
    map a | a in s.pte && Readable(s, a) :: View(s, a)
  }

  lemma MemoryKeys(s: State, pin: set<Frame>)
    requires Inv(s, pin)
    ensures Memory(s).Keys == s.pte.Keys
    ensures forall a :: a in s.pte ==> Readable(s, a)
  {
  }

  // ------------------------------------------------------------ counting

  // An entry is put where there was none.
  lemma PutEntry(pte: map<Addr, Pte>, pte': map<Addr, Pte>, a: Addr, p: Pte)
    requires a !in pte && pte' == pte[a := p]
    ensures forall f :: Refs(pte', f) == Refs(pte, f) + if p.Present? && p.f == f then {a} else {}
    ensures forall o :: Holders(pte', o) == Holders(pte, o) + if p == Swapped(o) then {a} else {}
    ensures forall f :: a !in Refs(pte, f)
    ensures forall o :: a !in Holders(pte, o)
    ensures forall f :: Written(pte', f) <==> Written(pte, f) || (p.Present? && p.f == f && p.d)
  {
    forall f ensures Written(pte', f) <==> Written(pte, f) || (p.Present? && p.f == f && p.d) {
      if Written(pte, f) {
        var b :| b in pte && pte[b].Present? && pte[b].f == f && pte[b].d;
        assert pte'[b] == pte[b];
      }
      assert pte'[a] == p;
    }
  }

  // An entry is cleared.
  lemma ClearEntry(pte: map<Addr, Pte>, pte': map<Addr, Pte>, a: Addr)
    requires a in pte && pte' == pte - {a}
    ensures forall f :: Refs(pte, f) == Refs(pte', f) + if pte[a].Present? && pte[a].f == f then {a} else {}
    ensures forall o :: Holders(pte, o) == Holders(pte', o) + if pte[a] == Swapped(o) then {a} else {}
    ensures forall f :: a !in Refs(pte', f)
    ensures forall o :: a !in Holders(pte', o)
    ensures forall f :: Written(pte, f) <==> Written(pte', f) || (pte[a].Present? && pte[a].f == f && pte[a].d)
  {
    assert pte == pte'[a := pte[a]];
    PutEntry(pte', pte, a, pte[a]);
  }

  // ------------------------------------------------------------ lists

  lemma AppendOk(s: seq<Frame>, f: Frame)
    requires NoDup(s) && f !in s
    ensures NoDup(s + [f]) && forall g :: g in s + [f] <==> g in s || g == f
  {
  }

  // ------------------------------------------------------------ cache

  lemma OwnerIs(index: map<Frame, Slot>, memMap: map<Slot, nat>, f: Frame)
    requires CacheOk(index, memMap) && f in index
    ensures index[f] in index.Values && Owner(index, index[f]) == f
  {
  }

  // Dropping a frame from the cache frees its slot and no other.
  lemma Uncache(index: map<Frame, Slot>, index': map<Frame, Slot>, memMap: map<Slot, nat>, f: Frame)
    requires CacheOk(index, memMap) && f in index && index' == index - {f}
    ensures index'.Values == index.Values - {index[f]}
    ensures forall o :: o in index'.Values ==> Owner(index', o) == Owner(index, o)
  {
    forall o ensures o in index'.Values <==> o in index.Values && o != index[f] {
      if o in index.Values && o != index[f] {
        var g := Owner(index, o);
        assert g in index' && index'[g] == o;
      }
    }
  }

  lemma Encache(index: map<Frame, Slot>, index': map<Frame, Slot>, memMap: map<Slot, nat>, f: Frame, o: Slot)
    requires CacheOk(index, memMap) && f !in index && o !in index.Values && index' == index[f := o]
    ensures index'.Values == index.Values + {o}
    ensures Owner(index', o) == f
    ensures forall q :: q in index.Values ==> Owner(index', q) == Owner(index, q)
  {
    forall q ensures q in index'.Values <==> q in index.Values || q == o {
      if q in index.Values {
        var g := Owner(index, q);
        assert g in index' && index'[g] == q;
      }
      assert index'[f] == o;
    }
  }

  // ------------------------------------------------------------ framing

  // The memory depends on the page tables, the cache, the disk and the
  // contents of the frames in use.
  lemma MemorySame(s: State, s': State)
    requires s'.pte == s.pte && s'.index == s.index && s'.disk == s.disk && s'.data.Keys == s.data.Keys
    requires forall f :: f in s.data && (f in s.index || Refs(s.pte, f) != {}) ==> s'.data[f] == s.data[f]
    ensures Memory(s') == Memory(s)
  {
    forall a | a in s.pte
      ensures Readable(s, a) <==> Readable(s', a)
      ensures Readable(s, a) ==> View(s', a) == View(s, a)
    {
      if s.pte[a].Present? { assert a in Refs(s.pte, s.pte[a].f); }
    }
  }

  lemma CleanSame(s: State, s': State)
    requires CleanOk(s) && s'.pte == s.pte && s'.index == s.index && s'.disk == s.disk
    requires s.dirty <= s'.dirty + (s.dirty - s.index.Keys)
    requires s'.data.Keys == s.data.Keys && forall f :: f in s.data && f in s.index ==> s'.data[f] == s.data[f]
    ensures CleanOk(s')
  {
  }

  lemma UnusedFrame(s: State, pin: set<Frame>, f: Frame)
    requires RefsOk(s.ref, s.pte, pin) && FreeOk(s.ref, s.index, s.free) && f in s.free && f in s.ref
    ensures f in s.ref && s.ref[f] == 0 && f !in pin && Refs(s.pte, f) == {} && f !in s.index
  {
  }

  // A reference count goes up or down by one with the pin.
  lemma RefsPin(ref: map<Frame, nat>, pte: map<Addr, Pte>, pin: set<Frame>, f: Frame)
    requires RefsOk(ref, pte, pin) && f in ref && f !in pin
    ensures RefsOk(ref[f := ref[f] + 1], pte, pin + {f})
  {
  }

  lemma CountPut(pte: map<Addr, Pte>, a: Addr, p: Pte, f: Frame)
    requires a !in pte
    ensures |Refs(pte[a := p], f)| == |Refs(pte, f)| + if p.Present? && p.f == f then 1 else 0
    ensures |Holders(pte[a := p], f)| == |Holders(pte, f)| + if p == Swapped(f) then 1 else 0
  {
    PutEntry(pte, pte[a := p], a, p);
  }

  lemma CountClear(pte: map<Addr, Pte>, a: Addr, f: Frame)
    requires a in pte
    ensures |Refs(pte - {a}, f)| == |Refs(pte, f)| - if pte[a].Present? && pte[a].f == f then 1 else 0
    ensures |Holders(pte - {a}, f)| == |Holders(pte, f)| - if pte[a] == Swapped(f) then 1 else 0
  {
    ClearEntry(pte, pte - {a}, a);
  }

  lemma RefsLink(ref: map<Frame, nat>, pte: map<Addr, Pte>, pin: set<Frame>, a: Addr, p: Pte)
    requires RefsOk(ref, pte, pin) && a !in pte && p.Present? && p.f in pin
    ensures RefsOk(ref, pte[a := p], pin - {p.f})
  {
    hide Refs;
    forall f | f in ref ensures ref[f] == |Refs(pte[a := p], f)| + if f in pin - {p.f} then 1 else 0 {
      CountPut(pte, a, p, f);
    }
  }

  lemma RefsUnlink(ref: map<Frame, nat>, pte: map<Addr, Pte>, pin: set<Frame>, a: Addr)
    requires RefsOk(ref, pte, pin) && a in pte && pte[a].Present? && pte[a].f in ref
    ensures ref[pte[a].f] > 0
    ensures RefsOk(ref[pte[a].f := ref[pte[a].f] - 1], pte - {a}, pin)
  {
    hide Refs;
    forall f | f in ref
      ensures |Refs(pte - {a}, f)| == |Refs(pte, f)| - if pte[a].f == f then 1 else 0
    {
      CountClear(pte, a, f);
    }
  }

  lemma SlotsPresent(memMap: map<Slot, nat>, pte: map<Addr, Pte>, a: Addr)
    requires SlotsOk(memMap, pte)
    ensures a in pte && pte[a].Present? ==> SlotsOk(memMap, pte - {a})
    ensures a !in pte ==> forall f, w, x, d :: SlotsOk(memMap, pte[a := Present(f, w, x, d)])
  {
    hide Holders;
    forall o | o in memMap
      ensures a in pte && pte[a].Present? ==> |Holders(pte - {a}, o)| == |Holders(pte, o)|
      ensures a !in pte ==> forall f, w, x, d :: |Holders(pte[a := Present(f, w, x, d)], o)| == |Holders(pte, o)|
    {
      if a in pte {
        CountClear(pte, a, o);
      } else {
        forall f, w, x, d ensures |Holders(pte[a := Present(f, w, x, d)], o)| == |Holders(pte, o)| {
          CountPut(pte, a, Present(f, w, x, d), o);
        }
      }
    }
  }

  // One entry more, or one entry less, in the page tables.
  lemma MemoryPut(s: State, s': State, a: Addr)
    requires a !in s.pte && a in s'.pte && s' == s.(pte := s.pte[a := s'.pte[a]], memMap := s'.memMap)
    requires Readable(s', a)
    ensures Memory(s') == Memory(s)[a := View(s', a)]
  {
    forall b | b in s.pte
      ensures Readable(s, b) <==> Readable(s', b)
      ensures Readable(s, b) ==> View(s', b) == View(s, b)
    {
    }
  }

  lemma MemoryClear(s: State, s': State, a: Addr)
    requires s'.pte == s.pte - {a} && s'.index == s.index && s'.data == s.data && s'.disk == s.disk
    ensures Memory(s') == Memory(s) - {a}
  {
    forall b | b in s'.pte
      ensures Readable(s, b) <==> Readable(s', b)
      ensures Readable(s, b) ==> View(s', b) == View(s, b)
    {
    }
  }

  lemma ExclusiveClear(pte: map<Addr, Pte>, index: map<Frame, Slot>, memMap: map<Slot, nat>, a: Addr)
    requires ExclusiveOk(pte, index, memMap) && a in pte
    ensures ExclusiveOk(pte - {a}, index, memMap)
  {
    ClearEntry(pte, pte - {a}, a);
  }

  lemma CleanClear(s: State, s': State, a: Addr)
    requires CleanOk(s) && a in s.pte && s'.pte == s.pte - {a}
    requires s'.index == s.index && s'.data == s.data && s'.disk == s.disk
    requires forall f :: f in s.index && (f in s.dirty || (s.pte[a].Present? && s.pte[a].f == f && s.pte[a].d)) ==>
      f in s'.dirty
    ensures CleanOk(s')
  {
    ClearEntry(s.pte, s'.pte, a);
  }

  lemma AreaClear(pte: map<Addr, Pte>, area: map<Addr, Perm>, a: Addr)
    requires AreaOk(pte, area)
    ensures AreaOk(pte - {a}, area)
  {
  }

  // A flag outside the cache does not matter.
  lemma ListsHot(index: map<Frame, Slot>, hot: set<Frame>, hot': set<Frame>, active: seq<Frame>, inactive: seq<Frame>)
    requires ListsOk(index, hot, active, inactive)
    requires forall f :: f in index ==> (f in hot <==> f in hot')
    ensures ListsOk(index, hot', active, inactive)
  {
  }
}
