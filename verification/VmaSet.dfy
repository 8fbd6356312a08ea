/**
  The areas of an address space (mm_struct and its vma_structs): a list sorted
  by start, a red-black tree over the same areas once there are many, and a
  cache of the last area found.
 */
module VmaSet {
  import opened Sequences
  import opened RbShape
  import opened RedBlackTree
  import opened VmaSpec

  const RB_MIN_MAP_COUNT := 32
  const NULL: Ref := 0           // also the tree's nil node
  const HEAD: Ref := 1           // the tree's header node

  // The areas in list order.
  function Image(areas: map<Ref, Area>, list: seq<Ref>): (s: seq<Area>)
    ensures |s| == |list|
  {
    seq(|list|, i requires 0 <= i < |list| => AreaOf(areas, list[i]))
  }

  function AreaOf(areas: map<Ref, Area>, r: Ref): Area {
    if r in areas then areas[r] else Area(0, 0, Flags(false, false, false, false))
  }

  // The list, its areas and the cached area.
  ghost predicate Linked(areas: map<Ref, Area>, list: seq<Ref>, cache: Ref) {
    && (forall i :: 0 <= i < |list| ==> list[i] in areas && list[i] != NULL && list[i] != HEAD)
    && NoDup(list) && Layout(Image(areas, list))
    && (cache != NULL ==> cache in list)
  }

  // vma_compare.
  function ByStart(areas: map<Ref, Area>): (Ref, Ref) -> int {
    (x: Ref, y: Ref) => var a, b := StartOf(areas, x), StartOf(areas, y); if a < b then -1 else if a > b then 1 else 0
  }

  function StartOf(areas: map<Ref, Area>, r: Ref): nat { if r in areas then areas[r].start else 0 }

  // The position right behind `prev`, or the front.
  function Behind(list: seq<Ref>, prev: Ref): (k: nat)
    ensures k <= |list|
  {
    if prev == NULL || list == [] then 0 else if list[0] == prev then 1
    else var k := Behind(list[1..], prev); if k == 0 then 0 else 1 + k
  }

  lemma {:induction false} BehindIs(list: seq<Ref>, k: nat)
    requires NoDup(list) && k < |list| && forall i :: 0 <= i < |list| ==> list[i] != NULL
    ensures Behind(list, list[k]) == k + 1
  {
    if k > 0 {
      assert list[0] != list[k];
      assert list[1..][k - 1] == list[k];
      BehindIs(list[1..], k - 1);
    }
  }

  lemma ByStartSorted(areas: map<Ref, Area>, list: seq<Ref>, cache: Ref)
    requires Linked(areas, list, cache)
    ensures Preorder(ByStart(areas)) && Sorted(ByStart(areas), list)
  {
    forall i, j | 0 <= i < j < |list| ensures ByStart(areas)(list[i], list[j]) <= 0 {
      var s := Image(areas, list);
      assert s[i].end <= s[j].start && Good(s[i]);
      assert list[i] in list && list[j] in list;
    }
  }

  // The list with `v` at position `k`.
  function Put(list: seq<Ref>, k: nat, v: Ref): seq<Ref>
    requires k <= |list|
  {
    list[..k] + [v] + list[k..]
  }

  // Where insert_vma_struct puts an area: behind all that start no later.
  ghost predicate Splits(areas: map<Ref, Area>, list: seq<Ref>, k: nat, start: nat) {
    && k <= |list|
    && (forall i :: 0 <= i < k ==> StartOf(areas, list[i]) <= start)
    && (forall i :: k <= i < |list| ==> StartOf(areas, list[i]) > start)
  }

  lemma PutDistinct(list: seq<Ref>, k: nat, v: Ref, cache: Ref)
    requires NoDup(list) && v !in list && k <= |list|
    ensures NoDup(Put(list, k, v)) && (cache in list ==> cache in Put(list, k, v))
    ensures forall r :: r in Put(list, k, v) ==> r in list || r == v
  {
    var list' := Put(list, k, v);
    forall i, j | 0 <= i < j < |list'| ensures list'[i] != list'[j] {
      var i', j' := if i <= k then i else i - 1, if j <= k then j else j - 1;
      if i != k { assert list'[i] == list[i'] && list[i'] in list; }
      if j != k { assert list'[j] == list[j'] && list[j'] in list; }
    }
    if cache in list {
      var i :| 0 <= i < |list| && list[i] == cache;
      assert list'[if i < k then i else i + 1] == cache;
    }
  }

  lemma PutOk(areas: map<Ref, Area>, list: seq<Ref>, cache: Ref, k: nat, v: Ref)
    requires Linked(areas, list, cache) && v in areas && v !in list && v != NULL && v != HEAD
    requires Good(areas[v]) && Vacant(Image(areas, list), areas[v].start, areas[v].end)
    requires Splits(areas, list, k, areas[v].start)
    ensures Linked(areas, Put(list, k, v), cache)
    ensures Changed(Image(areas, list), Image(areas, Put(list, k, v)), areas[v].start, areas[v].end, Some(areas[v].flags))
  {
    hide Layout, Vacant, Changed, NoDup, Good, Image, Put, Lookup;
    PutDistinct(list, k, v, cache);
    PutImage(areas, list, k, v);
    var s := Image(areas, list);
    InsertOk(s[..k], areas[v], s[k..]);
    PutIn(areas, list, k, v);
  }

  lemma PutImage(areas: map<Ref, Area>, list: seq<Ref>, k: nat, v: Ref)
    requires v in areas && Splits(areas, list, k, areas[v].start) && forall i :: 0 <= i < |list| ==> list[i] in areas
    ensures var s := Image(areas, list); var p, q := s[..k], s[k..];
      && s == p + q && Image(areas, Put(list, k, v)) == p + [areas[v]] + q
      && (forall i :: 0 <= i < |p| ==> p[i].start <= areas[v].start)
      && (forall i :: 0 <= i < |q| ==> q[i].start > areas[v].start)
  {
    var s := Image(areas, list);
    forall i | 0 <= i < |list| ensures s[i].start == StartOf(areas, list[i]) {}
    assert Image(areas, Put(list, k, v)) == s[..k] + [areas[v]] + s[k..];
  }

  lemma PutIn(areas: map<Ref, Area>, list: seq<Ref>, k: nat, v: Ref)
    requires k <= |list| && v in areas && v != NULL && v != HEAD
    requires forall i :: 0 <= i < |list| ==> list[i] in areas && list[i] != NULL && list[i] != HEAD
    ensures var l := Put(list, k, v); forall i :: 0 <= i < |l| ==> l[i] in areas && l[i] != NULL && l[i] != HEAD
  {
  }

  lemma TakeOut(areas: map<Ref, Area>, list: seq<Ref>, cache: Ref, k: nat)
    requires Linked(areas, list, cache) && k < |list|
    ensures list[k] in areas && list[k] !in list[..k] + list[k + 1..]
    ensures var list' := list[..k] + list[k + 1..]; var cache' := if cache == list[k] then NULL else cache;
      && Linked(areas, list', cache')
      && Changed(Image(areas, list), Image(areas, list'), areas[list[k]].start, areas[list[k]].end, None)
  {
    hide Layout, Changed, NoDup, Image, Lookup;
    var s := Image(areas, list);
    OutImage(areas, list, k);
    OutDistinct(list, k, cache);
    OutIn(areas, list, k);
    RemoveOk(s[..k], areas[list[k]], s[k + 1..]);
  }

  lemma OutImage(areas: map<Ref, Area>, list: seq<Ref>, k: nat)
    requires k < |list| && list[k] in areas
    ensures var s := Image(areas, list);
      s == s[..k] + [areas[list[k]]] + s[k + 1..] && Image(areas, list[..k] + list[k + 1..]) == s[..k] + s[k + 1..]
  {
    var s := Image(areas, list);
    assert s[k] == areas[list[k]];
    assert Image(areas, list[..k] + list[k + 1..]) == s[..k] + s[k + 1..];
  }

  lemma OutDistinct(list: seq<Ref>, k: nat, cache: Ref)
    requires NoDup(list) && k < |list|
    ensures var l := list[..k] + list[k + 1..];
      NoDup(l) && list[k] !in l && (cache in list && cache != list[k] ==> cache in l)
  {
    var l := list[..k] + list[k + 1..];
    forall i: nat | i < |l| ensures l[i] == list[if i < k then i else i + 1] {}
    if cache in list && cache != list[k] {
      var i :| 0 <= i < |list| && list[i] == cache;
      assert l[if i < k then i else i - 1] == cache;
    }
  }

  lemma OutIn(areas: map<Ref, Area>, list: seq<Ref>, k: nat)
    requires k < |list| && forall i :: 0 <= i < |list| ==> list[i] in areas && list[i] != NULL && list[i] != HEAD
    ensures var l := list[..k] + list[k + 1..];
      forall i :: 0 <= i < |l| ==> l[i] in areas && l[i] != NULL && l[i] != HEAD
  {
  }

  // An area of the list changed in place.
  lemma ResizeImage(areas: map<Ref, Area>, list: seq<Ref>, cache: Ref, k: nat, v: Area)
    requires Linked(areas, list, cache) && k < |list| && Layout(Image(areas, list)[k := v])
    ensures Linked(areas[list[k] := v], list, cache) && Image(areas[list[k] := v], list) == Image(areas, list)[k := v]
  {
    assert list[k] in list;
    assert Image(areas[list[k] := v], list) == Image(areas, list)[k := v];
  }

  // An area outside the list changed.
  lemma OtherImage(areas: map<Ref, Area>, list: seq<Ref>, cache: Ref, r: Ref, v: Area)
    requires Linked(areas, list, cache) && r !in list
    ensures Linked(areas[r := v], list, cache) && Image(areas[r := v], list) == Image(areas, list)
  {
    assert Image(areas[r := v], list) == Image(areas, list);
  }

  // ------------------------------------------------- the descent

  function Rank(areas: map<Ref, Area>, addr: nat): Ref -> int {
    (r: Ref) => if r !in areas || areas[r].end <= addr then -1 else if areas[r].start <= addr then 0 else 1
  }

  lemma RankMonotone(areas: map<Ref, Area>, list: seq<Ref>, cache: Ref, addr: nat)
    requires Linked(areas, list, cache)
    ensures Monotone(Rank(areas, addr), list)
  {
    forall i, j | 0 <= i < j < |list|
      ensures (Rank(areas, addr)(list[i]) > 0 ==> Rank(areas, addr)(list[j]) > 0)
      ensures (Rank(areas, addr)(list[j]) < 0 ==> Rank(areas, addr)(list[i]) < 0)
    {
      var s := Image(areas, list);
      assert list[i] in list && list[j] in list && s[i].end <= s[j].start && Good(s[i]) && Good(s[j]);
    }
  }

  // Where the descent of find_vma_rb ends, the answer is at hand.
  lemma DescentEnds(areas: map<Ref, Area>, list: seq<Ref>, cache: Ref, addr: nat, tree: Tree, c: Ctx, t: Tree)
    requires Linked(areas, list, cache) && InOrder(tree) == list && SearchInv(Rank(areas, addr), tree, c, t)
    requires t.Bin? ==> Rank(areas, addr)(t.n) == 0
    ensures var k := FirstAbove(Image(areas, list), addr);
      (if t.Bin? then t.n else FirstOf(After(c), NULL)) == if k < |list| then list[k] else NULL
  {
    hide InOrder, Before, After, Monotone, FirstAbove, Layout, Plug;
    PlugInOrder(c, t);
    if t.Bin? {
      InOrderBin(t);
      Held(areas, list, cache, addr, Before(c) + InOrder(t.left), t.n, InOrder(t.right) + After(c));
    } else {
      EmptyInOrder(t);
      Between(areas, list, cache, addr, Before(c), After(c));
    }
  }

  lemma Held(areas: map<Ref, Area>, list: seq<Ref>, cache: Ref, addr: nat, a: seq<Ref>, n: Ref, b: seq<Ref>)
    requires Linked(areas, list, cache) && list == a + [n] + b && Rank(areas, addr)(n) == 0
    ensures FirstAbove(Image(areas, list), addr) == |a| < |list| && list[|a|] == n
  {
    assert list[|a|] in list;
    HolderIsFirst(Image(areas, list), addr, |a|);
  }

  lemma Between(areas: map<Ref, Area>, list: seq<Ref>, cache: Ref, addr: nat, a: seq<Ref>, b: seq<Ref>)
    requires Linked(areas, list, cache) && list == a + b
    requires forall n :: n in a ==> Rank(areas, addr)(n) < 0
    requires forall n :: n in b ==> Rank(areas, addr)(n) > 0
    ensures FirstAbove(Image(areas, list), addr) == |a| <= |list|
    ensures FirstOf(b, NULL) == if |a| < |list| then list[|a|] else NULL
  {
    hide Layout;
    var s := Image(areas, list);
    forall j | 0 <= j < |a| ensures s[j].end <= addr { assert list[j] == a[j] && a[j] in a && list[j] in list; }
    if b != [] { assert list[|a|] == b[0] && b[0] in b && list[|a|] in list; }
    FirstAboveIs(s, addr, |a|);
  }

  // ------------------------------------------------- tree and list together

  // insert_vma_rb: the new area's predecessor tells its place in the list.
  method InsertRb(t: RbTree, areas: map<Ref, Area>, v: Ref, ghost list: seq<Ref>) returns (prev: Ref, ghost k: nat)
    requires t.Valid() && t.nil == NULL && t.root == HEAD && InOrder(t.tree) == list
    requires Preorder(ByStart(areas)) && Sorted(ByStart(areas), list)
    requires v in areas && v !in list && v != NULL && v != HEAD
    modifies t
    ensures t.Valid() && k <= |list| && InOrder(t.tree) == Put(list, k, v)
    ensures Parts(ByStart(areas), list[..k], v, list[k..])
    ensures prev == if k > 0 then list[k - 1] else NULL
  {
    hide InOrder, Nodes, Sorted, Preorder, Parts, ByStart, Focus, RedBlack;
    t.Rekey(ByStart(areas));
    InOrderNodes(t.tree);
    t.Adopt(v);
    k := t.Insert(v);
    InOrderNodes(t.tree);
    assert Put(list, k, v)[k] == v;
    ghost var j;
    prev, j := t.Prev(v);
    PutIndex(list, k, v, j);
  }

  // rb_delete of the area at position `k`.
  method DeleteRb(t: RbTree, v: Ref, ghost list: seq<Ref>, ghost k: nat)
    requires t.Valid() && InOrder(t.tree) == list && NoDup(list) && k < |list| && list[k] == v
    modifies t
    ensures t.Valid() && InOrder(t.tree) == list[..k] + list[k + 1..]
  {
    hide InOrder, Nodes, Sorted, Preorder, Focus, RedBlack, NoDup;
    InOrderNodes(t.tree);
    ghost var j := t.Delete(v);
    SameIndex(list, k, j);
  }

  // The tree over a whole list, area by area.
  method BuildTree(areas: map<Ref, Area>, list: seq<Ref>) returns (t: RbTree)
    requires Preorder(ByStart(areas)) && Ascending(areas, list) && NoDup(list)
    requires forall i :: 0 <= i < |list| ==> list[i] != NULL && list[i] != HEAD && list[i] in areas
    ensures fresh(t) && t.Valid() && t.nil == NULL && t.root == HEAD && InOrder(t.tree) == list
  {
    hide Preorder, ByStart, InOrder, Parts, Ascending, Nodes, Focus, RedBlack, Sorted;
    t := new RbTree(ByStart(areas), NULL, HEAD);
    var i := 0;
    while i < |list|
      invariant i <= |list| && fresh(t) && t.Valid() && t.nil == NULL && t.root == HEAD
      invariant InOrder(t.tree) == list[..i] && t.compare == ByStart(areas)
    {
      InOrderNodes(t.tree);
      t.Adopt(list[i]);
      ghost var k := t.Insert(list[i]);
      LastPart(areas, list, i, k);
      assert list[..i + 1] == list[..i] + [list[i]] + [];
      i := i + 1;
    }
    assert list[..i] == list;
  }

  // ------------------------------------------------- the class

  // 0, -E_INVAL and -E_NO_MEM.
  datatype Ret = Done | Inval | NoMem

  // What kmalloc will give: an area, and whether a tree.
  datatype Memory = Memory(area: Option<Ref>, tree: bool)

  ghost predicate Usable(mem: Memory, areas: map<Ref, Area>) {
    mem.area == None || (mem.area.value !in areas && mem.area.value != NULL && mem.area.value != HEAD)
  }

  // VM_READ | VM_WRITE.
  function HeapFlags(): Flags { Flags(true, true, false, false) }

  function RangeEnd(addr: nat, len: nat): nat { RoundUp((addr + len) % WORD) }

  class Mm {
    var areas: map<Ref, Area>
    var list: seq<Ref>
    var tree: RbTree?
    var cache: Ref
    var mapCount: nat

    ghost predicate Valid()
      reads this, tree
    {
      && Linked(areas, list, cache) && mapCount == |list|
      && (tree != null ==> tree.Valid() && tree.nil == NULL && tree.root == HEAD && InOrder(tree.tree) == list)
    }

    lemma Facts()
      requires Valid()
      ensures Linked(areas, list, cache)
    {
    }

    ghost function Areas(): seq<Area>
      reads this
    {
      Image(areas, list)
    }

    constructor ()
      ensures Valid() && Areas() == [] && tree == null
    {
      areas, list, tree, cache, mapCount := map[], [], null, NULL, 0;
    }

    // ------------------------------------------------------- searching

    method FindRb(addr: nat) returns (r: Ref)
      requires Valid() && tree != null
      ensures var k := FirstAbove(Areas(), addr); r == if k < |list| then list[k] else NULL
    {
      hide Focus, TreeAt, CtxAt, InOrder, Before, Monotone, Linked, FirstAbove;
      ghost var rank := Rank(areas, addr);
      RankMonotone(areas, list, cache, addr);
      Look(tree.heap, NULL, HEAD, Top, tree.tree);
      var node := tree.heap[HEAD].left;
      r := NULL;
      ghost var c, t := Top, tree.tree;
      SearchStart(rank, tree.tree);
      while node != NULL
        invariant Focus(tree.heap, NULL, HEAD, c, t) && node == RefOf(t, NULL)
        invariant SearchInv(rank, tree.tree, c, t) && r == FirstOf(After(c), NULL)
        decreases t
      {
        Look(tree.heap, NULL, HEAD, c, t);
        NodeArea(areas, list, cache, tree.tree, c, t);
        var d;
        if areas[node].end > addr {
          r := node;
          if areas[node].start <= addr {
            DescentEnds(areas, list, cache, addr, tree.tree, c, t);
            return;
          }
          d := Left;
        } else {
          d := Right;
        }
        SearchStep(rank, tree.tree, c, t, d);
        node := tree.heap[node].Child(d);
        c, t := Hole(d, t.n, t.red, Kid(t, d.Opp()), c), Kid(t, d);
        Up(tree.heap, NULL, HEAD, c, t);
      }
      Look(tree.heap, NULL, HEAD, c, t);
      DescentEnds(areas, list, cache, addr, tree.tree, c, t);
    }

    method FindVma(addr: nat) returns (r: Ref)
      requires Valid()
      modifies this`cache
      ensures Valid() && cache == if r != NULL then r else old(cache)
      ensures var k := FirstAbove(Areas(), addr); r == if k < |list| then list[k] else NULL
    {
      if cache != NULL {
        CacheHit(areas, list, cache, addr);
      }
      FoundCache(areas, list, cache, addr);
      hide InOrder, Linked, RbTree.Valid, FirstAbove, Image;
      r := cache;
      if !(r != NULL && areas[r].start <= addr && areas[r].end > addr) {
        if tree != null {
          r := FindRb(addr);
        } else {
          r := FindList(addr);
        }
      }
      if r != NULL {
        cache := r;
      }
    }

    method FindList(addr: nat) returns (r: Ref)
      requires Valid()
      ensures var k := FirstAbove(Areas(), addr); r == if k < |list| then list[k] else NULL
    {
      var i := 0;
      while i < |list|
        invariant i <= |list| && forall j :: 0 <= j < i ==> Areas()[j].end <= addr
      {
        assert list[i] in list;
        if addr < areas[list[i]].end {
          FirstAboveIs(Areas(), addr, i);
          return list[i];
        }
        i := i + 1;
      }
      FirstAboveIs(Areas(), addr, i);
      r := NULL;
    }

    // ------------------------------------------------------- inserting and removing

    method PlaceInList(v: Ref) returns (k: nat)
      requires Valid() && v in areas
      ensures k <= |list| && Splits(areas, list, k, areas[v].start)
    {
      k := 0;
      while k < |list| && areas[list[k]].start <= areas[v].start
        invariant k <= |list| && forall i :: 0 <= i < k ==> StartOf(areas, list[i]) <= areas[v].start
        invariant forall r :: r in list ==> r in areas
      {
        assert list[k] in list;
        k := k + 1;
      }
      StartsAscend(areas, list, cache);
      hide Linked;
      forall i | k <= i < |list| ensures StartOf(areas, list[i]) > areas[v].start {
        assert list[k] in list;
      }
    }

    // insert_vma_struct.  `mem`: whether a tree can be allocated.
    method InsertVma(v: Ref, mem: bool)
      requires Valid() && v in areas && v !in list && v != NULL && v != HEAD
      requires Good(areas[v]) && Vacant(Areas(), areas[v].start, areas[v].end)
      modifies this`list, this`mapCount, this`tree, tree
      ensures Valid() && (tree == old(tree) || fresh(tree)) && |list| == |old(list)| + 1
      ensures Changed(old(Areas()), Areas(), areas[v].start, areas[v].end, Some(areas[v].flags))
      ensures forall r :: r in list <==> r in old(list) || r == v
    {
      hide Linked, Changed, Vacant, Good, InOrder, RbTree.Valid, Behind, Splits, Parts, Image, Put, Preorder, Sorted;
      var k;
      if tree != null {
        ByStartSorted(areas, list, cache);
        var prev;
        ghost var i;
        prev, i := InsertRb(tree, areas, v, list);
        PartsSplit(areas, list, i, v);
        BehindAt(areas, list, cache, i);
        k := Behind(list, prev);
      } else {
        k := PlaceInList(v);
      }
      PutOk(areas, list, cache, k, v);
      PutMembers(list, k, v);
      list := Put(list, k, v);
      mapCount := mapCount + 1;
      if tree == null && mapCount >= RB_MIN_MAP_COUNT && mem {
        BuildFacts(areas, list, cache);
        tree := BuildTree(areas, list);
      }
    }

    // remove_vma_struct of the area at position `i`.
    method RemoveVma(v: Ref, ghost i: nat)
      requires Valid() && i < |list| && list[i] == v
      modifies this`list, this`mapCount, this`cache, tree
      ensures Valid() && list == old(list)[..i] + old(list)[i + 1..]
      ensures v in areas && Changed(old(Areas()), Areas(), areas[v].start, areas[v].end, None)
      ensures cache == if old(cache) == v then NULL else old(cache)
    {
      hide Linked, Changed, InOrder, RbTree.Valid, Behind, Image, NoDup;
      PlainList(areas, list, cache);
      BehindNext(areas, list, cache, i);
      TakeOut(areas, list, cache, i);
      if tree != null {
        DeleteRb(tree, v, list, i);
      }
      var k := Behind(list, v) - 1;
      list := list[..k] + list[k + 1..];
      if v == cache { cache := NULL; }
      mapCount := mapCount - 1;
    }

    // ------------------------------------------------------- ranges

    // vma_create with the memory that kmalloc gave, if any.
    method VmaCreate(r: Ref, v: Area)
      requires Valid() && r !in areas && r != NULL && r != HEAD
      modifies this`areas
      ensures Valid() && areas == old(areas)[r := v] && r !in list && Areas() == old(Areas())
    {
      OtherImage(areas, list, cache, r, v);
      areas := areas[r := v];
    }

    // mm_map.  `mem`: what the allocator gives for the area and the tree.
    method Map(addr: nat, len: nat, flags: Flags, mem: Memory) returns (ret: Ret)
      requires Valid() && Usable(mem, areas)
      modifies this, tree
      ensures Valid()
      ensures ret == Inval <==>
        !(UserAccess(RoundDown(addr), RangeEnd(addr, len)) && Vacant(old(Areas()), RoundDown(addr), RangeEnd(addr, len)))
      ensures ret != Inval ==> (ret == NoMem <==> mem.area == None)
      ensures if ret == Done then Changed(old(Areas()), Areas(), RoundDown(addr), RangeEnd(addr, len), Some(flags))
          else Areas() == old(Areas())
    {
      hide RoundDown, RoundUp, RangeEnd, Linked, Changed, RbTree.Valid, FirstAbove, Vacant, Layout, InOrder, Image,
        Lookup;
      var start, end := RoundDown(addr), RangeEnd(addr, len);
      RangeAligned(addr, len);
      if !UserAccess(start, end) { return Inval; }
      var vma := FindVma(start);
      LinkedAt(areas, list, cache, FirstAbove(Areas(), start));
      VacantIff(Areas(), start, end);
      if vma != NULL && end > areas[vma].start { return Inval; }
      if mem.area == None { return NoMem; }
      VmaCreate(mem.area.value, Area(start, end, flags));
      InsertVma(mem.area.value, mem.tree);
      ret := Done;
    }

    // mm_unmap.  `cleared` are the ranges whose page table entries it clears.
    method Unmap(addr: nat, len: nat, mem: Memory) returns (ret: Ret, cleared: seq<(nat, nat)>)
      requires Valid() && Usable(mem, areas)
      modifies this, tree
      ensures Valid()
      ensures ret == Inval <==> !UserAccess(RoundDown(addr), RangeEnd(addr, len))
      ensures ret != Inval ==>
        (ret == NoMem <==> mem.area == None && Surrounded(old(Areas()), RoundDown(addr), RangeEnd(addr, len)))
      ensures ret != Done ==> Areas() == old(Areas()) && cleared == []
      ensures ret == Done ==> Changed(old(Areas()), Areas(), RoundDown(addr), RangeEnd(addr, len), None)
      ensures ret == Done ==> Swept(old(Areas()), cleared, RoundDown(addr), RoundDown(addr), RangeEnd(addr, len))
      ensures forall r :: r in areas ==> r in old(areas) || mem.area == Some(r)
      ensures tree == old(tree) || fresh(tree)
    {
      hide RoundDown, RoundUp, RangeEnd, Linked, Changed, RbTree.Valid, FirstAbove, Vacant, Layout, InOrder, Image,
        Lookup, Swept, Surrounded;
      var start, end := RoundDown(addr), RangeEnd(addr, len);
      RangeAligned(addr, len);
      cleared := [];
      if !UserAccess(start, end) { return Inval, []; }
      ghost var i := FirstAbove(Areas(), start);
      var vma := FindVma(start);
      LinkedAt(areas, list, cache, i);
      NothingThere(Areas(), start, end);
      SurroundedFirst(Areas(), start, end);
      if vma == NULL || end <= areas[vma].start { return Done, []; }
      if areas[vma].start < start && end < areas[vma].end {
        if mem.area == None { return NoMem, []; }
        Split(vma, mem, start, end, i);
        return Done, [(start, end)];
      }
      TakingStart(areas, list, cache, i, start, end);
      cleared := Subtract(vma, start, end, mem.tree, i, list, Areas());
      ret := Done;
    }

    // The range lies inside one area: it becomes two.
    method Split(vma: Ref, mem: Memory, start: nat, end: nat, ghost i: nat)
      requires Valid() && Usable(mem, areas) && mem.area != None && start % PGSIZE == 0 && end % PGSIZE == 0
      requires start < end
      requires i < |list| && list[i] == vma && areas[vma].start < start && end < areas[vma].end
      modifies this, tree
      ensures Valid() && Changed(old(Areas()), Areas(), start, end, None)
      ensures Swept(old(Areas()), [(start, end)], start, start, end)
      ensures forall r :: r in areas ==> r in old(areas) || mem.area == Some(r)
      ensures tree == old(tree) || fresh(tree)
    {
      ghost var s := Areas();
      LinkedAt(areas, list, cache, i);
      SplitFacts(s, i, start, end);
      var v, r := areas[vma], mem.area.value;
      hide InOrder, Lookup, Linked, Changed, RbTree.Valid, Vacant, Layout, Swept;
      VmaCreate(r, v.(end := start));
      ResizeImage(areas, list, cache, i, v.(start := end));
      areas := areas[vma := v.(start := end)];
      ghost var t := Areas();
      InsertVma(r, mem.tree);
      SplitEnd(s, t, Areas(), i, start, end);
    }

    // Otherwise every area the range meets is taken out, and what remains of
    // the outer two is put back.
    method Subtract(first: Ref, start: nat, end: nat, mem: bool, ghost i: nat, ghost list0: seq<Ref>, ghost s: seq<Area>)
      returns (cleared: seq<(nat, nat)>)
      requires Valid() && Taking(areas, list, list0, s, Areas(), i, i, start, end) && Starts(list0, s, i, first, end)
      modifies this, tree
      ensures Valid() && Changed(s, Areas(), start, end, None) && Swept(s, cleared, start, start, end)
      ensures areas.Keys <= old(areas.Keys) && (tree == old(tree) || fresh(tree))
    {
      hide Valid, Areas, Swept, Partly, Slice, Taking, Changed;
      var freed := TakeOutAll(first, start, end, i, list0, s);
      ghost var k := i + |freed|;
      cleared := [];
      PartlyStart(areas, list, list0, s, Areas(), i, k, start, end);
      while freed != []
        invariant Valid() && k == i + |freed| && Slice(freed, list0, i, k)
        invariant Partly(areas, list, list0, s, Areas(), cleared, i, k, start, end)
        invariant areas.Keys <= old(areas.Keys) && (tree == old(tree) || fresh(tree))
      {
        var v := freed[|freed| - 1];
        SliceLess(freed, list0, i, k);
        cleared := PutBackLast(v, start, end, mem, cleared, s, list0, i, k);
        freed, k := freed[..|freed| - 1], k - 1;
      }
      PartlyEnd(areas, list, list0, s, Areas(), cleared, i, start, end);
    }

    // The second loop's body.
    method PutBackLast(v: Ref, start: nat, end: nat, mem: bool, cleared0: seq<(nat, nat)>, ghost s: seq<Area>,
                       ghost list0: seq<Ref>, ghost i: nat, ghost k: nat)
      returns (cleared: seq<(nat, nat)>)
      requires Valid() && i < k <= |list0| && v == list0[k - 1]
      requires Partly(areas, list, list0, s, Areas(), cleared0, i, k, start, end)
      modifies this, tree
      ensures Valid() && (tree == old(tree) || fresh(tree))
      ensures Partly(areas, list, list0, s, Areas(), cleared, i, k - 1, start, end) && areas.Keys <= old(areas.Keys)
    {
      hide InOrder, Lookup, Linked, Changed, RbTree.Valid, FirstAbove, Vacant, Layout, Swept, OutOfList, Lacking, Rest,
        CutOf, Met, Reach, NoDup, Good;
      ghost var areas0, t := areas, Areas();
      OutAt(areas, list, list0, s, i, k);
      MetStep(s, t, cleared0, i, k, start, end);
      cleared := cleared0 + [CutOf(areas[v], start, end)];
      ghost var list1 := list;
      PutBack(v, start, end, mem);
      MetBack(s, t, Areas(), i, k, start, end);
      OutStep(areas0, list1, areas, list, list0, s, i, k);
    }

    // Trim and insert again, or destroy.
    method PutBack(v: Ref, start: nat, end: nat, mem: bool)
      requires Valid() && v in areas && v !in list && v != NULL && v != HEAD
      requires var p := Rest(areas[v], start, end);
        p != None ==> Good(p.value) && Vacant(Areas(), p.value.start, p.value.end)
      modifies this, tree
      ensures Valid() && (tree == old(tree) || fresh(tree))
      ensures var p := old(Rest(areas[v], start, end));
        if p == None then Areas() == old(Areas()) else Changed(old(Areas()), Areas(), p.value.start, p.value.end, Some(p.value.flags))
      ensures forall r :: r in list ==> r in old(list) || r == v
      ensures forall r :: r in old(areas) && r != v ==> r in areas && areas[r] == old(areas)[r]
      ensures areas.Keys <= old(areas.Keys)
    {
      hide InOrder, Lookup, Linked, Changed, RbTree.Valid, Vacant, Layout;
      var p := Rest(areas[v], start, end);
      if p == None {
        DestroyImage(areas, list, cache, v);
        areas := areas - {v};
      } else {
        OtherImage(areas, list, cache, v, p.value);
        areas := areas[v := p.value];
        InsertVma(v, mem);
      }
    }

    // The first loop: areas leave from position `i` on.
    method TakeOutAll(first: Ref, start: nat, end: nat, ghost i: nat, ghost list0: seq<Ref>, ghost s: seq<Area>)
      returns (freed: seq<Ref>)
      requires Valid() && Taking(areas, list, list0, s, Areas(), i, i, start, end) && Starts(list0, s, i, first, end)
      modifies this`list, this`mapCount, this`cache, tree
      ensures Valid() && freed != [] && Slice(freed, list0, i, i + |freed|)
      ensures Taking(areas, list, list0, s, Areas(), i, i + |freed|, start, end) && Stops(s, i + |freed|, end)
    {
      hide Valid, Changed, Behind, Taking, Slice, Areas;
      TakingAt(areas, list, list0, s, Areas(), i, i, start, end);
      ghost var k := i;
      var vma, more := first, true;
      freed := [];
      SliceNone(list0, i);
      while more && areas[vma].start < end
        invariant Valid() && i <= k <= |list0| == |s| && |freed| == k - i && Slice(freed, list0, i, k)
        invariant (k == i ==> more && vma == first)
        invariant more == (k < |list0|) && (more ==> vma == list0[k] && vma in areas && s[k] == areas[vma])
        invariant Taking(areas, list, list0, s, Areas(), i, k, start, end)
        decreases |list0| - k
      {
        TakingAt(areas, list, list0, s, Areas(), i, k, start, end);
        BehindNext(areas, list, cache, i) by { Facts(); }
        var next := Behind(list, vma);
        var after := if next < |list| then list[next] else NULL;
        ghost var t, list1 := Areas(), list;
        RemoveVma(vma, i);
        TakingStep(areas, list1, list, list0, s, t, Areas(), i, k, start, end);
        SliceMore(freed, list0, i, k);
        freed, k := freed + [vma], k + 1;
        if after == NULL { more := false; } else { vma := after; }
      }
    }

    // mm_brk.  `mem` serves the unmapping, `mem2` the new area.
    method Brk(addr: nat, len: nat, mem: Memory, mem2: Memory) returns (ret: Ret)
      requires Valid() && Usable(mem, areas) && Usable(mem2, areas) && (mem.area != None ==> mem2.area != mem.area)
      modifies this, tree
      ensures Valid()
      ensures ret == Inval <==> !UserAccess(RoundDown(addr), RangeEnd(addr, len))
      ensures ret == Inval ==> Areas() == old(Areas())
      ensures ret == NoMem ==>
        Areas() == old(Areas()) || Changed(old(Areas()), Areas(), RoundDown(addr), RangeEnd(addr, len), None)
      ensures ret == NoMem ==> mem.area == None || mem2.area == None
      ensures ret == Done ==> Changed(old(Areas()), Areas(), RoundDown(addr), RangeEnd(addr, len), Some(HeapFlags()))
    {
      hide Valid, Areas, RoundDown, RoundUp, RangeEnd, Changed, Swept, Layout, Lookup;
      var start, end := RoundDown(addr), RangeEnd(addr, len);
      if !UserAccess(start, end) { return Inval; }
      AlignedRange(addr, len);
      var cleared;
      ret, cleared := Unmap(start, end - start, mem);
      if ret != Done { return; }
      ret := BrkFill(start, end, mem2, old(Areas()));
    }

    // The range is vacant: extend the area below it, or create one.
    method BrkFill(start: nat, end: nat, mem: Memory, ghost s: seq<Area>) returns (ret: Ret)
      requires Valid() && Usable(mem, areas) && UserAccess(start, end) && start % PGSIZE == 0 && end % PGSIZE == 0
      requires Changed(s, Areas(), start, end, None)
      modifies this, tree
      ensures Valid() && (ret == Done || (ret == NoMem && mem.area == None))
      ensures Changed(s, Areas(), start, end, if ret == Done then Some(HeapFlags()) else None)
    {
      hide InOrder, RbTree.Valid, Linked, Changed, Vacant, Layout, Lookup, FirstAbove, Image;
      ghost var t := Areas();
      ChangedVacant(s, t, start, end);
      ghost var k := FirstAbove(t, start - 1);
      var vma := FindVma(start - 1);
      LinkedAt(areas, list, cache, k);
      if vma != NULL && areas[vma].end == start && areas[vma].flags == HeapFlags() {
        ExtendOk(t, k, end) by { GoodAt(t, k); }
        ResizeImage(areas, list, cache, k, areas[vma].(end := end));
        areas := areas[vma := areas[vma].(end := end)];
        ChangedTwice(s, t, Areas(), start, end, HeapFlags());
        return Done;
      }
      if mem.area == None { return NoMem; }
      VmaCreate(mem.area.value, Area(start, end, HeapFlags()));
      InsertVma(mem.area.value, mem.tree);
      ChangedTwice(s, t, Areas(), start, end, HeapFlags());
      ret := Done;
    }

    // dup_mmap: last to first, each area from memory that may run out, and
    // after each a copy_range over its addresses (`copied`), of which the
    // first `copies` succeed.
    method DupFrom(from: Mm, refs: seq<Ref>, mem: bool, copies: nat) returns (ok: bool, copied: seq<(nat, nat)>)
      requires Valid() && list == [] && from.Valid() && from != this && (tree == null || tree != from.tree)
      requires FreshRefs(refs, 0, areas)
      modifies this, tree
      ensures Valid() && from.Valid() && from.Areas() == old(from.Areas())
      ensures ok <==> |refs| >= |from.Areas()| && copies >= |from.Areas()|
      ensures |copied| == (if ok then |from.Areas()| else if |refs| <= copies then |refs|
          else copies + 1) <= |from.Areas()|
      ensures LastRanges(from.Areas(), copied)
      ensures SameMap(Areas(), from.Areas()[|from.Areas()| - |copied|..])
      ensures ok ==> forall a: nat :: Lookup(Areas(), a) == Lookup(from.Areas(), a)
    {
      hide InOrder, RbTree.Valid, Linked, Layout, Lookup, Image, Good, FreshRefs;
      ghost var s := from.Areas();
      var i: nat := |from.list|;
      NoAreas(areas, list, s);
      copied := [];
      while i > 0
        invariant i <= |from.list| && Valid() && from.Valid() && from.Areas() == s
        invariant |s| == |from.list| == old(|from.list|) && |s| - i <= |refs|
        invariant (tree == old(tree) || fresh(tree)) && FreshRefs(refs, |s| - i, areas) && SameMap(Areas(), s[i..])
        invariant |copied| == |s| - i <= copies && LastRanges(s, copied)
      {
        if |refs| == |from.list| - i { return false, copied; }
        i := i - 1;
        var r := refs[|from.list| - 1 - i];
        LinkedAt(from.areas, from.list, from.cache, i);
        FreshAt(refs, |s| - 1 - i, areas, from.areas[from.list[i]]);
        VmaCreate(r, from.areas[from.list[i]]);
        DupVacant(s, i, Areas());
        ghost var t := Areas();
        InsertVma(r, mem);
        DupMore(s, i, t, Areas());
        copied := copied + [(from.areas[from.list[i]].start, from.areas[from.list[i]].end)];
        if |copied| > copies { return false, copied; }
      }
      assert s[0..] == s;
      ok := true;
    }

    // ------------------------------------------------------- questions

    method UserMemCheck(addr: nat, len: nat, write: bool) returns (ok: bool)
      requires Valid()
      modifies this`cache
      ensures Valid()
      ensures ok <==>
        UserAccess(addr, (addr + len) % WORD) && forall a :: addr <= a < (addr + len) % WORD ==>
            Allowed(Areas(), a, write)
    {
      hide Linked, Layout, Allowed, FirstAbove, Image, InOrder, RbTree.Valid;
      var end := (addr + len) % WORD;
      if !UserAccess(addr, end) { return false; }
      var start := addr;
      while start < end
        invariant Valid() && addr <= start && forall a :: addr <= a < start && a < end ==> Allowed(Areas(), a, write)
        decreases if start < end then end - start else 0
      {
        ghost var s, k := Areas(), FirstAbove(Areas(), start);
        var vma := FindVma(start);
        LinkedAt(areas, list, cache, k);
        AllowedFirst(s, start, write);
        if vma == NULL || start < areas[vma].start { return false; }
        if !(if write then areas[vma].flags.write else areas[vma].flags.read) { return false; }
        if write && areas[vma].flags.stack && start < areas[vma].start + PGSIZE { return false; }
        forall a | start <= a < areas[vma].end ensures Allowed(s, a, write) { AllowedOn(s, k, start, a, write); }
        start := areas[vma].end;
      }
      ok := true;
    }

    method GetUnmappedArea(len: nat) returns (start: nat)
      requires Valid()
      ensures start != 0 ==>
        len > 0 && FreeRange(Areas(), start, len) && forall t: nat :: FreeRange(Areas(), t, len) ==> t <= start
      ensures start == 0 && len > 0 ==> forall t: nat :: !FreeRange(Areas(), t, len)
    {
      hide Linked, Layout, Above, Image, InOrder, RbTree.Valid;
      if len == 0 || len > USERTOP { return 0; }
      start := USERTOP - len;
      ghost var s := Areas();
      var i: nat := |list|;
      AboveStart(s, len);
      while i > 0
        invariant i <= |list| && Above(s, i, start, len)
      {
        i := i - 1;
        LinkedAt(areas, list, cache, i);
        GoodAt(s, i);
        if start >= areas[list[i]].end {
          AboveEnds(s, i + 1, start, len);
          return;
        }
        if start + len > areas[list[i]].start {
          AboveDown(s, i, start, len);
          if len >= areas[list[i]].start { return 0; }
          start := areas[list[i]].start - len;
        } else {
          AboveSame(s, i, start, len);
        }
      }
      LinkedAt(areas, list, cache, 0);
      if start >= USERBASE { AboveEnds(s, 0, start, len); } else { AboveLow(s, 0, start, len); start := 0; }
    }
  }

  // user_mem_check: without an address space, the question is whether the
  // range is kernel memory.
  method UserMemCheck(mm: Mm?, addr: nat, len: nat, write: bool) returns (ok: bool)
    requires addr < WORD && len < WORD && (mm != null ==> mm.Valid())
    modifies (if mm == null then {} else {mm})`cache
    ensures mm == null ==> (ok <==> KERNBASE <= addr && 0 < len && addr + len <= KERNTOP)
    ensures mm != null ==> mm.Valid()
    ensures mm != null ==>
      (ok <==> USERBASE <= addr && 0 < len && addr + len <= USERTOP && forall a :: addr <= a < addr + len ==>
          Allowed(mm.Areas(), a, write))
  {
    if mm != null {
      ok := mm.UserMemCheck(addr, len, write);
    } else {
      ok := KernAccess(addr, (addr + len) % WORD);
    }
  }

  // ------------------------------------------------- lists

  lemma PlainList(areas: map<Ref, Area>, list: seq<Ref>, cache: Ref)
    requires Linked(areas, list, cache)
    ensures NoDup(list) && forall i :: 0 <= i < |list| ==> list[i] != NULL && list[i] != HEAD && list[i] in areas
  {
    forall i | 0 <= i < |list|
      ensures list[i] != NULL && list[i] != HEAD && list[i] in areas { assert list[i] in list; }
  }

  lemma SameIndex(list: seq<Ref>, i: nat, j: nat)
    requires NoDup(list) && i < |list| && j < |list| && list[i] == list[j]
    ensures i == j
  {
  }

  lemma PutIndex(list: seq<Ref>, i: nat, v: Ref, j: nat)
    requires i <= |list| && v !in list && j <= |list| && Put(list, i, v)[j] == v
    ensures j == i
  {
    forall m | 0 <= m <= |list| && m != i ensures Put(list, i, v)[m] != v {
      assert list[if m < i then m else m - 1] in list;
    }
  }

  lemma PutMembers(list: seq<Ref>, k: nat, v: Ref)
    requires k <= |list|
    ensures |Put(list, k, v)| == |list| + 1 && forall r :: r in Put(list, k, v) <==> r in list || r == v
  {
    assert list == list[..k] + list[k..];
  }

  lemma PartsSplit(areas: map<Ref, Area>, list: seq<Ref>, k: nat, v: Ref)
    requires k <= |list| && v in areas && Parts(ByStart(areas), list[..k], v, list[k..])
    ensures Splits(areas, list, k, areas[v].start) && k <= |list|
  {
    forall i | 0 <= i < k ensures StartOf(areas, list[i]) <= areas[v].start { assert list[..k][i] == list[i]; }
    forall i | k <= i < |list| ensures StartOf(areas, list[i]) > areas[v].start { assert list[k..][i - k] == list[i]; }
  }

  ghost predicate Ascending(areas: map<Ref, Area>, list: seq<Ref>) {
    forall i, j :: 0 <= i < j < |list| ==> StartOf(areas, list[i]) < StartOf(areas, list[j])
  }

  lemma StartsAscend(areas: map<Ref, Area>, list: seq<Ref>, cache: Ref)
    requires Linked(areas, list, cache)
    ensures Ascending(areas, list)
  {
    forall i, j | 0 <= i < j < |list| ensures StartOf(areas, list[i]) < StartOf(areas, list[j]) {
      var s := Image(areas, list);
      assert s[i].end <= s[j].start && Good(s[i]) && list[i] in list && list[j] in list;
    }
  }

  lemma BuildFacts(areas: map<Ref, Area>, list: seq<Ref>, cache: Ref)
    requires Linked(areas, list, cache)
    ensures Preorder(ByStart(areas)) && Ascending(areas, list) && NoDup(list)
    ensures forall i :: 0 <= i < |list| ==> list[i] != NULL && list[i] != HEAD && list[i] in areas
  {
    StartsAscend(areas, list, cache);
    ByStartSorted(areas, list, cache);
    PlainList(areas, list, cache);
  }

  lemma BehindAt(areas: map<Ref, Area>, list: seq<Ref>, cache: Ref, i: nat)
    requires Linked(areas, list, cache) && i <= |list|
    ensures Behind(list, if i > 0 then list[i - 1] else NULL) == i
  {
    PlainList(areas, list, cache);
    if i > 0 { BehindIs(list, i - 1); }
  }

  // The next area of the list goes to the end of the tree.
  lemma LastPart(areas: map<Ref, Area>, list: seq<Ref>, i: nat, k: nat)
    requires Ascending(areas, list) && i < |list| && k <= i
    requires Parts(ByStart(areas), list[..i][..k], list[i], list[..i][k..])
    ensures k == i
  {
    hide Ascending;
    if k < i {
      assert list[..i][k..][0] == list[k];
      Apart(areas, list, k, i);
    }
  }

  lemma Apart(areas: map<Ref, Area>, list: seq<Ref>, i: nat, j: nat)
    requires Ascending(areas, list) && i < j < |list|
    ensures StartOf(areas, list[i]) < StartOf(areas, list[j])
  {
  }

  // The areas i .. k - 1 of the old list are not in the list, and intact.
  ghost predicate OutOfList(areas: map<Ref, Area>, list: seq<Ref>, list0: seq<Ref>, s: seq<Area>, i: nat, k: nat) {
    k <= |list0| == |s| && forall m :: i <= m < k ==>
      list0[m] in areas && areas[list0[m]] == s[m] && list0[m] !in list && list0[m] != NULL && list0[m] != HEAD
  }

  lemma OutAt(areas: map<Ref, Area>, list: seq<Ref>, list0: seq<Ref>, s: seq<Area>, i: nat, k: nat)
    requires OutOfList(areas, list, list0, s, i, k) && i < k
    ensures var v := list0[k - 1]; v in areas && areas[v] == s[k - 1] && v !in list && v != NULL && v != HEAD
  {
  }

  // The state of the second loop of mm_unmap, with the areas i .. k - 1 of the
  // old list still to be put back.
  ghost predicate Partly(areas: map<Ref, Area>, list: seq<Ref>, list0: seq<Ref>, s: seq<Area>, t: seq<Area>,
                         rs: seq<(nat, nat)>,
                         i: nat, k: nat, start: nat, end: nat)
  {
    && Met(s, i, k, start, end) && Lacking(s, t, i, k, start, end) && Swept(s, rs, Reach(s, i, k), start, end)
    && NoDup(list0) && OutOfList(areas, list, list0, s, i, k)
  }

  ghost predicate Slice(freed: seq<Ref>, list0: seq<Ref>, i: nat, k: nat) {
    i <= k <= |list0| && freed == list0[i..k]
  }

  lemma SliceNone(list0: seq<Ref>, i: nat)
    requires i <= |list0|
    ensures Slice([], list0, i, i)
  {
  }

  lemma SliceMore(freed: seq<Ref>, list0: seq<Ref>, i: nat, k: nat)
    requires Slice(freed, list0, i, k) && k < |list0|
    ensures Slice(freed + [list0[k]], list0, i, k + 1)
  {
  }

  lemma SliceLess(freed: seq<Ref>, list0: seq<Ref>, i: nat, k: nat)
    requires Slice(freed, list0, i, k) && i < k
    ensures k <= |list0| && |freed| == k - i && freed[|freed| - 1] == list0[k - 1]
    ensures Slice(freed[..|freed| - 1], list0, i, k - 1)
  {
  }

  lemma PartlyStart(areas: map<Ref, Area>, list: seq<Ref>, list0: seq<Ref>, s: seq<Area>, t: seq<Area>, i: nat, k: nat,
                    start: nat, end: nat)
    requires Taking(areas, list, list0, s, t, i, k, start, end) && i < k && Stops(s, k, end)
    ensures Partly(areas, list, list0, s, t, [], i, k, start, end)
  {
    TakingEnd(areas, list, list0, s, t, i, k, start, end);
    hide Met, Changed, Lacking, Swept, OutOfList, NoDup;
    MetAll(s, t, i, k, start, end);
  }

  lemma PartlyEnd(areas: map<Ref, Area>, list: seq<Ref>, list0: seq<Ref>, s: seq<Area>, t: seq<Area>, rs: seq<(nat,
                  nat)>, i: nat, start: nat, end: nat)
    requires Partly(areas, list, list0, s, t, rs, i, i, start, end)
    ensures Changed(s, t, start, end, None) && Swept(s, rs, start, start, end)
  {
    MetEnd(s, t, rs, i, start, end);
  }

  lemma OutStep(areas: map<Ref, Area>, list: seq<Ref>, areas': map<Ref, Area>, list': seq<Ref>, list0: seq<Ref>,
                s: seq<Area>, i: nat, k: nat)
    requires NoDup(list0) && OutOfList(areas, list, list0, s, i, k) && i < k
    requires forall r :: r in list' ==> r in list || r == list0[k - 1]
    requires forall r :: r in areas && r != list0[k - 1] ==> r in areas' && areas'[r] == areas[r]
    ensures OutOfList(areas', list', list0, s, i, k - 1)
  {
  }

  // The state of the first loop: the areas i .. k - 1 are out.
  ghost predicate Taking(areas: map<Ref, Area>, list: seq<Ref>, list0: seq<Ref>, s: seq<Area>, t: seq<Area>, i: nat,
                         k: nat, start: nat, end: nat) {
    && i < |s| && i <= k <= |list0| == |s| && list == list0[..i] + list0[k..] && NoDup(list0)
    && (forall m :: 0 <= m < |list0| ==>
        list0[m] in areas && areas[list0[m]] == s[m] && list0[m] != NULL && list0[m] != HEAD)
    && !(s[i].start < start && end < s[i].end)
    && Met(s, i, k, start, end) && Changed(s, t, s[i].start, Reach(s, i, k), None)
  }

  // The first area to take out.
  ghost predicate Starts(list0: seq<Ref>, s: seq<Area>, i: nat, first: Ref, end: nat) {
    i < |list0| == |s| && list0[i] == first && s[i].start < end
  }

  // The areas from `k` on lie behind the range.
  ghost predicate Stops(s: seq<Area>, k: nat, end: nat) { k < |s| ==> end <= s[k].start }

  lemma TakingStart(areas: map<Ref, Area>, list: seq<Ref>, cache: Ref, i: nat, start: nat, end: nat)
    requires Linked(areas, list, cache) && start % PGSIZE == 0 && end % PGSIZE == 0 && start < end
    requires i == FirstAbove(Image(areas, list), start) && i < |list|
    requires var v := Image(areas, list)[i]; !(v.start < start && end < v.end)
    ensures Taking(areas, list, list, Image(areas, list), Image(areas, list), i, i, start, end)
    ensures list[i] in areas && Image(areas, list)[i] == areas[list[i]]
  {
    var s := Image(areas, list);
    PlainList(areas, list, cache);
    MetStart(s, i, start, end);
    TakeNothing(s, i);
    assert list == list[..i] + list[i..];
    hide Linked, Met, Changed, FirstAbove, NoDup;
  }

  lemma TakingAt(areas: map<Ref, Area>, list: seq<Ref>, list0: seq<Ref>, s: seq<Area>, t: seq<Area>, i: nat, k: nat,
                 start: nat, end: nat)
    requires Taking(areas, list, list0, s, t, i, k, start, end) && k < |list0|
    ensures |s| == |list0| && list0[k] in areas && areas[list0[k]] == s[k]
    ensures i < |list| && list[i] == list0[k] && (i + 1 < |list| <==> k + 1 < |list0|)
    ensures k + 1 < |list0| ==> list[i + 1] == list0[k + 1] && list0[k + 1] in areas && areas[list0[k + 1]] == s[k + 1]
  {
    hide Met, Changed, NoDup;
  }

  lemma TakingStep(areas: map<Ref, Area>, list: seq<Ref>, list': seq<Ref>, list0: seq<Ref>, s: seq<Area>, t: seq<Area>,
                   t': seq<Area>,
                   i: nat, k: nat, start: nat, end: nat)
    requires Taking(areas, list, list0, s, t, i, k, start, end) && k < |list0| && s[k].start < end
    requires i < |list| && list' == list[..i] + list[i + 1..] && Changed(t, t', s[k].start, s[k].end, None)
    ensures Taking(areas, list', list0, s, t', i, k + 1, start, end)
  {
    MetMore(s, i, k, start, end);
    assert Layout(s);
    hide Met, Layout, NoDup, Changed;
    TakeStep(s, t, t', i, k);
    assert list' == list0[..i] + list0[k + 1..];
  }

  lemma TakingEnd(areas: map<Ref, Area>, list: seq<Ref>, list0: seq<Ref>, s: seq<Area>, t: seq<Area>, i: nat, k: nat,
                  start: nat, end: nat)
    requires Taking(areas, list, list0, s, t, i, k, start, end)
    ensures Met(s, i, k, start, end) && NoDup(list0) && OutOfList(areas, list, list0, s, i, k)
    ensures Changed(s, t, s[i].start, Reach(s, i, k), None)
  {
    hide Met, Changed;
    forall m | i <= m < k ensures list0[m] !in list {
      forall j | 0 <= j < |list| ensures list[j] != list0[m] {
        assert list[j] == if j < i then list0[j] else list0[j - i + k];
      }
    }
  }

  lemma RangeAligned(addr: nat, len: nat)
    ensures RoundDown(addr) % PGSIZE == 0 && RangeEnd(addr, len) % PGSIZE == 0
  {
    RoundAligned(addr);
    RoundAligned((addr + len) % WORD);
  }

  lemma AlignedRange(addr: nat, len: nat)
    requires UserAccess(RoundDown(addr), RangeEnd(addr, len))
    ensures var start, end := RoundDown(addr), RangeEnd(addr, len);
      start % PGSIZE == 0 && end % PGSIZE == 0 && RoundDown(start) == start && RangeEnd(start, end - start) == end
  {
    RoundAligned(addr);
    RoundAligned((addr + len) % WORD);
    Rounded(RoundDown(addr));
    Rounded(RangeEnd(addr, len));
    hide RoundDown, RoundUp;
  }

  // Rounding leaves an aligned address alone.
  lemma Rounded(a: nat)
    requires a % PGSIZE == 0 && a <= USERTOP
    ensures RoundDown(a) == a && RoundUp(a % WORD) == a
  {
    assert (a + PGSIZE - 1) % WORD == a + PGSIZE - 1;
    assert (a + PGSIZE - 1) % PGSIZE == PGSIZE - 1;
  }

  // Memory that kmalloc will give: distinct and unused from position `k` on.
  ghost predicate FreshRefs(refs: seq<Ref>, k: nat, areas: map<Ref, Area>) {
    && (forall i :: k <= i < |refs| ==> refs[i] !in areas && refs[i] != NULL && refs[i] != HEAD)
    && (forall i, j :: k <= i < j < |refs| ==> refs[i] != refs[j])
  }

  lemma FreshAt(refs: seq<Ref>, k: nat, areas: map<Ref, Area>, v: Area)
    requires FreshRefs(refs, k, areas) && k < |refs|
    ensures refs[k] !in areas && refs[k] != NULL && refs[k] != HEAD && FreshRefs(refs, k + 1, areas[refs[k] := v])
  {
  }

  // Two lists of areas that stand for the same map.
  ghost predicate SameMap(t: seq<Area>, s: seq<Area>) {
    forall a: nat :: Lookup(t, a) == Lookup(s, a)
  }

  // The ranges of the last areas of `s`, from the last on.
  ghost predicate LastRanges(s: seq<Area>, ranges: seq<(nat, nat)>) {
    |ranges| <= |s| && forall j :: 0 <= j < |ranges| ==> ranges[j] == (s[|s| - 1 - j].start, s[|s| - 1 - j].end)
  }

  lemma NoAreas(areas: map<Ref, Area>, list: seq<Ref>, s: seq<Area>)
    requires list == []
    ensures SameMap(Image(areas, list), s[|s|..])
  {
  }

  lemma DupVacant(s: seq<Area>, i: nat, t: seq<Area>)
    requires Layout(s) && i < |s| && SameMap(t, s[i + 1..])
    ensures Good(s[i]) && Vacant(t, s[i].start, s[i].end)
  {
    var rest := s[i + 1..];
    forall a | s[i].start <= a < s[i].end ensures Lookup(t, a) == None {
      forall j | 0 <= j < |rest| ensures !rest[j].Has(a) { assert s[i].end <= s[i + 1 + j].start; }
      LookupNone(rest, a);
    }
  }

  lemma DupMore(s: seq<Area>, i: nat, t: seq<Area>, t': seq<Area>)
    requires i < |s| && SameMap(t, s[i + 1..]) && Changed(t, t', s[i].start, s[i].end, Some(s[i].flags))
    ensures SameMap(t', s[i..])
  {
    assert s[i..][1..] == s[i + 1..];
  }

  lemma ChangedVacant(s: seq<Area>, t: seq<Area>, start: nat, end: nat)
    requires Changed(s, t, start, end, None)
    ensures Vacant(t, start, end)
  {
  }

  lemma ChangedTwice(s: seq<Area>, t: seq<Area>, u: seq<Area>, start: nat, end: nat, f: Flags)
    requires Changed(s, t, start, end, None) && Changed(t, u, start, end, Some(f))
    ensures Changed(s, u, start, end, Some(f))
  {
  }

  lemma DestroyImage(areas: map<Ref, Area>, list: seq<Ref>, cache: Ref, v: Ref)
    requires Linked(areas, list, cache) && v !in list
    ensures Linked(areas - {v}, list, cache) && Image(areas - {v}, list) == Image(areas, list)
  {
    assert Image(areas - {v}, list) == Image(areas, list);
  }

  lemma BehindNext(areas: map<Ref, Area>, list: seq<Ref>, cache: Ref, i: nat)
    requires Linked(areas, list, cache) && i < |list|
    ensures Behind(list, list[i]) == i + 1 && (i + 1 < |list| ==> list[i + 1] != NULL)
  {
    PlainList(areas, list, cache);
    BehindIs(list, i);
  }

  lemma LinkedAt(areas: map<Ref, Area>, list: seq<Ref>, cache: Ref, k: nat)
    requires Linked(areas, list, cache)
    ensures Layout(Image(areas, list))
    ensures (k < |list| ==> list[k] != NULL && list[k] in areas && Image(areas, list)[k] == areas[list[k]])
  {
    if k < |list| { assert list[k] in list; }
  }

  lemma NodeArea(areas: map<Ref, Area>, list: seq<Ref>, cache: Ref, tree: Tree, c: Ctx, t: Tree)
    requires Linked(areas, list, cache) && InOrder(tree) == list && Plug(c, t) == tree && t.Bin?
    ensures t.n in areas && t.n in list
  {
    PlugInOrder(c, t);
    InOrderBin(t);
    assert list[|Before(c)| + |InOrder(t.left)|] == t.n;
  }

  // The area found may become the cached one.
  lemma FoundCache(areas: map<Ref, Area>, list: seq<Ref>, cache: Ref, addr: nat)
    requires Linked(areas, list, cache)
    ensures var k := FirstAbove(Image(areas, list), addr); k < |list| ==> Linked(areas, list, list[k])
  {
  }

  // A cached area that holds the address is the one the searches would find.
  lemma CacheHit(areas: map<Ref, Area>, list: seq<Ref>, cache: Ref, addr: nat)
    requires Linked(areas, list, cache) && cache != NULL
    ensures cache in areas
    ensures areas[cache].Has(addr) ==> var k := FirstAbove(Image(areas, list), addr); k < |list| && list[k] == cache
  {
    var i :| 0 <= i < |list| && list[i] == cache;
    if areas[cache].Has(addr) { HolderIsFirst(Image(areas, list), addr, i); }
  }
}
