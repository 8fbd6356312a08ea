/**
  The red-black tree of code/kern/libs/rb_tree.c as a pointer program: nodes
  with parent, left and right links in an arena, a `nil` sentinel that stands
  for every missing child, and a header node `root` whose left child is the
  root of the tree.
 */
module RedBlackTree {
  import opened RbShape

  datatype Node = Node(parent: Ref, left: Ref, right: Ref, red: bool) {
    function Child(d: Dir): Ref { if d == Left then left else right }

    function SetChild(d: Dir, r: Ref): Node {
      if d == Left then this.(left := r) else this.(right := r)
    }
  }

  type Heap = map<Ref, Node>

  // ------------------------------------------------- heaps that hold a shape

  function RefOf(t: Tree, nil: Ref): Ref { if t.Bin? then t.n else nil }

  function ParentOf(c: Ctx, head: Ref): Ref { if c.Hole? then c.n else head }

  function Record(d: Dir, parent: Ref, a: Ref, red: bool, b: Ref): Node {
    if d == Left then Node(parent, a, b, red) else Node(parent, b, a, red)
  }

  // The heap holds exactly the tree `t`, hanging below `p`.
  ghost predicate TreeAt(h: Heap, nil: Ref, t: Tree, p: Ref) {
    match t
    case Nil => true
    case Bin(l, n, red, r) =>
      n in h && h[n] == Node(p, RefOf(l, nil), RefOf(r, nil), red)
      && TreeAt(h, nil, l, n) && TreeAt(h, nil, r, n)
  }

  // The heap holds exactly the context `c`, with `r` linked into its hole.
  ghost predicate CtxAt(h: Heap, nil: Ref, head: Ref, c: Ctx, r: Ref) {
    match c
    case Top => head in h && h[head].left == r && h[head].right == nil && !h[head].red
    case Hole(d, n, red, sib, up) =>
      n in h && h[n] == Record(d, ParentOf(up, head), r, red, RefOf(sib, nil))
      && TreeAt(h, nil, sib, n) && CtxAt(h, nil, head, up, n)
  }

  // The whole structure, seen from the subtree `t` inside the context `c`.
  ghost predicate Focus(h: Heap, nil: Ref, head: Ref, c: Ctx, t: Tree) {
    && nil in h && !h[nil].red && nil != head
    && {nil, head} !! Nodes(t) && {nil, head} !! CtxNodes(c)
    && Apart(c, t)
    && TreeAt(h, nil, t, ParentOf(c, head))
    && CtxAt(h, nil, head, c, RefOf(t, nil))
  }

  ghost predicate Agree(h: Heap, h': Heap, s: set<Ref>) {
    forall n :: n in s && n in h ==> n in h' && h'[n] == h[n]
  }

  // One level of a tree, the same for both directions.
  lemma Unfold(h: Heap, nil: Ref, t: Tree, p: Ref, d: Dir)
    requires TreeAt(h, nil, t, p) && Distinct(t) && t.Bin?
    ensures t.n in h && h[t.n] == Record(d, p, RefOf(Kid(t, d), nil), t.red, RefOf(Kid(t, d.Opp()), nil))
    ensures TreeAt(h, nil, Kid(t, d), t.n) && TreeAt(h, nil, Kid(t, d.Opp()), t.n)
    ensures Distinct(Kid(t, d)) && Distinct(Kid(t, d.Opp()))
    ensures Nodes(Kid(t, d)) !! Nodes(Kid(t, d.Opp()))
    ensures t.n !in Nodes(Kid(t, d)) && t.n !in Nodes(Kid(t, d.Opp()))
    ensures Nodes(t) == Nodes(Kid(t, d)) + Nodes(Kid(t, d.Opp())) + {t.n}
  {
  }

  lemma Fold(h: Heap, nil: Ref, p: Ref, d: Dir, a: Tree, n: Ref, red: bool, b: Tree)
    requires n in h && h[n] == Record(d, p, RefOf(a, nil), red, RefOf(b, nil))
    requires TreeAt(h, nil, a, n) && TreeAt(h, nil, b, n)
    ensures TreeAt(h, nil, Mk(d, a, n, red, b), p) && RefOf(Mk(d, a, n, red, b), nil) == n
  {
  }

  lemma {:induction false} TreeFrame(h: Heap, h': Heap, nil: Ref, t: Tree, p: Ref)
    requires TreeAt(h, nil, t, p) && Agree(h, h', Nodes(t))
    ensures TreeAt(h', nil, t, p)
  {
    match t
    case Nil =>
    case Bin(l, n, _, r) =>
      TreeFrame(h, h', nil, l, n);
      TreeFrame(h, h', nil, r, n);
  }

  lemma {:induction false} CtxFrame(h: Heap, h': Heap, nil: Ref, head: Ref, c: Ctx, r: Ref)
    requires CtxAt(h, nil, head, c, r) && Agree(h, h', CtxNodes(c) + {head})
    ensures CtxAt(h', nil, head, c, r)
  {
    match c
    case Top =>
    case Hole(_, n, _, sib, up) =>
      TreeFrame(h, h', nil, sib, n);
      CtxFrame(h, h', nil, head, up, n);
  }

  // Hanging a tree below another parent.
  lemma Reparent(h: Heap, h': Heap, nil: Ref, t: Tree, p: Ref, q: Ref)
    requires TreeAt(h, nil, t, p) && Distinct(t)
    requires t.Bin? ==> Agree(h, h', Nodes(t) - {t.n})
    requires t.Bin? ==> t.n in h' && h'[t.n] == h[t.n].(parent := q)
    ensures TreeAt(h', nil, t, q)
  {
    if t.Bin? {
      TreeFrame(h, h', nil, t.left, t.n);
      TreeFrame(h, h', nil, t.right, t.n);
    }
  }

  // Linking another node into the hole of a context.
  lemma Relink(h: Heap, h': Heap, nil: Ref, head: Ref, c: Ctx, r: Ref, r': Ref)
    requires CtxAt(h, nil, head, c, r) && CtxDistinct(c) && head !in CtxNodes(c)
    requires Agree(h, h', CtxNodes(c) + {head} - {ParentOf(c, head)})
    requires ParentOf(c, head) in h' && ParentOf(c, head) in h
    requires h'[ParentOf(c, head)] == h[ParentOf(c, head)].SetChild(if c.Hole? then c.side else Left, r')
    ensures CtxAt(h', nil, head, c, r')
  {
    if c.Hole? {
      TreeFrame(h, h', nil, c.sib, c.n);
      CtxFrame(h, h', nil, head, c.up, c.n);
    }
  }

  // Moving the focus between a subtree and its child.
  lemma Up(h: Heap, nil: Ref, head: Ref, c: Ctx, t: Tree)
    requires c.Hole?
    ensures Focus(h, nil, head, c, t) <==> 
            Focus(h, nil, head, c.up, Mk(c.side, t, c.n, c.red, c.sib))
  {
  }

  // The focus at any subtree says the same as the focus at the root.
  lemma {:induction false} ToRoot(h: Heap, nil: Ref, head: Ref, c: Ctx, t: Tree)
    ensures Focus(h, nil, head, c, t) <==> Focus(h, nil, head, Top, Plug(c, t))
  {
    if c.Hole? {
      Up(h, nil, head, c, t);
      ToRoot(h, nil, head, c.up, Mk(c.side, t, c.n, c.red, c.sib));
    }
  }

  // Repainting the root of the focused subtree.
  lemma Paint(h: Heap, h': Heap, nil: Ref, head: Ref, c: Ctx, t: Tree, red: bool)
    requires Focus(h, nil, head, c, t) && t.Bin?
    requires h' == h[t.n := h[t.n].(red := red)]
    ensures Focus(h', nil, head, c, t.(red := red))
  {
    TreeFrame(h, h', nil, t.left, t.n);
    TreeFrame(h, h', nil, t.right, t.n);
    CtxFrame(h, h', nil, head, c, t.n);
  }

  // What the heap holds at the focus and at its parent.
  lemma Look(h: Heap, nil: Ref, head: Ref, c: Ctx, t: Tree)
    requires Focus(h, nil, head, c, t)
    ensures RefOf(t, nil) in h && h[RefOf(t, nil)].red == IsRed(t)
    ensures t.Bin? ==> h[t.n] == Node(ParentOf(c, head), RefOf(t.left, nil), RefOf(t.right, nil), t.red)
    ensures t.Bin? ==> t.n != nil && t.n != head
    ensures t.Bin? ==> forall d: Dir :: RefOf(Kid(t, d), nil) == h[t.n].Child(d)
    ensures nil in h && !h[nil].red
    ensures ParentOf(c, head) in h && ParentOf(c, head) != nil
    ensures c.Top? ==> h[head].left == RefOf(t, nil) && h[head].right == nil && !h[head].red
    ensures c.Hole? ==> c.n != head && RefOf(c.sib, nil) in h && h[RefOf(c.sib, nil)].red == IsRed(c.sib)
    ensures c.Hole? ==> h[c.n] == Record(c.side, ParentOf(c.up, head), RefOf(t, nil), c.red, RefOf(c.sib, nil))
    ensures c.Hole? && t.Bin? ==> RefOf(c.sib, nil) != t.n
    ensures t.Bin? ==> (h[ParentOf(c, head)].right == t.n <==> c.Hole? && c.side == Right)
    ensures t.Bin? ==> (h[ParentOf(c, head)].left == t.n <==> c.Top? || c.side == Left)
  {
  }

  // The assignments of one rotation, in order.
  function RotateHeap(h: Heap, nil: Ref, d: Dir, x: Ref): (h': Heap)
    requires x in h && h[x].parent in h && nil in h
    requires h[x].Child(d.Opp()) in h && h[h[x].Child(d.Opp())].Child(d) in h
  {
    var y := h[x].Child(d.Opp());
    var b := h[y].Child(d);
    var h1 := h[x := h[x].SetChild(d.Opp(), b)];
    var h2 := if b != nil then h1[b := h1[b].(parent := x)] else h1;
    var h3 := h2[y := h2[y].(parent := h2[x].parent)];
    var p := h3[x].parent;
    var h4 := if x == h3[p].Child(d) then h3[p := h3[p].SetChild(d, y)]
              else h3[p := h3[p].SetChild(d.Opp(), y)];
    var h5 := h4[y := h4[y].SetChild(d, x)];
    h5[x := h5[x].(parent := y)]
  }

  // What one rotation at `x` leaves in every node, `x` being the `side` child
  // of its parent.
  lemma RotateNodes(h: Heap, nil: Ref, d: Dir, x: Ref, y: Ref, b: Ref, p: Ref, side: Dir)
    requires {x, y, b, p} <= h.Keys && nil in h
    requires x != y && x != p && y != p && b != x && b != y && b != p
    requires h[x].Child(d.Opp()) == y && h[y].Child(d) == b && h[x].parent == p
    requires h[p].Child(side) == x && h[p].Child(side.Opp()) != x
    ensures var h' := RotateHeap(h, nil, d, x);
      && h'.Keys == h.Keys
      && h'[x] == Record(d, y, h[x].Child(d), h[x].red, b)
      && h'[y] == Record(d, p, x, h[y].red, h[y].Child(d.Opp()))
      && h'[p] == h[p].SetChild(side, y)
      && h'[b] == (if b != nil then h[b].(parent := x) else h[b])
      && forall n :: n in h && n !in {x, y, p, b} ==> h'[n] == h[n]
  {
  }

  // What a focus with two nested nodes says about those nodes.
  lemma RotateParts(h: Heap, nil: Ref, head: Ref, c: Ctx, t: Tree, d: Dir)
    requires Focus(h, nil, head, c, t) && t.Bin? && Kid(t, d.Opp()).Bin?
    ensures var x, y, p := t.n, Kid(t, d.Opp()).n, ParentOf(c, head);
      var b := RefOf(Kid(Kid(t, d.Opp()), d), nil);
      var side := if c.Hole? then c.side else Left;
      && {x, y, b, p} <= h.Keys && nil in h
      && x != y && x != p && y != p && b != x && b != y && b != p
      && h[x].Child(d.Opp()) == y && h[y].Child(d) == b && h[x].parent == p
      && h[p].Child(side) == x && h[p].Child(side.Opp()) != x
      && nil !in {x, y, p} && (Kid(Kid(t, d.Opp()), d).Bin? ==> b != nil)
  {
    var y := Kid(t, d.Opp());
    Unfold(h, nil, t, ParentOf(c, head), d);
    Unfold(h, nil, y, t.n, d);
    assert Nodes(y) <= Nodes(t);
    assert Kid(y, d).Bin? ==> Kid(y, d).n in Nodes(y);
    assert c.Hole? && c.sib.Bin? ==> c.sib.n in CtxNodes(c);
  }

  lemma RotateFocus(h: Heap, h': Heap, nil: Ref, head: Ref, c: Ctx, t: Tree, d: Dir)
    requires Focus(h, nil, head, c, t) && t.Bin? && Kid(t, d.Opp()).Bin?
    requires RotateHeap.requires(h, nil, d, t.n) && h' == RotateHeap(h, nil, d, t.n)
    ensures Focus(h', nil, head, c, Rotated(t, d))
    ensures h'[nil] == h[nil]
  {
    hide TreeAt, CtxAt, Nodes, CtxNodes, Distinct, CtxDistinct, RotateHeap, Mk;
    var x, y, p := t.n, Kid(t, d.Opp()).n, ParentOf(c, head);
    var a, b, e := Kid(t, d), Kid(Kid(t, d.Opp()), d), Kid(Kid(t, d.Opp()), d.Opp());
    var side := if c.Hole? then c.side else Left;
    RotateParts(h, nil, head, c, t, d);
    RotateNodes(h, nil, d, x, y, RefOf(b, nil), p, side);
    assert TreeAt(h', nil, Rotated(t, d), p) && CtxAt(h', nil, head, c, y) by {
      Unfold(h, nil, t, p, d);
      Unfold(h, nil, Kid(t, d.Opp()), x, d);
      RotateRebuild(h, h', nil, head, c, d, a, x, t.red, b, y, Kid(t, d.Opp()).red, e);
    }
    RotatedDistinct(t, d);
    Refocus(h, h', nil, head, c, t, Rotated(t, d));
  }

  lemma Refocus(h: Heap, h': Heap, nil: Ref, head: Ref, c: Ctx, t: Tree, t': Tree)
    requires Focus(h, nil, head, c, t)
    requires Distinct(t') && Nodes(t') == Nodes(t) && nil in h' && h'[nil] == h[nil]
    requires TreeAt(h', nil, t', ParentOf(c, head)) && CtxAt(h', nil, head, c, RefOf(t', nil))
    ensures Focus(h', nil, head, c, t')
  {
  }

  lemma RotateRebuild(h: Heap, h': Heap, nil: Ref, head: Ref, c: Ctx, d: Dir,
                      a: Tree, x: Ref, xred: bool, b: Tree, y: Ref, yred: bool, e: Tree)
    requires TreeAt(h, nil, a, x) && TreeAt(h, nil, b, y) && TreeAt(h, nil, e, y) && CtxAt(h, nil, head, c, x)
    requires Distinct(b) && CtxDistinct(c) && nil != head
    requires Nodes(a) !! Nodes(b) && Nodes(e) !! Nodes(b) && Nodes(a) + Nodes(b) + Nodes(e) !! {x, y, nil, head}
    requires Nodes(a) + Nodes(b) + Nodes(e) !! CtxNodes(c) && CtxNodes(c) !! {x, y, nil, head} && head !in {x, y}
    requires h'.Keys == h.Keys && x in h && y in h && nil in h && ParentOf(c, head) in h
    requires h'[x] == Record(d, y, RefOf(a, nil), xred, RefOf(b, nil))
    requires h'[y] == Record(d, ParentOf(c, head), x, yred, RefOf(e, nil))
    requires h'[ParentOf(c, head)] == h[ParentOf(c, head)].SetChild(if c.Hole? then c.side else Left, y)
    requires b.Bin? ==> b.n in h && h'[b.n] == h[b.n].(parent := x)
    requires forall n :: n in h && n !in {x, y, ParentOf(c, head), RefOf(b, nil)} ==> h'[n] == h[n]
    ensures TreeAt(h', nil, Mk(d, Mk(d, a, x, xred, b), y, yred, e), ParentOf(c, head))
    ensures CtxAt(h', nil, head, c, y)
  {
    hide TreeAt, CtxAt, Nodes, CtxNodes, Distinct, CtxDistinct, Mk;
    RootIn(c, b);
    TreeFrame(h, h', nil, a, x);
    TreeFrame(h, h', nil, e, y);
    Reparent(h, h', nil, b, y, x);
    Relink(h, h', nil, head, c, x, y);
    Fold(h', nil, y, d, a, x, xred, b);
    Fold(h', nil, ParentOf(c, head), d, Mk(d, a, x, xred, b), y, yred, e);
  }

  // A fresh leaf linked into an empty hole.
  lemma Attach(h: Heap, h': Heap, nil: Ref, head: Ref, c: Ctx, z: Ref, red: bool)
    requires Focus(h, nil, head, c, Nil) && z in h && z != nil && z != head && z !in CtxNodes(c)
    requires ParentOf(c, head) in h
    requires var y, side := ParentOf(c, head), if c.Hole? then c.side else Left;
      h' == h[z := Node(y, nil, nil, red)][y := h[y].SetChild(side, z)]
    ensures Focus(h', nil, head, c, Bin(Nil, z, red, Nil))
  {
    RootIn(c, Nil);
    Relink(h, h', nil, head, c, nil, z);
  }

  // A node with at most one child, `x`, is bypassed.
  lemma Bypass(h: Heap, h': Heap, nil: Ref, head: Ref, c: Ctx, t: Tree, d: Dir)
    requires Focus(h, nil, head, c, t) && t.Bin? && Kid(t, d.Opp()).Nil?
    requires ParentOf(c, head) in h && RefOf(Kid(t, d), nil) in h
    requires var x, y, side := RefOf(Kid(t, d), nil), ParentOf(c, head), if c.Hole? then c.side else Left;
      h' == h[x := h[x].(parent := y)][y := h[y].SetChild(side, x)]
    ensures Focus(h', nil, head, c, Kid(t, d))
    ensures h'[RefOf(Kid(t, d), nil)].parent == ParentOf(c, head)
    ensures Nodes(Kid(t, d)) == Nodes(t) - {t.n}
    ensures h'.Keys == h.Keys
    ensures forall n :: n in h && n != RefOf(Kid(t, d), nil) && n != ParentOf(c, head) ==> h'[n] == h[n]
  {
    hide TreeAt, CtxAt, Nodes, CtxNodes, Distinct, CtxDistinct;
    Unfold(h, nil, t, ParentOf(c, head), d);
    RootIn(c, t);
    RootIn(c, Kid(t, d));
    EmptyNodes(Kid(t, d.Opp()));
    Reparent(h, h', nil, Kid(t, d), t.n, ParentOf(c, head));
    Relink(h, h', nil, head, c, t.n, RefOf(Kid(t, d), nil));
  }

  lemma EmptyNodes(t: Tree)
    requires t.Nil?
    ensures Nodes(t) == {}
  {
  }

  // Another node takes the place of the root of the focused subtree.
  lemma Replace(h: Heap, h': Heap, nil: Ref, head: Ref, c: Ctx, t: Tree, y: Ref)
    requires Focus(h, nil, head, c, t) && t.Bin? && t.left.Bin?
    requires y in h && y !in Nodes(t) && y !in CtxNodes(c) && y != nil && y != head
    requires h'.Keys == h.Keys && ParentOf(c, head) in h && t.n in h && RefOf(t.right, nil) in h && t.left.n in h
    requires h'[y] == h[t.n]
    requires h'[t.left.n] == h[t.left.n].(parent := y)
    requires h'[RefOf(t.right, nil)] == h[RefOf(t.right, nil)].(parent := y)
    requires h'[ParentOf(c, head)] == h[ParentOf(c, head)].SetChild(if c.Hole? then c.side else Left, y)
    requires forall n :: n in h && n !in {y, t.left.n, RefOf(t.right, nil), ParentOf(c, head)} ==> h'[n] == h[n]
    ensures Focus(h', nil, head, c, t.(n := y))
  {
    hide TreeAt, CtxAt, Nodes, CtxNodes, Distinct, CtxDistinct;
    Unfold(h, nil, t, ParentOf(c, head), Left);
    RootIn(c, t);
    RootIn(c, t.left);
    RootIn(c, t.right);
    Reparent(h, h', nil, t.left, t.n, y);
    Reparent(h, h', nil, t.right, t.n, y);
    Relink(h, h', nil, head, c, t.n, y);
    Fold(h', nil, ParentOf(c, head), Left, t.left, y, t.red, t.right);
    DistinctMk(Left, t.left, y, t.red, t.right);
  }

  lemma {:induction false} GraftFocus(h: Heap, nil: Ref, head: Ref, inner: Ctx, outer: Ctx, t: Tree)
    ensures Focus(h, nil, head, Graft(inner, outer), t) <==> Focus(h, nil, head, outer, Plug(inner, t))
  {
    hide Focus;
    if inner.Hole? {
      Up(h, nil, head, Graft(inner, outer), t);
      GraftFocus(h, nil, head, inner.up, outer, Mk(inner.side, t, inner.n, inner.red, inner.sib));
    }
  }

  // ------------------------------------------------- order

  // The comparison is a total preorder, as rb_tree.h asks of it.
  ghost predicate Preorder(compare: (Ref, Ref) -> int) {
    && (forall a, b :: compare(a, b) > 0 <==> compare(b, a) < 0)
    && (forall a, b, e :: compare(a, b) <= 0 && compare(b, e) <= 0 ==> compare(a, e) <= 0)
  }

  ghost predicate Sorted(compare: (Ref, Ref) -> int, s: seq<Ref>) {
    forall i, j :: 0 <= i < j < |s| ==> compare(s[i], s[j]) <= 0
  }

  // Everything in `lo` is at most `z`, everything in `hi` is greater.
  ghost predicate Parts(compare: (Ref, Ref) -> int, lo: seq<Ref>, z: Ref, hi: seq<Ref>) {
    && (forall i :: 0 <= i < |lo| ==> compare(lo[i], z) <= 0)
    && (forall i :: 0 <= i < |hi| ==> compare(hi[i], z) > 0)
  }

  lemma SortedInsert(compare: (Ref, Ref) -> int, lo: seq<Ref>, z: Ref, hi: seq<Ref>)
    requires Preorder(compare) && Sorted(compare, lo + hi) && Parts(compare, lo, z, hi)
    ensures Sorted(compare, lo + [z] + hi)
  {
    var s, s' := lo + hi, lo + [z] + hi;
    forall i, j | 0 <= i < j < |s'| ensures compare(s'[i], s'[j]) <= 0 {
      var i', j' := if i <= |lo| then i else i - 1, if j <= |lo| then j else j - 1;
      assert i != |lo| ==> s'[i] == s[i'];
      assert j != |lo| ==> s'[j] == s[j'];
    }
  }

  lemma SortedDelete(compare: (Ref, Ref) -> int, lo: seq<Ref>, z: Ref, hi: seq<Ref>)
    requires Sorted(compare, lo + [z] + hi)
    ensures Sorted(compare, lo + hi)
  {
    var s, s' := lo + [z] + hi, lo + hi;
    forall i, j | 0 <= i < j < |s'| ensures compare(s'[i], s'[j]) <= 0 {
      assert s'[i] == s[if i < |lo| then i else i + 1];
      assert s'[j] == s[if j < |lo| then j else j + 1];
    }
  }

  // One step of the descent of rb_insert_binary.
  lemma Descend(compare: (Ref, Ref) -> int, c: Ctx, t: Tree, z: Ref, d: Dir)
    requires Preorder(compare) && t.Bin? && d == (if compare(t.n, z) > 0 then Left else Right)
    requires Sorted(compare, Before(c) + InOrder(t) + After(c)) && Parts(compare, Before(c), z, After(c))
    ensures var c' := Hole(d, t.n, t.red, Kid(t, d.Opp()), c);
      && Mk(d, Kid(t, d), t.n, t.red, Kid(t, d.Opp())) == t
      && Before(c') + InOrder(Kid(t, d)) + After(c') == Before(c) + InOrder(t) + After(c)
      && Parts(compare, Before(c'), z, After(c'))
  {
    hide InOrder;
    InOrderBin(t);
    Regroup(Before(c), InOrder(t.left), [t.n], InOrder(t.right), After(c));
    PartsAround(compare, Before(c), InOrder(t.left), t.n, InOrder(t.right), After(c), z);
  }

  lemma PartsAround(compare: (Ref, Ref) -> int, a: seq<Ref>, l: seq<Ref>, n: Ref, r: seq<Ref>, b: seq<Ref>, z: Ref)
    requires Preorder(compare) && Sorted(compare, a + (l + [n] + r) + b)
    ensures compare(n, z) > 0 ==> forall i :: 0 <= i < |r| ==> compare(r[i], z) > 0
    ensures compare(n, z) <= 0 ==> forall i :: 0 <= i < |l| ==> compare(l[i], z) <= 0
  {
    var s := a + (l + [n] + r) + b;
    assert s[|a| + |l|] == n;
    forall i | 0 <= i < |r| ensures compare(n, r[i]) <= 0 {
      assert s[|a| + |l| + 1 + i] == r[i];
    }
    forall i | 0 <= i < |l| ensures compare(l[i], n) <= 0 {
      assert s[|a| + i] == l[i];
    }
  }

  lemma InOrderBin(t: Tree)
    requires t.Bin?
    ensures InOrder(t) == InOrder(t.left) + [t.n] + InOrder(t.right)
  {
  }

  // A node outside the structure may change freely.
  lemma FocusFrame(h: Heap, h': Heap, nil: Ref, head: Ref, t: Tree, z: Ref)
    requires Focus(h, nil, head, Top, t) && z !in Nodes(t) && z != nil && z != head
    requires forall n :: n in h && n != z ==> n in h' && h'[n] == h[n]
    ensures Focus(h', nil, head, Top, t)
    ensures head in h && head in h' && h'[head].left == RefOf(t, nil)
  {
    TreeFrame(h, h', nil, t, head);
  }

  lemma Start(compare: (Ref, Ref) -> int, t: Tree, z: Ref)
    requires RedBlack(t)
    ensures Fits(Top, t) && CtxNodes(Top) == {}
    ensures Before(Top) + InOrder(t) + After(Top) == InOrder(t)
    ensures Parts(compare, Before(Top), z, After(Top))
  {
  }

  lemma FitsKid(c: Ctx, t: Tree, d: Dir)
    requires Fits(c, t) && t.Bin?
    ensures Fits(Hole(d, t.n, t.red, Kid(t, d.Opp()), c), Kid(t, d))
    ensures CtxNodes(Hole(d, t.n, t.red, Kid(t, d.Opp()), c)) + Nodes(Kid(t, d)) == CtxNodes(c) + Nodes(t)
  {
  }

  // The side of the hole is the side the comparison chooses.
  lemma Side(compare: (Ref, Ref) -> int, c: Ctx, z: Ref)
    requires Parts(compare, Before(c), z, After(c))
    ensures c.Hole? ==> (c.side == Left <==> compare(c.n, z) > 0)
  {
    if c.Hole? {
      if c.side == Left {
        assert After(c)[0] == c.n;
      } else {
        assert Before(c)[|Before(c)| - 1] == c.n;
      }
    }
  }

  lemma EmptyInOrder(t: Tree)
    requires t.Nil?
    ensures InOrder(t) == []
  {
  }

  lemma SingleInOrder(t: Tree)
    requires t.Bin? && t.left.Nil? && t.right.Nil? && t.red
    ensures InOrder(t) == [t.n] && Balanced(t) && BlackHeight(t) == 0
  {
  }

  // After the last rotation of the deletion fix-up the old parent is black.
  lemma Paid(h: Heap, nil: Ref, head: Ref, c: Ctx, t: Tree)
    requires c.Hole? && c.sib.Bin? && Kid(c.sib, c.side.Opp()).Bin?
    requires Focus(h, nil, head, c.up, PayDeficit(c, t))
    ensures c.n in h && !h[c.n].red
  {
    hide Focus;
    var s := c.side;
    var pt := Mk(s, t, c.n, false, Kid(c.sib, s));
    var pc := Hole(s, c.sib.n, c.red, Kid(c.sib, s.Opp()).(red := false), c.up);
    Up(h, nil, head, pc, pt);
    Look(h, nil, head, pc, pt);
  }

  // The node at the top of a context.
  function TopRef(c: Ctx): Ref
    requires c.Hole?
  {
    if c.up.Top? then c.n else TopRef(c.up)
  }

  // The invariant of the deletion fix-up at node `x`.  The cached root `r` is
  // still the root, or it has been rotated below it and `x` stands on it, red.
  ghost predicate Pending(h: Heap, nil: Ref, head: Ref, c: Ctx, t: Tree, x: Ref, r: Ref) {
    && Focus(h, nil, head, c, t) && Deficit(c, t)
    && x == RefOf(t, nil) && x in h && h[x].parent == ParentOf(c, head)
    && (c.Top? ==> x == r)
    && (c.Hole? ==> TopRef(c) == r || (x == r && IsRed(t)))
  }

  lemma {:induction false} TopRefIn(c: Ctx, t: Tree)
    requires c.Hole?
    ensures TopRef(c) in CtxNodes(c) && Plug(c, t).Bin? && Plug(c, t).n == TopRef(c)
  {
    if c.up.Hole? {
      TopRefIn(c.up, Mk(c.side, t, c.n, c.red, c.sib));
    }
  }

  lemma FindRoot(h: Heap, nil: Ref, head: Ref, c: Ctx, t: Tree)
    requires Focus(h, nil, head, c, t)
    ensures head in h && h[head].left == if c.Top? then RefOf(t, nil) else TopRef(c)
  {
    hide Focus;
    ToRoot(h, nil, head, c, t);
    Look(h, nil, head, Top, Plug(c, t));
    if c.Hole? { TopRefIn(c, t); }
  }

  lemma RootColour(h: Heap, nil: Ref, head: Ref, c: Ctx, t: Tree)
    requires Focus(h, nil, head, c, t) && RedBlack(Plug(c, t))
    ensures c.Hole? ==> TopRef(c) in h && !h[TopRef(c)].red
  {
    hide Focus;
    ToRoot(h, nil, head, c, t);
    Look(h, nil, head, Top, Plug(c, t));
    if c.Hole? { TopRefIn(c, t); }
  }

  // Standing on the cached root means standing at the top or on a red node.
  lemma AtRoot(h: Heap, nil: Ref, head: Ref, c: Ctx, t: Tree, x: Ref, r: Ref)
    requires Pending(h, nil, head, c, t, x, r) && (x == r || IsRed(t))
    ensures c.Top? || IsRed(t)
  {
    if c.Hole? && !IsRed(t) {
      TopRefIn(c, t);
      RootIn(c, t);
    }
  }

  // A deficient subtree has a sibling, and both nephews can be inspected.
  lemma SiblingIs(h: Heap, nil: Ref, head: Ref, c: Ctx, t: Tree)
    requires Focus(h, nil, head, c, t) && Deficit(c, t) && c.Hole?
    ensures c.sib.Bin? && c.sib.n != RefOf(t, nil) && c.sib.n in h
    ensures forall d: Dir :: h[c.sib.n].Child(d) == RefOf(Kid(c.sib, d), nil)
    ensures forall d: Dir :: RefOf(Kid(c.sib, d), nil) in h && h[RefOf(Kid(c.sib, d), nil)].red == IsRed(Kid(c.sib, d))
  {
    hide Nodes, CtxNodes;
    var wc := Hole(c.side.Opp(), c.n, c.red, t, c.up);
    Up(h, nil, head, c, t);
    Up(h, nil, head, wc, c.sib);
    Look(h, nil, head, c, t);
    Look(h, nil, head, wc, c.sib);
    var lc, rc := Hole(Left, c.sib.n, c.sib.red, c.sib.right, wc), Hole(Right, c.sib.n, c.sib.red, c.sib.left, wc);
    Up(h, nil, head, lc, c.sib.left);
    Up(h, nil, head, rc, c.sib.right);
    Look(h, nil, head, lc, c.sib.left);
    Look(h, nil, head, rc, c.sib.right);
  }

  function FirstOf(s: seq<Ref>, nil: Ref): Ref { if s == [] then nil else s[0] }

  function LastOf(s: seq<Ref>, nil: Ref): Ref { if s == [] then nil else s[|s| - 1] }

  lemma StepRight(c: Ctx, t: Tree)
    requires t.Bin?
    ensures After(Hole(Right, t.n, t.red, t.left, c)) == After(c)
    ensures Before(Hole(Right, t.n, t.red, t.left, c)) + InOrder(t.right) == Before(c) + InOrder(t)
  {
    assert Before(c) + (InOrder(t.left) + [t.n] + InOrder(t.right)) == Before(c) + InOrder(t.left) + [t.n] + InOrder(t.right);
  }

  lemma StepLeft(c: Ctx, t: Tree)
    requires t.Bin?
    ensures Before(Hole(Left, t.n, t.red, t.right, c)) == Before(c)
    ensures InOrder(t.left) + After(Hole(Left, t.n, t.red, t.right, c)) == InOrder(t) + After(c)
  {
    assert InOrder(t.left) + ([t.n] + InOrder(t.right) + After(c)) == InOrder(t.left) + [t.n] + InOrder(t.right) + After(c);
  }

  lemma StepUp(c: Ctx, t: Tree)
    requires c.Hole?
    ensures c.side == Right ==> After(c.up) == After(c)
    ensures c.side == Left ==> Before(c.up) == Before(c)
  {
  }

  lemma AtFirst(c: Ctx, t: Tree)
    requires t.Bin? && t.left.Nil?
    ensures FirstOf(InOrder(t) + After(c), t.n) == t.n && InOrder(t) + After(c) != []
  {
  }

  // Where the climb stops, the parent is the next node.
  lemma AtTurn(c: Ctx)
    ensures c.Top? ==> After(c) == [] && Before(c) == []
    ensures c.Hole? && c.side == Left ==> After(c) != [] && After(c)[0] == c.n
    ensures c.Hole? && c.side == Right ==> Before(c) != [] && Before(c)[|Before(c)| - 1] == c.n
  {
  }

  lemma LeftNil(h: Heap, nil: Ref, head: Ref, c: Ctx, t: Tree)
    requires Focus(h, nil, head, c, t) && t.Bin? && t.n in h
    ensures h[t.n].left == nil <==> t.left.Nil?
    ensures h[t.n].right == nil <==> t.right.Nil?
  {
    RootIn(c, t.left);
    RootIn(c, t.right);
  }

  lemma NoRight(h: Heap, nil: Ref, head: Ref, c: Ctx, t: Tree)
    requires Focus(h, nil, head, c, t) && t.Bin? && t.n in h && h[t.n].right == nil
    ensures InOrder(t.right) + After(c) == After(c)
  {
    LeftNil(h, nil, head, c, t);
  }

  lemma AtLast(c: Ctx, t: Tree)
    requires t.Bin? && t.right.Nil?
    ensures Before(c) + InOrder(t) != [] && LastOf(Before(c) + InOrder(t), t.n) == t.n
  {
  }

  lemma NoLeft(h: Heap, nil: Ref, head: Ref, c: Ctx, t: Tree)
    requires Focus(h, nil, head, c, t) && t.Bin? && t.n in h && h[t.n].left == nil
    ensures Before(c) + InOrder(t.left) == Before(c)
  {
    LeftNil(h, nil, head, c, t);
  }

  // The place of a node in the tree.
  lemma Place(h: Heap, nil: Ref, head: Ref, tree: Tree, z: Ref) returns (c: Ctx, t: Tree)
    requires Focus(h, nil, head, Top, tree) && z in Nodes(tree)
    ensures Focus(h, nil, head, c, t) && t.Bin? && t.n == z && Plug(c, t) == tree
    ensures RedBlack(tree) ==> Fits(c, t)
    ensures InOrder(tree) == Before(c) + InOrder(t.left) + [z] + (InOrder(t.right) + After(c))
  {
    hide Focus, InOrder;
    c, t := Locate(Top, tree, z);
    ToRoot(h, nil, head, c, t);
    PlugInOrder(c, t);
    InOrderBin(t);
    assert Before(c) + (InOrder(t.left) + [z] + InOrder(t.right)) + After(c)
        == Before(c) + InOrder(t.left) + [z] + (InOrder(t.right) + After(c));
  }

  lemma Neighbours(a: seq<Ref>, n: Ref, b: seq<Ref>, nil: Ref)
    ensures var s := a + [n] + b;
      && s[|a|] == n
      && FirstOf(b, nil) == (if |a| + 1 < |s| then s[|a| + 1] else nil)
      && LastOf(a, nil) == (if |a| > 0 then s[|a| - 1] else nil)
  {
  }

  lemma TreeRoot(h: Heap, nil: Ref, t: Tree, p: Ref)
    requires TreeAt(h, nil, t, p)
    ensures t.Bin? ==> t.n in h
  {
  }

  // The children of a node and its parent, as distinct heap cells.
  lemma KidsIn(h: Heap, nil: Ref, head: Ref, c: Ctx, t: Tree)
    requires Focus(h, nil, head, c, t) && t.Bin?
    ensures RefOf(t.left, nil) in h && RefOf(t.right, nil) in h
    ensures RefOf(t.left, nil) !in {t.n, ParentOf(c, head)} && RefOf(t.right, nil) !in {t.n, ParentOf(c, head)}
    ensures t.left.Bin? ==> RefOf(t.left, nil) != RefOf(t.right, nil)
    ensures t.n != ParentOf(c, head) && ParentOf(c, head) in CtxNodes(c) + {head}
    ensures t.left.Bin? ==> t.left.n in Nodes(t)
    ensures t.right.Bin? ==> t.right.n in Nodes(t)
  {
    hide CtxAt, TreeAt, Nodes, CtxNodes, Distinct, CtxDistinct;
    Look(h, nil, head, c, t);
    Unfold(h, nil, t, ParentOf(c, head), Left);
    TreeRoot(h, nil, t.left, t.n);
    TreeRoot(h, nil, t.right, t.n);
    RootIn(c, t);
    RootIn(c, t.left);
    RootIn(c, t.right);
  }

  lemma UpRight(h: Heap, nil: Ref, head: Ref, c: Ctx, t: Tree)
    requires t.Bin?
    ensures Focus(h, nil, head, c, t) <==> Focus(h, nil, head, Hole(Right, t.n, t.red, t.left, c), t.right)
  {
    hide Focus;
    Up(h, nil, head, Hole(Right, t.n, t.red, t.left, c), t.right);
  }

  // Once unlinked, the successor is outside the tree.
  lemma Aside(h: Heap, nil: Ref, head: Ref, c: Ctx, t: Tree, inner: Ctx, u: Tree)
    requires t.Bin? && u.Bin? && u.left.Nil? && Plug(inner, u) == t.right && Focus(h, nil, head, c, t)
    requires Focus(h, nil, head, Graft(inner, Hole(Right, t.n, t.red, t.left, c)), u)
    ensures u.n != nil && u.n != head && u.n !in CtxNodes(c)
    ensures u.n !in Nodes(t.(right := Plug(inner, u.right)))
  {
    hide TreeAt, CtxAt;
    GraftNodes(inner, Hole(Right, t.n, t.red, t.left, c));
    PlugNodes(inner, u.right);
  }

  // ------------------------------------------------- searching

  // The key's order is constant in sign along the sequence.
  ghost predicate Monotone(order: Ref -> int, s: seq<Ref>) {
    forall i, j :: 0 <= i < j < |s| ==> (order(s[i]) > 0 ==> order(s[j]) > 0) && (order(s[j]) < 0 ==> order(s[i]) < 0)
  }

  ghost predicate SearchInv(order: Ref -> int, tree: Tree, c: Ctx, t: Tree) {
    && Plug(c, t) == tree && Monotone(order, InOrder(tree))
    && (forall n :: n in Before(c) ==> order(n) < 0)
    && (forall n :: n in After(c) ==> order(n) > 0)
  }

  lemma SearchStart(order: Ref -> int, tree: Tree)
    requires Monotone(order, InOrder(tree))
    ensures SearchInv(order, tree, Top, tree)
  {
  }

  lemma SearchStep(order: Ref -> int, tree: Tree, c: Ctx, t: Tree, d: Dir)
    requires SearchInv(order, tree, c, t) && t.Bin? && order(t.n) != 0
    requires d == if order(t.n) > 0 then Left else Right
    ensures SearchInv(order, tree, Hole(d, t.n, t.red, Kid(t, d.Opp()), c), Kid(t, d))
    ensures Mk(d, Kid(t, d), t.n, t.red, Kid(t, d.Opp())) == t
  {
    hide InOrder, Monotone;
    PlugInOrder(c, t);
    InOrderBin(t);
    SameSign(order, Before(c), InOrder(t.left), t.n, InOrder(t.right), After(c));
  }

  lemma SameSign(order: Ref -> int, a: seq<Ref>, l: seq<Ref>, n: Ref, r: seq<Ref>, b: seq<Ref>)
    requires Monotone(order, a + (l + [n] + r) + b)
    ensures order(n) > 0 ==> forall m :: m in r ==> order(m) > 0
    ensures order(n) < 0 ==> forall m :: m in l ==> order(m) < 0
  {
    var s := a + (l + [n] + r) + b;
    assert s[|a| + |l|] == n;
    forall m | m in r && order(n) > 0 ensures order(m) > 0 {
      var i :| 0 <= i < |r| && r[i] == m;
      assert s[|a| + |l| + 1 + i] == m;
    }
    forall m | m in l && order(n) < 0 ensures order(m) < 0 {
      var i :| 0 <= i < |l| && l[i] == m;
      assert s[|a| + i] == m;
    }
  }

  lemma SearchEnd(order: Ref -> int, tree: Tree, c: Ctx, t: Tree)
    requires SearchInv(order, tree, c, t)
    ensures t.Bin? ==> t.n in Nodes(tree)
    ensures t.Nil? ==> forall n :: n in Nodes(tree) ==> order(n) != 0
  {
    hide Monotone;
    PlugInOrder(c, t);
    InOrderNodes(tree);
    InOrderNodes(t);
  }

  // ------------------------------------------------- the tree

  class RbTree {
    var compare: (Ref, Ref) -> int       // reads the containers of the nodes
    const nil: Ref
    const root: Ref
    var heap: Heap
    ghost var tree: Tree

    ghost predicate Valid()
      reads this
    {
      && Preorder(compare)
      && Focus(heap, nil, root, Top, tree)
      && RedBlack(tree)
      && Sorted(compare, InOrder(tree))
    }

    // rb_tree_create, once its two nodes are allocated.
    constructor (compare: (Ref, Ref) -> int, nil: Ref, root: Ref)
      requires Preorder(compare) && nil != root
      ensures Valid() && InOrder(tree) == []
      ensures this.compare == compare && this.nil == nil && this.root == root
    {
      this.compare, this.nil, this.root := compare, nil, root;
      heap := map[nil := Node(nil, nil, nil, false), root := Node(nil, nil, nil, false)];
      tree := Nil;
    }

    method Rotate(d: Dir, x: Ref, ghost c: Ctx, ghost t: Tree)
      requires Focus(heap, nil, root, c, t) && t.Bin? && t.n == x && Kid(t, d.Opp()).Bin?
      modifies this`heap
      ensures Focus(heap, nil, root, c, Rotated(t, d))
      ensures heap[nil] == old(heap)[nil]
    {
      hide Focus, TreeAt, CtxAt, Nodes, CtxNodes, Distinct, CtxDistinct, Rotated;
      ghost var h := heap;
      RotateParts(h, nil, root, c, t, d);
      var y := heap[x].Child(d.Opp());
      heap := heap[x := heap[x].SetChild(d.Opp(), heap[y].Child(d))];
      if heap[y].Child(d) != nil {
        var b := heap[y].Child(d);
        heap := heap[b := heap[b].(parent := x)];
      }
      heap := heap[y := heap[y].(parent := heap[x].parent)];
      var p := heap[x].parent;
      if x == heap[p].Child(d) {
        heap := heap[p := heap[p].SetChild(d, y)];
      } else {
        heap := heap[p := heap[p].SetChild(d.Opp(), y)];
      }
      heap := heap[y := heap[y].SetChild(d, x)];
      heap := heap[x := heap[x].(parent := y)];
      RotateFocus(h, heap, nil, root, c, t, d);
    }

    method Repaint(n: Ref, red: bool, ghost c: Ctx, ghost t: Tree)
      requires Focus(heap, nil, root, c, t) && t.Bin? && t.n == n
      modifies this`heap
      ensures Focus(heap, nil, root, c, t.(red := red))
      ensures heap[nil] == old(heap)[nil]
    {
      hide Focus, TreeAt, CtxAt;
      Look(heap, nil, root, c, t);
      ghost var h := heap;
      heap := heap[n := heap[n].(red := red)];
      Paint(h, heap, nil, root, c, t, red);
    }

    // RB_INSERT_SUB, red uncle.
    method InsertRecolor(x: Ref, d: Dir, ghost c: Ctx, ghost t: Tree) returns (x': Ref)
      requires Focus(heap, nil, root, c, t) && t.Bin? && t.n == x
      requires c.Hole? && c.red && c.up.Hole? && !c.up.red && c.up.sib.Bin? && c.up.side == d
      modifies this`heap
      ensures Focus(heap, nil, root, c.up.up, PushRedUp(c, t))
      ensures x' == c.up.n
    {
      hide Focus, TreeAt, CtxAt, CtxNodes, Nodes;
      ghost var up := c.up;
      ghost var pt := Mk(c.side, t, c.n, c.red, c.sib);
      Up(heap, nil, root, c, t);
      Look(heap, nil, root, c, t);
      Look(heap, nil, root, up, pt);
      var p := heap[x].parent;
      var g := heap[p].parent;
      var y := heap[g].Child(d.Opp());
      Repaint(p, false, up, pt);
      pt := pt.(red := false);
      Up(heap, nil, root, up, pt);
      ghost var uc := Hole(d.Opp(), g, false, pt, up.up);
      Up(heap, nil, root, uc, up.sib);
      Repaint(y, false, uc, up.sib);
      Up(heap, nil, root, uc, up.sib.(red := false));
      Repaint(g, true, up.up, Mk(d, pt, g, false, up.sib.(red := false)));
      x' := g;
    }

    // RB_INSERT_SUB, black uncle.
    method InsertRotate(node: Ref, d: Dir, ghost c0: Ctx, ghost t0: Tree) returns (x: Ref, ghost c: Ctx, ghost t: Tree)
      requires Focus(heap, nil, root, c0, t0) && t0.Bin? && t0.n == node && RedAtHole(c0, t0)
      requires c0.Hole? && c0.red && c0.up.Hole? && !IsRed(c0.up.sib) && c0.up.side == d
      modifies this`heap
      ensures Focus(heap, nil, root, c, t) && t.Bin? && t.n == x && RedAtHole(c, t)
      ensures c.Hole? && !c.red
      ensures InOrder(Plug(c, t)) == InOrder(Plug(c0, t0))
    {
      hide Focus, TreeAt, CtxAt, CtxNodes, Nodes, RedAtHole, InOrder, Plug, Rotated;
      x, c, t := node, c0, t0;
      Look(heap, nil, root, c, t);
      ghost var pt := Mk(c.side, t, c.n, true, c.sib);
      Up(heap, nil, root, c, t);
      if x == heap[heap[x].parent].Child(d.Opp()) {
        TurnOutOk(c, t);
        x := heap[x].parent;
        Rotate(d, x, c.up, pt);
        pt := Rotated(pt, d);
        c, t := Hole(d, pt.n, true, Kid(pt, d.Opp()), c.up), Kid(pt, d);
        Up(heap, nil, root, c, t);
        Look(heap, nil, root, c, t);
      }
      LiftParentOk(c, t);
      Repaint(heap[x].parent, false, c.up, pt);
      pt := pt.(red := false);
      Up(heap, nil, root, c.up, pt);
      Up(heap, nil, root, c.(red := false), t);
      Look(heap, nil, root, c.(red := false), t);
      Look(heap, nil, root, c.up, pt);
      ghost var up := c.up.up;
      ghost var gt := Mk(d, pt, c.up.n, false, c.up.sib);
      Repaint(heap[heap[x].parent].parent, true, up, gt);
      gt := gt.(red := true);
      ghost var c2 := Hole(d, c.up.n, true, c.up.sib, up);
      Up(heap, nil, root, c2, pt);
      Up(heap, nil, root, Hole(d, c.n, false, c.sib, c2), t);
      Look(heap, nil, root, c2, pt);
      Look(heap, nil, root, Hole(d, c.n, false, c.sib, c2), t);
      Rotate(d.Opp(), heap[heap[x].parent].parent, up, gt);
      c := Hole(d, c.n, false, Mk(d, c.sib, c.up.n, true, c.up.sib), up);
      Up(heap, nil, root, c, t);
    }

    method InsertFixup(node: Ref, ghost c0: Ctx, ghost t0: Tree)
      requires Focus(heap, nil, root, c0, t0) && t0.Bin? && t0.n == node && RedAtHole(c0, t0)
      modifies this`heap, this`tree
      ensures Focus(heap, nil, root, Top, tree) && RedBlack(tree)
      ensures InOrder(tree) == InOrder(Plug(c0, t0))
    {
      hide Focus, TreeAt, CtxAt, CtxNodes, Nodes, Balanced;
      var x := node;
      ghost var c, t := c0, t0;
      Look(heap, nil, root, c, t);
      while heap[heap[x].parent].red
        invariant Focus(heap, nil, root, c, t)
        invariant t.Bin? && t.n == x && RedAtHole(c, t)
        invariant x in heap && heap[x].parent == ParentOf(c, root) && heap[x].parent in heap
        invariant heap[heap[x].parent].red == (c.Hole? && c.red)
        invariant InOrder(Plug(c, t)) == InOrder(Plug(c0, t0))
        decreases c.Hole? && c.red, c
      {
        Up(heap, nil, root, c, t);
        Look(heap, nil, root, c, t);
        Look(heap, nil, root, c.up, Mk(c.side, t, c.n, c.red, c.sib));
        var p := heap[x].parent;
        var g := heap[p].parent;
        var d := if p == heap[g].left then Left else Right;
        if heap[heap[g].Child(d.Opp())].red {
          PushRedUpOk(c, t);
          x := InsertRecolor(x, d, c, t);
          c, t := c.up.up, PushRedUp(c, t);
        } else {
          x, c, t := InsertRotate(x, d, c, t);
        }
        Look(heap, nil, root, c, t);
      }
      ToRoot(heap, nil, root, c, t);
      tree := Plug(c, t);
      InsertDone(c, t);
      Look(heap, nil, root, Top, tree);
      Repaint(heap[root].left, false, Top, tree);
      tree := tree.(red := false);
    }

    method InsertBinary(z: Ref) returns (ghost c: Ctx)
      requires Valid() && z in heap && z != nil && z != root && z !in Nodes(tree)
      modifies this`heap
      ensures z in heap && Focus(heap, nil, root, c, Bin(Nil, z, heap[z].red, Nil))
      ensures Fits(c, Nil)
      ensures Before(c) + After(c) == InOrder(tree) && Parts(compare, Before(c), z, After(c))
    {
      hide Focus, TreeAt, CtxAt, Nodes, CtxNodes, Fits, RedBlack, Before, After, InOrder, Plug, Parts, Preorder,
        Sorted, Mk;
      ghost var h := heap;
      heap := heap[z := heap[z].(left := nil, right := nil)];
      FocusFrame(h, heap, nil, root, tree, z);
      var y := root;
      var x := heap[y].left;
      c := Top;
      ghost var t := tree;
      Start(compare, tree, z);
      while x != nil
        invariant Focus(heap, nil, root, c, t) && x == RefOf(t, nil) && y == ParentOf(c, root)
        invariant Fits(c, t) && z in heap && heap[z].left == heap[z].right == nil
        invariant z !in CtxNodes(c) && z !in Nodes(t)
        invariant Before(c) + InOrder(t) + After(c) == InOrder(tree)
        invariant Parts(compare, Before(c), z, After(c))
        decreases t
      {
        Look(heap, nil, root, c, t);
        var d := if compare(x, z) > 0 then Left else Right;
        Descend(compare, c, t, z, d);
        FitsKid(c, t, d);
        y := x;
        x := heap[x].Child(d);
        c, t := Hole(d, t.n, t.red, Kid(t, d.Opp()), c), Kid(t, d);
        Up(heap, nil, root, c, t);
      }
      Look(heap, nil, root, c, t);
      EmptyInOrder(t);
      LinkLeaf(z, y, c);
    }

    method LinkLeaf(z: Ref, y: Ref, ghost c: Ctx)
      requires Focus(heap, nil, root, c, Nil) && y == ParentOf(c, root) && z !in CtxNodes(c)
      requires z in heap && z != nil && z != root && heap[z].left == heap[z].right == nil
      requires Parts(compare, Before(c), z, After(c))
      modifies this`heap
      ensures z in heap && Focus(heap, nil, root, c, Bin(Nil, z, heap[z].red, Nil))
    {
      hide Focus, TreeAt, CtxAt, Nodes, CtxNodes, Before, After;
      ghost var h := heap;
      Look(heap, nil, root, c, Nil);
      RootIn(c, Nil);
      Side(compare, c, z);
      heap := heap[z := heap[z].(parent := y)];
      if y == root || compare(y, z) > 0 {
        heap := heap[y := heap[y].(left := z)];
      } else {
        heap := heap[y := heap[y].(right := z)];
      }
      Attach(h, heap, nil, root, c, z, h[z].red);
    }

    method Insert(node: Ref) returns (ghost k: nat)
      requires Valid() && node in heap && node != nil && node != root && node !in Nodes(tree)
      modifies this`heap, this`tree
      ensures Valid() && k <= |old(InOrder(tree))|
      ensures InOrder(tree) == old(InOrder(tree))[..k] + [node] + old(InOrder(tree))[k..]
      ensures Parts(compare, old(InOrder(tree))[..k], node, old(InOrder(tree))[k..])
    {
      hide Focus, TreeAt, CtxAt, Nodes, CtxNodes, RedBlack, Before, After, InOrder, Distinct, CtxDistinct, Plug;
      ghost var s := InOrder(tree);
      ghost var c := InsertBinary(node);
      ghost var t := Bin(Nil, node, true, Nil);
      Repaint(node, true, c, Bin(Nil, node, heap[node].red, Nil));
      PlugInOrder(c, t);
      SingleInOrder(t);
      assert Before(c) + After(c) == s;
      InsertFixup(node, c, t);
      k := |Before(c)|;
      assert s[..k] == Before(c) && s[k..] == After(c);
      SortedInsert(compare, Before(c), node, After(c));
    }

    // RB_DELETE_FIXUP_SUB, red sibling.
    method SiblingUp(x: Ref, d: Dir, ghost c: Ctx, ghost t: Tree)
      requires Focus(heap, nil, root, c, t) && x == RefOf(t, nil) && heap[x].parent == ParentOf(c, root)
      requires Deficit(c, t) && c.Hole? && c.side == d && IsRed(c.sib)
      modifies this`heap
      ensures Focus(heap, nil, root, SwapSibling(c), t) && heap[nil] == old(heap)[nil]
    {
      hide Focus, TreeAt, CtxAt, Nodes, CtxNodes, Deficit, InOrder, Plug, Rotated;
      Look(heap, nil, root, c, t);
      SwapSiblingOk(c, t);
      var p := heap[x].parent;
      var w := heap[p].Child(d.Opp());
      ghost var wc := Hole(d.Opp(), p, false, t, c.up);
      Up(heap, nil, root, c, t);
      Up(heap, nil, root, wc, c.sib);
      Repaint(w, false, wc, c.sib);
      ghost var w' := c.sib.(red := false);
      Up(heap, nil, root, wc, w');
      Repaint(p, true, c.up, Mk(d, t, p, false, w'));
      ghost var pt := Mk(d, t, p, true, w');
      Up(heap, nil, root, Hole(d, p, true, w', c.up), t);
      Look(heap, nil, root, Hole(d, p, true, w', c.up), t);
      Rotate(d, p, c.up, pt);
      ghost var c' := SwapSibling(c);
      Up(heap, nil, root, c'.up, Mk(d, t, p, true, Kid(c.sib, d)));
      Up(heap, nil, root, c', t);
    }

    // RB_DELETE_FIXUP_SUB, black sibling with black children.
    method SiblingRed(x: Ref, w: Ref, d: Dir, ghost c: Ctx, ghost t: Tree) returns (x': Ref)
      requires Focus(heap, nil, root, c, t) && x == RefOf(t, nil) && heap[x].parent == ParentOf(c, root)
      requires c.Hole? && c.side == d && c.sib.Bin? && c.sib.n == w
      modifies this`heap
      ensures Focus(heap, nil, root, c.up, RedSibling(c, t)) && x' == c.n
    {
      hide Focus, TreeAt, CtxAt, Nodes, CtxNodes;
      ghost var wc := Hole(d.Opp(), c.n, c.red, t, c.up);
      Up(heap, nil, root, c, t);
      Up(heap, nil, root, wc, c.sib);
      Repaint(w, true, wc, c.sib);
      Up(heap, nil, root, wc, c.sib.(red := true));
      Up(heap, nil, root, c.(sib := c.sib.(red := true)), t);
      Look(heap, nil, root, c.(sib := c.sib.(red := true)), t);
      x' := heap[x].parent;
    }

    // RB_DELETE_FIXUP_SUB, red near nephew and black far nephew.
    method NephewOut(x: Ref, w: Ref, d: Dir, ghost c: Ctx, ghost t: Tree)
      requires Focus(heap, nil, root, c, t) && x == RefOf(t, nil) && heap[x].parent == ParentOf(c, root)
      requires Deficit(c, t) && c.Hole? && c.side == d && c.sib.Bin? && !c.sib.red && c.sib.n == w
      requires IsRed(Kid(c.sib, d)) && !IsRed(Kid(c.sib, d.Opp()))
      modifies this`heap
      ensures Focus(heap, nil, root, c.(sib := FarSibling(c.sib, d)), t) && heap[nil] == old(heap)[nil]
    {
      hide Focus, TreeAt, CtxAt, Nodes, CtxNodes, Deficit, InOrder, Plug, Rotated, FarSibling;
      FarSiblingOk(c, t);
      ghost var wt, n := c.sib, Kid(c.sib, d);
      ghost var wc := Hole(d.Opp(), c.n, c.red, t, c.up);
      Up(heap, nil, root, c, t);
      Up(heap, nil, root, wc, wt);
      Look(heap, nil, root, wc, wt);
      ghost var nc := Hole(d, w, false, Kid(wt, d.Opp()), wc);
      Up(heap, nil, root, nc, n);
      Repaint(heap[w].Child(d), false, nc, n);
      ghost var n' := n.(red := false);
      Up(heap, nil, root, nc, n');
      Repaint(w, true, wc, Mk(d, n', w, false, Kid(wt, d.Opp())));
      Rotate(d.Opp(), w, wc, Mk(d, n', w, true, Kid(wt, d.Opp())));
      Up(heap, nil, root, wc, FarSibling(wt, d));
      Up(heap, nil, root, c.(sib := FarSibling(wt, d)), t);
    }

    // RB_DELETE_FIXUP_SUB, red far nephew.
    method NephewPays(x: Ref, w: Ref, d: Dir, ghost c: Ctx, ghost t: Tree)
      requires Focus(heap, nil, root, c, t) && x == RefOf(t, nil) && heap[x].parent == ParentOf(c, root)
      requires Deficit(c, t) && !IsRed(t) && c.Hole? && c.side == d && c.sib.Bin? && !c.sib.red && c.sib.n == w
      requires IsRed(Kid(c.sib, d.Opp()))
      modifies this`heap
      ensures Focus(heap, nil, root, c.up, PayDeficit(c, t))
      ensures c.n in heap && !heap[c.n].red
    {
      hide Focus, TreeAt, CtxAt, Nodes, CtxNodes, Deficit, InOrder, Plug, Rotated, PayDeficit, RedBlack;
      PayDeficitOk(c, t);
      Look(heap, nil, root, c, t);
      ghost var wt, f := c.sib, Kid(c.sib, d.Opp());
      ghost var wc := Hole(d.Opp(), c.n, c.red, t, c.up);
      Up(heap, nil, root, c, t);
      Up(heap, nil, root, wc, wt);
      var p := heap[x].parent;
      Repaint(w, heap[p].red, wc, wt);
      wt := wt.(red := c.red);
      Up(heap, nil, root, wc, wt);
      Repaint(p, false, c.up, Mk(d, t, p, c.red, wt));
      wc := wc.(red := false);
      Up(heap, nil, root, wc, wt);
      Look(heap, nil, root, wc, wt);
      ghost var fc := Hole(d.Opp(), w, c.red, Kid(wt, d), wc);
      Up(heap, nil, root, fc, f);
      Repaint(heap[w].Child(d.Opp()), false, fc, f);
      ghost var f' := f.(red := false);
      Up(heap, nil, root, fc, f');
      ghost var w' := Mk(d, Kid(wt, d), w, c.red, f');
      Up(heap, nil, root, wc, w');
      Rotate(d, p, c.up, Mk(d, t, p, false, w'));
      Paid(heap, nil, root, c, t);
    }

    // One round of the deletion fix-up; `r` is the root cached before the loop.
    method FixupRound(node: Ref, r: Ref, ghost c0: Ctx, ghost t0: Tree)
      returns (x: Ref, ghost c: Ctx, ghost t: Tree, ghost done: bool)
      requires Pending(heap, nil, root, c0, t0, node, r) && c0.Hole? && !IsRed(t0)
      modifies this`heap
      ensures InOrder(Plug(c, t)) == InOrder(Plug(c0, t0))
      ensures done ==> Focus(heap, nil, root, c, t) && RedBlack(Plug(c, t)) && x == r && r in heap && !heap[r].red
      ensures !done ==> Pending(heap, nil, root, c, t, x, r) && (IsRed(t) || c < c0)
    {
      hide Focus, TreeAt, CtxAt, Nodes, CtxNodes, Deficit, InOrder, RedBlack, Plug, FarSibling, PayDeficit;
      x, c, t, done := node, c0, t0, false;
      Look(heap, nil, root, c, t);
      SiblingIs(heap, nil, root, c, t);
      var d := if x == heap[heap[x].parent].left then Left else Right;
      var w := heap[heap[x].parent].Child(d.Opp());
      if heap[w].red {
        SiblingUp(x, d, c, t);
        SwapSiblingOk(c, t);
        c := SwapSibling(c);
        Look(heap, nil, root, c, t);
        SiblingIs(heap, nil, root, c, t);
        w := heap[heap[x].parent].Child(d.Opp());
      }
      if !heap[heap[w].Child(d)].red && !heap[heap[w].Child(d.Opp())].red {
        RedSiblingOk(c, t);
        x := SiblingRed(x, w, d, c, t);
        c, t := c.up, RedSibling(c, t);
        Look(heap, nil, root, c, t);
      } else {
        if !heap[heap[w].Child(d.Opp())].red {
          NephewOut(x, w, d, c, t);
          FarSiblingOk(c, t);
          c := c.(sib := FarSibling(c.sib, d));
          Look(heap, nil, root, c, t);
          SiblingIs(heap, nil, root, c, t);
          w := heap[heap[x].parent].Child(d.Opp());
        }
        NephewPays(x, w, d, c, t);
        PayDeficitOk(c, t);
        c, t := c.up, PayDeficit(c, t);
        x, done := r, true;
        RootColour(heap, nil, root, c, t);
      }
    }

    method DeleteFixup(node: Ref, ghost c0: Ctx, ghost t0: Tree)
      requires Focus(heap, nil, root, c0, t0) && node == RefOf(t0, nil) && heap[node].parent == ParentOf(c0, root)
      requires Deficit(c0, t0)
      modifies this`heap, this`tree
      ensures Focus(heap, nil, root, Top, tree) && RedBlack(tree)
      ensures InOrder(tree) == InOrder(Plug(c0, t0))
    {
      hide Focus, TreeAt, CtxAt, Nodes, CtxNodes, Deficit, InOrder, RedBlack, Plug;
      FindRoot(heap, nil, root, c0, t0);
      var x, r := node, heap[root].left;
      ghost var c, t, done := c0, t0, false;
      Look(heap, nil, root, c, t);
      while x != r && !heap[x].red
        invariant x in heap && InOrder(Plug(c, t)) == InOrder(Plug(c0, t0))
        invariant done ==> Focus(heap, nil, root, c, t) && RedBlack(Plug(c, t)) && x == r && !heap[r].red
        invariant !done ==> Pending(heap, nil, root, c, t, x, r) && heap[x].red == IsRed(t)
        decreases x != r && !heap[x].red, c
      {
        x, c, t, done := FixupRound(x, r, c, t);
        Look(heap, nil, root, c, t);
      }
      if !done {
        AtRoot(heap, nil, root, c, t, x, r);
        DeleteDone(c, t);
        Look(heap, nil, root, c, t);
        if t.Bin? { Paint(heap, heap[x := heap[x].(red := false)], nil, root, c, t, false); }
      }
      assert !heap[x].red ==> heap[x := heap[x].(red := false)] == heap;
      heap := heap[x := heap[x].(red := false)];
      if !done && t.Bin? { t := t.(red := false); }
      ToRoot(heap, nil, root, c, t);
      tree := Plug(c, t);
    }

    // rb_tree_successor at a known place in the tree.
    method Successor(node: Ref, ghost c: Ctx, ghost t: Tree) returns (y: Ref)
      requires Focus(heap, nil, root, c, t) && t.Bin? && t.n == node
      ensures y == FirstOf(InOrder(t.right) + After(c), nil)
    {
      hide Focus, TreeAt, CtxAt, Nodes, CtxNodes, InOrder, After;
      Look(heap, nil, root, c, t);
      y := heap[node].right;
      if y != nil {
        ghost var u, uc := t.right, Hole(Right, t.n, t.red, t.left, c);
        Up(heap, nil, root, uc, u);
        Look(heap, nil, root, uc, u);
        StepRight(c, t);
        while heap[y].left != nil
          invariant Focus(heap, nil, root, uc, u) && u.Bin? && y == u.n && y in heap
          invariant heap[y].left == RefOf(u.left, nil)
          invariant InOrder(u) + After(uc) == InOrder(t.right) + After(c)
          decreases u
        {
          StepLeft(uc, u);
          y := heap[y].left;
          u, uc := u.left, Hole(Left, u.n, u.red, u.right, uc);
          Up(heap, nil, root, uc, u);
          Look(heap, nil, root, uc, u);
        }
        LeftNil(heap, nil, root, uc, u);
        AtFirst(uc, u);
      } else {
        var x := node;
        y := heap[x].parent;
        ghost var u, uc := t, c;
        NoRight(heap, nil, root, c, t);
        while x == heap[y].right
          invariant Focus(heap, nil, root, uc, u) && u.Bin? && x == u.n && y == ParentOf(uc, root)
          invariant y in heap && (x == heap[y].right <==> uc.Hole? && uc.side == Right)
          invariant After(uc) == After(c)
          decreases uc
        {
          Look(heap, nil, root, uc, u);
          StepUp(uc, u);
          x, y := y, heap[y].parent;
          Up(heap, nil, root, uc, u);
          u, uc := Mk(uc.side, u, uc.n, uc.red, uc.sib), uc.up;
          Look(heap, nil, root, uc, u);
        }
        Look(heap, nil, root, uc, u);
        AtTurn(uc);
        if y == root {
          y := nil;
        }
      }
    }

    // rb_tree_predecessor at a known place in the tree.
    method Predecessor(node: Ref, ghost c: Ctx, ghost t: Tree) returns (y: Ref)
      requires Focus(heap, nil, root, c, t) && t.Bin? && t.n == node
      ensures y == LastOf(Before(c) + InOrder(t.left), nil)
    {
      hide Focus, TreeAt, CtxAt, Nodes, CtxNodes, InOrder, Before;
      Look(heap, nil, root, c, t);
      y := heap[node].left;
      if y != nil {
        ghost var u, uc := t.left, Hole(Left, t.n, t.red, t.right, c);
        Up(heap, nil, root, uc, u);
        Look(heap, nil, root, uc, u);
        StepLeft(c, t);
        while heap[y].right != nil
          invariant Focus(heap, nil, root, uc, u) && u.Bin? && y == u.n && y in heap
          invariant heap[y].right == RefOf(u.right, nil)
          invariant Before(uc) + InOrder(u) == Before(c) + InOrder(t.left)
          decreases u
        {
          StepRight(uc, u);
          y := heap[y].right;
          u, uc := u.right, Hole(Right, u.n, u.red, u.left, uc);
          Up(heap, nil, root, uc, u);
          Look(heap, nil, root, uc, u);
        }
        LeftNil(heap, nil, root, uc, u);
        AtLast(uc, u);
      } else {
        var x := node;
        y := heap[x].parent;
        ghost var u, uc := t, c;
        NoLeft(heap, nil, root, c, t);
        while x == heap[y].left
          invariant Focus(heap, nil, root, uc, u) && u.Bin? && x == u.n && y == ParentOf(uc, root)
          invariant y in heap && (x == heap[y].left <==> uc.Top? || uc.side == Left) && (y == root <==> uc.Top?)
          invariant Before(uc) == Before(c)
          decreases uc
        {
          Look(heap, nil, root, uc, u);
          if y == root {
            AtTurn(uc);
            return nil;
          }
          StepUp(uc, u);
          x, y := y, heap[y].parent;
          Up(heap, nil, root, uc, u);
          u, uc := Mk(uc.side, u, uc.n, uc.red, uc.sib), uc.up;
          Look(heap, nil, root, uc, u);
        }
        AtTurn(uc);
      }
    }

    // rb_node_next and rb_node_prev: the neighbours of a node in the in-order
    // sequence, `k` being its index there.
    method Next(node: Ref) returns (r: Ref, ghost k: nat)
      requires Valid() && node in Nodes(tree)
      ensures k < |InOrder(tree)| && InOrder(tree)[k] == node
      ensures r == if k + 1 < |InOrder(tree)| then InOrder(tree)[k + 1] else nil
    {
      hide Focus, TreeAt, CtxAt, Nodes, CtxNodes, InOrder, Before, After, Plug;
      ghost var c, t := Place(heap, nil, root, tree, node);
      r := Successor(node, c, t);
      k := |Before(c) + InOrder(t.left)|;
      Neighbours(Before(c) + InOrder(t.left), node, InOrder(t.right) + After(c), nil);
    }

    method Prev(node: Ref) returns (r: Ref, ghost k: nat)
      requires Valid() && node in Nodes(tree)
      ensures k < |InOrder(tree)| && InOrder(tree)[k] == node
      ensures r == if k > 0 then InOrder(tree)[k - 1] else nil
    {
      hide Focus, TreeAt, CtxAt, Nodes, CtxNodes, InOrder, Before, After, Plug;
      ghost var c, t := Place(heap, nil, root, tree, node);
      r := Predecessor(node, c, t);
      k := |Before(c) + InOrder(t.left)|;
      Neighbours(Before(c) + InOrder(t.left), node, InOrder(t.right) + After(c), nil);
    }

    // The first assignments of rb_delete: bypass `y`, which has at most one child.
    method Unlink(y: Ref, ghost c: Ctx, ghost t: Tree) returns (x: Ref, ghost d: Dir)
      requires Focus(heap, nil, root, c, t) && t.Bin? && t.n == y && (t.left.Nil? || t.right.Nil?)
      modifies this`heap
      ensures Kid(t, d.Opp()).Nil? && (t.left.Nil? ==> d == Right) && x == RefOf(Kid(t, d), nil)
      ensures Focus(heap, nil, root, c, Kid(t, d)) && x in heap && heap[x].parent == ParentOf(c, root)
      ensures heap.Keys == old(heap).Keys && Nodes(Kid(t, d)) == Nodes(t) - {y}
      ensures forall n :: n in old(heap) && n != x && n != ParentOf(c, root) ==> heap[n] == old(heap)[n]
    {
      hide Focus, TreeAt, CtxAt, Nodes, CtxNodes;
      ghost var h := heap;
      Look(heap, nil, root, c, t);
      LeftNil(heap, nil, root, c, t);
      KidsIn(heap, nil, root, c, t);
      x := if heap[y].left != nil then heap[y].left else heap[y].right;
      d := if heap[y].left != nil then Left else Right;
      heap := heap[x := heap[x].(parent := heap[y].parent)];
      var p := heap[y].parent;
      if y == heap[p].left {
        heap := heap[p := heap[p].(left := x)];
      } else {
        heap := heap[p := heap[p].(right := x)];
      }
      Bypass(h, heap, nil, root, c, t, d);
    }

    // The last assignments of rb_delete: `y` takes the place of `z`.
    method TakePlace(y: Ref, z: Ref, ghost c: Ctx, ghost t: Tree)
      requires Focus(heap, nil, root, c, t) && t.Bin? && t.n == z && t.left.Bin?
      requires y in heap && y !in Nodes(t) && y !in CtxNodes(c) && y != nil && y != root
      modifies this`heap
      ensures Focus(heap, nil, root, c, t.(n := y))
      ensures nil in heap && heap[nil] == if t.right.Nil? then old(heap)[nil].(parent := y) else old(heap)[nil]
    {
      hide Focus, TreeAt, CtxAt, Nodes, CtxNodes;
      ghost var h := heap;
      Look(heap, nil, root, c, t);
      LeftNil(heap, nil, root, c, t);
      KidsIn(heap, nil, root, c, t);
      var p := heap[z].parent;
      if z == heap[p].left {
        heap := heap[p := heap[p].(left := y)];
      } else {
        heap := heap[p := heap[p].(right := y)];
      }
      var r := heap[z].right;
      heap := heap[r := heap[r].(parent := y)];
      var l := heap[z].left;
      heap := heap[l := heap[l].(parent := y)];
      heap := heap[y := heap[z]];
      Replace(h, heap, nil, root, c, t, y);
    }

    // rb_delete when `z` has at most one child.
    method DeleteSingle(z: Ref, ghost c: Ctx, ghost t: Tree)
      requires Focus(heap, nil, root, c, t) && t.Bin? && t.n == z && (t.left.Nil? || t.right.Nil?) && Fits(c, t)
      modifies this`heap, this`tree
      ensures Focus(heap, nil, root, Top, tree) && RedBlack(tree)
      ensures InOrder(tree) == Before(c) + InOrder(t.left) + InOrder(t.right) + After(c)
    {
      hide Focus, TreeAt, CtxAt, Nodes, CtxNodes, InOrder, Before, After, Fits, Deficit;
      Look(heap, nil, root, c, t);
      var needFixup := !heap[z].red;
      var x;
      ghost var d;
      x, d := Unlink(z, c, t);
      BypassBalance(c, t, d);
      BypassInOrder(t, d);
      PlugInOrder(c, Kid(t, d));
      assert Before(c) + (InOrder(t.left) + InOrder(t.right)) + After(c)
          == Before(c) + InOrder(t.left) + InOrder(t.right) + After(c);
      if needFixup {
        DeleteFixup(x, c, Kid(t, d));
      } else {
        PlugBalanced(c, Kid(t, d));
        ToRoot(heap, nil, root, c, Kid(t, d));
        tree := Plug(c, Kid(t, d));
      }
    }

    // rb_delete when `z` has two children: its successor `y` is unlinked and
    // then takes the place of `z`.
    method DeleteDouble(z: Ref, ghost c: Ctx, ghost t: Tree)
      requires Focus(heap, nil, root, c, t) && t.Bin? && t.n == z && t.left.Bin? && t.right.Bin? && Fits(c, t)
      modifies this`heap, this`tree
      ensures Focus(heap, nil, root, Top, tree) && RedBlack(tree)
      ensures InOrder(tree) == Before(c) + InOrder(t.left) + InOrder(t.right) + After(c)
    {
      hide Focus, TreeAt, CtxAt, Nodes, CtxNodes, InOrder, Before, After, Fits, Deficit, Plug;
      var y := Successor(z, c, t);
      ghost var inner, u := First(t.right);
      assert y == u.n;
      ghost var cz := Hole(Right, z, t.red, t.left, c);
      ghost var cy := Graft(inner, cz);
      UpRight(heap, nil, root, c, t);
      GraftFocus(heap, nil, root, inner, cz, u);
      FitsKid(c, t, Right);
      GraftFits(inner, cz, u);
      Look(heap, nil, root, cy, u);
      var needFixup := !heap[y].red;
      Aside(heap, nil, root, c, t, inner, u);
      var x;
      ghost var d;
      x, d := Unlink(y, cy, u);
      BypassBalance(cy, u, d);
      GraftFocus(heap, nil, root, inner, cz, u.right);
      ghost var t' := t.(right := Plug(inner, u.right));
      UpRight(heap, nil, root, c, t');
      TakePlace(y, z, c, t');
      ghost var cz' := cz.(n := y);
      UpRight(heap, nil, root, c, t'.(n := y));
      GraftFocus(heap, nil, root, inner, cz', u.right);
      SuccessorMoved(c, t, inner, u);
      RenameBalance(inner, cz, y, u.right);
      Look(heap, nil, root, Graft(inner, cz'), u.right);
      PlugNil(inner, u.right);
      if needFixup {
        DeleteFixup(x, Graft(inner, cz'), u.right);
      } else {
        PlugBalanced(Graft(inner, cz'), u.right);
        ToRoot(heap, nil, root, Graft(inner, cz'), u.right);
        tree := Plug(Graft(inner, cz'), u.right);
      }
    }

    method Delete(z: Ref) returns (ghost k: nat)
      requires Valid() && z in Nodes(tree)
      modifies this`heap, this`tree
      ensures Valid() && k < |old(InOrder(tree))| && old(InOrder(tree))[k] == z
      ensures InOrder(tree) == old(InOrder(tree))[..k] + old(InOrder(tree))[k + 1..]
    {
      hide Focus, TreeAt, CtxAt, Nodes, CtxNodes, InOrder, Before, After, Plug, Fits, RedBlack;
      ghost var s := InOrder(tree);
      ghost var c, t := Place(heap, nil, root, tree, z);
      Look(heap, nil, root, c, t);
      LeftNil(heap, nil, root, c, t);
      if heap[z].left == nil || heap[z].right == nil {
        DeleteSingle(z, c, t);
      } else {
        DeleteDouble(z, c, t);
      }
      ghost var a, b := Before(c) + InOrder(t.left), InOrder(t.right) + After(c);
      k := |a|;
      assert s[..k] == a && s[k + 1..] == b && s[k] == z;
      assert InOrder(tree) == a + b;
      SortedDelete(compare, a, z, b);
    }

    // The containers of the nodes changed in a way that keeps their order.
    method Rekey(order: (Ref, Ref) -> int)
      requires Valid() && Preorder(order) && Sorted(order, InOrder(tree))
      modifies this`compare
      ensures Valid() && compare == order
    {
      compare := order;
    }

    // A container with a node in it was allocated.
    method Adopt(node: Ref)
      requires Valid() && node !in Nodes(tree) && node != nil && node != root
      modifies this`heap
      ensures Valid() && node in heap
    {
      ghost var h := heap;
      heap := heap[node := Node(nil, nil, nil, false)];
      FocusFrame(h, heap, nil, root, tree, node);
    }

    // rb_search: some node equal to the key, or nil when there is none.
    method Search(order: Ref -> int) returns (r: Ref)
      requires Valid() && Monotone(order, InOrder(tree))
      ensures r != nil ==> r in Nodes(tree) && order(r) == 0
      ensures r == nil ==> forall n :: n in Nodes(tree) ==> order(n) != 0
    {
      hide Focus, TreeAt, CtxAt, InOrder, Before, After, Monotone;
      Look(heap, nil, root, Top, tree);
      r := heap[root].left;
      ghost var c, t := Top, tree;
      SearchStart(order, tree);
      while r != nil && order(r) != 0
        invariant Focus(heap, nil, root, c, t) && r == RefOf(t, nil)
        invariant SearchInv(order, tree, c, t)
        decreases t
      {
        Look(heap, nil, root, c, t);
        var d := if order(r) > 0 then Left else Right;
        SearchStep(order, tree, c, t, d);
        r := heap[r].Child(d);
        c, t := Hole(d, t.n, t.red, Kid(t, d.Opp()), c), Kid(t, d);
        Up(heap, nil, root, c, t);
      }
      Look(heap, nil, root, c, t);
      SearchEnd(order, tree, c, t);
    }
  }
}
