/**
  The functional shape of a red-black tree: trees, one-hole contexts (the path
  from a node up to the root) and the balance laws on both.  The pointer
  program in RbTree.dfy is proved against this shape.
 */
module RbShape {

  // The address of a node.
  type Ref = nat

  datatype Dir = Left | Right {
    function Opp(): Dir { if this == Left then Right else Left }
  }

  datatype Tree = Nil | Bin(left: Tree, n: Ref, red: bool, right: Tree)

  // A tree with one subtree missing: the hole is the `side` child of `n`,
  // `sib` is the other child, and `up` is what lies above `n`.
  datatype Ctx = Top | Hole(side: Dir, n: Ref, red: bool, sib: Tree, up: Ctx)

  // The tree at `n` whose `d` child is `a` and whose other child is `b`.
  function Mk(d: Dir, a: Tree, n: Ref, red: bool, b: Tree): Tree {
    if d == Left then Bin(a, n, red, b) else Bin(b, n, red, a)
  }

  function Kid(t: Tree, d: Dir): Tree
    requires t.Bin?
  {
    if d == Left then t.left else t.right
  }

  predicate IsRed(t: Tree) { t.Bin? && t.red }

  function Plug(c: Ctx, t: Tree): Tree {
    match c
    case Top => t
    case Hole(d, n, red, sib, up) => Plug(up, Mk(d, t, n, red, sib))
  }

  // ------------------------------------------------------------ contents

  function InOrder(t: Tree): seq<Ref> {
    match t
    case Nil => []
    case Bin(l, n, _, r) => InOrder(l) + [n] + InOrder(r)
  }

  // What stands before, and after, the hole in the in-order sequence.
  function Before(c: Ctx): seq<Ref> {
    match c
    case Top => []
    case Hole(d, n, _, sib, up) =>
      if d == Left then Before(up) else Before(up) + InOrder(sib) + [n]
  }

  function After(c: Ctx): seq<Ref> {
    match c
    case Top => []
    case Hole(d, n, _, sib, up) =>
      if d == Left then [n] + InOrder(sib) + After(up) else After(up)
  }

  function Nodes(t: Tree): set<Ref> {
    match t
    case Nil => {}
    case Bin(l, n, _, r) => Nodes(l) + {n} + Nodes(r)
  }

  function CtxNodes(c: Ctx): set<Ref> {
    match c
    case Top => {}
    case Hole(_, n, _, sib, up) => {n} + Nodes(sib) + CtxNodes(up)
  }

  predicate Distinct(t: Tree) {
    match t
    case Nil => true
    case Bin(l, n, _, r) =>
      n !in Nodes(l) && n !in Nodes(r) && Nodes(l) !! Nodes(r) && Distinct(l) && Distinct(r)
  }

  predicate CtxDistinct(c: Ctx) {
    match c
    case Top => true
    case Hole(_, n, _, sib, up) =>
      n !in Nodes(sib) && n !in CtxNodes(up) && Nodes(sib) !! CtxNodes(up)
      && Distinct(sib) && CtxDistinct(up)
  }

  predicate Apart(c: Ctx, t: Tree) {
    Distinct(t) && CtxDistinct(c) && Nodes(t) !! CtxNodes(c)
  }

  // ------------------------------------------------------------ balance

  // The number of black nodes on the leftmost path.
  function BlackHeight(t: Tree): nat {
    match t
    case Nil => 0
    case Bin(l, _, red, _) => BlackHeight(l) + if red then 0 else 1
  }

  // No red node has a red child, and both children of every node have the
  // same black height.
  predicate Balanced(t: Tree) {
    match t
    case Nil => true
    case Bin(l, _, red, r) =>
      Balanced(l) && Balanced(r) && BlackHeight(l) == BlackHeight(r)
      && (red ==> !IsRed(l) && !IsRed(r))
  }

  // Filling the hole with a balanced tree of black height `k` that is black at
  // its root gives a balanced tree with a black root.
  predicate CtxBalanced(c: Ctx, k: nat) {
    match c
    case Top => true
    case Hole(_, _, red, sib, up) =>
      Balanced(sib) && BlackHeight(sib) == k
      && (red ==> !IsRed(sib) && up.Hole? && !up.red)
      && CtxBalanced(up, k + if red then 0 else 1)
  }

  // The red-black invariant of a whole tree.
  predicate RedBlack(t: Tree) { Balanced(t) && !IsRed(t) }

  // A subtree and the context around it are parts of one red-black tree.
  predicate Fits(c: Ctx, t: Tree) {
    Balanced(t) && CtxBalanced(c, BlackHeight(t))
    && (c.Top? || c.red ==> !IsRed(t))
  }

  // ------------------------------------------------------------ laws

  lemma Regroup(a: seq<Ref>, b: seq<Ref>, m: seq<Ref>, e: seq<Ref>, f: seq<Ref>)
    ensures a + (b + m + e) + f == a + b + (m + e + f)
    ensures a + (b + m + e) + f == (a + b + m) + e + f
  {
  }

  lemma {:induction false} PlugInOrder(c: Ctx, t: Tree)
    ensures InOrder(Plug(c, t)) == Before(c) + InOrder(t) + After(c)
  {
    match c
    case Top =>
    case Hole(d, n, red, sib, up) =>
      PlugInOrder(up, Mk(d, t, n, red, sib));
      if d == Left {
        Regroup(Before(up), InOrder(t), [n], InOrder(sib), After(up));
      } else {
        Regroup(Before(up), InOrder(sib), [n], InOrder(t), After(up));
      }
  }

  lemma {:induction false} PlugNodes(c: Ctx, t: Tree)
    ensures Nodes(Plug(c, t)) == CtxNodes(c) + Nodes(t)
    ensures Apart(c, t) ==> Distinct(Plug(c, t))
  {
    match c
    case Top =>
    case Hole(d, n, red, sib, up) =>
      PlugNodes(up, Mk(d, t, n, red, sib));
  }

  lemma RootIn(c: Ctx, t: Tree)
    ensures t.Bin? ==> t.n in Nodes(t)
    ensures c.Hole? ==> c.n in CtxNodes(c)
  {
  }

  lemma {:induction false} InOrderNodes(t: Tree)
    ensures forall r :: r in InOrder(t) <==> r in Nodes(t)
  {
    match t
    case Nil =>
    case Bin(l, _, _, r) => InOrderNodes(l); InOrderNodes(r);
  }

  lemma {:induction false} PlugBalanced(c: Ctx, t: Tree)
    requires Fits(c, t)
    ensures RedBlack(Plug(c, t))
  {
    match c
    case Top =>
    case Hole(d, n, red, sib, up) =>
      PlugBalanced(up, Mk(d, t, n, red, sib));
  }

  lemma PlugSame(c: Ctx, t: Tree, t': Tree)
    requires InOrder(t) == InOrder(t')
    ensures InOrder(Plug(c, t)) == InOrder(Plug(c, t'))
  {
    PlugInOrder(c, t);
    PlugInOrder(c, t');
  }

  // Colours do not show in the in-order sequence.
  lemma SameMk(d: Dir, a: Tree, n: Ref, red: bool, b: Tree, a': Tree, red': bool, b': Tree)
    requires InOrder(a) == InOrder(a') && InOrder(b) == InOrder(b')
    ensures InOrder(Mk(d, a, n, red, b)) == InOrder(Mk(d, a', n, red', b'))
  {
  }

  // The tree after a rotation in direction `d` at its root.
  function Rotated(t: Tree, d: Dir): Tree
    requires t.Bin? && Kid(t, d.Opp()).Bin?
  {
    var y := Kid(t, d.Opp());
    Mk(d, Mk(d, Kid(t, d), t.n, t.red, Kid(y, d)), y.n, y.red, Kid(y, d.Opp()))
  }

  lemma RotatedInOrder(t: Tree, d: Dir)
    requires t.Bin? && Kid(t, d.Opp()).Bin?
    ensures InOrder(Rotated(t, d)) == InOrder(t)
  {
    var y := Kid(t, d.Opp());
    if d == Left {
      assert InOrder(t.left) + [t.n] + (InOrder(y.left) + [y.n] + InOrder(y.right)) ==
             InOrder(t.left) + [t.n] + InOrder(y.left) + [y.n] + InOrder(y.right);
    } else {
      assert InOrder(y.left) + [y.n] + (InOrder(y.right) + [t.n] + InOrder(t.right)) ==
             InOrder(y.left) + [y.n] + InOrder(y.right) + [t.n] + InOrder(t.right);
    }
  }

  lemma DistinctMk(d: Dir, a: Tree, n: Ref, red: bool, b: Tree)
    ensures Nodes(Mk(d, a, n, red, b)) == Nodes(a) + {n} + Nodes(b)
    ensures Distinct(Mk(d, a, n, red, b)) <==>
            Distinct(a) && Distinct(b) && n !in Nodes(a) && n !in Nodes(b) && Nodes(a) !! Nodes(b)
  {
  }

  lemma RotatedDistinct(t: Tree, d: Dir)
    requires t.Bin? && Kid(t, d.Opp()).Bin? && Distinct(t)
    ensures Nodes(Rotated(t, d)) == Nodes(t)
    ensures Distinct(Rotated(t, d))
    ensures Rotated(t, d).Bin? && Rotated(t, d).n == Kid(t, d.Opp()).n
  {
    var a, y := Kid(t, d), Kid(t, d.Opp());
    var b, e := Kid(y, d), Kid(y, d.Opp());
    DistinctMk(d, a, t.n, t.red, y);
    DistinctMk(d, b, y.n, y.red, e);
    DistinctMk(d, a, t.n, t.red, b);
    DistinctMk(d, Mk(d, a, t.n, t.red, b), y.n, y.red, e);
  }

  // Every node of a tree is the root of a subtree in some context.
  lemma {:induction false} Locate(c: Ctx, t: Tree, z: Ref) returns (c': Ctx, t': Tree)
    requires z in Nodes(t)
    ensures t'.Bin? && t'.n == z && Plug(c', t') == Plug(c, t)
    ensures Apart(c, t) ==> Apart(c', t')
    ensures Fits(c, t) ==> Fits(c', t')
    decreases t
  {
    if t.n == z {
      c', t' := c, t;
    } else if z in Nodes(t.left) {
      c', t' := Locate(Hole(Left, t.n, t.red, t.right, c), t.left, z);
    } else {
      c', t' := Locate(Hole(Right, t.n, t.red, t.left, c), t.right, z);
    }
  }

  lemma BalancedMk(d: Dir, a: Tree, n: Ref, red: bool, b: Tree)
    requires Balanced(a) && Balanced(b) && BlackHeight(a) == BlackHeight(b)
    requires red ==> !IsRed(a) && !IsRed(b)
    ensures Balanced(Mk(d, a, n, red, b))
    ensures BlackHeight(Mk(d, a, n, red, b)) == BlackHeight(a) + if red then 0 else 1
  {
  }

  lemma BalancedKids(t: Tree, d: Dir)
    requires Balanced(t) && t.Bin?
    ensures Balanced(Kid(t, d)) && Balanced(Kid(t, d.Opp()))
    ensures BlackHeight(Kid(t, d)) == BlackHeight(Kid(t, d.Opp())) == BlackHeight(t) - if t.red then 0 else 1
    ensures t.red ==> !IsRed(Kid(t, d)) && !IsRed(Kid(t, d.Opp()))
  {
  }

  // ------------------------------------------------------------ insertion

  // The state of the insertion fix-up: balanced everywhere, except that the
  // red root of `t` may hang below a red parent.
  predicate RedAtHole(c: Ctx, t: Tree) {
    IsRed(t) && Balanced(t) && CtxBalanced(c, BlackHeight(t))
  }

  // A red uncle: the parent and the uncle turn black, the grandparent red.
  function PushRedUp(c: Ctx, t: Tree): Tree
    requires c.Hole? && c.up.Hole? && c.up.sib.Bin?
  {
    Mk(c.up.side, Mk(c.side, t, c.n, false, c.sib), c.up.n, true, c.up.sib.(red := false))
  }

  lemma PushRedUpOk(c: Ctx, t: Tree)
    requires RedAtHole(c, t) && c.Hole? && c.red && c.up.Hole? && IsRed(c.up.sib)
    ensures !c.up.red && RedAtHole(c.up.up, PushRedUp(c, t))
    ensures InOrder(Plug(c.up.up, PushRedUp(c, t))) == InOrder(Plug(c, t))
  {
    assert CtxBalanced(c.up, BlackHeight(t));
    BalancedMk(c.side, t, c.n, false, c.sib);
    BalancedMk(c.up.side, Mk(c.side, t, c.n, false, c.sib), c.up.n, true, c.up.sib.(red := false));
    PlugSame(c.up.up, PushRedUp(c, t), Mk(c.up.side, Mk(c.side, t, c.n, c.red, c.sib), c.up.n, c.up.red, c.up.sib));
  }

  // A black uncle and an inner red node: rotated to the outer side.
  lemma TurnOutOk(c: Ctx, t: Tree)
    requires RedAtHole(c, t) && c.Hole? && c.red && c.up.Hole? && c.side == c.up.side.Opp()
    ensures var d, pt := c.up.side, Mk(c.side, t, c.n, true, c.sib);
      && Kid(pt, d.Opp()).Bin?
      && var pt' := Rotated(pt, d);
      && pt'.Bin? && pt'.red && pt'.n == t.n
      && var c' := Hole(d, pt'.n, true, Kid(pt', d.Opp()), c.up);
      && Mk(d, Kid(pt', d), pt'.n, true, Kid(pt', d.Opp())) == pt'
      && RedAtHole(c', Kid(pt', d)) && Kid(pt', d).n == c.n
      && InOrder(Plug(c', Kid(pt', d))) == InOrder(Plug(c, t))
  {
    var d, pt := c.up.side, Mk(c.side, t, c.n, true, c.sib);
    RotatedInOrder(pt, d);
    PlugSame(c.up, pt, Rotated(pt, d));
  }

  // A black uncle and an outer red node: recolour and rotate the grandparent.
  function LiftParent(c: Ctx, t: Tree): Tree
    requires c.Hole? && c.up.Hole?
  {
    Mk(c.side, t, c.n, false, Mk(c.side, c.sib, c.up.n, true, c.up.sib))
  }

  lemma LiftParentOk(c: Ctx, t: Tree)
    requires RedAtHole(c, t) && c.Hole? && c.red && c.up.Hole? && !IsRed(c.up.sib) && c.side == c.up.side
    ensures !c.up.red
    ensures var gt := Mk(c.side, Mk(c.side, t, c.n, false, c.sib), c.up.n, true, c.up.sib);
      Kid(gt, c.side).Bin? && LiftParent(c, t) == Rotated(gt, c.side.Opp())
    ensures var c' := Hole(c.side, c.n, false, Mk(c.side, c.sib, c.up.n, true, c.up.sib), c.up.up);
      RedAtHole(c', t) && InOrder(Plug(c', t)) == InOrder(Plug(c, t))
  {
    assert CtxBalanced(c.up, BlackHeight(t));
    BalancedMk(c.side, c.sib, c.up.n, true, c.up.sib);
    var gt := Mk(c.side, Mk(c.side, t, c.n, false, c.sib), c.up.n, true, c.up.sib);
    RotatedInOrder(gt, c.side.Opp());
    PlugSame(c.up.up, LiftParent(c, t), Mk(c.up.side, Mk(c.side, t, c.n, c.red, c.sib), c.up.n, c.up.red, c.up.sib));
  }

  // Below a black parent, or at the top once blackened, the red node is in order.
  lemma InsertDone(c: Ctx, t: Tree)
    requires RedAtHole(c, t) && (c.Hole? ==> !c.red)
    ensures Plug(c, t).Bin? && RedBlack(Plug(c, t).(red := false))
    ensures InOrder(Plug(c, t).(red := false)) == InOrder(Plug(c, t))
  {
    if c.Hole? {
      PlugBalanced(c, t);
      PlugInOrder(c, t);
    }
  }

  // ------------------------------------------------------------ deletion

  // The state of the deletion fix-up: the hole lacks one black node.
  // Its root, when red, may have a red child: it is about to turn black.
  predicate Deficit(c: Ctx, t: Tree) {
    && (t.Bin? ==> Balanced(t.(red := false)))
    && CtxBalanced(c, BlackHeight(t) + 1)
  }

  // A red sibling: turned into a black one by rotating it above the parent.
  function SwapSibling(c: Ctx): Ctx
    requires c.Hole? && c.sib.Bin?
  {
    Hole(c.side, c.n, true, Kid(c.sib, c.side),
         Hole(c.side, c.sib.n, false, Kid(c.sib, c.side.Opp()), c.up))
  }

  lemma SwapSiblingOk(c: Ctx, t: Tree)
    requires Deficit(c, t) && c.Hole? && IsRed(c.sib)
    ensures !c.red && Deficit(SwapSibling(c), t) && !IsRed(SwapSibling(c).sib)
    ensures Mk(c.side, Mk(c.side, t, c.n, true, Kid(c.sib, c.side)), c.sib.n, false, Kid(c.sib, c.side.Opp()))
         == Rotated(Mk(c.side, t, c.n, true, c.sib.(red := false)), c.side)
    ensures InOrder(Plug(SwapSibling(c), t)) == InOrder(Plug(c, t))
  {
    var pt := Mk(c.side, t, c.n, true, c.sib.(red := false));
    RotatedInOrder(pt, c.side);
    PlugSame(c.up, Mk(c.side, t, c.n, c.red, c.sib), Rotated(pt, c.side));
  }

  // A black sibling with black children turns red and the deficit moves up.
  function RedSibling(c: Ctx, t: Tree): Tree
    requires c.Hole? && c.sib.Bin?
  {
    Mk(c.side, t, c.n, c.red, c.sib.(red := true))
  }

  lemma RedSiblingOk(c: Ctx, t: Tree)
    requires Deficit(c, t) && !IsRed(t) && c.Hole? && c.sib.Bin? && !c.sib.red
    requires !IsRed(c.sib.left) && !IsRed(c.sib.right)
    ensures Deficit(c.up, RedSibling(c, t))
    ensures InOrder(Plug(c.up, RedSibling(c, t))) == InOrder(Plug(c, t))
  {
    BalancedMk(c.side, t, c.n, false, c.sib.(red := true));
    PlugSame(c.up, Mk(c.side, t, c.n, c.red, c.sib), RedSibling(c, t));
  }

  // A red near nephew is rotated to the far side.
  function FarSibling(w: Tree, s: Dir): Tree
    requires w.Bin? && Kid(w, s).Bin?
  {
    var n := Kid(w, s);
    Mk(s, Kid(n, s), n.n, false, Mk(s, Kid(n, s.Opp()), w.n, true, Kid(w, s.Opp())))
  }

  lemma FarSiblingOk(c: Ctx, t: Tree)
    requires Deficit(c, t) && c.Hole? && c.sib.Bin? && !c.sib.red
    requires IsRed(Kid(c.sib, c.side)) && !IsRed(Kid(c.sib, c.side.Opp()))
    ensures var n, w := Kid(c.sib, c.side), c.sib;
      var w' := Mk(c.side, n.(red := false), w.n, true, Kid(w, c.side.Opp()));
      Kid(w', c.side).Bin? && FarSibling(c.sib, c.side) == Rotated(w', c.side.Opp())
    ensures var c' := c.(sib := FarSibling(c.sib, c.side));
      && Deficit(c', t) && !IsRed(c'.sib) && IsRed(Kid(c'.sib, c.side.Opp()))
      && InOrder(Plug(c', t)) == InOrder(Plug(c, t))
  {
    var n, w, s := Kid(c.sib, c.side), c.sib, c.side;
    var w' := Mk(s, n.(red := false), w.n, true, Kid(w, s.Opp()));
    BalancedKids(w, s);
    BalancedKids(n, s);
    BalancedMk(s, Kid(n, s.Opp()), w.n, true, Kid(w, s.Opp()));
    BalancedMk(s, Kid(n, s), n.n, false, Mk(s, Kid(n, s.Opp()), w.n, true, Kid(w, s.Opp())));
    RotatedInOrder(w', s.Opp());
    SameMk(s, n, w.n, w.red, Kid(w, s.Opp()), n.(red := false), true, Kid(w, s.Opp()));
    SameMk(s, t, c.n, c.red, w, t, c.red, FarSibling(w, s));
    PlugSame(c.up, Mk(s, t, c.n, c.red, w), Mk(s, t, c.n, c.red, FarSibling(w, s)));
  }

  // A red far nephew pays the deficit.
  function PayDeficit(c: Ctx, t: Tree): Tree
    requires c.Hole? && c.sib.Bin? && Kid(c.sib, c.side.Opp()).Bin?
  {
    Mk(c.side, Mk(c.side, t, c.n, false, Kid(c.sib, c.side)), c.sib.n, c.red,
       Kid(c.sib, c.side.Opp()).(red := false))
  }

  lemma PayDeficitOk(c: Ctx, t: Tree)
    requires Deficit(c, t) && !IsRed(t) && c.Hole? && c.sib.Bin? && !c.sib.red && IsRed(Kid(c.sib, c.side.Opp()))
    ensures var w := Mk(c.side, Kid(c.sib, c.side), c.sib.n, c.red, Kid(c.sib, c.side.Opp()).(red := false));
      PayDeficit(c, t) == Rotated(Mk(c.side, t, c.n, false, w), c.side)
    ensures RedBlack(Plug(c.up, PayDeficit(c, t)))
    ensures InOrder(Plug(c.up, PayDeficit(c, t))) == InOrder(Plug(c, t))
  {
    var far := Kid(c.sib, c.side.Opp()).(red := false);
    var w := Mk(c.side, Kid(c.sib, c.side), c.sib.n, c.red, far);
    BalancedKids(c.sib, c.side);
    BalancedKids(Kid(c.sib, c.side.Opp()), c.side);
    BalancedMk(c.side, t, c.n, false, Kid(c.sib, c.side));
    BalancedMk(c.side, Mk(c.side, t, c.n, false, Kid(c.sib, c.side)), c.sib.n, c.red, far);
    PlugBalanced(c.up, PayDeficit(c, t));
    RotatedInOrder(Mk(c.side, t, c.n, false, w), c.side);
    SameMk(c.side, Kid(c.sib, c.side), c.sib.n, c.red, far, Kid(c.sib, c.side), false, Kid(c.sib, c.side.Opp()));
    SameMk(c.side, t, c.n, false, w, t, c.red, c.sib);
    PlugSame(c.up, Mk(c.side, t, c.n, c.red, c.sib), PayDeficit(c, t));
  }

  // A red root of the deficient subtree, or the top, ends the fix-up.
  lemma DeleteDone(c: Ctx, t: Tree)
    requires Deficit(c, t) && (c.Top? || IsRed(t))
    ensures t.Nil? ==> c.Top?
    ensures RedBlack(Plug(c, if t.Bin? then t.(red := false) else t))
    ensures InOrder(Plug(c, if t.Bin? then t.(red := false) else t)) == InOrder(Plug(c, t))
  {
    if t.Bin? {
      PlugBalanced(c, t.(red := false));
      PlugSame(c, t, t.(red := false));
    }
  }

  // Stacking one context on top of another.
  function Graft(inner: Ctx, outer: Ctx): Ctx {
    match inner
    case Top => outer
    case Hole(d, n, red, sib, up) => Hole(d, n, red, sib, Graft(up, outer))
  }

  lemma {:induction false} GraftPlug(inner: Ctx, outer: Ctx, t: Tree)
    ensures Plug(Graft(inner, outer), t) == Plug(outer, Plug(inner, t))
  {
    if inner.Hole? {
      GraftPlug(inner.up, outer, Mk(inner.side, t, inner.n, inner.red, inner.sib));
    }
  }

  // Balance does not depend on which nodes a context is made of.
  lemma {:induction false} GraftRename(inner: Ctx, outer: Ctx, y: Ref, k: nat)
    requires outer.Hole? && CtxBalanced(Graft(inner, outer), k)
    ensures CtxBalanced(Graft(inner, outer.(n := y)), k)
  {
    if inner.Hole? {
      GraftRename(inner.up, outer, y, k + if inner.red then 0 else 1);
    }
  }

  // The first node of a tree has no left child.
  lemma {:induction false} First(t: Tree) returns (inner: Ctx, t': Tree)
    requires t.Bin?
    ensures t'.Bin? && t'.left.Nil? && Plug(inner, t') == t
    ensures Before(inner) == [] && InOrder(t) != [] && InOrder(t)[0] == t'.n
  {
    if t.left.Nil? {
      inner, t' := Top, t;
    } else {
      var c, u := First(t.left);
      inner, t' := Graft(c, Hole(Left, t.n, t.red, t.right, Top)), u;
      GraftPlug(c, Hole(Left, t.n, t.red, t.right, Top), u);
      GraftBefore(c, Hole(Left, t.n, t.red, t.right, Top));
    }
  }

  lemma {:induction false} GraftBefore(inner: Ctx, outer: Ctx)
    ensures Before(Graft(inner, outer)) == Before(outer) + Before(inner)
    ensures After(Graft(inner, outer)) == After(inner) + After(outer)
  {
    if inner.Hole? {
      GraftBefore(inner.up, outer);
    }
  }

  lemma {:induction false} GraftFits(inner: Ctx, outer: Ctx, t: Tree)
    requires Fits(outer, Plug(inner, t))
    ensures Fits(Graft(inner, outer), t)
  {
    if inner.Hole? {
      GraftFits(inner.up, outer, Mk(inner.side, t, inner.n, inner.red, inner.sib));
    }
  }

  // Bypassing a node with one child leaves the tree balanced if the node was
  // red, and one black node short otherwise.
  lemma BypassBalance(c: Ctx, t: Tree, d: Dir)
    requires Fits(c, t) && t.Bin? && Kid(t, d.Opp()).Nil?
    ensures t.red ==> Fits(c, Kid(t, d))
    ensures !t.red ==> Deficit(c, Kid(t, d))
  {
    hide CtxBalanced, BlackHeight;
    BalancedKids(t, d);
    BlackRoot(Kid(t, d));
  }

  lemma BlackRoot(t: Tree)
    requires Balanced(t)
    ensures t.Bin? ==> Balanced(t.(red := false))
  {
  }

  lemma BypassInOrder(t: Tree, d: Dir)
    requires t.Bin? && Kid(t, d.Opp()).Nil?
    ensures InOrder(Kid(t, d)) == InOrder(t.left) + InOrder(t.right)
  {
  }

  lemma RenameBalance(inner: Ctx, outer: Ctx, y: Ref, t: Tree)
    requires outer.Hole?
    ensures Fits(Graft(inner, outer), t) ==> Fits(Graft(inner, outer.(n := y)), t)
    ensures Deficit(Graft(inner, outer), t) ==> Deficit(Graft(inner, outer.(n := y)), t)
  {
    if Fits(Graft(inner, outer), t) {
      GraftRename(inner, outer, y, BlackHeight(t));
    }
    if Deficit(Graft(inner, outer), t) {
      GraftRename(inner, outer, y, BlackHeight(t) + 1);
    }
  }

  // The in-order sequence after the successor has taken the place of `z`.
  lemma SuccessorMoved(c: Ctx, t: Tree, inner: Ctx, u: Tree)
    requires t.Bin? && u.Bin? && u.left.Nil? && Plug(inner, u) == t.right && Before(inner) == []
    ensures var cy := Graft(inner, Hole(Right, u.n, t.red, t.left, c));
      InOrder(Plug(cy, u.right)) == Before(c) + InOrder(t.left) + InOrder(t.right) + After(c)
  {
    var cz := Hole(Right, u.n, t.red, t.left, c);
    PlugInOrder(inner, u);
    PlugInOrder(Graft(inner, cz), u.right);
    GraftBefore(inner, cz);
    assert InOrder(u) == [u.n] + InOrder(u.right);
    Moved(Before(c), InOrder(t.left), [u.n], InOrder(u.right), After(inner), After(c));
  }

  lemma Moved(a: seq<Ref>, b: seq<Ref>, y: seq<Ref>, e: seq<Ref>, f: seq<Ref>, g: seq<Ref>)
    ensures ((a + b + y) + []) + e + (f + g) == a + b + ([] + (y + e) + f) + g
  {
  }

  lemma {:induction false} GraftNodes(inner: Ctx, outer: Ctx)
    ensures CtxNodes(Graft(inner, outer)) == CtxNodes(inner) + CtxNodes(outer)
  {
    if inner.Hole? {
      GraftNodes(inner.up, outer);
    }
  }

  lemma {:induction false} PlugNil(c: Ctx, t: Tree)
    ensures Plug(c, t).Nil? <==> c.Top? && t.Nil?
  {
    if c.Hole? {
      PlugNil(c.up, Mk(c.side, t, c.n, c.red, c.sib));
    }
  }
}
