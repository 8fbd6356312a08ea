/**
  The way up: every live directory reaches the root over parent fields, unless a
  rename puts a directory below itself.
 */
module SfsPaths {
  import opened SfsLinks

  function Parent(nodes: Nodes, d: nat): nat { if d in nodes then nodes[d].parent else d }

  // `k` steps up.
  function Up(nodes: Nodes, d: nat, k: nat): nat
    decreases k
  {
    if k == 0 then d else Up(nodes, Parent(nodes, d), k - 1)
  }

  ghost predicate Rooted(nodes: Nodes, d: nat) { exists k: nat :: Up(nodes, d, k) == ROOT }

  ghost predicate Connected(nodes: Nodes) { forall d :: Live(nodes, d) ==> Rooted(nodes, d) }

  // `e` is `x` or below it.
  ghost predicate Under(nodes: Nodes, e: nat, x: nat) { exists k: nat :: Up(nodes, e, k) == x }

  // ------------------------------------------------------------ steps up

  lemma {:induction false} UpAdd(nodes: Nodes, d: nat, j: nat, k: nat)
    ensures Up(nodes, d, j + k) == Up(nodes, Up(nodes, d, j), k)
    decreases j
  {
    if j > 0 { UpAdd(nodes, Parent(nodes, d), j - 1, k); }
  }

  // A place that comes back to itself does so for ever.
  lemma {:induction false} UpStays(nodes: Nodes, x: nat, c: nat, m: nat)
    requires Up(nodes, x, c) == x
    ensures Up(nodes, x, m * c) == x
    decreases m
  {
    if m > 0 {
      UpStays(nodes, x, c, m - 1);
      assert m * c == c + (m - 1) * c;
      UpAdd(nodes, x, c, (m - 1) * c);
    } else {
      assert m * c == 0;
    }
  }

  lemma {:induction false} RootStays(nodes: Nodes, k: nat)
    requires Parent(nodes, ROOT) == ROOT
    ensures Up(nodes, ROOT, k) == ROOT
  {
    if k > 0 { RootStays(nodes, k - 1); }
  }

  lemma {:induction false} LiveUp(nodes: Nodes, d: nat, k: nat)
    requires Inv(nodes) && Live(nodes, d)
    ensures Live(nodes, Up(nodes, d, k))
    decreases k
  {
    if k > 0 {
      ParentThere(nodes, d);
      LiveUp(nodes, Parent(nodes, d), k - 1);
    }
  }

  ghost predicate SameParents(nodes: Nodes, r: Nodes, x: nat) {
    forall c: nat :: c != x ==> Parent(r, c) == Parent(nodes, c)
  }

  // A way that does not pass `x` is not changed by changing its parent.
  lemma {:induction false} Avoids(nodes: Nodes, r: Nodes, x: nat, y: nat, k: nat)
    requires SameParents(nodes, r, x) && forall j: nat :: j < k ==> Up(nodes, y, j) != x
    ensures Up(r, y, k) == Up(nodes, y, k)
    decreases k
  {
    if k > 0 {
      assert Up(nodes, y, 0) != x;
      var p := Parent(nodes, y);
      forall j: nat | j < k - 1 ensures Up(nodes, p, j) != x { assert Up(nodes, y, j + 1) == Up(nodes, p, j); }
      Avoids(nodes, r, x, p, k - 1);
    }
  }

  lemma {:induction false} FirstHit(nodes: Nodes, y: nat, x: nat, k: nat) returns (j: nat)
    requires Up(nodes, y, k) == x
    ensures j <= k && Up(nodes, y, j) == x && forall i: nat :: i < j ==> Up(nodes, y, i) != x
    decreases k
  {
    if y == x { return 0; }
    var p := Parent(nodes, y);
    var i := FirstHit(nodes, p, x, k - 1);
    j := i + 1;
    forall m: nat | m < j ensures Up(nodes, y, m) != x {
      if m > 0 { assert Up(nodes, y, m) == Up(nodes, p, m - 1); }
    }
  }

  // ------------------------------------------------------------ most operations

  // At most `x` has another parent, and it is new, has gone, or keeps it.
  lemma KeptConnected(nodes: Nodes, r: Nodes, x: nat)
    requires Inv(nodes) && Connected(nodes) && SameParents(nodes, r, x)
    requires forall c :: Live(r, c) ==> Live(nodes, c) || (c == x && Live(nodes, Parent(r, x)))
    requires Live(nodes, x) ==> Parent(r, x) == Parent(nodes, x)
    ensures Connected(r)
  {
    hide Inv;
    forall y: nat | Live(r, y) ensures Rooted(r, y) {
      var z := if Live(nodes, y) then y else Parent(r, x);
      var k: nat :| Up(nodes, z, k) == ROOT;
      if Live(nodes, x) {
        SameUp(nodes, r, z, k);
      } else {
        forall j: nat | j < k ensures Up(nodes, z, j) != x { LiveUp(nodes, z, j); }
        Avoids(nodes, r, x, z, k);
      }
      assert Up(r, z, k) == ROOT;
      if !Live(nodes, y) { assert Up(r, y, k + 1) == Up(r, z, k); }
    }
  }

  lemma {:induction false} SameUp(nodes: Nodes, r: Nodes, y: nat, k: nat)
    requires forall c: nat :: Parent(r, c) == Parent(nodes, c)
    ensures Up(r, y, k) == Up(nodes, y, k)
    decreases k
  {
    if k > 0 { SameUp(nodes, r, Parent(nodes, y), k - 1); }
  }

  // ------------------------------------------------------------ moving a directory

  // `r` is `nodes` with the live directory `x` moved to `e`.
  ghost predicate Rehung(nodes: Nodes, r: Nodes, x: nat, e: nat) {
    && SameParents(nodes, r, x) && Parent(r, x) == e && (forall c :: Live(r, c) <==> Live(nodes, c))
    && Live(nodes, x) && Live(nodes, e) && x != ROOT && Parent(nodes, ROOT) == ROOT
  }

  // Moved to a place that is not below it, everything still reaches the root.
  lemma MovedOutside(nodes: Nodes, r: Nodes, x: nat, e: nat)
    requires Connected(nodes) && Rehung(nodes, r, x, e) && !Under(nodes, e, x)
    ensures Connected(r)
  {
    var ke: nat :| Up(nodes, e, ke) == ROOT;
    Avoids(nodes, r, x, e, ke);
    forall y | Live(r, y) ensures Rooted(r, y) {
      var k: nat :| Up(nodes, y, k) == ROOT;
      if exists j: nat :: j < k && Up(nodes, y, j) == x {
        var j: nat :| j < k && Up(nodes, y, j) == x;
        var i := FirstHit(nodes, y, x, j);
        Avoids(nodes, r, x, y, i);
        UpAdd(r, y, i, 1 + ke);
        assert Up(r, x, 1 + ke) == Up(r, e, ke);
        assert Up(r, y, i + (1 + ke)) == ROOT;
      } else {
        Avoids(nodes, r, x, y, k);
      }
    }
  }

  // Moved below itself, it goes round in a circle that never meets the root.
  lemma MovedInside(nodes: Nodes, r: Nodes, x: nat, e: nat)
    requires Rehung(nodes, r, x, e) && Under(nodes, e, x)
    ensures !Rooted(r, x)
  {
    var k: nat :| Up(nodes, e, k) == x;
    var j := FirstHit(nodes, e, x, k);
    Avoids(nodes, r, x, e, j);
    assert Up(r, x, j + 1) == x;
    if Rooted(r, x) {
      var n: nat :| Up(r, x, n) == ROOT;
      UpStays(r, x, j + 1, n);
      Further(n, j);
      var rest: nat := n * (j + 1) - n;
      UpAdd(r, x, n, rest);
      RootStays(r, rest);
      assert false;
    }
  }

  lemma Further(n: nat, j: nat)
    ensures n <= n * (j + 1)
  {
    assert n * (j + 1) == n * j + n;
  }

  lemma MoveConnected(nodes: Nodes, r: Nodes, x: nat, e: nat)
    requires Connected(nodes) && Rehung(nodes, r, x, e)
    ensures Connected(r) <==> !Under(nodes, e, x)
  {
    if Under(nodes, e, x) {
      MovedInside(nodes, r, x, e);
      assert Live(r, x);
    } else {
      MovedOutside(nodes, r, x, e);
    }
  }

  // The same for the operation on directories.
  lemma MoveDirConnected(nodes: Nodes, d: nat, i: nat, e: nat, j: nat, name: string, x: nat)
    requires Inv(nodes) && Placed(nodes, d, i, x) && x in nodes && nodes[x].dir && Room(nodes, e, j, name) && d != e
    requires Connected(nodes)
    ensures nodes[d].slots > 0 && nodes[x].nlinks > 0 && nodes[d].nlinks > (if d == x then 1 else 0)
    ensures Connected(MoveDir(nodes, d, i, e, j, name, x)) <==> !Under(nodes, e, x)
  {
    hide Connected, Under, DirOk, CountOk, HomeOk, MoveDir, Find;
    PlacedIn(nodes, d, i, x);
    MoveCounts(nodes, d, i, x);
    MoveTree(nodes, d, i, e, j, name, x);
    MoveConnected(nodes, MoveDir(nodes, d, i, e, j, name, x), x, e);
  }

  // The rest keeps the way up.
  lemma SameTreeConnected(nodes: Nodes, r: Nodes)
    requires Inv(nodes) && Connected(nodes) && SameTree(nodes, r)
    ensures Connected(r)
  {
    hide Inv, Connected;
    KeptConnected(nodes, r, 0);
  }

  lemma MkdirConnected(nodes: Nodes, d: nat, i: nat, name: string, x: nat)
    requires Inv(nodes) && Connected(nodes) && Live(nodes, d) && x !in nodes && i <= |nodes[d].entries|
    ensures Connected(MkdirNodes(nodes, d, i, name, x))
  {
    hide Inv, Connected;
    KeptConnected(nodes, MkdirNodes(nodes, d, i, name, x), x);
  }

  lemma NewFileConnected(nodes: Nodes, d: nat, i: nat, name: string, x: nat)
    requires Inv(nodes) && Connected(nodes) && Live(nodes, d) && x !in nodes && i <= |nodes[d].entries|
    ensures Connected(LinkEntry(nodes[x := NewInode(false)], d, i, name, x))
  {
    hide Inv, Connected;
    KeptConnected(nodes, LinkEntry(nodes[x := NewInode(false)], d, i, name, x), x);
  }

  lemma RmdirConnected(nodes: Nodes, d: nat, i: nat, x: nat)
    requires Inv(nodes) && Connected(nodes) && Placed(nodes, d, i, x) && x in nodes && x != d && nodes[d].slots > 0
    requires nodes[x].nlinks > 1 && nodes[d].nlinks > 0
    ensures Connected(RmdirNodes(nodes, d, i, x))
  {
    hide Inv, Connected;
    KeptConnected(nodes, RmdirNodes(nodes, d, i, x), x);
  }

  lemma ForgetConnected(nodes: Nodes, x: nat)
    requires Inv(nodes) && Connected(nodes) && x in nodes && nodes[x].nlinks == 0
    ensures Connected(nodes - {x})
  {
    hide Inv, Connected;
    NoLinks(nodes, x);
    KeptConnected(nodes, nodes - {x}, x);
  }

  lemma NoLinks(nodes: Nodes, x: nat)
    requires Inv(nodes) && x in nodes && nodes[x].nlinks == 0
    ensures !Live(nodes, x)
  {
    hide DirOk, HomeOk;
    assert CountOk(nodes, x);
  }
}
