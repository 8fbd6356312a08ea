/**
  The load that can fail: the parent of a directory that was removed while it was
  in use, when the parent is removed and reclaimed too.
 */
module RemovedParents {
  import opened Sequences
  import opened InodeLoads
  import I = InodeLife

  // Nothing waits and no directory is locked.
  predicate Quiet(s: State) {
    s.base.lock == I.Free && s.removal == NoRemoval && s.queue == map[] && s.serving == None && s.busy == {}
  }

  // `x` is an empty directory in slot `i` of `d`, and both are in memory.
  predicate Removable(s: State, d: nat, i: nat, x: nat, id: I.Id, di: I.Id) {
    && x != d && x != ROOT && Live(s, x) && Live(s, d) && s.home[x] == Home(d, i) && NoSlots(s, x)
    && Held(s, id, x) && Held(s, di, d) && s.base.nodes[id].open < s.base.nodes[id].ref
  }

  // The state after it was removed.
  function Gone(s: State, d: nat, i: nat, x: nat): State {
    s.(base := Down(Down(Down(s.base, x), x), d), refs := s.refs - {Slot(d, i)} - {Dot(x)} - {DotDot(x)},
       removed := s.removed + {x}, next := s.next + 1)
  }

  lemma Prepend(s: State, a: Action, t: State, run: seq<Action>)
    requires Enabled(s, a) && Asserted(s, a) && Step(s, a) == t && Possible(t, run)
    ensures Possible(s, [a] + run) && After(s, [a] + run) == After(t, run)
  {
    hide Enabled, Asserted, Step;
    assert ([a] + run)[1..] == run;
  }

  // ------------------------------------------------------------ one rmdir

  // The states on the way: the name found, the inode loaded, the directory gone.
  function Sought(s: State, d: nat): State { s.(removal := Seeking(d, d)) }

  function Found(s: State, d: nat, i: nat, x: nat): State {
    s.(removal := Waiting(d, d, i, x, s.next), queue := map[s.next := Remover(x)], next := s.next + 1)
  }

  function Referred(b: I.State, id: I.Id): I.State
    requires id in b.nodes
  {
    b.(nodes := b.nodes[id := b.nodes[id].(ref := b.nodes[id].ref + 1)])
  }

  function Got(s: State, d: nat, i: nat, x: nat, id: I.Id): State
    requires id in s.base.nodes
  {
    s.(base := Referred(s.base, id), removal := Holding(d, d, i, x, s.next, id), next := s.next + 1)
  }

  function Cleared(s: State, d: nat, i: nat, x: nat, id: I.Id): State
    requires id in s.base.nodes
  {
    Gone(s, d, i, x).(base := Down(Down(Down(Referred(s.base, id), x), x), d))
  }

  lemma SeekStep(s: State, d: nat, i: nat, x: nat, id: I.Id, di: I.Id)
    requires Quiet(s) && Removable(s, d, i, x, id, di)
    ensures Enabled(s, Seek(d, d)) && Asserted(s, Seek(d, d)) && Step(s, Seek(d, d)) == Sought(s, d)
  {
    hide NoSlots, Held;
    Nothing(s.base);
  }

  lemma TakeStep(s: State, d: nat, i: nat, x: nat, id: I.Id, di: I.Id)
    requires Inv(s) && Quiet(s) && Removable(s, d, i, x, id, di)
    ensures Enabled(Sought(s, d), Take(i)) && Asserted(Sought(s, d), Take(i))
    ensures Step(Sought(s, d), Take(i)) == Found(s, d, i, x)
  {
    hide Inv, NoSlots, Held, Live, Enabled, Asserted, Step, Found, Sought;
    HomeIs(s, x);
    TakeSlot(s, d, i, x);
  }

  lemma TakeSlot(s: State, d: nat, i: nat, x: nat)
    requires s.queue == map[] && Slot(d, i) in s.refs && s.refs[Slot(d, i)] == x
    ensures Enabled(Sought(s, d), Take(i)) && Asserted(Sought(s, d), Take(i))
    ensures Step(Sought(s, d), Take(i)) == Found(s, d, i, x)
  {
    hide I.Possible, I.After;
    var t := Sought(s, d);
    assert Inner(t, Take(i)) == [];
    Still(s.base);
    assert Outer(t, Take(i)) == Found(s, d, i, x);
  }

  lemma Still(b: I.State)
    ensures I.Possible(b, []) && I.After(b, []) == b
  {
  }

  lemma HomeIs(s: State, x: nat)
    requires Inv(s) && s.removal == NoRemoval && Live(s, x) && x != ROOT
    ensures Placed(s, x)
  {
    hide I.Inv, Exact, DotsOk, SlotsOk, LocksOk, ServingOk, WaiterOk, OrderOk;
  }

  lemma HitStep(s: State, d: nat, i: nat, x: nat, id: I.Id, di: I.Id)
    requires Inv(s) && Quiet(s) && Removable(s, d, i, x, id, di)
    ensures var t, a := Found(s, d, i, x), ServeHit(s.next, id);
      Enabled(t, a) && Asserted(t, a) && Step(t, a) == Got(s, d, i, x, id)
  {
    hide I.Inv, Exact, DotsOk, SlotsOk, HomesOk, LocksOk, ServingOk, WaiterOk, OrderOk, NoSlots, I.Possible, I.After;
    var t, a := Found(s, d, i, x), ServeHit(s.next, id);
    NotStale(s, id, x);
    One(t.base, I.LookupHit(id));
    assert t.queue - {s.next} == map[];
  }

  lemma NotStale(s: State, id: I.Id, x: nat)
    requires Inv(s) && Held(s, id, x)
    ensures !s.base.nodes[id].stale && x in s.base.links
  {
    hide Exact, TreeOk, LocksOk, ServingOk, WaiterOk, OrderOk;
    assert I.NodeOk(s.base, id);
  }

  lemma RemoveStep(s: State, d: nat, i: nat, x: nat, id: I.Id, di: I.Id)
    requires Quiet(s) && Removable(s, d, i, x, id, di) && Inv(Got(s, d, i, x, id))
    ensures var t := Got(s, d, i, x, id);
      Enabled(t, RemoveDir(di)) && Asserted(t, RemoveDir(di)) && Step(t, RemoveDir(di)) == Cleared(s, d, i, x, id)
  {
    hide Inv;
    var t := Got(s, d, i, x, id);
    assert Enabled(t, RemoveDir(di));
    hide Exact, I.Possible, I.After;
    RemoveDirOk(t, RemoveDir(di));
    RemoveDirBase(t, di);
  }

  // The links after RemoveDir.
  lemma RemoveDirBase(t: State, di: I.Id)
    requires Inv(t) && Enabled(t, RemoveDir(di)) && Asserted(t, RemoveDir(di))
    ensures Step(t, RemoveDir(di)).base == Down(Down(Down(t.base, t.removal.x), t.removal.x), t.removal.d)
  {
    hide I.Inv, ServingOk, WaiterOk, OrderOk, By, I.Possible, I.After;
    var b, r := t.base, t.removal;
    var l := Slot(r.d, r.i);
    HeldLinks(t, r.id, r.x);
    HeldLinks(t, di, r.d);
    ExactDown(b, t.refs, l);
    ExactDown(Down(b, r.x), t.refs - {l}, Dot(r.x));
    ExactDown(Down(Down(b, r.x), r.x), t.refs - {l} - {Dot(r.x)}, DotDot(r.x));
    ThreeDown(b, r.id, r.x, di, r.d);
  }

  lemma DropStep(s: State, d: nat, i: nat, x: nat, id: I.Id, di: I.Id)
    requires Quiet(s) && Removable(s, d, i, x, id, di)
    ensures var t, a := Cleared(s, d, i, x, id), Other(I.Drop(id));
      Enabled(t, a) && Asserted(t, a) && Step(t, a) == Gone(s, d, i, x)
  {
    hide NoSlots, Live, I.Possible, I.After;
    var t := Cleared(s, d, i, x, id);
    One(t.base, I.Drop(id));
    assert I.Step(t.base, I.Drop(id)).nodes == s.base.nodes;
  }

  function Rmdir(s: State, d: nat, i: nat, id: I.Id, di: I.Id): seq<Action> {
    [Seek(d, d)] + ([Take(i)] + ([ServeHit(s.next, id)] + ([RemoveDir(di)] + [Other(I.Drop(id))])))
  }

  // sfs_unlink of an empty directory that is in use, with nobody else about.
  lemma RmdirRun(s: State, d: nat, i: nat, x: nat, id: I.Id, di: I.Id)
    requires Inv(s) && Quiet(s) && Removable(s, d, i, x, id, di)
    ensures Possible(s, Rmdir(s, d, i, id, di)) && After(s, Rmdir(s, d, i, id, di)) == Gone(s, d, i, x)
    ensures Inv(Gone(s, d, i, x))
  {
    hide Inv, Removable, Quiet, Enabled, Asserted, Step, Possible, After, Gone, Got, Cleared, Found;
    SeekStep(s, d, i, x, id, di);
    StepOk(s, Seek(d, d));
    TakeStep(s, d, i, x, id, di);
    StepOk(Sought(s, d), Take(i));
    HitStep(s, d, i, x, id, di);
    StepOk(Found(s, d, i, x), ServeHit(s.next, id));
    RemoveStep(s, d, i, x, id, di) by { RemovableIn(s, d, i, x, id, di); }
    StepOk(Got(s, d, i, x, id), RemoveDir(di)) by { RemovableIn(s, d, i, x, id, di); }
    DropStep(s, d, i, x, id, di);
    RemovableIn(s, d, i, x, id, di);
    StepOk(Cleared(s, d, i, x, id), Other(I.Drop(id)));
    PossibleNone(Gone(s, d, i, x));
    Prepend(Cleared(s, d, i, x, id), Other(I.Drop(id)), Gone(s, d, i, x), []);
    assert [Other(I.Drop(id))] + [] == [Other(I.Drop(id))];
    Prepend(Got(s, d, i, x, id), RemoveDir(di), Cleared(s, d, i, x, id), [Other(I.Drop(id))]);
    Prepend(Found(s, d, i, x), ServeHit(s.next, id), Got(s, d, i, x, id), [RemoveDir(di)] + [Other(I.Drop(id))]);
    Prepend(Sought(s, d), Take(i), Found(s, d, i, x), [ServeHit(s.next, id)] + ([RemoveDir(di)] + [Other(I.Drop(id))]));
    Prepend(s, Seek(d, d), Sought(s, d), [Take(i)] + ([ServeHit(s.next, id)] + ([RemoveDir(di)] + [Other(I.Drop(id))])));
  }

  lemma RemovableIn(s: State, d: nat, i: nat, x: nat, id: I.Id, di: I.Id)
    requires Removable(s, d, i, x, id, di)
    ensures id in s.base.nodes
  {
  }

  lemma PossibleNone(s: State)
    ensures Possible(s, []) && After(s, []) == s
  {
  }

  // ------------------------------------------------------------ the load that fails

  // A directory that is removed has no links.
  lemma RemovedNameless(s: State, x: nat)
    requires Inv(s) && s.removal == NoRemoval && x in s.home && x in s.removed && x in s.base.links
    ensures I.Nameless(s.base, x)
  {
    hide I.Inv, LocksOk, ServingOk, WaiterOk, OrderOk;
    forall l | l in s.refs ensures s.refs[l] != x {
      match l
      case DotDot(y) => var _ := Placed(s, y);
      case _ =>
    }
    assert By(s.refs, x) == {};
  }

  // `a` and `b` are removed, `b` was in `a`, `b` is in use and `a` has one user.
  ghost predicate Orphaned(s: State, a: nat, ai: I.Id, b: nat, bi: I.Id) {
    && Inv(s) && Quiet(s) && ai != bi && a in s.home && b in s.home && a in s.removed && b in s.removed
    && s.home[b].dir == a
    && Held(s, bi, b) && ai in s.base.nodes && s.base.nodes[ai] == I.Node(a, 1, 0, 1, 0, I.Linked, false)
  }

  function WithNode(s: State, ai: I.Id, n: I.Node, lock: I.Lock): State {
    s.(base := s.base.(nodes := s.base.nodes[ai := n], lock := lock))
  }

  // The last user of `a` drops it, reclaim has the lock, the user of `b` asks for
  // its parent, and reclaim ends.
  function Dropped(s: State, a: nat, ai: I.Id): State {
    WithNode(s, ai, I.Node(a, 0, 0, 1, 1, I.Linked, false), I.Free)
  }

  function Reclaiming(s: State, a: nat, ai: I.Id): State {
    WithNode(s, ai, I.Node(a, 0, 0, 0, 0, I.Linked, false), I.Dropping(ai))
  }

  function Asked(s: State, a: nat, ai: I.Id, b: nat): State { Enqueue(Reclaiming(s, a, ai), Parent(a, b, false)) }

  function Reclaimed(s: State, a: nat, ai: I.Id, b: nat): State {
    var t := WithNode(Asked(s, a, ai, b), ai, I.Node(a, 0, 0, 0, 0, I.Dying, false), I.Free);
    t.(base := t.base.(links := t.base.links - {a}))
  }

  lemma DroppedStep(s: State, a: nat, ai: I.Id, b: nat, bi: I.Id)
    requires Orphaned(s, a, ai, b, bi)
    ensures var x := Other(I.Drop(ai)); Enabled(s, x) && Asserted(s, x) && Step(s, x) == Dropped(s, a, ai)
  {
    hide Inv, I.Possible, I.After;
    One(s.base, I.Drop(ai));
  }

  lemma ReclaimStep(s: State, a: nat, ai: I.Id, b: nat, bi: I.Id)
    requires Orphaned(s, a, ai, b, bi)
    ensures var t, x := Dropped(s, a, ai), Other(I.ReclaimEnter(ai));
      Enabled(t, x) && Asserted(t, x) && Step(t, x) == Reclaiming(s, a, ai)
  {
    hide Inv, I.Possible, I.After;
    One(Dropped(s, a, ai).base, I.ReclaimEnter(ai));
    assert I.Step(Dropped(s, a, ai).base, I.ReclaimEnter(ai)) == Reclaiming(s, a, ai).base;
  }

  lemma AskStep(s: State, a: nat, ai: I.Id, b: nat, bi: I.Id)
    requires Orphaned(s, a, ai, b, bi)
    ensures var t, x := Reclaiming(s, a, ai), ReadParent(bi, b);
      Enabled(t, x) && Asserted(t, x) && Step(t, x) == Asked(s, a, ai, b)
  {
    hide Inv;
    Nothing(Reclaiming(s, a, ai).base);
  }

  lemma FreedStep(s: State, a: nat, ai: I.Id, b: nat, bi: I.Id)
    requires Orphaned(s, a, ai, b, bi) && I.Nameless(s.base, a)
    ensures var t, x := Asked(s, a, ai, b), Other(I.ReclaimUnlink(ai));
      Enabled(t, x) && Asserted(t, x) && Step(t, x) == Reclaimed(s, a, ai, b)
  {
    hide Inv, I.Possible, I.After;
    var t := Asked(s, a, ai, b);
    One(t.base, I.ReclaimUnlink(ai));
    assert I.Step(t.base, I.ReclaimUnlink(ai)) == Reclaimed(s, a, ai, b).base;
  }

  lemma FailStep(s: State, a: nat, ai: I.Id, b: nat, bi: I.Id)
    requires Orphaned(s, a, ai, b, bi) && Inv(Reclaimed(s, a, ai, b))
    ensures var t, x := Reclaimed(s, a, ai, b), ServeMiss(s.next); Enabled(t, x) && !Asserted(t, x)
  {
    hide Inv, Asserted;
    var t, x := Reclaimed(s, a, ai, b), ServeMiss(s.next);
    InvInner(s);
    assert I.Unhashed(t.base, a) by {
      forall id | id in t.base.nodes && t.base.nodes[id].ino == a ensures t.base.nodes[id].stage != I.Linked {
        if id != ai { NoOther(s, ai, id); }
      }
    }
    StepAsserts(t, x);
  }

  lemma NoOther(s: State, ai: I.Id, id: I.Id)
    requires I.Inv(s.base) && ai in s.base.nodes && id in s.base.nodes && id != ai && s.base.nodes[ai].stage == I.Linked
    ensures s.base.nodes[id].ino == s.base.nodes[ai].ino ==> s.base.nodes[id].stage == I.Dying
  {
  }

  function Ask(ai: I.Id, b: nat, bi: I.Id): seq<Action> {
    [Other(I.Drop(ai))] + ([Other(I.ReclaimEnter(ai))] + ([ReadParent(bi, b)] + [Other(I.ReclaimUnlink(ai))]))
  }

  lemma AskRun(s: State, a: nat, ai: I.Id, b: nat, bi: I.Id)
    requires Orphaned(s, a, ai, b, bi)
    ensures Possible(s, Ask(ai, b, bi)) && After(s, Ask(ai, b, bi)) == Reclaimed(s, a, ai, b)
    ensures var t, x := Reclaimed(s, a, ai, b), ServeMiss(s.next); Enabled(t, x) && !Asserted(t, x)
  {
    NamelessIn(s, a, ai, b, bi);
    hide Inv, Orphaned, Enabled, Asserted, Step, Possible, After, Dropped, Reclaiming, Asked, Reclaimed;
    DroppedStep(s, a, ai, b, bi);
    StepOk(s, Other(I.Drop(ai)));
    ReclaimStep(s, a, ai, b, bi);
    StepOk(Dropped(s, a, ai), Other(I.ReclaimEnter(ai)));
    AskStep(s, a, ai, b, bi);
    StepOk(Reclaiming(s, a, ai), ReadParent(bi, b));
    FreedStep(s, a, ai, b, bi);
    StepOk(Asked(s, a, ai, b), Other(I.ReclaimUnlink(ai)));
    FailStep(s, a, ai, b, bi);
    PossibleNone(Reclaimed(s, a, ai, b));
    Prepend(Asked(s, a, ai, b), Other(I.ReclaimUnlink(ai)), Reclaimed(s, a, ai, b), []);
    assert [Other(I.ReclaimUnlink(ai))] + [] == [Other(I.ReclaimUnlink(ai))];
    Prepend(Reclaiming(s, a, ai), ReadParent(bi, b), Asked(s, a, ai, b), [Other(I.ReclaimUnlink(ai))]);
    Prepend(Dropped(s, a, ai), Other(I.ReclaimEnter(ai)), Reclaiming(s, a, ai), [ReadParent(bi, b)] + [Other(I.ReclaimUnlink(ai))]);
    Prepend(s, Other(I.Drop(ai)), Dropped(s, a, ai), [Other(I.ReclaimEnter(ai))] + ([ReadParent(bi, b)] + [Other(I.ReclaimUnlink(ai))]));
  }

  lemma NamelessIn(s: State, a: nat, ai: I.Id, b: nat, bi: I.Id)
    requires Orphaned(s, a, ai, b, bi)
    ensures Inv(s) && I.Nameless(s.base, a)
  {
    NotStale(s, ai, a);
    RemovedNameless(s, a);
  }

  // ------------------------------------------------------------ the whole run

  // `b` is in use and alone in `a`, which is in `d` and has one user.
  ghost predicate Nested(s: State, d: nat, i: nat, di: I.Id, a: nat, j: nat, ai: I.Id, b: nat, bi: I.Id) {
    && Inv(s) && Quiet(s) && Removable(s, a, j, b, bi, ai) && ai != bi
    && a != d && b != d && a != ROOT && Live(s, d) && s.home[a] == Home(d, i) && Held(s, di, d)
    && (forall l :: l in s.refs && l.Slot? && l.dir == a ==> l == Slot(a, j))
    && s.base.nodes[ai] == I.Node(a, 1, 0, 1, 0, I.Linked, false)
  }

  lemma Second(s: State, d: nat, i: nat, di: I.Id, a: nat, j: nat, ai: I.Id, b: nat, bi: I.Id)
    requires Nested(s, d, i, di, a, j, ai, b, bi)
    ensures Quiet(Gone(s, a, j, b)) && Removable(Gone(s, a, j, b), d, i, a, ai, di)
  {
    hide Inv;
  }

  lemma Third(s: State, d: nat, i: nat, di: I.Id, a: nat, j: nat, ai: I.Id, b: nat, bi: I.Id)
    requires Nested(s, d, i, di, a, j, ai, b, bi)
    ensures var t := Gone(Gone(s, a, j, b), d, i, a); Inv(t) ==> Orphaned(t, a, ai, b, bi)
  {
    hide Inv, NoSlots;
  }

  lemma {:induction false} Join(s: State, r1: seq<Action>, r2: seq<Action>)
    requires Possible(s, r1) && Possible(After(s, r1), r2)
    ensures Possible(s, r1 + r2) && After(s, r1 + r2) == After(After(s, r1), r2)
    decreases |r1|
  {
    hide Enabled, Asserted, Step;
    if r1 == [] {
      assert r1 + r2 == r2;
    } else {
      assert (r1 + r2)[1..] == r1[1..] + r2;
      Join(Step(s, r1[0]), r1[1..], r2);
    }
  }

  // From every such state: `b` is removed, then `a`; while the last user of `a`
  // drops it, the user of `b` asks for its parent, and its load finds the block
  // of `a` free.
  lemma ParentGone(s: State, d: nat, i: nat, di: I.Id, a: nat, j: nat, ai: I.Id, b: nat, bi: I.Id)
    requires Nested(s, d, i, di, a, j, ai, b, bi)
    ensures var run := Rmdir(s, a, j, bi, ai) + (Rmdir(Gone(s, a, j, b), d, i, ai, di) + Ask(ai, b, bi));
      && Possible(s, run)
      && Enabled(After(s, run), ServeMiss(s.next + 2)) && !Asserted(After(s, run), ServeMiss(s.next + 2))
  {
    NestedIn(s, d, i, di, a, j, ai, b, bi);
    Third(s, d, i, di, a, j, ai, b, bi);
    Second(s, d, i, di, a, j, ai, b, bi);
    var s1 := Gone(s, a, j, b);
    var s2 := Gone(s1, d, i, a);
    assert s2.next == s.next + 2;
    hide Inv, Nested, Orphaned, Removable, Quiet, Enabled, Asserted, Step, Possible, After, Gone, Ask, Rmdir;
    RmdirRun(s, a, j, b, bi, ai);
    RmdirRun(s1, d, i, a, ai, di);
    AskRun(s2, a, ai, b, bi);
    Join(s1, Rmdir(s1, d, i, ai, di), Ask(ai, b, bi));
    Join(s, Rmdir(s, a, j, bi, ai), Rmdir(s1, d, i, ai, di) + Ask(ai, b, bi));
  }

  lemma NestedIn(s: State, d: nat, i: nat, di: I.Id, a: nat, j: nat, ai: I.Id, b: nat, bi: I.Id)
    requires Nested(s, d, i, di, a, j, ai, b, bi)
    ensures Inv(s) && Quiet(s) && Removable(s, a, j, b, bi, ai)
  {
    hide Inv, Quiet, Removable;
  }

  // The root, /a and /a/b, each with one user.
  const RootRefs: map<Link, nat> := map[Dot(1) := 1, DotDot(1) := 1]
  const TreeRefs: map<Link, nat> := RootRefs[Slot(1, 0) := 2][Dot(2) := 2][DotDot(2) := 1][Slot(2, 0) := 3][Dot(3) := 3][DotDot(3) := 2]

  function Used(x: nat): I.Node { I.Node(x, 1, 0, 1, 0, I.Linked, false) }

  function Example(): State {
    State(I.State(map[1 := Used(1), 2 := Used(2), 3 := Used(3)], I.Free, map[1 := 3, 2 := 3, 3 := 2]), TreeRefs,
      map[1 := Home(1, 0), 2 := Home(1, 0), 3 := Home(2, 0)], {}, {}, NoRemoval, map[], 0, None)
  }

  lemma ExampleExact()
    ensures Exact(Example().base.links, TreeRefs)
  {
    assert By(TreeRefs, 1) == {Dot(1), DotDot(1), DotDot(2)};
    assert By(TreeRefs, 2) == {Slot(1, 0), Dot(2), DotDot(3)};
    assert By(TreeRefs, 3) == {Slot(2, 0), Dot(3)};
  }

  lemma ExampleLive()
    ensures forall x :: Live(Example(), x) <==> 1 <= x <= 3
    ensures forall x :: Dot(x) in TreeRefs <==> 1 <= x <= 3
    ensures forall x :: DotDot(x) in TreeRefs <==> 1 <= x <= 3
    ensures forall d, i :: Slot(d, i) in TreeRefs <==> (d == 1 || d == 2) && i == 0
  {
  }

  lemma ExampleDots()
    ensures DotsOk(Example())
  {
    ExampleLive();
    hide Live;
  }

  lemma ExampleSlots()
    ensures SlotsOk(Example())
  {
    ExampleLive();
    hide Live;
  }

  lemma ExampleHomes()
    ensures HomesOk(Example())
  {
    ExampleLive();
    hide Live;
  }

  lemma ExampleTree()
    ensures TreeOk(Example())
  {
    hide DotsOk, SlotsOk, HomesOk;
    ExampleDots();
    ExampleSlots();
    ExampleHomes();
  }

  lemma UsedOk(b: I.State, id: I.Id)
    requires b.lock == I.Free && id in b.nodes && b.nodes[id] == Used(id) && id in b.links
    ensures I.NodeOk(b, id)
  {
  }

  lemma ExampleInner()
    ensures I.Inv(Example().base)
  {
    var b := Example().base;
    forall id | id in b.nodes ensures id == b.nodes[id].ino && b.nodes[id] == Used(id) && id in b.links {}
    forall ino ensures !I.Nameless(b, ino) {}
    forall id | id in b.nodes ensures I.NodeOk(b, id) { UsedOk(b, id); }
    hide I.NodeOk, I.Nameless, Used;
    assert I.Unique(b) && I.LockOk(b);
  }

  lemma ExampleNested()
    ensures Nested(Example(), 1, 0, 1, 2, 0, 2, 3, 3)
  {
    hide I.Inv, TreeOk, Exact;
    ExampleExact();
    ExampleTree();
    ExampleInner();
  }
}
