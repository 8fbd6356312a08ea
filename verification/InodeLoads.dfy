/**
  Who loads an inode, and in which order.  A name is looked up under the lock of
  its directory and its inode is loaded under the lock of the file system, which
  is granted in the order of arrival.  Operations that remove a name hold the
  mutex of the file system and the directory's lock from their search to the end,
  and load the inode in between.  So a load by name always finds its inode, and so
  does a load of the parent of a directory that was not removed when its parent
  field was read.

  The steps on references, counters and links are those of InodeLife.
 */
module InodeLoads {
  import opened Sequences
  import I = InodeLife
  import D = SfsDisk

  const ROOT := D.ROOT

  // What a link of an inode stands for: a directory slot, the dot of a directory
  // or the dot-dot of a directory, which is a link of its parent.
  datatype Link = Slot(dir: nat, i: nat) | Dot(x: nat) | DotDot(x: nat)

  // A load that waits for the lock: of the inode in a slot, of the parent of a
  // directory (`live`: it was not removed when its parent field was read), or by
  // the operation that is going to remove a name.
  datatype Waiter = ByName(ino: nat, dir: nat, i: nat) | Parent(ino: nat, child: nat, live: bool) | Remover(ino: nat)

  // The one unlink or rename that holds the mutex: `d` and `e` are the locked
  // directories, equal for unlink, and `i` and `x` the slot and the inode found.
  datatype Removal =
    | NoRemoval
    | Seeking(d: nat, e: nat)
    | Waiting(d: nat, e: nat, i: nat, x: nat, ticket: nat)
    | Holding(d: nat, e: nat, i: nat, x: nat, ticket: nat, id: I.Id)
    | Moving(d: nat, e: nat, i: nat, x: nat, id: I.Id)

  // A directory's parent and the slot it has there.
  datatype Home = Home(dir: nat, i: nat)

  // `queue` has the waiting loads by ticket, in the order of arrival; `busy` are
  // the directories locked by anything but the removal; `serving` is the load
  // that reads its inode from disk.
  datatype State = State(
    base: I.State,
    refs: map<Link, nat>,
    home: map<nat, Home>,
    removed: set<nat>,
    busy: set<nat>,
    removal: Removal,
    queue: map<nat, Waiter>,
    next: nat,
    serving: Option<Waiter>)

  predicate Live(s: State, d: nat) { d in s.home && d !in s.removed }

  predicate Locked(s: State, d: nat) {
    d in s.busy || (s.removal != NoRemoval && (d == s.removal.d || d == s.removal.e))
  }

  datatype Action =
    | Other(a: I.Action)                                // references, reclaims, new inodes
    | LockDir(d: nat)                                   // trylock_sin by lookup, create, link, mkdir
    | UnlockDir(d: nat)
    | Find(d: nat, i: nat)                              // sfs_lookup_once, sfs_create_nolock
    | ReadParent(id: I.Id, c: nat)                      // sfs_load_parent
    | AskRoot                                           // sfs_get_root
    | AddFile(d: nat, i: nat, id: I.Id, x: nat)         // sfs_dirent_link_nolock
    | Mkdir(d: nat, i: nat, id: I.Id, x: nat, di: I.Id) // sfs_mkdir_nolock
    | Seek(d: nat, e: nat)                              // sfs_unlink, sfs_rename
    | Take(i: nat)                                      // the name to remove is found
    | GiveUp
    | Cut(di: I.Id)                                     // sfs_dirent_unlink_nolock
    | RemoveDir(di: I.Id)
    | Paste(dir: nat, j: nat, di: I.Id)                 // the new name, or the old one again
    | ServeHit(k: nat, id: I.Id)                        // sfs_load_inode gets the lock
    | ServeMiss(k: nat)
    | LoadDone(id: I.Id)
    | LoadFail
    | NoMem(k: nat)

  // The steps of InodeLife that are not part of a load or of a change of links.
  predicate Plain(a: I.Action) {
    a.Dup? || a.OpenInc? || a.OpenDec? || a.Drop? || a.Create? || a.Link? || a.ReclaimEnter? || a.ReclaimAbort? || a.ReclaimUnlink? || a.Kill?
  }

  // A referenced inode of that number.
  predicate Held(s: State, id: I.Id, x: nat) {
    I.Has(s.base, id, I.Linked) && s.base.nodes[id].ref > 0 && s.base.nodes[id].ino == x
  }

  predicate NoSlots(s: State, d: nat) { forall l :: l in s.refs ==> !(l.Slot? && l.dir == d) }

  // A rename has taken the inode out and not yet put it back.
  predicate InMove(s: State, c: nat) { s.removal.Moving? && s.removal.x == c }

  // The first in the queue.
  predicate First(s: State, k: nat) { k in s.queue && forall j :: j in s.queue ==> k <= j }

  predicate Enabled(s: State, a: Action) {
    match a
    case Other(b) => Plain(b) && I.Enabled(s.base, b)
    case LockDir(d) => Live(s, d) && !Locked(s, d)
    case UnlockDir(d) => d in s.busy
    case Find(d, i) => d in s.busy && Slot(d, i) in s.refs
    case ReadParent(id, c) => Held(s, id, c) && c in s.home
    case AskRoot => true
    case AddFile(d, i, id, x) => d in s.busy && Slot(d, i) !in s.refs && Held(s, id, x) && x !in s.home
    case Mkdir(d, i, id, x, di) =>
      d in s.busy && Slot(d, i) !in s.refs && Held(s, id, x) && x !in s.home && I.Nameless(s.base, x) && !InMove(s, x)
          && Held(s, di, d)
    case Seek(d, e) => s.removal == NoRemoval && Live(s, d) && Live(s, e) && !Locked(s, d) && !Locked(s, e)
    case Take(i) => s.removal.Seeking? && Slot(s.removal.d, i) in s.refs
    case GiveUp => s.removal.Seeking? || s.removal.Holding?
    case Cut(di) =>
      && s.removal.Holding? && Held(s, s.removal.id, s.removal.x)
      && (s.removal.x in s.home ==> s.removal.d != s.removal.e && Held(s, di, s.removal.d))
    case RemoveDir(di) =>
      && s.removal.Holding? && Held(s, s.removal.id, s.removal.x) && s.removal.d == s.removal.e && s.removal.x in s.home
      && Held(s, di, s.removal.d) && !Locked(s, s.removal.x) && NoSlots(s, s.removal.x)
    case Paste(dir, j, di) =>
      && s.removal.Moving? && (dir == s.removal.d || dir == s.removal.e) && Slot(dir, j) !in s.refs
      && Held(s, s.removal.id, s.removal.x) && Held(s, di, dir)
    case ServeHit(k, id) => First(s, k) && I.Enabled(s.base, I.LookupHit(id)) && s.base.nodes[id].ino == s.queue[k].ino
    case ServeMiss(k) => First(s, k) && I.Enabled(s.base, I.LoadBegin(s.queue[k].ino))
    case LoadDone(id) => s.serving.Some? && I.Enabled(s.base, I.LoadDone(id))
    case LoadFail => s.serving.Some? && I.Enabled(s.base, I.LoadFail)
    case NoMem(k) => First(s, k) && s.base.lock == I.Free
  }

  // The steps of InodeLife that the step consists of.
  function Inner(s: State, a: Action): seq<I.Action>
    requires Enabled(s, a)
  {
    match a
    case Other(b) => [b]
    case AddFile(_, _, id, x) => [I.Raise(id, x)]
    case Mkdir(d, _, id, x, di) => [I.Raise(id, x), I.Raise(id, x), I.Raise(di, d)]
    case Cut(di) =>
      [I.Lower(s.removal.id, s.removal.x)] + (if s.removal.x in s.home then [I.Lower(di, s.removal.d)] else [])
    case RemoveDir(di) =>
      [I.Lower(s.removal.id, s.removal.x), I.Lower(s.removal.id, s.removal.x), I.Lower(di, s.removal.d)]
    case Paste(dir, _, di) =>
      [I.Raise(s.removal.id, s.removal.x)] + (if s.removal.x in s.home then [I.Raise(di, dir)] else [])
    case ServeHit(_, id) => [I.LookupHit(id)]
    case ServeMiss(k) => [I.LoadBegin(s.queue[k].ino)]
    case LoadDone(id) => [I.LoadDone(id)]
    case LoadFail => [I.LoadFail]
    case _ => []
  }

  // Every assertion of the source at the step holds.
  ghost predicate Asserted(s: State, a: Action)
    requires Enabled(s, a)
  {
    I.Possible(s.base, Inner(s, a))
  }

  // A waiter more at the end of the queue.
  function Enqueue(s: State, w: Waiter): State { s.(queue := s.queue[s.next := w], next := s.next + 1) }

  // The load of `w` has got the inode.
  function Loaded(r: Removal, w: Waiter, id: I.Id): Removal {
    if w.Remover? && r.Waiting? then Holding(r.d, r.e, r.i, r.x, r.ticket, id) else r
  }

  function Failed(r: Removal, w: Waiter): Removal { if w.Remover? then NoRemoval else r }

  // The step on everything but the state of InodeLife.
  function Outer(s: State, a: Action): State
    requires Enabled(s, a)
  {
    match a
    case Other(b) =>
      if b.Create? then s.(home := s.home - {b.ino}, removed := s.removed - {b.ino}) else s
    case LockDir(d) => s.(busy := s.busy + {d})
    case UnlockDir(d) => s.(busy := s.busy - {d})
    case Find(d, i) => Enqueue(s, ByName(s.refs[Slot(d, i)], d, i))
    case ReadParent(id, c) => Enqueue(s, Parent(s.home[c].dir, c, c !in s.removed))
    case AskRoot => Enqueue(s, Parent(ROOT, ROOT, true))
    case AddFile(d, i, id, x) => s.(refs := s.refs[Slot(d, i) := x])
    case Mkdir(d, i, id, x, di) =>
      s.(refs := s.refs[Slot(d, i) := x][Dot(x) := x][DotDot(x) := d], home := s.home[x := Home(d, i)], removed := s.removed - {x})
    case Seek(d, e) => s.(removal := Seeking(d, e))
    case Take(i) =>
      var x := s.refs[Slot(s.removal.d, i)];
      Enqueue(s, Remover(x)).(removal := Waiting(s.removal.d, s.removal.e, i, x, s.next))
    case GiveUp => s.(removal := NoRemoval)
    case Cut(di) =>
      var r := s.removal;
      s.(refs := if r.x in s.home then s.refs - {Slot(r.d, r.i)} - {DotDot(r.x)} else s.refs - {Slot(r.d, r.i)},
         removal := if r.d == r.e then NoRemoval else Moving(r.d, r.e, r.i, r.x, r.id))
    case RemoveDir(di) =>
      var r := s.removal;
      s.(refs := s.refs - {Slot(r.d, r.i)} - {Dot(r.x)} - {DotDot(r.x)}, removed := s.removed + {r.x}, removal := NoRemoval)
    case Paste(dir, j, di) =>
      var x := s.removal.x;
      var t := s.(refs := s.refs[Slot(dir, j) := x], removal := NoRemoval);
      if x in s.home then t.(refs := t.refs[DotDot(x) := dir], home := s.home[x := Home(dir, j)]) else t
    case ServeHit(k, id) => s.(queue := s.queue - {k}, removal := Loaded(s.removal, s.queue[k], id))
    case ServeMiss(k) => s.(queue := s.queue - {k}, serving := Some(s.queue[k]))
    case LoadDone(id) => s.(serving := None, removal := Loaded(s.removal, s.serving.value, id))
    case LoadFail => s.(serving := None, removal := Failed(s.removal, s.serving.value))
    case NoMem(k) => s.(queue := s.queue - {k}, removal := Failed(s.removal, s.queue[k]))
  }

  ghost function Step(s: State, a: Action): State
    requires Enabled(s, a) && Asserted(s, a)
  {
    Outer(s, a).(base := I.After(s.base, Inner(s, a)))
  }

  // ------------------------------------------------------------ invariant

  // The links of an inode.
  function By(refs: map<Link, nat>, x: nat): set<Link> { set l | l in refs && refs[l] == x }

  // nlinks counts the links.
  ghost predicate Exact(links: map<nat, nat>, refs: map<Link, nat>) {
    && (forall l :: l in refs ==> refs[l] in links)
    && (forall x :: x in links ==> links[x] == |By(refs, x)|)
  }

  // Every live directory has its dot, and its dot-dot unless a rename has just
  // taken it out.
  ghost predicate DotsOk(s: State) {
    && Live(s, ROOT) && s.home[ROOT].dir == ROOT
    && (forall x :: Live(s, x) <==> Dot(x) in s.refs)
    && (forall x :: Dot(x) in s.refs ==> s.refs[Dot(x)] == x)
    && (forall x :: DotDot(x) in s.refs <==> Live(s, x) && !InMove(s, x))
    && (forall x :: DotDot(x) in s.refs ==> s.refs[DotDot(x)] == s.home[x].dir)
  }

  // A directory has no slot but the one at home.
  ghost predicate SlotsOk(s: State) {
    forall d, i :: Slot(d, i) in s.refs ==> Live(s, d) && SlotOk(s, d, i, s.refs[Slot(d, i)])
  }

  predicate SlotOk(s: State, d: nat, i: nat, x: nat) {
    x != ROOT && (x in s.home ==> Live(s, x) && s.home[x] == Home(d, i) && !InMove(s, x))
  }

  // And that one it has.
  ghost predicate HomesOk(s: State) {
    forall c :: Live(s, c) && c != ROOT && !InMove(s, c) ==> Placed(s, c)
  }

  ghost predicate TreeOk(s: State) { DotsOk(s) && SlotsOk(s) && HomesOk(s) }

  predicate Placed(s: State, c: nat)
    requires c in s.home
  {
    var l := Slot(s.home[c].dir, s.home[c].i); l in s.refs && s.refs[l] == c
  }

  // Locked directories are live, and the removal's slot is as it was found.
  ghost predicate LocksOk(s: State) {
    var r := s.removal;
    && (forall d :: d in s.busy ==> Live(s, d))
    && (r != NoRemoval ==> Live(s, r.d) && Live(s, r.e) && r.d !in s.busy && r.e !in s.busy)
    && (r.Waiting? || r.Holding? ==> Slot(r.d, r.i) in s.refs && s.refs[Slot(r.d, r.i)] == r.x && r.ticket < s.next)
    && (r.Moving? ==> r.x != ROOT && r.d != r.e && (r.x in s.home ==> Live(s, r.x) && s.home[r.x].dir == r.d))
  }

  // A child that has not moved or gone.
  predicate Anchored(s: State, w: Waiter)
    requires w.Parent?
  {
    Live(s, w.child) && s.home[w.child].dir == w.ino
  }

  // The inode of a waiting load has a link.
  ghost predicate WaiterOk(s: State, k: nat)
    requires k in s.queue
  {
    var w := s.queue[k];
    && k < s.next
    && (w.ByName? ==> Slot(w.dir, w.i) in s.refs && s.refs[Slot(w.dir, w.i)] == w.ino)
    && (w.Parent? && w.live ==> Live(s, w.ino))
    && (w.Remover? ==> s.removal.Waiting? && s.removal.ticket == k && s.removal.x == w.ino && s.serving != Some(w))
  }

  predicate Served(s: State) { s.removal.Holding? || (s.removal.Waiting? && s.serving == Some(Remover(s.removal.x))) }

  // The loads that the removal could harm are in front of its own load.
  ghost predicate OrderOk(s: State, k: nat)
    requires k in s.queue
  {
    var w, r := s.queue[k], s.removal;
    && (r.Waiting? || r.Holding? ==>
          && (w.ByName? && w.dir == r.d ==> k < r.ticket)
          && (w.Parent? && w.live && w.ino == r.x ==> k < r.ticket || Anchored(s, w)))
    && (Served(s) ==> r.ticket < k)
  }

  // Waiters other than those for the parent of a removed directory.
  predicate Good(w: Waiter) { w.Parent? ==> w.live }

  ghost predicate ServingOk(s: State) {
    && (s.base.lock.Loading? <==> s.serving.Some?)
    && (s.serving.Some? ==>
          && s.base.lock.ino == s.serving.value.ino
          && (Good(s.serving.value) ==> I.Named(s.base, s.serving.value.ino))
          && (s.serving.value.Remover? ==> s.removal.Waiting? && s.removal.x == s.serving.value.ino))
    && (s.removal.Waiting? && !Served(s) ==>
        s.removal.ticket in s.queue && s.queue[s.removal.ticket] == Remover(s.removal.x))
  }

  ghost predicate Inv(s: State) {
    && I.Inv(s.base) && Exact(s.base.links, s.refs) && TreeOk(s) && LocksOk(s) && ServingOk(s)
    && (forall k :: k in s.queue ==> WaiterOk(s, k))
    && (forall k :: k in s.queue ==> OrderOk(s, k))
  }

  // ------------------------------------------------------------ the inner steps

  lemma One(b: I.State, a: I.Action)
    ensures I.Possible(b, [a]) <==> I.Enabled(b, a) && I.Asserted(b, a)
    ensures I.Possible(b, [a]) ==> I.After(b, [a]) == I.Step(b, a)
  {
    hide I.Enabled, I.Asserted, I.Step;
    assert [a][1..] == [];
    if I.Enabled(b, a) && I.Asserted(b, a) { assert I.Possible(I.Step(b, a), []); }
  }

  lemma Cons(b: I.State, a: I.Action, run: seq<I.Action>)
    ensures I.Possible(b, [a] + run) <==> I.Enabled(b, a) && I.Asserted(b, a) && I.Possible(I.Step(b, a), run)
    ensures I.Possible(b, [a] + run) ==> I.After(b, [a] + run) == I.After(I.Step(b, a), run)
  {
    hide I.Enabled, I.Asserted, I.Step;
    assert ([a] + run)[1..] == run;
  }

  // The links of `x` up or down by one.
  function Up(b: I.State, x: nat): I.State { b.(links := b.links[x := if x in b.links then b.links[x] + 1 else 1]) }

  function Down(b: I.State, x: nat): I.State { if I.Named(b, x) then b.(links := b.links[x := b.links[x] - 1]) else b }

  predicate HeldIn(b: I.State, id: I.Id, x: nat) {
    I.Has(b, id, I.Linked) && b.nodes[id].ref > 0 && b.nodes[id].ino == x
  }

  lemma OneUp(b: I.State, id: I.Id, x: nat)
    requires HeldIn(b, id, x)
    ensures I.Possible(b, [I.Raise(id, x)]) && I.After(b, [I.Raise(id, x)]) == Up(b, x)
  {
    One(b, I.Raise(id, x));
  }

  lemma OneDown(b: I.State, id: I.Id, x: nat)
    requires HeldIn(b, id, x)
    ensures I.Possible(b, [I.Lower(id, x)]) <==> I.Named(b, x)
    ensures I.Named(b, x) ==> I.After(b, [I.Lower(id, x)]) == Down(b, x)
  {
    One(b, I.Lower(id, x));
  }

  lemma TwoUp(b: I.State, id: I.Id, x: nat, jd: I.Id, y: nat)
    requires HeldIn(b, id, x) && HeldIn(b, jd, y)
    ensures I.Possible(b, [I.Raise(id, x)] + [I.Raise(jd, y)])
    ensures I.After(b, [I.Raise(id, x)] + [I.Raise(jd, y)]) == Up(Up(b, x), y)
  {
    hide I.Possible, I.After;
    Cons(b, I.Raise(id, x), [I.Raise(jd, y)]);
    OneUp(Up(b, x), jd, y);
  }

  lemma TwoDown(b: I.State, id: I.Id, x: nat, jd: I.Id, y: nat)
    requires HeldIn(b, id, x) && HeldIn(b, jd, y)
    ensures var run := [I.Lower(id, x)] + [I.Lower(jd, y)];
      (I.Named(b, x) && I.Named(Down(b, x), y) ==> I.Possible(b, run) && I.After(b, run) == Down(Down(b, x), y))
  {
    hide I.Possible, I.After;
    Cons(b, I.Lower(id, x), [I.Lower(jd, y)]);
    OneDown(Down(b, x), jd, y);
  }

  lemma ThreeUp(b: I.State, id: I.Id, x: nat, jd: I.Id, y: nat)
    requires HeldIn(b, id, x) && HeldIn(b, jd, y)
    ensures var run := [I.Raise(id, x), I.Raise(id, x), I.Raise(jd, y)];
      I.Possible(b, run) && I.After(b, run) == Up(Up(Up(b, x), x), y)
  {
    hide I.Possible, I.After;
    var rest := [I.Raise(id, x)] + [I.Raise(jd, y)];
    Cons(b, I.Raise(id, x), rest);
    TwoUp(Up(b, x), id, x, jd, y);
    assert [I.Raise(id, x), I.Raise(id, x), I.Raise(jd, y)] == [I.Raise(id, x)] + rest;
  }

  lemma ThreeDown(b: I.State, id: I.Id, x: nat, jd: I.Id, y: nat)
    requires HeldIn(b, id, x) && HeldIn(b, jd, y)
    ensures var run := [I.Lower(id, x), I.Lower(id, x), I.Lower(jd, y)];
      I.Named(b, x) && I.Named(Down(b, x), x) && I.Named(Down(Down(b, x), x), y) ==>
        I.Possible(b, run) && I.After(b, run) == Down(Down(Down(b, x), x), y)
  {
    hide I.Possible, I.After;
    var rest := [I.Lower(id, x)] + [I.Lower(jd, y)];
    Cons(b, I.Lower(id, x), rest);
    TwoDown(Down(b, x), id, x, jd, y);
    assert [I.Lower(id, x), I.Lower(id, x), I.Lower(jd, y)] == [I.Lower(id, x)] + rest;
  }

  // ------------------------------------------------------------ counting links

  lemma Put(refs: map<Link, nat>, l: Link, x: nat, y: nat)
    requires l !in refs
    ensures |By(refs[l := x], y)| == |By(refs, y)| + if y == x then 1 else 0
  {
    assert By(refs[l := x], y) == By(refs, y) + if y == x then {l} else {};
  }

  lemma Drop(refs: map<Link, nat>, l: Link, y: nat)
    requires l in refs
    ensures |By(refs - {l}, y)| == |By(refs, y)| - if y == refs[l] then 1 else 0
  {
    assert By(refs - {l}, y) == By(refs, y) - if y == refs[l] then {l} else {};
  }

  // A link and its count together.
  lemma ExactUp(b: I.State, refs: map<Link, nat>, l: Link, x: nat)
    requires Exact(b.links, refs) && l !in refs && x in b.links
    ensures Exact(Up(b, x).links, refs[l := x])
  {
    hide By;
    forall y | y in b.links ensures Up(b, x).links[y] == |By(refs[l := x], y)| { Put(refs, l, x, y); }
  }

  lemma ExactDown(b: I.State, refs: map<Link, nat>, l: Link)
    requires Exact(b.links, refs) && l in refs
    ensures I.Named(b, refs[l]) && Exact(Down(b, refs[l]).links, refs - {l})
  {
    HasLink(b, refs, l);
    hide By;
    forall y | y in b.links ensures Down(b, refs[l]).links[y] == |By(refs - {l}, y)| { Drop(refs, l, y); }
  }

  lemma HasLink(b: I.State, refs: map<Link, nat>, l: Link)
    requires Exact(b.links, refs) && l in refs
    ensures I.Named(b, refs[l])
  {
    assert l in By(refs, refs[l]);
  }

  // ------------------------------------------------------------ steps on links

  predicate OnLinks(a: Action) { a.AddFile? || a.Mkdir? || a.Cut? || a.RemoveDir? || a.Paste? }

  lemma HeldLinks(s: State, id: I.Id, x: nat)
    requires I.Inv(s.base) && Held(s, id, x)
    ensures x in s.base.links && HeldIn(s.base, id, x)
  {
    assert I.NodeOk(s.base, id);
  }

  // What a step on links does to the counts.
  ghost predicate Linked(s: State, a: Action)
    requires Enabled(s, a)
  {
    && Asserted(s, a)
    && var t := Step(s, a); t.base == s.base.(links := t.base.links) && Exact(t.base.links, t.refs)
  }

  lemma AddFileOk(s: State, a: Action)
    requires Inv(s) && Enabled(s, a) && a.AddFile?
    ensures Linked(s, a)
  {
    hide I.Inv, TreeOk, LocksOk, ServingOk, WaiterOk, OrderOk, By, I.Possible, I.After;
    HeldLinks(s, a.id, a.x);
    OneUp(s.base, a.id, a.x);
    ExactUp(s.base, s.refs, Slot(a.d, a.i), a.x);
  }

  lemma MkdirOk(s: State, a: Action)
    requires Inv(s) && Enabled(s, a) && a.Mkdir?
    ensures Linked(s, a)
  {
    hide I.Inv, LocksOk, ServingOk, WaiterOk, OrderOk, By, I.Possible, I.After;
    HeldLinks(s, a.id, a.x);
    HeldLinks(s, a.di, a.d);
    var b, l, x := s.base, Slot(a.d, a.i), a.x;
    assert Dot(x) !in s.refs && DotDot(x) !in s.refs;
    ThreeUp(b, a.id, x, a.di, a.d);
    ExactUp(b, s.refs, l, x);
    ExactUp(Up(b, x), s.refs[l := x], Dot(x), x);
    ExactUp(Up(Up(b, x), x), s.refs[l := x][Dot(x) := x], DotDot(x), a.d);
  }

  lemma CutOk(s: State, a: Action)
    requires Inv(s) && Enabled(s, a) && a.Cut?
    ensures Linked(s, a)
  {
    hide I.Inv, ServingOk, WaiterOk, OrderOk, By, I.Possible, I.After;
    var b, r := s.base, s.removal;
    var l := Slot(r.d, r.i);
    HeldLinks(s, r.id, r.x);
    ExactDown(b, s.refs, l);
    if r.x in s.home {
      HeldLinks(s, a.di, r.d);
      assert s.home[r.x] == Home(r.d, r.i) && DotDot(r.x) in s.refs && s.refs[DotDot(r.x)] == r.d;
      ExactDown(Down(b, r.x), s.refs - {l}, DotDot(r.x));
      TwoDown(b, r.id, r.x, a.di, r.d);
    } else {
      OneDown(b, r.id, r.x);
      assert Inner(s, a) == [I.Lower(r.id, r.x)];
    }
  }

  lemma RemoveDirOk(s: State, a: Action)
    requires Inv(s) && Enabled(s, a) && a.RemoveDir?
    ensures Linked(s, a)
  {
    hide I.Inv, ServingOk, WaiterOk, OrderOk, By, I.Possible, I.After;
    var b, r := s.base, s.removal;
    var l := Slot(r.d, r.i);
    HeldLinks(s, r.id, r.x);
    HeldLinks(s, a.di, r.d);
    assert s.home[r.x] == Home(r.d, r.i) && Live(s, r.x) && DotDot(r.x) in s.refs && s.refs[DotDot(r.x)] == r.d;
    ExactDown(b, s.refs, l);
    ExactDown(Down(b, r.x), s.refs - {l}, Dot(r.x));
    ExactDown(Down(Down(b, r.x), r.x), s.refs - {l} - {Dot(r.x)}, DotDot(r.x));
    ThreeDown(b, r.id, r.x, a.di, r.d);
  }

  lemma PasteOk(s: State, a: Action)
    requires Inv(s) && Enabled(s, a) && a.Paste?
    ensures Linked(s, a)
  {
    hide I.Inv, ServingOk, WaiterOk, OrderOk, By, I.Possible, I.After;
    var b, r := s.base, s.removal;
    var l := Slot(a.dir, a.j);
    HeldLinks(s, r.id, r.x);
    ExactUp(b, s.refs, l, r.x);
    if r.x in s.home {
      HeldLinks(s, a.di, a.dir);
      assert DotDot(r.x) !in s.refs;
      ExactUp(Up(b, r.x), s.refs[l := r.x], DotDot(r.x), a.dir);
      TwoUp(b, r.id, r.x, a.di, a.dir);
    } else {
      OneUp(b, r.id, r.x);
      assert Inner(s, a) == [I.Raise(r.id, r.x)];
    }
  }

  lemma LinksOk(s: State, a: Action)
    requires Inv(s) && Enabled(s, a) && OnLinks(a)
    ensures Linked(s, a)
  {
    hide Inv, Linked, Enabled;
    match a
    case AddFile(_, _, _, _) => AddFileOk(s, a);
    case Mkdir(_, _, _, _, _) => MkdirOk(s, a);
    case Cut(_) => CutOk(s, a);
    case RemoveDir(_) => RemoveDirOk(s, a);
    case Paste(_, _, _) => PasteOk(s, a);
  }

  // ------------------------------------------------------------ all steps on inodes

  // The other steps leave the links alone, but for a new inode and for one whose
  // block becomes free.
  lemma PlainOk(b: I.State, a: I.Action, refs: map<Link, nat>)
    requires I.Inv(b) && Plain(a) && I.Enabled(b, a) && Exact(b.links, refs)
    ensures I.Asserted(b, a) && Exact(I.Step(b, a).links, refs) && (I.Step(b, a).lock.Loading? <==> b.lock.Loading?)
    ensures b.lock.Loading? ==> I.Step(b, a).lock == b.lock
    ensures forall y :: I.Named(I.Step(b, a), y) <==> I.Named(b, y)
    ensures a.Create? ==> a.ino !in b.links
  {
    I.StepAsserts(b, a);
    hide I.Inv, By, I.Asserted;
    var b' := I.Step(b, a);
    if a.Create? {
      assert By(refs, a.ino) == {} by { NoneBy(b.links, refs, a.ino); }
    } else if a.ReclaimUnlink? {
      var x := b.nodes[a.id].ino;
      if I.Nameless(b, x) {
        forall l | l in refs ensures refs[l] != x { HasLink(b, refs, l); }
      }
    }
  }

  lemma NoneBy(links: map<nat, nat>, refs: map<Link, nat>, x: nat)
    requires Exact(links, refs) && x !in links
    ensures By(refs, x) == {}
  {
  }

  // A new inode number stands for nothing yet.
  ghost predicate Fresh(s: State, a: Action) {
    && (a.Other? && a.a.Create? ==>
        !Live(s, a.a.ino) && a.a.ino != ROOT && forall l :: l in s.refs ==> s.refs[l] != a.a.ino)
    && (a.Mkdir? ==> forall l :: l in s.refs ==> s.refs[l] != a.x)
  }

  lemma FreshOk(s: State, a: Action)
    requires Inv(s) && Enabled(s, a)
    ensures Fresh(s, a)
  {
    hide I.Inv, LocksOk, ServingOk, WaiterOk, OrderOk, By;
    if a.Other? && a.a.Create? {
      var x := a.a.ino;
      forall l | l in s.refs ensures s.refs[l] != x {}
      assert Dot(x) !in s.refs;
    } else if a.Mkdir? {
      forall l | l in s.refs ensures s.refs[l] != a.x { HasLink(s.base, s.refs, l); }
    }
  }

  // ------------------------------------------------------------ the tree and the locks

  // The parts of the state that a step touches, by kind of step.
  ghost predicate SameTree(s: State, t: State) {
    t.refs == s.refs && t.home == s.home && t.removed == s.removed && (s.removal.Moving? || t.removal.Moving? ==>
        t.removal == s.removal)
  }

  lemma TreeSame(s: State, t: State)
    requires TreeOk(s) && SameTree(s, t)
    ensures TreeOk(t)
  {
    forall x ensures Live(t, x) == Live(s, x) && InMove(t, x) == InMove(s, x) {}
  }

  predicate OnTree(a: Action) { OnLinks(a) || (a.Other? && a.a.Create?) }

  // A load belongs to a removal that waits for it.
  ghost predicate Loads(s: State) {
    && (forall k :: k in s.queue && s.queue[k].Remover? ==> s.removal.Waiting?)
    && (s.serving.Some? && s.serving.value.Remover? ==> s.removal.Waiting?)
  }

  lemma LoadsOk(s: State)
    requires Inv(s)
    ensures Loads(s)
  {
    hide I.Inv, Exact, TreeOk, LocksOk, OrderOk, Served;
    forall k | k in s.queue && s.queue[k].Remover? ensures s.removal.Waiting? { assert WaiterOk(s, k); }
  }

  lemma OffTree(s: State, a: Action, b: I.State)
    requires Enabled(s, a) && !OnTree(a) && Loads(s)
    ensures SameTree(s, Outer(s, a).(base := b))
  {
    hide I.Enabled, Held, I.Nameless, Live, Locked;
  }

  lemma TreeCreate(s: State, a: Action, b: I.State)
    requires TreeOk(s) && LocksOk(s) && Enabled(s, a) && Fresh(s, a) && a.Other? && a.a.Create?
    ensures TreeOk(Outer(s, a).(base := b))
  {
    hide I.Enabled;
    var t := Outer(s, a).(base := b);
    forall x ensures Live(t, x) == Live(s, x) && InMove(t, x) == InMove(s, x) {}
  }

  lemma TreeAddFile(s: State, a: Action, b: I.State)
    requires TreeOk(s) && LocksOk(s) && Enabled(s, a) && a.AddFile?
    ensures TreeOk(Outer(s, a).(base := b))
  {
    hide Held;
    var t := Outer(s, a).(base := b);
    forall x ensures Live(t, x) == Live(s, x) && InMove(t, x) == InMove(s, x) {}
  }

  lemma MkdirDots(s: State, a: Action, b: I.State)
    requires TreeOk(s) && LocksOk(s) && Enabled(s, a) && a.Mkdir? && Fresh(s, a)
    ensures DotsOk(Outer(s, a).(base := b))
  {
    hide Held, I.Nameless, SlotsOk, HomesOk, LocksOk;
    var t := Outer(s, a).(base := b);
    forall x ensures Live(t, x) == (Live(s, x) || x == a.x) && InMove(t, x) == InMove(s, x) {}
  }

  lemma MkdirSlots(s: State, a: Action, b: I.State)
    requires TreeOk(s) && LocksOk(s) && Enabled(s, a) && a.Mkdir? && Fresh(s, a)
    ensures SlotsOk(Outer(s, a).(base := b))
  {
    hide Held, I.Nameless, DotsOk, HomesOk;
    RootLive(s);
    var t := Outer(s, a).(base := b);
    forall x ensures Live(t, x) == (Live(s, x) || x == a.x) && InMove(t, x) == InMove(s, x) {}
  }

  lemma MkdirHomes(s: State, a: Action, b: I.State)
    requires TreeOk(s) && LocksOk(s) && Enabled(s, a) && a.Mkdir? && Fresh(s, a)
    ensures HomesOk(Outer(s, a).(base := b))
  {
    hide Held, I.Nameless, DotsOk, SlotsOk;
    RootLive(s);
    var t := Outer(s, a).(base := b);
    forall x ensures Live(t, x) == (Live(s, x) || x == a.x) && InMove(t, x) == InMove(s, x) {}
  }

  lemma CutDots(s: State, a: Action, b: I.State)
    requires TreeOk(s) && LocksOk(s) && Enabled(s, a) && a.Cut?
    ensures DotsOk(Outer(s, a).(base := b))
  {
    hide Held, I.Nameless;
    var t := Outer(s, a).(base := b);
    forall x ensures Live(t, x) == Live(s, x) && !InMove(s, x) {}
  }

  lemma CutSlots(s: State, a: Action, b: I.State)
    requires TreeOk(s) && LocksOk(s) && Enabled(s, a) && a.Cut?
    ensures SlotsOk(Outer(s, a).(base := b))
  {
    hide Held, I.Nameless;
    var t := Outer(s, a).(base := b);
    forall x ensures Live(t, x) == Live(s, x) && !InMove(s, x) {}
  }

  lemma CutHomes(s: State, a: Action, b: I.State)
    requires TreeOk(s) && LocksOk(s) && Enabled(s, a) && a.Cut?
    ensures HomesOk(Outer(s, a).(base := b))
  {
    hide Held, I.Nameless;
    var t := Outer(s, a).(base := b);
    forall x ensures Live(t, x) == Live(s, x) && !InMove(s, x) {}
  }

  lemma RemoveDirDots(s: State, a: Action, b: I.State)
    requires TreeOk(s) && LocksOk(s) && Enabled(s, a) && a.RemoveDir?
    ensures DotsOk(Outer(s, a).(base := b))
  {
    hide Held, I.Nameless;
    var t := Outer(s, a).(base := b);
    forall x ensures Live(t, x) == (Live(s, x) && x != s.removal.x) && !InMove(s, x) && !InMove(t, x) {}
  }

  lemma RemoveDirSlots(s: State, a: Action, b: I.State)
    requires TreeOk(s) && LocksOk(s) && Enabled(s, a) && a.RemoveDir?
    ensures SlotsOk(Outer(s, a).(base := b))
  {
    hide Held, I.Nameless;
    var t := Outer(s, a).(base := b);
    forall x ensures Live(t, x) == (Live(s, x) && x != s.removal.x) && !InMove(s, x) && !InMove(t, x) {}
  }

  lemma RemoveDirHomes(s: State, a: Action, b: I.State)
    requires TreeOk(s) && LocksOk(s) && Enabled(s, a) && a.RemoveDir?
    ensures HomesOk(Outer(s, a).(base := b))
  {
    hide Held, I.Nameless;
    var t := Outer(s, a).(base := b);
    forall x ensures Live(t, x) == (Live(s, x) && x != s.removal.x) && !InMove(s, x) && !InMove(t, x) {}
  }

  lemma PasteDots(s: State, a: Action, b: I.State)
    requires TreeOk(s) && LocksOk(s) && Enabled(s, a) && a.Paste?
    ensures DotsOk(Outer(s, a).(base := b))
  {
    hide Held, I.Nameless, SlotsOk, HomesOk;
    var t := Outer(s, a).(base := b);
    forall x ensures Live(t, x) == Live(s, x) && !InMove(t, x) {}
  }

  lemma PasteSlots(s: State, a: Action, b: I.State)
    requires TreeOk(s) && LocksOk(s) && Enabled(s, a) && a.Paste?
    ensures SlotsOk(Outer(s, a).(base := b))
  {
    hide Held, I.Nameless;
    var t := Outer(s, a).(base := b);
    forall x ensures Live(t, x) == Live(s, x) && !InMove(t, x) {}
  }

  lemma PasteHomes(s: State, a: Action, b: I.State)
    requires TreeOk(s) && LocksOk(s) && Enabled(s, a) && a.Paste?
    ensures HomesOk(Outer(s, a).(base := b))
  {
    hide Held, I.Nameless;
    var t := Outer(s, a).(base := b);
    forall x ensures Live(t, x) == Live(s, x) && !InMove(t, x) {}
  }

  lemma TreeStep(s: State, a: Action, b: I.State)
    requires TreeOk(s) && LocksOk(s) && Enabled(s, a) && Fresh(s, a) && Loads(s)
    ensures TreeOk(Outer(s, a).(base := b))
  {
    hide DotsOk, SlotsOk, HomesOk, LocksOk, Enabled, Outer, Fresh, Loads;
    match a
    case AddFile(_, _, _, _) => TreeAddFile(s, a, b);
    case Mkdir(_, _, _, _, _) => MkdirDots(s, a, b); MkdirSlots(s, a, b); MkdirHomes(s, a, b);
    case Cut(_) => CutDots(s, a, b); CutSlots(s, a, b); CutHomes(s, a, b);
    case RemoveDir(_) => RemoveDirDots(s, a, b); RemoveDirSlots(s, a, b); RemoveDirHomes(s, a, b);
    case Paste(_, _, _) => PasteDots(s, a, b); PasteSlots(s, a, b); PasteHomes(s, a, b);
    case _ =>
      if OnTree(a) {
        TreeCreate(s, a, b);
      } else {
        OffTree(s, a, b);
        TreeSame(s, Outer(s, a).(base := b));
      }
  }

  // Live directories stay so, but for the one removed.
  lemma LiveStep(s: State, a: Action, b: I.State, d: nat)
    requires Enabled(s, a) && Fresh(s, a) && Live(s, d) && !(a.RemoveDir? && d == s.removal.x)
    ensures Live(Outer(s, a).(base := b), d)
  {
    hide I.Enabled, Held, I.Nameless;
  }

  // Slots stay as they are, but for the one the removal cuts.
  lemma SlotStep(s: State, a: Action, b: I.State, l: Link)
    requires Enabled(s, a) && l in s.refs && l.Slot?
    requires !((a.Cut? || a.RemoveDir?) && l == Slot(s.removal.d, s.removal.i))
    ensures var t := Outer(s, a).(base := b); l in t.refs && t.refs[l] == s.refs[l]
  {
    hide I.Enabled, Held, I.Nameless;
  }

  lemma LocksLinks(s: State, a: Action, b: I.State)
    requires TreeOk(s) && LocksOk(s) && Enabled(s, a) && Fresh(s, a) && Loads(s) && OnLinks(a)
    ensures LocksOk(Outer(s, a).(base := b))
  {
    hide I.Enabled, Held, I.Nameless, DotsOk, HomesOk, Fresh;
    var t := Outer(s, a).(base := b);
    forall d | Live(s, d) && !(a.RemoveDir? && d == s.removal.x) ensures Live(t, d) { LiveStep(s, a, b, d); }
    forall l | l in s.refs && l.Slot? && !((a.Cut? || a.RemoveDir?) && l == Slot(s.removal.d, s.removal.i))
      ensures l in t.refs && t.refs[l] == s.refs[l] { SlotStep(s, a, b, l); }
    hide Live;
  }

  lemma LocksPlain(s: State, a: Action, b: I.State)
    requires TreeOk(s) && LocksOk(s) && Enabled(s, a) && Fresh(s, a) && Loads(s) && !OnLinks(a)
    ensures LocksOk(Outer(s, a).(base := b))
  {
    hide I.Enabled, Held, I.Nameless, DotsOk, HomesOk, Fresh;
    var t := Outer(s, a).(base := b);
    forall d | Live(s, d) ensures Live(t, d) { LiveStep(s, a, b, d); }
    forall l | l in s.refs && l.Slot? ensures l in t.refs && t.refs[l] == s.refs[l] { SlotStep(s, a, b, l); }
    hide Live;
  }

  lemma LocksStep(s: State, a: Action, b: I.State)
    requires TreeOk(s) && LocksOk(s) && Enabled(s, a) && Fresh(s, a) && Loads(s)
    ensures LocksOk(Outer(s, a).(base := b))
  {
    hide TreeOk, LocksOk, Enabled, Outer, Fresh, Loads;
    if OnLinks(a) { LocksLinks(s, a, b); } else { LocksPlain(s, a, b); }
  }

  // ------------------------------------------------------------ the queue

  lemma ParentLive(s: State, c: nat)
    requires TreeOk(s) && LocksOk(s) && Live(s, c)
    ensures Live(s, s.home[c].dir)
  {
    hide DotsOk;
    if c == ROOT { RootLive(s); }
  }

  lemma RootLive(s: State)
    requires DotsOk(s)
    ensures Live(s, ROOT) && s.home[ROOT].dir == ROOT
  {
  }

  // A directory that is being removed is nobody's anchor.
  lemma NoChild(s: State, a: Action, w: Waiter)
    requires TreeOk(s) && LocksOk(s) && Enabled(s, a) && a.RemoveDir? && w.Parent? && Anchored(s, w)
    ensures w.ino != s.removal.x
  {
    hide DotsOk, Held, Locked;
    RootLive(s);
  }

  lemma RemoverStays(s: State, a: Action, b: I.State, k: nat)
    requires Enabled(s, a) && k in s.queue && k in Outer(s, a).queue && s.queue[k].Remover? && WaiterOk(s, k)
    requires OnQueue(a) ==> WaiterOk(s, a.k)
    requires s.serving.Some? && s.serving.value.Remover? && s.removal.Waiting? ==>
      s.serving == Some(Remover(s.removal.x))
    ensures WaiterOk(Outer(s, a).(base := b), k)
  {
    hide I.Enabled, Held, I.Nameless, NoSlots, Locked, Live;
  }

  // A step that takes a load from the queue.
  predicate OnQueue(a: Action) { a.ServeMiss? || a.ServeHit? || a.NoMem? }

  lemma NextGrows(s: State, a: Action)
    requires Enabled(s, a)
    ensures s.next <= Outer(s, a).next
    ensures forall k :: k in s.queue && k in Outer(s, a).queue && k < s.next ==> Outer(s, a).queue[k] == s.queue[k]
  {
    hide I.Enabled, Held, I.Nameless, NoSlots, Locked, Live;
  }

  lemma NameStays(s: State, a: Action, b: I.State, k: nat)
    requires Enabled(s, a) && k in s.queue && k in Outer(s, a).queue && s.queue[k].ByName?
    requires WaiterOk(s, k) && OrderOk(s, k)
    ensures WaiterOk(Outer(s, a).(base := b), k)
  {
    hide Outer, I.Enabled, Held, I.Nameless, NoSlots, Locked, Anchored, Live;
    NextGrows(s, a);
    SlotStep(s, a, b, Slot(s.queue[k].dir, s.queue[k].i));
  }

  lemma ParentStays(s: State, a: Action, b: I.State, k: nat)
    requires TreeOk(s) && LocksOk(s) && Enabled(s, a) && Fresh(s, a)
    requires k in s.queue && k in Outer(s, a).queue && s.queue[k].Parent? && WaiterOk(s, k) && OrderOk(s, k)
    ensures WaiterOk(Outer(s, a).(base := b), k)
  {
    hide TreeOk, LocksOk, Outer, I.Enabled, Held, I.Nameless, Fresh, NoSlots, Locked, Anchored, Live;
    var w := s.queue[k];
    NextGrows(s, a);
    if w.live {
      if a.RemoveDir? && w.ino == s.removal.x { NoChild(s, a, w); }
      LiveStep(s, a, b, w.ino);
    }
  }

  lemma WaiterStays(s: State, a: Action, b: I.State, k: nat)
    requires TreeOk(s) && LocksOk(s) && Enabled(s, a) && Fresh(s, a)
    requires k in s.queue && k in Outer(s, a).queue && forall j :: j in s.queue ==> WaiterOk(s, j) && OrderOk(s, j)
    requires s.serving.Some? && s.serving.value.Remover? && s.removal.Waiting? ==>
      s.serving == Some(Remover(s.removal.x))
    ensures WaiterOk(Outer(s, a).(base := b), k)
  {
    hide TreeOk, LocksOk, Outer, Fresh, WaiterOk, OrderOk, I.Enabled, Held, I.Nameless, NoSlots, Locked, Live;
    match s.queue[k]
    case ByName(_, _, _) => NameStays(s, a, b, k);
    case Parent(_, _, _) => ParentStays(s, a, b, k);
    case Remover(_) => RemoverStays(s, a, b, k);
  }

  lemma WaiterNew(s: State, a: Action, b: I.State, k: nat)
    requires TreeOk(s) && LocksOk(s) && Enabled(s, a) && Loads(s)
    requires k !in s.queue && k in Outer(s, a).queue
    ensures WaiterOk(Outer(s, a).(base := b), k) && k == s.next
  {
    hide I.Enabled, Held, I.Nameless, DotsOk, HomesOk, SlotsOk, Locked;
    if a.ReadParent? && Live(s, a.c) { ParentLive(s, a.c); }
    RootLive(s);
  }

  lemma AnchoredStep(s: State, a: Action, b: I.State, w: Waiter)
    requires Enabled(s, a) && Fresh(s, a) && w.Parent? && Anchored(s, w) && !a.Cut? && !a.RemoveDir? && !a.Paste?
    ensures Anchored(Outer(s, a).(base := b), w)
  {
    hide I.Enabled, Held, I.Nameless;
  }

  lemma OrderStays(s: State, a: Action, b: I.State, k: nat)
    requires LocksOk(s) && Enabled(s, a) && Fresh(s, a) && Loads(s)
    requires k in s.queue && k in Outer(s, a).queue && forall j :: j in s.queue ==> WaiterOk(s, j) && OrderOk(s, j)
    requires s.serving.Some? && s.serving.value.Remover? && s.removal.Waiting? ==>
      s.serving == Some(Remover(s.removal.x))
    ensures OrderOk(Outer(s, a).(base := b), k)
  {
    hide I.Enabled, Held, I.Nameless, Fresh, NoSlots, Locked, Anchored;
    assert WaiterOk(s, k) && OrderOk(s, k);
    var t, w := Outer(s, a).(base := b), s.queue[k];
    if w.Parent? && Anchored(s, w) && !a.Cut? && !a.RemoveDir? && !a.Paste? { AnchoredStep(s, a, b, w); }
    if a.ServeMiss? || a.ServeHit? { assert WaiterOk(s, a.k); }
    hide Live;
  }

  lemma OrderNew(s: State, a: Action, b: I.State, k: nat)
    requires TreeOk(s) && LocksOk(s) && Enabled(s, a) && Loads(s)
    requires k !in s.queue && k in Outer(s, a).queue
    ensures OrderOk(Outer(s, a).(base := b), k)
  {
    hide I.Enabled, Held, I.Nameless, DotsOk, HomesOk, NoSlots;
    RootLive(s);
  }

  // ------------------------------------------------------------ the load under way

  // An inode that is being read from disk loses no link meanwhile.
  lemma LoadingNamed(s: State, a: Action)
    requires Inv(s) && Enabled(s, a) && OnLinks(a) && Linked(s, a)
    requires s.base.lock.Loading? && I.Named(s.base, s.base.lock.ino)
    ensures I.Named(Step(s, a).base, s.base.lock.ino)
  {
    hide I.Inv, WaiterOk, OrderOk, I.Possible, I.After, HomesOk, Served;
    var y, t := s.base.lock.ino, Step(s, a);
    assert I.Unhashed(s.base, y) by { LoadingUnhashed(s.base); }
    assert By(s.refs, y) != {};
    var l :| l in By(s.refs, y);
    assert l in t.refs && t.refs[l] == y by { hide By, Exact; LinkKept(s, a, l, y); }
    HasLink(t.base, t.refs, l);
  }

  lemma LoadingUnhashed(b: I.State)
    requires I.Inv(b) && b.lock.Loading?
    ensures I.Unhashed(b, b.lock.ino)
  {
  }

  lemma LinkKept(s: State, a: Action, l: Link, y: nat)
    requires DotsOk(s) && SlotsOk(s) && LocksOk(s) && Enabled(s, a) && OnLinks(a) && I.Unhashed(s.base, y)
    requires l in s.refs && s.refs[l] == y
    ensures var t := Outer(s, a); l in t.refs && t.refs[l] == y
  {
  }

  // What a step that is not about links does to the state of InodeLife.
  lemma PlainStep(s: State, a: Action)
    requires Inv(s) && Enabled(s, a) && Asserted(s, a) && !OnLinks(a)
    ensures var b, t := s.base, Step(s, a);
      && Exact(t.base.links, t.refs) && (forall y :: I.Named(t.base, y) <==> I.Named(b, y))
      && t.base.lock == (if a.ServeMiss? then I.Loading(s.queue[a.k].ino)
          else if a.LoadDone? || a.LoadFail? then I.Free else t.base.lock)
      && (!a.ServeMiss? && !a.LoadDone? && !a.LoadFail? ==>
            (t.base.lock.Loading? <==> b.lock.Loading?) && (b.lock.Loading? ==> t.base.lock == b.lock))
  {
    hide I.Inv, WaiterOk, OrderOk, I.Possible, TreeOk, LocksOk, ServingOk, By, Held, I.Asserted;
    match a
    case Other(x) => One(s.base, x); PlainOk(s.base, x, s.refs);
    case ServeHit(_, id) => One(s.base, I.LookupHit(id));
    case ServeMiss(k) => One(s.base, I.LoadBegin(s.queue[k].ino));
    case LoadDone(id) => One(s.base, I.LoadDone(id));
    case LoadFail => One(s.base, I.LoadFail);
    case _ =>
  }

  // A waiting load that is not for the parent of a removed directory finds a link.
  lemma WaiterNamed(s: State, k: nat)
    requires Inv(s) && k in s.queue && Good(s.queue[k])
    ensures I.Named(s.base, s.queue[k].ino)
  {
    hide I.Inv, ServingOk, SlotsOk, HomesOk, OrderOk, By;
    assert WaiterOk(s, k);
    var w := s.queue[k];
    HasLink(s.base, s.refs, match w case ByName(_, d, i) => Slot(d, i) case Parent(p, _, _) => Dot(p) case Remover(_) => Slot(s.removal.d, s.removal.i));
  }

  lemma ServingLinks(s: State, a: Action)
    requires Inv(s) && Enabled(s, a) && OnLinks(a) && Linked(s, a)
    ensures ServingOk(Step(s, a))
  {
    var t := Step(s, a);
    if s.base.lock.Loading? && I.Named(s.base, s.base.lock.ino) { LoadingNamed(s, a); }
    hide I.Inv, Inv, WaiterOk, OrderOk, I.Possible, I.After, TreeOk, LocksOk, Held, NoSlots, Exact, I.Nameless;
    InvServing(s);
  }

  lemma InvServing(s: State)
    requires Inv(s)
    ensures ServingOk(s)
  {
  }

  // What a step that is not about links does to the lock.
  ghost predicate LockStep(s: State, a: Action, b: I.State)
    requires Enabled(s, a)
  {
    && (forall y :: I.Named(b, y) <==> I.Named(s.base, y))
    && (a.ServeMiss? ==> b.lock == I.Loading(s.queue[a.k].ino) && (Good(s.queue[a.k]) ==> I.Named(b, s.queue[a.k].ino)))
    && (a.LoadDone? || a.LoadFail? ==> b.lock == I.Free)
    && (!a.ServeMiss? && !a.LoadDone? && !a.LoadFail? ==>
          (b.lock.Loading? <==> s.base.lock.Loading?) && (s.base.lock.Loading? ==> b.lock == s.base.lock))
  }

  lemma ServingFrom(s: State, a: Action, b: I.State)
    requires Enabled(s, a) && !OnLinks(a) && ServingOk(s) && Loads(s) && (OnQueue(a) ==> WaiterOk(s, a.k))
    requires LockStep(s, a, b)
    requires s.removal.Waiting? ==> s.removal.ticket < s.next
    ensures ServingOk(Outer(s, a).(base := b))
  {
    hide Held, NoSlots, I.Nameless, I.Named, Locked, Live;
  }

  lemma ServingPlain(s: State, a: Action)
    requires Inv(s) && Enabled(s, a) && Asserted(s, a) && !OnLinks(a)
    ensures ServingOk(Step(s, a))
  {
    hide I.Inv, I.Possible, I.After, Exact, TreeOk, LocksOk, WaiterOk, OrderOk, ServingOk, I.Named, Enabled, Outer,
      Inner;
    LoadsOk(s);
    PlainStep(s, a);
    WaiterIs(s, a);
    ServingFrom(s, a, I.After(s.base, Inner(s, a)));
  }

  lemma WaiterIs(s: State, a: Action)
    requires Inv(s) && Enabled(s, a)
    ensures OnQueue(a) ==> a.k in s.queue && WaiterOk(s, a.k)
    ensures a.ServeMiss? && Good(s.queue[a.k]) ==> I.Named(s.base, s.queue[a.k].ino)
    ensures s.removal.Waiting? ==> s.removal.ticket < s.next
  {
    hide I.Named, I.Inv, Exact, TreeOk, WaiterOk, OrderOk, ServingOk;
    if a.ServeMiss? && Good(s.queue[a.k]) { WaiterNamed(s, a.k); }
  }

  // ------------------------------------------------------------ every step, every run

  // Every assertion of the source holds at the step, but for a load of the parent
  // of a directory that was removed before its parent field was read: that passes
  // exactly if the parent's block is in use and has a link.
  lemma StepAsserts(s: State, a: Action)
    requires Inv(s) && Enabled(s, a)
    ensures Asserted(s, a) <==>
      && (a.ServeMiss? ==> Good(s.queue[a.k]) || s.queue[a.k].ino in s.base.links)
      && (a.LoadDone? ==> Good(s.serving.value) || I.Named(s.base, s.serving.value.ino))
  {
    hide I.Inv, WaiterOk, OrderOk, I.Possible, TreeOk, LocksOk, By, Held, I.Named, NoSlots, Locked;
    if OnLinks(a) {
      LinksOk(s, a);
    } else {
      match a
      case Other(x) => One(s.base, x); PlainOk(s.base, x, s.refs);
      case ServeHit(_, id) => One(s.base, I.LookupHit(id));
      case ServeMiss(k) => One(s.base, I.LoadBegin(s.queue[k].ino)); if Good(s.queue[k]) { WaiterNamed(s, k); NamedIn(s.base, s.queue[k].ino); }
      case LoadDone(id) => One(s.base, I.LoadDone(id));
      case LoadFail => One(s.base, I.LoadFail);
      case _ => Nothing(s.base);
    }
  }

  lemma NamedIn(b: I.State, x: nat)
    requires I.Named(b, x)
    ensures x in b.links
  {
  }

  lemma Nothing(b: I.State)
    ensures I.Possible(b, [])
  {
  }

  lemma StepOk(s: State, a: Action)
    requires Inv(s) && Enabled(s, a) && Asserted(s, a)
    ensures Inv(Step(s, a))
  {
    hide I.Inv, ServingOk, TreeOk, LocksOk, WaiterOk, OrderOk, Exact, Enabled, Outer, I.Possible, I.After, Inner,
      Fresh, Loads;
    var b, t := I.After(s.base, Inner(s, a)), Step(s, a);
    I.RunOk(s.base, Inner(s, a));
    FreshOk(s, a);
    LoadsOk(s);
    OneRemover(s);
    TreeStep(s, a, b);
    LocksStep(s, a, b);
    if OnLinks(a) {
      LinksOk(s, a);
      ServingLinks(s, a);
    } else {
      PlainStep(s, a);
      ServingPlain(s, a);
    }
    forall k | k in t.queue ensures WaiterOk(t, k) && OrderOk(t, k) {
      if k in s.queue {
        WaiterStays(s, a, b, k);
        OrderStays(s, a, b, k);
      } else {
        WaiterNew(s, a, b, k);
        OrderNew(s, a, b, k);
      }
    }
  }

  lemma OneRemover(s: State)
    requires Inv(s)
    ensures s.serving.Some? && s.serving.value.Remover? && s.removal.Waiting? ==>
      s.serving == Some(Remover(s.removal.x))
  {
    InvServing(s);
    hide Inv;
  }

  ghost predicate Possible(s: State, run: seq<Action>)
    decreases |run|
  {
    run == [] || (Enabled(s, run[0]) && Asserted(s, run[0]) && Possible(Step(s, run[0]), run[1..]))
  }

  ghost function After(s: State, run: seq<Action>): State
    requires Possible(s, run)
    decreases |run|
  {
    if run == [] then s else After(Step(s, run[0]), run[1..])
  }

  lemma {:induction false} RunOk(s: State, run: seq<Action>)
    requires Inv(s) && Possible(s, run)
    ensures Inv(After(s, run))
    decreases |run|
  {
    hide Inv, Step, Enabled, Asserted;
    if run != [] {
      StepOk(s, run[0]);
      RunOk(Step(s, run[0]), run[1..]);
    }
  }

  // A file system just mounted: nothing in memory, nothing waits.
  ghost predicate Mounted(s: State) {
    && s.base.nodes == map[] && s.base.lock == I.Free && s.removal == NoRemoval && s.queue == map[] && s.serving == None
    && s.busy == {} && s.removed == {} && Exact(s.base.links, s.refs) && TreeOk(s)
    && (forall x :: x in s.base.links ==> s.base.links[x] > 0)
  }

  lemma MountedOk(s: State)
    requires Mounted(s)
    ensures Inv(s)
  {
    hide TreeOk, Exact;
    I.InitialOk(s.base);
  }

  // On every run from there, whatever step comes next: only the load of the parent
  // of a directory removed before its parent field was read can fail an assertion.
  lemma EveryRun(s0: State, run: seq<Action>, a: Action)
    requires Mounted(s0) && Possible(s0, run) && Enabled(After(s0, run), a)
    ensures var s := After(s0, run); Asserted(s, a) <==>
      && (a.ServeMiss? ==> Good(s.queue[a.k]) || s.queue[a.k].ino in s.base.links)
      && (a.LoadDone? ==> Good(s.serving.value) || I.Named(s.base, s.serving.value.ino))
    ensures I.Inv(After(s0, run).base)
  {
    hide Inv, Step, Enabled, Asserted, Mounted;
    MountedOk(s0);
    RunOk(s0, run);
    StepAsserts(After(s0, run), a);
    InvInner(After(s0, run));
  }

  lemma InvInner(s: State)
    requires Inv(s)
    ensures I.Inv(s.base)
  {
  }

  // A load keeps its ticket while it waits.
  lemma TicketStep(s: State, a: Action, k: nat)
    requires Enabled(s, a) && k < s.next
    ensures k < Outer(s, a).next && (k in Outer(s, a).queue ==> k in s.queue && Outer(s, a).queue[k] == s.queue[k])
  {
    hide I.Enabled, Held, I.Nameless, Live, Locked, NoSlots;
  }

  lemma {:induction false} TicketKept(s: State, run: seq<Action>, k: nat)
    requires Possible(s, run) && k < s.next
    ensures k < After(s, run).next
    ensures (k in After(s, run).queue ==> k in s.queue && After(s, run).queue[k] == s.queue[k])
    decreases |run|
  {
    hide Asserted, I.Possible, I.After, Enabled, Outer, Inner;
    if run != [] {
      TicketStep(s, run[0], k);
      TicketKept(Step(s, run[0]), run[1..], k);
    }
  }

  // The calls that ask for an inode by name, for the root, or for the parent of a
  // directory that is not removed.
  predicate Asks(s: State, a: Action) {
    a.Find? || a.Take? || a.AskRoot? || (a.ReadParent? && a.c !in s.removed)
  }

  lemma AskOk(s: State, a: Action)
    requires Enabled(s, a) && Asks(s, a)
    ensures var t := Outer(s, a); s.next < t.next && s.next in t.queue && Good(t.queue[s.next])
  {
    hide I.Enabled, Held, I.Nameless, Live, Locked, NoSlots;
  }

  // Such a load passes the assertion on its block however long it waits, whatever
  // runs meanwhile, and
  lemma LoadBegins(s: State, a: Action, run: seq<Action>)
    requires Inv(s) && Enabled(s, a) && Asserted(s, a) && Asks(s, a) && Possible(Step(s, a), run)
    requires Enabled(After(Step(s, a), run), ServeMiss(s.next))
    ensures Asserted(After(Step(s, a), run), ServeMiss(s.next)) && Good(After(Step(s, a), run).queue[s.next])
  {
    hide Inv, Asserted, Asks, Possible, After, Outer, Inner, I.Possible, I.After, I.Enabled, Held, I.Nameless, Live,
      Locked, NoSlots;
    var t := Step(s, a);
    AskOk(s, a);
    StepOk(s, a);
    RunOk(t, run);
    TicketKept(t, run, s.next);
    StepAsserts(After(t, run), ServeMiss(s.next));
  }

  // the one on its links when it has read the inode.
  lemma LoadEnds(s: State, run: seq<Action>, id: I.Id)
    requires Inv(s) && s.serving.Some? && Good(s.serving.value) && Possible(s, run)
    requires After(s, run).serving == s.serving && Enabled(After(s, run), LoadDone(id))
    ensures Asserted(After(s, run), LoadDone(id))
  {
    hide Inv, Step, Enabled, Asserted, Possible, After;
    RunOk(s, run);
    StepAsserts(After(s, run), LoadDone(id));
  }
}
