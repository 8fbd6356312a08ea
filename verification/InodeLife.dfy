/**
  The life of inodes: references, lookups that revive an inode whose last
  reference has just gone, names that come and go, and reclaim calls that wait
  for the lock of the file system.  The kernel is not preempted, so what happens
  between two blocking calls is one step.
 */
module InodeLife {

  type Id = nat

  // Where an inode is: not yet in the hash, in it, or taken out to be killed.
  datatype Stage = New | Linked | Dying

  // `pending` counts the reclaim calls that have not yet got the lock;
  // `stale` says that a reclaim gave up because the inode could not be synced.
  datatype Node = Node(ino: nat, ref: nat, open: nat, reclaim: nat, pending: nat, stage: Stage, stale: bool)

  // The lock: free, held by sfs_load_inode while it reads the inode, or held by
  // sfs_reclaim while it truncates or syncs.
  datatype Lock = Free | Loading(ino: nat) | Dropping(id: Id)

  // `links` has nlinks of every inode whose block is in use.
  datatype State = State(nodes: map<Id, Node>, lock: Lock, links: map<nat, nat>)

  datatype Action =
    | Dup(id: Id)                          // vop_ref_inc by a holder of a reference
    | OpenInc(id: Id)
    | OpenDec(id: Id)
    | Drop(id: Id)                         // vop_ref_dec
    | LookupHit(id: Id)                    // lookup_sfs_nolock, lookup_pipe_nolock
    | LoadBegin(ino: nat)                  // sfs_load_inode, not in the hash
    | LoadDone(id: Id)
    | LoadFail
    | Create(id: Id, ino: nat)             // sfs_create_inode, pipe_create_inode
    | Link(id: Id)                         // sfs_set_links
    | Raise(id: Id, ino: nat)              // sfs_dirent_link_nolock
    | Lower(id: Id, ino: nat)              // sfs_dirent_unlink_nolock
    | ReclaimEnter(id: Id)                 // sfs_reclaim gets the lock
    | ReclaimAbort(id: Id)                 // vop_fsync failed
    | ReclaimUnlink(id: Id)                // sfs_remove_links, sfs_block_free
    | PipeReclaim(id: Id)                  // pipe_inode_reclaim gets the lock
    | Kill(id: Id)                         // vop_kill

  predicate Has(s: State, id: Id, stage: Stage) { id in s.nodes && s.nodes[id].stage == stage }

  // No inode in the hash stands for `ino`.
  predicate Unhashed(s: State, ino: nat) {
    forall id :: id in s.nodes ==> s.nodes[id].ino != ino || s.nodes[id].stage != Linked
  }

  // The block is in use, with or without names.
  predicate Nameless(s: State, ino: nat) { ino in s.links && s.links[ino] == 0 }

  predicate Named(s: State, ino: nat) { ino in s.links && s.links[ino] > 0 }

  // When a step can be taken: who may take it, and the lock.  A new inode gets
  // a block that was free.  Only a reclaim of an inode with names syncs it.
  predicate Enabled(s: State, a: Action) {
    match a
    case Dup(id) => Has(s, id, Linked) && s.nodes[id].ref > 0
    case OpenInc(id) => Has(s, id, Linked) && s.nodes[id].open < s.nodes[id].ref
    case OpenDec(id) => Has(s, id, Linked) && s.nodes[id].open > 0
    case Drop(id) => Has(s, id, Linked) && s.nodes[id].ref > s.nodes[id].open
    case LookupHit(id) => Has(s, id, Linked) && s.lock == Free
    case LoadBegin(ino) => s.lock == Free && Unhashed(s, ino)
    case LoadDone(id) => s.lock.Loading? && id !in s.nodes
    case LoadFail => s.lock.Loading?
    case Create(id, ino) => id !in s.nodes && ino !in s.links
    case Link(id) => Has(s, id, New) && s.lock == Free
    case Raise(id, ino) => Has(s, id, Linked) && s.nodes[id].ref > 0 && s.nodes[id].ino == ino
    case Lower(id, ino) => Has(s, id, Linked) && s.nodes[id].ref > 0 && s.nodes[id].ino == ino && Named(s, ino)
    case ReclaimEnter(id) => Has(s, id, Linked) && s.nodes[id].pending > 0 && s.lock == Free
    case ReclaimAbort(id) => id in s.nodes && s.lock == Dropping(id) && Named(s, s.nodes[id].ino)
    case ReclaimUnlink(id) => id in s.nodes && s.lock == Dropping(id)
    case PipeReclaim(id) => Has(s, id, Linked) && s.nodes[id].pending > 0 && s.lock == Free && Nameless(s, s.nodes[id].ino)
    case Kill(id) => Has(s, id, Dying)
  }

  function Put(s: State, id: Id, n: Node): State { s.(nodes := s.nodes[id := n]) }

  // A reclaim call got the lock and counts itself off.
  function CountOff(n: Node): Node
    requires n.pending > 0
  {
    n.(pending := n.pending - 1, reclaim := if n.reclaim > 0 then n.reclaim - 1 else 0)
  }

  // The inode leaves the hash; without names its block becomes free.
  function Unlinked(s: State, id: Id, n: Node): State {
    Put(s, id, n.(stage := Dying)).(links := if Nameless(s, n.ino) then s.links - {n.ino} else s.links)
  }

  function Step(s: State, a: Action): State
    requires Enabled(s, a)
  {
    match a
    case Dup(id) => Put(s, id, s.nodes[id].(ref := s.nodes[id].ref + 1))
    case OpenInc(id) => Put(s, id, s.nodes[id].(open := s.nodes[id].open + 1))
    case OpenDec(id) => Put(s, id, s.nodes[id].(open := s.nodes[id].open - 1))
    case Drop(id) =>
      var n := s.nodes[id].(ref := s.nodes[id].ref - 1);
      Put(s, id, if n.ref == 0 then n.(pending := n.pending + 1) else n)
    case LookupHit(id) =>
      var n := s.nodes[id].(ref := s.nodes[id].ref + 1, stale := false);
      Put(s, id, if n.ref == 1 then n.(reclaim := n.reclaim + 1) else n)
    case LoadBegin(ino) => s.(lock := Loading(ino))
    case LoadDone(id) => Put(s, id, Node(s.lock.ino, 1, 0, 1, 0, Linked, false)).(lock := Free)
    case LoadFail => s.(lock := Free)
    case Create(id, ino) => Put(s, id, Node(ino, 1, 0, 1, 0, New, false)).(links := s.links[ino := 0])
    case Link(id) => Put(s, id, s.nodes[id].(stage := Linked))
    case Raise(id, ino) => s.(links := s.links[ino := if ino in s.links then s.links[ino] + 1 else 1])
    case Lower(id, ino) => s.(links := s.links[ino := s.links[ino] - 1])
    case ReclaimEnter(id) =>
      var n := CountOff(s.nodes[id]);
      if n.reclaim != 0 then Put(s, id, n) else Put(s, id, n).(lock := Dropping(id))
    case ReclaimAbort(id) => Put(s, id, s.nodes[id].(stale := true)).(lock := Free)
    case ReclaimUnlink(id) => Unlinked(s, id, s.nodes[id]).(lock := Free)
    case PipeReclaim(id) =>
      var n := CountOff(s.nodes[id]);
      if n.reclaim != 0 || n.ref != 0 then Put(s, id, n) else Unlinked(s, id, n)
    case Kill(id) => s.(nodes := s.nodes - {id})
  }

  // What the source asserts at the step: of a load, that the block is in use
  // and that the inode read from it has names.
  predicate Asserted(s: State, a: Action) {
    match a
    case Drop(id) => id in s.nodes && s.nodes[id].ref > 0
    case OpenDec(id) => id in s.nodes && s.nodes[id].open > 0
    case LoadBegin(ino) => ino in s.links
    case LoadDone(id) => s.lock.Loading? && Named(s, s.lock.ino)
    case ReclaimEnter(id) =>
      id in s.nodes && s.nodes[id].reclaim > 0 &&
      (s.nodes[id].reclaim == 1 ==> s.nodes[id].ref == 0 && s.nodes[id].open == 0)
    case PipeReclaim(id) => id in s.nodes && s.nodes[id].reclaim > 0
    case Kill(id) => id in s.nodes && s.nodes[id].ref == 0 && s.nodes[id].open == 0
    case _ => true
  }

  // ------------------------------------------------------------ invariant

  // The counter of an inode that may still be found.
  predicate Counted(n: Node) { n.reclaim == n.pending + (if n.ref > 0 then 1 else 0) && n.open <= n.ref }

  ghost predicate NodeOk(s: State, id: Id)
    requires id in s.nodes
  {
    var n := s.nodes[id];
    && Counted(n)
    && (n.stage != Dying ==> n.ino in s.links)
    && (n.stage == New ==> n.ref == 1 && n.pending == 0 && Nameless(s, n.ino))
    && (n.stage == Dying || s.lock == Dropping(id) ==> n.ref == 0 && n.pending == 0)
    && (s.lock == Dropping(id) ==> n.stage == Linked)
    && (n.stage == Linked && n.ref == 0 && n.pending == 0 ==> s.lock == Dropping(id) || n.stale)
    && (n.stale ==> n.ref == 0 && n.pending == 0 && n.stage != New && s.lock != Dropping(id))
  }

  ghost predicate LockOk(s: State) {
    && (s.lock.Dropping? ==> s.lock.id in s.nodes)
    && (s.lock.Loading? ==> Unhashed(s, s.lock.ino) && s.lock.ino in s.links)
  }

  // At most one inode in memory for each inode on disk.
  ghost predicate Unique(s: State) {
    forall i, j :: i in s.nodes && j in s.nodes && i != j && s.nodes[i].ino == s.nodes[j].ino ==>
        s.nodes[i].stage == Dying || s.nodes[j].stage == Dying
  }

  // Some inode in memory will give the block back.
  ghost predicate Kept(s: State, ino: nat) {
    exists id :: id in s.nodes && s.nodes[id].ino == ino && s.nodes[id].stage != Dying
  }

  ghost predicate Inv(s: State) {
    && (forall id :: id in s.nodes ==> NodeOk(s, id))
    && LockOk(s) && Unique(s)
    && (forall ino :: Nameless(s, ino) ==> Kept(s, ino))
  }

  // Nothing in memory; every inode on disk has a name.
  ghost predicate Initial(s: State) {
    s.nodes == map[] && s.lock == Free && forall ino :: ino in s.links ==> s.links[ino] > 0
  }

  lemma InitialOk(s: State)
    requires Initial(s)
    ensures Inv(s)
  {
  }

  // ------------------------------------------------------------ steps

  // Every assertion but those of a load holds, and those of a load fail exactly
  // without the block, or without a name.
  lemma StepAsserts(s: State, a: Action)
    requires Inv(s) && Enabled(s, a)
    ensures Asserted(s, a) <==> (a.LoadBegin? ==> a.ino in s.links) && (a.LoadDone? ==> Named(s, s.lock.ino))
  {
    match a
    case ReclaimEnter(id) => assert NodeOk(s, id);
    case PipeReclaim(id) => assert NodeOk(s, id);
    case Kill(id) => assert NodeOk(s, id);
    case _ =>
  }

  // Steps that make or end inodes or change links, and those on references.
  predicate OnLinks(a: Action) {
    a.Create? || a.LoadDone? || a.Raise? || a.Lower? || a.ReclaimUnlink? || a.PipeReclaim? || a.Kill? || a.Link?
  }

  lemma NodeLinks(s: State, a: Action, id: Id)
    requires Inv(s) && Enabled(s, a) && Asserted(s, a) && OnLinks(a) && id in Step(s, a).nodes
    ensures NodeOk(Step(s, a), id)
  {
    hide Kept;
    if id in s.nodes { assert NodeOk(s, id); }
  }

  lemma NodeRefs(s: State, a: Action, id: Id)
    requires Inv(s) && Enabled(s, a) && Asserted(s, a) && !OnLinks(a) && id in Step(s, a).nodes
    ensures NodeOk(Step(s, a), id)
  {
    hide Kept, Unique, Unhashed;
    assert NodeOk(s, id);
  }

  lemma StepNode(s: State, a: Action, id: Id)
    requires Inv(s) && Enabled(s, a) && Asserted(s, a) && id in Step(s, a).nodes
    ensures NodeOk(Step(s, a), id)
  {
    hide Inv, Enabled, Asserted, Step, NodeOk;
    if OnLinks(a) { NodeLinks(s, a, id); } else { NodeRefs(s, a, id); }
  }

  lemma StepLock(s: State, a: Action)
    requires Inv(s) && Enabled(s, a) && Asserted(s, a)
    ensures LockOk(Step(s, a))
  {
    hide Kept, Unique;
    if s.lock.Dropping? { assert NodeOk(s, s.lock.id); }
  }

  lemma StepUnique(s: State, a: Action)
    requires Inv(s) && Enabled(s, a) && Asserted(s, a)
    ensures Unique(Step(s, a)) && LockOk(Step(s, a))
  {
    hide Kept, NodeOk;
    StepLock(s, a);
    if a.LoadDone? || a.Create? {
      forall id | id in s.nodes && s.nodes[id].stage != Dying
        ensures s.nodes[id].ino != if a.Create? then a.ino else s.lock.ino {
        NodeIn(s, id);
      }
    }
  }

  // An inode that is not about to be killed has its block, and, before it is in
  // the hash, no link.
  lemma NodeIn(s: State, id: Id)
    requires Inv(s) && id in s.nodes && s.nodes[id].stage != Dying
    ensures s.nodes[id].ino in s.links && (s.nodes[id].stage == New ==> Nameless(s, s.nodes[id].ino))
  {
    assert NodeOk(s, id);
  }

  lemma StepKept(s: State, a: Action, ino: nat)
    requires Inv(s) && Enabled(s, a) && Asserted(s, a) && Nameless(Step(s, a), ino)
    ensures Kept(Step(s, a), ino)
  {
    hide NodeOk, LockOk;
    var s' := Step(s, a);
    if a.Create? && ino == a.ino {
      assert s'.nodes[a.id].ino == ino;
    } else if a.Lower? && ino == a.ino {
      assert s'.nodes[a.id].ino == ino;
    } else {
      assert Nameless(s, ino);
      var id :| id in s.nodes && s.nodes[id].ino == ino && s.nodes[id].stage != Dying;
      assert s'.nodes[id].ino == ino;
    }
  }

  lemma StepOk(s: State, a: Action)
    requires Inv(s) && Enabled(s, a) && Asserted(s, a)
    ensures Inv(Step(s, a))
  {
    hide NodeOk, Step, Asserted, Unique, LockOk, Kept, Nameless;
    StepUnique(s, a);
    forall id | id in Step(s, a).nodes ensures NodeOk(Step(s, a), id) { StepNode(s, a, id); }
    forall ino | Nameless(Step(s, a), ino) ensures Kept(Step(s, a), ino) { StepKept(s, a, ino); }
  }

  // ------------------------------------------------------------ whole runs

  // The run is possible from `s`; a step whose assertion fails ends the kernel.
  ghost predicate Possible(s: State, run: seq<Action>)
    decreases |run|
  {
    run == [] || (Enabled(s, run[0]) && Asserted(s, run[0]) && Possible(Step(s, run[0]), run[1..]))
  }

  ghost function After(s: State, run: seq<Action>): State
    requires Possible(s, run)
    decreases |run|
  {
    if run == [] then s else After(Step(s, run[0]), run[1..])
  }

  lemma {:induction false} RunOk(s: State, run: seq<Action>)
    requires Inv(s) && Possible(s, run)
    ensures Inv(After(s, run))
    decreases |run|
  {
    if run != [] {
      StepOk(s, run[0]);
      RunOk(Step(s, run[0]), run[1..]);
    }
  }

  // On every interleaving: whatever step comes next, no assertion of the source
  // fails but those of a load whose inode has gone (InodeLoads shows which loads
  // these can be); the counter of every inode
  // is exact; an inode about to be killed has neither references nor waiting
  // reclaim calls; no two live inodes stand for the same disk inode; and a
  // block in use without a name has an inode in memory that will free it.
  lemma EveryRun(s0: State, run: seq<Action>, a: Action)
    requires Initial(s0) && Possible(s0, run) && Enabled(After(s0, run), a)
    ensures var s := After(s0, run);
      Asserted(s, a) <==> (a.LoadBegin? ==> a.ino in s.links) && (a.LoadDone? ==> Named(s, s.lock.ino))
    ensures var s := After(s0, run); forall id :: id in s.nodes ==>
      && s.nodes[id].reclaim == s.nodes[id].pending + (if s.nodes[id].ref > 0 then 1 else 0)
      && (s.nodes[id].stage == Dying ==> s.nodes[id].ref == 0 && s.nodes[id].open == 0 && s.nodes[id].pending == 0)
    ensures var s := After(s0, run);
      forall i, j :: i in s.nodes && j in s.nodes && s.nodes[i].stage == Linked && s.nodes[j].stage == Linked && s.nodes[i].ino == s.nodes[j].ino ==> i == j
    ensures forall ino :: Nameless(After(s0, run), ino) ==> Kept(After(s0, run), ino)
  {
    hide Kept, Asserted, Enabled;
    InitialOk(s0);
    RunOk(s0, run);
    var s := After(s0, run);
    StepAsserts(s, a);
    forall id | id in s.nodes
      ensures Counted(s.nodes[id])
      ensures (s.nodes[id].stage == Dying ==> s.nodes[id].ref == 0 && s.nodes[id].pending == 0) {
      assert NodeOk(s, id);
    }
  }

  // ------------------------------------------------------------ loads

  // What keeps an inode named.
  ghost predicate Spares(run: seq<Action>, ino: nat) {
    forall k :: 0 <= k < |run| ==> !(run[k].Lower? && run[k].ino == ino)
  }

  lemma {:induction false} NamedStays(s: State, run: seq<Action>, ino: nat)
    requires Inv(s) && Possible(s, run) && Spares(run, ino) && Named(s, ino)
    ensures Named(After(s, run), ino)
    decreases |run|
  {
    if run != [] {
      StepOk(s, run[0]);
      assert Named(Step(s, run[0]), ino) by { assert !(run[0].Lower? && run[0].ino == ino); }
      NamedStays(Step(s, run[0]), run[1..], ino);
    }
  }

  // An inode had a link when its load began to wait: unless one was removed
  // meanwhile, both assertions of the load hold.
  lemma LoadSafe(s: State, run: seq<Action>, ino: nat)
    requires Inv(s) && Possible(s, run) && Spares(run, ino) && Named(s, ino)
    ensures Asserted(After(s, run), LoadBegin(ino))
    ensures After(s, run).lock == Loading(ino) ==> forall id :: Asserted(After(s, run), LoadDone(id))
  {
    NamedStays(s, run, ino);
  }

  // The load is still under way after every step of the run.
  ghost predicate StillLoading(s: State, run: seq<Action>, ino: nat)
    requires Possible(s, run)
    decreases |run|
  {
    s.lock == Loading(ino) && (run == [] || StillLoading(Step(s, run[0]), run[1..], ino))
  }

  lemma {:induction false} LoadingKeeps(s: State, run: seq<Action>, ino: nat)
    requires Inv(s) && Possible(s, run) && StillLoading(s, run, ino)
    ensures After(s, run).lock == Loading(ino) && (Named(After(s, run), ino) <==> Named(s, ino))
    decreases |run|
  {
    if run != [] {
      StepOk(s, run[0]);
      assert Named(Step(s, run[0]), ino) <==> Named(s, ino);
      LoadingKeeps(Step(s, run[0]), run[1..], ino);
    }
  }

  // Whether a load passes is settled when it gets the lock: both assertions
  // hold, whatever runs while it reads, exactly if the inode has a name then.
  lemma LoadPasses(s: State, ino: nat, run: seq<Action>, id: Id)
    requires Inv(s) && Enabled(s, LoadBegin(ino)) && Asserted(s, LoadBegin(ino))
    requires var t := Step(s, LoadBegin(ino)); Possible(t, run) && StillLoading(t, run, ino)
    ensures Asserted(After(Step(s, LoadBegin(ino)), run), LoadDone(id)) <==> Named(s, ino)
  {
    StepOk(s, LoadBegin(ino));
    LoadingKeeps(Step(s, LoadBegin(ino)), run, ino);
  }

  // A block in use without a link that is not in the hash belongs to an inode
  // being created.
  lemma NamelessLoad(s: State, ino: nat)
    requires Inv(s) && Enabled(s, LoadBegin(ino)) && Asserted(s, LoadBegin(ino)) && !Named(s, ino)
    ensures exists id :: Has(s, id, New) && s.nodes[id].ino == ino
  {
    assert Nameless(s, ino) && Kept(s, ino);
    var id :| id in s.nodes && s.nodes[id].ino == ino && s.nodes[id].stage != Dying;
    assert Has(s, id, New);
  }

  // ------------------------------------------------------------ unreferenced inodes

  // One step in front of a run.
  lemma Prepend(s: State, a: Action, t: State, run: seq<Action>)
    requires Enabled(s, a) && Asserted(s, a) && Step(s, a) == t && Possible(t, run)
    ensures Possible(s, [a] + run) && After(s, [a] + run) == After(t, run)
  {
    hide Enabled, Asserted, Step;
    assert ([a] + run)[1..] == run;
  }

  // The disk holds one inode, 5, with one name.
  const Start := State(map[], Free, map[5 := 1])
  const Load := [LoadBegin(5), LoadDone(1)]
  const Loaded := Held(1)

  // The inode is in memory with one reference and `names` names; and its last
  // reference has gone and reclaim has the lock.
  function Held(names: nat): State { State(map[1 := Node(5, 1, 0, 1, 0, Linked, false)], Free, map[5 := names]) }

  function Leaving(names: nat): State {
    State(map[1 := Node(5, 0, 0, 0, 0, Linked, false)], Dropping(1), map[5 := names])
  }

  lemma DropFirst(names: nat, run: seq<Action>)
    requires Possible(Leaving(names), run)
    ensures Possible(Held(names), [Drop(1), ReclaimEnter(1)] + run)
    ensures After(Held(names), [Drop(1), ReclaimEnter(1)] + run) == After(Leaving(names), run)
  {
    var t := State(map[1 := Node(5, 0, 0, 1, 1, Linked, false)], Free, map[5 := names]);
    Prepend(t, ReclaimEnter(1), Leaving(names), run);
    Prepend(Held(names), Drop(1), t, [ReclaimEnter(1)] + run);
    assert [Drop(1), ReclaimEnter(1)] + run == [Drop(1)] + ([ReclaimEnter(1)] + run);
  }

  lemma LoadFirst(run: seq<Action>)
    requires Possible(Loaded, run)
    ensures Possible(Start, Load + run) && After(Start, Load + run) == After(Loaded, run)
  {
    var t := State(map[], Loading(5), map[5 := 1]);
    Prepend(t, LoadDone(1), Loaded, run);
    Prepend(Start, LoadBegin(5), t, [LoadDone(1)] + run);
    assert Load + run == [LoadBegin(5)] + ([LoadDone(1)] + run);
  }

  // Whether, of the run's aborted reclaims, lookups and births of the inode, the
  // last is an aborted reclaim; `before` says so of what came before the run.
  ghost function LastAborted(run: seq<Action>, id: Id, before: bool): bool
    decreases |run|
  {
    if run == [] then before
    else LastAborted(run[1..], id,
      if run[0] == ReclaimAbort(id) then true
      else if run[0] == LookupHit(id) || run[0] == LoadDone(id) || (run[0].Create? && run[0].id == id) then false
      else before)
  }

  lemma {:induction false} StaleIs(s: State, run: seq<Action>, id: Id, before: bool)
    requires Possible(s, run) && (id in s.nodes ==> s.nodes[id].stale == before)
    ensures id in After(s, run).nodes ==> After(s, run).nodes[id].stale == LastAborted(run, id, before)
    decreases |run|
  {
    if run != [] {
      var now := if run[0] == ReclaimAbort(id) then true
        else if run[0] == LookupHit(id) || run[0] == LoadDone(id) || (run[0].Create? && run[0].id == id) then false
        else before;
      StaleIs(Step(s, run[0]), run[1..], id, now);
    }
  }

  // With no reclaim call waiting or under way, an inode in the hash is without
  // references exactly if its last reclaim could not sync it and no lookup has
  // come since.
  lemma ForgottenIff(s0: State, run: seq<Action>, id: Id)
    requires Initial(s0) && Possible(s0, run)
    requires var s := After(s0, run); Has(s, id, Linked) && s.lock == Free && s.nodes[id].pending == 0
    ensures After(s0, run).nodes[id].ref == 0 <==> LastAborted(run, id, false)
  {
    InitialOk(s0);
    RunOk(s0, run);
    assert NodeOk(After(s0, run), id);
    StaleIs(s0, run, id, false);
  }

  // Such an inode stays in memory for good if nobody looks it up.
  lemma {:induction false} ForgottenStays(s: State, run: seq<Action>, id: Id)
    requires Inv(s) && Possible(s, run) && LookupHit(id) !in run
    requires Has(s, id, Linked) && s.nodes[id].ref == 0 && s.nodes[id].pending == 0 && s.lock != Dropping(id)
    ensures Has(After(s, run), id, Linked) && After(s, run).nodes[id] == s.nodes[id]
    decreases |run|
  {
    if run != [] {
      StepOk(s, run[0]);
      assert NodeOk(s, id);
      var t := Step(s, run[0]);
      assert run[0] != LookupHit(id);
      assert id in t.nodes && t.nodes[id] == s.nodes[id] && t.lock != Dropping(id);
      ForgottenStays(t, run[1..], id);
    }
  }

  // A run that ends there: the inode is loaded, dropped and not synced.
  const NotSynced := [Drop(1), ReclaimEnter(1), ReclaimAbort(1)]

  lemma ForgottenRun()
    ensures Initial(Start) && Possible(Start, Load + NotSynced)
    ensures After(Start, Load + NotSynced) == State(map[1 := Node(5, 0, 0, 0, 0, Linked, true)], Free, map[5 := 1])
  {
    var s := State(map[1 := Node(5, 0, 0, 0, 0, Linked, true)], Free, map[5 := 1]);
    Prepend(Leaving(1), ReclaimAbort(1), s, []);
    DropFirst(1, [ReclaimAbort(1)]);
    assert [Drop(1), ReclaimEnter(1)] + [ReclaimAbort(1)] == NotSynced;
    LoadFirst(NotSynced);
  }

  // ------------------------------------------------------------ pipes and revivals

  // The reference test in pipe_inode_reclaim never decides anything: a pipe
  // is reclaimed exactly as an SFS inode without names is.
  lemma PipeAsSfs(s: State, id: Id)
    requires Inv(s) && Enabled(s, PipeReclaim(id))
    ensures var t := Step(s, ReclaimEnter(id));
      Step(s, PipeReclaim(id)) == if t.lock == Dropping(id) then Step(t, ReclaimUnlink(id)) else t
  {
    assert NodeOk(s, id);
    var t := Step(s, ReclaimEnter(id));
    if t.lock == Dropping(id) {
      assert Step(t, ReclaimUnlink(id)).nodes == Step(s, PipeReclaim(id)).nodes;
    }
  }

  // A reclaim call that finds the inode revived does nothing but count itself
  // off, however the calls and lookups interleave.
  lemma RevivedSurvives(s: State, id: Id)
    requires Inv(s) && Enabled(s, ReclaimEnter(id)) && s.nodes[id].ref > 0
    ensures var s' := Step(s, ReclaimEnter(id));
      s'.lock == Free && Has(s', id, Linked) && s'.nodes[id].ref == s.nodes[id].ref
  {
    assert NodeOk(s, id);
  }
}
