/**
  Whole runs of the virtual memory core: any interleaving of mapping, faulting
  accesses, fork, unmapping and the swap daemon.
 */
module VmRun {
  import opened Bytes
  import opened Sequences
  import opened VmState
  import opened VmPrims
  import opened VmOps

  ghost predicate Runnable(s: State, ts: seq<Action>)
    requires Inv(s, {})
    decreases |ts|
  {
    ts == [] || (Enabled(s, ts[0]) && (StepOk(s, ts[0]); Runnable(Step(s, ts[0]), ts[1..])))
  }

  ghost function Run(s: State, ts: seq<Action>): State
    requires Inv(s, {}) && Runnable(s, ts)
    decreases |ts|
  {
    if ts == [] then s else (StepOk(s, ts[0]); Run(Step(s, ts[0]), ts[1..]))
  }

  // A run of a machine in which every address space has memory of its own.
  ghost predicate PrivateRun(m: map<Addr, Data>, ts: seq<Action>, m': map<Addr, Data>)
    decreases |ts|
  {
    if ts == [] then m' == m
    else exists m1 :: PrivateStep(m, ts[0], m1) && PrivateRun(m1, ts[1..], m')
  }

  // The state after swap_init: no entry, every frame free, every slot unused.
  ghost predicate Initial(s: State) {
    && s.pte == map[] && s.area == map[] && s.index == map[] && s.active == [] && s.inactive == []
    && s.data.Keys == s.ref.Keys && s.disk.Keys == s.memMap.Keys && s.free == s.ref.Keys
    && (forall f :: f in s.ref ==> s.ref[f] == 0)
    && (forall o :: o in s.memMap ==> s.memMap[o] == SWAP_UNUSED)
  }

  lemma InitialOk(s: State)
    requires Initial(s)
    ensures Inv(s, {}) && Memory(s) == map[]
  {
    assert forall f :: Refs(s.pte, f) == {};
    assert forall o :: Holders(s.pte, o) == {};
  }

  // Reference conservation and private memory, on every run.
  lemma {:induction false} RunOk(s: State, ts: seq<Action>)
    requires Inv(s, {}) && Runnable(s, ts)
    ensures Inv(Run(s, ts), {})
    ensures PrivateRun(Memory(s), ts, Memory(Run(s, ts)))
    decreases |ts|
  {
    hide Inv, Memory, Step, Enabled, PrivateStep;
    if ts != [] {
      StepOk(s, ts[0]);
      var s1 := Step(s, ts[0]);
      RunOk(s1, ts[1..]);
      assert PrivateStep(Memory(s), ts[0], Memory(s1)) && PrivateRun(Memory(s1), ts[1..], Memory(Run(s1, ts[1..])));
    }
  }

  // The assertion of swap_duplicate holds on every run: no slot is referred to
  // more often than there are address spaces.
  lemma SlotsCountable(s: State, ts: seq<Action>, o: Slot)
    requires Inv(s, {}) && Runnable(s, ts)
    ensures CanCount(Run(s, ts), o)
  {
    hide Inv;
    RunOk(s, ts);
    FewHolders(Run(s, ts), {}, o);
  }

  // The actions that may change what a page holds.
  predicate Targets(t: Action, a: Addr) {
    match t
    case UnmapPage(b) => b == a
    case Write(b, _, _, _, _) => b == a
    case CopyPage(_, to) => to == a
    case _ => false
  }

  // What a page holds survives everything that other pages, other address
  // spaces and the swap daemon do.
  lemma {:induction false} ReadsBack(s: State, ts: seq<Action>, a: Addr)
    requires Inv(s, {}) && Runnable(s, ts) && a in Memory(s)
    requires forall i :: 0 <= i < |ts| ==> !Targets(ts[i], a)
    ensures a in Memory(Run(s, ts)) && Memory(Run(s, ts))[a] == Memory(s)[a]
    decreases |ts|
  {
    hide Inv, Memory, Step, Enabled;
    if ts != [] {
      StepOk(s, ts[0]);
      assert !Targets(ts[0], a);
      var s1 := Step(s, ts[0]);
      assert a in Memory(s1) && Memory(s1)[a] == Memory(s)[a];
      ReadsBack(s1, ts[1..], a);
    }
  }

  // A successful write is read back after any run that leaves the page alone,
  // and with it the rest of the page as it was before.
  lemma WriteThenRead(s: State, a: Addr, off: nat, x: byte, newp: Frame, inp: Frame, ts: seq<Action>)
    requires Inv(s, {}) && Enabled(s, Write(a, off, x, Some(newp), Some(inp))) && s.area[a].write
    requires Inv(Step(s, Write(a, off, x, Some(newp), Some(inp))), {})
    requires Runnable(Step(s, Write(a, off, x, Some(newp), Some(inp))), ts)
    requires forall i :: 0 <= i < |ts| ==> !Targets(ts[i], a)
    ensures var s' := Run(Step(s, Write(a, off, x, Some(newp), Some(inp))), ts);
      && a in Memory(s') && Memory(s')[a][off] == x
      && (a in Memory(s) ==> Memory(s')[a] == Poke(Memory(s)[a], off, x))
  {
    hide Inv, Memory, Step, Enabled, FaultWrite;
    WriteOk(s, a, off, x, Some(newp), Some(inp));
    assert off < PGSIZE && newp in s.data by { WriteFacts(s, a, off, x, newp, inp); }
    ReadsBack(Step(s, Write(a, off, x, Some(newp), Some(inp))), ts, a);
  }

  lemma WriteFacts(s: State, a: Addr, off: nat, x: byte, newp: Frame, inp: Frame)
    requires Inv(s, {}) && Enabled(s, Write(a, off, x, Some(newp), Some(inp)))
    ensures off < PGSIZE && newp in s.data
  {
    hide Memory;
  }

  // After a fork neither side's writes show on the other.
  lemma ForkIsolates(s: State, a: Addr, to: Addr, ts: seq<Action>)
    requires Inv(s, {}) && Enabled(s, CopyPage(a, to)) && a in Memory(s)
    requires Inv(Step(s, CopyPage(a, to)), {}) && Runnable(Step(s, CopyPage(a, to)), ts)
    ensures var s' := Run(Step(s, CopyPage(a, to)), ts);
      && ((forall i :: 0 <= i < |ts| ==> !Targets(ts[i], to)) ==> to in Memory(s') && Memory(s')[to] == Memory(s)[a])
      && ((forall i :: 0 <= i < |ts| ==> !Targets(ts[i], a)) ==> a in Memory(s') && Memory(s')[a] == Memory(s)[a])
  {
    hide Inv, Memory, Step, Enabled, Run, Runnable;
    StepOk(s, CopyPage(a, to));
    var s1 := Step(s, CopyPage(a, to));
    if forall i :: 0 <= i < |ts| ==> !Targets(ts[i], to) { ReadsBack(s1, ts, to); }
    if forall i :: 0 <= i < |ts| ==> !Targets(ts[i], a) { ReadsBack(s1, ts, a); }
  }

  // ------------------------------------------------------------ uncleared frames

  // What a page held can be read by the next process that gets its frame:
  // a page written by one address space and unmapped, then the first load of
  // another address space that is given the same frame.
  lemma FreshPageLeaks(s: State, a: Addr, b: Addr, off: nat, x: byte, n: Frame, i: Frame)
    requires Inv(s, {}) && a != b && a in s.area && s.area[a].write && a !in s.pte && b in s.area && s.area[b].read
    requires b !in s.pte
    requires n in s.free && i in s.free && n != i && off < PGSIZE
    ensures var ts := [Write(a, off, x, Some(n), Some(i)), UnmapPage(a), Read(b, Some(n), Some(i))];
      && Runnable(s, ts)
      && b in Memory(Run(s, ts)) && Memory(Run(s, ts))[b] == Poke(Held(s, n), off, x) && Memory(Run(s, ts))[b][off] == x
  {
    hide Inv, Memory, Step, Enabled, Refs;
    var w, u, r := Write(a, off, x, Some(n), Some(i)), UnmapPage(a), Read(b, Some(n), Some(i));
    LeakWrite(s, a, b, off, x, n, i);
    StepOk(s, w);
    var s1 := Step(s, w);
    LeakUnmap(s1, a, b, n, i);
    StepOk(s1, u);
    var s2 := Step(s1, u);
    ReadOk(s2, b, Some(n), Some(i));
    StepOk(s2, r);
    assert [w, u, r][1..] == [u, r] && [u, r][1..] == [r] && [r][1..] == [];
    assert Runnable(Step(s2, r), []);
    assert Runnable(s2, [r]) && Run(s2, [r]) == Run(Step(s2, r), []);
    assert Runnable(s1, [u, r]) && Run(s1, [u, r]) == Run(s2, [r]);
  }

  // What a frame holds, whoever used it last.
  ghost function Held(s: State, n: Frame): Data
    requires Inv(s, {}) && n in s.free
  {
    FreeIn(s, n);
    s.data[n]
  }

  // After the write the page is the frame's only user.
  lemma LeakWrite(s: State, a: Addr, b: Addr, off: nat, x: byte, n: Frame, i: Frame)
    requires Inv(s, {}) && a != b && a in s.area && s.area[a].write && a !in s.pte && b in s.area && b !in s.pte
    requires n in s.free && i in s.free && n != i && off < PGSIZE
    ensures Enabled(s, Write(a, off, x, Some(n), Some(i)))
    ensures var s1 := Step(s, Write(a, off, x, Some(n), Some(i)));
      && a in s1.pte && s1.pte[a] == Present(n, true, true, true) && b !in s1.pte && s1.area == s.area && i in s1.free
      && n !in s1.free && n !in s1.index
      && n in s.data && s1.data == s.data[n := Poke(s.data[n], off, x)] && Refs(s1.pte, n) == {a}
  {
    hide Inv, Memory, InsertNew, WellFormed, Poke, Sole, Refs;
    FreeIn(s, n);
    assert FreeFrame(s, Some(n)) && FreeFrame(s, Some(i));
    InsertNewOk(s, a, n, s.data[n], true);
    InsertFirst(s, a, n, s.data[n], true);
    UnusedIn(s, n);
    var s1 := Step(s, Write(a, off, x, Some(n), Some(i)));
    LeakRefs(s, a, n, s1.pte);
  }

  lemma LeakRefs(s: State, a: Addr, n: Frame, pte: map<Addr, Pte>)
    requires Inv(s, {}) && a !in s.pte && n in s.free && a in pte && pte == s.pte[a := pte[a]] && pte[a].Present?
    requires pte[a].f == n
    ensures Refs(pte, n) == {a}
  {
    hide SlotsOk, CacheOk, ListsOk, ExclusiveOk, CleanOk, AreaOk;
    UnusedFrame(s, {}, n);
    forall b | b in s.pte && s.pte[b].Present? ensures s.pte[b].f != n { assert b !in Refs(s.pte, n); }
  }

  lemma LeakUnmap(s1: State, a: Addr, b: Addr, n: Frame, i: Frame)
    requires Inv(s1, {}) && a in s1.pte && s1.pte[a] == Present(n, true, true, true) && a != b && b !in s1.pte
    requires b in s1.area
    requires i in s1.free && n !in s1.index && Refs(s1.pte, n) == {a} && n != i
    ensures Enabled(s1, UnmapPage(a))
    ensures var s2 := Step(s1, UnmapPage(a));
      s2.data == s1.data && n in s2.free && i in s2.free && b !in s2.pte && s2.area == s1.area
          && Enabled(s2, Read(b, Some(n), Some(i)))
  {
    hide Memory, SlotsOk, CacheOk, ListsOk, ExclusiveOk, CleanOk, AreaOk;
    RemovePteOk(s1, {}, a);
  }

  // The same from start-up, for any two frames: process 1 and process 2 map a
  // page each, and process 2, which never wrote, reads what process 1 wrote.
  lemma LeakAtStart(s: State, n: Frame, i: Frame, off: nat, x: byte)
    requires Initial(s) && n in s.ref && i in s.ref && n != i && off < PGSIZE
    ensures var a, b := Addr(1, 0), Addr(2, 0);
      var ts := [MapArea(a, Perm(true, true)), MapArea(b, Perm(true, false)),
                 Write(a, off, x, Some(n), Some(i)), UnmapPage(a), Read(b, Some(n), Some(i))];
      Inv(s, {}) && Runnable(s, ts) && b in Memory(Run(s, ts)) && Memory(Run(s, ts))[b][off] == x
  {
    InitialOk(s);
    var a, b := Addr(1, 0), Addr(2, 0);
    var m1, m2 := MapArea(a, Perm(true, true)), MapArea(b, Perm(true, false));
    var s1 := s.(area := s.area[a := Perm(true, true)]);
    var s2 := s1.(area := s1.area[b := Perm(true, false)]);
    hide Inv, Memory, Initial;
    assert s1 == Step(s, m1) && Enabled(s, m1) by { InitialArea(s); }
    StepOk(s, m1);
    assert s2 == Step(s1, m2) && Enabled(s1, m2) by { InitialArea(s); }
    StepOk(s1, m2);
    InitialArea(s);
    FreshPageLeaks(s2, a, b, off, x, n, i);
    var rest := [Write(a, off, x, Some(n), Some(i)), UnmapPage(a), Read(b, Some(n), Some(i))];
    hide Step, Enabled;
    Before(s1, m2, rest);
    Before(s, m1, [m2] + rest);
    assert [m1] + ([m2] + rest) == [m1, m2, Write(a, off, x, Some(n), Some(i)), UnmapPage(a), Read(b, Some(n), Some(i))];
  }

  lemma InitialArea(s: State)
    requires Initial(s)
    ensures s.area == map[] && s.pte == map[] && s.free == s.ref.Keys
  {
  }

  lemma Before(s: State, t: Action, ts: seq<Action>)
    requires Inv(s, {}) && Enabled(s, t) && Inv(Step(s, t), {}) && Runnable(Step(s, t), ts)
    ensures Runnable(s, [t] + ts) && Run(s, [t] + ts) == Run(Step(s, t), ts)
  {
    hide Inv, Enabled, Step;
    assert ([t] + ts)[1..] == ts;
  }
}
