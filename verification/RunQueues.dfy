/**
  The scheduler: four round-robin queues, the first for processes that have
  not used up a slice, each later one for those that used up theirs in the
  queue before.
 */
module RunQueues {
  import opened Sequences

  type Id = nat

  const LEVELS := 4
  const IDLE: Id := 0

  datatype Status = Uninit | Runnable | Sleeping | Zombie

  // rq->max_time_slice: 8 for the first queue, doubled for each later one.
  function MaxSlice(level: nat): nat
    requires level < LEVELS
  {
    if level == 0 then 8 else if level == 1 then 16 else if level == 2 then 32 else 64
  }

  // A process; `level` is LEVELS while it has never been in a queue.
  datatype Proc = Proc(status: Status, slice: nat, level: nat, resched: bool)

  // The processes that wait for the processor.
  predicate Ready(procs: map<Id, Proc>, current: Id, p: Id) {
    p in procs && procs[p].status == Runnable && p != current && p != IDLE
  }

  // Each waiting process is in exactly one queue, the one of its level, with a
  // slice of 1 up to the maximum there, and nothing else is in a queue.
  ghost predicate Queued(procs: map<Id, Proc>, current: Id, queues: seq<seq<Id>>) {
    && |queues| == LEVELS
    && (forall l :: 0 <= l < LEVELS ==> NoDup(queues[l]))
    && (forall l, p :: 0 <= l < LEVELS && p in queues[l] ==> Ready(procs, current, p) && procs[p].level == l)
    && (forall p :: Ready(procs, current, p) ==>
        procs[p].level < LEVELS && p in queues[procs[p].level] && 1 <= procs[p].slice <= MaxSlice(procs[p].level))
  }

  // The first queue that is not empty, LEVELS if all are.
  function FirstBusy(queues: seq<seq<Id>>, l: nat): (r: nat)
    requires |queues| == LEVELS && l <= LEVELS
    ensures l <= r <= LEVELS && (r < LEVELS ==> queues[r] != []) && forall k :: l <= k < r ==> queues[k] == []
    decreases LEVELS - l
  {
    if l == LEVELS then l else if queues[l] != [] then l else FirstBusy(queues, l + 1)
  }

  // Where MLFQ_enqueue puts a process: one queue down after a full slice (the
  // last one stays), the first queue otherwise.
  function TargetLevel(p: Proc): (l: nat)
    ensures l < LEVELS
  {
    if p.level < LEVELS && p.slice == 0 then (if p.level + 1 == LEVELS then p.level else p.level + 1) else 0
  }

  // The process as it enters a queue (RR_enqueue).
  function Entering(p: Proc, l: nat): Proc
    requires l < LEVELS
  {
    p.(slice := if p.slice == 0 || p.slice > MaxSlice(l) then MaxSlice(l) else p.slice, level := l)
  }

  lemma OnceAppend(q: seq<Id>, p: Id)
    requires NoDup(q) && p !in q
    ensures NoDup(q + [p])
  {
    forall i, j | 0 <= i < j < |q + [p]| ensures (q + [p])[i] != (q + [p])[j] { assert q[i] in q; }
  }

  class Scheduler {
    var procs: map<Id, Proc>
    var queues: seq<seq<Id>>
    var procNum: seq<nat>
    var current: Id

    ghost predicate Valid()
      reads this
    {
      && IDLE in procs && procs[IDLE].status == Runnable && current in procs
      && Queued(procs, current, queues)
      && |procNum| == LEVELS && forall l :: 0 <= l < LEVELS ==> procNum[l] == |queues[l]|
    }

    // sched_init with the idle process running.
    constructor ()
      ensures Valid() && current == IDLE && procs == map[IDLE := Proc(Runnable, 0, LEVELS, true)]
    {
      procs := map[IDLE := Proc(Runnable, 0, LEVELS, true)];
      queues, procNum, current := [[], [], [], []], [0, 0, 0, 0], IDLE;
    }

    // sched_class_enqueue of a process that has just become ready.
    method Enqueue(p: Id)
      requires |queues| == LEVELS == |procNum| && p in procs
      modifies this`queues, this`procNum, this`procs
      ensures p == IDLE ==> queues == old(queues) && procNum == old(procNum) && procs == old(procs)
      ensures p != IDLE ==> var l := TargetLevel(old(procs)[p]);
        && procs == old(procs)[p := Entering(old(procs)[p], l)]
        && queues == old(queues)[l := old(queues)[l] + [p]] && procNum == old(procNum)[l := old(procNum)[l] + 1]
    {
      if p == IDLE { return; }
      var nrq := 0;
      if procs[p].level < LEVELS && procs[p].slice == 0 {
        nrq := (procs[p].level + 1) % LEVELS;
        if nrq == 0 { nrq := procs[p].level; }
      }
      queues := queues[nrq := queues[nrq] + [p]];
      var slice := procs[p].slice;
      if slice == 0 || slice > MaxSlice(nrq) { slice := MaxSlice(nrq); }
      procs := procs[p := procs[p].(slice := slice, level := nrq)];
      procNum := procNum[nrq := procNum[nrq] + 1];
    }

    // MLFQ_pick_next.
    method PickNext() returns (found: bool, next: Id, level: nat)
      requires |queues| == LEVELS
      ensures level == FirstBusy(queues, 0) && found == (level < LEVELS)
      ensures found ==> next == queues[level][0]
    {
      level := 0;
      while level < LEVELS && queues[level] == []
        invariant level <= LEVELS && FirstBusy(queues, 0) == FirstBusy(queues, level)
      {
        level := level + 1;
      }
      found := level < LEVELS;
      next := if found then queues[level][0] else IDLE;
    }

    method Wakeup(p: Id)
      requires Valid() && p in procs && procs[p].status != Zombie
      modifies this`queues, this`procNum, this`procs
      ensures Valid() && p in procs && procs[p].status == Runnable
      ensures old(procs)[p].status == Runnable ==> procs == old(procs) && queues == old(queues)
      ensures old(procs)[p].status != Runnable && (p == current || p == IDLE) ==>
        procs == old(procs)[p := old(procs)[p].(status := Runnable)] && queues == old(queues)
      ensures old(procs)[p].status != Runnable && p != current && p != IDLE ==> var l := TargetLevel(old(procs)[p]);
        procs == old(procs)[p := Entering(old(procs)[p], l).(status := Runnable)]
            && queues == old(queues)[l := old(queues)[l] + [p]]
    {
      hide Queued, NoDup;
      if procs[p].status != Runnable {
        WokenOk(procs, current, queues, p);
        procs := procs[p := procs[p].(status := Runnable)];
        if p != current {
          Enqueue(p);
          assert p != IDLE ==> procs == old(procs)[p := Entering(old(procs)[p], TargetLevel(old(procs)[p])).(status := Runnable)];
        }
      }
    }

    method Schedule() returns (next: Id)
      requires Valid()
      modifies this
      ensures Valid() && current == next && next in procs
      ensures next == IDLE || procs[next].status == Runnable
      // The head of the first queue that is not empty once the old process is back.
      ensures var l := FirstBusy(Requeued(old(procs), old(current), old(queues)), 0);
        next == if l < LEVELS then Requeued(old(procs), old(current), old(queues))[l][0] else IDLE
      ensures procs == Back(old(procs), old(current))
      ensures var l := FirstBusy(Requeued(old(procs), old(current), old(queues)), 0);
        queues == if l < LEVELS then Dequeued(Requeued(old(procs), old(current), old(queues)), l)
            else Requeued(old(procs), old(current), old(queues))
    {
      hide Queued, NoDup, Back, Requeued;
      QueueCount(procs, current, queues);
      BackOk(procs, current, queues);
      BackStatus(procs, current);
      PutBack();
      var found, level;
      found, next, level := PickNext();
      if found {
        PickOk(procs, queues, level);
        queues := queues[level := queues[level][1..]];
        procNum := procNum[level := procNum[level] - 1];
      } else {
        next := IDLE;
      }
      current := next;
    }

    // The running process, if it can go on, returns to a queue.
    method PutBack()
      requires |queues| == LEVELS == |procNum| && current in procs
      requires forall l :: 0 <= l < LEVELS ==> procNum[l] == |queues[l]|
      modifies this`queues, this`procNum, this`procs
      ensures procs == Back(old(procs), current) && queues == Requeued(old(procs), current, old(queues))
      ensures |queues| == LEVELS == |procNum| && forall l :: 0 <= l < LEVELS ==> procNum[l] == |queues[l]|
    {
      procs := procs[current := procs[current].(resched := false)];
      if procs[current].status == Runnable {
        Enqueue(current);
      }
    }

    // run_timer_list's last step: the running process uses up its slice.
    method Tick()
      requires Valid()
      modifies this`procs
      ensures Valid() && procs == old(procs)[current := Ticked(old(procs)[current], current)]
    {
      hide NoDup;
      procs := procs[current := Ticked(procs[current], current)];
    }

    // The running process goes to sleep, or ends, before it calls schedule.
    method Leave(status: Status)
      requires Valid() && current != IDLE && status in {Sleeping, Zombie}
      modifies this`procs
      ensures Valid() && procs == old(procs)[current := old(procs)[current].(status := status)]
    {
      hide NoDup;
      procs := procs[current := procs[current].(status := status)];
    }

    // A new process, before it is woken for the first time.
    method Spawn(p: Id)
      requires Valid() && p !in procs
      modifies this`procs
      ensures Valid() && procs == old(procs)[p := Proc(Uninit, 0, LEVELS, false)]
    {
      hide NoDup;
      procs := procs[p := Proc(Uninit, 0, LEVELS, false)];
    }
  }

  function Ticked(p: Proc, id: Id): Proc {
    if id == IDLE then p.(resched := true)
    else var slice := if p.slice > 0 then p.slice - 1 else 0; p.(slice := slice, resched := p.resched || slice == 0)
  }

  // The queues once the running process, if it can go on, is back in its queue.
  function Requeued(procs: map<Id, Proc>, current: Id, queues: seq<seq<Id>>): seq<seq<Id>>
    requires |queues| == LEVELS && current in procs
  {
    if procs[current].status == Runnable && current != IDLE then
      var l := TargetLevel(procs[current]); queues[l := queues[l] + [current]]
    else queues
  }

  // A process that is made ready takes its place in a queue.
  lemma WokenOk(procs: map<Id, Proc>, current: Id, queues: seq<seq<Id>>, p: Id)
    requires Queued(procs, current, queues) && p in procs && procs[p].status != Runnable
    ensures p == current || p == IDLE ==> Queued(procs[p := procs[p].(status := Runnable)], current, queues)
    ensures p != current && p != IDLE ==> var l := TargetLevel(procs[p]);
      Queued(procs[p := Entering(procs[p], l).(status := Runnable)], current, queues[l := queues[l] + [p]])
    ensures |queues| == LEVELS
  {
    hide NoDup;
    if p != current && p != IDLE { JoinOk(procs, current, queues, p); }
  }

  lemma JoinOk(procs: map<Id, Proc>, current: Id, queues: seq<seq<Id>>, p: Id)
    requires Queued(procs, current, queues) && p in procs && procs[p].status != Runnable && p != current && p != IDLE
    ensures var l := TargetLevel(procs[p]);
      Queued(procs[p := Entering(procs[p], l).(status := Runnable)], current, queues[l := queues[l] + [p]])
  {
    hide NoDup;
    var l := TargetLevel(procs[p]);
    var procs', queues' := procs[p := Entering(procs[p], l).(status := Runnable)], queues[l := queues[l] + [p]];
    forall m: nat, q | m < LEVELS && q in queues[m]
      ensures Ready(procs', current, q) && procs'[q].level == m && q != p {
      Member(procs, current, queues, m, q);
    }
    OnceAppend(queues[l], p);
    assert p in queues'[l];
    forall q | Ready(procs', current, q)
      ensures procs'[q].level < LEVELS && q in queues'[procs'[q].level]
      ensures 1 <= procs'[q].slice <= MaxSlice(procs'[q].level)
    {
      if q != p { assert Ready(procs, current, q); }
    }
  }

  lemma QueueCount(procs: map<Id, Proc>, current: Id, queues: seq<seq<Id>>)
    requires Queued(procs, current, queues)
    ensures |queues| == LEVELS
  {
  }

  // The queues without the head of queue `l`.
  function Dequeued(queues: seq<seq<Id>>, l: nat): seq<seq<Id>>
    requires l < |queues| && queues[l] != []
  {
    queues[l := queues[l][1..]]
  }

  // The processes after the running one was put back.
  function Back(procs: map<Id, Proc>, current: Id): map<Id, Proc>
    requires current in procs
  {
    var p := procs[current].(resched := false);
    if p.status == Runnable && current != IDLE then procs[current := Entering(p, TargetLevel(p))] else procs[current := p]
  }

  lemma Member(procs: map<Id, Proc>, current: Id, queues: seq<seq<Id>>, l: nat, p: Id)
    requires Queued(procs, current, queues) && l < LEVELS && p in queues[l]
    ensures Ready(procs, current, p) && procs[p].level == l
  {
  }

  lemma BackStatus(procs: map<Id, Proc>, current: Id)
    requires current in procs
    ensures Back(procs, current).Keys == procs.Keys
    ensures forall p :: p in procs ==> Back(procs, current)[p].status == procs[p].status
  {
  }

  // With the running process back, everything ready is in a queue.
  lemma BackOk(procs: map<Id, Proc>, current: Id, queues: seq<seq<Id>>)
    requires Queued(procs, current, queues) && current in procs
    ensures Queued(Back(procs, current), IDLE, Requeued(procs, current, queues))
  {
    hide NoDup;
    var procs', queues' := Back(procs, current), Requeued(procs, current, queues);
    forall l: nat, p | l < LEVELS && p in queues[l]
      ensures Ready(procs', IDLE, p) && procs'[p].level == l && p != current {
      Member(procs, current, queues, l, p);
    }
    var l := TargetLevel(procs[current]);
    if procs[current].status == Runnable && current != IDLE {
      OnceAppend(queues[l], current);
      assert current in queues'[l];
    }
    forall p | Ready(procs', IDLE, p)
      ensures procs'[p].level < LEVELS && p in queues'[procs'[p].level]
      ensures 1 <= procs'[p].slice <= MaxSlice(procs'[p].level)
    {
      if p != current { assert Ready(procs, current, p); }
    }
  }

  // The head of a queue becomes the running process.
  lemma PickOk(procs: map<Id, Proc>, queues: seq<seq<Id>>, m: nat)
    requires Queued(procs, IDLE, queues) && m < LEVELS && queues[m] != []
    ensures queues[m][0] in procs && procs[queues[m][0]].status == Runnable
    ensures Queued(procs, queues[m][0], queues[m := queues[m][1..]])
  {
    hide NoDup;
    var next, queues' := queues[m][0], queues[m := queues[m][1..]];
    Member(procs, IDLE, queues, m, next);
    OnceHead(queues[m]);
    forall l: nat, p | l < LEVELS && p in queues'[l] ensures Ready(procs, next, p) && procs[p].level == l {
      Member(procs, IDLE, queues, l, p);
    }
    forall p | Ready(procs, next, p) ensures p in queues'[procs[p].level] {
      assert Ready(procs, IDLE, p);
      OnceTail(queues[m], p);
    }
  }

  lemma OnceHead(q: seq<Id>)
    requires NoDup(q) && q != []
    ensures NoDup(q[1..]) && q[0] !in q[1..]
  {
  }

  lemma OnceTail(q: seq<Id>, p: Id)
    requires q != []
    ensures p in q && p != q[0] ==> p in q[1..]
  {
  }
}
