/**
  Process ids: the fast path of get_pid hands out the next number without a
  look at the process list, because none in use lies below `nextSafe`.
 */
module Pids {
  import opened Sequences

  const MAX_PROCESS := 4096
  const MAX_PID := 2 * MAX_PROCESS

  // Steps from `l` to `f` around the circle 1 .. MAX_PID - 1.
  function Distance(l: nat, f: nat): nat
    requires 1 <= l < MAX_PID && 1 <= f < MAX_PID
  {
    if l <= f then f - l else f + (MAX_PID - 1) - l
  }

  ghost predicate InRange(procs: seq<nat>) {
    forall i :: 0 <= i < |procs| ==> 1 <= procs[i] < MAX_PID
  }

  // With fewer processes than ids some id is free.
  lemma {:induction false} FreeId(procs: seq<nat>, n: nat) returns (f: nat)
    requires |procs| < n
    ensures 1 <= f <= n && f !in procs
    decreases n
  {
    if n !in procs { return n; }
    var i :| 0 <= i < |procs| && procs[i] == n;
    var rest := procs[..i] + procs[i + 1..];
    f := FreeIdBelow(procs, rest, i, n);
  }

  lemma {:induction false} FreeIdBelow(procs: seq<nat>, rest: seq<nat>, i: nat, n: nat) returns (f: nat)
    requires i < |procs| < n && procs[i] == n && rest == procs[..i] + procs[i + 1..]
    ensures 1 <= f <= n && f !in procs
    decreases n, 0
  {
    f := FreeId(rest, n - 1);
    forall j: nat | j < |procs| ensures procs[j] != f {
      if j != i { assert procs[j] == rest[if j < i then j else j - 1]; }
    }
  }

  class Table {
    var lastPid: nat
    var nextSafe: nat
    var procs: seq<nat>        // the ids in the process list

    // No id in use lies strictly between `lastPid` and `nextSafe`.
    ghost predicate Valid()
      reads this
    {
      && InRange(procs) && NoDup(procs) && 1 <= lastPid <= MAX_PID && nextSafe <= MAX_PID
      && forall i :: 0 <= i < |procs| ==> !(lastPid < procs[i] < nextSafe)
    }

    constructor ()
      ensures Valid() && procs == []
    {
      lastPid, nextSafe, procs := MAX_PID, MAX_PID, [];
    }

    method GetPid() returns (pid: nat)
      requires Valid() && |procs| < MAX_PID - 1
      modifies this`lastPid, this`nextSafe
      ensures Valid() && pid == lastPid && 1 <= pid < MAX_PID && pid !in procs
    {
      lastPid := lastPid + 1;
      if lastPid >= MAX_PID {
        lastPid := 1;
        Scan();
      } else if lastPid >= nextSafe {
        Scan();
      }
      pid := lastPid;
    }

    // From label `inside`: restarts whenever the bound found so far is reached.
    method Scan()
      requires InRange(procs) && NoDup(procs) && |procs| < MAX_PID - 1 && 1 <= lastPid < MAX_PID
      modifies this`lastPid, this`nextSafe
      ensures Valid() && lastPid < MAX_PID && lastPid !in procs
    {
      ghost var free := FreeId(procs, MAX_PID - 1);
      nextSafe := MAX_PID;
      var i := 0;
      while i < |procs|
        invariant i <= |procs| && 1 <= lastPid < nextSafe <= MAX_PID
        invariant forall j :: 0 <= j < i ==> procs[j] < lastPid || procs[j] >= nextSafe
        decreases Distance(lastPid, free), |procs| - i
      {
        if procs[i] == lastPid {
          lastPid := lastPid + 1;
          if lastPid >= nextSafe {
            if lastPid >= MAX_PID {
              lastPid := 1;
            }
            nextSafe := MAX_PID;
            i := 0;
            continue;
          }
        } else if procs[i] > lastPid && nextSafe > procs[i] {
          nextSafe := procs[i];
        }
        i := i + 1;
      }
    }

    // do_fork, up to the process list.
    method Fork() returns (pid: nat)
      requires Valid() && |procs| < MAX_PID - 1
      modifies this
      ensures Valid() && pid !in old(procs) && 1 <= pid < MAX_PID && procs == [pid] + old(procs)
    {
      pid := GetPid();
      ghost var before := procs;
      procs := [pid] + procs;
      assert forall i :: 0 < i < |procs| ==> procs[i] == before[i - 1];
    }

    // The process at position `i` of the list is reaped.
    method Reap(i: nat)
      requires Valid() && i < |procs|
      modifies this`procs
      ensures Valid() && procs == old(procs)[..i] + old(procs)[i + 1..]
    {
      ghost var before := procs;
      procs := procs[..i] + procs[i + 1..];
      assert forall j :: 0 <= j < |procs| ==> procs[j] == before[if j < i then j else j + 1];
    }
  }

  // ------------------------------------------------------------ whole runs

  // Any run of forks and reaps over a table: what matters of the ids handed out
  // is that each was free when it was handed out.
  datatype Event = Forked(pid: nat) | Reaped(pid: nat)

  ghost predicate Fresh(live: set<nat>, run: seq<Event>)
    decreases |run|
  {
    run == [] || match run[0]
    case Forked(pid) => pid !in live && 1 <= pid < MAX_PID && Fresh(live + {pid}, run[1..])
    case Reaped(pid) => Fresh(live - {pid}, run[1..])
  }

  // Drives a table through choices of fork and reap (at a position) and shows
  // that every id handed out was unused.
  method Drive(choices: seq<nat>) returns (run: seq<Event>)
    ensures Fresh({}, run) && |run| <= |choices|
  {
    var t := new Table();
    run := [];
    var i := 0;
    while i < |choices|
      invariant i <= |choices| && |run| <= i && fresh(t) && t.Valid() && Fresh({}, run)
      invariant forall p :: p in t.procs <==> p in Live({}, run)
    {
      ghost var before := t.procs;
      if choices[i] == 0 || choices[i] > |t.procs| {
        if |t.procs| < MAX_PROCESS {
          var pid := t.Fork();
          FreshMore({}, run, Forked(pid));
          run := run + [Forked(pid)];
        }
      } else {
        var pid := t.procs[choices[i] - 1];
        t.Reap(choices[i] - 1);
        FreshMore({}, run, Reaped(pid));
        run := run + [Reaped(pid)];
        assert before == before[..choices[i] - 1] + [pid] + before[choices[i]..];
      }
      i := i + 1;
    }
  }

  ghost function Live(live: set<nat>, run: seq<Event>): set<nat>
    decreases |run|
  {
    if run == [] then live
    else Live(match run[0] case Forked(pid) => live + {pid} case Reaped(pid) => live - {pid}, run[1..])
  }

  lemma {:induction false} FreshMore(live: set<nat>, run: seq<Event>, e: Event)
    requires Fresh(live, run) && (e.Forked? ==> e.pid !in Live(live, run) && 1 <= e.pid < MAX_PID)
    ensures Fresh(live, run + [e])
    ensures Live(live, run + [e]) == match e case Forked(pid) => Live(live, run) + {pid} case Reaped(pid) => Live(live, run) - {pid}
    decreases |run|
  {
    if run != [] {
      assert (run + [e])[1..] == run[1..] + [e];
      FreshMore(match run[0] case Forked(pid) => live + {pid} case Reaped(pid) => live - {pid}, run[1..], e);
    }
  }
}
