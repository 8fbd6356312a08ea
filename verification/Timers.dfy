/**
  The timer list: each timer holds the ticks left after the one before it.
 */
module Timers {

  type Id = nat

  const WORD := 0x1_0000_0000

  datatype Timer = Timer(id: Id, delta: nat)

  function Sum(list: seq<Timer>): nat { if list == [] then 0 else list[0].delta + Sum(list[1..]) }

  // The ticks left for every timer, counted from `base`.
  function Due(list: seq<Timer>, base: nat): map<Id, nat> {
    if list == [] then map[]
    else Due(list[1..], base + list[0].delta)[list[0].id := base + list[0].delta]
  }

  function Ids(list: seq<Timer>): set<Id> { set i | 0 <= i < |list| :: list[i].id }

  ghost predicate Distinct(list: seq<Timer>) {
    forall i, j :: 0 <= i < j < |list| ==> list[i].id != list[j].id
  }

  // ------------------------------------------------------------ lists and maps

  lemma {:induction false} DueKeys(list: seq<Timer>, base: nat)
    ensures Due(list, base).Keys == Ids(list)
    ensures forall id :: id in Due(list, base) ==> base <= Due(list, base)[id] <= base + Sum(list)
  {
    if list != [] {
      DueKeys(list[1..], base + list[0].delta);
      assert Ids(list) == {list[0].id} + Ids(list[1..]) by {
        forall id ensures id in Ids(list) <==> id in {list[0].id} + Ids(list[1..]) {
          if id in Ids(list) {
            var i :| 0 <= i < |list| && list[i].id == id;
            if i > 0 { assert list[1..][i - 1].id == id; }
          }
          if id in Ids(list[1..]) {
            var i :| 0 <= i < |list[1..]| && list[1..][i].id == id;
            assert list[i + 1].id == id;
          }
        }
      }
    }
  }

  lemma TailDistinct(a: seq<Timer>, b: seq<Timer>)
    requires a != [] && Distinct(a + b)
    ensures Distinct(a[1..] + b) && a[0].id !in Ids(b)
  {
    var s, r := a + b, a[1..] + b;
    forall i: nat | i < |r| ensures r[i] == s[i + 1] {}
    assert s[0] == a[0];
    forall i: nat | i < |b| ensures b[i].id != a[0].id { assert s[|a| + i] == b[i] && s[0].id != s[|a| + i].id; }
  }

  lemma {:induction false} DueCat(a: seq<Timer>, b: seq<Timer>, base: nat)
    requires Distinct(a + b)
    ensures Due(a + b, base) == Due(a, base) + Due(b, base + Sum(a))
    ensures Sum(a + b) == Sum(a) + Sum(b)
  {
    hide Ids, Distinct;
    if a == [] {
      assert a + b == b;
    } else {
      TailDistinct(a, b);
      assert (a + b)[1..] == a[1..] + b;
      DueCat(a[1..], b, base + a[0].delta);
      DueKeys(b, base + Sum(a));
    }
  }

  // Counting from one tick earlier.
  lemma {:induction false} DueShift(list: seq<Timer>, base: nat)
    ensures Due(list, base + 1).Keys == Due(list, base).Keys
    ensures forall id :: id in Due(list, base) ==> Due(list, base + 1)[id] == Due(list, base)[id] + 1
  {
    if list != [] { DueShift(list[1..], base + list[0].delta); }
  }

  // ------------------------------------------------------------ one timer in

  // The list behind a new timer that is `rem` ticks after the list in front:
  // its first timer now counts from the new one.
  function Behind(b: seq<Timer>, rem: nat): seq<Timer>
    requires b != [] ==> rem <= b[0].delta
  {
    if b == [] then [] else [b[0].(delta := b[0].delta - rem)] + b[1..]
  }

  lemma InsertDistinct(a: seq<Timer>, id: Id, rem: nat, b: seq<Timer>)
    requires Distinct(a + b) && id !in Ids(a + b) && (b != [] ==> rem <= b[0].delta)
    ensures Distinct(a + [Timer(id, rem)] + Behind(b, rem))
  {
    var s, t := a + b, a + [Timer(id, rem)] + Behind(b, rem);
    forall i: nat | i < |t| && i != |a| ensures t[i].id == s[if i < |a| then i else i - 1].id && t[i].id != id {
      assert s[if i < |a| then i else i - 1].id in Ids(s);
    }
  }

  lemma InsertFront(id: Id, rem: nat, b: seq<Timer>, base: nat)
    requires b != [] ==> rem <= b[0].delta
    ensures Due([Timer(id, rem)] + Behind(b, rem), base) == Due(b, base)[id := base + rem]
  {
    var c := Behind(b, rem);
    assert ([Timer(id, rem)] + c)[1..] == c;
    if b != [] { assert c[1..] == b[1..]; }
    assert Due(c, base + rem) == Due(b, base);
  }

  lemma InsertDue(a: seq<Timer>, id: Id, rem: nat, b: seq<Timer>)
    requires Distinct(a + b) && id !in Ids(a + b) && (b != [] ==> rem <= b[0].delta)
    ensures Due(a + [Timer(id, rem)] + Behind(b, rem), 0) == Due(a + b, 0)[id := Sum(a) + rem]
  {
    hide Due, Sum, Ids, Distinct;
    var c := [Timer(id, rem)] + Behind(b, rem);
    InsertDistinct(a, id, rem, b);
    assert a + [Timer(id, rem)] + Behind(b, rem) == a + c;
    DueCat(a, b, 0);
    DueCat(a, c, 0);
    InsertFront(id, rem, b, Sum(a));
  }

  // ------------------------------------------------------------ one timer out

  // The list without its first timer: the next one counts for both.
  function Merge(t: Timer, b: seq<Timer>): seq<Timer> {
    if b == [] then [] else [b[0].(delta := b[0].delta + t.delta)] + b[1..]
  }

  lemma RemoveFront(t: Timer, b: seq<Timer>, base: nat)
    requires t.id !in Ids(b)
    ensures Due(Merge(t, b), base) == Due([t] + b, base) - {t.id}
  {
    var c := Merge(t, b);
    assert ([t] + b)[1..] == b;
    if b != [] { assert c[1..] == b[1..]; }
    assert Due(c, base) == Due(b, base + t.delta);
    DueKeys(b, base + t.delta);
  }

  lemma RemoveDistinct(a: seq<Timer>, t: Timer, b: seq<Timer>)
    requires Distinct(a + [t] + b)
    ensures Distinct(a + Merge(t, b)) && t.id !in Ids(a) && t.id !in Ids(b)
  {
    var s, r := a + [t] + b, a + Merge(t, b);
    assert s[|a|] == t;
    forall i: nat | i < |r| ensures r[i].id == s[if i < |a| then i else i + 1].id {}
    forall i: nat | i < |a| ensures a[i].id != t.id { assert s[i] == a[i]; }
    forall i: nat | i < |b| ensures b[i].id != t.id { assert s[|a| + 1 + i] == b[i]; }
  }

  lemma RemoveDue(a: seq<Timer>, t: Timer, b: seq<Timer>)
    requires Distinct(a + [t] + b)
    ensures Due(a + Merge(t, b), 0) == Due(a + [t] + b, 0) - {t.id} && Distinct(a + Merge(t, b))
  {
    hide Due, Sum, Ids, Distinct;
    RemoveDistinct(a, t, b);
    assert a + [t] + b == a + ([t] + b);
    DueCat(a, [t] + b, 0);
    DueCat(a, Merge(t, b), 0);
    RemoveFront(t, b, Sum(a));
    DueKeys(a, 0);
  }

  // ------------------------------------------------------------ one tick

  // Every timer one tick nearer.
  lemma TickDue(list: seq<Timer>)
    requires list != [] && list[0].delta > 0 && Distinct(list)
    ensures var r := [list[0].(delta := list[0].delta - 1)] + list[1..];
      && Distinct(r) && Due(r, 0).Keys == Due(list, 0).Keys
      && forall id :: id in Due(list, 0) ==> Due(list, 0)[id] == Due(r, 0)[id] + 1
  {
    var r := [list[0].(delta := list[0].delta - 1)] + list[1..];
    assert r[1..] == list[1..];
    DueShift(list[1..], list[0].delta - 1);
    forall i: nat | i < |r| ensures r[i].id == list[i].id {}
  }

  // A timer that has run out leaves from the front.
  lemma PopDue(list: seq<Timer>)
    requires list != [] && list[0].delta == 0 && Distinct(list)
    ensures Due(list[1..], 0) == Due(list, 0) - {list[0].id} && Distinct(list[1..]) && Due(list, 0)[list[0].id] == 0
    ensures list[0].id in Due(list, 0)
  {
    DueKeys(list[1..], 0);
  }

  // Behind a timer with ticks left, all have ticks left.
  lemma AllLater(list: seq<Timer>)
    requires list != [] ==> list[0].delta > 0
    ensures forall id :: id in Due(list, 0) ==> Due(list, 0)[id] > 0
  {
    if list != [] { DueKeys(list[1..], list[0].delta); }
  }

  // Where the timer is linked, or the length of the list.
  function Position(list: seq<Timer>, id: Id): (i: nat)
    ensures i <= |list| && (i < |list| ==> list[i].id == id) && forall j :: 0 <= j < i ==> list[j].id != id
  {
    if list == [] || list[0].id == id then 0 else 1 + Position(list[1..], id)
  }

  class TimerList {
    var list: seq<Timer>

    // The first timer has ticks left, and no count leaves 32 bits.
    ghost predicate Valid()
      reads this
    {
      Distinct(list) && (list != [] ==>
          list[0].delta > 0) && (forall id :: id in Due(list, 0) ==> Due(list, 0)[id] < WORD)
    }

    constructor ()
      ensures Valid() && Due(list, 0) == map[]
    {
      list := [];
    }

    // add_timer.
    method Add(id: Id, expires: nat)
      requires Valid() && 0 < expires < WORD && id !in Due(list, 0)
      modifies this
      ensures Valid() && Due(list, 0) == old(Due(list, 0))[id := expires]
    {
      hide Due;
      var rem: nat, i: nat := expires, 0;
      DueKeys(list, 0);
      assert list[..0] == [];
      while i < |list|
        invariant i <= |list| && rem + Sum(list[..i]) == expires && (i > 0 ==> list[0].delta > 0)
        invariant (i == 0 ==> rem == expires)
        invariant list == old(list)
      {
        if rem < list[i].delta { break; }
        SumNext(list, i);
        rem := rem - list[i].delta;
        i := i + 1;
      }
      var a, b := list[..i], list[i..];
      assert list == a + b;
      InsertDue(a, id, rem, b);
      InsertDistinct(a, id, rem, b);
      list := a + [Timer(id, rem)] + Behind(b, rem);
    }

    // del_timer of a timer that is in the list, at position `i`.
    method DelAt(i: nat)
      requires Valid() && i < |list|
      modifies this
      ensures Valid() && Due(list, 0) == old(Due(list, 0)) - {old(list[i].id)}
    {
      hide Due;
      var a, t, b := list[..i], list[i], list[i + 1..];
      assert list == a + [t] + b;
      RemoveDue(a, t, b);
      list := a + if t.delta != 0 then Merge(t, b) else b;
      assert t.delta == 0 ==> Merge(t, b) == b;
    }

    // del_timer: nothing happens when the timer is not in the list.
    method Del(id: Id)
      requires Valid()
      modifies this
      ensures Valid() && Due(list, 0) == old(Due(list, 0)) - {id}
    {
      hide Due;
      DueKeys(list, 0);
      var i := Position(list, id);
      if i < |list| {
        DelAt(i);
      } else {
        assert id !in Due(list, 0);
      }
    }

    // run_timer_list: the timers that run out at this tick, in list order.
    method Run() returns (woken: seq<Id>)
      requires Valid()
      modifies this
      ensures Valid()
      ensures forall id :: id in woken <==> id in old(Due(list, 0)) && old(Due(list, 0))[id] == 1
      ensures forall i, j :: 0 <= i < j < |woken| ==> woken[i] != woken[j]
      ensures Due(list, 0) == map id | id in old(Due(list, 0)) && old(Due(list, 0))[id] > 1 :: old(Due(list, 0))[id] - 1
    {
      hide Due, Sum;
      woken := [];
      AllLater(list);
      if list != [] {
        TickDue(list);
        ghost var due0 := Due(list, 0);
        list := [list[0].(delta := list[0].delta - 1)] + list[1..];
        ghost var due := Due(list, 0);
        while list != [] && list[0].delta == 0
          invariant Distinct(list)
          invariant forall id :: id in due <==> id in woken || id in Due(list, 0)
          invariant forall id :: id in woken ==> id !in Due(list, 0) && due[id] == 0
          invariant forall id :: id in Due(list, 0) ==> Due(list, 0)[id] == due[id]
          invariant forall i, j :: 0 <= i < j < |woken| ==> woken[i] != woken[j]
          decreases |list|
        {
          PopDue(list);
          woken := woken + [list[0].id];
          list := list[1..];
        }
        AllLater(list);
      } else {
        DueKeys(list, 0);
      }
    }
  }

  lemma SumNext(list: seq<Timer>, i: nat)
    requires i < |list|
    ensures Sum(list[..i + 1]) == Sum(list[..i]) + list[i].delta
  {
    assert list[..i + 1] == list[..i] + [list[i]];
    SumCat(list[..i], [list[i]]);
  }

  lemma {:induction false} SumCat(a: seq<Timer>, b: seq<Timer>)
    ensures Sum(a + b) == Sum(a) + Sum(b)
  {
    if a == [] {
      assert a + b == b;
    } else {
      assert (a + b)[1..] == a[1..] + b;
      SumCat(a[1..], b);
    }
  }

  // ------------------------------------------------------------ whole runs

  // The operations on the timer list, as their contracts above describe them
  // on the ticks left.
  datatype Event = Added(id: Id, expires: nat) | Deleted(id: Id) | Tick

  function Next(due: map<Id, nat>, e: Event): map<Id, nat> {
    match e
    case Added(id, expires) => due[id := expires]
    case Deleted(id) => due - {id}
    case Tick => map id | id in due && due[id] > 1 :: due[id] - 1
  }

  function After(due: map<Id, nat>, events: seq<Event>): map<Id, nat>
    decreases |events|
  {
    if events == [] then due else After(Next(due, events[0]), events[1..])
  }

  // The timers that an event wakes.
  function Woken(due: map<Id, nat>, e: Event): set<Id> {
    if e == Tick then set id | id in due && due[id] == 1 else {}
  }

  function Ticks(events: seq<Event>): nat {
    if events == [] then 0 else (if events[0] == Tick then 1 else 0) + Ticks(events[1..])
  }

  // The timer is neither added again nor deleted.
  ghost predicate LeftAlone(events: seq<Event>, id: Id) {
    forall i :: 0 <= i < |events| ==> events[i] == Tick || events[i].id != id
  }

  lemma {:induction false} Countdown(due: map<Id, nat>, events: seq<Event>, id: Id)
    requires LeftAlone(events, id) && (id in due ==> due[id] > 0)
    ensures var d, t := After(due, events), Ticks(events);
      if id in due && t < due[id] then id in d && d[id] == due[id] - t else id !in d
    decreases |events|
  {
    if events != [] {
      assert LeftAlone(events[1..], id);
      Countdown(Next(due, events[0]), events[1..], id);
    }
  }

  // A timer with `t` ticks left is woken on exactly the t-th later tick,
  // whatever else is added or deleted meanwhile.
  lemma WokenOnTime(due: map<Id, nat>, events: seq<Event>, id: Id, i: nat)
    requires LeftAlone(events, id) && id in due && due[id] > 0 && i < |events|
    ensures id in Woken(After(due, events[..i]), events[i]) <==> events[i] == Tick && Ticks(events[..i + 1]) == due[id]
  {
    Countdown(due, events[..i], id);
    TicksNext(events, i);
  }

  lemma TicksNext(events: seq<Event>, i: nat)
    requires i < |events|
    ensures Ticks(events[..i + 1]) == Ticks(events[..i]) + if events[i] == Tick then 1 else 0
  {
    if i > 0 {
      assert events[..i + 1][1..] == events[1..][..i] && events[..i][1..] == events[1..][..i - 1];
      TicksNext(events[1..], i - 1);
    }
  }

  lemma {:induction false} AfterCat(due: map<Id, nat>, a: seq<Event>, b: seq<Event>)
    ensures After(due, a + b) == After(After(due, a), b)
    decreases |a|
  {
    if a == [] {
      assert a + b == b;
    } else {
      assert (a + b)[1..] == a[1..] + b;
      AfterCat(Next(due, a[0]), a[1..], b);
    }
  }

  lemma AfterNext(due: map<Id, nat>, events: seq<Event>, i: nat)
    requires i < |events|
    ensures After(due, events[..i + 1]) == Next(After(due, events[..i]), events[i])
  {
    assert events[..i + 1] == events[..i] + [events[i]];
    AfterCat(due, events[..i], [events[i]]);
  }

  // What add_timer asks of its callers: ticks to wait, and a timer that is not
  // in the list.
  ghost predicate Legal(events: seq<Event>) {
    forall i :: 0 <= i < |events| && events[i].Added? ==>
        0 < events[i].expires < WORD && events[i].id !in After(map[], events[..i])
  }

  // A timer added by event `k` and left alone is woken by event `i` exactly if
  // that is the last tick of its time.
  ghost predicate OnTime(events: seq<Event>, woken: seq<seq<Id>>, k: nat, i: nat)
    requires k < i < |events| == |woken|
  {
    events[k].Added? && LeftAlone(events[k + 1..], events[k].id) ==>
      (events[k].id in woken[i] <==> events[i] == Tick && Ticks(events[k + 1..i + 1]) == events[k].expires)
  }

  // The calls of the run on a real list wake every timer on time.
  method Drive(events: seq<Event>) returns (woken: seq<seq<Id>>)
    requires Legal(events)
    ensures |woken| == |events|
    ensures forall k: nat, i: nat :: k < i < |events| ==> OnTime(events, woken, k, i)
    ensures forall i, a, b :: 0 <= i < |events| && 0 <= a < b < |woken[i]| ==> woken[i][a] != woken[i][b]
  {
    hide Due, OnTime;
    var timers := new TimerList();
    woken := [];
    var n := 0;
    while n < |events|
      invariant n == |woken| <= |events| && fresh(timers) && timers.Valid()
      invariant Due(timers.list, 0) == After(map[], events[..n])
      invariant forall i, id :: 0 <= i < n ==> (id in woken[i] <==> id in Woken(After(map[], events[..i]), events[i]))
      invariant forall i, a, b :: 0 <= i < n && 0 <= a < b < |woken[i]| ==> woken[i][a] != woken[i][b]
    {
      AfterNext(map[], events, n);
      var w := [];
      match events[n] {
        case Added(id, expires) => timers.Add(id, expires);
        case Deleted(id) => timers.Del(id);
        case Tick => w := timers.Run();
      }
      woken := woken + [w];
      n := n + 1;
    }
    forall k: nat, i: nat | k < i < |events| ensures OnTime(events, woken, k, i) { WokenAt(events, woken, k, i); }
  }

  lemma WokenAt(events: seq<Event>, woken: seq<seq<Id>>, k: nat, i: nat)
    requires Legal(events) && k < i < |events| == |woken|
    requires forall j, id :: 0 <= j < |events| ==>
      (id in woken[j] <==> id in Woken(After(map[], events[..j]), events[j]))
    ensures OnTime(events, woken, k, i)
  {
    if events[k].Added? && LeftAlone(events[k + 1..], events[k].id) {
      var due, rest, j := After(map[], events[..k + 1]), events[k + 1..], i - k - 1;
      AfterNext(map[], events, k);
      WokenOnTime(due, rest, events[k].id, j);
      assert events[..i] == events[..k + 1] + rest[..j];
      AfterCat(map[], events[..k + 1], rest[..j]);
      assert rest[..j + 1] == events[k + 1..i + 1];
    }
  }
}
