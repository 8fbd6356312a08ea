/**
  Kernel semaphores: `up` hands its unit to the first waiter instead of giving
  it back, so nobody can overtake a process that already waits.
 */
module Semaphores {

  type Id = nat

  class Semaphore {
    var value: nat
    var queue: seq<Id>           // wait_queue
    ghost var initial: nat
    ghost var asked: seq<Id>     // the calls that asked for a unit and did not give up
    ghost var granted: seq<Id>   // the calls that got one, in the order they got it
    ghost var given: nat         // how often `up` was called, by whomever

    // No unit is lost or made, none lies idle while somebody waits, and units
    // are granted in the order in which they were asked for.
    ghost predicate Valid()
      reads this
    {
      value + |granted| == initial + given && (queue != [] ==> value == 0) && asked == granted + queue
    }

    constructor (value: nat)
      ensures Valid() && initial == value && asked == [] && granted == [] && given == 0
    {
      this.value, queue, initial, asked, granted, given := value, [], value, [], [], 0;
    }

    // down: goes on with a unit, or sleeps at the end of the queue.
    method Down(p: Id) returns (sleeps: bool)
      requires Valid()
      modifies this
      ensures Valid() && initial == old(initial) && given == old(given) && asked == old(asked) + [p]
      ensures sleeps <==> |old(granted)| == initial + given
      ensures granted == if sleeps then old(granted) else old(granted) + [p]
    {
      asked := asked + [p];
      if value > 0 {
        value := value - 1;
        granted := granted + [p];
        return false;
      }
      queue := queue + [p];
      sleeps := true;
    }

    // up: the longest waiter gets the unit.
    method Up() returns (woken: seq<Id>)
      requires Valid()
      modifies this
      ensures Valid() && initial == old(initial) && given == old(given) + 1 && asked == old(asked)
      ensures granted == old(granted) + woken
      ensures woken == if |old(granted)| < |old(asked)| then [old(asked)[|old(granted)|]] else []
    {
      given := given + 1;
      if queue == [] {
        value := value + 1;
        return [];
      }
      woken := [queue[0]];
      granted := granted + woken;
      queue := queue[1..];
    }

    // The end of down for a waiter whose timer ran out or who was killed.
    method Leave(i: nat)
      requires Valid() && i < |queue|
      modifies this
      ensures Valid() && initial == old(initial) && given == old(given) && granted == old(granted)
      ensures var k := |granted| + i; asked == old(asked)[..k] + old(asked)[k + 1..]
    {
      queue := queue[..i] + queue[i + 1..];
      asked := granted + queue;
    }

    // try_down: never sleeps, and overtakes nobody.
    method TryDown(p: Id) returns (ok: bool)
      requires Valid()
      modifies this
      ensures Valid() && initial == old(initial) && given == old(given)
      ensures ok <==> |old(granted)| < initial + given
      ensures if ok then asked == granted == old(granted) + [p] else asked == old(asked) && granted == old(granted)
    {
      ok := value > 0;
      if ok {
        value := value - 1;
        granted := granted + [p];
        asked := asked + [p];
      }
    }
  }
}
