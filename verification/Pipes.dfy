/**
  A pipe: a ring buffer between readers and writers that sleep on two queues.
  Nothing blocks while the pipe's semaphore is held and the kernel is not
  preempted, so every attempt below is one step, and any order of calls of
  these methods is an interleaving of readers, writers and closes.
 */
module Pipes {
  import opened Bytes
  import opened Sequences

  type Id = nat
  // The positions are 32-bit signed numbers in the source.
  const MAX_POS := 0x7fff_ffff

  // What an attempt comes to: the call returns, or the caller sleeps.
  datatype Outcome = Return | Sleep

  class Pipe {
    const size: nat                 // PIPE_BUFSIZE
    const buf: array<byte>
    var rpos: nat
    var wpos: nat
    var closed: bool
    var readers: seq<Id>            // reader_queue
    var writers: seq<Id>            // writer_queue
    ghost var accepted: seq<byte>   // all bytes that writers put in
    ghost var delivered: seq<byte>  // all bytes that readers took out

    // What is delivered is a prefix of what was accepted, the buffer holds
    // the rest, and whoever sleeps has a reason to.
    ghost predicate Valid()
      reads this, buf
    {
      && size > 0 && buf.Length == size && Stream()
      && (readers != [] ==> rpos == wpos && !closed)
      && (writers != [] ==> wpos - rpos == size && !closed)
    }

    ghost predicate Stream()
      reads this, buf
    {
      && buf.Length == size > 0
      && rpos <= wpos <= rpos + size && wpos <= MAX_POS
      && |accepted| == wpos && delivered == accepted[..rpos]
      && forall i :: rpos <= i < wpos ==> buf[i % size] == accepted[i]
    }

    constructor (size: nat)
      requires size > 0
      ensures Valid() && fresh(buf) && this.size == size && accepted == [] && readers == [] && writers == [] && !closed
    {
      this.size := size;
      buf := new byte[size](_ => 0);
      rpos, wpos, closed, readers, writers := 0, 0, false, [], [];
      accepted, delivered := [], [];
    }

    // pipe_state_read from try_again on.
    method TryRead(t: Id, n: nat) returns (o: Outcome, data: seq<byte>)
      requires Valid()
      modifies this`rpos, this`readers, this`writers, this`delivered
      ensures Valid()
      ensures o == Sleep <==> old(rpos) == wpos && !closed
      ensures o == Sleep ==> readers == old(readers) + [t] && writers == old(writers) && rpos == old(rpos) && data == []
      ensures o == Return ==> readers == old(readers)
      ensures |data| == Min(n, wpos - old(rpos)) && rpos == old(rpos) + |data| && data == accepted[old(rpos)..rpos]
      ensures delivered == old(delivered) + data
      ensures writers == if data != [] then [] else old(writers)
    {
      data := [];
      if rpos == wpos {
        if closed { return Return, []; }
        readers := readers + [t];
        return Sleep, [];
      }
      ghost var from := rpos;
      assert accepted[from..from] == [];
      while |data| < n && rpos != wpos
        invariant Stream() && rpos == from + |data| && |data| <= n && data == accepted[from..rpos]
        invariant delivered == old(delivered) + data && readers == old(readers) && writers == old(writers)
        decreases wpos - rpos
      {
        TakeOne(accepted, from, rpos);
        delivered := delivered + [buf[rpos % size]];
        data := data + [buf[rpos % size]];
        rpos := rpos + 1;
      }
      if |data| != 0 { writers := []; }
      o := Return;
    }

    // pipe_state_write from try_again on, after `done` bytes of `data`.
    method TryWrite(t: Id, data: seq<byte>, done: nat) returns (o: Outcome, ret: nat)
      requires Valid() && done <= |data| && wpos + (|data| - done) <= MAX_POS
      modifies this`wpos, this`readers, this`writers, this`accepted, buf
      ensures Valid() && done <= ret <= |data|
      ensures accepted == old(accepted) + data[done..ret] && wpos == old(wpos) + (ret - done)
      ensures o == Sleep <==> !closed && ret < |data|
      ensures closed ==> ret == done
      ensures !closed ==> ret - done == Min(|data| - done, size - (old(wpos) - rpos))
      ensures writers == if o == Sleep then old(writers) + [t] else old(writers)
      ensures readers == if ret > done || o == Sleep then [] else old(readers)
    {
      ret := done;
      if closed { return Return, ret; }
      ghost var acc := accepted;
      assert acc + data[done..done] == acc;
      while ret < |data|
        invariant done <= ret <= |data| && Stream() && wpos == old(wpos) + (ret - done)
        invariant accepted == acc + data[done..ret]
        invariant readers == old(readers) && writers == old(writers)
      {
        if wpos - rpos >= size {
          readers := [];
          writers := writers + [t];
          return Sleep, ret;
        }
        PutOne(data[ret]);
        TakeOne(data, done, ret);
        ret := ret + 1;
      }
      if ret != done { readers := []; }
      o := Return;
    }

    // One byte into the buffer.
    method PutOne(x: byte)
      requires Stream() && wpos - rpos < size && wpos < MAX_POS
      modifies this`wpos, this`accepted, buf
      ensures Stream() && wpos == old(wpos) + 1 && accepted == old(accepted) + [x]
    {
      Distinct(rpos, wpos, size);
      buf[wpos % size] := x;
      accepted := accepted + [x];
      wpos := wpos + 1;
    }

    // pipe_state_close.
    method Close()
      requires Valid()
      modifies this`closed, this`readers, this`writers
      ensures Valid() && closed && readers == [] && writers == []
    {
      closed, readers, writers := true, [], [];
    }

    // A sleeping caller is woken by something else than the pipe and leaves.
    method Interrupt(t: Id)
      requires Valid()
      modifies this`readers, this`writers
      ensures Valid() && readers == Without(old(readers), t) && writers == Without(old(writers), t)
    {
      WithoutNone(readers, t);
      WithoutNone(writers, t);
      readers, writers := Without(readers, t), Without(writers, t);
    }

    // pipe_state_size.
    method Size(write: bool) returns (n: nat)
      requires Valid()
      ensures n == if write then (if closed then 0 else size - (|accepted| - |delivered|)) else |accepted| - |delivered|
    {
      n := wpos - rpos;
      if write { n := if closed then 0 else size - n; }
    }
  }

  function Min(x: nat, y: nat): nat { if x < y then x else y }

  lemma WithoutNone(q: seq<Id>, t: Id)
    ensures q == [] ==> Without(q, t) == []
  {
  }

  lemma TakeOne(s: seq<byte>, from: nat, i: nat)
    requires from <= i < |s|
    ensures s[from..i + 1] == s[from..i] + [s[i]] && s[..i + 1] == s[..i] + [s[i]]
  {
  }

  // Within one turn of the buffer every position has its own place.
  lemma Distinct(lo: nat, hi: nat, size: nat)
    requires 0 < size && lo <= hi < lo + size
    ensures forall i: nat :: lo <= i < hi ==> i % size != hi % size
  {
    forall i: nat | lo <= i < hi ensures i % size != hi % size { Turn(i, hi - i, size); }
  }

  lemma Turn(i: nat, k: nat, size: nat)
    requires 0 < k < size
    ensures i % size != (i + k) % size
  {
    var q, r := i / size, i % size;
    assert i == size * q + r;
    if r + k < size {
      Remainder(i + k, size, q, r + k);
    } else {
      assert i + k == size * (q + 1) + (r + k - size);
      Remainder(i + k, size, q + 1, r + k - size);
    }
  }

  lemma Remainder(x: nat, size: nat, q: nat, r: nat)
    requires size > 0 && x == size * q + r && r < size
    ensures x % size == r
  {
    var d := x / size - q;
    assert x == size * (x / size) + x % size;
    assert size * d == r - x % size;
    assert d > 0 ==> size * d >= size;
    assert d < 0 ==> size * d <= 0 - size;
  }
}
