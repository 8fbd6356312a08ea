/**
  The areas of an address space as a sorted sequence of disjoint intervals, and
  the map from addresses to flags that it stands for.
 */
module VmaSpec {
  import opened Sequences
  const PGSIZE := 0x1000
  const USERBASE := 0x20_0000
  const USERTOP := 0xB000_0000
  const KERNBASE := 0xC000_0000
  const KERNTOP := KERNBASE + 0x3800_0000
  const WORD := 0x1_0000_0000

  datatype Flags = Flags(read: bool, write: bool, exec: bool, stack: bool)

  datatype Area = Area(start: nat, end: nat, flags: Flags) {
    predicate Has(a: nat) { start <= a < end }
  }

  predicate UserAccess(start: nat, end: nat) { USERBASE <= start < end <= USERTOP }

  predicate KernAccess(start: nat, end: nat) { KERNBASE <= start < end <= KERNTOP }

  // A page-aligned user range.
  predicate Good(v: Area) { UserAccess(v.start, v.end) && v.start % PGSIZE == 0 && v.end % PGSIZE == 0 }

  ghost predicate Layout(s: seq<Area>) {
    && (forall i :: 0 <= i < |s| ==> Good(s[i]))
    && (forall i, j :: 0 <= i < j < |s| ==> s[i].end <= s[j].start)
  }

  // The flags of the area that holds the address.
  function Lookup(s: seq<Area>, a: nat): Option<Flags> {
    if s == [] then None else if s[0].Has(a) then Some(s[0].flags) else Lookup(s[1..], a)
  }

  lemma {:induction false} LookupAt(s: seq<Area>, a: nat, i: nat)
    requires Layout(s) && i < |s| && s[i].Has(a)
    ensures Lookup(s, a) == Some(s[i].flags)
  {
    if i > 0 {
      assert s[0].end <= s[i].start;
      LookupAt(s[1..], a, i - 1);
    }
  }

  lemma {:induction false} LookupNone(s: seq<Area>, a: nat)
    ensures Lookup(s, a) == None <==> forall i :: 0 <= i < |s| ==> !s[i].Has(a)
  {
    if s != [] {
      LookupNone(s[1..], a);
      if !s[0].Has(a) && Lookup(s, a) == None {
        forall i | 0 <= i < |s| ensures !s[i].Has(a) {
          if i > 0 { assert s[i] == s[1..][i - 1]; }
        }
      }
    }
  }

  lemma {:induction false} LookupCat(s: seq<Area>, t: seq<Area>, a: nat)
    ensures Lookup(s + t, a) == if Lookup(s, a) != None then Lookup(s, a) else Lookup(t, a)
  {
    if s == [] {
      assert s + t == t;
    } else {
      assert (s + t)[1..] == s[1..] + t;
      LookupCat(s[1..], t, a);
    }
  }

  // ------------------------------------------------------------ finding

  // The index of the lowest area that ends above the address.
  function FirstAbove(s: seq<Area>, a: nat): (i: nat)
    ensures i <= |s| && (i < |s| ==> s[i].end > a)
    ensures forall j :: 0 <= j < i ==> s[j].end <= a
  {
    if s == [] then 0 else if s[0].end > a then 0 else 1 + FirstAbove(s[1..], a)
  }

  lemma FirstAboveIs(s: seq<Area>, a: nat, i: nat)
    requires i <= |s| && (i < |s| ==> s[i].end > a) && forall j :: 0 <= j < i ==> s[j].end <= a
    ensures FirstAbove(s, a) == i
  {
  }

  // An area that holds the address is the lowest one that ends above it.
  lemma HolderIsFirst(s: seq<Area>, a: nat, i: nat)
    requires Layout(s) && i < |s| && s[i].Has(a)
    ensures FirstAbove(s, a) == i
  {
    FirstAboveIs(s, a, i);
  }

  lemma LookupFirst(s: seq<Area>, a: nat)
    requires Layout(s)
    ensures var i := FirstAbove(s, a); Lookup(s, a) == if i < |s| && s[i].start <= a then Some(s[i].flags) else None
  {
    var i := FirstAbove(s, a);
    if i < |s| && s[i].start <= a {
      LookupAt(s, a, i);
    } else {
      forall j | 0 <= j < |s| ensures !s[j].Has(a) {
        if j > i { assert s[i].end <= s[j].start; }
      }
      LookupNone(s, a);
    }
  }

  // ------------------------------------------------------------ changing

  // No area meets [start, end).
  ghost predicate Vacant(s: seq<Area>, start: nat, end: nat) {
    forall a :: start <= a < end ==> Lookup(s, a) == None
  }

  // `t` is `s` with `v` added, or replaced, over [start, end).
  ghost predicate Changed(s: seq<Area>, t: seq<Area>, start: nat, end: nat, v: Option<Flags>) {
    forall a: nat :: Lookup(t, a) == if start <= a < end then v else Lookup(s, a)
  }

  lemma InsertOk(p: seq<Area>, v: Area, q: seq<Area>)
    requires Layout(p + q) && Good(v) && Vacant(p + q, v.start, v.end)
    requires forall i :: 0 <= i < |p| ==> p[i].start <= v.start
    requires forall i :: 0 <= i < |q| ==> q[i].start > v.start
    ensures Layout(p + [v] + q) && Changed(p + q, p + [v] + q, v.start, v.end, Some(v.flags))
  {
    var s, t := p + q, p + [v] + q;
    forall i | 0 <= i < |p| ensures p[i].end <= v.start && p[i] == s[i] {
      if v.start < p[i].end { LookupAt(s, v.start, i); }
    }
    forall i | 0 <= i < |q| ensures v.end <= q[i].start && q[i] == s[|p| + i] {
      assert q[i] == s[|p| + i];
      if q[i].start < v.end { LookupAt(s, q[i].start, |p| + i); }
    }
    forall i, j | 0 <= i < j < |t| ensures t[i].end <= t[j].start {
      var i', j' := if i <= |p| then i else i - 1, if j <= |p| then j else j - 1;
      if i != |p| { assert t[i] == s[i']; }
      if j != |p| { assert t[j] == s[j']; }
    }
    forall a: nat ensures Lookup(t, a) == if v.start <= a < v.end then Some(v.flags) else Lookup(s, a) {
      LookupCat(p, q, a);
      LookupCat(p + [v], q, a);
      LookupCat(p, [v], a);
    }
  }

  lemma RemoveOk(p: seq<Area>, v: Area, q: seq<Area>)
    requires Layout(p + [v] + q)
    ensures Layout(p + q) && Changed(p + [v] + q, p + q, v.start, v.end, None)
  {
    var s, t := p + [v] + q, p + q;
    forall i | 0 <= i < |t| ensures t[i] == s[if i < |p| then i else i + 1] {}
    assert s[|p|] == v;
    forall a: nat ensures Lookup(t, a) == if v.start <= a < v.end then None else Lookup(s, a) {
      LookupCat(p, q, a);
      LookupCat(p + [v], q, a);
      LookupCat(p, [v], a);
      if v.Has(a) {
        forall i | 0 <= i < |t| ensures !t[i].Has(a) {
          assert t[i] == s[if i < |p| then i else i + 1];
        }
        LookupNone(t, a);
      }
    }
  }

  // Cutting an area down where it is.
  lemma ShrinkOk(s: seq<Area>, i: nat, v: Area)
    requires Layout(s) && i < |s| && Good(v) && v.flags == s[i].flags && s[i].start <= v.start && v.end <= s[i].end
    requires v.start == s[i].start || v.end == s[i].end
    ensures Layout(s[i := v])
    ensures Changed(s, s[i := v], if v.start == s[i].start then v.end
        else s[i].start, if v.start == s[i].start then s[i].end else v.start, None)
  {
    var p, q := s[..i], s[i + 1..];
    assert s == p + [s[i]] + q && s[i := v] == p + [v] + q;
    RemoveOk(p, s[i], q);
    assert forall j :: 0 <= j < |q| ==> q[j] == s[i + 1 + j];
    InsertOk(p, v, q);
    forall a: nat | s[i].Has(a) ensures Lookup(s, a) == Some(v.flags) { LookupAt(s, a, i); }
  }

  // Extending an area upwards where it is.
  lemma ExtendOk(s: seq<Area>, i: nat, end: nat)
    requires Layout(s) && i < |s| && Good(Area(s[i].start, end, s[i].flags)) && s[i].end <= end
    requires Vacant(s, s[i].end, end)
    ensures Layout(s[i := s[i].(end := end)]) && Changed(s, s[i := s[i].(end := end)], s[i].end, end, Some(s[i].flags))
  {
    var v := s[i].(end := end);
    var p, q := s[..i], s[i + 1..];
    assert s == p + [s[i]] + q && s[i := v] == p + [v] + q;
    RemoveOk(p, s[i], q);
    assert forall j :: 0 <= j < |q| ==> q[j] == s[i + 1 + j];
    forall a | v.start <= a < v.end ensures Lookup(p + q, a) == None {
      if a >= s[i].end { assert Lookup(s, a) == None; }
    }
    InsertOk(p, v, q);
    forall a: nat | s[i].Has(a) ensures Lookup(s, a) == Some(v.flags) { LookupAt(s, a, i); }
  }

  // ------------------------------------------------------------ addresses

  function RoundDown(a: nat): nat { a - a % PGSIZE }

  // ROUNDUP in 32-bit arithmetic.
  function RoundUp(a: nat): nat { RoundDown((a + PGSIZE - 1) % WORD) }

  lemma RoundAligned(a: nat)
    ensures RoundDown(a) % PGSIZE == 0 && RoundUp(a) % PGSIZE == 0
  {
    DownAligned(a);
    DownAligned((a + PGSIZE - 1) % WORD);
  }

  lemma DownAligned(a: nat)
    ensures RoundDown(a) % PGSIZE == 0
  {
    assert a - a % PGSIZE == a / PGSIZE * PGSIZE;
    assert (a / PGSIZE * PGSIZE) % PGSIZE == 0;
  }

  // ------------------------------------------------------------ ranges

  // find_vma alone tells whether a range is vacant.
  lemma VacantIff(s: seq<Area>, start: nat, end: nat)
    requires Layout(s) && start < end
    ensures var k := FirstAbove(s, start); Vacant(s, start, end) <==> k == |s| || end <= s[k].start
  {
    var k := FirstAbove(s, start);
    if k < |s| && s[k].start < end {
      assert Good(s[k]);
      LookupAt(s, if s[k].start <= start then start else s[k].start, k);
    } else {
      forall a | start <= a < end ensures Lookup(s, a) == None {
        forall j | 0 <= j < |s| ensures !s[j].Has(a) {
          if j > k { assert s[k].end <= s[j].start && Good(s[k]); }
        }
        LookupNone(s, a);
      }
    }
  }

  // Between two neighbours, and on the sides, nothing is mapped.
  lemma GapNone(s: seq<Area>, k: nat, a: nat)
    requires Layout(s) && k <= |s| && (k > 0 ==> s[k - 1].end <= a) && (k < |s| ==> a < s[k].start)
    ensures Lookup(s, a) == None
  {
    forall j | 0 <= j < |s| ensures !s[j].Has(a) {
      if j < k - 1 { assert s[j].end <= s[k - 1].start && Good(s[k - 1]); }
      if j > k { assert s[k].end <= s[j].start && Good(s[k]); }
    }
    LookupNone(s, a);
  }

  // ------------------------------------------------------------ subtraction

  // The areas i .. k - 1 span [s[i].start, Reach(s, i, k)).
  function Reach(s: seq<Area>, i: nat, k: nat): nat
    requires i < |s| && i <= k <= |s|
  {
    if k == i then s[i].start else s[k - 1].end
  }

  // The areas i .. k - 1 are out of `t`, and so is [start, end).
  ghost predicate Lacking(s: seq<Area>, t: seq<Area>, i: nat, k: nat, start: nat, end: nat)
    requires i < |s| && i <= k <= |s|
  {
    forall a: nat :: Lookup(t, a) == if s[i].start <= a < Reach(s, i, k) || start <= a < end then None else Lookup(s, a)
  }

  // What remains of an area after cutting [start, end) out of one of its ends.
  function Rest(v: Area, start: nat, end: nat): Option<Area> {
    if v.start < start then Some(v.(end := start)) else if end < v.end then Some(v.(start := end)) else None
  }

  // One more area taken out.
  lemma TakeStep(s: seq<Area>, t: seq<Area>, t': seq<Area>, i: nat, k: nat)
    requires Layout(s) && i <= k < |s| && Changed(s, t, s[i].start, Reach(s, i, k), None)
    requires Changed(t, t', s[k].start, s[k].end, None)
    ensures Changed(s, t', s[i].start, Reach(s, i, k + 1), None)
  {
    assert Good(s[i]) && Good(s[k]);
    if i < k { assert s[k - 1].end <= s[k].start && s[i].end <= s[k].start && Good(s[k - 1]); }
    forall a: nat ensures Lookup(t', a) == if s[i].start <= a < Reach(s, i, k + 1) then None else Lookup(s, a) {
      if Reach(s, i, k) <= a < s[k].start { GapNone(s, k, a); }
    }
  }

  // All the areas that meet [start, end) are out.
  lemma TakenAll(s: seq<Area>, t: seq<Area>, i: nat, k: nat, start: nat, end: nat)
    requires Layout(s) && i < k <= |s| && i == FirstAbove(s, start) && (k < |s| ==> end <= s[k].start)
    requires Changed(s, t, s[i].start, Reach(s, i, k), None)
    ensures Lacking(s, t, i, k, start, end)
  {
    forall a: nat | start <= a < end && !(s[i].start <= a < Reach(s, i, k)) ensures Lookup(s, a) == None {
      if a < s[i].start { GapNone(s, i, a); } else { GapNone(s, k, a); }
    }
  }

  // Putting back what remains of the last area taken out.
  lemma PutBackStep(s: seq<Area>, t: seq<Area>, t': seq<Area>, i: nat, k: nat, start: nat, end: nat)
    requires Layout(s) && i < k <= |s| && Lacking(s, t, i, k, start, end) && i == FirstAbove(s, start)
    requires s[k - 1].start < end
    requires start < end && !(s[k - 1].start < start && end < s[k - 1].end)
    requires var p := Rest(s[k - 1], start, end);
      if p == None then t' == t else Changed(t, t', p.value.start, p.value.end, Some(p.value.flags))
    ensures Lacking(s, t', i, k - 1, start, end)
  {
    var v := s[k - 1];
    forall a: nat ensures Lookup(t', a) == if s[i].start <= a < Reach(s, i, k - 1) || start <= a < end then None
        else Lookup(s, a) {
      LastArea(s, i, k, a);
      assert Lookup(t, a) == if s[i].start <= a < v.end || start <= a < end then None else Lookup(s, a);
      hide Layout, Lookup, FirstAbove, Lacking;
    }
  }

  // The last of the areas i .. k - 1, and the gap below it.
  lemma LastArea(s: seq<Area>, i: nat, k: nat, a: nat)
    requires Layout(s) && i < k <= |s|
    ensures Reach(s, i, k) == s[k - 1].end && s[i].start <= Reach(s, i, k - 1) <= s[k - 1].start < s[k - 1].end
    ensures s[k - 1].Has(a) ==> Lookup(s, a) == Some(s[k - 1].flags)
    ensures Reach(s, i, k - 1) <= a < s[k - 1].start ==> Lookup(s, a) == None
  {
    var v := s[k - 1];
    assert Good(v) && Good(s[i]);
    if i < k - 1 { assert s[k - 2].end <= v.start && s[i].end <= v.start && Good(s[k - 2]); }
    if i < k - 2 { assert s[i].end <= s[k - 2].start; }
    if v.Has(a) { LookupAt(s, a, k - 1); }
    if Reach(s, i, k - 1) <= a < v.start { GapNone(s, k - 1, a); }
  }

  lemma RestVacant(s: seq<Area>, t: seq<Area>, i: nat, k: nat, start: nat, end: nat)
    requires Layout(s) && i < k <= |s| && Lacking(s, t, i, k, start, end) && Rest(s[k - 1], start, end) != None
    requires start % PGSIZE == 0 && end % PGSIZE == 0 && start < end && i == FirstAbove(s, start)
    requires s[k - 1].start < end
    ensures var p := Rest(s[k - 1], start, end).value; Good(p) && Vacant(t, p.start, p.end)
  {
    assert Good(s[k - 1]) && Good(s[i]);
    if i < k - 1 { assert s[i].end <= s[k - 1].start; }
  }

  // ------------------------------------------------------------ page tables

  // The addresses of a list of ranges.
  ghost predicate Within(rs: seq<(nat, nat)>, a: nat) { exists r :: r in rs && r.0 <= a < r.1 }

  lemma WithinAppend(rs: seq<(nat, nat)>, x: nat, y: nat, a: nat)
    ensures Within(rs + [(x, y)], a) <==> Within(rs, a) || x <= a < y
  {
    if x <= a < y { assert (x, y) in rs + [(x, y)]; }
    if Within(rs, a) {
      var r :| r in rs && r.0 <= a < r.1;
      assert r in rs + [(x, y)];
    }
  }

  // `rs` are the mapped addresses of [start, end) from `from` on.
  ghost predicate Swept(s: seq<Area>, rs: seq<(nat, nat)>, from: nat, start: nat, end: nat) {
    forall a: nat :: Within(rs, a) <==> from <= a && start <= a < end && Lookup(s, a) != None
  }

  // The part of an area that goes.
  function CutOf(v: Area, start: nat, end: nat): (nat, nat) {
    if v.start < start then (start, v.end) else (v.start, if end < v.end then end else v.end)
  }

  lemma SweepStep(s: seq<Area>, rs: seq<(nat, nat)>, i: nat, k: nat, start: nat, end: nat)
    requires Layout(s) && i < k <= |s| && i == FirstAbove(s, start) && s[k - 1].start < end && start < end
    requires !(s[k - 1].start < start && end < s[k - 1].end) && Swept(s, rs, Reach(s, i, k), start, end)
    ensures Swept(s, rs + [CutOf(s[k - 1], start, end)], Reach(s, i, k - 1), start, end)
  {
    var v := s[k - 1];
    var c := CutOf(v, start, end);
    forall a: nat ensures Within(rs + [c], a) <==> Reach(s, i, k - 1) <= a && start <= a < end && Lookup(s, a) != None {
      WithinAppend(rs, c.0, c.1, a);
      LastArea(s, i, k, a);
      assert Within(rs, a) <==> v.end <= a && start <= a < end && Lookup(s, a) != None;
      hide Layout, Lookup, Swept, Within;
    }
  }

  lemma SweepStart(s: seq<Area>, i: nat, k: nat, start: nat, end: nat)
    requires Layout(s) && i < k <= |s| && i == FirstAbove(s, start) && (k < |s| ==> end <= s[k].start)
    ensures Swept(s, [], Reach(s, i, k), start, end)
  {
    forall a: nat | Reach(s, i, k) <= a && start <= a < end ensures Lookup(s, a) == None { GapNone(s, k, a); }
  }

  lemma SweepEnd(s: seq<Area>, rs: seq<(nat, nat)>, i: nat, start: nat, end: nat)
    requires Layout(s) && i < |s| && i == FirstAbove(s, start) && Swept(s, rs, s[i].start, start, end)
    ensures Swept(s, rs, start, start, end)
  {
    forall a: nat | start <= a < s[i].start ensures Lookup(s, a) == None { GapNone(s, i, a); }
  }

  // The areas i .. k - 1 meet [start, end), none surrounds it, and i is the
  // first to end above `start`.
  ghost predicate Met(s: seq<Area>, i: nat, k: nat, start: nat, end: nat) {
    && Layout(s) && i < |s| && i <= k <= |s| && i == FirstAbove(s, start) && start < end
    && start % PGSIZE == 0 && end % PGSIZE == 0
    && forall m :: i <= m < k ==> s[m].start < end && !(s[m].start < start && end < s[m].end)
  }

  lemma MetStart(s: seq<Area>, i: nat, start: nat, end: nat)
    requires Layout(s) && i < |s| && i == FirstAbove(s, start) && start < end && start % PGSIZE == 0
    requires end % PGSIZE == 0
    ensures Met(s, i, i, start, end)
  {
  }

  lemma TakeNothing(s: seq<Area>, i: nat)
    requires i < |s|
    ensures Changed(s, s, s[i].start, Reach(s, i, i), None)
  {
  }

  // Only the first area can surround the range.
  lemma MetMore(s: seq<Area>, i: nat, k: nat, start: nat, end: nat)
    requires Met(s, i, k, start, end) && k < |s| && s[k].start < end && !(s[i].start < start && end < s[i].end)
    ensures Met(s, i, k + 1, start, end)
  {
    if k > i { assert s[i].end <= s[k].start; }
  }

  lemma MetAll(s: seq<Area>, t: seq<Area>, i: nat, k: nat, start: nat, end: nat)
    requires Met(s, i, k, start, end) && i < k && (k < |s| ==> end <= s[k].start)
    requires Changed(s, t, s[i].start, Reach(s, i, k), None)
    ensures Lacking(s, t, i, k, start, end) && Swept(s, [], Reach(s, i, k), start, end)
  {
    hide Changed, Lacking, Swept;
    TakenAll(s, t, i, k, start, end);
    SweepStart(s, i, k, start, end);
  }

  // What must hold to put the last one back, and what then holds.
  lemma MetStep(s: seq<Area>, t: seq<Area>, rs: seq<(nat, nat)>, i: nat, k: nat, start: nat, end: nat)
    requires Met(s, i, k, start, end) && i < k && Lacking(s, t, i, k, start, end)
    requires Swept(s, rs, Reach(s, i, k), start, end)
    ensures Met(s, i, k - 1, start, end) && Swept(s, rs + [CutOf(s[k - 1], start, end)], Reach(s, i, k - 1), start, end)
    ensures var p := Rest(s[k - 1], start, end); p != None ==> Good(p.value) && Vacant(t, p.value.start, p.value.end)
  {
    SweepStep(s, rs, i, k, start, end);
    if Rest(s[k - 1], start, end) != None { RestVacant(s, t, i, k, start, end); }
  }

  lemma MetBack(s: seq<Area>, t: seq<Area>, t': seq<Area>, i: nat, k: nat, start: nat, end: nat)
    requires Met(s, i, k, start, end) && i < k && Lacking(s, t, i, k, start, end)
    requires var p := Rest(s[k - 1], start, end);
      if p == None then t' == t else Changed(t, t', p.value.start, p.value.end, Some(p.value.flags))
    ensures Lacking(s, t', i, k - 1, start, end)
  {
    PutBackStep(s, t, t', i, k, start, end);
  }

  lemma MetEnd(s: seq<Area>, t: seq<Area>, rs: seq<(nat, nat)>, i: nat, start: nat, end: nat)
    requires Met(s, i, i, start, end) && Lacking(s, t, i, i, start, end) && Swept(s, rs, Reach(s, i, i), start, end)
    ensures Changed(s, t, start, end, None) && Swept(s, rs, start, start, end)
  {
    SweepEnd(s, rs, i, start, end);
  }

  lemma NothingThere(s: seq<Area>, start: nat, end: nat)
    requires Layout(s) && start < end
    ensures var k := FirstAbove(s, start);
      k == |s| || end <= s[k].start ==> Changed(s, s, start, end, None) && Swept(s, [], start, start, end)
  {
    VacantIff(s, start, end);
  }

  // ------------------------------------------------------------ splitting

  // The range lies strictly inside one area.
  ghost predicate Surrounded(s: seq<Area>, start: nat, end: nat) {
    exists i :: 0 <= i < |s| && s[i].start < start && end < s[i].end
  }

  lemma SurroundedFirst(s: seq<Area>, start: nat, end: nat)
    requires Layout(s) && start < end
    ensures var k := FirstAbove(s, start);
      Surrounded(s, start, end) <==> k < |s| && s[k].start < start && end < s[k].end
  {
    forall i | 0 <= i < |s| && s[i].start < start && end < s[i].end
      ensures i == FirstAbove(s, start) { HolderIsFirst(s, start, i); }
  }

  lemma SplitFacts(s: seq<Area>, i: nat, start: nat, end: nat)
    requires Layout(s) && i < |s| && start % PGSIZE == 0 && end % PGSIZE == 0 && s[i].start < start < end < s[i].end
    ensures var t := s[i := s[i].(start := end)]; Layout(t) && Changed(s, t, s[i].start, end, None)
    ensures var t := s[i := s[i].(start := end)]; Good(s[i].(end := start)) && Vacant(t, s[i].start, start)
    ensures Swept(s, [(start, end)], start, start, end)
  {
    assert Good(s[i]);
    ShrinkOk(s, i, s[i].(start := end));
    forall a: nat ensures Within([(start, end)], a) <==> start <= a < end && Lookup(s, a) != None {
      WithinAppend([], start, end, a);
      assert [] + [(start, end)] == [(start, end)];
      if s[i].Has(a) { LookupAt(s, a, i); }
    }
  }

  lemma SplitEnd(s: seq<Area>, t: seq<Area>, u: seq<Area>, i: nat, start: nat, end: nat)
    requires Layout(s) && i < |s| && s[i].start < start < end < s[i].end
    requires Changed(s, t, s[i].start, end, None) && Changed(t, u, s[i].start, start, Some(s[i].flags))
    ensures Changed(s, u, start, end, None)
  {
    forall a: nat | s[i].Has(a) ensures Lookup(s, a) == Some(s[i].flags) { LookupAt(s, a, i); }
  }

  // ------------------------------------------------------------ access

  // An access to the address within the area: the flag, and for writes the
  // guard page at the bottom of a stack.
  predicate Permits(v: Area, a: nat, write: bool) {
    if write then v.flags.write && !(v.flags.stack && a < v.start + PGSIZE) else v.flags.read
  }

  ghost predicate Allowed(s: seq<Area>, a: nat, write: bool) {
    exists i :: 0 <= i < |s| && s[i].Has(a) && Permits(s[i], a, write)
  }

  lemma AllowedFirst(s: seq<Area>, a: nat, write: bool)
    requires Layout(s)
    ensures var k := FirstAbove(s, a); Allowed(s, a, write) <==> k < |s| && s[k].start <= a && Permits(s[k], a, write)
  {
    var k := FirstAbove(s, a);
    forall i | 0 <= i < |s| && s[i].Has(a) ensures i == k { HolderIsFirst(s, a, i); }
  }

  lemma AllowedOn(s: seq<Area>, k: nat, a: nat, b: nat, write: bool)
    requires k < |s| && s[k].Has(a) && Permits(s[k], a, write) && a <= b < s[k].end
    ensures Allowed(s, b, write)
  {
    assert s[k].Has(b) && Permits(s[k], b, write);
  }

  // ------------------------------------------------------------ gaps

  predicate Apart(v: Area, start: nat, len: nat) { start + len <= v.start || v.end <= start }

  // [start, start + len) is a free user range.
  ghost predicate FreeRange(s: seq<Area>, start: nat, len: nat) {
    USERBASE <= start && start + len <= USERTOP && forall i :: 0 <= i < |s| ==> Apart(s[i], start, len)
  }

  // No free range starts above `start`, and [start, start + len) lies below
  // the areas from `i` on.
  ghost predicate Above(s: seq<Area>, i: nat, start: nat, len: nat) {
    && start + len <= USERTOP
    && (forall j :: i <= j < |s| ==> start + len <= s[j].start)
    && (forall t: nat :: t > start ==> !FreeRange(s, t, len))
  }

  lemma AboveStart(s: seq<Area>, len: nat)
    requires 0 < len <= USERTOP
    ensures Above(s, |s|, USERTOP - len, len)
  {
  }

  // The area `i` overlaps the candidate: the next one ends where it starts.
  lemma AboveDown(s: seq<Area>, i: nat, start: nat, len: nat)
    requires Layout(s) && Above(s, i + 1, start, len) && i < |s| && 0 < len && start < s[i].end
    requires start + len > s[i].start
    ensures forall t: nat :: t + len > s[i].start ==> !FreeRange(s, t, len)
    ensures len < s[i].start ==> Above(s, i, s[i].start - len, len)
  {
    assert Good(s[i]);
    forall t: nat | t + len > s[i].start ensures !FreeRange(s, t, len) {
      if t <= start { assert !Apart(s[i], t, len); }
    }
    forall j | i < j < |s| ensures s[i].start <= s[j].start { assert s[i].end <= s[j].start; }
  }

  lemma AboveFits(s: seq<Area>, i: nat, start: nat, len: nat)
    requires Layout(s) && Above(s, i, start, len) && i <= |s| && (i > 0 ==> s[i - 1].end <= start) && USERBASE <= start
    ensures FreeRange(s, start, len)
  {
    forall j | 0 <= j < i ensures s[j].end <= start {
      if j < i - 1 { assert s[j].end <= s[i - 1].start && Good(s[i - 1]); }
    }
  }

  lemma GoodAt(s: seq<Area>, k: nat)
    requires Layout(s) && k < |s|
    ensures Good(s[k])
  {
  }

  lemma AboveSame(s: seq<Area>, i: nat, start: nat, len: nat)
    requires Above(s, i + 1, start, len) && i < |s| && start + len <= s[i].start
    ensures Above(s, i, start, len)
  {
  }

  // The candidate is the highest free range.
  lemma AboveEnds(s: seq<Area>, i: nat, start: nat, len: nat)
    requires Layout(s) && Above(s, i, start, len) && i <= |s| && (i > 0 ==> s[i - 1].end <= start)
    requires (i == 0 ==> USERBASE <= start)
    ensures FreeRange(s, start, len) && forall t: nat :: FreeRange(s, t, len) ==> t <= start
  {
    if i > 0 { GoodAt(s, i - 1); }
    AboveFits(s, i, start, len);
  }

  lemma AboveLow(s: seq<Area>, i: nat, start: nat, len: nat)
    requires Above(s, i, start, len) && start < USERBASE
    ensures forall t: nat :: !FreeRange(s, t, len)
  {
    forall t: nat ensures !FreeRange(s, t, len) {}
  }
}
