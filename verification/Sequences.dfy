/**
  Optional values, and sequences used as lists without repetition.
 */
module Sequences {

  datatype Option<T> = None | Some(value: T)

  ghost predicate NoDup<T>(s: seq<T>) {
    forall i, j :: 0 <= i < j < |s| ==> s[i] != s[j]
  }

  // list_del of the first `x`.
  function Without<T(==)>(s: seq<T>, x: T): seq<T> {
    if s == [] then [] else if s[0] == x then s[1..] else [s[0]] + Without(s[1..], x)
  }

  lemma {:induction false} OthersStay<T>(s: seq<T>, x: T)
    ensures forall y :: y != x ==> (y in Without(s, x) <==> y in s)
  {
    if s != [] && s[0] != x { OthersStay(s[1..], x); }
  }

  lemma {:induction false} WithoutOk<T>(s: seq<T>, x: T)
    requires NoDup(s)
    ensures NoDup(Without(s, x)) && (x in s ==> |Without(s, x)| == |s| - 1)
    ensures forall y :: y in Without(s, x) <==> y in s && y != x
  {
    if s != [] {
      assert s[0] !in s[1..];
      assert NoDup(s[1..]);
      if s[0] != x { WithoutOk(s[1..], x); }
    }
  }
}
