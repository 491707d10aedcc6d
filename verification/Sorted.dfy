/** Finite sets, and sets of numbers in ascending order. */
module Sorted {

  function SetOf<T(!new)>(xs: seq<T>): (s: set<T>)
    ensures forall x :: x in s <==> x in xs
  {
    set x | x in xs
  }

  lemma MaxExists(s: set<nat>)
    requires s != {}
    ensures exists m :: m in s && forall x :: x in s ==> x <= m
  {
    var x :| x in s;
    var rest := s - {x};
    assert forall y :: y in s <==> y in rest || y == x;
    if rest == {} {
      assert x in s && forall y :: y in s ==> y <= x;
    } else {
      MaxExists(rest);
      var m :| m in rest && forall y :: y in rest ==> y <= m;
      var top := if x <= m then m else x;
      assert top in s && forall y :: y in s ==> y <= top;
    }
  }

  function Max(s: set<nat>): (m: nat)
    requires s != {}
    ensures m in s && forall x :: x in s ==> x <= m
  {
    MaxExists(s);
    var m :| m in s && forall x :: x in s ==> x <= m;
    m
  }

  predicate Ascending(xs: seq<nat>) {
    forall i, j :: 0 <= i < j < |xs| ==> xs[i] < xs[j]
  }

  /** The elements of a set, smallest first. */
  function Listed(s: set<nat>): (xs: seq<nat>)
    ensures Ascending(xs) && |xs| == |s|
    ensures forall x :: x in xs <==> x in s
  {
    if s == {} then [] else
      var m := Max(s);
      Listed(s - {m}) + [m]
  }

  /** `xs` lists `s` in ascending order. */
  ghost predicate IsListing(xs: seq<nat>, s: set<nat>) {
    Ascending(xs) && forall x :: x in xs <==> x in s
  }

  lemma DropLast(xs: seq<nat>)
    requires Ascending(xs) && xs != []
    ensures Ascending(xs[..|xs| - 1])
    ensures forall x :: x in xs ==> x <= xs[|xs| - 1]
    ensures forall x :: x in xs[..|xs| - 1] <==> x in xs && x != xs[|xs| - 1]
  {
    var front, last := xs[..|xs| - 1], xs[|xs| - 1];
    assert xs == front + [last];
    assert forall x :: x in front ==> x < last;
  }

  /** There is only one way to list a set in ascending order. */
  lemma {:induction false} AscendingUnique(xs: seq<nat>, ys: seq<nat>)
    requires Ascending(xs) && Ascending(ys)
    requires forall x :: x in xs <==> x in ys
    ensures xs == ys
  {
    if xs == [] {
      assert forall i :: 0 <= i < |ys| ==> ys[i] in ys;
    } else {
      var a := xs[|xs| - 1];
      assert a in ys;
      var b := ys[|ys| - 1];
      assert b in xs;
      DropLast(xs);
      DropLast(ys);
      assert a == b;
      var xs', ys' := xs[..|xs| - 1], ys[..|ys| - 1];
      forall x
        ensures x in xs' <==> x in ys'
      {
        assert x in xs <==> x in ys;
      }
      AscendingUnique(xs', ys');
      assert xs == xs' + [a] && ys == ys' + [b];
    }
  }
}
