/** Sequences without repetition, used for iteration orders, queues and paths. */
module Sequences {

  ghost predicate NoDup<T>(s: seq<T>) {
    forall i, j :: 0 <= i < j < |s| ==> s[i] != s[j]
  }

  function Elems<T>(s: seq<T>): (r: set<T>)
  {
    set x | x in s
  }

  /** `o` is one of the orders in which a hash table holding exactly `s` may be traversed. */
  ghost predicate IsOrder<T>(o: seq<T>, s: set<T>) {
    NoDup(o) && Elems(o) == s
  }

  function Reverse<T>(s: seq<T>): (r: seq<T>)
    ensures |r| == |s|
    ensures forall i :: 0 <= i < |s| ==> r[i] == s[|s| - 1 - i]
  {
    if s == [] then [] else Reverse(s[1..]) + [s[0]]
  }

  lemma ReverseElems<T>(s: seq<T>)
    ensures Elems(Reverse(s)) == Elems(s)
    ensures NoDup(s) ==> NoDup(Reverse(s))
  {
    var r := Reverse(s);
    forall x | x in s ensures x in r {
      var i :| 0 <= i < |s| && s[i] == x;
      assert r[|s| - 1 - i] == x;
    }
  }

  lemma {:induction false} ReverseMultiset<T>(s: seq<T>)
    ensures multiset(Reverse(s)) == multiset(s)
  {
    if s != [] {
      ReverseMultiset(s[1..]);
      assert s == [s[0]] + s[1..];
    }
  }

  lemma ReverseSnoc<T>(s: seq<T>, x: T)
    ensures Reverse(s + [x]) == [x] + Reverse(s)
  {
  }

  lemma ElemsCons<T>(x: T, s: seq<T>)
    ensures Elems([x] + s) == {x} + Elems(s)
  {
  }

  lemma {:induction false} NoDupSize<T>(s: seq<T>)
    requires NoDup(s)
    ensures |Elems(s)| == |s|
  {
    if s == [] {
    } else {
      var t, x := s[1..], s[0];
      NoDupSize(t);
      assert x !in t;
      ElemsCons(x, t);
      assert s == [x] + t;
    }
  }

  /** A sequence has as many elements as positions only if it repeats none. */
  lemma {:induction false} RepeatShrinks<T>(s: seq<T>)
    ensures |Elems(s)| <= |s| && (|Elems(s)| == |s| ==> NoDup(s))
  {
    if s != [] {
      var t, x := s[1..], s[0];
      RepeatShrinks(t);
      ElemsCons(x, t);
      assert s == [x] + t;
    }
  }

  /** A finite set has a traversal order. */
  lemma OrderExists<T>(s: set<T>) returns (o: seq<T>)
    ensures IsOrder(o, s)
  {
    if s == {} {
      o := [];
    } else {
      var x :| x in s;
      var t := OrderExists(s - {x});
      o := [x] + t;
      assert x !in t;
      assert Elems(o) == {x} + Elems(t);
    }
  }

  /** Any traversal order of the given set, chosen arbitrarily. */
  method AnyOrder<T(==)>(s: set<T>) returns (o: seq<T>)
    ensures IsOrder(o, s)
  {
    o := [];
    var todo := s;
    while todo != {}
      invariant NoDup(o)
      invariant Elems(o) + todo == s && Elems(o) !! todo
    {
      var x :| x in todo;
      assert x !in o;
      assert Elems(o + [x]) == Elems(o) + {x};
      o, todo := o + [x], todo - {x};
    }
  }
}
