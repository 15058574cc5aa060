/** Lists of identifiers, as the controller's vectors use them. */
module Sequences {
  ghost predicate NoDup<T>(s: seq<T>) {
    forall i, j | 0 <= i < j < |s| :: s[i] != s[j]
  }

  function ToSet<T>(s: seq<T>): set<T> {
    set x | x in s
  }

  /** `RemoveElement`: erase the first occurrence, if any. */
  function RemoveFirst<T(==)>(s: seq<T>, x: T): seq<T> {
    if s == [] then [] else if s[0] == x then s[1..] else [s[0]] + RemoveFirst(s[1..], x)
  }

  /** `AddElement`: append unless present. */
  function AppendNew<T(==)>(s: seq<T>, x: T): seq<T> {
    if x in s then s else s + [x]
  }

  /** The elements outside `drop`, in order. */
  function Without<T(==)>(s: seq<T>, drop: set<T>): seq<T> {
    if s == [] then []
    else if s[0] in drop then Without(s[1..], drop)
    else [s[0]] + Without(s[1..], drop)
  }

  lemma {:induction false} WithoutMembers<T>(s: seq<T>, drop: set<T>)
    ensures forall x :: x in Without(s, drop) <==> x in s && x !in drop
    ensures NoDup(s) ==> NoDup(Without(s, drop))
    ensures |Without(s, drop)| <= |s|
  {
    if s != [] {
      WithoutMembers(s[1..], drop);
      assert s == [s[0]] + s[1..];
    }
  }

  lemma {:induction false} WithoutNothing<T>(s: seq<T>, drop: set<T>)
    requires forall x | x in s :: x !in drop
    ensures Without(s, drop) == s
  {
    if s != [] {
      assert s[0] in s;
      WithoutNothing(s[1..], drop);
    }
  }

  lemma {:induction false} WithoutSameOn<T>(s: seq<T>, a: set<T>, b: set<T>)
    requires forall x | x in s :: x in a <==> x in b
    ensures Without(s, a) == Without(s, b)
  {
    if s != [] {
      assert s[0] in s;
      WithoutSameOn(s[1..], a, b);
    }
  }

  lemma {:induction false} WithoutTwice<T>(s: seq<T>, a: set<T>, b: set<T>)
    ensures Without(Without(s, a), b) == Without(s, a + b)
  {
    if s != [] {
      WithoutTwice(s[1..], a, b);
      if s[0] !in a {
        assert Without(s, a)[1..] == Without(s[1..], a);
      }
    }
  }

  /** On a duplicate-free list, erasing one occurrence erases the element. */
  lemma {:induction false} RemoveFirstIsWithout<T>(s: seq<T>, x: T)
    requires NoDup(s)
    ensures RemoveFirst(s, x) == Without(s, {x})
  {
    if s != [] {
      if s[0] == x {
        WithoutNothing(s[1..], {x});
      } else {
        RemoveFirstIsWithout(s[1..], x);
      }
    }
  }

  lemma {:induction false} RemoveFirstMembers<T>(s: seq<T>, x: T)
    ensures forall y | y in RemoveFirst(s, x) :: y in s
    ensures forall y | y in s && y != x :: y in RemoveFirst(s, x)
    ensures NoDup(s) ==> NoDup(RemoveFirst(s, x)) && x !in RemoveFirst(s, x)
  {
    if s != [] && s[0] != x {
      assert s == [s[0]] + s[1..];
      RemoveFirstMembers(s[1..], x);
      if NoDup(s) {
        assert s[0] !in s[1..];
        assert RemoveFirst(s, x)[1..] == RemoveFirst(s[1..], x);
      }
    }
  }

  lemma SomeMember<T>(s: seq<T>)
    ensures s != [] ==> exists x :: x in s
  {
    if s != [] { assert s[0] in s; }
  }

  /** A duplicate-free list is as long as its set of elements is large. */
  lemma {:induction false} NoDupCount<T>(s: seq<T>)
    requires NoDup(s)
    ensures |ToSet(s)| == |s|
  {
    if s != [] {
      NoDupCount(s[1..]);
      assert ToSet(s) == {s[0]} + ToSet(s[1..]);
    }
  }
}
