/** Lists without repetitions, and lists of lists. */
module Lists {
  predicate NoDup<T(==)>(s: seq<T>) {
    forall i, j :: 0 <= i < j < |s| ==> s[i] != s[j]
  }

  function Elements<T>(s: seq<T>): set<T> {
    set x | x in s
  }

  lemma {:induction false} NoDupSize<T>(s: seq<T>)
    requires NoDup(s)
    ensures |Elements(s)| == |s|
  {
    if s == [] {
      assert Elements(s) == {};
    } else {
      NoDupSize(s[1..]);
      assert s == [s[0]] + s[1..];
      assert Elements(s) == {s[0]} + Elements(s[1..]);
    }
  }

  lemma EmptyFront<T>(b: seq<T>)
    ensures [] + b == b
  {
  }

  function SumLen<T>(lists: seq<seq<T>>): nat {
    if lists == [] then 0 else |lists[0]| + SumLen(lists[1..])
  }

  function Without<T(==)>(s: seq<T>, x: T): seq<T> {
    if s == [] then [] else if s[0] == x then s[1..] else [s[0]] + Without(s[1..], x)
  }

  lemma {:induction false} WithoutIs<T>(s: seq<T>, x: T)
    requires NoDup(s) && x in s
    ensures NoDup(Without(s, x)) && |Without(s, x)| == |s| - 1
    ensures forall y :: y in Without(s, x) <==> y in s && y != x
  {
    if s[0] == x {
      assert s == [x] + s[1..];
    } else {
      WithoutIs(s[1..], x);
      assert s == [s[0]] + s[1..];
      var w := Without(s[1..], x);
      assert Without(s, x) == [s[0]] + w;
      assert s[0] !in w;
      hide Without;
    }
  }

  lemma {:induction false} WithoutAt<T>(s: seq<T>, x: T) returns (k: nat)
    requires x in s
    ensures k < |s| && s[k] == x && Without(s, x) == s[..k] + s[k + 1..]
  {
    if s[0] == x {
      k := 0;
    } else {
      var j := WithoutAt(s[1..], x);
      k := j + 1;
      assert s[..k] == [s[0]] + s[1..][..j];
    }
  }

  lemma {:induction false} WithoutNone<T>(s: seq<T>, x: T)
    requires x !in s
    ensures Without(s, x) == s
  {
    if s != [] {
      WithoutNone(s[1..], x);
    }
  }

  lemma WithoutHas<T>(s: seq<T>, x: T, y: T)
    requires NoDup(s) && x in s
    ensures y in Without(s, x) <==> y in s && y != x
  {
    WithoutIs(s, x);
  }

  lemma {:induction false} SumUpdate<T>(lists: seq<seq<T>>, b: nat, l: seq<T>)
    requires b < |lists|
    ensures SumLen(lists[b := l]) == SumLen(lists) - |lists[b]| + |l|
  {
    if b == 0 {
      assert lists[b := l][1..] == lists[1..];
    } else {
      assert lists[b := l][1..] == lists[1..][b - 1 := l];
      SumUpdate(lists[1..], b - 1, l);
    }
  }

  lemma {:induction false} SumEmpty<T>(lists: seq<seq<T>>)
    requires forall i :: 0 <= i < |lists| ==> lists[i] == []
    ensures SumLen(lists) == 0
  {
    if lists != [] {
      SumEmpty(lists[1..]);
    }
  }

  lemma SameEmpty<T>(a: seq<T>, b: seq<T>)
    requires Elements(a) == Elements(b)
    ensures a == [] <==> b == []
  {
    if a != [] {
      assert a[0] in Elements(b);
    }
    if b != [] {
      assert b[0] in Elements(a);
    }
  }

  /** Numbers that move up by one, and perhaps 0 in front of them. */
  lemma OneBefore(a: set<int>, b: set<int>, zero: bool)
    requires forall i :: i in a ==> i >= 0
    requires forall i :: i in b <==> (i == 0 && zero) || i - 1 in a
    ensures |b| == |a| + if zero then 1 else 0
  {
    MovedUp(a, b - {0});
    assert b == (b - {0}) + if zero then {0} else {};
  }

  lemma NothingIn<T>(s: set<T>)
    ensures (forall x :: x !in s) ==> s == {}
  {
  }

  lemma SomeOf<T>(s: set<T>) returns (x: T)
    requires s != {}
    ensures x in s
  {
    x :| x in s;
  }

  lemma {:induction false} MovedUp(a: set<int>, b: set<int>)
    requires forall i :: i in b <==> i - 1 in a
    ensures |b| == |a|
  {
    if a == {} {
      assert forall i :: i in b <==> i - 1 in a;
      NothingIn(b);
      assert b == {};
    } else {
      var x := SomeOf(a);
      assert (x + 1) - 1 in a;
      MovedUp(a - {x}, b - {x + 1});
    }
  }
}
