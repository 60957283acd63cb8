/** Choosing from a circular list in turn, passing over what is down. */
module Rings {
  import opened Lists
  import opened Pieces

  /** The members that are up, in ring order. */
  function Ups<T(==)>(ring: seq<T>, up: set<T>): seq<T> {
    if ring == [] then [] else (if ring[0] in up then [ring[0]] else []) + Ups(ring[1..], up)
  }

  lemma UpsStep<T>(ring: seq<T>, up: set<T>)
    requires ring != []
    ensures Ups(ring, up) == if ring[0] in up then [ring[0]] + Ups(ring[1..], up) else Ups(ring[1..], up)
  {
  }

  lemma {:induction false} UpsConcat<T>(a: seq<T>, b: seq<T>, up: set<T>)
    ensures Ups(a + b, up) == Ups(a, up) + Ups(b, up)
  {
    hide Ups;
    if a == [] {
      NoUps(a, up);
      EmptyFront(b);
      EmptyFront(Ups(b, up));
    } else {
      assert (a + b)[0] == a[0] && (a + b)[1..] == a[1..] + b;
      UpsConcat(a[1..], b, up);
      UpsStep(a + b, up);
      UpsStep(a, up);
      Assoc([a[0]], Ups(a[1..], up), Ups(b, up));
    }
  }

  lemma NoUps<T>(a: seq<T>, up: set<T>)
    requires a == []
    ensures Ups(a, up) == []
  {
  }

  /** A ring turned by k places. */
  function Turned<T>(ring: seq<T>, k: nat): seq<T>
    requires k <= |ring|
  {
    ring[k..] + ring[..k]
  }

  predicate FirstUp<T(==)>(ring: seq<T>, up: set<T>, k: nat) {
    k < |ring| && ring[k] in up && forall i :: 0 <= i < k ==> ring[i] !in up
  }

  lemma {:induction false} NoneUp<T>(ring: seq<T>, up: set<T>)
    requires forall i :: 0 <= i < |ring| ==> ring[i] !in up
    ensures Ups(ring, up) == []
  {
    if ring != [] {
      NoneUp(ring[1..], up);
    }
  }

  /** Taking the first that is up, and turning the ring past it, takes the members that are up in turn. */
  lemma PickTurnsUps<T>(ring: seq<T>, up: set<T>, k: nat)
    requires FirstUp(ring, up, k)
    ensures Ups(ring, up) != [] && ring[k] == Ups(ring, up)[0]
    ensures Ups(Turned(ring, k + 1), up) == Turned(Ups(ring, up), 1)
  {
    var a, x, b := ring[..k], [ring[k]], ring[k + 1..];
    NoneUp(a, up);
    assert ring == a + x + b && ring[..k + 1] == a + x;
    UpsConcat(a + x, b, up);
    UpsConcat(a, x, up);
    UpsConcat(b, a + x, up);
    assert Ups(x, up) == x by { assert x[1..] == []; }
    assert Ups(ring, up) == x + Ups(b, up);
  }

  lemma {:induction false} UpsMembers<T>(ring: seq<T>, up: set<T>, x: T)
    ensures x in Ups(ring, up) <==> x in ring && x in up
  {
    if ring != [] {
      UpsMembers(ring[1..], up, x);
      UpsStep(ring, up);
      hide Ups;
      assert ring == [ring[0]] + ring[1..];
    }
  }

  lemma {:induction false} UpsNoDup<T>(ring: seq<T>, up: set<T>)
    requires NoDup(ring)
    ensures NoDup(Ups(ring, up))
  {
    if ring != [] {
      UpsNoDup(ring[1..], up);
      UpsMembers(ring[1..], up, ring[0]);
      UpsStep(ring, up);
      hide Ups;
    }
  }

  /** Each member that is up, once; and nothing else. */
  lemma UpsOnce<T>(ring: seq<T>, up: set<T>)
    requires NoDup(ring)
    ensures NoDup(Ups(ring, up)) && Elements(Ups(ring, up)) == up * Elements(ring)
    ensures |Ups(ring, up)| == |up * Elements(ring)|
  {
    hide Ups;
    UpsNoDup(ring, up);
    NoDupSize(Ups(ring, up));
    forall x ensures x in Elements(Ups(ring, up)) <==> x in up * Elements(ring) {
      UpsMembers(ring, up, x);
    }
    assert Elements(Ups(ring, up)) == up * Elements(ring);
  }

  /** The number of the first member that is up. */
  function FirstUpAt<T(==)>(ring: seq<T>, up: set<T>): (k: nat)
    ensures k <= |ring|
    ensures k < |ring| ==> FirstUp(ring, up, k)
    ensures k == |ring| ==> forall i :: 0 <= i < |ring| ==> ring[i] !in up
  {
    if ring == [] || ring[0] in up then 0 else
      var j := FirstUpAt(ring[1..], up);
      assert forall i :: 0 < i < |ring| ==> ring[i] == ring[1..][i - 1];
      1 + j
  }

  /** What n choices in a row give, while nothing goes up or down. */
  function Picks<T(==)>(ring: seq<T>, up: set<T>, n: nat): seq<T>
    decreases n
  {
    var k := FirstUpAt(ring, up);
    if n == 0 || k == |ring| then [] else [ring[k]] + Picks(Turned(ring, k + 1), up, n - 1)
  }

  lemma {:induction false} PicksInTurn<T>(ring: seq<T>, up: set<T>, n: nat)
    requires n <= |Ups(ring, up)|
    ensures Picks(ring, up, n) == Ups(ring, up)[..n]
    decreases n
  {
    if n > 0 {
      var k := FirstUpAt(ring, up);
      if k == |ring| {
        NoneUp(ring, up);
      }
      assert k < |ring|;
      PickTurnsUps(ring, up, k);
      var ups := Ups(ring, up);
      PicksInTurn(Turned(ring, k + 1), up, n - 1);
      assert Turned(ups, 1)[..n - 1] == ups[1..][..n - 1];
      assert ups[..n] == [ups[0]] + ups[1..][..n - 1];
    }
  }

  /** While m members are up, m choices in a row give each of them exactly once. */
  lemma PicksAreFair<T>(ring: seq<T>, up: set<T>)
    requires NoDup(ring) && up <= Elements(ring)
    ensures var picks := Picks(ring, up, |up|); |picks| == |up| && NoDup(picks) && Elements(picks) == up
  {
    assert up * Elements(ring) == up;
    UpsOnce(ring, up);
    PicksInTurn(ring, up, |up|);
    assert Ups(ring, up)[..|up|] == Ups(ring, up);
  }

  /**
    s is next in turn: the first that is up, behind which the ring starts now. When none is up the ring moves on by one place,
    and it is whichever is first then.
    */
  predicate TookTurn<T(==)>(was: seq<T>, now: seq<T>, up: set<T>, s: T) {
    if exists i :: 0 <= i < |was| && was[i] in up then
      exists k :: 0 <= k < |was| && was[k] == s && s in up && (forall j :: 0 <= j < k ==> was[j] !in up)
                  && now == was[k + 1..] + was[..k + 1]
    else
      was != [] && now == was[1..] + was[..1] && s == now[0]
  }

  function NextRing<T(==)>(was: seq<T>, up: set<T>): seq<T>
    requires was != []
  {
    var k := FirstUpAt(was, up);
    if k < |was| then Turned(was, k + 1) else Turned(was, 1)
  }

  /** All of ss took their turns, one after the other. */
  predicate Turns<T(==)>(was: seq<T>, now: seq<T>, up: set<T>, ss: seq<T>)
    decreases |ss|
  {
    if ss == [] then now == was
    else was != [] && TookTurn(was, NextRing(was, up), up, ss[0]) && Turns(NextRing(was, up), now, up, ss[1..])
  }

  lemma TurnIsNext<T>(was: seq<T>, now: seq<T>, up: set<T>, s: T)
    requires TookTurn(was, now, up, s)
    ensures was != [] && now == NextRing(was, up)
  {
    if exists i :: 0 <= i < |was| && was[i] in up {
      TurnOfFirstUp(was, now, up, s);
    }
  }

  lemma {:induction false} OneMoreTurn<T>(was: seq<T>, mid: seq<T>, now: seq<T>, up: set<T>, ss: seq<T>, s: T)
    requires Turns(was, mid, up, ss) && TookTurn(mid, now, up, s)
    ensures Turns(was, now, up, ss + [s])
    decreases |ss|
  {
    hide TookTurn, NextRing;
    if ss == [] {
      TurnIsNext(was, now, up, s);
      assert [s][1..] == [];
    } else {
      OneMoreTurn(NextRing(was, up), mid, now, up, ss[1..], s);
      assert (ss + [s])[1..] == ss[1..] + [s];
    }
  }

  lemma TurnOfFirstUp<T>(was: seq<T>, now: seq<T>, up: set<T>, s: T)
    requires TookTurn(was, now, up, s) && exists i :: 0 <= i < |was| && was[i] in up
    ensures var k := FirstUpAt(was, up); k < |was| && s == was[k] && now == Turned(was, k + 1)
  {
    var k :| 0 <= k < |was| && was[k] == s && s in up && (forall j :: 0 <= j < k ==> was[j] !in up)
             && now == was[k + 1..] + was[..k + 1];
    assert FirstUp(was, up, k);
  }

  /** While some are up, those whose turn it is are the choices made one by one. */
  lemma {:induction false} TurnsArePicks<T>(was: seq<T>, now: seq<T>, up: set<T>, ss: seq<T>)
    requires Turns(was, now, up, ss) && exists i :: 0 <= i < |was| && was[i] in up
    ensures ss == Picks(was, up, |ss|)
    decreases |ss|
  {
    if ss != [] {
      var next := NextRing(was, up);
      TurnOfFirstUp(was, next, up, ss[0]);
      var k := FirstUpAt(was, up);
      assert next[|next| - 1] == was[k] && was[k] in up;
      TurnsArePicks(next, now, up, ss[1..]);
    }
  }

  /** So m turns in a row are fair when m are up. */
  lemma TurnsAreFair<T>(was: seq<T>, now: seq<T>, up: set<T>, ss: seq<T>)
    requires NoDup(was) && up <= Elements(was) && up != {} && Turns(was, now, up, ss) && |ss| == |up|
    ensures NoDup(ss) && Elements(ss) == up
  {
    var x :| x in up;
    assert x in Elements(was);
    var i :| 0 <= i < |was| && was[i] == x;
    TurnsArePicks(was, now, up, ss);
    PicksAreFair(was, up);
  }
}
