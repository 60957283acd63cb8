/** Requests in flight and waiting, and the nameservers they are assigned to. Searches through a list of domains are left out. */
module DnsRequests {
  import opened Lists
  import opened Pieces
  import opened Rings

  const NO_ID: nat := 0xffff
  const MAX_INFLIGHT_LIMIT: nat := 65000

  class Nameserver {
    var up: bool
    var failedTimes: nat
    var timedout: nat
    var requestsInflight: nat
    var choked: bool
    var probe: Request?

    constructor ()
      ensures up && requestsInflight == 0 && probe == null && !choked && failedTimes == timedout == 0
    {
      up, failedTimes, timedout, requestsInflight, choked, probe := true, 0, 0, 0, false, null;
    }
  }

  class Request {
    var transId: nat
    var ns: Nameserver?
    var txCount: nat
    var reissueCount: nat
    var transmitMe: bool
    var finished: bool      // the handle has no current request any more

    constructor (id: nat, server: Nameserver?)
      ensures transId == id && ns == server && txCount == reissueCount == 0 && !transmitMe && !finished
    {
      transId, ns, txCount, reissueCount, transmitMe, finished := id, server, 0, 0, false, false;
    }
  }

  /** Each request in flight is in the bucket of its id, once, and nothing else is in the buckets. */
  ghost predicate InBucket(heads: seq<seq<Request>>, inflight: set<Request>)
    reads inflight`transId
  {
    && heads != []
    && (forall r :: r in inflight ==> r in heads[r.transId % |heads|])
    && (forall i :: 0 <= i < |heads| ==> BucketOk(heads, inflight, i))
  }

  ghost predicate BucketOk(heads: seq<seq<Request>>, inflight: set<Request>, i: nat)
    requires i < |heads|
    reads inflight`transId
  {
    NoDup(heads[i]) && forall r :: r in heads[i] ==> r in inflight && r.transId % |heads| == i
  }

  /** Requests that wait are not in flight, and have no server yet. */
  ghost predicate WaitOk(waiting: seq<Request>, inflight: set<Request>, pool: set<Request>)
    reads pool`ns
  {
    && inflight <= pool && NoDup(waiting)
    && forall r :: r in waiting ==> r in pool && r !in inflight && r.ns == null
  }

  ghost predicate LiveOk(waiting: seq<Request>, inflight: set<Request>, pool: set<Request>)
    reads pool`finished
  {
    forall r :: r in pool ==> (r.finished <==> r !in inflight && r !in waiting)
  }

  ghost function UpIn(servers: set<Nameserver>): set<Nameserver>
    reads servers`up
  {
    set s | s in servers && s.up
  }

  ghost predicate CountOk(n: nat, heads: seq<seq<Request>>, inflight: set<Request>) {
    n == |inflight| == SumLen(heads)
  }

  ghost predicate IdsOk(inflight: set<Request>)
    reads inflight`transId
  {
    && (forall r :: r in inflight ==> r.transId < NO_ID)
    && (forall r, q :: r in inflight && q in inflight && r != q ==> r.transId != q.transId)
  }

  ghost function AssignedIn(inflight: set<Request>, s: Nameserver): set<Request>
    reads inflight`ns
  {
    set r | r in inflight && r.ns == s
  }

  class DnsBase {
    var heads: seq<seq<Request>>     // the buckets of requests in flight
    var nInflight: nat
    var waiting: seq<Request>
    var nWaiting: nat
    var ring: seq<Nameserver>        // the circular list of servers, from server_head on
    var good: nat
    var maxInflight: nat
    var maxReissues: nat
    var maxRetransmits: nat
    var maxTimeouts: nat
    ghost var inflight: set<Request>
    ghost var pool: set<Request>       // every request there ever was
    ghost var farm: set<Nameserver>

    ghost predicate Listed()
      reads this`heads, this`inflight, inflight`transId
    {
      InBucket(heads, inflight)
    }

    ghost predicate Ids()
      reads this`inflight, inflight`transId
    {
      IdsOk(inflight)
    }

    ghost predicate Waits()
      reads this`waiting, this`inflight, this`pool, pool`ns
    {
      WaitOk(waiting, inflight, pool)
    }

    ghost predicate Counted()
      reads this`nInflight, this`nWaiting, this`inflight, this`waiting, this`heads
    {
      CountOk(nInflight, heads, inflight) && nWaiting == |waiting|
    }

    ghost function AssignedTo(s: Nameserver): set<Request>
      reads this`inflight, inflight`ns
    {
      AssignedIn(inflight, s)
    }

    /** Requests in flight have a server, and each server knows how many. */
    ghost predicate Assigned()
      reads this`inflight, this`farm, inflight`ns, farm`requestsInflight
    {
      && (forall r :: r in inflight ==> r.ns != null && r.ns in farm)
      && (forall s :: s in farm ==> s.requestsInflight == |AssignedTo(s)|)
    }

    ghost function UpSet(): set<Nameserver>
      reads this`farm, farm`up
    {
      UpIn(farm)
    }

    ghost predicate Ringed()
      reads this`ring, this`farm, this`good, farm`up
    {
      NoDup(ring) && Elements(ring) == farm && good == |UpSet()|
    }

    ghost predicate Live()
      reads this`inflight, this`waiting, this`pool, pool`finished
    {
      LiveOk(waiting, inflight, pool)
    }

    /** What a server takes for its probe was a request. */
    ghost predicate Probes()
      reads this`farm, this`pool, farm`probe
    {
      forall s :: s in farm && s.probe != null ==> s.probe in pool
    }

    ghost predicate Valid()
      reads this, pool, inflight, farm
    {
      && Listed() && Ids() && Waits() && Counted() && Assigned() && Ringed() && Live() && Probes()
      && 1 <= maxInflight <= MAX_INFLIGHT_LIMIT
    }

    // ----- transaction ids -----

    /** The request in flight with that id. */
    method FindFromTransId(id: nat) returns (r: Request?)
      requires Listed()
      ensures r == null ==> forall q :: q in inflight ==> q.transId != id
      ensures r != null ==> r in inflight && r.transId == id
    {
      var bucket := heads[id % |heads|];
      assert BucketOk(heads, inflight, id % |heads|);
      for i := 0 to |bucket|
        invariant forall j :: 0 <= j < i ==> bucket[j].transId != id
      {
        if bucket[i].transId == id {
          return bucket[i];
        }
      }
      return null;
    }

    ghost predicate FreeId(id: nat)
      reads this`inflight, inflight`transId
    {
      id < NO_ID && forall q :: q in inflight ==> q.transId != id
    }

    lemma SomeFreeId() returns (id: nat)
      requires |inflight| < NO_ID
      ensures FreeId(id)
    {
      var used := set r | r in inflight :: r.transId;
      ImageSize(inflight, used);
      var all := Below(NO_ID);
      if all <= used {
        SubsetSize(all, used);
      }
      id :| id in all && id !in used;
    }

    lemma {:induction false} ImageSize(rs: set<Request>, ids: set<nat>)
      requires ids == set r | r in rs :: r.transId
      ensures |ids| <= |rs|
    {
      if rs == {} {
        assert ids == {};
      } else {
        var r :| r in rs;
        var fewer := set q | q in rs - {r} :: q.transId;
        ImageSize(rs - {r}, fewer);
        assert ids == fewer + {r.transId};
      }
    }

    function InBuckets(): set<Request>
      reads this`heads
    {
      set i, j | 0 <= i < |heads| && 0 <= j < |heads[i]| :: heads[i][j]
    }

    /** Random bytes; after some number of bad draws comes an id that is free. */
    predicate Drawn(id: nat, badDraws: nat)
      reads this`heads, InBuckets()`transId
    {
      badDraws == 0 ==> id != NO_ID && forall q :: q in InBuckets() ==> q.transId != id
    }

    lemma BucketsInFlight()
      requires Listed()
      ensures InBuckets() == inflight
    {
      forall r | r in InBuckets() ensures r in inflight {
        var i, j :| 0 <= i < |heads| && 0 <= j < |heads[i]| && heads[i][j] == r;
        assert BucketOk(heads, inflight, i);
      }
      forall r | r in inflight ensures r in InBuckets() {
        var b := heads[r.transId % |heads|];
        var j :| 0 <= j < |b| && b[j] == r;
        assert heads[r.transId % |heads|][j] == r;
      }
    }

    /** A free id, however many draws of random bytes it takes. */
    method TransactionIdPick() returns (id: nat)
      requires Listed() && |inflight| < NO_ID
      ensures FreeId(id) && id < 0xffff && forall q :: q in inflight ==> q.transId != id
    {
      var badDraws: nat := *;
      while true
        decreases badDraws
      {
        ghost var free := SomeFreeId();
        BucketsInFlight();
        assert Drawn(free, badDraws);
        var draw: nat :| draw <= NO_ID && Drawn(draw, badDraws);
        assert Drawn(draw, badDraws);
        if draw != NO_ID {
          var r := FindFromTransId(draw);
          if r == null {
            return draw;
          }
        }
        badDraws := badDraws - 1;
      }
    }

    // ----- choosing a server -----

    /** The next server in turn that is up; the next one of all when none is. */
    method NameserverPick() returns (s: Nameserver?)
      requires Ringed()
      modifies this`ring
      ensures Ringed() && Elements(ring) == old(Elements(ring))
      ensures s == null <==> ring == []
      ensures s != null ==> s in farm && TookTurn<Nameserver>(old(ring), ring, UpSet(), s)
      ensures s == null ==> ring == old(ring)
      ensures var k := FirstUpAt(old(ring), UpSet());
        UpSet() != {} ==> k < |old(ring)| && s == old(ring)[k] && ring == Turned(old(ring), k + 1)
      ensures UpSet() == {} && ring != [] ==> ring == Turned(old(ring), 1) && s == ring[0]
      ensures good > 0 || UpSet() != {} ==> s != null && s.up
    {
      hide NoDup, FirstUpAt, FirstUp, Turned, NoneUpTo, Elements, TookTurn;
      EmptyRing(ring, UpSet());
      if |ring| == 0 {
        return null;
      }
      if good == 0 {
        TurnedRing(ring, 1);
        assert UpSet() == {};
        NoneUpTurn<Nameserver>(ring, UpSet());
        ring := Turned(ring, 1);
        return ring[0];
      }
      ghost var was, k := ring, 0;
      TurnedNot(ring, UpSet());
      while true
        invariant k < |was| == |ring| && ring == Turned(was, k) && NoneUpTo(was, UpSet(), k)
        decreases |was| - k
      {
        TurnedTwice(was, k);
        TurnedRing(was, k + 1);
        OneNotUp(was, UpSet(), k);
        if ring[0].up {
          s := ring[0];
          FirstUpIs(was, UpSet(), k);
          FirstUpTurn(was, UpSet(), k);
          ring := Turned(ring, 1);
          return;
        }
        ring := Turned(ring, 1);
        k := k + 1;
        if k == |was| {
          AllDown(was, UpSet());
        }
      }
    }

    /** n servers in a row. */
    method PickInTurn(n: nat) returns (picked: seq<Nameserver>)
      requires Ringed() && UpSet() != {}
      modifies this`ring
      ensures Ringed() && picked == Picks(old(ring), UpSet(), n)
    {
      hide NoDup, FirstUp, FirstUpAt, Picks, Turned, Elements;
      picked := [];
      EmptyFront(Picks(ring, UpSet(), n));
      for i := 0 to n
        invariant Ringed() && Elements(ring) == old(Elements(ring))
        invariant picked + Picks(ring, UpSet(), n - i) == Picks(old(ring), UpSet(), n)
      {
        ghost var was := ring;
        var s := NameserverPick();
        PicksStep(was, UpSet(), n - i);
        Assoc(picked, [s], Picks(ring, UpSet(), n - i - 1));
        picked := picked + [s];
      }
      PicksNone(ring, UpSet());
      assert picked + [] == picked;
    }

    // ----- servers failing, and sending -----

    /** No server came up. */
    twostate predicate NoneCameUp()
      reads this`farm, farm`up
    {
      farm == old(farm) && UpSet() <= old(UpSet())
    }

    /** Assigns a request in flight to another server, if there is one. */
    method SwapNs(req: Request, s: Nameserver?)
      requires Assigned() && Waits() && req in inflight && (s != null ==> s in farm)
      modifies req`ns, farm`requestsInflight
      ensures Assigned() && Waits() && req.ns == if s == null then old(req.ns) else s
      ensures forall r :: r in pool && r != req ==> r.ns == old(r.ns)
    {
      if s != null && req.ns != s {
        ghost var from, to := AssignedTo(req.ns), AssignedTo(s);
        assert req in from && req.ns.requestsInflight == |from| && s.requestsInflight == |to| && req !in to;
        label before:
        ghost var was := req.ns;
        req.ns.requestsInflight := req.ns.requestsInflight - 1;
        s.requestsInflight := s.requestsInflight + 1;
        req.ns := s;
        assert AssignedTo(was) == from - {req} && AssignedTo(s) == to + {req};
        assert forall t :: t in farm && t != was && t != s ==> AssignedTo(t) == old@before(AssignedTo(t));
      }
    }

    /** request_swap_ns, to the next server in turn. */
    method PickAndSwap(req: Request) returns (s: Nameserver)
      requires Valid() && req in inflight
      modifies this`ring, req`ns, farm`requestsInflight
      ensures Valid() && req.ns == s && Elements(ring) == old(Elements(ring))
      ensures s in farm && TookTurn(old(ring), ring, UpSet(), s) && (good > 0 || UpSet() != {} ==> s.up)
      ensures forall r :: r in pool && r != req ==> r.ns == old(r.ns)
    {
      hide Listed, Ids, Live, Counted, Probes, Ringed, Assigned, Waits, UpSet, Elements, NoDup, FirstUpAt, Turned, TookTurn;
      RingNotEmpty(req);
      var picked := NameserverPick();
      s := picked;
      SwapNs(req, s);
    }

    lemma RingNotEmpty(req: Request)
      requires Assigned() && Ringed() && req in inflight
      ensures req.ns != null && req.ns in farm && ring != []
    {
      assert req.ns in Elements(ring);
    }

    /** The servers of these requests are those they had. */
    twostate predicate SameServers(rs: set<Request>)
      reads rs`ns
    {
      forall r :: r in rs ==> r.ns == old(r.ns)
    }

    /**
     * Marks a server as down, and finds other servers for what was not yet sent to it. Ghosts: which requests these are, and
     * whose turn it was for each.
     */
    method NameserverFailed(s: Nameserver) returns (ghost moved: seq<Request>, ghost to: seq<Nameserver>)
      requires Valid() && s in farm
      modifies this`ring, this`good, s`up, s`failedTimes, inflight`ns, farm`requestsInflight
      ensures Valid() && !s.up && Elements(ring) == old(Elements(ring))
      ensures NoneCameUp() && s.failedTimes == (if old(s.up) then 1 else old(s.failedTimes))
      ensures UpSet() == old(UpSet()) - {s} && (good > 0 <==> UpSet() != {})
      ensures |to| == |moved| && NoDup(moved) && Turns(old(ring), ring, UpSet(), to)
      ensures forall i :: 0 <= i < |moved| ==> moved[i] in inflight && moved[i].ns == to[i]
      ensures forall r :: r in inflight && r !in moved ==> r.ns == old(r.ns)
      ensures if old(s.up) && good > 0 then forall r :: r in inflight ==> (r in moved <==> r.txCount == 0 && old(r.ns) == s)
              else moved == []
      ensures old(s.up) && good > 0 ==> NothingUnsent(inflight, s)
    {
      hide Listed, Ids, Waits, Counted, Live, Assigned, NoDup, Elements, Ringed, NothingUnsent, Turns, UpIn;
      moved, to := [], [];
      NothingTurned();
      GoodIsUp();
      if !s.up {
        DownNotUp(s);
        return;
      }
      MarkDown(s);
      s.failedTimes := 1;
      NothingTurned();
      GoodIsUp();
      if good == 0 {
        return;
      }
      moved, to := MoveAllUnsent(s);
    }

    /** Finds other servers for all requests that were not yet sent to s. */
    method MoveAllUnsent(s: Nameserver) returns (ghost moved: seq<Request>, ghost to: seq<Nameserver>)
      requires Valid() && s in farm && !s.up && good > 0
      modifies this`ring, inflight`ns, farm`requestsInflight
      ensures Valid() && Elements(ring) == old(Elements(ring)) && NothingUnsent(inflight, s)
      ensures |to| == |moved| && NoDup(moved) && Turns(old(ring), ring, UpSet(), to)
      ensures forall i :: 0 <= i < |moved| ==> moved[i] in inflight && moved[i].ns == to[i]
      ensures forall r :: r in inflight && r !in moved ==> r.ns == old(r.ns)
      ensures forall r :: r in inflight ==> (r in moved <==> r.txCount == 0 && old(r.ns) == s)
    {
      hide Listed, Ids, Waits, Counted, Live, Assigned, NoDup, Elements, Ringed, NothingUnsent, Covered, Moving, Turns, UpIn;
      moved, to := [], [];
      ghost var done: set<Request>, ring0, was := {}, ring, map r | r in inflight :: r.ns;
      NothingCovered(s);
      NothingMoved(s, was);
      for i := 0 to |heads|
        invariant Valid() && Elements(ring) == old(Elements(ring))
        invariant done <= inflight && NothingUnsent(done, s) && Covered(done, i, 0) && Moving(s, was, done, ring0, moved, to)
      {
        var j := 0;
        while j < |heads[i]|
          invariant Valid() && Elements(ring) == old(Elements(ring))
          invariant j <= |heads[i]| && done <= inflight && NothingUnsent(done, s) && Covered(done, i, j)
          invariant Moving(s, was, done, ring0, moved, to)
        {
          InFlight(i, j);
          moved, to := MoveUnsent(heads[i][j], s, done, was, ring0, moved, to);
          CoverOne(done, i, j);
          done := done + {heads[i][j]};
          j := j + 1;
        }
        CoverBucket(done, i);
      }
      AllCovered(done);
      MovedAll(s, was, ring0, moved, to);
    }

    lemma GoodIsUp()
      requires Ringed()
      ensures good > 0 <==> UpSet() != {}
    {
    }

    lemma NothingTurned()
      ensures Turns(ring, ring, UpSet(), []) && NoDup<Request>([])
    {
    }

    lemma DownNotUp(s: Nameserver)
      requires !s.up
      ensures s !in UpSet()
    {
    }

    lemma UpIsUp(s: Nameserver)
      requires s in farm
      ensures s.up <==> s in UpSet()
    {
    }

    /** Of the requests in `done`, those that were not yet sent to s were moved, and each took the server whose turn it was. */
    ghost predicate Moving(s: Nameserver, was: map<Request, Nameserver?>, done: set<Request>, ring0: seq<Nameserver>,
                           moved: seq<Request>, to: seq<Nameserver>)
      reads this`inflight, this`ring, this`farm, farm`up, inflight`ns, inflight`txCount
    {
      && |to| == |moved| && NoDup(moved) && Turns(ring0, ring, UpSet(), to) && was.Keys == inflight
      && (forall i :: 0 <= i < |moved| ==> moved[i] in inflight && moved[i] in done && moved[i].ns == to[i] && to[i] in UpSet())
      && (forall r :: r in inflight && r !in moved ==> r.ns == was[r])
      && (forall r :: r in inflight && r in done ==> (r in moved <==> r.txCount == 0 && was[r] == s))
    }

    lemma NothingMoved(s: Nameserver, was: map<Request, Nameserver?>)
      requires was == map r | r in inflight :: r.ns
      ensures Moving(s, was, {}, ring, [], [])
    {
    }

    lemma MovedAll(s: Nameserver, was: map<Request, Nameserver?>, ring0: seq<Nameserver>, moved: seq<Request>, to: seq<Nameserver>)
      requires Moving(s, was, inflight, ring0, moved, to)
      ensures |to| == |moved| && NoDup(moved) && Turns(ring0, ring, UpSet(), to)
      ensures forall i :: 0 <= i < |moved| ==> moved[i] in inflight && moved[i].ns == to[i]
      ensures forall r :: r in inflight && r !in moved ==> r in was && r.ns == was[r]
      ensures forall r :: r in inflight ==> r in was && (r in moved <==> r.txCount == 0 && was[r] == s)
    {
    }

    /** No request of these, if it was never sent, is assigned to s. */
    static ghost predicate NothingUnsent(rs: set<Request>, s: Nameserver)
      reads rs`txCount, rs`ns
    {
      forall r :: r in rs && r.txCount == 0 ==> r.ns != s
    }

    /** All requests of the first i buckets are in `done`, and the first j of the next one. */
    ghost predicate Covered(done: set<Request>, i: nat, j: nat)
      reads this`heads
    {
      && (forall a, b :: 0 <= a < i && a < |heads| && 0 <= b < |heads[a]| ==> heads[a][b] in done)
      && (i < |heads| ==> forall b :: 0 <= b < j && b < |heads[i]| ==> heads[i][b] in done)
    }

    lemma NothingCovered(s: Nameserver)
      ensures Covered({}, 0, 0) && NothingUnsent({}, s)
    {
    }

    lemma CoverOne(done: set<Request>, i: nat, j: nat)
      requires Covered(done, i, j) && i < |heads| && j < |heads[i]|
      ensures Covered(done + {heads[i][j]}, i, j + 1)
    {
    }

    lemma CoverBucket(done: set<Request>, i: nat)
      requires i < |heads| && Covered(done, i, |heads[i]|)
      ensures Covered(done, i + 1, 0)
    {
    }

    lemma AllCovered(done: set<Request>)
      requires Listed() && done <= inflight && Covered(done, |heads|, 0)
      ensures done == inflight
    {
      forall r | r in inflight
        ensures r in done
      {
        var b :| 0 <= b < |heads[r.transId % |heads|]| && heads[r.transId % |heads|][b] == r;
      }
    }

    /** Finds another server for a request that was not yet sent to s. */
    method MoveUnsent(req: Request, s: Nameserver, ghost done: set<Request>, ghost was: map<Request, Nameserver?>,
                      ghost ring0: seq<Nameserver>, ghost moved: seq<Request>, ghost to: seq<Nameserver>)
      returns (ghost moved': seq<Request>, ghost to': seq<Nameserver>)
      requires Valid() && req in inflight && !s.up && good > 0 && done <= inflight && NothingUnsent(done, s)
      requires Moving(s, was, done, ring0, moved, to)
      modifies this`ring, inflight`ns, farm`requestsInflight
      ensures Valid() && Elements(ring) == old(Elements(ring))
      ensures NothingUnsent(done + {req}, s) && Moving(s, was, done + {req}, ring0, moved', to')
    {
      hide Listed, Ids, Live, Counted, Probes, Ringed, Assigned, Waits, Elements, UpIn, Turns, TookTurn;
      PoolHasAll();
      moved', to' := moved, to;
      if req.txCount == 0 && req.ns == s {
        DownNotUp(s);
        ghost var ring1 := ring;
        var server := PickAndSwap(req);
        moved', to' := moved + [req], to + [server];
        OneMoreTurn(ring0, ring1, ring, UpSet(), to, server);
        UpIsUp(server);
      } else {
        DownNotUp(s);
      }
    }

    lemma InFlight(i: nat, j: nat)
      requires Listed() && i < |heads| && j < |heads[i]|
      ensures heads[i][j] in inflight
    {
      assert BucketOk(heads, inflight, i);
    }

    method MarkDown(s: Nameserver)
      requires Ringed() && s in farm && s.up
      modifies this`good, s`up
      ensures Ringed() && !s.up && UpSet() == old(UpSet()) - {s}
    {
      hide NoDup, Elements;
      ghost var ups := UpSet();
      assert s in ups;
      good := good - 1;
      s.up := false;
      assert UpSet() == ups - {s};
    }

    /** sendto: 0 when all was sent, 1 for a failure that will pass, 2 for another one. */
    method SendTo(s: Nameserver) returns (r: nat)
      ensures r <= 2
    {
      r :| r <= 2;
    }

    method TransmitTo(req: Request, s: Nameserver) returns (r: nat)
      requires Valid() && req in inflight && s == req.ns
      modifies this`ring, this`good, farm`up, farm`failedTimes, inflight`ns, farm`requestsInflight
      ensures Valid() && r <= 2 && Elements(ring) == old(Elements(ring))
      ensures NoneCameUp() && if r == 2 then !s.up && UpSet() == old(UpSet()) - {s} else UpSet() == old(UpSet())
      ensures UpSet() == old(UpSet()) ==> ring == old(ring) && SameServers(inflight)
    {
      hide Listed, Ids, Waits, Counted, Assigned, Live, Ringed, Probes, NoDup, Elements, UpIn;
      HasServer(req);
      r := SendTo(s);
      if r == 2 {
        UpIsUp(s);
        ghost var moved, to := NameserverFailed(s);
      }
    }

    /** Tries to send a request in flight. */
    method Transmit(req: Request) returns (r: nat)
      requires Valid() && req in inflight
      modifies this`ring, this`good, farm`up, farm`failedTimes, farm`choked, farm`requestsInflight
      modifies inflight`ns, req`txCount, req`transmitMe
      ensures Valid() && Elements(ring) == old(Elements(ring)) && r <= 1 && old(req.ns) != null
      ensures req.txCount == old(req.txCount) + if req.transmitMe then 0 else 1
      ensures NoneCameUp()
      ensures old(req.ns).choked <==> old(req.ns.choked) || req.transmitMe
      ensures forall t :: t in farm && t != old(req.ns) ==> t.choked == old(t.choked)
      ensures old(req.ns.choked) ==> req.transmitMe
      ensures req.transmitMe || r == 0 ==> UpSet() == old(UpSet())
      ensures if req.transmitMe then r == 1 else r == 1 ==> !old(req.ns).up
      ensures UpSet() == old(UpSet()) ==> ring == old(ring) && SameServers(inflight)
    {
      hide Listed, Ids, Waits, Counted, Assigned, Live, Ringed, Probes, NoDup, Elements, UpIn;
      HasServer(req);
      req.transmitMe := true;
      if req.ns.choked {
        return 1;
      }
      var outcome := TransmitTo(req, req.ns);
      if outcome == 1 {
        HasServer(req);
        req.ns.choked := true;
        return 1;
      }
      req.txCount := req.txCount + 1;
      req.transmitMe := false;
      r := if outcome == 2 then 1 else 0;
    }

    /** Sends every request in flight that still has to be sent. */
    method TransmitAll() returns (tried: bool)
      requires Valid()
      modifies this`ring, this`good, farm`up, farm`failedTimes, farm`choked, farm`requestsInflight
      modifies inflight`ns, inflight`txCount, inflight`transmitMe
      ensures Valid() && Elements(ring) == old(Elements(ring))
      ensures NoneCameUp() && SentOnce()
      ensures tried <==> exists r :: r in inflight && old(r.transmitMe)
      ensures UpSet() == old(UpSet()) ==> ring == old(ring) && SameServers(inflight) && LeftIsChoked(inflight)
    {
      hide Listed, Ids, Waits, Counted, Live, Assigned, Ringed, NoDup, Elements, Probes, Covered, UpIn, LeftIsChoked, Sending, Quiet;
      ghost var marked := set r | r in inflight && r.transmitMe;
      ghost var counts, servers := map r | r in inflight :: r.txCount, map r | r in inflight :: r.ns;
      ghost var ring0, up0 := ring, UpSet();
      NothingTried(marked, counts, servers);
      tried := TransmitBuckets(marked, counts, up0, ring0, servers);
      SentAll(marked, counts, up0, ring0, servers);
    }

    method TransmitBuckets(ghost marked: set<Request>, ghost counts: map<Request, nat>, ghost up0: set<Nameserver>,
                           ghost ring0: seq<Nameserver>, ghost servers: map<Request, Nameserver?>)
      returns (tried: bool)
      requires Valid() && Covered({}, 0, 0) && Sending(marked, counts, {}) && Quiet(up0, ring0, servers, {})
      modifies this`ring, this`good, farm`up, farm`failedTimes, farm`choked, farm`requestsInflight
      modifies inflight`ns, inflight`txCount, inflight`transmitMe
      ensures Valid() && Elements(ring) == old(Elements(ring)) && NoneCameUp() && (tried <==> marked * inflight != {})
      ensures Sending(marked, counts, inflight) && Quiet(up0, ring0, servers, inflight)
    {
      hide Listed, Ids, Waits, Counted, Live, Assigned, Ringed, NoDup, Elements, Probes, Covered, UpIn, LeftIsChoked, Sending, Quiet;
      tried := false;
      ghost var done: set<Request> := {};
      for i := 0 to |heads|
        invariant Valid() && Elements(ring) == old(Elements(ring)) && NoneCameUp()
        invariant done <= inflight && Covered(done, i, 0) && (tried <==> marked * done != {})
        invariant Sending(marked, counts, done) && Quiet(up0, ring0, servers, done)
      {
        var j := 0;
        while j < |heads[i]|
          invariant Valid() && Elements(ring) == old(Elements(ring)) && NoneCameUp()
          invariant j <= |heads[i]| && done <= inflight && Covered(done, i, j) && (tried <==> marked * done != {})
          invariant Sending(marked, counts, done) && Quiet(up0, ring0, servers, done)
        {
          InFlight(i, j);
          tried := TransmitMarked(heads[i][j], done, tried, marked, counts, up0, ring0, servers);
          CoverOne(done, i, j);
          done := done + {heads[i][j]};
          j := j + 1;
        }
        CoverBucket(done, i);
      }
      AllCovered(done);
    }

    /** What is still to be sent waits for a server that takes no more now. */
    ghost predicate LeftIsChoked(rs: set<Request>)
      reads rs`transmitMe, rs`ns, set r | r in rs && r.ns != null :: r.ns
    {
      forall r :: r in rs && r.transmitMe && r.ns != null ==> r.ns.choked
    }

    lemma InFarm()
      requires Valid()
      ensures forall r :: r in inflight ==> r.ns != null && r.ns in farm
    {
    }

    /** Of the requests in `done`, those that were marked were sent, or are still marked; the others are as they were. */
    ghost predicate Sending(marked: set<Request>, counts: map<Request, nat>, done: set<Request>)
      reads this`inflight, inflight`txCount, inflight`transmitMe
    {
      && counts.Keys == inflight && marked <= inflight
      && (forall r :: r in inflight ==>
          && r.txCount == counts[r] + (if r in marked && !r.transmitMe then 1 else 0) && (r.transmitMe ==> r in marked))
      && (forall r :: r in inflight && r !in done ==> (r.transmitMe <==> r in marked))
    }

    /** As long as no server was marked down no request got another one, and what is left waits for one that takes no more. */
    ghost predicate Quiet(up0: set<Nameserver>, ring0: seq<Nameserver>, servers: map<Request, Nameserver?>, done: set<Request>)
      reads this`inflight, this`ring, this`farm, farm`up, inflight`ns, done`ns, done`transmitMe, set r | r in done && r.ns != null :: r.ns
    {
      && servers.Keys == inflight && UpSet() <= up0
      && (UpSet() == up0 ==> ring == ring0 && LeftIsChoked(done) && forall r :: r in inflight ==> r.ns == servers[r])
    }

    lemma NothingTried(marked: set<Request>, counts: map<Request, nat>, servers: map<Request, Nameserver?>)
      requires marked == set r | r in inflight && r.transmitMe
      requires counts == map r | r in inflight :: r.txCount
      requires servers == map r | r in inflight :: r.ns
      ensures Covered({}, 0, 0) && Sending(marked, counts, {}) && Quiet(UpSet(), ring, servers, {})
    {
    }

    lemma SentAll(marked: set<Request>, counts: map<Request, nat>, up0: set<Nameserver>, ring0: seq<Nameserver>,
                  servers: map<Request, Nameserver?>)
      requires Sending(marked, counts, inflight) && Quiet(up0, ring0, servers, inflight)
      ensures forall r :: r in inflight ==>
        && r in counts && r.txCount == counts[r] + (if r in marked && !r.transmitMe then 1 else 0)
        && (r.transmitMe ==> r in marked)
      ensures UpSet() == up0 ==>
        ring == ring0 && LeftIsChoked(inflight) && forall r :: r in inflight ==> r in servers && r.ns == servers[r]
      ensures marked * inflight == marked
    {
    }

    method TransmitMarked(req: Request, ghost done: set<Request>, tried: bool, ghost marked: set<Request>,
                          ghost counts: map<Request, nat>, ghost up0: set<Nameserver>, ghost ring0: seq<Nameserver>,
                          ghost servers: map<Request, Nameserver?>)
      returns (tried': bool)
      requires Valid() && req in inflight && done <= inflight && (tried <==> marked * done != {})
      requires Sending(marked, counts, done) && Quiet(up0, ring0, servers, done)
      modifies this`ring, this`good, farm`up, farm`failedTimes, farm`choked, farm`requestsInflight
      modifies inflight`ns, req`txCount, req`transmitMe
      ensures Valid() && Elements(ring) == old(Elements(ring)) && NoneCameUp()
      ensures tried' <==> marked * (done + {req}) != {}
      ensures Sending(marked, counts, done + {req}) && Quiet(up0, ring0, servers, done + {req})
    {
      hide Valid, NoDup, Elements, UpIn;
      tried' := tried;
      if req.transmitMe {
        tried' := true;
        assert req in marked * (done + {req});
        ServerOf(req);
        InFarm();
        var _ := Transmit(req);
      } else {
        assert marked * (done + {req}) == marked * done;
      }
    }

    /** Each request that was to be sent was, and counts that, or is still to be; the others are as they were. */
    twostate predicate SentOnce()
      reads this`inflight, inflight`txCount, inflight`transmitMe
    {
      inflight == old(inflight) && forall r :: r in inflight ==>
        && r.txCount == old(r.txCount) + (if old(r.transmitMe) && !r.transmitMe then 1 else 0)
        && (r.transmitMe ==> old(r.transmitMe))
    }

    // ----- into flight, and out of it -----

    lemma HasServer(req: Request)
      requires Assigned() && req in inflight
      ensures req.ns != null && req.ns in farm
    {
    }

    method CountIn(s: Nameserver, ghost req: Request)
      requires Assigned() && req !in inflight && req.ns == s && s in farm
      modifies this`inflight, s`requestsInflight
      ensures Assigned() && inflight == old(inflight) + {req}
    {
      forall t | t in farm ensures |AssignedIn(inflight + {req}, t)| == t.requestsInflight + if t == s then 1 else 0 {
        AssignedPlus(inflight, req, t);
      }
      hide AssignedIn;
      s.requestsInflight := s.requestsInflight + 1;
      inflight := inflight + {req};
    }

    method CountOut(s: Nameserver, ghost req: Request)
      requires Assigned() && req in inflight && req.ns == s && s in farm
      modifies this`inflight, s`requestsInflight
      ensures Assigned() && inflight == old(inflight) - {req}
    {
      ghost var fewer := inflight - {req};
      assert inflight == fewer + {req};
      forall t | t in farm ensures |AssignedIn(fewer, t)| == t.requestsInflight - if t == s then 1 else 0 {
        AssignedPlus(fewer, req, t);
      }
      hide AssignedIn;
      s.requestsInflight := s.requestsInflight - 1;
      inflight := fewer;
    }

    /** Puts a request in the bucket of its id, and counts it. */
    method EnterFlight(req: Request)
      requires Listed() && Ids() && Counted() && Assigned()
      requires req !in inflight && FreeId(req.transId) && req.ns != null && req.ns in farm
      modifies this`heads, this`nInflight, this`inflight, req.ns`requestsInflight
      ensures Listed() && Ids() && Counted() && Assigned() && inflight == old(inflight) + {req}
      ensures nInflight == old(nInflight) + 1 && |heads| == |old(heads)| > 0
      ensures var b := req.transId % |heads|; heads == old(heads)[b := old(heads)[b] + [req]]
    {
      hide Assigned, InBucket, IdsOk, NoDup, CountOk;
      BucketInsert(heads, inflight, req);
      IdsInsert(inflight, req);
      var b := req.transId % |heads|;
      CountInsert(nInflight, heads, inflight, b, req);
      heads := heads[b := heads[b] + [req]];
      nInflight := nInflight + 1;
      CountIn(req.ns, req);
    }

    /** Takes a request out of its bucket, and no longer counts it. */
    method LeaveFlight(req: Request)
      requires Listed() && Ids() && Counted() && Assigned() && req in inflight && req.ns != null && req.ns in farm
      modifies this`heads, this`nInflight, this`inflight, req.ns`requestsInflight
      ensures Listed() && Ids() && Counted() && Assigned() && inflight == old(inflight) - {req} && |heads| == |old(heads)| > 0
      ensures var b := req.transId % |heads|; req in old(heads)[b] && heads == old(heads)[b := Without(old(heads)[b], req)]
    {
      hide Assigned, InBucket, IdsOk, NoDup, Without, CountOk;
      BucketRemove(heads, inflight, req);
      IdsRemove(inflight, req);
      var b := req.transId % |heads|;
      CountRemove(nInflight, heads, inflight, b, req);
      heads := heads[b := Without(heads[b], req)];
      nInflight := nInflight - 1;
      CountOut(req.ns, req);
    }

    // ----- the queue of waiting requests -----

    /** A request that no longer waits gets its server. */
    method SetServer(req: Request, s: Nameserver)
      requires Waits() && req in pool && req !in waiting
      modifies req`ns
      ensures req.ns == s && WaitOk(waiting, inflight + {req}, pool)
    {
      hide NoDup;
      req.ns := s;
    }

    /** The first request that waits goes into flight, to server s. */
    method Promote(req: Request, s: Nameserver)
      requires Valid() && waiting != [] && req == waiting[0] && nInflight < maxInflight && s in farm
      modifies this`waiting, this`nWaiting, this`heads, this`nInflight, this`inflight
      modifies req`ns, req`transId, s`requestsInflight
      ensures Valid() && req in inflight && req.ns == s
      ensures waiting == old(waiting)[1..] && inflight == old(inflight) + {req} && nWaiting == old(nWaiting) - 1
    {
      hide Listed, Ids, Assigned, InBucket, IdsOk, NoDup, CountOk, WaitOk, LiveOk, Ringed, FreeId, Elements;
      FewInFlight();
      Dequeue(req);
      SetServer(req, s);
      SetId(req);
      EnterFlight(req);
    }

    /** evdns_request_remove, from the head of the waiting list. */
    method Dequeue(req: Request)
      requires Waits() && Live() && waiting != [] && req == waiting[0] && nWaiting == |waiting|
      modifies this`waiting, this`nWaiting
      ensures Waits() && LiveOk(waiting, inflight + {req}, pool) && nWaiting == |waiting|
      ensures waiting == old(waiting)[1..] && req in pool && req !in waiting && req !in inflight
    {
      hide NoDup, WaitOk, LiveOk;
      FirstWaiter(waiting, inflight, pool);
      LivePromoted(waiting, inflight, pool);
      waiting := waiting[1..];
      nWaiting := nWaiting - 1;
    }

    method SetId(req: Request)
      requires Listed() && Ids() && |inflight| < NO_ID && req !in inflight
      modifies req`transId
      ensures Listed() && Ids() && FreeId(req.transId)
    {
      hide InBucket, IdsOk;
      req.transId := TransactionIdPick();
    }

    lemma FewInFlight()
      requires Counted() && nInflight < maxInflight <= MAX_INFLIGHT_LIMIT
      ensures |inflight| < NO_ID
    {
    }

    // ----- finishing, and filling the space -----

    /** All requests there are. */
    ghost function Members(): set<Request>
      reads this`inflight, this`waiting
    {
      inflight + Elements(waiting)
    }

    /** No request waits that could be in flight. */
    ghost predicate Busy()
      reads this`waiting, this`nInflight, this`maxInflight, this`ring
    {
      waiting == [] || nInflight >= maxInflight || ring == []
    }

    /**
     * evdns_requests_pump_waiting_queue: the first k requests that wait go into flight, in order. Ghosts: k, and whose turn it
     * was for each of them.
     */
    method Pump() returns (ghost k: nat, ghost to: seq<Nameserver>)
      requires Valid()
      modifies this`ring, this`good, this`waiting, this`nWaiting, this`heads, this`nInflight, this`inflight
      modifies pool`ns, pool`transId, pool`txCount, pool`transmitMe
      modifies farm`up, farm`failedTimes, farm`choked, farm`requestsInflight
      ensures Valid() && Busy() && Elements(ring) == old(Elements(ring)) && NoneCameUp()
      ensures Members() == old(Members())
      ensures k <= |old(waiting)| && waiting == old(waiting)[k..] && inflight == old(inflight) + Elements(old(waiting)[..k])
      ensures |to| == k && (k == 0 ==> UpSet() == old(UpSet()))
      ensures UpSet() == old(UpSet()) ==>
        && Turns(old(ring), ring, UpSet(), to) && SameServers(old(inflight))
        && forall i :: 0 <= i < k ==> old(waiting)[i].ns == to[i]
    {
      hide Valid, NoDup, UpIn, Pumping, Elements, Turns;
      ghost var waiting0, inflight0, ring0, up0, servers := waiting, inflight, ring, UpSet(), map r | r in inflight :: r.ns;
      NothingPumped(servers);
      k, to := PumpOn(waiting0, inflight0, ring0, up0, servers);
      PumpedAll(waiting0, inflight0, ring0, up0, servers, k, to);
      ElementsSplit(waiting0, k);
    }

    method PumpOn(ghost waiting0: seq<Request>, ghost inflight0: set<Request>, ghost ring0: seq<Nameserver>,
                  ghost up0: set<Nameserver>, ghost servers: map<Request, Nameserver?>)
      returns (ghost k: nat, ghost to: seq<Nameserver>)
      requires Valid() && Pumping(waiting0, inflight0, ring0, up0, servers, 0, [], ring)
      modifies this`ring, this`good, this`waiting, this`nWaiting, this`heads, this`nInflight, this`inflight
      modifies pool`ns, pool`transId, pool`txCount, pool`transmitMe
      modifies farm`up, farm`failedTimes, farm`choked, farm`requestsInflight
      ensures Valid() && Busy() && Elements(ring) == old(Elements(ring)) && NoneCameUp()
      ensures Pumping(waiting0, inflight0, ring0, up0, servers, k, to, ring)
    {
      hide Assigned, Listed, Ids, Live, Probes, Waits, CountOk, NoDup, UpIn, Pumping, Elements, Ringed, TookTurn;
      k, to := 0, [];
      while nInflight < maxInflight && nWaiting > 0
        invariant Valid() && Elements(ring) == old(Elements(ring)) && NoneCameUp()
        invariant Pumping(waiting0, inflight0, ring0, up0, servers, k, to, ring)
        decreases nWaiting
      {
        ghost var ring1 := ring;
        var req := waiting[0];
        var s := NameserverPick();
        if s == null {
          break;
        }
        PumpNext(req, s, waiting0, inflight0, ring0, up0, servers, k, to, ring1);
        k, to := k + 1, to + [s];
      }
    }

    /** The first k of those that waited are in flight; as long as no server was marked down each has the one whose turn it was. */
    ghost predicate Pumping(waiting0: seq<Request>, inflight0: set<Request>, ring0: seq<Nameserver>, up0: set<Nameserver>,
                            servers: map<Request, Nameserver?>, k: nat, to: seq<Nameserver>, now: seq<Nameserver>)
      reads this`waiting, this`inflight, this`farm, farm`up, this`pool, pool`ns
    {
      && inflight0 <= pool && (forall r :: r in waiting0 ==> r in pool)
      && k <= |waiting0| && waiting == waiting0[k..] && inflight == inflight0 + Elements(waiting0[..k]) && |to| == k
      && UpSet() <= up0 && (k == 0 ==> UpSet() == up0) && servers.Keys == inflight0
      && (UpSet() == up0 ==>
          && Turns(ring0, now, UpSet(), to)
          && (forall r :: r in inflight0 ==> r.ns == servers[r])
          && forall i :: 0 <= i < k ==> waiting0[i].ns == to[i])
    }

    lemma NothingPumped(servers: map<Request, Nameserver?>)
      requires Valid() && servers == map r | r in inflight :: r.ns
      ensures Pumping(waiting, inflight, ring, UpSet(), servers, 0, [], ring)
    {
      assert waiting[..0] == [];
    }

    lemma PumpedAll(waiting0: seq<Request>, inflight0: set<Request>, ring0: seq<Nameserver>, up0: set<Nameserver>,
                    servers: map<Request, Nameserver?>, k: nat, to: seq<Nameserver>)
      requires Pumping(waiting0, inflight0, ring0, up0, servers, k, to, ring)
      ensures k <= |waiting0| && waiting == waiting0[k..] && inflight == inflight0 + Elements(waiting0[..k]) && |to| == k
      ensures k == 0 ==> UpSet() == up0
      ensures UpSet() == up0 ==>
        && Turns(ring0, ring, UpSet(), to)
        && (forall r :: r in inflight0 ==> r in servers && r.ns == servers[r])
        && forall i :: 0 <= i < k ==> waiting0[i].ns == to[i]
    {
    }

    method PumpNext(req: Request, s: Nameserver, ghost waiting0: seq<Request>, ghost inflight0: set<Request>,
                    ghost ring0: seq<Nameserver>, ghost up0: set<Nameserver>, ghost servers: map<Request, Nameserver?>,
                    ghost k: nat, ghost to: seq<Nameserver>, ghost ring1: seq<Nameserver>)
      requires Valid() && waiting != [] && req == waiting[0] && nInflight < maxInflight && s in farm
      requires Pumping(waiting0, inflight0, ring0, up0, servers, k, to, ring1) && TookTurn(ring1, ring, UpSet(), s)
      modifies this`ring, this`good, this`waiting, this`nWaiting, this`heads, this`nInflight, this`inflight
      modifies pool`ns, pool`transId, pool`txCount, pool`transmitMe
      modifies farm`up, farm`failedTimes, farm`choked, farm`requestsInflight
      ensures Valid() && Elements(ring) == old(Elements(ring)) && NoneCameUp() && nWaiting == old(nWaiting) - 1
      ensures Pumping(waiting0, inflight0, ring0, up0, servers, k + 1, to + [s], ring)
    {
      hide Assigned, Listed, Ids, Live, Probes, Waits, CountOk, NoDup, UpIn, Ringed, TookTurn, Turns;
      WaitersInPool();
      ghost var now, up := ring, UpSet();
      assert forall i :: 0 <= i < k ==> waiting0[i] in waiting0[..k];
      MembersApart();
      PumpOne(req, s);
      if UpSet() == up0 {
        assert UpSet() == up && ring == now;
        OneMoreTurn(ring0, ring1, now, up, to, s);
      }
      assert waiting0[..k + 1] == waiting0[..k] + [req];
    }

    /** One request moves from the waiting list to the requests in flight, and is sent. */
    method PumpOne(req: Request, s: Nameserver)
      requires Valid() && waiting != [] && req == waiting[0] && nInflight < maxInflight && s in farm
      modifies this`ring, this`good, this`waiting, this`nWaiting, this`heads, this`nInflight, this`inflight
      modifies pool`ns, pool`transId, pool`txCount, pool`transmitMe
      modifies farm`up, farm`failedTimes, farm`choked, farm`requestsInflight
      ensures Valid() && Elements(ring) == old(Elements(ring))
      ensures waiting == old(waiting)[1..] && inflight == old(inflight) + {req} && nWaiting == old(nWaiting) - 1
      ensures NoneCameUp()
      ensures UpSet() == old(UpSet()) ==> ring == old(ring) && req.ns == s && SameServers(old(inflight))
    {
      hide Assigned, Listed, Ids, Waits, Live, Counted, Probes, Ringed, Elements, UpIn, LeftIsChoked;
      WaitersInPool();
      MembersApart();
      Promote(req, s);
      WaitersInPool();
      var _ := Transmit(req);
      var _ := TransmitAll();
    }

    lemma WaitersInPool()
      requires Waits()
      ensures inflight <= pool && Elements(waiting) <= pool && (waiting != [] ==> waiting[0] in pool)
    {
    }

    /** A request in flight ends. */
    method EndInFlight(req: Request)
      requires Valid() && req in inflight && req.ns != null && req.ns in farm
      modifies this`heads, this`nInflight, this`inflight, req`finished, req.ns`requestsInflight
      ensures Valid() && req.finished && inflight == old(inflight) - {req}
    {
      hide Assigned, Listed, Ids, Counted, Ringed, Probes, NoDup, WaitOk, LiveOk;
      WaitEnded(waiting, inflight, pool, req);
      LeaveFlight(req);
      SetFinished(req);
    }

    /** A request that waits ends. */
    method EndWaiting(req: Request)
      requires Valid() && req in waiting
      modifies this`waiting, this`nWaiting, req`finished
      ensures Valid() && req.finished && waiting == Without(old(waiting), req)
    {
      hide Assigned, Listed, Ids, CountOk, Ringed, Probes, NoDup, WaitOk, LiveOk, Without;
      WaitRemoved(waiting, inflight, pool, req);
      waiting := Without(waiting, req);
      nWaiting := nWaiting - 1;
      SetFinished(req);
    }

    method SetFinished(req: Request)
      requires req !in inflight && req !in waiting
      requires forall r :: r in pool && r != req ==> (r.finished <==> r !in inflight && r !in waiting)
      modifies req`finished
      ensures Live() && req.finished
    {
      req.finished := true;
    }

    lemma ServerOf(req: Request)
      requires Valid() && req in Members()
      ensures req.ns != null <==> req in inflight
      ensures req.ns != null ==> req.ns in farm && req !in waiting
      ensures req.ns == null ==> req in waiting
      ensures req in pool && !req.finished
    {
    }

    /**
     * A request ends, and space is filled with the first k of those that wait, as by Pump; the list it is taken from is the one
     * its server tells.
     */
    method RequestFinished(req: Request) returns (ghost k: nat, ghost to: seq<Nameserver>)
      requires Valid() && req in Members()
      modifies this`ring, this`good, this`waiting, this`nWaiting, this`heads, this`nInflight, this`inflight
      modifies pool`ns, pool`transId, pool`txCount, pool`transmitMe, req`finished
      modifies farm`up, farm`failedTimes, farm`choked, farm`requestsInflight
      ensures Valid() && Busy() && req.finished && NoneCameUp() && Elements(ring) == old(Elements(ring))
      ensures Members() == old(Members()) - {req} && old(inflight) - {req} <= inflight
      ensures var wait := Without(old(waiting), req);
        && k <= |wait| && waiting == wait[k..] && inflight == old(inflight) - {req} + Elements(wait[..k])
        && |to| == k && (k == 0 ==> UpSet() == old(UpSet()))
        && (UpSet() == old(UpSet()) ==>
            && Turns(old(ring), ring, UpSet(), to) && SameServers(old(inflight) - {req})
            && forall i :: 0 <= i < k ==> wait[i].ns == to[i])
    {
      hide Assigned, Listed, Ids, Waits, Live, Counted, Probes, Ringed, Elements, UpIn, Without, Turns;
      ServerOf(req);
      MembersApart();
      MembersLeft(inflight, waiting, req);
      if req.ns != null {
        EndInFlight(req);
      } else {
        EndWaiting(req);
      }
      ghost var wait := waiting;
      k, to := Pump();
      ElementsSplit(wait, k);
    }

    lemma MembersApart()
      requires Waits()
      ensures NoDup(waiting) && forall r :: r in waiting ==> r !in inflight
    {
    }

    // ----- new requests -----

    /** request_new: there is a server and an id for it at once if there is space, and a server. */
    method RequestNew() returns (req: Request)
      requires Valid()
      modifies this`ring
      ensures Valid() && fresh(req) && !req.finished && Elements(ring) == old(Elements(ring))
      ensures req.ns != null <==> nInflight < maxInflight && ring != []
      ensures req.ns != null ==> req.ns in farm && FreeId(req.transId)
      ensures nInflight >= maxInflight ==> req.transId == 0xffff
      ensures if req.ns != null then TookTurn<Nameserver>(old(ring), ring, UpSet(), req.ns) else ring == old(ring)
      ensures req.ns != null && (exists t :: t in farm && t.up) ==>
        && req.ns.up
        && exists i :: 0 <= i < |old(ring)| && old(ring)[i] == req.ns && (forall j :: 0 <= j < i ==> !old(ring)[j].up)
                       && ring == old(ring)[i + 1..] + old(ring)[..i + 1]
    {
      hide Assigned, Listed, Ids, Waits, Live, Probes, Elements, CountOk, NoDup, FreeId, TookTurn;
      var issuingNow := nInflight < maxInflight;
      var id, s := NO_ID, null;
      if issuingNow {
        FewInFlight();
        id := TransactionIdPick();
        s := NameserverPick();
      }
      req := new Request(id, s);
      if s != null {
        TurnOfServer(old(ring), ring, s);
      }
    }

    /** While some server is up, it is the turn of the first that is. */
    lemma TurnOfServer(was: seq<Nameserver>, now: seq<Nameserver>, s: Nameserver)
      requires Ringed() && TookTurn(was, now, UpSet(), s) && Elements(was) == farm
      ensures (exists t :: t in farm && t.up) ==>
        && s.up
        && exists i :: 0 <= i < |was| && was[i] == s && (forall j :: 0 <= j < i ==> !was[j].up) && now == was[i + 1..] + was[..i + 1]
    {
      if t :| t in farm && t.up {
        assert t in Elements(was) && t in UpSet();
        var n :| 0 <= n < |was| && was[n] == t;
        assert was[n] in UpSet();
        var i :| 0 <= i < |was| && was[i] == s && s in UpSet() && (forall j :: 0 <= j < i ==> was[j] !in UpSet())
                 && now == was[i + 1..] + was[..i + 1];
        assert forall j :: 0 <= j < i ==> was[j] in Elements(was);
      }
    }

    /** Takes note of a new request. */
    method Register(req: Request)
      requires Waits() && Probes() && LiveOk(waiting, inflight, pool) && req !in pool
      requires !req.finished
      modifies this`pool
      ensures Waits() && Probes() && pool == old(pool) + {req} && req !in inflight && req !in waiting
      ensures LiveOk(waiting, inflight + {req}, pool) && LiveOk(waiting + [req], inflight, pool)
      ensures WaitOk(waiting, inflight + {req}, pool) && (req.ns == null ==> WaitOk(waiting + [req], inflight, pool))
    {
      pool := pool + {req};
    }

    /** request_submit: straight into flight if there is a server, else to the end of the waiting list. */
    method RequestSubmit(req: Request) returns (inFlight: bool)
      requires Valid() && req !in pool && !req.finished
      requires req.ns != null ==> req.ns in farm && FreeId(req.transId)
      modifies this`ring, this`good, this`waiting, this`nWaiting, this`heads, this`nInflight, this`inflight, this`pool
      modifies inflight`ns, req`ns, req`txCount, req`transmitMe
      modifies farm`up, farm`failedTimes, farm`choked, farm`requestsInflight
      ensures Valid() && pool == old(pool) + {req} && inFlight == (old(req.ns) != null) && Elements(ring) == old(Elements(ring))
      ensures if inFlight then inflight == old(inflight) + {req} && waiting == old(waiting)
              else waiting == old(waiting) + [req] && inflight == old(inflight)
      ensures nInflight == old(nInflight) + if inFlight then 1 else 0
      ensures NoneCameUp() && (!inFlight ==> UpSet() == old(UpSet()))
      ensures UpSet() == old(UpSet()) ==> ring == old(ring) && req.ns == old(req.ns) && SameServers(old(inflight))
    {
      hide Assigned, Listed, Ids, CountOk, Probes, Ringed, Elements, WaitOk, LiveOk, FreeId, UpIn;
      Register(req);
      inFlight := req.ns != null;
      if inFlight {
        EnterFlight(req);
        var _ := Transmit(req);
      } else {
        waiting := waiting + [req];
        nWaiting := nWaiting + 1;
      }
    }

    /** evdns_base_resolve_ipv4 and its like, for a name that is not searched for. */
    method Resolve() returns (req: Request)
      requires Valid()
      modifies this`ring, this`good, this`waiting, this`nWaiting, this`heads, this`nInflight, this`inflight, this`pool
      modifies inflight`ns
      modifies farm`up, farm`failedTimes, farm`choked, farm`requestsInflight
      ensures Valid() && fresh(req) && NoneCameUp() && Elements(ring) == old(Elements(ring))
      ensures if old(nInflight < maxInflight && ring != []) then
                inflight == old(inflight) + {req} && waiting == old(waiting) && nInflight == old(nInflight) + 1
              else
                inflight == old(inflight) && waiting == old(waiting) + [req] && ring == old(ring) && UpSet() == old(UpSet())
      ensures old(Busy()) ==> Busy()
      ensures UpSet() == old(UpSet()) ==>
        SameServers(old(inflight)) && (req in inflight ==> req.ns != null && TookTurn<Nameserver>(old(ring), ring, UpSet(), req.ns))
    {
      hide Assigned, Listed, Ids, CountOk, Probes, Ringed, WaitOk, LiveOk, FreeId, TookTurn, UpIn;
      req := RequestNew();
      PoolHasAll();
      SameEmpty(ring, old(ring));
      assert req !in inflight;
      var inFlight := RequestSubmit(req);
      SameEmpty(ring, old(ring));
    }

    /** While m servers are up and stay so, m requests in a row that go into flight at once go to each of them exactly once. */
    method ResolveInTurn(m: nat) returns (reqs: seq<Request>)
      requires Valid() && m == |UpSet()| > 0 && nInflight + m <= maxInflight
      modifies this`ring, this`good, this`waiting, this`nWaiting, this`heads, this`nInflight, this`inflight, this`pool
      modifies inflight`ns
      modifies farm`up, farm`failedTimes, farm`choked, farm`requestsInflight
      ensures Valid() && |reqs| == m && forall i :: 0 <= i < m ==> fresh(reqs[i]) && reqs[i] in inflight
      ensures (forall t :: t in farm ==> t.up == old(t.up)) ==>
        && (forall i :: 0 <= i < m ==> reqs[i].ns != null && reqs[i].ns in farm && reqs[i].ns.up)
        && (forall i, j :: 0 <= i < j < m ==> reqs[i].ns != reqs[j].ns)
        && forall t :: t in farm && t.up ==> exists i :: 0 <= i < m && reqs[i].ns == t
    {
      hide Assigned, Listed, Ids, CountOk, Probes, Waits, Live, UpIn, Turns, NoDup, Elements, Ringed, Valid, Handed;
      ghost var ring0, up0, to: seq<Nameserver> := ring, UpSet(), [];
      reqs := [];
      UpSetIs();
      HandsStart();
      for i := 0 to m
        invariant Valid() && |reqs| == i && nInflight == old(nInflight) + i && Elements(ring) == Elements(ring0)
        invariant fresh(inflight - old(inflight)) && NoneCameUp()
        invariant forall j :: 0 <= j < i ==> fresh(reqs[j])
        invariant Handed(ring0, up0, to, reqs)
      {
        SameEmpty(ring, ring0);
        var req;
        req, to := ResolveNext(reqs, ring0, up0, to);
        reqs := reqs + [req];
      }
      HandedIs(ring0, up0, to, reqs);
      if forall t :: t in farm ==> t.up == old(t.up) {
        UpSetIs();
        assert UpSet() == up0;
        FairTurns(ring0, up0, to);
      }
    }

    /** The requests are in flight; while the servers in up0 stay up, each has got the one whose turn it was. */
    ghost predicate Handed(ring0: seq<Nameserver>, up0: set<Nameserver>, to: seq<Nameserver>, reqs: seq<Request>)
      reads this`inflight, this`ring, this`farm, farm`up, inflight`ns
    {
      && |to| == |reqs| && UpSet() <= up0 && (forall j :: 0 <= j < |reqs| ==> reqs[j] in inflight)
      && (UpSet() == up0 ==> Turns(ring0, ring, up0, to) && forall j :: 0 <= j < |reqs| ==> reqs[j].ns == to[j])
    }

    lemma HandsStart()
      requires Valid() && UpSet() != {}
      ensures ring != [] && NoDup(ring) && Handed(ring, UpSet(), [], [])
    {
      RingUp();
    }

    lemma HandedIs(ring0: seq<Nameserver>, up0: set<Nameserver>, to: seq<Nameserver>, reqs: seq<Request>)
      requires Handed(ring0, up0, to, reqs)
      ensures |to| == |reqs| && (forall j :: 0 <= j < |reqs| ==> reqs[j] in inflight)
      ensures UpSet() == up0 ==> Turns(ring0, ring, up0, to) && forall j :: 0 <= j < |reqs| ==> reqs[j].ns == to[j]
    {
    }

    method ResolveNext(reqs: seq<Request>, ghost ring0: seq<Nameserver>, ghost up0: set<Nameserver>, ghost to: seq<Nameserver>)
      returns (req: Request, ghost to': seq<Nameserver>)
      requires Valid() && nInflight < maxInflight && ring != [] && Handed(ring0, up0, to, reqs)
      modifies this`ring, this`good, this`waiting, this`nWaiting, this`heads, this`nInflight, this`inflight, this`pool
      modifies inflight`ns
      modifies farm`up, farm`failedTimes, farm`choked, farm`requestsInflight
      ensures Valid() && fresh(req) && NoneCameUp() && Elements(ring) == old(Elements(ring))
      ensures nInflight == old(nInflight) + 1 && inflight == old(inflight) + {req}
      ensures Handed(ring0, up0, to', reqs + [req])
    {
      hide Assigned, Listed, Ids, CountOk, Probes, Waits, Live, TookTurn, UpIn, Turns, NoDup, Elements, Ringed, Valid;
      ghost var ring1 := ring;
      req := Resolve();
      to' := to + [ring1[0]];
      if UpSet() == up0 {
        ghost var s: Nameserver := req.ns;
        OneMoreTurn(ring0, ring1, ring, up0, to, s);
        to' := to + [s];
      }
    }

    lemma RingUp()
      requires Valid() && UpSet() != {}
      ensures ring != []
    {
      var t :| t in UpSet();
      assert t in Elements(ring);
    }

    lemma UpSetIs()
      ensures UpSet() == set t | t in farm && t.up
    {
    }

    lemma FairTurns(ring0: seq<Nameserver>, up0: set<Nameserver>, to: seq<Nameserver>)
      requires Valid() && Elements(ring) == Elements(ring0) && NoDup(ring0) && Turns(ring0, ring, up0, to)
      requires up0 == UpSet() && |to| == |up0| > 0
      ensures forall i :: 0 <= i < |to| ==> to[i] in farm && to[i].up
      ensures forall i, j :: 0 <= i < j < |to| ==> to[i] != to[j]
      ensures forall t :: t in farm && t.up ==> exists i :: 0 <= i < |to| && to[i] == t
    {
      TurnsAreFair(ring0, ring, up0, to);
      forall i | 0 <= i < |to| ensures to[i] in up0 {
        assert to[i] in Elements(to);
      }
      forall t | t in farm && t.up ensures exists i :: 0 <= i < |to| && to[i] == t {
        assert t in up0 && t in Elements(to);
      }
    }

    lemma PoolHasAll()
      requires Valid()
      ensures inflight <= pool && Elements(waiting) <= pool
    {
    }

    // ----- timeouts and replies -----

    /**
     * What a timeout does. After too many tries the request ends and its server is marked down; else it is sent again, to the
     * server whose turn it is, and the server it has then, `last`, has one timeout more, for which it may be marked down.
     */
    twostate predicate TimedOut(req: Request, s: Nameserver, last: Nameserver?)
      reads this, req, farm
    {
      farm == old(farm) && s in farm &&
      if old(req.txCount >= maxRetransmits) then
        && req.finished && Busy() && Members() == old(Members()) - {req} && !s.up
        && (exists k :: 0 <= k <= |old(waiting)| && waiting == old(waiting)[k..])
        && forall t :: t in farm ==> t.timedout == old(t.timedout)
      else
        && inflight == old(inflight) && waiting == old(waiting) && !req.finished
        && Retried(req, last)
    }

    twostate predicate Retried(req: Request, last: Nameserver?)
      reads this, req, farm
    {
      && last != null && last in farm && farm == old(farm)
      && last.timedout == (if old(last.timedout) >= maxTimeouts then 0 else old(last.timedout) + 1)
      && (old(last.timedout) >= maxTimeouts ==> !last.up)
      && (forall t :: t in farm && t != last ==> t.timedout == old(t.timedout))
      && req.txCount == old(req.txCount) + (if req.transmitMe then 0 else 1)
      && (UpSet() == old(UpSet()) ==> req.ns == last && TookTurn<Nameserver>(old(ring), ring, UpSet(), last))
    }

    /** A request in flight gets no reply in time: it ends, or is sent again, to the next server. */
    method RequestTimeout(req: Request) returns (ghost last: Nameserver?)
      requires Valid() && req in inflight
      modifies this`ring, this`good, this`waiting, this`nWaiting, this`heads, this`nInflight, this`inflight
      modifies pool`ns, pool`transId, pool`txCount, pool`transmitMe, req`finished
      modifies farm`up, farm`failedTimes, farm`choked, farm`requestsInflight, farm`timedout
      ensures Valid() && NoneCameUp() && old(req.ns) != null && (last != null ==> last in old(farm))
      ensures TimedOut(req, old(req.ns), last)
      ensures Members() <= old(Members()) && old(Members()) - {req} - Members() == {} && (!req.finished ==> req in inflight)
    {
      hide Assigned, Listed, Ids, Waits, Live, Counted, Probes, Ringed, Elements, UpIn, Without, Turns, TookTurn, Retried;
      ServerOf(req);
      PoolHasAll();
      var s := req.ns;
      last := null;
      if req.txCount >= maxRetransmits {
        WithoutNone(waiting, req);
        ghost var k, to := RequestFinished(req);
        PoolHasAll();
        ghost var was := ring;
        ghost var moved, servers := NameserverFailed(s);
        SameEmpty(ring, was);
      } else {
        last := Retransmit(req);
      }
    }

    method Retransmit(req: Request) returns (ghost last: Nameserver)
      requires Valid() && req in inflight
      modifies this`ring, this`good, inflight`ns, req`txCount, req`transmitMe
      modifies farm`up, farm`failedTimes, farm`choked, farm`requestsInflight, farm`timedout
      ensures Valid() && NoneCameUp() && last in old(farm) && Retried(req, last)
    {
      hide Assigned, Listed, Ids, Waits, Live, Counted, Probes, Ringed, Elements, UpIn, Turns, TookTurn;
      var s := PickAndSwap(req);
      var _ := Transmit(req);
      ServerOf(req);
      last := req.ns;
      CountTimeout(req.ns);
    }

    /** One timeout more for a server: it is marked down when there are too many. */
    method CountTimeout(s: Nameserver)
      requires Valid() && s in farm
      modifies this`ring, this`good, inflight`ns
      modifies s`up, s`failedTimes, farm`requestsInflight, s`timedout
      ensures Valid() && NoneCameUp() && UpSet() <= old(UpSet())
      ensures s.timedout == if old(s.timedout) >= maxTimeouts then 0 else old(s.timedout) + 1
      ensures old(s.timedout) >= maxTimeouts ==> !s.up
      ensures UpSet() == old(UpSet()) ==> ring == old(ring) && SameServers(inflight)
    {
      hide Assigned, Listed, Ids, Waits, Live, Counted, Probes, Ringed, Elements, UpIn;
      s.timedout := s.timedout + 1;
      if s.timedout > maxTimeouts {
        s.timedout := 0;
        UpIsUp(s);
        ghost var moved, to := NameserverFailed(s);
      }
    }

    /** Gives a request to another server; 1 if there is no other. */
    method RequestReissue(req: Request) returns (r: nat)
      requires Valid() && req in inflight
      modifies this`ring, req`ns, req`reissueCount, req`txCount, req`transmitMe, farm`requestsInflight
      ensures Valid() && (r == 1 <==> req.ns == old(req.ns)) && req.ns != null && TookTurn<Nameserver>(old(ring), ring, UpSet(), req.ns)
      ensures UpSet() == old(UpSet()) && (UpSet() != {} ==> req.ns.up)
      ensures r != 1 ==> r == 0 && req.txCount == 0 && req.transmitMe && req.reissueCount == old(req.reissueCount) + 1
    {
      hide Assigned, Listed, Ids, Waits, Live, Counted, Probes, Ringed;
      var last := req.ns;
      var s := PickAndSwap(req);
      if req.ns == last {
        return 1;
      }
      req.reissueCount := req.reissueCount + 1;
      req.txCount, req.transmitMe := 0, true;
      return 0;
    }

    /** evdns_cancel_request: nothing to do for a request that has ended. */
    method CancelRequest(req: Request)
      requires Valid() && req in pool
      modifies this`ring, this`good, this`waiting, this`nWaiting, this`heads, this`nInflight, this`inflight
      modifies pool`ns, pool`transId, pool`txCount, pool`transmitMe, req`finished
      modifies farm`up, farm`failedTimes, farm`choked, farm`requestsInflight
      ensures Valid() && req.finished && Elements(ring) == old(Elements(ring))
      ensures Members() == old(Members()) - {req} && old(inflight) - {req} <= inflight
      ensures NoneCameUp() && (old(waiting) == [] ==> UpSet() == old(UpSet()) && waiting == [])
      ensures exists k :: 0 <= k <= |Without(old(waiting), req)| && waiting == Without(old(waiting), req)[k..]
    {
      hide Assigned, Listed, Ids, Waits, Counted, Probes, Ringed, Without, UpIn;
      WithoutNothing(req);
      assert Without(waiting, req)[0..] == Without(waiting, req);
      if !req.finished {
        ghost var k, to := RequestFinished(req);
      }
    }

    lemma WithoutNothing(req: Request)
      requires Valid() && req in pool
      ensures req.finished ==> Without(waiting, req) == waiting
      ensures waiting == [] ==> Without(waiting, req) == []
    {
      if req.finished {
        WithoutNone(waiting, req);
      }
    }

    method MarkUp(s: Nameserver)
      requires Ringed() && s in farm && !s.up
      modifies this`good, s`up
      ensures Ringed() && s.up && UpSet() == old(UpSet()) + {s}
    {
      hide NoDup, Elements;
      ghost var ups := UpSet();
      good := good + 1;
      s.up := true;
      assert UpSet() == ups + {s};
    }

    /** A server is up again; a probe of it that is under way is canceled. */
    method NameserverUp(s: Nameserver)
      requires Valid() && s in farm
      modifies this`ring, this`good, this`waiting, this`nWaiting, this`heads, this`nInflight, this`inflight
      modifies pool`ns, pool`transId, pool`txCount, pool`transmitMe, pool`finished
      modifies farm`up, farm`failedTimes, farm`choked, farm`requestsInflight, s`probe, s`timedout
      ensures Valid() && s.up && Elements(ring) == old(Elements(ring))
      ensures UpSet() <= old(UpSet()) + {s} && (old(waiting) == [] ==> UpSet() == old(UpSet()) + {s} && waiting == [])
      ensures if old(s.up) then s.probe == old(s.probe) && s.failedTimes == old(s.failedTimes) && s.timedout == old(s.timedout)
              else s.probe == null && s.failedTimes == 0 && s.timedout == 0
      ensures var gone := old(if !s.up && s.probe != null then {s.probe} else {});
        Members() == old(Members()) - gone && old(inflight) - gone <= inflight
    {
      hide Assigned, Listed, Ids, Waits, Live, Counted, Ringed, Elements, UpIn, Without;
      UpIsUp(s);
      if s.up {
        return;
      }
      CancelProbe(s);
      UpIsUp(s);
      MarkUp(s);
      s.failedTimes, s.timedout := 0, 0;
    }

    method CancelProbe(s: Nameserver)
      requires Valid() && s in farm
      modifies this`ring, this`good, this`waiting, this`nWaiting, this`heads, this`nInflight, this`inflight
      modifies pool`ns, pool`transId, pool`txCount, pool`transmitMe, pool`finished
      modifies farm`up, farm`failedTimes, farm`choked, farm`requestsInflight, s`probe
      ensures Valid() && NoneCameUp() && s.probe == null && Elements(ring) == old(Elements(ring))
      ensures old(waiting) == [] ==> UpSet() == old(UpSet()) && waiting == []
      ensures var gone := old(if s.probe != null then {s.probe} else {});
        Members() == old(Members()) - gone && old(inflight) - gone <= inflight
    {
      hide Assigned, Listed, Ids, Waits, Live, Counted, Ringed, Elements, UpIn, Without;
      if s.probe != null {
        CancelRequest(s.probe);
        s.probe := null;
      }
    }

    /** The server of a request in flight has replied: it is up, and the request does not go on as its probe. */
    method RepliedUp(req: Request)
      requires Valid() && req in inflight
      modifies this`ring, this`good, this`waiting, this`nWaiting, this`heads, this`nInflight, this`inflight
      modifies pool`ns, pool`transId, pool`txCount, pool`transmitMe, pool`finished
      modifies farm`up, farm`failedTimes, farm`choked, farm`requestsInflight, farm`probe, farm`timedout
      ensures Valid() && req in inflight && old(req.ns) != null && old(req.ns).up
      ensures Members() == old(Members() - OtherProbe(req))
      ensures UpSet() <= old(UpSet()) + {old(req.ns)}
      ensures old(waiting) == [] ==> waiting == [] && UpSet() == old(UpSet()) + {old(req.ns)}
      ensures !old(req.ns.up) ==> old(req.ns).probe == null && old(req.ns).failedTimes == 0 && old(req.ns).timedout == 0
    {
      hide Assigned, Listed, Ids, Waits, Live, Counted, Ringed, Elements;
      ServerOf(req);
      var s := req.ns;
      if s.probe == req {
        s.probe := null;
      }
      UpIsUp(s);
      NameserverUp(s);
    }

    /** The probe that is under way for the server of a request, if that is taken to be down; but not the request itself. */
    ghost function OtherProbe(req: Request): set<Request>
      reads req`ns, farm, this`farm
    {
      if req.ns != null && req.ns in farm && !req.ns.up && req.ns.probe != null then {req.ns.probe} - {req} else {}
    }

    /** What an answer, or an error that is none of the server's, does: the request ends, and the server is up. */
    twostate predicate Settled(req: Request, s: Nameserver)
      reads this, req, farm
    {
      && farm == old(farm) && s in farm
      && req.finished && req !in Members() && UpSet() <= old(UpSet()) + {s}
      && (old(waiting) == [] ==> UpSet() == old(UpSet()) + {s})
      && (!old(s.up) ==> s.timedout == 0 && s.probe == null)
    }

    /**
     * What an error does that the server itself is to blame for: it is marked down, and the request goes to another one, if it
     * may be reissued and there is one.
     */
    twostate predicate Blamed(req: Request, s: Nameserver)
      reads this, req, farm
    {
      && farm == old(farm) && s in farm
      && NoneCameUp() && (old(req.reissueCount) < maxReissues ==> !s.up)
      && (old(req.reissueCount) >= maxReissues ==> req.finished)
      && (old(req.reissueCount) < maxReissues && old(req.txCount) > 0 && old(UpSet()) - {s} != {} ==> !req.finished)
      && if req.finished then req !in Members()
         else
           && req in inflight && waiting == old(waiting) && inflight == old(inflight)
           && req.ns != null && req.ns != s && UpSet() == old(UpSet()) - {s} && (UpSet() != {} ==> req.ns in UpSet())
           && req.txCount == 0 && req.transmitMe && req.reissueCount == old(req.reissueCount) + 1
    }

    /** What a reply says: an answer; an error the server itself is to blame for; one that may pass; or another error. */
    method ReplyHandle(req: Request, reply: Reply) returns (ghost last: Nameserver?)
      requires Valid() && req in inflight
      modifies this`ring, this`good, this`waiting, this`nWaiting, this`heads, this`nInflight, this`inflight
      modifies pool`ns, pool`transId, pool`txCount, pool`transmitMe, pool`finished, req`reissueCount
      modifies farm`up, farm`failedTimes, farm`choked, farm`requestsInflight, farm`probe, farm`timedout
      ensures Valid() && old(req.ns) != null && (last != null ==> last in old(farm))
      ensures match reply
        case BadServer => Blamed(req, old(req.ns))
        case ServerFailure => TimedOut(req, old(req.ns), last)
        case _ => Settled(req, old(req.ns))
      ensures old(Members()) - {req} - Members() ==
        if reply.Answered? || reply.OtherError? then old((Members() - {req}) * OtherProbe(req)) else {}
      ensures Members() <= old(Members()) && (!req.finished ==> req in inflight)
    {
      hide Assigned, Listed, Ids, Waits, Live, Counted, Ringed, Elements, Probes, UpIn, TimedOut, Blamed, Settled;
      ServerOf(req);
      PoolHasAll();
      last := null;
      match reply {
        case BadServer =>
          Blame(req);
        case ServerFailure =>
          last := RequestTimeout(req);
        case _ =>
          Settle(req);
      }
    }

    method Blame(req: Request)
      requires Valid() && req in inflight && req.ns != null
      modifies this`ring, this`good, this`waiting, this`nWaiting, this`heads, this`nInflight, this`inflight
      modifies pool`ns, pool`transId, pool`txCount, pool`transmitMe, pool`finished, req`reissueCount
      modifies farm`up, farm`failedTimes, farm`choked, farm`requestsInflight
      ensures Valid() && Blamed(req, old(req.ns))
      ensures Members() <= old(Members()) && old(Members()) - {req} - Members() == {} && (!req.finished ==> req in inflight)
    {
      hide Assigned, Listed, Ids, Waits, Live, Counted, Ringed, Elements, Probes, UpIn, Without, Turns, TookTurn;
      ServerOf(req);
      PoolHasAll();
      ghost var s := req.ns;
      if req.reissueCount < maxReissues {
        ghost var moved, to := NameserverFailed(req.ns);
        UpIsUp(s);
        var r := RequestReissue(req);
        if r == 0 {
          ServerOf(req);
          UpIsUp(req.ns);
          return;
        }
      }
      ghost var k, ss := RequestFinished(req);
      UpIsUp(s);
    }

    method Settle(req: Request)
      requires Valid() && req in inflight && req.ns != null
      modifies this`ring, this`good, this`waiting, this`nWaiting, this`heads, this`nInflight, this`inflight
      modifies pool`ns, pool`transId, pool`txCount, pool`transmitMe, pool`finished
      modifies farm`up, farm`failedTimes, farm`choked, farm`requestsInflight, farm`probe, farm`timedout
      ensures Valid() && Settled(req, old(req.ns)) && Members() <= old(Members()) && req.finished
      ensures old(Members()) - {req} - Members() == old((Members() - {req}) * OtherProbe(req))
    {
      hide Assigned, Listed, Ids, Waits, Live, Counted, Ringed, Elements, Probes, UpIn, Without, Turns, TookTurn;
      ServerOf(req);
      PoolHasAll();
      RepliedUp(req);
      PoolHasAll();
      WithoutNothing(req);
      ghost var k, to := RequestFinished(req);
    }

    // ----- probes of servers that are down -----

    /** Sends a probe to a server; it goes into flight no matter how many requests there are already. */
    method SendProbe(s: Nameserver) returns (req: Request)
      requires Valid() && s in farm && |inflight| < NO_ID
      modifies this`ring, this`good, this`waiting, this`nWaiting, this`heads, this`nInflight, this`inflight, this`pool
      modifies inflight`ns
      modifies farm`up, farm`failedTimes, farm`choked, farm`requestsInflight, s`probe
      ensures Valid() && fresh(req) && req in inflight && s.probe == req && inflight == old(inflight) + {req}
      ensures waiting == old(waiting) && NoneCameUp()
      ensures UpSet() == old(UpSet()) ==> req.ns == s && SameServers(old(inflight))
    {
      hide Valid, Elements, FreeId, UpIn;
      req := NewProbe(s);
      var _ := RequestSubmit(req);
      SetProbe(s, req);
    }

    /** A new request with an id, for this server. */
    method NewProbe(s: Nameserver) returns (req: Request)
      requires Valid() && s in farm && |inflight| < NO_ID
      modifies this`ring
      ensures Valid() && fresh(req) && req !in pool && !req.finished && req.ns == s && FreeId(req.transId)
    {
      hide Assigned, Listed, Ids, Waits, Live, Counted, Ringed, Elements, Probes, FreeId;
      req := RequestNew();
      PoolHasAll();
      assert req !in pool && req !in inflight;
      SetId(req);
      req.ns := s;
    }

    method SetProbe(s: Nameserver, req: Request)
      requires Valid() && req in pool
      modifies s`probe
      ensures Valid() && s.probe == req
    {
      hide Assigned, Listed, Ids, Waits, Live, Counted, Ringed, Elements;
      s.probe := req;
    }

    /** A probe ended; Canceled means that the server came up in another way. */
    method ProbeCallback(s: Nameserver, result: ProbeResult)
      requires Valid() && s in farm
      modifies this`ring, this`good, this`waiting, this`nWaiting, this`heads, this`nInflight, this`inflight
      modifies pool`ns, pool`transId, pool`txCount, pool`transmitMe, pool`finished
      modifies farm`up, farm`failedTimes, farm`choked, farm`requestsInflight, s`probe, s`timedout
      ensures Valid() && Members() == old(Members())
      ensures s.up <==> old(s.up) || result == GoodReply
      ensures result.ProbeCanceled? ==> s.probe == old(s.probe) && s.failedTimes == old(s.failedTimes)
      ensures result.NoReply? ==> s.probe == null && s.failedTimes == old(s.failedTimes) + if old(s.up) then 0 else 1
      ensures !result.GoodReply? ==> waiting == old(waiting) && inflight == old(inflight) && UpSet() == old(UpSet())
      ensures result.GoodReply? ==>
        && s.probe == null && UpSet() <= old(UpSet()) + {s} && (old(waiting) == [] ==> UpSet() == old(UpSet()) + {s})
        && (!old(s.up) ==> s.failedTimes == 0 && s.timedout == 0)
    {
      hide Assigned, Listed, Ids, Waits, Live, Counted, Ringed, Elements, UpIn;
      match result {
        case ProbeCanceled =>
        case GoodReply =>
          s.probe := null;
          NameserverUp(s);
        case NoReply =>
          s.probe := null;
          if !s.up {
            s.failedTimes := s.failedTimes + 1;
          }
      }
    }

    // ----- adding servers, and changing the limit -----

    /** A new server, behind the one that is next; it is taken to be up. */
    method AddNameserver() returns (s: Nameserver)
      requires Valid()
      modifies this`ring, this`good, this`farm
      ensures Valid() && fresh(s) && farm == old(farm) + {s} && s.up
      ensures ring == if old(ring) == [] then [s] else old([ring[0]]) + [s] + old(ring[1..])
    {
      hide Listed, Ids, Waits, Live, Counted, Ringed, Assigned, Probes;
      s := new Nameserver();
      Join(s);
    }

    method Join(s: Nameserver)
      requires Ringed() && Assigned() && Probes() && s !in farm && s.up && s.requestsInflight == 0 && s.probe == null
      modifies this`ring, this`good, this`farm
      ensures Ringed() && Assigned() && Probes() && farm == old(farm) + {s}
      ensures ring == if old(ring) == [] then [s] else old([ring[0]]) + [s] + old(ring[1..])
    {
      hide NoDup, Elements, AssignedIn;
      NothingAssigned(s);
      JoinRing(ring, s);
      assert UpIn(farm + {s}) == UpIn(farm) + {s} && s !in UpIn(farm);
      ring := if |ring| == 0 then [s] else [ring[0]] + [s] + ring[1..];
      good := good + 1;
      farm := farm + {s};
    }

    lemma NothingAssigned(s: Nameserver)
      requires Assigned() && s !in farm
      ensures AssignedIn(inflight, s) == {}
    {
    }

    /** Changes the limit on requests in flight, and with it the number of buckets; those in flight are sorted anew. */
    method SetMaxRequestsInflight(limit: int)
      requires Valid() && limit <= MAX_INFLIGHT_LIMIT
      modifies this`heads, this`maxInflight
      ensures Valid() && maxInflight == (if limit < 1 then 1 else limit) && |heads| == (maxInflight + 4) / 5
    {
      hide IdsOk, Waits, Live, Assigned, Ringed, Probes, InBucket, NoDup, CountOk;
      var max: nat := if limit < 1 then 1 else limit;
      heads := Sorted((max + 4) / 5);
      maxInflight := max;
    }

    /** All requests in flight, in n new buckets. */
    method Sorted(n: nat) returns (newHeads: seq<seq<Request>>)
      requires Listed() && CountOk(nInflight, heads, inflight) && n > 0
      ensures |newHeads| == n && InBucket(newHeads, inflight) && CountOk(nInflight, newHeads, inflight)
    {
      hide InBucket, NoDup, CountOk, Sorting;
      ghost var moved: set<Request> := {};
      newHeads := seq(n, _ => []);
      NoneMoved(heads, newHeads, inflight);
      var oldHeads := heads;
      for i := 0 to |oldHeads|
        invariant |newHeads| == n && |oldHeads| == |heads| && Sorting(oldHeads, newHeads, inflight, moved)
        invariant forall j :: 0 <= j < i ==> oldHeads[j] == []
      {
        while oldHeads[i] != []
          invariant |newHeads| == n && |oldHeads| == |heads| && Sorting(oldHeads, newHeads, inflight, moved)
          invariant forall j :: 0 <= j < i ==> oldHeads[j] == []
          decreases |oldHeads[i]|
        {
          var req := oldHeads[i][0];
          var b := req.transId % n;
          MoveFirst(oldHeads, newHeads, inflight, moved, i, b);
          oldHeads := oldHeads[i := oldHeads[i][1..]];
          newHeads := newHeads[b := newHeads[b] + [req]];
          moved := moved + {req};
        }
      }
      AllMoved(oldHeads, newHeads, inflight, moved);
      CountIs(nInflight, heads, inflight);
    }

    constructor (limit: nat, reissues: nat, retransmits: nat, timeouts: nat)
      requires 1 <= limit <= MAX_INFLIGHT_LIMIT
      ensures Valid() && ring == [] && Members() == {} && maxInflight == limit && |heads| == (limit + 4) / 5
    {
      heads := seq((limit + 4) / 5, _ => []);
      nInflight, waiting, nWaiting, ring, good := 0, [], 0, [], 0;
      maxInflight, maxReissues, maxRetransmits, maxTimeouts := limit, reissues, retransmits, timeouts;
      inflight, pool, farm := {}, {}, {};
      new;
      EmptyBuckets(heads);
      assert UpSet() == {};
    }
  }

  lemma EmptyBuckets(heads: seq<seq<Request>>)
    requires heads != [] && forall i :: 0 <= i < |heads| ==> heads[i] == []
    ensures InBucket(heads, {}) && CountOk(0, heads, {})
  {
    SumEmpty(heads);
  }

  /** The requests in `moved` are in new buckets, the others still in the old ones. */
  ghost predicate Sorting(from: seq<seq<Request>>, to: seq<seq<Request>>, inflight: set<Request>, moved: set<Request>)
    reads inflight`transId, moved`transId
  {
    && moved <= inflight
    && InBucket(from, inflight - moved) && InBucket(to, moved) && CountOk(|moved|, to, moved)
  }

  lemma NoneMoved(from: seq<seq<Request>>, to: seq<seq<Request>>, inflight: set<Request>)
    requires InBucket(from, inflight) && to != [] && forall i :: 0 <= i < |to| ==> to[i] == []
    ensures Sorting(from, to, inflight, {})
  {
    EmptyBuckets(to);
    assert inflight - {} == inflight;
  }

  /** One request goes from an old bucket to a new one. */
  lemma MoveFirst(from: seq<seq<Request>>, to: seq<seq<Request>>, inflight: set<Request>, moved: set<Request>, i: nat, b: nat)
    requires Sorting(from, to, inflight, moved)
    requires i < |from| && from[i] != [] && |to| > 0 && b == from[i][0].transId % |to|
    ensures var req := from[i][0];
      Sorting(from[i := from[i][1..]], to[b := to[b] + [req]], inflight, moved + {req})
  {
    var req := from[i][0];
    assert BucketOk(from, inflight - moved, i);
    hide InBucket, CountOk;
    assert Without(from[i], req) == from[i][1..];
    BucketRemove(from, inflight - moved, req);
    assert inflight - moved - {req} == inflight - (moved + {req});
    BucketInsert(to, moved, req);
    CountInsert(|moved|, to, moved, b, req);
  }

  lemma AllMoved(from: seq<seq<Request>>, to: seq<seq<Request>>, inflight: set<Request>, moved: set<Request>)
    requires Sorting(from, to, inflight, moved) && forall j :: 0 <= j < |from| ==> from[j] == []
    ensures moved == inflight && InBucket(to, inflight) && CountOk(|inflight|, to, inflight)
  {
    forall r | r in inflight ensures r in moved {
      var home := from[r.transId % |from|];
      assert home == [] && (r in inflight - moved ==> r in home);
    }
    assert moved == inflight;
  }

  lemma CountIs(n: nat, heads: seq<seq<Request>>, inflight: set<Request>)
    requires CountOk(n, heads, inflight)
    ensures n == |inflight|
  {
  }

  datatype Reply = Answered | BadServer | ServerFailure | OtherError

  datatype ProbeResult = ProbeCanceled | GoodReply | NoReply

  lemma JoinRing<T>(ring: seq<T>, s: T)
    requires NoDup(ring) && s !in Elements(ring)
    ensures var r := if ring == [] then [s] else [ring[0]] + [s] + ring[1..];
      NoDup(r) && Elements(r) == Elements(ring) + {s}
  {
    if ring != [] {
      assert ring == [ring[0]] + ring[1..];
    }
  }

  lemma ElementsSplit<T>(s: seq<T>, k: nat)
    requires k <= |s|
    ensures Elements(s) == Elements(s[..k]) + Elements(s[k..])
  {
    assert s == s[..k] + s[k..];
  }

  /** Taking a request out of both lists takes it out of all there are. */
  lemma MembersLeft(inflight: set<Request>, waiting: seq<Request>, req: Request)
    requires NoDup(waiting) && req in inflight + Elements(waiting) && (req in inflight ==> req !in waiting)
    ensures (inflight - {req}) + Elements(Without(waiting, req)) == inflight + Elements(waiting) - {req}
    ensures req !in waiting ==> Without(waiting, req) == waiting
    ensures req !in inflight ==> inflight - {req} == inflight
  {
    if req in waiting {
      WithoutIs(waiting, req);
    } else {
      WithoutNone(waiting, req);
    }
    assert Elements(Without(waiting, req)) == Elements(waiting) - {req};
  }

  lemma WaitEnded(waiting: seq<Request>, inflight: set<Request>, pool: set<Request>, req: Request)
    requires WaitOk(waiting, inflight, pool) && LiveOk(waiting, inflight, pool) && req in inflight
    ensures WaitOk(waiting, inflight - {req}, pool) && req !in waiting
    ensures forall r :: r in pool && r != req ==> (r.finished <==> r !in inflight - {req} && r !in waiting)
  {
  }

  lemma WaitRemoved(waiting: seq<Request>, inflight: set<Request>, pool: set<Request>, req: Request)
    requires WaitOk(waiting, inflight, pool) && LiveOk(waiting, inflight, pool) && req in waiting
    ensures var w := Without(waiting, req);
      && WaitOk(w, inflight, pool) && |w| == |waiting| - 1 && req !in w && req !in inflight
      && Elements(w) == Elements(waiting) - {req}
      && forall r :: r in pool && r != req ==> (r.finished <==> r !in inflight && r !in w)
  {
    WithoutIs(waiting, req);
    var w := Without(waiting, req);
    forall r: Request | r in w ensures r in waiting && r != req {
      WithoutHas(waiting, req, r);
    }
    forall r: Request | r in waiting && r != req ensures r in w {
      WithoutHas(waiting, req, r);
    }
    hide Without;
    assert NoDup(w);
  }

  lemma FirstWaiter(waiting: seq<Request>, inflight: set<Request>, pool: set<Request>)
    requires WaitOk(waiting, inflight, pool) && waiting != []
    ensures waiting[0] !in inflight && waiting[0] in pool && waiting[0] !in waiting[1..]
    ensures WaitOk(waiting[1..], inflight, pool)
  {
  }

  lemma LivePromoted(waiting: seq<Request>, inflight: set<Request>, pool: set<Request>)
    requires LiveOk(waiting, inflight, pool) && waiting != []
    ensures LiveOk(waiting[1..], inflight + {waiting[0]}, pool)
  {
    assert waiting == [waiting[0]] + waiting[1..];
  }

  lemma AssignedPlus(inflight: set<Request>, req: Request, s: Nameserver)
    requires req !in inflight
    ensures |AssignedIn(inflight + {req}, s)| == |AssignedIn(inflight, s)| + if req.ns == s then 1 else 0
  {
    assert AssignedIn(inflight + {req}, s) == AssignedIn(inflight, s) + if req.ns == s then {req} else {};
  }

  lemma BucketInsert(heads: seq<seq<Request>>, inflight: set<Request>, req: Request)
    requires InBucket(heads, inflight) && req !in inflight
    ensures heads != []
    ensures var b := req.transId % |heads|; InBucket(heads[b := heads[b] + [req]], inflight + {req})
  {
    var b := req.transId % |heads|;
    var heads', inflight' := heads[b := heads[b] + [req]], inflight + {req};
    forall i | 0 <= i < |heads'| ensures BucketOk(heads', inflight', i) {
      assert BucketOk(heads, inflight, i);
    }
  }

  lemma BucketRemove(heads: seq<seq<Request>>, inflight: set<Request>, req: Request)
    requires InBucket(heads, inflight) && req in inflight
    ensures heads != []
    ensures var b := req.transId % |heads|;
      req in heads[b] && NoDup(heads[b]) && InBucket(heads[b := Without(heads[b], req)], inflight - {req})
  {
    var b := req.transId % |heads|;
    var heads', inflight' := heads[b := Without(heads[b], req)], inflight - {req};
    assert BucketOk(heads, inflight, b);
    WithoutIs(heads[b], req);
    hide Without, NoDup;
    forall i | 0 <= i < |heads'| ensures BucketOk(heads', inflight', i) {
      assert BucketOk(heads, inflight, i);
      if i == b {
        assert heads'[i] == Without(heads[b], req) && NoDup(heads'[i]);
        assert forall r :: r in heads'[i] ==> r in inflight' && r.transId % |heads'| == i;
      } else {
        assert heads'[i] == heads[i];
      }
    }
  }

  lemma IdsInsert(inflight: set<Request>, req: Request)
    requires IdsOk(inflight) && req.transId < NO_ID && forall q :: q in inflight ==> q.transId != req.transId
    ensures IdsOk(inflight + {req})
  {
  }

  lemma IdsRemove(inflight: set<Request>, req: Request)
    requires IdsOk(inflight)
    ensures IdsOk(inflight - {req})
  {
  }

  lemma CountInsert(n: nat, heads: seq<seq<Request>>, inflight: set<Request>, b: nat, req: Request)
    requires CountOk(n, heads, inflight) && b < |heads| && req !in inflight
    ensures CountOk(n + 1, heads[b := heads[b] + [req]], inflight + {req})
  {
    SumUpdate(heads, b, heads[b] + [req]);
    hide SumLen;
  }

  lemma CountRemove(n: nat, heads: seq<seq<Request>>, inflight: set<Request>, b: nat, req: Request)
    requires CountOk(n, heads, inflight) && b < |heads| && req in inflight && NoDup(heads[b]) && req in heads[b]
    ensures n > 0 && CountOk(n - 1, heads[b := Without(heads[b], req)], inflight - {req})
  {
    WithoutIs(heads[b], req);
    SumUpdate(heads, b, Without(heads[b], req));
    hide SumLen, Without, NoDup;
  }

  lemma PicksNone<T>(ring: seq<T>, up: set<T>)
    ensures Picks(ring, up, 0) == []
  {
  }

  lemma PicksStep<T>(ring: seq<T>, up: set<T>, n: nat)
    requires n > 0 && FirstUpAt(ring, up) < |ring|
    ensures var k := FirstUpAt(ring, up); Picks(ring, up, n) == [ring[k]] + Picks(Turned(ring, k + 1), up, n - 1)
  {
  }

  lemma TurnedRing<T>(ring: seq<T>, k: nat)
    requires k <= |ring| && NoDup(ring)
    ensures NoDup(Turned(ring, k)) && Elements(Turned(ring, k)) == Elements(ring) && |Turned(ring, k)| == |ring|
    ensures ring != [] ==> Turned(ring, k)[0] in Elements(ring)
  {
    assert ring == ring[..k] + ring[k..];
  }

  lemma TurnedTwice<T>(ring: seq<T>, k: nat)
    requires k < |ring|
    ensures Turned(Turned(ring, k), 1) == Turned(ring, k + 1) && Turned(ring, k)[0] == ring[k]
  {
  }

  lemma NoneUpTurn<T>(ring: seq<T>, up: set<T>)
    requires ring != [] && up == {}
    ensures TookTurn(ring, Turned(ring, 1), up, Turned(ring, 1)[0])
  {
  }

  lemma FirstUpTurn<T>(ring: seq<T>, up: set<T>, k: nat)
    requires FirstUp(ring, up, k)
    ensures TookTurn(ring, Turned(ring, k + 1), up, ring[k])
  {
  }

  predicate NoneUpTo<T(==)>(ring: seq<T>, up: set<T>, k: nat) {
    k <= |ring| && forall i :: 0 <= i < k ==> ring[i] !in up
  }

  lemma TurnedNot<T>(ring: seq<T>, up: set<T>)
    ensures Turned(ring, 0) == ring && NoneUpTo(ring, up, 0)
  {
  }

  lemma OneNotUp<T>(ring: seq<T>, up: set<T>, k: nat)
    requires NoneUpTo(ring, up, k) && k < |ring|
    ensures if ring[k] in up then FirstUp(ring, up, k) else NoneUpTo(ring, up, k + 1)
    ensures ring[k] in Elements(ring)
  {
  }

  lemma EmptyRing<T>(ring: seq<T>, up: set<T>)
    requires up <= Elements(ring)
    ensures ring == [] ==> up == {}
  {
  }

  lemma FirstUpIs<T>(ring: seq<T>, up: set<T>, k: nat)
    requires FirstUp(ring, up, k)
    ensures FirstUpAt(ring, up) == k < |ring|
  {
  }

  /** Not all servers of a ring can be found down when one is up. */
  lemma AllDown<T>(ring: seq<T>, up: set<T>)
    requires up <= Elements(ring) && NoneUpTo(ring, up, |ring|)
    ensures up == {}
  {
  }

  ghost function Below(n: nat): (s: set<nat>)
    ensures |s| == n && forall k: nat :: k in s <==> k < n
  {
    if n == 0 then {} else Below(n - 1) + {n - 1}
  }

  lemma {:induction false} SubsetSize<T>(a: set<T>, b: set<T>)
    requires a <= b
    ensures |a| <= |b|
  {
    if a != {} {
      var x :| x in a;
      SubsetSize(a - {x}, b - {x});
    }
  }
}
