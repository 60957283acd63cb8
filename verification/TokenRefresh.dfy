/** One token refresh at a time, for all the requests that were refused: the steps between the awaits of the interceptor. */
module TokenRefresh {

  import opened Lists
  import opened Machine

  datatype Tokens = Tokens(access: string, refresh: string) {
    /** The key chain takes no other tokens. */
    predicate Storable() {
      access != "" && refresh != ""
    }
  }

  /** The key chain, and the tokens kept in memory when it fails. */
  class KeyChain {
    var pair: Option<Tokens>
    var fallback: Option<Tokens>

    /** Is there a pair that can be used? */
    predicate Usable()
      reads this`pair
    {
      pair.Some? && pair.value.Storable()
    }

    /** What getTokens gives, with a key chain that can be read or not. */
    function Read(readable: bool): Option<Tokens>
      reads this
    {
      if readable && Usable() then pair else fallback
    }

    ghost predicate Kept()
      reads this`fallback
    {
      fallback.Some? ==> fallback.value.Storable()
    }

    constructor ()
      ensures Kept() && pair == None && fallback == None
    {
      pair, fallback := None, None;
    }

    /** A key chain that cannot be read, or holds no tokens that can be used, is reset, if it can be. */
    method GetTokens(readable: bool, resets: bool) returns (tokens: Option<Tokens>)
      modifies this`pair
      ensures tokens == old(Read(readable))
      ensures tokens == old(if readable && pair.Some? && pair.value.access != "" && pair.value.refresh != "" then pair else fallback)
      ensures pair == if resets && (!readable || (old(pair).Some? && !old(Usable()))) then None else old(pair)
    {
      if readable {
        if pair.None? {
          return fallback;
        }
        if pair.value.Storable() {
          return pair;
        }
      }
      if resets {
        pair := None;
      }
      return fallback;
    }

    /**
      The key chain keeps the tokens, or does not in time; empty ones are not even tried. What is read afterwards are the
      tokens if and only if they can be stored, and were, or nothing older is in the way.
      */
    method SaveTokens(tokens: Tokens, kept: bool)
      requires Kept()
      modifies this
      ensures Kept()
      ensures !tokens.Storable() ==> pair == old(pair) && fallback == old(fallback)
      ensures tokens.Storable() && kept ==> pair == Some(tokens) && fallback == None
      ensures tokens.Storable() && !kept ==> pair == old(pair) && fallback == Some(tokens)
      ensures tokens.Storable() <==> tokens.access != "" && tokens.refresh != ""
      ensures Read(true) == Some(tokens) <==> tokens.Storable() && (kept || !old(Usable()) || old(pair) == Some(tokens))
      ensures Read(false) == Some(tokens) <==> tokens.Storable() && !kept
    {
      if !tokens.Storable() {
        return;
      }
      if kept {
        pair, fallback := Some(tokens), None;
      } else {
        fallback := Some(tokens);
      }
    }

    /** clearTokens, up to its await. */
    method ForgetFallback()
      modifies this`fallback
      ensures Kept() && fallback == None
    {
      fallback := None;
    }

    /** The rest of clearTokens; that the key chain cannot be reset is ignored. */
    method Reset(resets: bool)
      modifies this`pair
      ensures pair == if resets then None else old(pair)
    {
      if resets {
        pair := None;
      }
    }
  }

  datatype Outcome = Pending | Resolved(token: string) | Rejected(error: string)

  /** Where a refresh waits: for the stored tokens, the server's answer, the new tokens being stored, or the old ones being cleared. */
  datatype Phase = Reading | Posting(refresh: string) | Saving(tokens: Tokens) | Clearing(error: string) | Done(outcome: Outcome)

  class Request {
    var retry: bool
    var authorization: Option<string>

    constructor ()
      ensures !retry && authorization == None
    {
      retry, authorization := false, None;
    }
  }

  /** The promise of a request that waits for somebody else's refresh. */
  class Waiter {
    const request: Request
    var outcome: Outcome
    ghost const since: nat // the refresh it came in
    ghost const late: bool // after that one had failed, while the tokens were being cleared
    ghost var settler: nat // the refresh that settled it
    ghost var held: bool // and whether that was before the flag fell

    constructor (request: Request, ghost since: nat, ghost late: bool)
      ensures this.request == request && outcome == Pending && this.since == since && this.late == late
    {
      this.request, outcome, this.since, this.late, settler, held := request, Pending, since, late, 0, false;
    }

    /** The refresh that it has to be settled by. */
    ghost function Due(): nat {
      if late then since + 1 else since
    }
  }

  /** A run of the interceptor that refreshes. */
  class Refresher {
    const request: Request
    var phase: Phase

    constructor (request: Request)
      ensures this.request == request && phase == Reading
    {
      this.request, phase := request, Reading;
    }
  }

  datatype Reaction = Passed | Waits(waiter: Waiter) | Refreshes(refresher: Refresher)

  class Client {
    var isRefreshing: bool
    var failedQueue: seq<Waiter>
    const keyChain: KeyChain
    var signouts: nat

    ghost var running: set<Refresher> // those that are not done
    ghost var begun: nat // refreshes, so far
    ghost var results: seq<Outcome> // what came of those that were decided
    ghost var arrived: seq<Waiter>
    ghost var settled: seq<Waiter>

    /** Is there a refresh of which it is not known yet what comes of it? */
    ghost predicate Undecided()
      reads this`running, running`phase
    {
      exists h :: h in running && !h.phase.Clearing?
    }

    /** At most one refresh is running, and exactly when the flag is up. */
    ghost predicate Single()
      reads this`isRefreshing, this`running, running`phase
    {
      && (forall h :: h in running ==> !h.phase.Done?)
      && (forall h, h' :: h in running && h' in running ==> h == h')
      && (isRefreshing <==> running != {})
    }

    ghost predicate Counted()
      reads this`running, running`phase, this`begun, this`results
    {
      && begun == |results| + (if Undecided() then 1 else 0)
      && (running != {} ==> begun > 0)
      && (forall k :: 0 <= k < |results| ==> results[k] != Pending)
    }

    /** Those who wait are settled once, in the order in which they came. */
    ghost predicate InOrder()
      reads this`failedQueue, this`arrived, this`settled
    {
      NoDup(arrived) && arrived == settled + failedQueue
    }

    /** Whoever is in the queue waits for the refresh that will be decided next. */
    ghost predicate Waiting()
      reads this`failedQueue, this`results, this`begun, failedQueue`outcome
    {
      forall w :: w in failedQueue ==> w.outcome == Pending && w.Due() == |results| && w.since < begun
    }

    /** Whoever is not was told what came of the refresh it waited for, before the flag fell. */
    ghost predicate Told()
      reads this`settled, this`results, settled
    {
      forall w :: w in settled ==> w.held && w.settler == w.Due() < |results| && w.outcome == results[w.settler]
    }

    ghost predicate Valid()
      reads this, running, failedQueue, settled, keyChain`fallback
    {
      Single() && Counted() && InOrder() && Waiting() && Told() && keyChain.Kept()
    }

    constructor ()
      ensures Valid() && !isRefreshing && failedQueue == [] && arrived == [] && fresh(running) && fresh(keyChain) && signouts == 0
    {
      isRefreshing, failedQueue, signouts := false, [], 0;
      keyChain := new KeyChain();
      running, begun, results, arrived, settled := {}, 0, [], [], [];
    }

    /** The rest of the program signs in, and out. */
    method SignIn(tokens: Tokens, kept: bool)
      requires Valid()
      modifies keyChain
      ensures Valid()
      ensures if tokens.access == "" || tokens.refresh == "" then
                keyChain.pair == old(keyChain.pair) && keyChain.fallback == old(keyChain.fallback)
              else if kept then keyChain.pair == Some(tokens) && keyChain.fallback == None
              else keyChain.pair == old(keyChain.pair) && keyChain.fallback == Some(tokens)
    {
      keyChain.SaveTokens(tokens, kept);
    }

    method SignOut(resets: bool)
      requires Valid()
      modifies keyChain
      ensures Valid() && keyChain.fallback == None && (resets ==> keyChain.pair == None)
    {
      keyChain.ForgetFallback();
      keyChain.Reset(resets);
    }

    /** A response is an error: it is passed on, its request waits, or it starts a refresh. */
    method Failed(request: Request, unauthorized: bool) returns (r: Reaction)
      requires Valid()
      modifies this`isRefreshing, this`failedQueue, this`running, this`begun, this`arrived, request`retry
      ensures Valid() && results == old(results) && settled == old(settled)
      ensures r.Passed? <==> !unauthorized || old(request.retry)
      ensures r.Waits? <==> unauthorized && !old(request.retry) && old(isRefreshing)
      ensures r.Waits? ==>
        && fresh(r.waiter) && r.waiter.request == request && r.waiter.outcome == Pending
        && failedQueue == old(failedQueue) + [r.waiter] && arrived == old(arrived) + [r.waiter]
        && r.waiter.late == !Undecided()
      ensures r.Refreshes? ==>
        fresh(r.refresher) && running == {r.refresher} && r.refresher.phase == Reading && r.refresher.request == request
      ensures r.Refreshes? ==> begun == old(begun) + 1 && request.retry
      ensures !r.Waits? ==> failedQueue == old(failedQueue) && arrived == old(arrived)
      ensures !r.Refreshes? ==> running == old(running) && begun == old(begun) && request.retry == old(request.retry)
      ensures isRefreshing == (old(isRefreshing) || r.Refreshes?)
    {
      if !unauthorized || request.retry {
        return Passed;
      }
      if isRefreshing {
        var w := new Waiter(request, begun - 1, !Undecided());
        failedQueue := failedQueue + [w];
        arrived := arrived + [w];
        return Waits(w);
      }
      request.retry := true;
      isRefreshing := true;
      var h := new Refresher(request);
      running := running + {h};
      begun := begun + 1;
      return Refreshes(h);
    }

    /** This one was told that, by this refresh, while the flag was up. */
    static ghost predicate SettledBy(w: Waiter, k: nat, o: Outcome)
      reads w`outcome, w`settler, w`held
    {
      w.outcome == o && w.settler == w.Due() == k && w.held
    }

    /** Nobody is in a list without repetitions twice. */
    static lemma Distinct(a: seq<Waiter>, b: seq<Waiter>, i: nat)
      requires NoDup(a + b) && i < |b|
      ensures b[i] !in a && forall j :: 0 <= j < |b| && j != i ==> b[j] != b[i]
    {
      assert (a + b)[|a| + i] == b[i];
      forall j | 0 <= j < |b| && j != i
        ensures b[j] != b[i]
      {
        assert (a + b)[|a| + j] == b[j];
      }
      assert forall j :: 0 <= j < |a| ==> (a + b)[j] == a[j];
    }

    static function OutcomeOf(error: Option<string>, token: string): Outcome {
      if error.Some? then Rejected(error.value) else Resolved(token)
    }

    /** Settle everybody in the queue, first come, first served, and empty it. */
    method ProcessQueue(error: Option<string>, token: string)
      requires Valid() && Undecided()
      modifies this`failedQueue, this`results, this`settled
      modifies failedQueue`outcome, failedQueue`settler, failedQueue`held
      ensures InOrder() && Told() && failedQueue == []
      ensures settled == old(settled) + old(failedQueue) && results == old(results) + [OutcomeOf(error, token)]
      ensures forall w :: w in old(failedQueue) ==> w.outcome == OutcomeOf(error, token)
    {
      var queue := failedQueue;
      ghost var was, k := settled, |results|;
      var i := 0;
      while i < |queue|
        invariant i <= |queue| && failedQueue == queue && settled == was && |results| == k
        invariant forall j :: i <= j < |queue| ==> queue[j].Due() == k
        invariant forall j :: 0 <= j < i ==> SettledBy(queue[j], k, OutcomeOf(error, token))
        invariant Told()
        modifies queue`outcome, queue`settler, queue`held
      {
        Distinct(was, queue, i);
        var w := queue[i];
        if error.Some? {
          w.outcome := Rejected(error.value);
        } else {
          w.outcome := Resolved(token);
        }
        w.settler, w.held := k, isRefreshing;
        i := i + 1;
      }
      failedQueue := [];
      results := results + [OutcomeOf(error, token)];
      settled := settled + queue;
    }

    /** The stored tokens have been read. */
    method TokensRead(h: Refresher, readable: bool, resets: bool)
      requires Valid() && h in running && h.phase == Reading
      modifies h`phase, this`failedQueue, this`results, this`settled, keyChain
      modifies failedQueue`outcome, failedQueue`settler, failedQueue`held
      ensures Valid() && running == old(running) && isRefreshing
      ensures old(keyChain.Read(readable)).Some? ==>
        && h.phase == Posting(old(keyChain.Read(readable)).value.refresh)
        && results == old(results) && failedQueue == old(failedQueue) && settled == old(settled)
      ensures old(keyChain.Read(readable)).None? ==>
        h.phase == Clearing("No refresh token") && Decided(old(failedQueue), Rejected("No refresh token"))
    {
      hide Told, InOrder;
      var tokens := keyChain.GetTokens(readable, resets);
      if tokens.None? || tokens.value.refresh == "" {
        Fail(h, "No refresh token");
      } else {
        h.phase := Posting(tokens.value.refresh);
      }
    }

    /** The server has answered; what it says is stored next. */
    method Posted(h: Refresher, tokens: Tokens)
      requires Valid() && h in running && h.phase.Posting?
      modifies h`phase
      ensures Valid() && h.phase == Saving(tokens)
    {
      h.phase := Saving(tokens);
    }

    /** Everybody who was waiting has been told that, in the order in which they came, and nobody else. */
    twostate predicate Decided(queue: seq<Waiter>, o: Outcome)
      reads this, queue
    {
      && results == old(results) + [o]
      && failedQueue == [] && settled == old(settled) + queue
      && forall w :: w in queue ==> w.outcome == o
    }

    /** There is no token to refresh with, or no answer, or one that cannot be read; the tokens are cleared next. */
    method Fail(h: Refresher, error: string)
      requires Valid() && h in running && (h.phase == Reading || h.phase.Posting?)
      modifies h`phase, this`failedQueue, this`results, this`settled, keyChain`fallback
      modifies failedQueue`outcome, failedQueue`settler, failedQueue`held
      ensures Valid() && running == old(running) && isRefreshing && keyChain.fallback == None
      ensures h.phase == Clearing(error) && Decided(old(failedQueue), Rejected(error))
    {
      assert Undecided();
      ProcessQueue(Some(error), "");
      keyChain.ForgetFallback();
      h.phase := Clearing(error);
    }

    /**
      The key chain has been reset, or cannot be: the user is signed out, and the flag falls. Who came meanwhile goes on
      waiting.
      */
    method Cleared(h: Refresher, resets: bool)
      requires Valid() && h in running && h.phase.Clearing?
      modifies h`phase, keyChain`pair, this`signouts, this`isRefreshing, this`running
      ensures Valid() && !isRefreshing && running == {}
      ensures signouts == old(signouts) + 1 && keyChain.pair == if resets then None else old(keyChain.pair)
      ensures old(keyChain.fallback) == None ==> (keyChain.Read(true) == None <==> resets || !old(keyChain.Usable()))
      ensures h.phase == Done(Rejected(old(h.phase).error))
    {
      keyChain.Reset(resets);
      signouts := signouts + 1;
      running := running - {h};
      h.phase := Done(Rejected(h.phase.error));
      isRefreshing := false;
    }

    /**
      The key chain has the new tokens, or has not. Everybody is given the new one all the same, the first request is sent
      again with it, and the flag falls.
      */
    method Saved(h: Refresher, kept: bool)
      requires Valid() && h in running && h.phase.Saving?
      modifies h`phase, keyChain, this`failedQueue, this`results, this`settled, this`isRefreshing, this`running
      modifies failedQueue`outcome, failedQueue`settler, failedQueue`held, h.request`authorization
      ensures Valid() && !isRefreshing && running == {}
      ensures var tokens := old(h.phase).tokens;
        && Decided(old(failedQueue), Resolved(tokens.access)) && h.phase == Done(Resolved(tokens.access))
        && h.request.authorization == Some("Bearer " + tokens.access)
        && (keyChain.Read(true) == Some(tokens) <==>
            tokens.Storable() && (kept || !old(keyChain.Usable()) || old(keyChain.pair) == Some(tokens)))
    {
      hide Told, InOrder;
      var tokens := h.phase.tokens;
      keyChain.SaveTokens(tokens, kept);
      assert Undecided();
      ProcessQueue(None, tokens.access);
      h.request.authorization := Some("Bearer " + tokens.access);
      running := running - {h};
      h.phase := Done(Resolved(tokens.access));
      isRefreshing := false;
    }
  }

  /** Those who have come and have not been told anything are those in the queue. */
  lemma PendingIsQueued(c: Client, w: Waiter)
    requires c.Valid() && w in c.arrived
    ensures w.outcome == Pending <==> w in c.failedQueue
    ensures w.outcome != Pending ==> w.held && w.Due() < |c.results| && w.outcome == c.results[w.Due()]
  {
    assert w in c.settled || w in c.failedQueue;
    if w in c.settled {
      assert c.results[w.settler] != Pending;
    }
  }

  lemma WhichPart<T>(a: seq<T>, b: seq<T>, i: nat)
    requires i < |a| + |b|
    ensures if i < |a| then (a + b)[i] in a else (a + b)[i] in b
  {
  }

  /** Nobody overtakes anybody. */
  lemma SettledInOrder(c: Client, i: nat, j: nat)
    requires c.Valid() && i < j < |c.arrived| && c.arrived[j].outcome != Pending
    ensures c.arrived[i].outcome != Pending
  {
    PendingIsQueued(c, c.arrived[j]);
    WhichPart(c.settled, c.failedQueue, j);
    WhichPart(c.settled, c.failedQueue, i);
    PendingIsQueued(c, c.arrived[i]);
    assert c.results[c.arrived[i].settler] != Pending;
  }

  /**
    While nothing is being refreshed, somebody still waits if and only if they came after the last refresh had failed,
    and before its flag fell.
    */
  lemma StrandedIfLate(c: Client, w: Waiter)
    requires c.Valid() && !c.isRefreshing && w in c.arrived
    ensures w.outcome == Pending <==> w.late && w.since + 1 == c.begun
  {
    assert c.running == {} && c.begun == |c.results|;
    PendingIsQueued(c, w);
  }

  /** It can be that somebody waits although nothing is being refreshed. */
  method Stranded(first: Request, second: Request) returns (c: Client, w: Waiter)
    requires first != second && !first.retry && !second.retry
    modifies first, second
    ensures c.Valid() && !c.isRefreshing && c.failedQueue == [w] && w.outcome == Pending && w.request == second
  {
    c := new Client();
    var r := c.Failed(first, true);
    c.Fail(r.refresher, "no answer");
    var r2 := c.Failed(second, true);
    w := r2.waiter;
    c.Cleared(r.refresher, true);
  }
}
