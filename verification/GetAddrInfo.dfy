/** One evdns_getaddrinfo request: an A and an AAAA lookup, a timer for the slower one, and cancelling by the user. */
module GetAddrInfo {
  import opened Machine
  import opened Lists

  type Address = seq<int>

  /** How a lookup can end; the list of addresses can be empty. No lookup ends with SHUTDOWN here. */
  datatype Result = Answer(addrs: seq<Address>) | Failure(error: Error)

  datatype Error = NotExist | Cancel | OtherError

  /** A lookup: its handle is nil when it was never started or its callback ran; Queued means that its callback waits to run. */
  datatype Lookup = Nil | Outstanding | Queued(result: Result)

  datatype Code = Success | NoData | NoName | Fail | Again | Canceled

  /** What the user's callback is called with. */
  datatype Report = Report(code: Code, addrs: seq<Address>)

  datatype Family = A | AAAA

  function Other(f: Family): Family {
    if f == A then AAAA else A
  }

  /** evdns_err_to_getaddrinfo_err; Success stands for no error. */
  function ErrorCode(r: Result): Code {
    match r
    case Answer(addrs) => if addrs == [] then NoData else Success
    case Failure(NotExist) => NoName
    case Failure(_) => Fail
  }

  lemma AddNothing(addrs: seq<Address>)
    ensures addrs + [] == addrs && [] + addrs == addrs
  {
  }

  class Request {
    var a: Lookup
    var aaaa: Lookup
    var userCb: bool               // user_cb is not null
    var timer: bool                // the timer is pending
    var userCanceled: bool
    var requestDone: bool
    var pendingResult: seq<Address>
    var pendingError: Code
    ghost var reports: seq<Report>   // calls of the user's callback so far
    ghost var freed: bool
    ghost var fired: bool            // the timer went off
    ghost var gotA: seq<Address>     // answers that arrived while the user still wanted them
    ghost var gotAaaa: seq<Address>
    ghost var ended: Option<Result>  // how the lookup ended that ended last, while the user still waited

    /** Has every lookup ended? Then the memory is freed already. */
    predicate Over()
      reads this`a, this`aaaa
    {
      a == Nil && aaaa == Nil
    }

    function Of(f: Family): Lookup
      reads this`a, this`aaaa
    {
      if f == A then a else aaaa
    }

    ghost predicate Both()
      reads this`a, this`aaaa
    {
      a != Nil && aaaa != Nil
    }

    ghost predicate Got(f: Family)
      reads this`gotA, this`gotAaaa
    {
      (if f == A then gotA else gotAaaa) != []
    }

    /** All addresses there are; and without any, the reason of the lookup that ended last, or FAIL if none could be started. */
    ghost predicate TellsAll(r: Report)
      reads this`gotA, this`gotAaaa, this`ended
    {
      && r.addrs == gotA + gotAaaa
      && r.code ==
        if gotA + gotAaaa != [] then Success
        else if ended.None? then Fail
        else match ended.value
          case Answer(_) => NoData
          case Failure(e) => if e == NotExist then NoName else Fail
    }

    ghost predicate Valid()
      reads this
    {
      && (if freed then Finished() else Waiting())
      && (reports != [] && !userCanceled ==> TellsAll(reports[0]))
      && (|reports| == 1 ==> (reports[0].code == Canceled <==> userCanceled && !fired))
      && (gotA != [] ==> a == Nil) && (gotAaaa != [] ==> aaaa == Nil)
    }

    /** Over: both lookups are, no timer is left, and the user was called exactly once. */
    ghost predicate Finished()
      reads this
    {
      a == Nil && aaaa == Nil && !timer && |reports| == 1
    }

    ghost predicate Waiting()
      reads this
    {
      && (a != Nil || aaaa != Nil) && !requestDone
      && |reports| == (if userCb then 0 else 1)
      // the timer runs only for the second of two lookups
      && (timer ==> !Both() && userCb)
      // the user was called already: by the timer, and what is left is a callback in the queue
      && (!userCb ==> fired && !Both() && !a.Outstanding? && !aaaa.Outstanding?)
      && (fired ==> !userCb)
      // a user's cancelling reaches every lookup
      && (userCanceled ==> !a.Outstanding? && !aaaa.Outstanding?)
      // only the user, or the timer, cancels a lookup
      && (userCb && !userCanceled ==> a != Queued(Failure(Cancel)) && aaaa != Queued(Failure(Cancel)))
      // what is pending came from the lookup that is over
      && (pendingResult != [] || pendingError != Success ==> !Both())
      && (timer ==> pendingResult != [] || pendingError != Success)
      && (userCb && !userCanceled ==> pendingResult == gotA + gotAaaa)
      && (userCb && !userCanceled ==>
          if ended.None? then pendingError == Success && pendingResult == [] else pendingError == ErrorCode(ended.value))
      && (timer && userCanceled ==> pendingResult == [])
      && pendingError != Canceled && pendingError != Again
    }

    /** Both families, or one; a lookup that could not be started counts as one that was not wanted. */
    constructor (wantA: bool, wantAaaa: bool)
      ensures Valid() && fresh(this)
      ensures freed <==> !wantA && !wantAaaa
      ensures reports == if wantA || wantAaaa then [] else [Report(Fail, [])]
      ensures (a == if wantA then Outstanding else Nil) && (aaaa == if wantAaaa then Outstanding else Nil)
      ensures !timer && !userCanceled && !fired
    {
      a := if wantA then Outstanding else Nil;
      aaaa := if wantAaaa then Outstanding else Nil;
      timer, userCanceled, requestDone, pendingResult, pendingError := false, false, false, [], Success;
      fired, gotA, gotAaaa, ended := false, [], [], None;
      userCb := wantA || wantAaaa;
      if wantA || wantAaaa {
        reports, freed := [], false;
      } else {
        reports, freed := [Report(Fail, [])], true;
      }
    }

    /** evdns_cancel_request: does nothing when the callback is already in the queue. */
    method CancelLookup(f: Family)
      requires Of(f) != Nil
      modifies this`a, this`aaaa
      ensures Of(f) == old(if Of(f).Outstanding? then Queued(Failure(Cancel)) else Of(f)) && Of(Other(f)) == old(Of(Other(f)))
    {
      if f == A && a.Outstanding? {
        a := Queued(Failure(Cancel));
      }
      if f == AAAA && aaaa.Outstanding? {
        aaaa := Queued(Failure(Cancel));
      }
    }

    /** A lookup ends by itself: its callback is queued. */
    method Complete(f: Family, r: Result)
      requires Valid() && !freed && Of(f).Outstanding? && r != Failure(Cancel)
      modifies this`a, this`aaaa
      ensures Valid() && Of(f) == Queued(r) && Of(Other(f)) == old(Of(Other(f)))
    {
      if f == A {
        a := Queued(r);
      } else {
        aaaa := Queued(r);
      }
    }

    method Call(code: Code, addrs: seq<Address>)
      requires userCb
      modifies this`reports
      ensures reports == old(reports) + [Report(code, addrs)]
    {
      reports := reports + [Report(code, addrs)];
    }

    /** free_getaddrinfo_request */
    method Free()
      requires !freed && a == Nil && aaaa == Nil
      modifies this`timer, this`freed
      ensures freed && !timer
    {
      timer, freed := false, true;
    }

    /** The timer goes off: the user gets what there is, and the slower lookup is canceled. */
    method TimeoutCb()
      requires Valid() && !freed && timer
      modifies this
      ensures Valid() && !freed && fired && userCanceled == old(userCanceled)
      ensures |reports| == 1 && gotA == old(gotA) && gotAaaa == old(gotAaaa) && ended == old(ended) && !Both()
      ensures !userCanceled ==> ended.Some? && TellsAll(reports[0])
      ensures !userCanceled && gotA + gotAaaa == [] ==>
        reports == [Report(if ended.value == Failure(NotExist) then NoName else if ended.value.Failure? then Fail else NoData, [])]
      ensures reports[0].code !in {Canceled, Again} && (reports[0].code == Success ==> reports[0].addrs != [])
      ensures forall f :: Of(f) == old(if Of(f).Outstanding? then Queued(Failure(Cancel)) else Of(f))
    {
      timer, fired := false, true;
      CancelLeft();
      assert Of(A) == a && Of(AAAA) == aaaa;
      TellPending();
      userCb := false;
    }

    /** Cancels the lookup that is left. */
    method CancelLeft()
      requires !Both() && !Over()
      modifies this`a, this`aaaa
      ensures forall f :: Of(f) == old(if Of(f).Outstanding? then Queued(Failure(Cancel)) else Of(f))
    {
      var aTimedOut, aaaaTimedOut := false, false;
      if a != Nil {
        CancelLookup(A);
        aTimedOut := true;
      }
      if aaaa != Nil {
        CancelLookup(AAAA);
        aaaaTimedOut := true;
      }
      assert !aTimedOut || !aaaaTimedOut;
      assert aTimedOut || aaaaTimedOut;
      assert forall f :: Of(f) == if f == A then a else aaaa;
    }

    /** Reports the outcome of the lookup that did not time out. */
    method TellPending()
      requires userCb && reports == []
      modifies this`reports, this`pendingResult
      ensures pendingResult == []
      ensures reports == old([if pendingResult != [] then Report(Success, pendingResult)
                              else Report(if pendingError == Success then Again else pendingError, [])])
    {
      if pendingResult != [] {
        Call(Success, pendingResult);
        pendingResult := [];
      } else {
        var e := if pendingError == Success then Again else pendingError;
        Call(e, []);
      }
    }

    /** The last lookup failed. */
    method ReportError(err: Code)
      requires !freed && a == Nil && aaaa == Nil && userCb && reports == []
      modifies this`reports, this`pendingResult, this`timer, this`freed
      ensures freed && !timer
      ensures reports == old([if userCanceled then Report(Canceled, [])
                              else if pendingResult != [] then Report(Success, pendingResult)
                              else Report(err, [])])
    {
      if userCanceled {
        Call(Canceled, []);
      } else if pendingResult != [] {
        Call(Success, pendingResult);
        pendingResult := [];
      } else {
        Call(err, []);
      }
      Free();
    }

    /** The last lookup succeeded: tells of all addresses. */
    method ReportAll(f: Family, addrs: seq<Address>)
      requires !freed && a == Nil && aaaa == Nil && userCb && reports == []
      modifies this`reports, this`pendingResult, this`timer, this`freed
      ensures freed && !timer
      ensures reports == [Report(Success, if f == A then addrs + old(pendingResult) else old(pendingResult) + addrs)]
    {
      AddNothing(addrs);
      var res := addrs;
      if pendingResult != [] {
        res := if f == A then res + pendingResult else pendingResult + res;
        pendingResult := [];
      }
      Call(Success, res);
      Free();
    }

    /** In the callback of a lookup that ended with r: it is no longer counted, and the user was not called before. */
    ghost predicate Ending(f: Family, r: Result)
      reads this
    {
      var other := Of(Other(f));
      && !freed && userCb && reports == [] && !fired && Of(f) == Nil && (requestDone <==> other == Nil)
      && (userCanceled ==> !other.Outstanding?)
      && (!userCanceled ==> r != Failure(Cancel) && other != Queued(Failure(Cancel)) && pendingResult == gotA + gotAaaa)
      && (timer ==> other == Nil && (pendingResult != [] || pendingError != Success) && (userCanceled ==> pendingResult == []))
      && (other != Nil ==> pendingResult == [] && pendingError == Success && gotA == gotAaaa == [])
      && (if f == A then gotA else gotAaaa) == [] && pendingError != Canceled && pendingError != Again
    }

    ghost method Note(f: Family, r: Result)
      requires userCb
      modifies this`ended, this`gotA, this`gotAaaa
      ensures Noted(f, r)
    {
      if !userCanceled {
        ended := Some(r);
        if r.Answer? && f == A {
          gotA := r.addrs;
        } else if r.Answer? {
          gotAaaa := r.addrs;
        }
      }
    }

    /** The rest of the callback of a lookup. */
    method Tell(f: Family, r: Result)
      requires Ending(f, r)
      modifies this
      ensures Valid() && Of(f) == Nil && Of(Other(f)) == old(Of(Other(f))) && userCanceled == old(userCanceled)
      ensures (freed <==> old(Of(Other(f))) == Nil) && fired == old(fired) && Noted(f, r)
      ensures if freed then |reports| == 1 && Told(reports[0]) else reports == []
      ensures !freed ==> userCb && (timer <==> !userCanceled || r.Failure? || r.addrs == [])
    {
      hide Ending, Noted, Valid, Told;
      var err := ErrorCode(r);
      if err != Success {
        TellError(f, r);
      } else if userCanceled {
        TellNoAnswer(f, r);
      } else {
        TellAnswer(f, r);
      }
    }

    method TellError(f: Family, r: Result)
      requires Ending(f, r) && ErrorCode(r) != Success
      modifies this
      ensures Valid() && Of(f) == Nil && Of(Other(f)) == old(Of(Other(f))) && userCanceled == old(userCanceled)
      ensures (freed <==> old(Of(Other(f))) == Nil) && fired == old(fired) && Noted(f, r)
      ensures if freed then |reports| == 1 && Told(reports[0]) else reports == []
      ensures !freed ==> userCb && (timer <==> !userCanceled || r.Failure? || r.addrs == [])
    {
      AddNothing(pendingResult);
      Note(f, r);
      var err := ErrorCode(r);
      if Of(Other(f)) != Nil {
        timer, pendingError := true, err;
        return;
      }
      ReportError(err);
    }

    /** There is an answer, but the user has canceled. */
    method TellNoAnswer(f: Family, r: Result)
      requires Ending(f, r) && ErrorCode(r) == Success && userCanceled
      modifies this
      ensures Valid() && Of(f) == Nil && Of(Other(f)) == old(Of(Other(f))) && userCanceled == old(userCanceled)
      ensures (freed <==> old(Of(Other(f))) == Nil) && fired == old(fired) && Noted(f, r)
      ensures if freed then |reports| == 1 && Told(reports[0]) else reports == []
      ensures !freed ==> userCb && (timer <==> !userCanceled || r.Failure? || r.addrs == [])
    {
      Note(f, r);
      if Of(Other(f)) != Nil {
        return;
      }
      Call(Canceled, []);
      Free();
    }

    lemma AnswerAdds(f: Family, r: Result)
      requires Ending(f, r) && ErrorCode(r) == Success && !userCanceled
      ensures var all := if f == A then r.addrs + gotAaaa else gotA + r.addrs;
        all != [] && all == if f == A then r.addrs + pendingResult else pendingResult + r.addrs
      ensures Of(Other(f)) != Nil ==> (if f == A then r.addrs + gotAaaa else gotA + r.addrs) == r.addrs
    {
      AddNothing(gotA);
      AddNothing(gotAaaa);
      AddNothing(r.addrs);
    }

    method TellAnswer(f: Family, r: Result)
      requires Ending(f, r) && ErrorCode(r) == Success && !userCanceled
      modifies this
      ensures Valid() && Of(f) == Nil && Of(Other(f)) == old(Of(Other(f))) && userCanceled == old(userCanceled)
      ensures (freed <==> old(Of(Other(f))) == Nil) && fired == old(fired) && Noted(f, r)
      ensures if freed then |reports| == 1 && Told(reports[0]) else reports == []
      ensures !freed ==> userCb && (timer <==> !userCanceled || r.Failure? || r.addrs == [])
    {
      AnswerAdds(f, r);
      Note(f, r);
      var res := r.addrs;
      if Of(Other(f)) != Nil {
        timer, pendingResult := true, res;
        return;
      }
      ReportAll(f, res);
    }

    /** The callback of lookup f was called, and the user if this was the last one. */
    twostate predicate Resolved(f: Family)
      reads this
    {
      && old(Of(f)).Queued? && Of(f) == Nil && Of(Other(f)) == old(Of(Other(f)))
      && (freed <==> old(Of(Other(f))) == Nil) && userCanceled == old(userCanceled)
      && Noted(f, old(Of(f)).result)
      && (if freed && old(userCb) then |reports| == 1 && Told(reports[0]) else reports == old(reports))
      && (!freed ==>
          var r := old(Of(f)).result;
          && userCb == old(userCb)
          && (timer <==> !userCanceled || r.Failure? || r.addrs == []))
    }

    /** What there is to tell the user who still waits. */
    twostate predicate Noted(f: Family, r: Result)
      reads this
    {
      var wanted := old(userCb) && !userCanceled;
      && ended == (if wanted then Some(r) else old(ended))
      && gotA == (if wanted && r.Answer? && f == A then r.addrs else old(gotA))
      && gotAaaa == (if wanted && r.Answer? && f == AAAA then r.addrs else old(gotAaaa))
    }

    /** The user is told that the request was canceled, or all there is to tell. */
    ghost predicate Told(r: Report)
      reads this`userCanceled, this`gotA, this`gotAaaa, this`ended
    {
      if userCanceled then r == Report(Canceled, []) else TellsAll(r)
    }

    twostate lemma ResolvedIs(f: Family)
      requires Resolved(f)
      ensures a.Queued? == old(a.Queued? && f != A) && aaaa.Queued? == old(aaaa.Queued? && f != AAAA)
      ensures Work() < old(Work())
    {
      assert Of(A) == a && Of(AAAA) == aaaa;
      assert old(Of(A) == a && Of(AAAA) == aaaa);
    }

    /** The callback of a lookup. */
    method GotResolve(f: Family)
      requires Valid() && !freed && Of(f).Queued?
      modifies this
      ensures Valid() && Resolved(f)
      ensures userCanceled == old(userCanceled) && fired == old(fired) && (freed ==> !timer)
      ensures old(userCanceled && userCb) ==> reports == if freed then [Report(Canceled, [])] else []
      ensures freed && old(userCb && !userCanceled) ==>
        var r := old(Of(f)).result;
        reports == [if gotA + gotAaaa != [] then Report(Success, gotA + gotAaaa)
                    else Report(if r == Failure(NotExist) then NoName else if r.Failure? then Fail else NoData, [])]
    {
      hide Waiting, Ending, TellsAll;
      var r := Of(f).result;
      QuietOnly(f);
      TakeOff(f);
      if r == Failure(Cancel) && !userCanceled {
        if Of(Other(f)) == Nil {
          Free();
        }
        return;
      }
      if !userCb {
        Free();
        return;
      }
      Tell(f, r);
      TellsCode(r);
    }

    /** The lookup is over; there is no canceling any more if it was the last. */
    method TakeOff(f: Family)
      requires Valid() && !freed && Of(f).Queued?
      modifies this`a, this`aaaa, this`requestDone
      ensures Of(f) == Nil && Of(Other(f)) == old(Of(Other(f)))
      ensures var r := old(Of(f)).result; userCb && (r == Failure(Cancel) ==> userCanceled) ==> Ending(f, r)
    {
      if Of(Other(f)) == Nil {
        requestDone := true;
      }
      if f == A {
        a := Nil;
      } else {
        aaaa := Nil;
      }
      AddNothing(gotA);
    }

    /** Who was told already, or canceled by the timer, is the last one. */
    lemma QuietOnly(f: Family)
      requires Valid() && !freed && Of(f).Queued?
      ensures |reports| == (if userCb then 0 else 1) && (timer ==> !Both())
      ensures !userCb || (Of(f) == Queued(Failure(Cancel)) && !userCanceled) ==> !userCb && Of(Other(f)) == Nil
    {
    }

    lemma TellsCode(r: Result)
      ensures reports != [] && ended == Some(r) && TellsAll(reports[0]) ==>
        reports[0] == if gotA + gotAaaa != [] then Report(Success, gotA + gotAaaa)
                      else Report(if r == Failure(NotExist) then NoName else if r.Failure? then Fail else NoData, [])
    {
    }

    /** The user cancels; not allowed once the callback was called. */
    method UserCancel()
      requires Valid() && !freed && reports == []
      modifies this
      ensures Valid() && !freed && reports == [] && userCanceled && !timer
      ensures forall f :: Of(f) == old(if Of(f).Outstanding? then Queued(Failure(Cancel)) else Of(f))
    {
      if !requestDone {
        timer, userCanceled := false, true;
        if a != Nil {
          CancelLookup(A);
        }
        if aaaa != Nil {
          CancelLookup(AAAA);
        }
      }
    }

    /** Steps that are left for the lookups to take. */
    ghost function Work(): nat
      reads this`a, this`aaaa
    {
      LookupWork(a) + LookupWork(aaaa)
    }
  }

  ghost function LookupWork(l: Lookup): nat {
    match l
    case Nil => 0
    case Queued(_) => 1
    case Outstanding => 2
  }

  /** What can happen to a request. */
  datatype Step = Completes(f: Family, r: Result) | Runs(f: Family) | TimesOut | UserCancels

  /** One step, if it is possible. */
  method Take(r: Request, step: Step) returns (ghost taken: Step)
    requires r.Valid()
    modifies r
    ensures r.Valid() && taken == step
    ensures match step
      case Completes(f, result) =>
        r.Of(f) == if old(r.Of(f).Outstanding?) && result != Failure(Cancel) then Queued(result) else old(r.Of(f))
      case Runs(f) => r.Of(f) == if old(r.Of(f).Queued?) then Nil else old(r.Of(f))
      case TimesOut => !r.timer && (r.fired <==> old(r.fired || r.timer))
      case UserCancels => r.userCanceled <==> old(r.userCanceled || (r.userCb && !r.Over()))
  {
    taken := step;
    if !r.Over() {
      match step {
        case Completes(f, result) =>
          if r.Of(f).Outstanding? && result != Failure(Cancel) {
            r.Complete(f, result);
          }
        case Runs(f) =>
          if r.Of(f).Queued? {
            r.GotResolve(f);
          }
        case TimesOut =>
          if r.timer {
            r.TimeoutCb();
          }
        case UserCancels =>
          if r.userCb {
            r.UserCancel();
          }
      }
    }
  }

  /** Any steps in any order, also in orders that the event loop excludes. Ghost: the steps that were taken. */
  method Run(r: Request, steps: seq<Step>) returns (ghost taken: seq<Step>)
    requires r.Valid()
    modifies r
    ensures r.Valid() && taken == steps
    ensures r.Work() == 0 <==> r.freed
    ensures r.freed ==> |r.reports| == 1 && (r.reports[0].code == Canceled <==> r.userCanceled && !r.fired)
    ensures |r.reports| <= 1
  {
    taken := [];
    for i := 0 to |steps|
      invariant r.Valid() && taken == steps[..i]
    {
      ghost var step := Take(r, steps[i]);
      taken := taken + [step];
    }
  }

  /** However a request stands, once its lookups ended it is over: nothing else has to happen for the user to be called. */
  method Settle(r: Request, ra: Result, raaaa: Result)
    requires r.Valid() && ra != Failure(Cancel) && raaaa != Failure(Cancel)
    modifies r
    ensures r.Valid() && r.freed && |r.reports| == 1
  {
    while !r.Over()
      invariant r.Valid()
      decreases r.Work()
    {
      if r.a.Outstanding? {
        r.Complete(A, ra);
      } else if r.aaaa.Outstanding? {
        r.Complete(AAAA, raaaa);
      } else if r.a.Queued? {
        r.GotResolve(A);
      } else {
        r.GotResolve(AAAA);
      }
    }
  }

  // ----- the order of the event loop -----

  /** What waits to be run: the callback of a lookup, or of the timer. */
  datatype Ready = Callback(f: Family) | Timer

  /** Something that happens to a request or in the loop. Callbacks are put off when the loop has many of them already. */
  datatype Turn =
    | Ends(f: Family, r: Result, putOff: bool)
    | Cancels(putOffA: bool, putOffAaaa: bool)
    | LaterBecomeActive
    | TimersAreChecked(due: bool)
    | NextRuns(putOff: bool)

  function AddIf(s: seq<Ready>, some: bool, x: Ready): seq<Ready> {
    if some then s + [x] else s
  }

  ghost function Count(active: seq<Ready>, later: seq<Ready>, x: Ready): nat {
    multiset(active)[x] + multiset(later)[x]
  }

  /** Each callback that waits is queued once, and so may be a timer. */
  ghost predicate InQueues(active: seq<Ready>, later: seq<Ready>, a: bool, aaaa: bool, timer: bool) {
    && Count(active, later, Callback(A)) == (if a then 1 else 0)
    && Count(active, later, Callback(AAAA)) == (if aaaa then 1 else 0)
    && multiset(later)[Timer] == 0 && multiset(active)[Timer] <= if timer then 1 else 0
  }

  /** The timer is behind the one callback that is left. */
  ghost predicate TimerLast(active: seq<Ready>, later: seq<Ready>) {
    Timer in active ==> active[0] != Timer && later == []
  }

  lemma InQueuesScheduled(active: seq<Ready>, later: seq<Ready>, a: bool, aaaa: bool, timer: bool, f: Family)
    requires InQueues(active, later, a, aaaa, timer) && !(if f == A then a else aaaa)
    ensures InQueues(active + [Callback(f)], later, a || f == A, aaaa || f == AAAA, timer)
    ensures InQueues(active, later + [Callback(f)], a || f == A, aaaa || f == AAAA, timer)
  {
  }

  lemma {:induction false} InQueuesWithout(active: seq<Ready>, later: seq<Ready>, a: bool, aaaa: bool)
    requires InQueues(active, later, a, aaaa, true)
    ensures InQueues(Without(active, Timer), later, a, aaaa, false) && Timer !in Without(active, Timer)
  {
    WithoutCounts(active, Timer, Timer);
    WithoutCounts(active, Timer, Callback(A));
    WithoutCounts(active, Timer, Callback(AAAA));
  }

  lemma {:induction false} WithoutCounts(s: seq<Ready>, x: Ready, y: Ready)
    ensures multiset(Without(s, x))[y] == if x == y && x in s then multiset(s)[y] - 1 else multiset(s)[y]
  {
    if s != [] {
      assert s == [s[0]] + s[1..];
      if s[0] != x {
        WithoutCounts(s[1..], x, y);
      }
    }
  }

  lemma WithoutTimer(active: seq<Ready>, later: seq<Ready>, a: bool, aaaa: bool, timer: bool)
    requires InQueues(active, later, a, aaaa, timer)
    ensures InQueues(active, later, a, aaaa, true)
  {
  }

  lemma NoTimer(active: seq<Ready>, later: seq<Ready>, a: bool, aaaa: bool)
    requires InQueues(active, later, a, aaaa, false)
    ensures TimerLast(active, later)
  {
  }

  lemma InQueuesActivated(active: seq<Ready>, later: seq<Ready>, a: bool, aaaa: bool, timer: bool)
    requires InQueues(active, later, a, aaaa, timer)
    ensures InQueues(active + later, [], a, aaaa, timer)
    ensures TimerLast(active, later) ==> TimerLast(active + later, [])
  {
    if Timer in active + later && TimerLast(active, later) {
      assert Timer in active;
    }
  }

  lemma InQueuesTimer(active: seq<Ready>, later: seq<Ready>, a: bool, aaaa: bool)
    requires InQueues(active, later, a, aaaa, true) && Timer !in active
    ensures InQueues(active + [Timer], later, a, aaaa, true)
    ensures later == [] && (a || aaaa) ==> TimerLast(active + [Timer], later)
  {
    if later == [] && a {
      assert Callback(A) in active;
    } else if later == [] && aaaa {
      assert Callback(AAAA) in active;
    }
  }

  lemma InQueuesNext(active: seq<Ready>, later: seq<Ready>, a: bool, aaaa: bool, timer: bool)
    requires InQueues(active, later, a, aaaa, timer) && active != []
    ensures match active[0]
      case Callback(A) => a && InQueues(active[1..], later, false, aaaa, timer)
      case Callback(AAAA) => aaaa && InQueues(active[1..], later, a, false, timer)
      case Timer => timer && InQueues(active[1..], later, a, aaaa, false) && Timer !in active[1..]
  {
    assert active == [active[0]] + active[1..];
  }

  /** A request, and what the event loop has to run for it. */
  class Loop {
    const req: Request
    var active: seq<Ready>   // in the queue of its priority
    var later: seq<Ready>    // put off to the next round
    var checking: bool       // those put off were made active, and the timers are to be checked now

    ghost predicate Valid()
      reads this, req
    {
      && req.Valid() && InQueues(active, later, req.a.Queued?, req.aaaa.Queued?, req.timer)
      && (req.userCanceled ==>
          && !req.fired && TimerLast(active, later) && (req.timer && checking ==> later == [])
          && req.reports == if req.freed then [Report(Canceled, [])] else [])
    }

    constructor (wantA: bool, wantAaaa: bool)
      ensures Valid() && fresh(req) && active == later == [] && !checking
      ensures req.freed <==> !wantA && !wantAaaa
      ensures req.a.Outstanding? == wantA && req.aaaa.Outstanding? == wantAaaa && !req.userCanceled
    {
      req := new Request(wantA, wantAaaa);
      active, later, checking := [], [], false;
    }

    /** event_deferred_cb_schedule_ */
    method Schedule(f: Family, putOff: bool)
      modifies this`active, this`later
      ensures active == if putOff then old(active) else old(active) + [Callback(f)]
      ensures later == if putOff then old(later) + [Callback(f)] else old(later)
    {
      if putOff {
        later := later + [Callback(f)];
      } else {
        active := active + [Callback(f)];
      }
    }

    /** A lookup ends by itself. */
    method LookupEnds(f: Family, r: Result, putOff: bool)
      requires Valid() && !req.freed && req.Of(f).Outstanding? && r != Failure(Cancel)
      modifies this, req
      ensures Valid() && req.Of(f) == Queued(r) && req.userCanceled == old(req.userCanceled)
      ensures active == AddIf(old(active), !putOff, Callback(f)) && later == AddIf(old(later), putOff, Callback(f))
    {
      hide InQueues, TimerLast;
      InQueuesScheduled(active, later, req.a.Queued?, req.aaaa.Queued?, req.timer, f);
      req.Complete(f, r);
      Schedule(f, putOff);
    }

    /** The user cancels; not allowed once the callback was called. */
    method CancelAll(putOffA: bool, putOffAaaa: bool)
      requires Valid() && !req.freed && req.userCb
      modifies this, req
      ensures Valid() && !req.freed && req.userCanceled && req.reports == []
      ensures !req.timer && Timer !in active
      ensures active == AddIf(AddIf(Without(old(active), Timer), old(req.a.Outstanding?) && !putOffA, Callback(A)),
                              old(req.aaaa.Outstanding?) && !putOffAaaa, Callback(AAAA))
      ensures later == AddIf(AddIf(old(later), old(req.a.Outstanding?) && putOffA, Callback(A)),
                             old(req.aaaa.Outstanding?) && putOffAaaa, Callback(AAAA))
      ensures forall f :: req.Of(f) == old(if req.Of(f).Outstanding? then Queued(Failure(Error.Cancel)) else req.Of(f))
    {
      hide InQueues, TimerLast, AddIf;
      var a, aaaa := req.a, req.aaaa;
      WithoutTimer(active, later, a.Queued?, aaaa.Queued?, req.timer);
      RemoveTimer(a.Queued?, aaaa.Queued?);
      req.UserCancel();
      assert req.Of(A) == req.a && req.Of(AAAA) == req.aaaa;
      hide Request.Waiting, Request.Finished;
      ScheduleIf(a.Outstanding?, A, putOffA, a.Queued?, aaaa.Queued?);
      ScheduleIf(aaaa.Outstanding?, AAAA, putOffAaaa, a != Nil, aaaa.Queued?);
      NoTimer(active, later, req.a.Queued?, req.aaaa.Queued?);
    }

    /** event_del, for the timer. */
    method RemoveTimer(ghost a: bool, ghost aaaa: bool)
      requires InQueues(active, later, a, aaaa, true)
      modifies this`active
      ensures InQueues(active, later, a, aaaa, false) && Timer !in active && TimerLast(active, later)
      ensures active == Without(old(active), Timer)
    {
      InQueuesWithout(active, later, a, aaaa);
      active := Without(active, Timer);
    }

    /** The callback of a lookup that is canceled just now is queued. */
    method ScheduleIf(canceled: bool, f: Family, putOff: bool, ghost a: bool, ghost aaaa: bool)
      requires InQueues(active, later, a, aaaa, false) && (canceled ==> !if f == A then a else aaaa)
      modifies this`active, this`later
      ensures InQueues(active, later, a || (canceled && f == A), aaaa || (canceled && f == AAAA), false)
      ensures active == AddIf(old(active), canceled && !putOff, Callback(f))
      ensures later == AddIf(old(later), canceled && putOff, Callback(f))
      ensures Timer in active ==> Timer in old(active)
    {
      hide InQueues;
      if canceled {
        InQueuesScheduled(active, later, a, aaaa, false, f);
        Schedule(f, putOff);
      }
    }

    /** event_queue_make_later_events_active: a round of the loop starts. */
    method MakeLaterActive()
      requires Valid()
      modifies this
      ensures Valid() && checking && later == [] && active == old(active + later)
    {
      hide InQueues, TimerLast;
      InQueuesActivated(active, later, req.a.Queued?, req.aaaa.Queued?, req.timer);
      active, later, checking := active + later, [], true;
    }

    /** timeout_process, when the timer is due or not. */
    method TimeoutProcess(due: bool)
      requires Valid() && checking
      modifies this
      ensures Valid() && !checking && later == old(later)
      ensures active == old(active) + if due && req.timer && Timer !in old(active) then [Timer] else []
    {
      hide InQueues, TimerLast;
      if due && req.timer && Timer !in active {
        InQueuesTimer(active, later, req.a.Queued?, req.aaaa.Queued?);
        active := active + [Timer];
      }
      checking := false;
    }

    /** How far the loop is from running something of the request. */
    ghost function Distance(): nat
      reads this`active, this`checking
    {
      (if active == [] then 2 else 0) + if checking then 1 else 0
    }

    lemma SomethingWaits()
      requires Valid() && req.userCanceled && !req.freed && active == []
      ensures later != []
    {
    }

    /** event_process_active runs what is first in the queue. */
    method RunNext(putOff: bool)
      requires Valid() && !checking && active != []
      modifies this, req
      ensures Valid() && !checking && req.userCanceled == old(req.userCanceled)
      ensures old(req.userCanceled) ==> old(active[0]) != Timer && req.Work() < old(req.Work())
      ensures match old(active[0])
        case Callback(f) => Ran(f)
        case Timer => TimerRan(putOff)
    {
      InQueuesNext(active, later, req.a.Queued?, req.aaaa.Queued?, req.timer);
      assert req.userCanceled ==> active[0] != Timer;
      hide *;
      match active[0] {
        case Callback(f) => RunCallback(f);
        case Timer => RunTimer(putOff);
      }
    }

    /** The callback of a lookup was at the head, and ran. */
    twostate predicate Ran(f: Family)
      requires old(active) != []
      reads this, req
    {
      && req.Resolved(f)
      && later == old(later) && active == if req.timer then old(active[1..]) else Without(old(active[1..]), Timer)
    }

    /** The timer was at the head, and its callback ran. */
    twostate predicate TimerRan(putOff: bool)
      requires old(active) != []
      reads this, req
    {
      var f := if old(req.a != Nil) then A else AAAA;
      var canceled := old(req.Of(f).Outstanding?);
      && req.fired && !req.freed && !req.userCanceled
      && |req.reports| == 1 && req.TellsAll(req.reports[0])
      && req.gotA == old(req.gotA) && req.gotAaaa == old(req.gotAaaa) && req.ended == old(req.ended)
      && req.Of(f) == (if canceled then Queued(Failure(Error.Cancel)) else old(req.Of(f))) && req.Of(Other(f)) == Nil
      && active == (if canceled && !putOff then old(active[1..]) + [Callback(f)] else old(active[1..]))
      && later == if canceled && putOff then old(later) + [Callback(f)] else old(later)
    }

    method RunCallback(f: Family)
      requires Valid() && !checking && active != [] && active[0] == Callback(f) && req.Of(f).Queued?
      modifies this, req
      ensures Valid() && !checking && req.userCanceled == old(req.userCanceled)
      ensures req.Work() < old(req.Work()) && Ran(f)
    {
      assert req.userCanceled ==> req.userCb;
      assert req.timer ==> req.Of(Other(f)) == Nil;
      hide InQueues, TimerLast, Request.Valid, Request.Resolved;
      InQueuesNext(active, later, req.a.Queued?, req.aaaa.Queued?, req.timer);
      ghost var timer := req.timer;
      req.GotResolve(f);
      req.ResolvedIs(f);
      TakeOut(!req.timer, req.a.Queued?, req.aaaa.Queued?, timer);
    }

    /** The head leaves the queue, and a timer that was stopped as well. */
    method TakeOut(stopped: bool, ghost a: bool, ghost aaaa: bool, ghost timer: bool)
      requires active != [] && InQueues(active[1..], later, a, aaaa, timer) && (stopped || !timer)
      modifies this`active
      ensures InQueues(active, later, a, aaaa, false) && Timer !in active && TimerLast(active, later)
      ensures active == if stopped then Without(old(active)[1..], Timer) else old(active)[1..]
    {
      active := active[1..];
      if stopped {
        WithoutTimer(active, later, a, aaaa, timer);
        RemoveTimer(a, aaaa);
      }
    }

    method RunTimer(putOff: bool)
      requires Valid() && !checking && active != [] && active[0] == Timer && !req.userCanceled
      modifies this, req
      ensures Valid() && !checking && !req.userCanceled && TimerRan(putOff)
    {
      hide InQueues, TimerLast;
      InQueuesNext(active, later, req.a.Queued?, req.aaaa.Queued?, req.timer);
      active := active[1..];
      var f := if req.a != Nil then A else AAAA;
      var canceled := req.Of(f).Outstanding?;
      ghost var a, aaaa := req.a.Queued?, req.aaaa.Queued?;
      assert req.Of(Other(f)) == Nil && !(canceled && if f == A then a else aaaa);
      hide Request.Waiting, Request.Finished;
      req.TimeoutCb();
      assert req.Of(A) == req.a && req.Of(AAAA) == req.aaaa;
      ScheduleIf(canceled, f, putOff, a, aaaa);
    }
  }

  /** One turn, if it is possible. */
  method TakeTurn(l: Loop, turn: Turn) returns (ghost taken: Turn)
    requires l.Valid()
    modifies l, l.req
    ensures l.Valid() && (old(l.req.userCanceled) ==> l.req.userCanceled) && taken == turn
    ensures match turn
      case Ends(f, r, _) =>
        l.req.Of(f) == if old(l.req.Of(f).Outstanding?) && r != Failure(Cancel) then Queued(r) else old(l.req.Of(f))
      case Cancels(_, _) => l.req.userCanceled <==> old(l.req.userCanceled || (l.req.userCb && !l.req.Over()))
      case LaterBecomeActive => l.later == [] && l.active == old(l.active + l.later) && l.checking
      case TimersAreChecked(due) =>
        && !l.checking && l.later == old(l.later)
        && l.active == AddIf(old(l.active), old(l.checking && l.req.timer && Timer !in l.active) && due, Timer)
      case NextRuns(_) =>
        !old(l.checking) && old(l.active) != [] ==>
          match old(l.active[0])
          case Callback(f) => l.req.Of(f) == Nil
          case Timer => l.req.fired
  {
    taken := turn;
    hide InQueues, TimerLast;
    match turn {
      case Ends(f, r, putOff) =>
        if l.req.Of(f).Outstanding? && r != Failure(Cancel) {
          l.LookupEnds(f, r, putOff);
        }
      case Cancels(putOffA, putOffAaaa) =>
        if !l.req.Over() && l.req.userCb {
          l.CancelAll(putOffA, putOffAaaa);
        }
      case LaterBecomeActive =>
        l.MakeLaterActive();
      case TimersAreChecked(due) =>
        if l.checking {
          l.TimeoutProcess(due);
        }
      case NextRuns(putOff) =>
        if !l.checking && l.active != [] {
          l.RunNext(putOff);
        }
    }
  }

  /** Whatever happens, in whatever order the event loop allows: if the user cancels, then CANCEL is all that is reported. Ghost: the turns. */
  method RunLoop(l: Loop, turns: seq<Turn>) returns (ghost taken: seq<Turn>)
    requires l.Valid()
    modifies l, l.req
    ensures l.Valid() && (old(l.req.userCanceled) ==> l.req.userCanceled) && taken == turns
    ensures l.req.userCanceled ==> l.req.reports == if l.req.freed then [Report(Canceled, [])] else []
    ensures |l.req.reports| <= 1 && (l.req.freed ==> |l.req.reports| == 1)
    ensures |l.req.reports| == 1 ==>
      && (l.req.reports[0].code == Canceled <==> l.req.userCanceled)
      && (!l.req.userCanceled ==> l.req.TellsAll(l.req.reports[0]))
  {
    taken := [];
    for i := 0 to |turns|
      invariant l.Valid() && (old(l.req.userCanceled) ==> l.req.userCanceled) && taken == turns[..i]
    {
      ghost var turn := TakeTurn(l, turns[i]);
      taken := taken + [turn];
    }
  }

  /** And CANCEL is reported after at most two callbacks, whenever timers are due. */
  method TellCanceled(l: Loop)
    requires l.Valid() && l.req.userCanceled
    modifies l, l.req
    ensures l.Valid() && l.req.freed && l.req.reports == [Report(Canceled, [])]
  {
    hide TimerLast;
    while !l.req.Over()
      invariant l.Valid() && l.req.userCanceled
      decreases l.req.Work(), l.Distance()
    {
      if l.checking {
        var due: bool := *;
        l.TimeoutProcess(due);
      } else if l.active == [] {
        l.SomethingWaits();
        l.MakeLaterActive();
      } else {
        var putOff: bool := *;
        l.RunNext(putOff);
      }
    }
  }
}
