/** Events and their queues: flags, counts, and timers. */
module Events {
  import opened Machine
  import opened Lists
  import opened TimeVals

  datatype Reason = Timeout | Read | Write | Closed | Signal | Finalize

  /** An event, or a callback that is none. */
  class Ev {
    const isEvent: bool
    const internal: bool
    const pri: nat
    const persist: bool
    const watches: bool      // has an fd or a signal
    const selfCb: bool       // closure EV_CLOSURE_CB_SELF
    var timeout: bool
    var inserted: bool
    var active: bool
    var later: bool
    var finalizing: bool
    var res: set<Reason>
    var at: TimeVal          // ev_timeout
    var every: TimeVal       // ev_io_timeout

    constructor (isEvent: bool, internal: bool, pri: nat, persist: bool, watches: bool, selfCb: bool)
      ensures this.isEvent == isEvent && this.internal == internal && this.pri == pri && this.persist == persist
      ensures this.watches == watches && this.selfCb == selfCb
      ensures Blank(this) && at == every == TimeVal(0, 0)
    {
      this.isEvent, this.internal, this.pri, this.persist := isEvent, internal, pri, persist;
      this.watches, this.selfCb := watches, selfCb;
      timeout, inserted, active, later, finalizing := false, false, false, false, false;
      res, at, every := {}, TimeVal(0, 0), TimeVal(0, 0);
    }
  }

  // ----- what the queues hold, as values -----

  /** A callback is in the queue of its priority if and only if it is flagged as active. */
  ghost predicate QueuesAre(queues: seq<seq<Ev>>, all: set<Ev>)
    reads all`active
  {
    && (forall i :: 0 <= i < |queues| ==> QueueIs(queues[i], i, all))
    && (forall e :: e in all && e.active ==> e.pri < |queues| && e in queues[e.pri])
  }

  ghost predicate QueueIs(queue: seq<Ev>, i: nat, all: set<Ev>)
    reads all`active
  {
    NoDup(queue) && forall e :: e in queue ==> e in all && e.active && e.pri == i
  }

  ghost predicate LaterIs(later: seq<Ev>, all: set<Ev>)
    reads all`later
  {
    && NoDup(later)
    && (forall e :: e in later ==> e in all && e.later)
    && (forall e :: e in all && e.later ==> e in later)
  }

  ghost predicate NeverBoth(all: set<Ev>)
    reads all`active, all`later
  {
    forall e :: e in all ==> !(e.active && e.later)
  }

  /** The heap holds the timers without the mark of a common timeout. */
  ghost predicate HeapIs(heap: set<Ev>, n: nat, all: set<Ev>)
    reads all`timeout, all`at
  {
    && heap <= all
    && (forall e :: e in all ==> (e in heap <==> e.timeout && !e.at.IsCommon(n)))
    && (forall e :: e in heap ==> e.at.IsPlain())
  }

  /** Each list holds the timers with its mark, in order of their time. */
  ghost predicate ListsAre(lists: seq<seq<Ev>>, all: set<Ev>)
    reads all`timeout, all`at
  {
    && (forall i :: 0 <= i < |lists| ==> ListIs(lists[i], i, |lists|, all) && Ordered(lists[i], all))
    && (forall e :: e in all && e.timeout && e.at.IsCommon(|lists|) ==> e in lists[e.at.Idx()])
  }

  ghost predicate ListIs(list: seq<Ev>, i: nat, n: nat, all: set<Ev>)
    reads all`timeout, all`at
  {
    NoDup(list) && forall e :: e in list ==> e in all && e.timeout && e.at.IsCommon(n) && e.at.Idx() == i
  }

  ghost predicate Ordered(list: seq<Ev>, all: set<Ev>)
    reads all`at
  {
    (forall e :: e in list ==> e in all) && forall i, j :: 0 <= i <= j < |list| ==> list[i].at.Le(list[j].at)
  }

  /** The lengths of the common timeouts carry their marks, and no two are the same. */
  predicate Marks(durations: seq<TimeVal>, n: nat) {
    && |durations| == n
    && (forall i :: 0 <= i < n ==> durations[i].IsCommon(n) && durations[i].Idx() == i)
    && forall i, j :: 0 <= i < j < n ==> durations[i].Time() != durations[j].Time()
  }

  /** A length with no more than a second in its microseconds, and no mark. */
  function Normalized(duration: TimeVal, n: nat): (d: TimeVal)
    ensures d.IsPlain()
  {
    if duration.usec > 1_000_000 then
      var u := if duration.IsCommon(n) then duration.Micros() else duration.usec;
      TimeVal(duration.sec + u / 1_000_000, u % 1_000_000)
    else duration
  }

  /** None of the first n lasts as long as d. */
  predicate NoneLasts(durations: seq<TimeVal>, n: nat, d: TimeVal) {
    n <= |durations| && forall i :: 0 <= i < n ==> durations[i].Time() != d
  }

  lemma OneMoreTried(durations: seq<TimeVal>, n: nat, d: TimeVal)
    requires NoneLasts(durations, n, d) && n < |durations| && durations[n].Time() != d
    ensures NoneLasts(durations, n + 1, d)
  {
  }

  lemma MarkMore(durations: seq<TimeVal>, n: nat, d: TimeVal)
    requires Marks(durations, n) && n < IDX_LIMIT && d.IsPlain()
    requires NoneLasts(durations, n, d)
    ensures Marks(durations + [d.Marked(n)], n + 1)
    ensures d.Marked(n).IsCommon(n + 1) && d.Marked(n).Idx() == n && d.Marked(n).Time() == d
  {
    MarkRoundTrip(d, n, n + 1);
    PlainIsNotCommon(d, n);
    hide TimeVal.IsCommon, TimeVal.Idx, TimeVal.Time, TimeVal.Marked;
    forall i | 0 <= i < n ensures durations[i].IsCommon(n + 1) {
      CommonStill(durations[i], n);
    }
  }

  lemma CommonStill(tv: TimeVal, n: nat)
    requires tv.IsCommon(n)
    ensures tv.IsCommon(n + 1)
  {
  }

  /** A common timeout with events will be looked at in time: its timer runs, is about to, or goes off no later than the first. */
  ghost predicate Wakes(list: seq<Ev>, t: Ev, running: Ev?, heap: set<Ev>, all: set<Ev>)
    reads all`active, all`at
  {
    && t in all && (list != [] ==> list[0] in all)
    && (list != [] && running != t && !t.active ==> t in heap && t.at.Le(list[0].at.Time()))
  }

  ghost function TimeoutSet(all: set<Ev>): set<Ev>
    reads all`timeout
  {
    set e | e in all && e.timeout && !e.internal
  }

  ghost function InsertedSet(all: set<Ev>): set<Ev>
    reads all`inserted
  {
    set e | e in all && e.inserted && !e.internal
  }

  ghost function ActiveSet(all: set<Ev>): set<Ev>
    reads all`active
  {
    set e | e in all && e.active && !e.internal
  }

  ghost function LaterSet(all: set<Ev>): set<Ev>
    reads all`later
  {
    set e | e in all && e.later && !e.internal
  }

  /** The queues without a callback, if it is active; and with one more. */
  function Cut(queues: seq<seq<Ev>>, ev: Ev, active: bool): seq<seq<Ev>> {
    if active && ev.pri < |queues| then queues[ev.pri := Without(queues[ev.pri], ev)] else queues
  }

  /** The common timeouts without an event, which was on with the given time. */
  function CutLists(lists: seq<seq<Ev>>, ev: Ev, at: TimeVal, on: bool): seq<seq<Ev>> {
    if on && at.IsCommon(|lists|) then lists[at.Idx() := Without(lists[at.Idx()], ev)] else lists
  }

  /** An event was put behind all that are not later. */
  ghost predicate Placed(was: seq<Ev>, now: seq<Ev>, ev: Ev)
    reads Elements(was)`at, ev`at
  {
    exists k :: 0 <= k <= |was| && now == was[..k] + [ev] + was[k..]
      && (forall j :: 0 <= j < k ==> was[j].at.Le(ev.at))
      && (forall j :: k <= j < |was| ==> !was[j].at.Le(ev.at))
  }

  function Appended(queues: seq<seq<Ev>>, ev: Ev): seq<seq<Ev>> {
    if ev.pri < |queues| then queues[ev.pri := queues[ev.pri] + [ev]] else queues
  }

  function One(e: Ev): nat {
    if e.internal then 0 else 1
  }

  /** One event more, or less, among those that are counted. */
  ghost predicate Moved(ev: Ev, on: bool, was: set<Ev>, now: set<Ev>) {
    if ev.internal then now == was
    else if on then ev !in was && now == was + {ev}
    else ev in was && now == was - {ev}
  }

  lemma MovedSize(ev: Ev, on: bool, was: set<Ev>, now: set<Ev>)
    requires Moved(ev, on, was, now)
    ensures |now| == if on then |was| + One(ev) else |was| - One(ev)
  {
  }

  class EventBase {
    const nQueues: nat
    var queues: seq<seq<Ev>>       // the active queues, by priority
    var later: seq<Ev>
    var heap: set<Ev>
    var lists: seq<seq<Ev>>        // the common timeouts
    var timers: seq<Ev>            // the timer of each of them
    var durations: seq<TimeVal>    // and its length, with its mark
    var count: int
    var countActive: nat
    var running: Ev?               // current_event
    ghost var all: set<Ev>

    ghost predicate Queued()
      reads this`queues, this`all, all`active
    {
      |queues| == nQueues && QueuesAre(queues, all)
    }

    ghost predicate Latered()
      reads this`later, this`all, all`later, all`active
    {
      LaterIs(later, all) && NeverBoth(all)
    }

    ghost predicate Timed()
      reads this`heap, this`lists, this`all, all`timeout, all`at
    {
      HeapIs(heap, |lists|, all) && ListsAre(lists, all)
    }

    /** A callback that is being finalized, or is no event, is in no timer queue and watches nothing. */
    ghost predicate Final()
      reads this`all, all`finalizing, all`timeout, all`inserted
    {
      forall e :: e in all && (e.finalizing || !e.isEvent) ==> !e.timeout && !e.inserted
    }

    ghost predicate Counted()
      reads this`count, this`all, all`timeout, all`inserted, all`active, all`later
    {
      count == |TimeoutSet(all)| + |InsertedSet(all)| + |ActiveSet(all)| + |LaterSet(all)|
    }

    ghost predicate ActiveCounted()
      reads this`countActive, this`queues, this`later
    {
      countActive == SumLen(queues) + |later|
    }

    ghost predicate Timers()
      reads this`timers, this`lists, this`all, all`finalizing, all`inserted, all`later, all`at
    {
      && |timers| == |lists| <= IDX_LIMIT && NoDup(timers)
      && forall t :: t in timers ==>
        && t in all && t.isEvent && t.internal && !t.persist && !t.watches
        && !t.finalizing && !t.inserted && !t.later && t.at.IsPlain()
    }

    ghost predicate Core()
      reads this, all
    {
      && Queued() && Latered() && Timed() && Final() && Counted() && ActiveCounted() && Timers()
      && Marks(durations, |lists|)
      && (forall e :: e in all ==> e.pri < nQueues)
    }

    /** Every common timeout but that of timer t will be looked at in time. */
    ghost predicate WakesBut(t: Ev?)
      reads this`lists, this`timers, this`running, this`heap, this`all, all`active, all`at
    {
      |timers| == |lists| && forall i :: 0 <= i < |lists| && timers[i] != t ==> Wakes(lists[i], timers[i], running, heap, all)
    }

    ghost predicate Valid()
      reads this, all
    {
      Core() && WakesBut(null)
    }

    // ----- one flag at a time; each keeps the counts -----

    method SetTimeout(ev: Ev, on: bool)
      requires ev in all && ev.timeout != on
      modifies ev`timeout
      ensures ev.timeout == on && Moved(ev, on, old(TimeoutSet(all)), TimeoutSet(all))
    {
      ev.timeout := on;
    }

    method FlagTimeout(ev: Ev, on: bool)
      requires Counted() && ev in all && ev.timeout != on
      modifies this`count, ev`timeout
      ensures Counted() && ev.timeout == on
    {
      hide TimeoutSet, InsertedSet, ActiveSet, LaterSet, Moved;
      ghost var was := TimeoutSet(all);
      SetTimeout(ev, on);
      MovedSize(ev, on, was, TimeoutSet(all));
      count := if on then count + One(ev) else count - One(ev);
    }

    method SetInserted(ev: Ev, on: bool)
      requires ev in all && ev.inserted != on
      modifies ev`inserted
      ensures ev.inserted == on && Moved(ev, on, old(InsertedSet(all)), InsertedSet(all))
    {
      ev.inserted := on;
    }

    method FlagInserted(ev: Ev, on: bool)
      requires Counted() && ev in all && ev.inserted != on
      modifies this`count, ev`inserted
      ensures Counted() && ev.inserted == on
    {
      hide TimeoutSet, InsertedSet, ActiveSet, LaterSet, Moved;
      ghost var was := InsertedSet(all);
      SetInserted(ev, on);
      MovedSize(ev, on, was, InsertedSet(all));
      count := if on then count + One(ev) else count - One(ev);
    }

    method SetActive(ev: Ev, on: bool)
      requires ev in all && ev.active != on
      modifies ev`active
      ensures ev.active == on && Moved(ev, on, old(ActiveSet(all)), ActiveSet(all))
    {
      ev.active := on;
    }

    method FlagActive(ev: Ev, on: bool)
      requires Counted() && ev in all && ev.active != on
      modifies this`count, ev`active
      ensures Counted() && ev.active == on
    {
      hide TimeoutSet, InsertedSet, ActiveSet, LaterSet, Moved;
      ghost var was := ActiveSet(all);
      SetActive(ev, on);
      MovedSize(ev, on, was, ActiveSet(all));
      count := if on then count + One(ev) else count - One(ev);
    }

    method SetLater(ev: Ev, on: bool)
      requires ev in all && ev.later != on
      modifies ev`later
      ensures ev.later == on && Moved(ev, on, old(LaterSet(all)), LaterSet(all))
    {
      ev.later := on;
    }

    method FlagLater(ev: Ev, on: bool)
      requires Counted() && ev in all && ev.later != on
      modifies this`count, ev`later
      ensures Counted() && ev.later == on
    {
      hide TimeoutSet, InsertedSet, ActiveSet, LaterSet, Moved;
      ghost var was := LaterSet(all);
      SetLater(ev, on);
      MovedSize(ev, on, was, LaterSet(all));
      count := if on then count + One(ev) else count - One(ev);
    }

    method InsertInserted(ev: Ev)
      requires Core() && ev in all && ev.isEvent && !ev.inserted && !ev.finalizing && ev !in timers
      modifies this`count, ev`inserted
      ensures Core() && ev.inserted
    {
      hide Marks, Queued, Latered, Timed, ActiveCounted, Counted, NoDup;
      FlagInserted(ev, true);
    }

    method RemoveInserted(ev: Ev)
      requires Core() && ev in all && ev.inserted
      modifies this`count, ev`inserted
      ensures Core() && !ev.inserted
    {
      hide Marks, Queued, Latered, Timed, ActiveCounted, Counted, NoDup;
      FlagInserted(ev, false);
    }

    method InsertActive(ev: Ev)
      requires Core() && ev in all && !ev.active && !ev.later
      modifies this`count, this`countActive, this`queues, ev`active
      ensures Core() && ev.active && ev.pri < |old(queues)|
      ensures queues == old(queues)[ev.pri := old(queues)[ev.pri] + [ev]]
    {
      hide Marks, LaterIs, Timed, Final, Timers, Counted;
      SumUpdate(queues, ev.pri, queues[ev.pri] + [ev]);
      hide SumLen;
      FlagActive(ev, true);
      countActive := countActive + 1;
      queues := queues[ev.pri := queues[ev.pri] + [ev]];
    }

    method RemoveActive(ev: Ev)
      requires Core() && ev in all && ev.active
      modifies this`count, this`countActive, this`queues, ev`active
      ensures Core() && !ev.active && ev.pri < |old(queues)| && ev in old(queues[ev.pri])
      ensures queues == old(queues)[ev.pri := Without(old(queues)[ev.pri], ev)]
    {
      hide Marks, LaterIs, Timed, Final, Timers, Counted;
      ActiveQueue(ev);
      WithoutIs(queues[ev.pri], ev);
      SumUpdate(queues, ev.pri, Without(queues[ev.pri], ev));
      hide SumLen, NoDup;
      FlagActive(ev, false);
      countActive := countActive - 1;
      RemoveFromQueue(ev);
    }

    lemma ActiveQueue(ev: Ev)
      requires Queued() && ev in all && ev.active
      ensures ev.pri < |queues| && ev in queues[ev.pri] && NoDup(queues[ev.pri])
    {
      assert QueueIs(queues[ev.pri], ev.pri, all);
    }

    method RemoveFromQueue(ev: Ev)
      requires ev.pri < |queues| == nQueues && !ev.active && NoDup(queues[ev.pri]) && ev in queues[ev.pri]
      requires forall i :: 0 <= i < |queues| ==> QueueButOne(queues[i], i, all, ev)
      requires forall e :: e in all && e.active ==> e.pri < |queues| && e in queues[e.pri]
      modifies this`queues
      ensures Queued() && queues == old(queues)[ev.pri := Without(old(queues)[ev.pri], ev)]
    {
      QueuesWithout(queues, all, ev);
      queues := queues[ev.pri := Without(queues[ev.pri], ev)];
    }

    method InsertLater(ev: Ev)
      requires Core() && ev in all && !ev.active && !ev.later && ev !in timers
      modifies this`count, this`countActive, this`later, ev`later
      ensures Core() && ev.later && later == old(later) + [ev]
    {
      hide Marks, Queued, Timed, Final, Counted;
      FlagLater(ev, true);
      countActive := countActive + 1;
      later := later + [ev];
    }

    method RemoveLater(ev: Ev)
      requires Core() && ev in all && ev.later
      modifies this`count, this`countActive, this`later, ev`later
      ensures Core() && !ev.later && later == Without(old(later), ev)
    {
      hide Marks, Queued, Timed, Final, Counted, SumLen, Without;
      WithoutIs(later, ev);
      FlagLater(ev, false);
      countActive := countActive - 1;
      LaterWithout(later, all, ev);
      later := Without(later, ev);
    }

    // ----- timers -----

    /** insert_common_timeout_inorder: looks for the place from the end of the list. */
    method InsertInOrder(list: seq<Ev>, ev: Ev) returns (r: seq<Ev>, ghost k: nat)
      requires Ordered(list, all) && ev in all
      ensures k <= |list| && r == list[..k] + [ev] + list[k..] && Ordered(r, all) && Placed(list, r, ev)
    {
      var i: nat := |list|;
      while i > 0 && !list[i - 1].at.Le(ev.at)
        invariant i <= |list| && forall j :: i <= j < |list| ==> ev.at.Le(list[j].at) && !list[j].at.Le(ev.at)
      {
        LeOrder(list[i - 1].at, ev.at, ev.at);
        i := i - 1;
      }
      forall j | 0 <= j < i ensures list[j].at.Le(ev.at) {
        LeOrder(list[j].at, list[i - 1].at, ev.at);
      }
      r, k := list[..i] + [ev] + list[i..], i;
      OrderedWith(list, all, ev, i);
    }

    /** Sets the flag; the queues do not know yet. */
    method BeginTimeout(ev: Ev)
      requires Timed() && Counted() && ev in all && !ev.timeout
      modifies this`count, ev`timeout
      ensures Counted() && ev.timeout && HeapBut(heap, |lists|, all, ev) && ListsBut(lists, all, ev)
    {
      hide Counted, NoDup, Ordered;
      FlagTimeout(ev, true);
    }

    /** Clears the flag; the queues do not know yet. */
    method EndTimeout(ev: Ev)
      requires Timed() && Counted() && ev in all && ev.timeout
      modifies this`count, ev`timeout
      ensures Counted() && !ev.timeout && HeapBut(heap, |lists|, all, ev) && ListsStill(lists, all, ev)
      ensures if ev.at.IsCommon(|lists|) then ev !in heap && ev in lists[ev.at.Idx()] else ev in heap
    {
      hide Counted, NoDup, Ordered;
      FlagTimeout(ev, false);
    }

    method PutInList(ev: Ev, i: nat)
      requires ListsBut(lists, all, ev) && ev in all && ev.timeout && ev.at.IsCommon(|lists|) && i == ev.at.Idx()
      modifies this`lists
      ensures ListsAre(lists, all) && |lists| == |old(lists)| && lists == old(lists)[i := lists[i]] && lists[i] != []
      ensures lists[i][0] == ev || (old(lists)[i] != [] && lists[i][0] == old(lists)[i][0])
      ensures Placed(old(lists)[i], lists[i], ev)
    {
      hide NoDup, Ordered, ListsBut, ListsAre, Placed;
      ListReady(lists, all, ev, i);
      var r; ghost var k;
      r, k := InsertInOrder(lists[i], ev);
      ListsWith(lists, all, ev, i, r, k);
      assert r[0] == if k == 0 then ev else lists[i][0];
      lists := lists[i := r];
    }

    method InsertTimeout(ev: Ev)
      requires Core() && ev in all && ev.isEvent && !ev.timeout && !ev.finalizing
      requires ev.at.IsCommon(|lists|) || ev.at.IsPlain()
      modifies this`count, this`heap, this`lists, ev`timeout
      ensures Core() && ev.timeout && |lists| == |old(lists)|
      ensures if ev.at.IsCommon(|lists|) then
                var i := ev.at.Idx();
                && heap == old(heap) && lists == old(lists)[i := lists[i]] && lists[i] != []
                && (lists[i][0] == ev || (old(lists)[i] != [] && lists[i][0] == old(lists)[i][0]))
                && Placed(old(lists)[i], lists[i], ev)
              else
                lists == old(lists) && heap == old(heap) + {ev}
    {
      hide Marks, Queued, Latered, Counted, NoDup, Ordered, HeapBut, ListsBut, HeapIs, ListsAre, Placed;
      BeginTimeout(ev);
      if ev.at.IsCommon(|lists|) {
        HeapWith(heap, |lists|, all, ev, false);
        PutInList(ev, ev.at.Idx());
      } else {
        HeapWith(heap, |lists|, all, ev, true);
        ListsSame(lists, all, ev);
        heap := heap + {ev};
      }
    }

    method RemoveTimeout(ev: Ev)
      requires Core() && ev in all && ev.timeout
      modifies this`count, this`heap, this`lists, ev`timeout
      ensures Core() && !ev.timeout && |lists| == |old(lists)|
      ensures if ev.at.IsCommon(|lists|) then
                var i := ev.at.Idx();
                && heap == old(heap) && ev in old(lists)[i] && lists == old(lists)[i := Without(old(lists)[i], ev)]
              else
                lists == old(lists) && heap == old(heap) - {ev}
    {
      hide Marks, Queued, Latered, Counted, NoDup, Ordered, HeapBut, ListsStill, HeapIs, ListsAre, Without;
      EndTimeout(ev);
      HeapWithout(heap, |lists|, all, ev);
      if ev.at.IsCommon(|lists|) {
        var i := ev.at.Idx();
        ListsWithout(lists, all, ev, i);
        assert heap - {ev} == heap;
        lists := lists[i := Without(lists[i], ev)];
      } else {
        ListsLess(lists, all, ev);
        heap := heap - {ev};
      }
    }

    // ----- the same, with an eye on the timers of the common timeouts -----

    method DropTimeout(ev: Ev)
      requires Core() && WakesBut(ev) && ev in all && ev.timeout
      modifies this`count, this`heap, this`lists, ev`timeout
      ensures Core() && WakesBut(ev) && !ev.timeout && |lists| == |old(lists)|
      ensures if ev.at.IsCommon(|lists|) then
                var i := ev.at.Idx();
                && heap == old(heap) && ev in old(lists)[i] && lists == old(lists)[i := Without(old(lists)[i], ev)]
              else
                lists == old(lists) && heap == old(heap) - {ev}
      ensures heap == old(heap) - {ev} && lists == CutLists(old(lists), ev, ev.at, true)
    {
      hide Marks, Queued, Latered, Counted, ActiveCounted, Final, NoDup, Ordered, Without, Timed;
      CommonNotInHeap(ev);
      if ev.at.IsCommon(|lists|) {
        HeadLater(ev);
      }
      RemoveTimeout(ev);
    }

    lemma CommonNotInHeap(ev: Ev)
      requires Timed() && ev in all
      ensures !ev.timeout || ev.at.IsCommon(|lists|) ==> ev !in heap
    {
    }

    /** Without one of its events, a list does not start earlier. */
    lemma HeadLater(ev: Ev)
      requires Timed() && ev in all && ev.timeout && ev.at.IsCommon(|lists|)
      ensures var list := lists[ev.at.Idx()];
        var rest := Without(list, ev);
        && list != [] && list[0] in all
        && (rest != [] ==> rest[0] in all && list[0].at.Time().Le(rest[0].at.Time()))
    {
      var i := ev.at.Idx();
      var list := lists[i];
      assert ListIs(list, i, |lists|, all) && Ordered(list, all);
      var k := WithoutAt(list, ev);
      var rest := Without(list, ev);
      hide Without;
      if rest != [] {
        assert rest[0] == if k == 0 then list[1] else list[0];
        SameMarkCompares(list[0].at, rest[0].at, |lists|);
      }
    }

    method DropActive(ev: Ev)
      requires Core() && WakesBut(ev) && ev in all && ev.active
      modifies this`count, this`countActive, this`queues, ev`active
      ensures Core() && WakesBut(ev) && !ev.active && queues == Cut(old(queues), ev, true)
    {
      hide Marks, Queued, Latered, Counted, ActiveCounted, Final, Timed, NoDup, Without;
      RemoveActive(ev);
    }

    // ----- deleting, and activating -----

    /** event_del_nolock_ */
    method EventDel(ev: Ev, evenIfFinalizing: bool)
      requires Core() && WakesBut(ev) && ev in all
      modifies this`count, this`countActive, this`queues, this`later, this`heap, this`lists
      modifies ev`timeout, ev`active, ev`later, ev`inserted
      ensures Core() && WakesBut(ev) && |lists| == |old(lists)|
      ensures ev.finalizing && !evenIfFinalizing ==>
        && heap == old(heap) && lists == old(lists) && queues == old(queues) && later == old(later)
        && ev.active == old(ev.active) && ev.later == old(ev.later)
      ensures !ev.finalizing || evenIfFinalizing ==>
        && !ev.timeout && !ev.active && !ev.later && !ev.inserted
        && queues == Cut(old(queues), ev, old(ev.active)) && later == if old(ev.later) then Without(old(later), ev) else old(later)
      ensures !ev.finalizing ==>
        if old(ev.timeout) && ev.at.IsCommon(|lists|) then
          var i := ev.at.Idx();
          && heap == old(heap) && ev in old(lists)[i] && lists == old(lists)[i := Without(old(lists)[i], ev)]
        else
          lists == old(lists) && heap == old(heap) - {ev}
    {
      hide Marks, Queued, Latered, Counted, ActiveCounted, Final, Timers, Timed, NoDup, Without, Wakes;
      if ev.finalizing && !evenIfFinalizing {
        return;
      }
      InHeap(ev);
      if ev.timeout {
        DropTimeout(ev);
      }
      if ev.active {
        DropActive(ev);
      } else if ev.later {
        RemoveLater(ev);
      }
      if ev.inserted {
        RemoveInserted(ev);
      }
    }

    lemma InHeap(ev: Ev)
      requires Timed() && Latered() && ev in all
      ensures (!ev.timeout ==> ev !in heap) && !(ev.active && ev.later)
    {
    }

    /** A timer that is active, or runs, keeps its list from being forgotten. */
    lemma WakesAll(ev: Ev)
      requires Timed() && WakesBut(ev) && ev in all && (ev.active || running == ev)
      ensures WakesBut(null)
    {
      forall i | 0 <= i < |lists| ensures Wakes(lists[i], timers[i], running, heap, all) {
        assert ListIs(lists[i], i, |lists|, all);
      }
    }

    /** event_callback_activate_nolock_ */
    method CallbackActivate(ev: Ev) returns (r: nat)
      requires Core() && WakesBut(ev) && ev in all
      modifies this`count, this`countActive, this`queues, this`later, ev`active, ev`later
      ensures Core() && WakesBut(ev) && (!ev.finalizing ==> ev.active && !ev.later && WakesBut(null))
      ensures ev.finalizing ==> ev.active == old(ev.active) && ev.later == old(ev.later) && r == 0
      ensures queues == if ev.finalizing || old(ev.active) then old(queues) else Appended(old(queues), ev)
      ensures later == if ev.finalizing || !old(ev.later) then old(later) else Without(old(later), ev)
      ensures r == if ev.finalizing || old(ev.active || ev.later) then 0 else 1
    {
      hide Marks, Queued, Counted, ActiveCounted, Final, Timers, Timed, NoDup;
      r := 1;
      if ev.finalizing {
        return 0;
      }
      if ev.later {
        RemoveLater(ev);
        r := 0;
      } else if ev.active {
        WakesAll(ev);
        return 0;
      }
      InsertActive(ev);
      WakesAll(ev);
    }

    /** event_active_nolock_ */
    method EventActive(ev: Ev, reason: Reason)
      requires Core() && WakesBut(ev) && ev in all
      modifies this`count, this`countActive, this`queues, this`later, ev`active, ev`later, ev`res
      ensures Core() && WakesBut(ev)
      ensures !ev.finalizing ==> ev.active && !ev.later && WakesBut(null)
      ensures !ev.finalizing ==> ev.res == (if old(ev.active || ev.later) then old(ev.res) else {}) + {reason}
      ensures ev.finalizing ==> ev.active == old(ev.active) && ev.later == old(ev.later) && ev.res == old(ev.res)
      ensures queues == if ev.finalizing || old(ev.active) then old(queues) else Appended(old(queues), ev)
      ensures later == if ev.finalizing || !old(ev.later) then old(later) else Without(old(later), ev)
    {
      hide Marks, Queued, Counted, ActiveCounted, Final, Timers, Timed, NoDup;
      if ev.finalizing {
        return;
      }
      if ev.active {
        ev.res := ev.res + {reason};
        WakesAll(ev);
        return;
      }
      if ev.later {
        ev.res := ev.res + {reason};
      } else {
        ev.res := {reason};
      }
      var _ := CallbackActivate(ev);
    }

    // ----- adding -----

    method SetAt(ev: Ev, tv: TimeVal)
      requires Core() && WakesBut(ev) && ev in all && !ev.timeout && (ev in timers ==> tv.IsPlain())
      modifies ev`at
      ensures Core() && WakesBut(ev) && ev.at == tv
    {
      hide Marks, Queued, Latered, Counted, ActiveCounted, Final, NoDup;
      ev.at := tv;
    }

    /** When an event is to time out: tv itself, or an interval from now, with the mark of its common timeout if it has one. */
    function Deadline(tv: TimeVal, absolute: bool, now: TimeVal): TimeVal
      reads this`lists
    {
      if absolute then tv
      else if tv.IsCommon(|lists|) then Sum(now, tv.Time()).Marked(tv.Idx())
      else Sum(now, tv)
    }

    /** May tv be given for an event? Without a mark, or with that of a common timeout there is. */
    predicate Fits(tv: TimeVal)
      reads this`lists
    {
      tv.IsCommon(|lists|) || tv.IsPlain()
    }

    lemma DeadlineFits(tv: TimeVal, absolute: bool, now: TimeVal)
      requires Fits(tv) && now.usec < 1_000_000 && |lists| <= IDX_LIMIT
      ensures var d := Deadline(tv, absolute, now);
        Fits(d) && (d.IsCommon(|lists|) <==> tv.IsCommon(|lists|)) && (tv.IsCommon(|lists|) ==> d.Idx() == tv.Idx())
      ensures absolute ==> Deadline(tv, absolute, now) == tv
      ensures !absolute ==> FromNow(tv, now, Deadline(tv, absolute, now))
    {
      DeadlineMarks(tv, absolute, now);
      if !absolute {
        DeadlineIsTime(tv, absolute, now);
      }
    }

    /** The time is that of now and the interval together, normalized if the interval is, and the mark is that of the interval. */
    predicate FromNow(tv: TimeVal, now: TimeVal, at: TimeVal) {
      && at.InMicros() == now.InMicros() + tv.InMicros()
      && at.usec / 0x10_0000 == tv.usec / 0x10_0000
      && (tv.Micros() < 1_000_000 ==> at.Micros() < 1_000_000)
    }

    lemma DeadlineIsTime(tv: TimeVal, absolute: bool, now: TimeVal)
      requires Fits(tv) && now.usec < 1_000_000 && |lists| <= IDX_LIMIT && !absolute
      ensures FromNow(tv, now, Deadline(tv, absolute, now))
    {
      SumIsTime(now, tv.Time());
      var sum := Sum(now, tv.Time());
      if tv.IsCommon(|lists|) {
        MarkRoundTrip(sum, tv.Idx(), |lists|);
      } else {
        PlainIsNotCommon(tv, |lists|);
      }
    }

    lemma DeadlineMarks(tv: TimeVal, absolute: bool, now: TimeVal)
      requires Fits(tv) && now.usec < 1_000_000 && |lists| <= IDX_LIMIT
      ensures var d := Deadline(tv, absolute, now);
        Fits(d) && (d.IsCommon(|lists|) <==> tv.IsCommon(|lists|)) && (tv.IsCommon(|lists|) ==> d.Idx() == tv.Idx())
    {
      var d := Deadline(tv, absolute, now);
      if tv.IsCommon(|lists|) {
        MarkRoundTrip(Sum(now, tv.Time()), tv.Idx(), |lists|);
      } else {
        PlainIsNotCommon(d, |lists|);
      }
    }

    /** As Started says; and if the event is now the first of its list, the timer of that list is set to its time. */
    ghost predicate Begun(ev: Ev, heap0: set<Ev>, lists0: seq<seq<Ev>>, timer: Ev?)
      reads this`heap, this`lists, this`timers, ev`at, set i, e | 0 <= i < |lists0| && e in lists0[i] :: e
      reads if timer == null then {} else {timer}
    {
      && (timer != null ==> timer in heap && timer.at == ev.at.Time())
      && if ev.at.IsCommon(|lists|) then
           var i := ev.at.Idx();
           && |lists0| == |lists| == |timers| && lists == lists0[i := lists[i]] && Placed(lists0[i], lists[i], ev) && lists[i] != []
           && timer == (if lists[i][0] == ev then timers[i] else null)
           && heap == heap0 + if timer == null then {} else {timer}
         else
           lists == lists0 && heap == heap0 + {ev} && timer == null
    }

    /** The part of event_add_nolock_ that is about the timeout, but for the timer of a common timeout. */
    method PlaceTimeout(ev: Ev, tv: TimeVal, absolute: bool, now: TimeVal)
      requires Core() && WakesBut(ev) && ev in all && ev.isEvent && !ev.finalizing
      requires Fits(tv) && now.usec < 1_000_000 && (ev in timers ==> tv.IsPlain() && absolute)
      modifies this`count, this`countActive, this`queues, this`heap, this`lists
      modifies ev`timeout, ev`active, ev`at, ev`every
      ensures Core() && ev.timeout && ev.at == old(Deadline(tv, absolute, now)) && |lists| == |old(lists)|
      ensures ev in timers ==> WakesBut(ev) && ev in heap && lists == old(lists)
      ensures ev !in timers ==> WakesBut(HeadTimer(ev))
      ensures ev.active <==> old(ev.active) && Timeout !in ev.res
      ensures queues == Cut(old(queues), ev, old(ev.active) && Timeout in ev.res)
      ensures Started(ev, old(heap) - {ev}, CutLists(old(lists), ev, old(ev.at), old(ev.timeout)))
      ensures ev.every == if ev.persist && !absolute then tv else old(ev.every)
    {
      hide Marks, Queued, Latered, Counted, ActiveCounted, Final, Timed, NoDup, Wakes, Started;
      if ev.persist && !absolute {
        ev.every := tv;
      }
      TimerPlain(ev);
      DropOld(ev);
      DeadlineFits(tv, absolute, now);
      SetAt(ev, Deadline(tv, absolute, now));
      PutTimeout(ev);
    }

    /** An event is taken from where it waits for its time, and from where it is active because that came. */
    method DropOld(ev: Ev)
      requires Core() && WakesBut(ev) && ev in all
      modifies this`count, this`countActive, this`queues, this`heap, this`lists
      modifies ev`timeout, ev`active
      ensures Core() && WakesBut(ev) && !ev.timeout && |lists| == |old(lists)|
      ensures ev in timers ==> lists == old(lists)
      ensures ev.active <==> old(ev.active) && Timeout !in ev.res
      ensures heap == old(heap) - {ev} && lists == CutLists(old(lists), ev, ev.at, old(ev.timeout))
      ensures queues == Cut(old(queues), ev, old(ev.active) && Timeout in ev.res)
    {
      hide Marks, Queued, Latered, Counted, ActiveCounted, Final, Timed, NoDup, Wakes, WakesBut, Without;
      CommonNotInHeap(ev);
      TimerPlain(ev);
      hide Timers;
      if ev.timeout {
        DropTimeout(ev);
      }
      if ev.active && Timeout in ev.res {
        DropActive(ev);
      }
    }

    lemma TimerPlain(ev: Ev)
      requires Timers()
      ensures ev in timers ==> ev.at.IsPlain() && !ev.at.IsCommon(|lists|)
      ensures |timers| == |lists| <= IDX_LIMIT
    {
      if ev in timers {
        PlainIsNotCommon(ev.at, |lists|);
      }
    }

    /** The timer that has to be set because ev is now the first of its common timeout. */
    ghost function HeadTimer(ev: Ev): Ev?
      reads this`lists, this`timers, ev`at
    {
      var i := ev.at.Idx();
      if ev.at.IsCommon(|lists|) && |timers| == |lists| && lists[i] != [] && lists[i][0] == ev then timers[i] else null
    }

    /** In the heap, or in the list of its mark, behind all that are not later; the rest is as it was. */
    ghost predicate Started(ev: Ev, heap0: set<Ev>, lists0: seq<seq<Ev>>)
      reads this`heap, this`lists, ev`at, set i, e | 0 <= i < |lists0| && e in lists0[i] :: e
    {
      if ev.at.IsCommon(|lists|) then
        var i := ev.at.Idx();
        && heap == heap0 && |lists0| == |lists| && lists == lists0[i := lists[i]] && Placed(lists0[i], lists[i], ev)
      else
        lists == lists0 && heap == heap0 + {ev}
    }

    method PutTimeout(ev: Ev)
      requires Core() && WakesBut(ev) && ev in all && ev.isEvent && !ev.timeout && !ev.finalizing
      requires ev.at.IsCommon(|lists|) || ev.at.IsPlain()
      modifies this`count, this`heap, this`lists, ev`timeout
      ensures Core() && ev.timeout && |lists| == |old(lists)|
      ensures ev in timers ==> WakesBut(ev) && ev in heap && lists == old(lists)
      ensures ev !in timers ==> WakesBut(HeadTimer(ev))
      ensures Started(ev, old(heap), old(lists))
    {
      hide Marks, Queued, Latered, Counted, ActiveCounted, Final, Timed, NoDup, Placed;
      TimerPlain(ev);
      InsertTimeout(ev);
    }

    /** common_timeout_schedule: the timer of list i, which watches nothing, is set to the time of the first event. */
    method Schedule(i: nat, t: Ev, now: TimeVal)
      requires Core() && i < |lists| == |timers| && lists[i] != [] && t == timers[i] && WakesBut(t) && now.usec < 1_000_000
      modifies this`count, this`countActive, this`queues, this`heap, this`lists
      modifies t`timeout, t`active, t`at, t`every
      ensures Core() && WakesBut(null) && lists == old(lists)
      ensures t in heap && t.at == old(lists[i][0].at.Time())
      ensures heap == old(heap) + {t} && queues == Cut(old(queues), t, old(t.active) && Timeout in t.res)
    {
      hide Marks, Queued, Latered, Counted, ActiveCounted, Final, Timed, NoDup;
      HeadsIn(i);
      var head := lists[i][0];
      assert head != t;
      PlaceTimeout(t, head.at.Time(), true, now);
      WakesNow(i, t);
    }

    lemma WakesNow(i: nat, t: Ev)
      requires Timers() && Timed() && i < |lists| && t == timers[i] && WakesBut(t)
      requires t in heap && lists[i] != [] && t.at == lists[i][0].at.Time()
      ensures WakesBut(null)
    {
      HeadsIn(i);
      LeOrder(t.at, t.at, t.at);
    }

    lemma HeadsIn(i: nat)
      requires Timed() && i < |lists|
      ensures lists[i] != [] ==> lists[i][0] in all && lists[i][0].at.IsCommon(|lists|)
    {
      assert ListIs(lists[i], i, |lists|, all);
    }

    /**
     * event_add_nolock_, for any event but the timers of common timeouts. mapOk says whether the backend accepts the event.
     * A failure changes nothing.
     */
    method EventAdd(ev: Ev, tv: Option<TimeVal>, absolute: bool, now: TimeVal, mapOk: bool) returns (r: int, ghost timer: Ev?)
      requires Valid() && ev in all && ev.isEvent && ev !in timers && now.usec < 1_000_000 && (tv.Some? ==> Fits(tv.value))
      modifies this`count, this`countActive, this`queues, this`heap, this`lists
      modifies ev`timeout, ev`active, ev`inserted, ev`at, ev`every
      modifies timers
      ensures Valid() && |lists| == |old(lists)|
      ensures r == if old(ev.finalizing || (ev.watches && !ev.inserted && !ev.active && !ev.later && !mapOk)) then -1 else 0
      ensures r == -1 ==>
        && heap == old(heap) && lists == old(lists) && queues == old(queues)
        && ev.timeout == old(ev.timeout) && ev.inserted == old(ev.inserted) && ev.active == old(ev.active) && ev.at == old(ev.at)
      ensures r == 0 && tv.None? ==>
        && heap == old(heap) && lists == old(lists) && queues == old(queues)
        && ev.timeout == old(ev.timeout) && ev.active == old(ev.active) && ev.at == old(ev.at)
      ensures r == 0 && tv.Some? && absolute ==> ev.at == tv.value
      ensures r == 0 && tv.Some? && !absolute ==>
        && ev.at.InMicros() == now.InMicros() + tv.value.InMicros()
        && ev.at.usec / 0x10_0000 == tv.value.usec / 0x10_0000
        && (tv.value.Micros() < 1_000_000 ==> ev.at.Micros() < 1_000_000)
      ensures r == 0 && tv.Some? ==>
        && ev.timeout && (ev.active <==> old(ev.active) && Timeout !in ev.res)
        && Begun(ev, old(heap) - {ev}, CutLists(old(lists), ev, old(ev.at), old(ev.timeout)), timer)
      ensures timer != null ==> timer in old(timers)
      ensures r == 0 && tv.Some? ==>
        var left := Cut(old(queues), ev, old(ev.active) && Timeout in ev.res);
        queues == if timer == null then left else Cut(left, timer, old(timer.active && Timeout in timer.res))
      ensures ev.every == if r == 0 && tv.Some? && ev.persist && !absolute then tv.value else old(ev.every)
      ensures ev.inserted <==> old(ev.inserted) || (r == 0 && ev.watches && old(!ev.active && !ev.later))
    {
      hide Marks, Queued, Latered, Counted, ActiveCounted, Final, Timed, Timers, NoDup, Wakes, Placed;
      r, timer := 0, null;
      if ev.finalizing {
        r := -1;
        return;
      }
      if ev.watches && !ev.inserted && !ev.active && !ev.later {
        if !mapOk {
          r := -1;
          return;
        }
        InsertInserted(ev);
      }
      if tv.Some? {
        TimerPlain(ev);
        DeadlineFits(tv.value, absolute, now);
        timer := AddTimeout(ev, tv.value, absolute, now);
      }
    }

    method AddTimeout(ev: Ev, tv: TimeVal, absolute: bool, now: TimeVal) returns (ghost timer: Ev?)
      requires Valid() && ev in all && ev.isEvent && ev !in timers && !ev.finalizing && Fits(tv) && now.usec < 1_000_000
      modifies this`count, this`countActive, this`queues, this`heap, this`lists
      modifies ev`timeout, ev`active, ev`at, ev`every
      modifies timers
      ensures Valid() && |lists| == |old(lists)| && ev.timeout && ev.at == old(Deadline(tv, absolute, now))
      ensures ev.active <==> old(ev.active) && Timeout !in ev.res
      ensures Begun(ev, old(heap) - {ev}, CutLists(old(lists), ev, old(ev.at), old(ev.timeout)), timer)
      ensures timer != null ==> timer in old(timers)
      ensures var left := Cut(old(queues), ev, old(ev.active) && Timeout in ev.res);
        queues == if timer == null then left else Cut(left, timer, old(timer.active && Timeout in timer.res))
      ensures ev.every == if ev.persist && !absolute then tv else old(ev.every)
    {
      hide Marks, Queued, Latered, Counted, ActiveCounted, Final, Timed, Timers, NoDup, Wakes, Placed;
      assert WakesBut(ev) by { WakesWeaker(ev); }
      ghost var lists0 := CutLists(lists, ev, ev.at, ev.timeout);
      PlaceTimeout(ev, tv, absolute, now);
      TimerPlain(ev);
      var i := ev.at.Idx();
      timer := null;
      if ev.at.IsCommon(|lists|) {
        NoTimerListed(i, lists0[i], ev);
        if lists[i] != [] && lists[i][0] == ev {
          timer := timers[i];
          assert timer !in Elements(lists0[i]);
          Schedule(i, timers[i], now);
          assert Placed(lists0[i], lists[i], ev);
        }
      }
    }

    /** The timers of common timeouts are themselves in none. */
    lemma NoTimerListed(i: nat, was: seq<Ev>, ev: Ev)
      requires Timed() && Timers() && i < |lists| && Placed(was, lists[i], ev)
      ensures lists[i] != [] && forall t :: t in timers ==> t !in was && t !in lists[i]
    {
      assert ListIs(lists[i], i, |lists|, all);
      forall t | t in timers ensures t !in lists[i] {
        PlainIsNotCommon(t.at, |lists|);
      }
    }

    lemma WakesWeaker(t: Ev)
      requires WakesBut(null)
      ensures WakesBut(t)
    {
    }

    // ----- time passing -----

    /** The heap's first event: none is due before it. */
    method Top() returns (ev: Ev?)
      requires Valid()
      ensures IsTop(ev, heap)
    {
      if heap == {} {
        return null;
      }
      Earliest(heap, all);
      ev :| ev in heap && forall e | e in heap :: ev.at.Le(e.at);
    }

    /** A timer of the heap goes off: the event is taken out of all queues, and activated. */
    method Expire(ev: Ev)
      requires Valid() && ev in heap
      modifies this`count, this`countActive, this`queues, this`later, this`heap, this`lists
      modifies ev`timeout, ev`active, ev`later, ev`inserted, ev`res
      ensures Valid() && heap == old(heap) - {ev} && lists == old(lists)
      ensures ev.active && ev.res == {Timeout} && !ev.inserted && !ev.timeout && !ev.later
      ensures queues == Appended(Cut(old(queues), ev, old(ev.active)), ev)
      ensures later == if old(ev.later) then Without(old(later), ev) else old(later)
    {
      hide Marks, Queued, Latered, Counted, ActiveCounted, Timers, NoDup, Wakes, Without;
      WakesWeaker(ev);
      EventDel(ev, false);
      EventActive(ev, Timeout);
    }

    /** The events of the heap whose time has come. */
    ghost function Due(now: TimeVal): set<Ev>
      reads this`heap, heap`at
    {
      DueIn(heap, now)
    }

    /**
     * Activates every event of the heap whose time has come, in order of their times, and touches no other. Ghost: the events in
     * that order. They are in no queue now but, behind all others, the active one of their priority.
     */
    method TimeoutProcess(now: TimeVal) returns (ghost order: seq<Ev>)
      requires Valid()
      modifies this`count, this`countActive, this`queues, this`later, this`heap, this`lists
      modifies Due(now)`timeout, Due(now)`active, Due(now)`later, Due(now)`inserted, Due(now)`res
      ensures Valid() && lists == old(lists) && heap == old(heap) - Elements(order) && Elements(order) == old(Due(now))
      ensures forall e :: e in old(heap) && e.at.usec < 1_000_000 && now.usec < 1_000_000 ==>
        (e in order <==> e.at.InMicros() <= now.InMicros()) && (e in heap <==> e.at.InMicros() > now.InMicros())
      ensures forall e :: e in order ==> e.active && e.res == {Timeout} && !e.inserted && !e.timeout && !e.later
      ensures NoDup(order) && forall i, j :: 0 <= i <= j < |order| ==> order[i].at.Le(order[j].at)
      ensures QueuesFired(old(queues), queues, order) && later == Kept(old(later), Elements(order))
    {
      hide Valid, Core, Progress, IsTop, DueIn, QueuesFired, NoDup, Kept, TimeVal.InMicros, TimeVal.Le;
      ghost var was, queues0, later0 := heap, queues, later;
      NoProgress(now);
      var ev;
      order, ev := FireDue(now, was, queues0, later0);
      FiredAll(ev, was, queues0, later0, order, now);
    }

    /** The events that went off are active now, in turn and behind all others, and gone from everywhere else. */
    ghost predicate Progress(was: set<Ev>, queues0: seq<seq<Ev>>, later0: seq<Ev>, order: seq<Ev>, now: TimeVal)
      reads this`heap, this`queues, this`later, Elements(order), heap`at
    {
      && Firing(was, heap, Elements(order), now) && InTurn(order, heap)
      && QueuesFired(queues0, queues, order) && later == Kept(later0, Elements(order))
    }

    lemma NoProgress(now: TimeVal)
      ensures Progress(heap, queues, later, [], now)
    {
      NoneFired(heap, now);
      NothingFired(queues, later);
      NoneInTurn(heap);
      assert Elements<Ev>([]) == {};
    }

    method FireDue(now: TimeVal, ghost was: set<Ev>, ghost queues0: seq<seq<Ev>>, ghost later0: seq<Ev>)
      returns (ghost order: seq<Ev>, ev: Ev?)
      requires Valid() && was == heap && Progress(was, queues0, later0, [], now)
      modifies this`count, this`countActive, this`queues, this`later, this`heap, this`lists
      modifies Due(now)`timeout, Due(now)`active, Due(now)`later, Due(now)`inserted, Due(now)`res
      ensures Valid() && lists == old(lists) && Progress(was, queues0, later0, order, now)
      ensures IsTop(ev, heap) && (ev != null ==> !ev.at.Le(now))
    {
      hide Valid, Core, IsTop, DueIn, Firing, QueuesFired, InTurn, Kept, TimeVal.Le;
      order := [];
      ev := Top();
      while ev != null && ev.at.Le(now)
        invariant Valid() && lists == old(lists) && Progress(was, queues0, later0, order, now) && IsTop(ev, heap)
        decreases |heap|
      {
        TopInDue(ev, was, queues0, later0, order, now);
        ExpireOne(ev, was, order, now, queues0, later0);
        order := order + [ev];
        ev := Top();
      }
    }

    lemma TopInDue(ev: Ev, was: set<Ev>, queues0: seq<seq<Ev>>, later0: seq<Ev>, order: seq<Ev>, now: TimeVal)
      requires IsTop(ev, heap) && ev.at.Le(now) && Progress(was, queues0, later0, order, now)
      ensures ev in heap && ev in DueIn(was, now)
    {
      TopDue(ev, heap, was, Elements(order), now);
    }

    lemma FiredAll(ev: Ev?, was: set<Ev>, queues0: seq<seq<Ev>>, later0: seq<Ev>, order: seq<Ev>, now: TimeVal)
      requires IsTop(ev, heap) && (ev != null ==> !ev.at.Le(now)) && Progress(was, queues0, later0, order, now)
      ensures heap == was - Elements(order) && Elements(order) == DueIn(was, now)
      ensures forall e :: e in was && e.at.usec < 1_000_000 && now.usec < 1_000_000 ==>
        (e in order <==> e.at.InMicros() <= now.InMicros()) && (e in heap <==> e.at.InMicros() > now.InMicros())
      ensures forall e :: e in order ==> e.active && e.res == {Timeout} && !e.inserted && !e.timeout && !e.later
      ensures NoDup(order) && forall i, j :: 0 <= i <= j < |order| ==> order[i].at.Le(order[j].at)
      ensures QueuesFired(queues0, queues, order) && later == Kept(later0, Elements(order))
    {
      hide Fired, DueIn, Firing, QueuesFired, InTurn, NoDup, Kept, TimeVal.InMicros, TimeVal.Le, IsTop;
      AllFired(ev, heap, was, Elements(order), now);
      FiredInTime(was, heap, order, now);
      FiredAre(order, now);
      InTurnIs(order, heap);
    }

    method ExpireOne(ev: Ev, ghost was: set<Ev>, ghost order: seq<Ev>, now: TimeVal, ghost queues0: seq<seq<Ev>>,
                     ghost later0: seq<Ev>)
      requires Valid() && IsTop(ev, heap) && ev in heap && ev.at.Le(now) && Progress(was, queues0, later0, order, now)
      modifies this`count, this`countActive, this`queues, this`later, this`heap, this`lists
      modifies ev`timeout, ev`active, ev`later, ev`inserted, ev`res
      ensures Valid() && heap == old(heap) - {ev} && lists == old(lists) && Progress(was, queues0, later0, order + [ev], now)
    {
      hide Core, WakesBut, QueuesFired, Kept, Without, InTurn, IsTop;
      InAll(ev);
      NextInTurn(order, heap, ev);
      QueuesOneMore(ev, order, queues0, later0);
      assert Elements(order + [ev]) == Elements(order) + {ev};
      Expire(ev);
    }

    lemma InAll(ev: Ev)
      requires Valid() && ev in heap
      ensures ev in all
    {
    }

    lemma QueuesOneMore(ev: Ev, order: seq<Ev>, queues0: seq<seq<Ev>>, later0: seq<Ev>)
      requires Valid() && ev in all && ev !in order
      requires QueuesFired(queues0, queues, order) && later == Kept(later0, Elements(order))
      ensures QueuesFired(queues0, Appended(Cut(queues, ev, ev.active), ev), order + [ev])
      ensures (if ev.later then Without(later, ev) else later) == Kept(later0, Elements(order + [ev]))
    {
      assert Elements(order + [ev]) == Elements(order) + {ev};
      QueueFacts(ev);
      KeptLess(later0, Elements(order), ev);
      hide *;
      QueuesFiredMore(ev, order, queues0, queues, ev.active);
    }

    lemma QueueFacts(ev: Ev)
      requires Queued() && Latered() && ev in all && ev.pri < nQueues
      ensures ev.pri < |queues| && NoDup(later) && (ev in later <==> ev.later)
      ensures forall p :: 0 <= p < |queues| ==> NoDup(queues[p]) && (ev in queues[p] <==> ev.active && p == ev.pri)
    {
      hide NoDup;
      forall p | 0 <= p < |queues| ensures NoDup(queues[p]) && (ev in queues[p] <==> ev.active && p == ev.pri) {
        assert QueueIs(queues[p], p, all);
      }
    }

    // ----- running callbacks -----

    /** Takes the first callback of a queue, to run it: out of the queue, or out of all queues if it is an event that does not persist. */
    method TakeActive(q: nat) returns (cb: Ev)
      requires Valid() && running == null && q < nQueues && q < |queues| && queues[q] != []
      modifies this`count, this`countActive, this`queues, this`later, this`heap, this`lists, this`running
      modifies queues[q][0]
      ensures Valid() && running == cb == old(queues[q][0]) && !cb.active
      ensures queues == old(queues)[q := old(queues)[q][1..]] && later == old(later)
      ensures if cb.isEvent && !cb.persist && !cb.finalizing then
                && !cb.timeout && !cb.inserted
                && heap == old(heap) - {cb} && lists == CutLists(old(lists), cb, cb.at, old(cb.timeout))
              else
                cb.timeout == old(cb.timeout) && cb.inserted == old(cb.inserted) && heap == old(heap) && lists == old(lists)
    {
      hide Marks, Latered, Counted, ActiveCounted, Final, Timers, Timed, NoDup, Wakes, Without;
      cb := queues[q][0];
      FirstActive(q);
      WakesWeaker(cb);
      if cb.isEvent {
        if cb.persist || cb.finalizing {
          DropActive(cb);
        } else {
          EventDel(cb, false);
        }
      } else {
        DropActive(cb);
      }
      SetRunning(cb);
    }

    lemma FirstActive(q: nat)
      requires Core() && q < |queues| && queues[q] != []
      ensures var cb := queues[q][0];
        && cb in all && cb.active && !cb.later && cb.pri == q && Without(queues[q], cb) == queues[q][1..]
        && (!cb.timeout || cb.at.IsCommon(|lists|) ==> cb !in heap)
    {
      assert QueueIs(queues[q], q, all);
    }

    method SetRunning(cb: Ev)
      requires Timed() && WakesBut(cb) && cb in all && running == null
      modifies this`running
      ensures WakesBut(null) && running == cb
    {
      hide Timed;
      running := cb;
      WakesAll(cb);
    }

    /** A callback, not of a common timeout, has run. */
    method EndRun()
      requires Valid() && running != null && running !in timers
      modifies this`running
      ensures Valid() && running == null
    {
      hide Marks, Queued, Latered, Counted, ActiveCounted, Final, Timers, Timed;
      assert forall i :: 0 <= i < |timers| ==> timers[i] in timers;
      running := null;
    }

    /**
     * The timer of list i went off: activates every event of the list whose time has come, which are the first k, in order, and
     * sets the timer for the next. Ghosts: what the list was, and which of its events are due.
     */
    method CommonTimeoutCallback(i: nat, t: Ev, now: TimeVal, ghost was: seq<Ev>, ghost due: set<Ev>) returns (ghost k: nat)
      requires Valid() && i < |lists| == |timers| && t == timers[i] && running == t && now.usec < 1_000_000
      requires was == lists[i] && due == set e | e in was && e.at.Time().Le(now)
      modifies this`count, this`countActive, this`queues, this`later, this`heap, this`lists, this`running
      modifies due`timeout, due`active, due`later, due`inserted, due`res
      modifies t`timeout, t`active, t`at, t`every
      ensures Valid() && running == null && k <= |was| && lists == old(lists)[i := was[k..]]
      ensures forall j :: 0 <= j < |was| && was[j].at.Micros() < 1_000_000 ==> (j < k <==> was[j].at.InMicros() <= now.InMicros())
      ensures forall j :: 0 <= j < k ==>
        was[j].active && was[j].res == {Timeout} && !was[j].inserted && !was[j].timeout && !was[j].later
      ensures exists fired ::
        QueuesFired(old(queues), fired, was[..k]) && queues == Cut(fired, t, lists[i] != [] && old(t.active) && Timeout in t.res)
      ensures later == Kept(old(later), Elements(was[..k]))
      ensures heap == old(heap) + if lists[i] != [] then {t} else {}
      ensures lists[i] != [] ==> t.at.IsPlain() && t.at.InMicros() == lists[i][0].at.InMicros()
    {
      hide Valid, Core, WakesBut, ListFired, QueuesFired, Kept, Without, NoDup, TimeVal.Le;
      ghost var queues0, later0 := queues, later;
      ListFacts(i, t);
      k := FireListed(i, t, now, was, due, queues0, later0);
      DueExactly(i, was, k, now);
      ListFiredIs(was, k, now);
      ghost var fired := queues;
      StopTimer(i, t, now);
      assert QueuesFired(queues0, fired, was[..k]);
    }

    method FireListed(i: nat, t: Ev, now: TimeVal, ghost was: seq<Ev>, ghost due: set<Ev>, ghost queues0: seq<seq<Ev>>,
                      ghost later0: seq<Ev>)
      returns (ghost k: nat)
      requires Valid() && i < |lists| == |timers| && t == timers[i] && running == t && t !in was && NoDup(was)
      requires was == lists[i] && due == (set e | e in was && e.at.Time().Le(now)) && queues0 == queues && later0 == later
      modifies this`count, this`countActive, this`queues, this`later, this`heap, this`lists
      modifies due`timeout, due`active, due`later, due`inserted, due`res
      ensures Valid() && k <= |was| && lists == old(lists)[i := was[k..]] && heap == old(heap) && ListFired(was, k, now)
      ensures QueuesFired(queues0, queues, was[..k]) && later == Kept(later0, Elements(was[..k]))
      ensures lists[i] != [] ==> !lists[i][0].at.Time().Le(now)
      ensures t.active == old(t.active) && t.res == old(t.res)
    {
      hide Valid, Core, WakesBut, ListFired, QueuesFired, Kept, Without, NoDup, TimeVal.Le;
      k := 0;
      NoneListFired(was, now);
      NothingFired(queues, later);
      assert was[..0] == [];
      while lists[i] != [] && lists[i][0].at.Time().Le(now)
        invariant Valid() && |lists| == |timers| && heap == old(heap)
        invariant k <= |was| && lists == old(lists)[i := was[k..]] && ListFired(was, k, now)
        invariant QueuesFired(queues0, queues, was[..k]) && later == Kept(later0, Elements(was[..k]))
        decreases |lists[i]|
      {
        ActivateFirst(i, lists[i][0], was, k, now, queues0, later0);
        k := k + 1;
      }
    }

    /** Those due are the first k, as the list is in order. */
    lemma DueExactly(i: nat, was: seq<Ev>, k: nat, now: TimeVal)
      requires Valid() && i < |lists| && k <= |was| && lists[i] == was[k..] && ListFired(was, k, now) && now.usec < 1_000_000
      requires lists[i] != [] ==> !lists[i][0].at.Time().Le(now)
      ensures forall j :: 0 <= j < |was| && was[j].at.Micros() < 1_000_000 ==> (j < k <==> was[j].at.InMicros() <= now.InMicros())
    {
      var list := lists[i];
      assert ListIs(list, i, |lists|, all) && Ordered(list, all);
      hide Core, WakesBut, NoDup;
      forall j | 0 <= j < |was| && was[j].at.Micros() < 1_000_000
        ensures j < k <==> was[j].at.InMicros() <= now.InMicros()
      {
        LeIsTime(was[j].at.Time(), now);
        if k <= j {
          assert was[j] == list[j - k];
          SameMarkCompares(list[0].at, was[j].at, |lists|);
          LeOrder(list[0].at.Time(), was[j].at.Time(), now);
        }
      }
    }

    lemma ListFacts(i: nat, t: Ev)
      requires Valid() && i < |lists| && t in timers
      ensures t !in lists[i] && NoDup(lists[i])
    {
      TimerPlain(t);
      assert ListIs(lists[i], i, |lists|, all);
    }

    /** The first event of a common timeout is taken out of all queues, and activated. */
    method ActivateFirst(i: nat, ev: Ev, ghost was: seq<Ev>, ghost k: nat, now: TimeVal, ghost queues0: seq<seq<Ev>>,
                         ghost later0: seq<Ev>)
      requires Valid() && i < |lists| && lists[i] != [] && ev == lists[i][0] && ev.at.Time().Le(now)
      requires k < |was| && lists[i] == was[k..] && NoDup(was) && ListFired(was, k, now)
      requires QueuesFired(queues0, queues, was[..k]) && later == Kept(later0, Elements(was[..k]))
      modifies this`count, this`countActive, this`queues, this`later, this`heap, this`lists
      modifies ev`timeout, ev`active, ev`later, ev`inserted, ev`res
      ensures Valid() && heap == old(heap) && lists == old(lists)[i := was[k + 1..]] && ListFired(was, k + 1, now)
      ensures QueuesFired(queues0, queues, was[..k + 1]) && later == Kept(later0, Elements(was[..k + 1]))
    {
      hide Marks, Queued, Latered, Counted, ActiveCounted, Timers, NoDup, Wakes, QueuesFired, Kept, Without, WakesBut;
      HeadFacts(i, ev);
      WakesWeaker(ev);
      assert was[..k + 1] == was[..k] + [ev];
      QueuesOneMore(ev, was[..k], queues0, later0);
      ExpireListed(i, ev);
    }

    method ExpireListed(i: nat, ev: Ev)
      requires Valid() && i < |lists| && lists[i] != [] && ev == lists[i][0] && Without(lists[i], ev) == lists[i][1..]
      requires ev in all && ev.timeout && !ev.finalizing && ev.at.IsCommon(|lists|) && ev.at.Idx() == i
      modifies this`count, this`countActive, this`queues, this`later, this`heap, this`lists
      modifies ev`timeout, ev`active, ev`later, ev`inserted, ev`res
      ensures Valid() && heap == old(heap) && lists == old(lists)[i := old(lists)[i][1..]]
      ensures ev.active && ev.res == {Timeout} && !ev.inserted && !ev.timeout && !ev.later
      ensures queues == Appended(Cut(old(queues), ev, old(ev.active)), ev)
      ensures later == if old(ev.later) then Without(old(later), ev) else old(later)
    {
      hide Marks, Queued, Latered, Counted, ActiveCounted, Timers, NoDup, Wakes, Without;
      WakesWeaker(ev);
      EventDel(ev, false);
      EventActive(ev, Timeout);
    }

    lemma HeadFacts(i: nat, ev: Ev)
      requires Timed() && Final() && i < |lists| && lists[i] != [] && ev == lists[i][0]
      ensures ev in all && ev.timeout && !ev.finalizing && ev.at.IsCommon(|lists|) && ev.at.Idx() == i
      ensures Without(lists[i], ev) == lists[i][1..]
    {
      assert ListIs(lists[i], i, |lists|, all);
    }

    /** Sets the timer of list i for its first event, if there is one; it no longer runs. */
    method StopTimer(i: nat, t: Ev, now: TimeVal)
      requires Valid() && i < |lists| == |timers| && t == timers[i] && running == t && now.usec < 1_000_000
      modifies this`count, this`countActive, this`queues, this`heap, this`lists, this`running
      modifies t`timeout, t`active, t`at, t`every
      ensures Valid() && running == null && lists == old(lists)
      ensures lists[i] != [] ==> t in heap && t.at == old(lists[i][0].at.Time())
      ensures heap == old(heap) + if lists[i] != [] then {t} else {}
      ensures queues == Cut(old(queues), t, lists[i] != [] && old(t.active) && Timeout in t.res)
    {
      hide Marks, Queued, Latered, Counted, ActiveCounted, Final, Timed;
      if lists[i] != [] {
        WakesWeaker(t);
        Schedule(i, t, now);
      }
      HeadsIn(i);
      NotRunning(i, t);
      running := null;
    }

    lemma NotRunning(i: nat, t: Ev)
      requires Timers() && Timed() && i < |lists| && t == timers[i] && running == t && WakesBut(null)
      requires lists[i] != [] ==> t in heap && t.at == lists[i][0].at.Time()
      ensures forall j :: 0 <= j < |lists| ==> Wakes(lists[j], timers[j], null, heap, all)
    {
      HeadsIn(i);
      forall j | 0 <= j < |lists| ensures Wakes(lists[j], timers[j], null, heap, all) {
        assert Wakes(lists[j], timers[j], running, heap, all);
        if j == i && lists[i] != [] {
          LeOrder(t.at, t.at, t.at);
        }
      }
    }

    // ----- later, finalizing, canceling -----

    /** event_active_later_nolock_ */
    method EventActiveLater(ev: Ev, reason: Reason)
      requires Valid() && ev in all && ev !in timers
      modifies this`count, this`countActive, this`later, ev`later, ev`res
      ensures Valid() && (ev.active || ev.later) && reason in ev.res
      ensures if old(ev.active || ev.later) then later == old(later) else later == old(later) + [ev] && ev.res == {reason}
    {
      hide Marks, Queued, Latered, Counted, ActiveCounted, Final, Timers, Timed, NoDup, Wakes;
      if ev.active || ev.later {
        ev.res := ev.res + {reason};
        return;
      }
      ev.res := {reason};
      InsertLater(ev);
    }

    /** event_queue_make_later_events_active: in order, behind what is in the queues of their priorities. */
    method MakeLaterEventsActive()
      requires Valid()
      modifies this`count, this`countActive, this`queues, this`later, all`active, all`later
      ensures Valid() && later == [] && |queues| == nQueues == |old(queues)|
      ensures forall p :: 0 <= p < nQueues ==> queues[p] == old(queues)[p] + OfPri(old(later), p)
    {
      hide Marks, Latered, Counted, ActiveCounted, Final, Timers, Timed, NoDup, Wakes, QueuesAre, OfPri;
      ghost var was := later;
      assert |queues| == nQueues;
      NothingMore(queues, was);
      while later != []
        invariant Valid() && |queues| == nQueues
        invariant forall p :: 0 <= p < nQueues ==> queues[p] + OfPri(later, p) == old(queues)[p] + OfPri(was, p)
        decreases |later|
      {
        FirstLater();
        ghost var qs, ls := queues, later;
        var cb := later[0];
        MoveLater(cb);
        OneMore(qs, queues, ls, cb);
      }
      NothingLeft(queues);
    }

    lemma FirstLater()
      requires Latered() && later != []
      ensures later[0] in all && later[0].later
      ensures Without(later, later[0]) == later[1..]
    {
    }

    method MoveLater(cb: Ev)
      requires Valid() && later != [] && cb == later[0] && cb in all && cb.later
      modifies this`count, this`countActive, this`queues, this`later, cb`active, cb`later
      ensures Valid() && later == old(later)[1..] && cb.pri < |old(queues)| == |queues|
      ensures queues == old(queues)[cb.pri := old(queues)[cb.pri] + [cb]]
    {
      hide Marks, Counted, ActiveCounted, Final, Timers, Timed, NoDup;
      WakesWeaker(cb);
      RemoveLater(cb);
      InsertActive(cb);
      WakesAll(cb);
    }

    /** event_finalize_nolock_: out of all queues, and into the active ones for the last time. */
    method EventFinalize(ev: Ev)
      requires Valid() && ev in all && ev.isEvent && ev !in timers
      modifies this`count, this`countActive, this`queues, this`later, this`heap, this`lists
      modifies ev`timeout, ev`active, ev`later, ev`inserted, ev`res, ev`finalizing
      ensures Valid() && ev.finalizing && !ev.timeout && !ev.inserted
      ensures if old(ev.finalizing) then
                ev.active == old(ev.active) && heap == old(heap) && lists == old(lists) && queues == old(queues) && later == old(later)
              else
                && ev.active && ev.res == {Finalize} && !ev.later
                && queues == Appended(Cut(old(queues), ev, old(ev.active)), ev)
                && later == if old(ev.later) then Without(old(later), ev) else old(later)
    {
      hide Marks, Queued, Latered, Counted, ActiveCounted, Timed, Timers, Final, Wakes, Without;
      WakesWeaker(ev);
      EventDel(ev, false);
      EventActive(ev, Finalize);
      StillFinal(ev);
      SetFinalizing(ev);
    }

    lemma StillFinal(ev: Ev)
      requires Final() && ev in all
      ensures ev.finalizing || !ev.isEvent ==> !ev.timeout && !ev.inserted
    {
    }

    /** event_callback_cancel_nolock_ */
    method CallbackCancel(cb: Ev, evenIfFinalizing: bool)
      requires Valid() && cb in all && cb !in timers
      modifies this`count, this`countActive, this`queues, this`later, this`heap, this`lists
      modifies cb`timeout, cb`active, cb`later, cb`inserted
      ensures Valid()
      ensures !cb.finalizing || evenIfFinalizing ==> !cb.active && !cb.later && !cb.timeout && !cb.inserted
      ensures if cb.finalizing && !evenIfFinalizing then
                && cb.active == old(cb.active) && cb.later == old(cb.later) && queues == old(queues) && later == old(later)
              else
                && queues == Cut(old(queues), cb, old(cb.active))
                && later == if old(cb.later) then Without(old(later), cb) else old(later)
    {
      hide Marks, Queued, Counted, ActiveCounted, Timed, NoDup, Wakes, Without;
      if cb.finalizing && !evenIfFinalizing {
        return;
      }
      WakesWeaker(cb);
      if cb.isEvent {
        EventDel(cb, evenIfFinalizing);
      } else if cb.active {
        DropActive(cb);
      } else if cb.later {
        RemoveLater(cb);
      }
      WakesOfOthers(cb);
    }

    lemma WakesOfOthers(cb: Ev)
      requires WakesBut(cb) && cb !in timers
      ensures WakesBut(null)
    {
    }

    /** event_callback_finalize_nolock_ */
    method CallbackFinalize(cb: Ev)
      requires Valid() && cb in all && cb !in timers
      modifies this`count, this`countActive, this`queues, this`later, this`heap, this`lists
      modifies cb`timeout, cb`active, cb`later, cb`inserted, cb`finalizing
      ensures Valid() && cb.finalizing && !cb.timeout && !cb.inserted && (!old(cb.finalizing) ==> cb.active && !cb.later)
      ensures if old(cb.finalizing) then queues == old(queues) && later == old(later)
              else
                && queues == Appended(Cut(old(queues), cb, old(cb.active)), cb)
                && later == if old(cb.later) then Without(old(later), cb) else old(later)
    {
      hide Marks, Queued, Latered, Counted, ActiveCounted, Timed, Timers, Final, Wakes, Without;
      StillFinal(cb);
      WakesWeaker(cb);
      if cb.isEvent {
        EventDel(cb, false);
        WakesOfOthers(cb);
      } else {
        CallbackCancel(cb, false);
      }
      WakesWeaker(cb);
      var _ := CallbackActivate(cb);
      WakesOfOthers(cb);
      StillFinal(cb);
      SetFinalizing(cb);
    }

    method SetFinalizing(cb: Ev)
      requires Core() && cb in all && cb !in timers && !cb.timeout && !cb.inserted
      modifies cb`finalizing
      ensures Core() && cb.finalizing
    {
      hide Marks, Queued, Latered, Counted, ActiveCounted, Timed, NoDup;
      cb.finalizing := true;
    }

    /** Whatever happened: a timer of the heap goes off no later than any event of a common timeout, or that is being looked at. */
    lemma NoWakeupLost(e: Ev)
      requires Valid() && e in all && e.timeout && e.at.IsCommon(|lists|)
      ensures var t := timers[e.at.Idx()];
        running == t || t.active ||
        (t in heap && (t.at.usec < 1_000_000 && e.at.Micros() < 1_000_000 ==> t.at.InMicros() <= e.at.InMicros()))
    {
      var i := e.at.Idx();
      var list := lists[i];
      assert ListIs(list, i, |lists|, all) && Ordered(list, all);
      assert Wakes(list, timers[i], running, heap, all);
      var j :| 0 <= j < |list| && list[j] == e;
      SameMarkCompares(list[0].at, e.at, |lists|);
      LeOrder(timers[i].at, list[0].at.Time(), e.at.Time());
      if timers[i].at.usec < 1_000_000 && e.at.Micros() < 1_000_000 {
        LeIsTime(timers[i].at, e.at.Time());
      }
    }

    // ----- setting up -----

    constructor (nQueues: nat)
      requires nQueues > 0
      ensures Valid() && this.nQueues == nQueues && all == {} && running == null && lists == []
    {
      this.nQueues := nQueues;
      queues, later, heap, lists, timers, durations := seq(nQueues, _ => []), [], {}, [], [], [];
      count, countActive, running, all := 0, 0, null, {};
      new;
      SumEmpty(queues);
    }

    /** A new event or callback. */
    method Register(ev: Ev)
      requires Valid() && ev !in all && ev.pri < nQueues && Blank(ev)
      modifies this`all
      ensures Valid() && all == old(all) + {ev}
    {
      hide QueuesAre, LaterIs, NeverBoth, HeapIs, ListsAre, NoDup, Wakes, Blank, TimeoutSet, InsertedSet, ActiveSet, LaterSet;
      CountsSame(all, ev);
      QueuesSame(queues, later, all, ev);
      TimersSame(heap, lists, all, ev);
      NotFinal(ev);
      WakesSame(ev);
      all := all + {ev};
    }

    lemma WakesSame(ev: Ev)
      requires WakesBut(null)
      ensures forall i :: 0 <= i < |lists| ==> Wakes(lists[i], timers[i], running, heap, all + {ev})
    {
      forall i | 0 <= i < |lists| ensures Wakes(lists[i], timers[i], running, heap, all + {ev}) {
        assert Wakes(lists[i], timers[i], running, heap, all);
      }
    }

    /** One more common timeout, with its own timer; the events there are keep their places. */
    method AddList(t: Ev, d: TimeVal)
      requires d.IsPlain() && NoneLasts(durations, |durations|, d)
      requires Valid() && |lists| < IDX_LIMIT && t !in all && t.pri < nQueues && Blank(t)
      requires t.isEvent && t.internal && !t.persist && !t.watches && t.at.IsPlain()
      modifies this`all, this`lists, this`timers, this`durations
      ensures Valid() && lists == old(lists) + [[]] && timers == old(timers) + [t] && all == old(all) + {t}
      ensures durations == old(durations) + [d.Marked(|old(lists)|)]
    {
      hide Marks, Queued, Latered, Counted, ActiveCounted, Final, HeapIs, ListsAre, Wakes, TimeVal.IsCommon, TimeVal.Marked;
      TimerNew(t);
      SameLength();
      MarkMore(durations, |durations|, d);
      Register(t);
      OneListMore(heap, lists, all);
      WakesNew(t);
      lists, timers, durations := lists + [[]], timers + [t], durations + [d.Marked(|lists|)];
    }

    /** event_base_init_common_timeout: the mark to use for events with that length; none if there are 256 other lengths. */
    method InitCommonTimeout(duration: TimeVal) returns (r: Option<TimeVal>)
      requires Valid() && nQueues > 0
      modifies this`all, this`lists, this`timers, this`durations
      ensures Valid() && |durations| == |lists|
      ensures var d := Normalized(duration, old(|lists|));
        if !NoneLasts(old(durations), old(|durations|), d) then
          && lists == old(lists) && timers == old(timers)
          && r.Some? && r.value in durations && r.value.Time() == d
        else if old(|lists|) == 256 then
          r.None? && lists == old(lists) && timers == old(timers)
        else
          && lists == old(lists) + [[]] && durations == old(durations) + [d.Marked(old(|lists|))]
          && r == Some(durations[|durations| - 1]) && r.value.Time() == d
      ensures r.Some? ==> r.value.IsCommon(|lists|)
      ensures var marked := duration.usec <= 1_000_000 || duration.IsCommon(|old(lists)|);
        r.Some? ==> r.value.InMicros() == duration.sec * 1_000_000 + if marked then duration.Micros() else duration.usec
      ensures r.Some? ==> if duration.usec <= 1_000_000 then r.value.Time() == duration else r.value.Micros() < 1_000_000
    {
      hide Queued, Latered, Counted, ActiveCounted, Final, Timed, WakesBut, TimeVal.IsCommon, TimeVal.Idx, TimeVal.Marked;
      var d := Normalized(duration, |lists|);
      for i := 0 to |lists|
        modifies {}
        invariant NoneLasts(durations, i, d)
      {
        if d == durations[i].Time() {
          return Some(durations[i]);
        }
        OneMoreTried(durations, i, d);
      }
      if |lists| == IDX_LIMIT {
        return None;
      }
      SameLength();
      MarkMore(durations, |durations|, d);
      var t := new Ev(true, true, 0, false, false, false);
      AddList(t, d);
      return Some(durations[|durations| - 1]);
    }

    lemma SameLength()
      requires Valid()
      ensures |durations| == |lists|
    {
    }

    lemma TimerNew(t: Ev)
      requires Timers() && t !in all
      ensures t !in timers
    {
    }

    lemma WakesNew(t: Ev)
      requires WakesBut(null) && t in all
      ensures var ls, ts := lists + [[]], timers + [t];
        forall i :: 0 <= i < |ls| ==> Wakes(ls[i], ts[i], running, heap, all)
    {
    }
  }

  /** No flag is set. */
  predicate Blank(ev: Ev)
    reads ev
  {
    !ev.timeout && !ev.inserted && !ev.active && !ev.later && !ev.finalizing
  }

  lemma CountsSame(all: set<Ev>, ev: Ev)
    requires Blank(ev)
    ensures TimeoutSet(all + {ev}) == TimeoutSet(all) && InsertedSet(all + {ev}) == InsertedSet(all)
    ensures ActiveSet(all + {ev}) == ActiveSet(all) && LaterSet(all + {ev}) == LaterSet(all)
  {
  }

  lemma QueuesSame(queues: seq<seq<Ev>>, later: seq<Ev>, all: set<Ev>, ev: Ev)
    requires QueuesAre(queues, all) && LaterIs(later, all) && NeverBoth(all) && Blank(ev)
    ensures QueuesAre(queues, all + {ev}) && LaterIs(later, all + {ev}) && NeverBoth(all + {ev})
  {
    hide NoDup;
    forall i | 0 <= i < |queues| ensures QueueIs(queues[i], i, all + {ev}) {
      assert QueueIs(queues[i], i, all);
    }
  }

  lemma TimersSame(heap: set<Ev>, lists: seq<seq<Ev>>, all: set<Ev>, ev: Ev)
    requires HeapIs(heap, |lists|, all) && ListsAre(lists, all) && Blank(ev) && ev !in all
    ensures HeapIs(heap, |lists|, all + {ev}) && ListsAre(lists, all + {ev})
  {
    hide NoDup;
    forall i | 0 <= i < |lists| ensures ListIs(lists[i], i, |lists|, all + {ev}) && Ordered(lists[i], all + {ev}) {
      assert ListIs(lists[i], i, |lists|, all) && Ordered(lists[i], all);
    }
  }

  lemma NotFinal(ev: Ev)
    requires Blank(ev)
    ensures !ev.timeout && !ev.inserted && !ev.finalizing && !ev.later && !ev.active
  {
  }

  /** Timers without a mark do not take on the one of a new list. */
  lemma OneListMore(heap: set<Ev>, lists: seq<seq<Ev>>, all: set<Ev>)
    requires HeapIs(heap, |lists|, all) && ListsAre(lists, all)
    ensures HeapIs(heap, |lists| + 1, all) && ListsAre(lists + [[]], all)
  {
    hide NoDup, Ordered;
    var lists' := lists + [[]];
    forall e | e in heap ensures !e.at.IsCommon(|lists| + 1) {
      PlainIsNotCommon(e.at, |lists| + 1);
    }
    NothingOrdered(all);
    forall i | 0 <= i < |lists'| ensures ListIs(lists'[i], i, |lists'|, all) && Ordered(lists'[i], all) {
      assert i < |lists| ==> ListIs(lists[i], i, |lists|, all) && Ordered(lists[i], all);
    }
  }

  lemma NothingOrdered(all: set<Ev>)
    ensures Ordered([], all) && NoDup<Ev>([])
  {
  }

  /** Those with priority p, in order. */
  function OfPri(s: seq<Ev>, p: nat): seq<Ev> {
    if s == [] then [] else (if s[0].pri == p then [s[0]] else []) + OfPri(s[1..], p)
  }

  lemma {:induction false} OfPriMore(s: seq<Ev>, e: Ev, p: nat)
    ensures OfPri(s + [e], p) == if e.pri == p then OfPri(s, p) + [e] else OfPri(s, p)
  {
    if s == [] {
      assert [e][1..] == [];
    } else {
      assert (s + [e])[0] == s[0] && (s + [e])[1..] == s[1..] + [e];
      OfPriMore(s[1..], e, p);
    }
  }

  lemma {:induction false} OfPriMembers(s: seq<Ev>, p: nat, e: Ev)
    ensures e in OfPri(s, p) <==> e in s && e.pri == p
  {
    if s != [] {
      OfPriMembers(s[1..], p, e);
      assert s == [s[0]] + s[1..];
    }
  }

  /** Those that are not gone, in order. */
  function Kept(s: seq<Ev>, gone: set<Ev>): seq<Ev> {
    if s == [] then [] else (if s[0] in gone then [] else [s[0]]) + Kept(s[1..], gone)
  }

  lemma {:induction false} KeptMembers(s: seq<Ev>, gone: set<Ev>, e: Ev)
    ensures e in Kept(s, gone) <==> e in s && e !in gone
  {
    if s != [] {
      KeptMembers(s[1..], gone, e);
      assert s == [s[0]] + s[1..];
    }
  }

  lemma {:induction false} KeptAll(s: seq<Ev>)
    ensures Kept(s, {}) == s
  {
    if s != [] {
      KeptAll(s[1..]);
    }
  }

  lemma {:induction false} KeptLess(s: seq<Ev>, gone: set<Ev>, e: Ev)
    requires NoDup(Kept(s, gone)) && e !in gone
    ensures Kept(s, gone + {e}) == Without(Kept(s, gone), e)
    ensures e !in Kept(s, gone) ==> Kept(s, gone + {e}) == Kept(s, gone)
  {
    if s != [] {
      var rest := Kept(s[1..], gone);
      KeptStep(s, gone);
      KeptStep(s, gone + {e});
      hide Kept;
      if s[0] !in gone {
        assert Kept(s, gone)[1..] == rest && forall i :: 0 <= i < |rest| ==> rest[i] == Kept(s, gone)[i + 1];
      }
      KeptLess(s[1..], gone, e);
      if e !in rest {
        WithoutNone(rest, e);
      }
    }
  }

  lemma KeptStep(s: seq<Ev>, gone: set<Ev>)
    requires s != []
    ensures Kept(s, gone) == if s[0] in gone then Kept(s[1..], gone) else [s[0]] + Kept(s[1..], gone)
  {
  }

  lemma {:induction false} WithoutFront(a: seq<Ev>, b: seq<Ev>, e: Ev)
    requires e in a
    ensures Without(a + b, e) == Without(a, e) + b
  {
    assert (a + b)[1..] == a[1..] + b;
    if a[0] != e {
      WithoutFront(a[1..], b, e);
    }
  }

  /** One queue, when one more event is taken out of it and put at the end of that of its priority. */
  lemma QueueOneMore(was: seq<Ev>, queue: seq<Ev>, order: seq<Ev>, ev: Ev, p: nat)
    requires queue == Kept(was, Elements(order)) + OfPri(order, p) && NoDup(queue)
    requires ev !in order && (ev in queue ==> ev.pri == p)
    ensures ev in queue ==>
      Without(queue, ev) + [ev] == Kept(was, Elements(order + [ev])) + (OfPri(order, p) + [ev])
    ensures ev !in queue ==> queue == Kept(was, Elements(order + [ev])) + OfPri(order, p)
  {
    var kept := Kept(was, Elements(order));
    assert Elements(order + [ev]) == Elements(order) + {ev};
    assert forall i :: 0 <= i < |kept| ==> kept[i] == queue[i];
    assert NoDup(kept);
    KeptLess(was, Elements(order), ev);
    OfPriMembers(order, p, ev);
    hide Without, Kept, OfPri, NoDup;
    if ev in queue {
      WithoutFront(kept, OfPri(order, p), ev);
      assert Without(queue, ev) + [ev] == Without(kept, ev) + (OfPri(order, p) + [ev]);
    }
  }

  lemma QueuesFiredMore(ev: Ev, order: seq<Ev>, was: seq<seq<Ev>>, queues: seq<seq<Ev>>, active: bool)
    requires QueuesFired(was, queues, order) && ev !in order && ev.pri < |queues|
    requires forall p :: 0 <= p < |queues| ==> NoDup(queues[p]) && (ev in queues[p] <==> active && p == ev.pri)
    ensures QueuesFired(was, Appended(Cut(queues, ev, active), ev), order + [ev])
  {
    hide Without, Kept, OfPri, NoDup;
    var queues' := Appended(Cut(queues, ev, active), ev);
    forall p | 0 <= p < |queues| ensures queues'[p] == Kept(was[p], Elements(order + [ev])) + OfPri(order + [ev], p) {
      OfPriMore(order, ev, p);
      QueueOneMore(was[p], queues[p], order, ev, p);
      if p == ev.pri && !active {
        assert queues'[p] == queues[p] + [ev] == Kept(was[p], Elements(order + [ev])) + (OfPri(order, p) + [ev]);
      }
    }
  }

  lemma NothingFired(queues: seq<seq<Ev>>, later: seq<Ev>)
    ensures QueuesFired(queues, queues, []) && later == Kept(later, Elements([]))
  {
    assert Elements<Ev>([]) == {};
    KeptAll(later);
    forall p | 0 <= p < |queues| ensures queues[p] == Kept(queues[p], {}) + OfPri([], p) {
      KeptAll(queues[p]);
    }
  }

  /** Those that fired did so in order of their times, and before all that are left. */
  ghost predicate InTurn(order: seq<Ev>, heap: set<Ev>)
    reads Elements(order)`at, heap`at
  {
    && NoDup(order) && (forall i, j :: 0 <= i <= j < |order| ==> order[i].at.Le(order[j].at))
    && forall i, e :: 0 <= i < |order| && e in heap ==> order[i] != e && order[i].at.Le(e.at)
  }

  lemma NextInTurn(order: seq<Ev>, heap: set<Ev>, ev: Ev)
    requires InTurn(order, heap) && IsTop(ev, heap)
    ensures InTurn(order + [ev], heap - {ev}) && ev !in order
  {
    LeOrder(ev.at, ev.at, ev.at);
  }

  lemma NoneInTurn(heap: set<Ev>)
    ensures InTurn([], heap)
  {
  }

  lemma InTurnIs(order: seq<Ev>, heap: set<Ev>)
    requires InTurn(order, heap)
    ensures NoDup(order) && forall i, j :: 0 <= i <= j < |order| ==> order[i].at.Le(order[j].at)
  {
  }

  lemma FiredInTime(was: set<Ev>, heap: set<Ev>, order: seq<Ev>, now: TimeVal)
    requires Elements(order) == DueIn(was, now) && heap == was - Elements(order)
    ensures forall e :: e in was && e.at.usec < 1_000_000 && now.usec < 1_000_000 ==>
      (e in order <==> e.at.InMicros() <= now.InMicros()) && (e in heap <==> e.at.InMicros() > now.InMicros())
  {
    forall e | e in was && e.at.usec < 1_000_000 && now.usec < 1_000_000
      ensures (e in order <==> e.at.InMicros() <= now.InMicros()) && (e in heap <==> e.at.InMicros() > now.InMicros())
    {
      LeIsTime(e.at, now);
      assert e in Elements(order) <==> e in order;
    }
  }

  lemma FiredAre(order: seq<Ev>, now: TimeVal)
    requires Fired(Elements(order), now)
    ensures forall e :: e in order ==> e.active && e.res == {Timeout} && !e.inserted && !e.timeout && !e.later
  {
    forall e | e in order ensures e.active && e.res == {Timeout} && !e.inserted && !e.timeout && !e.later {
      assert e in Elements(order);
    }
  }

  /** The active queues when some events were taken out of them and put behind all others. */
  ghost predicate QueuesFired(was: seq<seq<Ev>>, queues: seq<seq<Ev>>, order: seq<Ev>) {
    |was| == |queues| && forall p :: 0 <= p < |queues| ==> queues[p] == Kept(was[p], Elements(order)) + OfPri(order, p)
  }

  lemma OneMore(queues: seq<seq<Ev>>, queues': seq<seq<Ev>>, later: seq<Ev>, cb: Ev)
    requires later != [] && cb == later[0] && cb.pri < |queues| && queues' == queues[cb.pri := queues[cb.pri] + [cb]]
    ensures forall p :: 0 <= p < |queues| ==> queues'[p] + OfPri(later[1..], p) == queues[p] + OfPri(later, p)
  {
    forall p | 0 <= p < |queues| ensures queues'[p] + OfPri(later[1..], p) == queues[p] + OfPri(later, p) {
      var rest := OfPri(later[1..], p);
      if p == cb.pri {
        assert queues[p] + [cb] + rest == queues[p] + ([cb] + rest);
      } else {
        assert [] + rest == rest;
      }
    }
  }

  lemma NothingMore(queues: seq<seq<Ev>>, later: seq<Ev>)
    ensures forall p :: 0 <= p < |queues| ==> queues[p] + OfPri(later, p) == queues[p] + OfPri(later, p)
  {
  }

  lemma NothingLeft(queues: seq<seq<Ev>>)
    ensures forall p :: 0 <= p < |queues| ==> queues[p] + OfPri([], p) == queues[p]
  {
  }

  /** The first k events were due, and are active because they timed out, and nowhere else. */
  ghost predicate ListFired(was: seq<Ev>, k: nat, now: TimeVal)
    reads Elements(was)`at, Elements(was)`active, Elements(was)`res, Elements(was)`inserted, Elements(was)`timeout, Elements(was)`later
  {
    k <= |was| && forall j :: 0 <= j < k ==>
      && was[j].at.Time().Le(now) && was[j].active && was[j].res == {Timeout}
      && !was[j].inserted && !was[j].timeout && !was[j].later
  }

  lemma ListFiredIs(was: seq<Ev>, k: nat, now: TimeVal)
    requires ListFired(was, k, now)
    ensures forall j :: 0 <= j < k ==>
      was[j].active && was[j].res == {Timeout} && !was[j].inserted && !was[j].timeout && !was[j].later
  {
  }

  lemma NoneListFired(was: seq<Ev>, now: TimeVal)
    ensures ListFired(was, 0, now)
  {
  }

  /** Of the events of the heap that was, those in `fired` were due, and are activated; the others are still there. */
  ghost predicate Firing(was: set<Ev>, heap: set<Ev>, fired: set<Ev>, now: TimeVal)
    reads fired`at, fired`active, fired`res, fired`inserted, fired`timeout, fired`later
  {
    fired <= was && heap == was - fired && Fired(fired, now)
  }

  lemma TopDue(ev: Ev, heap: set<Ev>, was: set<Ev>, fired: set<Ev>, now: TimeVal)
    requires IsTop(ev, heap) && ev.at.Le(now) && Firing(was, heap, fired, now)
    ensures ev in heap && ev in DueIn(was, now)
  {
  }

  lemma AllFired(ev: Ev?, heap: set<Ev>, was: set<Ev>, fired: set<Ev>, now: TimeVal)
    requires IsTop(ev, heap) && (ev != null ==> !ev.at.Le(now)) && Firing(was, heap, fired, now)
    ensures DueIn(heap, now) == {} && fired == DueIn(was, now) && heap == was - fired && Fired(fired, now)
  {
    forall e | e in heap ensures !e.at.Le(now) {
      if ev != null {
        LeOrder(ev.at, e.at, now);
      }
    }
  }

  ghost predicate IsTop(ev: Ev?, heap: set<Ev>)
    reads heap`at
  {
    && (ev == null <==> heap == {})
    && (ev != null ==> ev in heap && forall e :: e in heap ==> ev.at.Le(e.at))
  }

  ghost function DueIn(heap: set<Ev>, now: TimeVal): set<Ev>
    reads heap`at
  {
    set e | e in heap && e.at.Le(now)
  }

  ghost predicate Fired(fired: set<Ev>, now: TimeVal)
    reads fired`at, fired`active, fired`res, fired`inserted, fired`timeout, fired`later
  {
    forall e :: e in fired ==> e.at.Le(now) && e.active && e.res == {Timeout} && !e.inserted && !e.timeout && !e.later
  }

  lemma NoneFired(heap: set<Ev>, now: TimeVal)
    ensures Firing(heap, heap, {}, now)
  {
  }

  lemma {:induction false} Earliest(s: set<Ev>, all: set<Ev>)
    requires s != {} && s <= all
    ensures exists ev :: ev in s && forall e :: e in s ==> ev.at.Le(e.at)
  {
    var x :| x in s;
    if s == {x} {
      LeOrder(x.at, x.at, x.at);
      assert forall e :: e in s ==> x.at.Le(e.at);
    } else {
      Earliest(s - {x}, all);
      var y :| y in s - {x} && forall e :: e in s - {x} ==> y.at.Le(e.at);
      var first := if y.at.Le(x.at) then y else x;
      forall e | e in s ensures first.at.Le(e.at) {
        LeOrder(x.at, y.at, e.at);
        LeOrder(y.at, x.at, e.at);
      }
      assert first in s;
    }
  }

  /** All is well with the heap but for ev. */
  ghost predicate HeapBut(heap: set<Ev>, n: nat, all: set<Ev>, ev: Ev)
    reads all`timeout, all`at
  {
    && heap <= all
    && (forall e :: e in all && e != ev ==> (e in heap <==> e.timeout && !e.at.IsCommon(n)))
    && (forall e :: e in heap ==> e.at.IsPlain())
  }

  lemma HeapWith(heap: set<Ev>, n: nat, all: set<Ev>, ev: Ev, plain: bool)
    requires HeapBut(heap, n, all, ev) && ev in all && ev.timeout
    requires if plain then ev.at.IsPlain() else ev.at.IsCommon(n)
    ensures HeapIs(if plain then heap + {ev} else heap, n, all)
  {
    if plain {
      PlainIsNotCommon(ev.at, n);
    }
  }

  lemma HeapWithout(heap: set<Ev>, n: nat, all: set<Ev>, ev: Ev)
    requires HeapBut(heap, n, all, ev) && !ev.timeout
    ensures HeapIs(heap - {ev}, n, all)
  {
  }

  lemma ListsSame(lists: seq<seq<Ev>>, all: set<Ev>, ev: Ev)
    requires ListsBut(lists, all, ev) && ev.at.IsPlain()
    ensures ListsAre(lists, all)
  {
    PlainIsNotCommon(ev.at, |lists|);
    hide Ordered;
  }

  lemma ListsLess(lists: seq<seq<Ev>>, all: set<Ev>, ev: Ev)
    requires ListsStill(lists, all, ev) && !ev.timeout && !ev.at.IsCommon(|lists|)
    ensures ListsAre(lists, all)
  {
    hide Ordered, NoDup;
    forall j | 0 <= j < |lists| ensures ListIs(lists[j], j, |lists|, all) && Ordered(lists[j], all) {
      assert ListStill(lists[j], j, |lists|, all, ev);
    }
  }

  lemma ListReady(lists: seq<seq<Ev>>, all: set<Ev>, ev: Ev, i: nat)
    requires ListsBut(lists, all, ev) && i < |lists|
    ensures Ordered(lists[i], all) && ev !in lists[i]
  {
  }

  lemma OrderedWith(list: seq<Ev>, all: set<Ev>, ev: Ev, k: nat)
    requires Ordered(list, all) && ev in all && k <= |list|
    requires k > 0 ==> list[k - 1].at.Le(ev.at)
    requires forall j :: k <= j < |list| ==> ev.at.Le(list[j].at)
    ensures Ordered(list[..k] + [ev] + list[k..], all)
  {
    var r := list[..k] + [ev] + list[k..];
    forall i, j | 0 <= i <= j < |r| ensures r[i].at.Le(r[j].at) {
      if i < k && j >= k {
        LeOrder(list[i].at, list[k - 1].at, ev.at);
        if j > k {
          LeOrder(list[i].at, ev.at, list[j - 1].at);
        }
      }
    }
  }

  /** All is well with the lists but for ev, whose flag was just set. */
  ghost predicate ListsBut(lists: seq<seq<Ev>>, all: set<Ev>, ev: Ev)
    reads all`timeout, all`at
  {
    && (forall i :: 0 <= i < |lists| ==> ListIs(lists[i], i, |lists|, all) && Ordered(lists[i], all) && ev !in lists[i])
    && (forall e :: e in all && e != ev && e.timeout && e.at.IsCommon(|lists|) ==> e in lists[e.at.Idx()])
  }

  lemma ListsWith(lists: seq<seq<Ev>>, all: set<Ev>, ev: Ev, i: nat, r: seq<Ev>, k: nat)
    requires ListsBut(lists, all, ev) && ev in all && ev.timeout && ev.at.IsCommon(|lists|) && i == ev.at.Idx()
    requires ev !in lists[i] && k <= |lists[i]| && r == lists[i][..k] + [ev] + lists[i][k..] && Ordered(r, all)
    ensures ListsAre(lists[i := r], all)
  {
    hide Ordered;
    var lists' := lists[i := r];
    assert ListIs(lists[i], i, |lists|, all);
    forall j | 0 <= j < |lists'| ensures ListIs(lists'[j], j, |lists'|, all) && Ordered(lists'[j], all) {
      assert ListIs(lists[j], j, |lists|, all);
      assert lists[i] == lists[i][..k] + lists[i][k..];
    }
  }

  /** All is well with the lists but for ev, whose flag was just cleared. */
  ghost predicate ListsStill(lists: seq<seq<Ev>>, all: set<Ev>, ev: Ev)
    reads all`timeout, all`at
  {
    && (forall i :: 0 <= i < |lists| ==> ListStill(lists[i], i, |lists|, all, ev) && Ordered(lists[i], all))
    && (forall e :: e in all && e.timeout && e.at.IsCommon(|lists|) ==> e in lists[e.at.Idx()])
  }

  ghost predicate ListStill(list: seq<Ev>, i: nat, n: nat, all: set<Ev>, ev: Ev)
    reads all`timeout, all`at
  {
    NoDup(list) && forall e :: e in list ==> e in all && (e.timeout || e == ev) && e.at.IsCommon(n) && e.at.Idx() == i
  }

  lemma OrderedWithout(list: seq<Ev>, all: set<Ev>, ev: Ev)
    requires Ordered(list, all) && ev in list
    ensures Ordered(Without(list, ev), all)
  {
    var k := WithoutAt(list, ev);
    hide Without;
    var r := Without(list, ev);
    forall e | e in r ensures e in list {
    }
  }

  lemma ListsWithout(lists: seq<seq<Ev>>, all: set<Ev>, ev: Ev, i: nat)
    requires ListsStill(lists, all, ev) && ev in all && !ev.timeout && ev.at.IsCommon(|lists|) && i == ev.at.Idx()
    requires ev in lists[i]
    ensures ListsAre(lists[i := Without(lists[i], ev)], all)
  {
    hide Ordered, Without;
    var lists' := lists[i := Without(lists[i], ev)];
    assert ListStill(lists[i], i, |lists|, all, ev);
    WithoutIs(lists[i], ev);
    OrderedWithout(lists[i], all, ev);
    forall j | 0 <= j < |lists'| ensures ListIs(lists'[j], j, |lists'|, all) && Ordered(lists'[j], all) {
      assert ListStill(lists[j], j, |lists|, all, ev);
      forall e | e in lists'[j] ensures e in all && e.timeout && e.at.IsCommon(|lists|) && e.at.Idx() == j {
        WithoutHas(lists[i], ev, e);
      }
    }
    forall e | e in all && e.timeout && e.at.IsCommon(|lists|) ensures e in lists'[e.at.Idx()] {
      WithoutHas(lists[i], ev, e);
    }
  }

  ghost predicate QueueButOne(queue: seq<Ev>, i: nat, all: set<Ev>, ev: Ev)
    reads all`active
  {
    NoDup(queue) && forall e :: e in queue ==> e in all && (e.active || e == ev) && e.pri == i
  }

  lemma QueuesWithout(queues: seq<seq<Ev>>, all: set<Ev>, ev: Ev)
    requires ev.pri < |queues| && !ev.active && NoDup(queues[ev.pri]) && ev in queues[ev.pri]
    requires forall i :: 0 <= i < |queues| ==> QueueButOne(queues[i], i, all, ev)
    requires forall e :: e in all && e.active ==> e.pri < |queues| && e in queues[e.pri]
    ensures QueuesAre(queues[ev.pri := Without(queues[ev.pri], ev)], all)
  {
    hide Without;
    var queues' := queues[ev.pri := Without(queues[ev.pri], ev)];
    WithoutIs(queues[ev.pri], ev);
    forall i | 0 <= i < |queues'| ensures QueueIs(queues'[i], i, all) {
      assert QueueButOne(queues[i], i, all, ev);
      forall e | e in queues'[i] ensures e in all && e.active && e.pri == i {
        WithoutHas(queues[ev.pri], ev, e);
      }
    }
    forall e | e in all && e.active ensures e.pri < |queues'| && e in queues'[e.pri] {
      WithoutHas(queues[ev.pri], ev, e);
    }
  }

  lemma LaterWithout(later: seq<Ev>, all: set<Ev>, ev: Ev)
    requires NoDup(later) && ev in later && !ev.later
    requires forall e :: e in later ==> e in all && (e.later || e == ev)
    requires forall e :: e in all && e.later ==> e in later
    ensures LaterIs(Without(later, ev), all)
  {
    hide Without;
    WithoutIs(later, ev);
    forall e ensures e in Without(later, ev) <==> e in later && e != ev {
      WithoutHas(later, ev, e);
    }
    assert NoDup(Without(later, ev));
  }
}
