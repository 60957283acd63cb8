/** Registered events of each fd, the list of coalesced changes, and what the kernel is told of them. */
module EvMap {
  import opened Lists
  import opened EpollTable

  const MAX_COUNT: nat := 0xffff

  /** An event on an fd; id stands for its address. */
  datatype Event = Event(id: nat, fd: int, kinds: Kinds)

  /** struct evmap_io, with the index plus one of the fd's change. */
  datatype Slot = Slot(events: seq<Event>, nread: nat, nwrite: nat, nclose: nat, idxPlus1: nat) {
    function Interest(): Kinds {
      Kinds(nread > 0, nwrite > 0, nclose > 0)
    }
  }

  const EMPTY_SLOT := Slot([], 0, 0, 0, 0)

  // ----- counting -----

  /** How many events of each kind there are. */
  datatype Counts = Counts(read: nat, write: nat, close: nat) {
    function More(k: Kinds): Counts {
      Counts(read + Bit(k.read), write + Bit(k.write), close + Bit(k.close))
    }
  }

  function Count(events: seq<Event>): Counts {
    if events == [] then Counts(0, 0, 0) else Count(events[1..]).More(events[0].kinds)
  }

  lemma {:induction false} CountWithout(events: seq<Event>, ev: Event)
    requires ev in events
    ensures Count(events) == Count(Without(events, ev)).More(ev.kinds)
  {
    if events[0] != ev {
      CountWithout(events[1..], ev);
      assert ([events[0]] + Without(events[1..], ev))[1..] == Without(events[1..], ev);
    }
  }

  /** A kind is counted if and only if some event has it. */
  lemma {:induction false} CountedIsThere(events: seq<Event>)
    ensures Count(events).read > 0 <==> exists e :: e in events && e.kinds.read
    ensures Count(events).write > 0 <==> exists e :: e in events && e.kinds.write
    ensures Count(events).close > 0 <==> exists e :: e in events && e.kinds.close
  {
    if events != [] {
      CountedIsThere(events[1..]);
      assert events == [events[0]] + events[1..];
    }
  }

  /** The counts are the numbers of events that have each kind. */
  lemma {:induction false} CountIs(events: seq<Event>)
    ensures Count(events).read == |set i | 0 <= i < |events| && events[i].kinds.read|
    ensures Count(events).write == |set i | 0 <= i < |events| && events[i].kinds.write|
    ensures Count(events).close == |set i | 0 <= i < |events| && events[i].kinds.close|
  {
    if events != [] {
      var rest := events[1..];
      CountIs(rest);
      var n := |rest|;
      OneBefore((set i | 0 <= i < n && rest[i].kinds.read), (set i | 0 <= i < |events| && events[i].kinds.read), events[0].kinds.read);
      OneBefore((set i | 0 <= i < n && rest[i].kinds.write), (set i | 0 <= i < |events| && events[i].kinds.write), events[0].kinds.write);
      OneBefore((set i | 0 <= i < n && rest[i].kinds.close), (set i | 0 <= i < |events| && events[i].kinds.close), events[0].kinds.close);
    }
  }

  // ----- changes -----

  function Fresh(fd: nat, was: Kinds): Change {
    Change(fd, was, NO_CHANGE, NO_CHANGE, NO_CHANGE)
  }

  /** An add replaces any delete. */
  function WithAdd(c: Change, k: Kinds): Change {
    c.(read := if k.read then CHANGE_ADD else c.read,
       write := if k.write then CHANGE_ADD else c.write,
       close := if k.close then CHANGE_ADD else c.close)
  }

  function DelBits(was: bool): Bits {
    if was then CHANGE_DEL else NO_CHANGE
  }

  /** A delete of what was not installed only takes back an add. */
  function WithDel(c: Change, k: Kinds): Change {
    c.(read := if k.read then DelBits(c.was.read) else c.read,
       write := if k.write then DelBits(c.was.write) else c.write,
       close := if k.close then DelBits(c.was.close) else c.close)
  }

  /** Only what was installed is to be deleted. */
  predicate Normal(c: Change) {
    c.Possible() && c.Deleted().Within(c.was)
  }

  lemma AddIsPlus(c: Change, k: Kinds)
    requires Normal(c)
    ensures Normal(WithAdd(c, k)) && WithAdd(c, k).Result() == c.Result().Plus(k)
  {
  }

  lemma DelIsMinus(c: Change, k: Kinds)
    requires Normal(c)
    ensures Normal(WithDel(c, k)) && WithDel(c, k).Result() == c.Result().Minus(k)
  {
  }

  // ----- the kernel -----

  datatype Outcome = Refused | Installed(kinds: Kinds)

  /** epoll_ctl: ADD is for an fd with nothing installed, MOD and DEL for one with something. */
  function Ctl(k: Kinds, op: Operation): Outcome {
    match op
    case N => Installed(k)
    case Add(e) => if k == NONE then Installed(e) else Refused
    case Mod(e) => if k != NONE && e != NONE then Installed(e) else Refused
    case Del(_) => if k != NONE then Installed(NONE) else Refused
    case X => Refused
  }

  /** The one call for a change is accepted, and installs what the change asks for. */
  lemma ChangeTakesEffect(c: Change)
    requires Normal(c)
    ensures Ctl(c.was, Table(TableIndex(c))) == Installed(c.Result())
  {
    TableIsRule(c);
    hide Table, TableIndex;
  }

  /** For a change that changes something no other call would do: it would be refused, or install something else. */
  lemma OnlyCall(c: Change, op: Operation)
    requires Normal(c) && c.Result() != c.was && Ctl(c.was, op) == Installed(c.Result())
    ensures if c.Result() == NONE then op.Del? else op == if c.was == NONE then Add(c.Result()) else Mod(c.Result())
  {
  }

  // ----- a run of adds and deletes on one fd -----

  datatype Step = AddStep(kinds: Kinds) | DelStep(kinds: Kinds)

  /** What a backend without a list of changes does: one call for each step. */
  function Eager(installed: Kinds, fd: nat, step: Step): Outcome {
    var c := Fresh(fd, installed);
    Ctl(installed, Table(TableIndex(if step.AddStep? then WithAdd(c, step.kinds) else WithDel(c, step.kinds))))
  }

  function EagerRun(installed: Kinds, fd: nat, steps: seq<Step>): Outcome
    decreases |steps|
  {
    if steps == [] then Installed(installed)
    else
      var next := Eager(installed, fd, steps[0]);
      if next.Refused? then Refused else EagerRun(next.kinds, fd, steps[1..])
  }

  function Coalesced(c: Change, steps: seq<Step>): Change
    decreases |steps|
  {
    if steps == [] then c
    else Coalesced(if steps[0].AddStep? then WithAdd(c, steps[0].kinds) else WithDel(c, steps[0].kinds), steps[1..])
  }

  lemma EagerAccepted(installed: Kinds, fd: nat, step: Step)
    ensures Eager(installed, fd, step) ==
      Installed(if step.AddStep? then installed.Plus(step.kinds) else installed.Minus(step.kinds))
  {
    var c := Fresh(fd, installed);
    if step.AddStep? {
      AddIsPlus(c, step.kinds);
      ChangeTakesEffect(WithAdd(c, step.kinds));
    } else {
      DelIsMinus(c, step.kinds);
      ChangeTakesEffect(WithDel(c, step.kinds));
    }
    hide Table, TableIndex, Ctl;
  }

  /** One call at the end, for all steps together, leaves the kernel as one call for each step would have; all are accepted. */
  lemma {:induction false} CoalescingAgrees(c: Change, steps: seq<Step>)
    requires Normal(c)
    ensures var last := Coalesced(c, steps);
      && Normal(last) && last.was == c.was
      && Ctl(c.was, Table(TableIndex(last))) == EagerRun(c.Result(), c.fd, steps)
    decreases |steps|
  {
    hide Table, TableIndex, Ctl, Eager;
    if steps == [] {
      ChangeTakesEffect(c);
    } else {
      var k := steps[0].kinds;
      EagerAccepted(c.Result(), c.fd, steps[0]);
      if steps[0].AddStep? {
        AddIsPlus(c, k);
        CoalescingAgrees(WithAdd(c, k), steps[1..]);
      } else {
        DelIsMinus(c, k);
        CoalescingAgrees(WithDel(c, k), steps[1..]);
      }
    }
  }

  // ----- the event base -----

  function At(m: map<int, Kinds>, fd: int): Kinds {
    if fd in m then m[fd] else NONE
  }

  /** The counts of the slot are those of its events. */
  ghost predicate Tallied(fd: int, s: Slot) {
    && (forall i :: 0 <= i < |s.events| ==> s.events[i].fd == fd)
    && Count(s.events) == Counts(s.nread, s.nwrite, s.nclose)
    && s.nread <= MAX_COUNT && s.nwrite <= MAX_COUNT && s.nclose <= MAX_COUNT
  }

  /** What is installed leads, by the fd's change if it has one, to what the events are interested in. */
  ghost predicate Explained(fd: int, interest: Kinds, idxPlus1: nat, cs: seq<Change>, installed: Kinds) {
    && idxPlus1 <= |cs|
    && if idxPlus1 == 0 then installed == interest else ChangeOk(cs[idxPlus1 - 1], fd, installed, interest)
  }

  ghost predicate SlotOk(fd: int, s: Slot, cs: seq<Change>, installed: Kinds) {
    fd >= 0 && Tallied(fd, s) && Explained(fd, s.Interest(), s.idxPlus1, cs, installed)
  }

  ghost predicate ChangeOk(c: Change, fd: int, installed: Kinds, interest: Kinds) {
    c.fd == fd && c.was == installed && Normal(c) && c.Result() == interest
  }

  ghost predicate SlotsOk(io: map<int, Slot>, cs: seq<Change>, kernel: map<int, Kinds>) {
    && (forall fd :: fd in io ==> SlotOk(fd, io[fd], cs, At(kernel, fd)))
    && (forall fd :: fd in kernel ==> fd in io)
  }

  /** Each change belongs to a slot, which knows its index. */
  ghost predicate Indexed(io: map<int, Slot>, cs: seq<Change>) {
    forall i :: 0 <= i < |cs| ==> cs[i].fd in io && io[cs[i].fd].idxPlus1 == i + 1
  }

  ghost predicate EagerOk(io: map<int, Slot>, eager: map<int, Kinds>) {
    && (forall fd :: fd in io ==> At(eager, fd) == io[fd].Interest())
    && (forall fd :: fd in eager ==> fd in io)
  }

  function SlotAt(io: map<int, Slot>, fd: int): Slot {
    if fd in io then io[fd] else EMPTY_SLOT
  }

  lemma EmptySlotOk(fd: nat, cs: seq<Change>)
    ensures SlotOk(fd, EMPTY_SLOT, cs, NONE)
  {
  }

  lemma NewSlot(io: map<int, Slot>, cs: seq<Change>, kernel: map<int, Kinds>, eager: map<int, Kinds>, fd: nat)
    requires SlotsOk(io, cs, kernel) && Indexed(io, cs) && EagerOk(io, eager) && fd !in io
    ensures var io' := io[fd := EMPTY_SLOT]; SlotsOk(io', cs, kernel) && Indexed(io', cs) && EagerOk(io', eager)
  {
    hide SlotOk;
    EmptySlotOk(fd, cs);
    var io' := io[fd := EMPTY_SLOT];
    assert forall f :: f in io' ==> SlotOk(f, io'[f], cs, At(kernel, f));
  }

  /** The other slots do not notice when the change of one fd changes, or is added. */
  lemma OthersOk(io: map<int, Slot>, cs: seq<Change>, cs': seq<Change>, kernel: map<int, Kinds>, fd: int, f: int)
    requires fd in io && f in io && f != fd && SlotsOk(io, cs, kernel)
    requires |cs| <= |cs'| && forall j :: 0 <= j < |cs| && cs[j].fd != fd ==> cs'[j] == cs[j]
    ensures SlotOk(f, io[f], cs', At(kernel, f))
  {
    hide Normal;
    assert SlotOk(f, io[f], cs, At(kernel, f));
  }

  lemma SlotIndex(fd: int, s: Slot, cs: seq<Change>, installed: Kinds)
    requires SlotOk(fd, s, cs, installed)
    ensures s.idxPlus1 <= |cs| && (s.idxPlus1 > 0 ==> cs[s.idxPlus1 - 1].fd == fd)
  {
  }

  lemma SlotChanged(io: map<int, Slot>, cs: seq<Change>, kernel: map<int, Kinds>, fd: int, s: Slot, cs': seq<Change>)
    requires SlotsOk(io, cs, kernel) && Indexed(io, cs) && fd in io
    requires 0 < s.idxPlus1 <= |cs'| && SlotOk(fd, s, cs', At(kernel, fd))
    requires if io[fd].idxPlus1 == 0 then s.idxPlus1 == |cs'| == |cs| + 1 else s.idxPlus1 == io[fd].idxPlus1 && |cs'| == |cs|
    requires forall j :: 0 <= j < |cs| && j != s.idxPlus1 - 1 ==> cs'[j] == cs[j]
    ensures SlotsOk(io[fd := s], cs', kernel) && Indexed(io[fd := s], cs')
  {
    hide SlotOk, At;
    SlotIndex(fd, io[fd], cs, At(kernel, fd));
    SlotIndex(fd, s, cs', At(kernel, fd));
    var io' := io[fd := s];
    forall f | f in io' ensures SlotOk(f, io'[f], cs', At(kernel, f)) {
      if f != fd {
        assert forall j :: 0 <= j < |cs| && cs[j].fd != fd ==> cs'[j] == cs[j];
        OthersOk(io, cs, cs', kernel, fd, f);
      }
    }
  }

  /** The slot with one event more; the kinds that are new; and the same for one event less. */
  function SlotPlus(s: Slot, ev: Event): Slot {
    s.(events := [ev] + s.events, nread := s.nread + Bit(ev.kinds.read), nwrite := s.nwrite + Bit(ev.kinds.write),
       nclose := s.nclose + Bit(ev.kinds.close))
  }

  function NewKinds(s: Slot, ev: Event): Kinds {
    ev.kinds.Minus(s.Interest())
  }

  predicate Counted(s: Slot, k: Kinds) {
    Bit(k.read) <= s.nread && Bit(k.write) <= s.nwrite && Bit(k.close) <= s.nclose
  }

  function SlotMinus(s: Slot, ev: Event): Slot
    requires Counted(s, ev.kinds)
  {
    s.(events := Without(s.events, ev), nread := s.nread - Bit(ev.kinds.read), nwrite := s.nwrite - Bit(ev.kinds.write),
       nclose := s.nclose - Bit(ev.kinds.close))
  }

  function LostKinds(s: Slot, ev: Event): Kinds {
    Kinds(ev.kinds.read && s.nread == 1, ev.kinds.write && s.nwrite == 1, ev.kinds.close && s.nclose == 1)
  }

  /** Does one of the kinds have no event yet? */
  ghost predicate Lacks(events: seq<Event>, k: Kinds) {
    || (k.read && forall e :: e in events ==> !e.kinds.read)
    || (k.write && forall e :: e in events ==> !e.kinds.write)
    || (k.close && forall e :: e in events ==> !e.kinds.close)
  }

  lemma NewIsLacking(fd: int, s: Slot, ev: Event)
    requires Tallied(fd, s)
    ensures NewKinds(s, ev) != NONE <==> Lacks(s.events, ev.kinds)
    ensures TooMany(SlotPlus(s, ev)) <==>
      || (ev.kinds.read && |set i | 0 <= i < |s.events| && s.events[i].kinds.read| == 0xffff)
      || (ev.kinds.write && |set i | 0 <= i < |s.events| && s.events[i].kinds.write| == 0xffff)
      || (ev.kinds.close && |set i | 0 <= i < |s.events| && s.events[i].kinds.close| == 0xffff)
  {
    CountedIsThere(s.events);
    CountIs(s.events);
    hide Count;
  }

  lemma LostIsLacking(fd: int, s: Slot, ev: Event)
    requires Tallied(fd, s) && ev in s.events && Counted(s, ev.kinds)
    ensures LostKinds(s, ev) != NONE <==> Lacks(Without(s.events, ev), ev.kinds)
  {
    CountWithout(s.events, ev);
    CountedIsThere(Without(s.events, ev));
    hide Count, Without;
  }

  predicate TooMany(s: Slot) {
    s.nread > MAX_COUNT || s.nwrite > MAX_COUNT || s.nclose > MAX_COUNT
  }

  lemma NewlyCounted(s: Slot, ev: Event)
    ensures NewKinds(s, ev) == Kinds(ev.kinds.read && s.nread + 1 == 1, ev.kinds.write && s.nwrite + 1 == 1,
                                     ev.kinds.close && s.nclose + 1 == 1)
  {
  }

  lemma LastCounted(s: Slot, ev: Event)
    ensures LostKinds(s, ev) == Kinds(ev.kinds.read && s.nread - 1 == 0, ev.kinds.write && s.nwrite - 1 == 0,
                                      ev.kinds.close && s.nclose - 1 == 0)
  {
  }

  lemma LimitOf(s: Slot, ev: Event)
    ensures var t := SlotPlus(s, ev); TooMany(t) <==> t.nread > MAX_COUNT || t.nwrite > MAX_COUNT || t.nclose > MAX_COUNT
  {
  }

  lemma SameKind(s: Slot, ev: Event)
    ensures SlotPlus(s, ev).idxPlus1 == s.idxPlus1
    ensures Counted(s, ev.kinds) ==> SlotMinus(s, ev).idxPlus1 == s.idxPlus1
  {
  }

  lemma InterestMoves(s: Slot, ev: Event)
    ensures SlotPlus(s, ev).Interest() == s.Interest().Plus(NewKinds(s, ev))
    ensures Counted(s, ev.kinds) ==> SlotMinus(s, ev).Interest() == s.Interest().Minus(LostKinds(s, ev))
  {
  }

  /** The fd's change before a step: the one there is, or a new one. */
  function ChangeOf(s: Slot, fd: nat, cs: seq<Change>): Change
    requires s.idxPlus1 <= |cs|
  {
    if s.idxPlus1 == 0 then Fresh(fd, s.Interest()) else cs[s.idxPlus1 - 1]
  }

  lemma ChangeOfOk(fd: nat, s: Slot, cs: seq<Change>, installed: Kinds)
    requires SlotOk(fd, s, cs, installed)
    ensures ChangeOk(ChangeOf(s, fd, cs), fd, installed, s.Interest())
  {
    hide Tallied, ChangeOk;
    FreshOk(fd, s.Interest());
  }

  lemma FreshOk(fd: nat, k: Kinds)
    ensures ChangeOk(Fresh(fd, k), fd, k, k)
  {
  }

  lemma ChangeAdds(fd: nat, c: Change, k: Kinds, installed: Kinds, interest: Kinds)
    requires ChangeOk(c, fd, installed, interest)
    ensures ChangeOk(WithAdd(c, k), fd, installed, interest.Plus(k))
  {
    AddIsPlus(c, k);
    hide Normal;
  }

  lemma ChangeDeletes(fd: nat, c: Change, k: Kinds, installed: Kinds, interest: Kinds)
    requires ChangeOk(c, fd, installed, interest)
    ensures ChangeOk(WithDel(c, k), fd, installed, interest.Minus(k))
  {
    DelIsMinus(c, k);
    hide Normal;
  }

  lemma TalliedPlus(fd: int, s: Slot, ev: Event, i: nat)
    requires Tallied(fd, s) && ev.fd == fd && !TooMany(SlotPlus(s, ev))
    ensures Tallied(fd, SlotPlus(s, ev).(idxPlus1 := i))
  {
    assert ([ev] + s.events)[1..] == s.events;
  }

  lemma PlusOk(fd: nat, s: Slot, ev: Event, cs: seq<Change>, cs': seq<Change>, i: nat, installed: Kinds)
    requires SlotOk(fd, s, cs, installed) && ev.fd == fd && !TooMany(SlotPlus(s, ev))
    requires i < |cs'| && cs'[i] == WithAdd(ChangeOf(s, fd, cs), NewKinds(s, ev))
    ensures SlotOk(fd, SlotPlus(s, ev).(idxPlus1 := i + 1), cs', installed)
  {
    hide ChangeOk, ChangeOf, WithAdd, NewKinds, Tallied;
    TalliedPlus(fd, s, ev, i + 1);
    ChangeOfOk(fd, s, cs, installed);
    InterestMoves(s, ev);
    ChangeAdds(fd, ChangeOf(s, fd, cs), NewKinds(s, ev), installed, s.Interest());
  }

  lemma PlusQuiet(fd: nat, s: Slot, ev: Event, cs: seq<Change>, installed: Kinds)
    requires SlotOk(fd, s, cs, installed) && ev.fd == fd && !TooMany(SlotPlus(s, ev)) && NewKinds(s, ev) == NONE
    ensures SlotOk(fd, SlotPlus(s, ev), cs, installed)
  {
    TalliedPlus(fd, s, ev, s.idxPlus1);
    InterestMoves(s, ev);
    hide Explained, Tallied;
  }

  lemma MinusCounted(fd: nat, s: Slot, ev: Event, cs: seq<Change>, installed: Kinds)
    requires SlotOk(fd, s, cs, installed) && ev in s.events
    ensures Counted(s, ev.kinds)
  {
    CountWithout(s.events, ev);
    hide Count, Without;
  }

  /** LIST_REMOVE */
  lemma ListRemoved(events: seq<Event>, ev: Event)
    requires ev in events
    ensures exists k :: 0 <= k < |events| && events[k] == ev && Without(events, ev) == events[..k] + events[k + 1..]
    ensures multiset(Without(events, ev)) == multiset(events) - multiset{ev}
  {
    var k := WithoutAt(events, ev);
    assert events == events[..k] + [ev] + events[k + 1..];
  }

  lemma {:induction false} WithoutFd(events: seq<Event>, ev: Event, fd: int)
    requires forall i :: 0 <= i < |events| ==> events[i].fd == fd
    ensures forall i :: 0 <= i < |Without(events, ev)| ==> Without(events, ev)[i].fd == fd
  {
    if events != [] && events[0] != ev {
      WithoutFd(events[1..], ev, fd);
    }
  }

  lemma TalliedMinus(fd: int, s: Slot, ev: Event, i: nat)
    requires Tallied(fd, s) && ev in s.events && Counted(s, ev.kinds)
    ensures Tallied(fd, SlotMinus(s, ev).(idxPlus1 := i))
  {
    CountWithout(s.events, ev);
    WithoutFd(s.events, ev, fd);
    hide Count, Without;
  }

  lemma MinusOk(fd: nat, s: Slot, ev: Event, cs: seq<Change>, cs': seq<Change>, i: nat, installed: Kinds)
    requires SlotOk(fd, s, cs, installed) && ev in s.events && Counted(s, ev.kinds)
    requires i < |cs'| && cs'[i] == WithDel(ChangeOf(s, fd, cs), LostKinds(s, ev))
    ensures SlotOk(fd, SlotMinus(s, ev).(idxPlus1 := i + 1), cs', installed)
  {
    hide ChangeOk, ChangeOf, WithDel, LostKinds, Tallied, Without;
    TalliedMinus(fd, s, ev, i + 1);
    ChangeOfOk(fd, s, cs, installed);
    InterestMoves(s, ev);
    ChangeDeletes(fd, ChangeOf(s, fd, cs), LostKinds(s, ev), installed, s.Interest());
  }

  lemma MinusQuiet(fd: nat, s: Slot, ev: Event, cs: seq<Change>, installed: Kinds)
    requires SlotOk(fd, s, cs, installed) && ev in s.events && Counted(s, ev.kinds) && LostKinds(s, ev) == NONE
    ensures SlotOk(fd, SlotMinus(s, ev), cs, installed)
  {
    TalliedMinus(fd, s, ev, s.idxPlus1);
    InterestMoves(s, ev);
    hide Explained, Tallied, Without;
  }

  lemma SlotQuiet(io: map<int, Slot>, cs: seq<Change>, kernel: map<int, Kinds>, fd: int, s: Slot)
    requires SlotsOk(io, cs, kernel) && Indexed(io, cs) && fd in io
    requires s.idxPlus1 == io[fd].idxPlus1 && SlotOk(fd, s, cs, At(kernel, fd))
    ensures SlotsOk(io[fd := s], cs, kernel) && Indexed(io[fd := s], cs)
  {
    hide SlotOk;
    var io' := io[fd := s];
    assert forall f :: f in io' ==> SlotOk(f, io'[f], cs, At(kernel, f));
  }

  lemma EagerStep(io: map<int, Slot>, eager: map<int, Kinds>, fd: nat, s: Slot, step: Step)
    requires EagerOk(io, eager) && fd in io
    requires var k := io[fd].Interest();
      s.Interest() == if step.AddStep? then k.Plus(step.kinds) else k.Minus(step.kinds)
    ensures var next := Eager(At(eager, fd), fd, step); next.Installed? && EagerOk(io[fd := s], eager[fd := next.kinds])
  {
    EagerAccepted(At(eager, fd), fd, step);
    hide Eager;
  }

  lemma EagerQuiet(io: map<int, Slot>, eager: map<int, Kinds>, fd: nat, s: Slot)
    requires EagerOk(io, eager) && fd in io && s.Interest() == io[fd].Interest()
    ensures EagerOk(io[fd := s], eager)
  {
  }

  lemma AddTold(io: map<int, Slot>, cs: seq<Change>, kernel: map<int, Kinds>, eager: map<int, Kinds>, fd: nat, ev: Event,
                cs': seq<Change>, i: nat)
    requires SlotsOk(io, cs, kernel) && Indexed(io, cs) && EagerOk(io, eager)
    requires fd in io && SlotOk(fd, io[fd], cs, At(kernel, fd)) && ev.fd == fd && !TooMany(SlotPlus(io[fd], ev))
    requires i < |cs'| && cs'[i] == WithAdd(ChangeOf(io[fd], fd, cs), NewKinds(io[fd], ev))
    requires if io[fd].idxPlus1 == 0 then i + 1 == |cs'| == |cs| + 1 else i + 1 == io[fd].idxPlus1 && |cs'| == |cs|
    requires forall j :: 0 <= j < |cs| && j != i ==> cs'[j] == cs[j]
    ensures var s := SlotPlus(io[fd], ev).(idxPlus1 := i + 1);
      var next := Eager(At(eager, fd), fd, AddStep(NewKinds(io[fd], ev)));
      && SlotsOk(io[fd := s], cs', kernel) && Indexed(io[fd := s], cs')
      && next.Installed? && EagerOk(io[fd := s], eager[fd := next.kinds])
  {
    hide SlotsOk, Indexed, EagerOk, SlotOk, NewKinds, SlotPlus, Eager, ChangeOf, WithAdd;
    PlusOk(fd, io[fd], ev, cs, cs', i, At(kernel, fd));
    InterestMoves(io[fd], ev);
    var s := SlotPlus(io[fd], ev).(idxPlus1 := i + 1);
    SlotChanged(io, cs, kernel, fd, s, cs');
    EagerStep(io, eager, fd, s, AddStep(NewKinds(io[fd], ev)));
  }

  lemma DelTold(io: map<int, Slot>, cs: seq<Change>, kernel: map<int, Kinds>, eager: map<int, Kinds>, fd: nat, ev: Event,
                cs': seq<Change>, i: nat)
    requires SlotsOk(io, cs, kernel) && Indexed(io, cs) && EagerOk(io, eager)
    requires fd in io && SlotOk(fd, io[fd], cs, At(kernel, fd)) && ev in io[fd].events && Counted(io[fd], ev.kinds)
    requires i < |cs'| && cs'[i] == WithDel(ChangeOf(io[fd], fd, cs), LostKinds(io[fd], ev))
    requires if io[fd].idxPlus1 == 0 then i + 1 == |cs'| == |cs| + 1 else i + 1 == io[fd].idxPlus1 && |cs'| == |cs|
    requires forall j :: 0 <= j < |cs| && j != i ==> cs'[j] == cs[j]
    ensures var s := SlotMinus(io[fd], ev).(idxPlus1 := i + 1);
      var next := Eager(At(eager, fd), fd, DelStep(LostKinds(io[fd], ev)));
      && SlotsOk(io[fd := s], cs', kernel) && Indexed(io[fd := s], cs')
      && next.Installed? && EagerOk(io[fd := s], eager[fd := next.kinds])
  {
    hide SlotsOk, Indexed, EagerOk, SlotOk, Counted, LostKinds, SlotMinus, Eager, ChangeOf, WithDel;
    MinusOk(fd, io[fd], ev, cs, cs', i, At(kernel, fd));
    InterestMoves(io[fd], ev);
    var s := SlotMinus(io[fd], ev).(idxPlus1 := i + 1);
    SlotChanged(io, cs, kernel, fd, s, cs');
    EagerStep(io, eager, fd, s, DelStep(LostKinds(io[fd], ev)));
  }

  /** What would be installed after one call at once for the kinds of a step, if there are any. */
  function Told(eager: map<int, Kinds>, fd: nat, step: Step): map<int, Kinds> {
    if step.kinds == NONE then eager
    else
      var next := Eager(At(eager, fd), fd, step);
      if next.Refused? then eager else eager[fd := next.kinds]
  }

  /** Exactly the kinds of the events. */
  ghost predicate InterestOf(events: seq<Event>, k: Kinds) {
    && (k.read <==> exists e :: e in events && e.kinds.read)
    && (k.write <==> exists e :: e in events && e.kinds.write)
    && (k.close <==> exists e :: e in events && e.kinds.close)
  }

  /** The first i changes were made. */
  ghost predicate ChangesApplied(io: map<int, Slot>, i: nat, was: map<int, Kinds>, kernel: map<int, Kinds>) {
    && (forall fd :: fd in io ==> At(kernel, fd) == if 0 < io[fd].idxPlus1 <= i then io[fd].Interest() else At(was, fd))
    && (forall fd :: fd in kernel ==> fd in io)
  }

  lemma NothingApplied(io: map<int, Slot>, cs: seq<Change>, kernel: map<int, Kinds>)
    requires SlotsOk(io, cs, kernel)
    ensures ChangesApplied(io, 0, kernel, kernel)
  {
    hide SlotOk;
  }

  lemma OneApplied(io: map<int, Slot>, cs: seq<Change>, was: map<int, Kinds>, kernel: map<int, Kinds>, i: nat)
    requires SlotsOk(io, cs, was) && Indexed(io, cs) && ChangesApplied(io, i, was, kernel) && i < |cs|
    ensures var fd := cs[i].fd;
      var outcome := Ctl(At(kernel, fd), Table(TableIndex(cs[i])));
      outcome.Installed? && ChangesApplied(io, i + 1, was, kernel[fd := outcome.kinds])
  {
    hide Table, TableIndex, Ctl, Normal, Tallied;
    var fd := cs[i].fd;
    assert SlotOk(fd, io[fd], cs, At(was, fd));
    ChangeTakesEffect(cs[i]);
    hide SlotOk, SlotsOk, Indexed;
    IndexOnce(io, cs, i);
    ChangesOwned(io, cs, was);
  }

  /** A change that a slot knows is about that slot's fd. */
  ghost predicate OwnChanges(io: map<int, Slot>, cs: seq<Change>) {
    forall f :: f in io && io[f].idxPlus1 > 0 ==> io[f].idxPlus1 <= |cs| && cs[io[f].idxPlus1 - 1].fd == f
  }

  lemma ChangesOwned(io: map<int, Slot>, cs: seq<Change>, kernel: map<int, Kinds>)
    requires SlotsOk(io, cs, kernel)
    ensures OwnChanges(io, cs)
  {
    hide SlotOk;
    forall f | f in io && io[f].idxPlus1 > 0 ensures io[f].idxPlus1 <= |cs| && cs[io[f].idxPlus1 - 1].fd == f {
      SlotIndex(f, io[f], cs, At(kernel, f));
    }
  }

  /** Once all changes were made and forgotten, all that is installed is what the events are interested in. */
  lemma AllApplied(io: map<int, Slot>, io': map<int, Slot>, cs: seq<Change>, was: map<int, Kinds>, kernel: map<int, Kinds>,
                   eager: map<int, Kinds>)
    requires SlotsOk(io, cs, was) && EagerOk(io, eager) && ChangesApplied(io, |cs|, was, kernel)
    requires io'.Keys == io.Keys && forall f :: f in io' ==> io'[f] == io[f].(idxPlus1 := 0)
    ensures SlotsOk(io', [], kernel) && Indexed(io', []) && EagerOk(io', eager)
    ensures forall fd :: At(kernel, fd) == At(eager, fd) && InterestOf(SlotAt(io', fd).events, At(kernel, fd))
  {
    hide SlotOk, InterestOf;
    forall fd ensures At(kernel, fd) == At(eager, fd) && InterestOf(SlotAt(io', fd).events, At(kernel, fd)) {
      if fd in io {
        SlotApplied(fd, io[fd], cs, At(was, fd), At(kernel, fd), |cs|);
      } else {
        assert InterestOf([], NONE) by { NoInterest(); }
      }
    }
    forall fd | fd in io' ensures SlotOk(fd, io'[fd], [], At(kernel, fd)) {
      SlotApplied(fd, io[fd], cs, At(was, fd), At(kernel, fd), |cs|);
    }
  }

  lemma NoInterest()
    ensures InterestOf([], NONE)
  {
  }

  lemma SlotApplied(fd: int, s: Slot, cs: seq<Change>, was: Kinds, now: Kinds, n: nat)
    requires SlotOk(fd, s, cs, was) && n == |cs| && now == if 0 < s.idxPlus1 <= n then s.Interest() else was
    ensures now == s.Interest() && SlotOk(fd, s.(idxPlus1 := 0), [], now) && InterestOf(s.events, now)
  {
    CountedIsThere(s.events);
    hide Count;
  }

  lemma IndexOnce(io: map<int, Slot>, cs: seq<Change>, i: nat)
    requires Indexed(io, cs) && i < |cs|
    ensures cs[i].fd in io && io[cs[i].fd].idxPlus1 == i + 1
  {
  }

  class EventBase {
    var io: map<int, Slot>
    var changes: seq<Change>
    ghost var kernel: map<int, Kinds>    // what is installed, by the calls made so far
    ghost var eager: map<int, Kinds>     // what would be, with one call for every change at once

    ghost predicate Valid()
      reads this
    {
      SlotsOk(io, changes, kernel) && Indexed(io, changes) && EagerOk(io, eager)
    }

    ghost function Events(fd: int): seq<Event>
      reads this`io
    {
      SlotAt(io, fd).events
    }

    constructor ()
      ensures Valid() && forall fd :: Events(fd) == [] && At(kernel, fd) == NONE
    {
      io, changes, kernel, eager := map[], [], map[], map[];
    }

    /** What the slot and the list are like once the fd has change number i. */
    twostate predicate HasChange(fd: nat, i: nat, c: Change)
      reads this
    {
      && old(fd in io) && i < |changes| && changes[i] == c
      && io == old(io)[fd := old(io[fd]).(idxPlus1 := i + 1)]
      && (if old(io[fd].idxPlus1) == 0 then i + 1 == |changes| == |old(changes)| + 1
          else i + 1 == old(io[fd].idxPlus1) && |changes| == |old(changes)|)
      && forall j :: 0 <= j < |old(changes)| && j != i ==> changes[j] == old(changes)[j]
    }

    /** The index of the fd's change; a new one starts with `was` as what is installed. */
    method GetOrConstruct(fd: nat, was: Kinds) returns (i: nat)
      requires fd in io && io[fd].idxPlus1 <= |changes| && was == io[fd].Interest()
      modifies this`io, this`changes
      ensures HasChange(fd, i, old(ChangeOf(io[fd], fd, changes)))
    {
      if io[fd].idxPlus1 == 0 {
        i := |changes|;
        changes := changes + [Fresh(fd, was)];
        io := io[fd := io[fd].(idxPlus1 := i + 1)];
      } else {
        i := io[fd].idxPlus1 - 1;
        assert io == io[fd := io[fd].(idxPlus1 := i + 1)];
      }
    }

    /** event_changelist_add_ */
    method ChangelistAdd(fd: nat, was: Kinds, k: Kinds) returns (ghost i: nat)
      requires fd in io && io[fd].idxPlus1 <= |changes| && was == io[fd].Interest()
      modifies this`io, this`changes
      ensures HasChange(fd, i, WithAdd(old(ChangeOf(io[fd], fd, changes)), k))
    {
      var j := GetOrConstruct(fd, was);
      changes := changes[j := WithAdd(changes[j], k)];
      i := j;
    }

    /** event_changelist_del_ */
    method ChangelistDel(fd: nat, was: Kinds, k: Kinds) returns (ghost i: nat)
      requires fd in io && io[fd].idxPlus1 <= |changes| && was == io[fd].Interest()
      modifies this`io, this`changes
      ensures HasChange(fd, i, WithDel(old(ChangeOf(io[fd], fd, changes)), k))
    {
      var j := GetOrConstruct(fd, was);
      changes := changes[j := WithDel(changes[j], k)];
      i := j;
    }

    /** Makes sure that there is a slot for the fd. */
    method MakeSlot(fd: nat)
      requires Valid()
      modifies this`io
      ensures Valid() && fd in io && io[fd] == old(SlotAt(io, fd))
      ensures forall f :: f != fd ==> SlotAt(io, f) == old(SlotAt(io, f))
    {
      hide SlotsOk, Indexed, EagerOk;
      if fd !in io {
        NewSlot(io, changes, kernel, eager, fd);
        io := io[fd := EMPTY_SLOT];
      }
    }

    lemma SlotTallied(fd: int)
      requires Valid() && fd in io
      ensures Tallied(fd, io[fd])
    {
    }

    /** With one call for every change at once, what is installed is always what the events are interested in. */
    lemma EagerInterest()
      requires Valid()
      ensures forall f :: InterestOf(Events(f), At(eager, f))
    {
      forall f ensures InterestOf(Events(f), At(eager, f)) {
        CountedIsThere(Events(f));
      }
    }

    lemma SlotOkAt(fd: int)
      requires Valid() && fd in io
      ensures SlotOk(fd, io[fd], changes, At(kernel, fd)) && io[fd].idxPlus1 <= |changes| && At(eager, fd) == io[fd].Interest()
    {
    }

    /**
     * evmap_io_add_: the event becomes the first of its fd, unless one of its kinds is that of 0xffff events already. 1 if one of
     * its kinds is new.
     */
    method IoAdd(fd: int, ev: Event) returns (r: int)
      requires Valid() && ev.fd == fd
      modifies this
      ensures Valid() && kernel == old(kernel) && forall f :: f != fd ==> Events(f) == old(Events(f))
      ensures var s := old(SlotAt(io, fd));
        if fd < 0 then r == 0 && Events(fd) == s.events
        else if TooMany(SlotPlus(s, ev)) then r == -1 && Events(fd) == s.events
        else r == (if NewKinds(s, ev) == NONE then 0 else 1) && Events(fd) == [ev] + s.events
      ensures var was := old(Events(fd));
        && (r == -1 <==>
            || (fd >= 0 && ev.kinds.read && |set i | 0 <= i < |was| && was[i].kinds.read| == 0xffff)
            || (fd >= 0 && ev.kinds.write && |set i | 0 <= i < |was| && was[i].kinds.write| == 0xffff)
            || (fd >= 0 && ev.kinds.close && |set i | 0 <= i < |was| && was[i].kinds.close| == 0xffff))
        && (r == 1 <==> fd >= 0 && r != -1 && Lacks(was, ev.kinds))
        && Events(fd) == if fd >= 0 && r != -1 then [ev] + was else was
      ensures forall f :: InterestOf(Events(f), At(eager, f))
      ensures var s := old(SlotAt(io, fd));
        eager == if fd < 0 || TooMany(SlotPlus(s, ev)) then old(eager)
                 else Told(old(eager), fd, AddStep(NewKinds(s, ev)))
    {
      hide SlotsOk, Indexed, EagerOk, NewKinds, TooMany, Told, InterestOf, Lacks;
      EagerInterest();
      if fd < 0 {
        return 0;
      }
      MakeSlot(fd);
      EagerInterest();
      SlotTallied(fd);
      NewIsLacking(fd, io[fd], ev);
      var nread, nwrite, nclose := io[fd].nread, io[fd].nwrite, io[fd].nclose;
      var was, res := io[fd].Interest(), NONE;
      if ev.kinds.read {
        nread := nread + 1;
        res := res.(read := nread == 1);
      }
      if ev.kinds.write {
        nwrite := nwrite + 1;
        res := res.(write := nwrite == 1);
      }
      if ev.kinds.close {
        nclose := nclose + 1;
        res := res.(close := nclose == 1);
      }
      ghost var s := io[fd];
      assert res == NewKinds(s, ev) by { NewlyCounted(s, ev); }
      assert SlotPlus(s, ev) == Slot([ev] + s.events, nread, nwrite, nclose, s.idxPlus1);
      assert (nread > MAX_COUNT || nwrite > MAX_COUNT || nclose > MAX_COUNT) == TooMany(SlotPlus(s, ev)) by { LimitOf(s, ev); }
      if nread > MAX_COUNT || nwrite > MAX_COUNT || nclose > MAX_COUNT {
        return -1;
      }
      r := AddNew(fd, ev, was, res, Slot([ev] + io[fd].events, nread, nwrite, nclose, io[fd].idxPlus1));
      EagerInterest();
    }

    /** Tells the list of changes of the kinds that are new, and stores the new slot. */
    method AddNew(fd: nat, ev: Event, was: Kinds, res: Kinds, s': Slot) returns (r: int)
      requires Valid() && fd in io && ev.fd == fd && was == io[fd].Interest()
      requires s' == SlotPlus(io[fd], ev) && !TooMany(s') && res == NewKinds(io[fd], ev)
      modifies this
      ensures Valid() && kernel == old(kernel) && forall f :: f != fd ==> SlotAt(io, f) == old(SlotAt(io, f))
      ensures fd in io && io[fd].events == s'.events && r == (if res == NONE then 0 else 1)
      ensures eager == Told(old(eager), fd, AddStep(res))
    {
      hide SlotsOk, Indexed, EagerOk, SlotOk, NewKinds, TooMany, SlotPlus;
      SlotOkAt(fd);
      ghost var io0, cs, s := io, changes, io[fd];
      InterestMoves(s, ev);
      SameKind(s, ev);
      if res == NONE {
        PlusQuiet(fd, s, ev, cs, At(kernel, fd));
        SlotQuiet(io, cs, kernel, fd, s');
        EagerQuiet(io, eager, fd, s');
        io := io[fd := s'];
        return 0;
      }
      ghost var i := ChangelistAdd(fd, was, res);
      AddTold(io0, cs, kernel, eager, fd, ev, changes, i);
      hide Eager, ChangeOf, WithAdd;
      eager := Told(eager, fd, AddStep(res));
      io := io[fd := s'.(idxPlus1 := io[fd].idxPlus1)];
      assert io == io0[fd := s'.(idxPlus1 := i + 1)];
      return 1;
    }

    /** evmap_io_del_: that event is taken out, and the others stay in order. 1 if one of its kinds is no more. */
    method IoDel(fd: int, ev: Event) returns (r: int)
      requires Valid() && ev.fd == fd && (fd >= 0 && fd in io ==> ev in Events(fd))
      modifies this
      ensures Valid() && kernel == old(kernel) && forall f :: f != fd ==> Events(f) == old(Events(f))
      ensures var s := old(SlotAt(io, fd));
        if fd < 0 then r == 0 && Events(fd) == s.events
        else if old(fd !in io) then r == -1 && Events(fd) == s.events
        else r == if LostKinds(s, ev) == NONE then 0 else 1
      ensures fd >= 0 && old(fd in io) ==>
        && (exists k :: 0 <= k < old(|Events(fd)|) && old(Events(fd))[k] == ev
                        && Events(fd) == old(Events(fd))[..k] + old(Events(fd))[k + 1..])
        && multiset(Events(fd)) == multiset(old(Events(fd))) - multiset{ev}
        && (r == 1 <==> Lacks(Events(fd), ev.kinds)) && r in {0, 1}
      ensures forall f :: InterestOf(Events(f), At(eager, f))
      ensures var s := old(SlotAt(io, fd));
        eager == if fd < 0 || old(fd !in io) then old(eager) else Told(old(eager), fd, DelStep(LostKinds(s, ev)))
    {
      hide SlotsOk, Indexed, EagerOk, SlotOk, Without, LostKinds, Told, Count, InterestOf, Lacks;
      EagerInterest();
      if fd < 0 {
        return 0;
      }
      if fd !in io {
        return -1;
      }
      SlotOkAt(fd);
      SlotTallied(fd);
      ghost var s := io[fd];
      MinusCounted(fd, s, ev, changes, At(kernel, fd));
      LostIsLacking(fd, s, ev);
      var nread, nwrite, nclose := io[fd].nread, io[fd].nwrite, io[fd].nclose;
      var was, res := io[fd].Interest(), NONE;
      if ev.kinds.read {
        nread := nread - 1;
        res := res.(read := nread == 0);
      }
      if ev.kinds.write {
        nwrite := nwrite - 1;
        res := res.(write := nwrite == 0);
      }
      if ev.kinds.close {
        nclose := nclose - 1;
        res := res.(close := nclose == 0);
      }
      assert res == LostKinds(s, ev) by { LastCounted(s, ev); }
      ListRemoved(io[fd].events, ev);
      r := DelLost(fd, ev, was, res, Slot(Without(io[fd].events, ev), nread, nwrite, nclose, io[fd].idxPlus1));
      EagerInterest();
    }

    /** Tells the list of changes of the kinds that are no more, and stores the new slot. */
    method DelLost(fd: nat, ev: Event, was: Kinds, res: Kinds, s': Slot) returns (r: int)
      requires Valid() && fd in io && ev in io[fd].events && was == io[fd].Interest()
      requires Counted(io[fd], ev.kinds) && s' == SlotMinus(io[fd], ev) && res == LostKinds(io[fd], ev)
      modifies this
      ensures Valid() && kernel == old(kernel) && forall f :: f != fd ==> SlotAt(io, f) == old(SlotAt(io, f))
      ensures fd in io && io[fd].events == s'.events && r == (if res == NONE then 0 else 1)
      ensures eager == Told(old(eager), fd, DelStep(res))
    {
      hide SlotsOk, Indexed, EagerOk, SlotOk, LostKinds, SlotMinus, Counted;
      SlotOkAt(fd);
      ghost var io0, cs, s := io, changes, io[fd];
      InterestMoves(s, ev);
      SameKind(s, ev);
      if res == NONE {
        MinusQuiet(fd, s, ev, cs, At(kernel, fd));
        SlotQuiet(io, cs, kernel, fd, s');
        EagerQuiet(io, eager, fd, s');
        io := io[fd := s'];
        return 0;
      }
      ghost var i := ChangelistDel(fd, was, res);
      DelTold(io0, cs, kernel, eager, fd, ev, changes, i);
      hide Eager, ChangeOf, WithDel;
      eager := Told(eager, fd, DelStep(res));
      io := io[fd := s'.(idxPlus1 := io[fd].idxPlus1)];
      assert io == io0[fd := s'.(idxPlus1 := i + 1)];
      return 1;
    }

    /** One call of epoll_ctl for every change; all are accepted. */
    method ApplyChanges() returns (ghost accepted: bool)
      requires Valid()
      modifies this`kernel
      ensures accepted && ChangesApplied(io, |changes|, old(kernel), kernel)
    {
      hide SlotsOk, Indexed, Table, TableIndex, Ctl, ChangesApplied;
      accepted := true;
      NothingApplied(io, changes, kernel);
      for i := 0 to |changes|
        invariant accepted && ChangesApplied(io, i, old(kernel), kernel)
      {
        var op := Table(TableIndex(changes[i]));
        OneApplied(io, changes, old(kernel), kernel, i);
        ghost var fd := changes[i].fd;
        ghost var outcome := Ctl(At(kernel, fd), op);
        if outcome.Refused? {
          accepted := false;
        } else {
          kernel := kernel[fd := outcome.kinds];
        }
      }
    }

    /** event_changelist_remove_all_ */
    method RemoveAll()
      requires Indexed(io, changes) && OwnChanges(io, changes)
      modifies this`io, this`changes
      ensures changes == [] && io.Keys == old(io).Keys
      ensures forall f :: f in io ==> io[f] == old(io[f]).(idxPlus1 := 0)
    {
      for i := 0 to |changes|
        invariant changes == old(changes) && io.Keys == old(io).Keys
        invariant forall f :: f in io ==> io[f] == old(io[f]).(idxPlus1 := if old(io[f].idxPlus1) <= i then 0 else old(io[f].idxPlus1))
      {
        io := io[changes[i].fd := io[changes[i].fd].(idxPlus1 := 0)];
      }
      changes := [];
    }

    /** Makes all changes, and forgets them. Now the kernel knows exactly what it would with one call for each change at once. */
    method Flush() returns (ghost accepted: bool)
      requires Valid()
      modifies this
      ensures Valid() && accepted && changes == [] && eager == old(eager)
      ensures forall fd :: Events(fd) == old(Events(fd))
      ensures forall fd :: At(kernel, fd) == At(eager, fd)
      ensures forall fd :: InterestOf(Events(fd), At(kernel, fd))
    {
      hide SlotsOk, Indexed, EagerOk, ChangesApplied, InterestOf, OwnChanges;
      ghost var kernel0 := kernel;
      accepted := ApplyChanges();
      ghost var io0, cs := io, changes;
      ChangesOwned(io, cs, kernel0);
      RemoveAll();
      AllApplied(io0, io, cs, kernel0, kernel, eager);
    }
  }
}
