/** A rate-limited bufferevent: why its reading and its writing are suspended, and when they come back. */
module BufferEvents {

  import opened Machine
  import opened TokenBuckets

  /** The reasons to suspend reading or writing. */
  datatype Flag = Watermark | Bandwidth | BandwidthGroup | Lookup | FilterRead

  /** A configuration; which one it is matters, not only what it says. */
  class Config {
    const reading: Rate
    const writing: Rate
    const msecPerTick: nat

    ghost predicate Ok() {
      reading.Ok() && writing.Ok() && msecPerTick > 0
    }

    constructor (readRate: nat, readBurst: nat, writeRate: nat, writeBurst: nat, msecPerTick: nat)
      requires 1 <= readRate <= readBurst <= SSIZE_MAX && 1 <= writeRate <= writeBurst <= SSIZE_MAX && msecPerTick > 0
      ensures Ok() && this.msecPerTick == msecPerTick
      ensures reading == Rate(readRate, readBurst) && writing == Rate(writeRate, writeBurst)
    {
      reading, writing, this.msecPerTick := Rate(readRate, readBurst), Rate(writeRate, writeBurst), msecPerTick;
    }

    /** The tick of a time in milliseconds. */
    function Tick(msec: nat): u32
      requires Ok()
    {
      TickOf(msec / msecPerTick)
    }
  }

  /** What a bufferevent keeps of reading, and what it keeps of writing. */
  class Direction {
    var suspended: set<Flag>
    var enabled: bool
    var backend: bool // what the backend was told last
    var limit: ssize
    const maxSingle: nat

    /** The backend was last told to go on if and only if the user has enabled this, and nothing suspends it. */
    ghost predicate Told()
      reads this`suspended, this`enabled, this`backend
    {
      backend <==> enabled && suspended == {}
    }

    /** Whatever has used up what it may is suspended. */
    ghost predicate Starved()
      reads this`suspended, this`limit
    {
      limit <= 0 ==> Bandwidth in suspended
    }

    constructor (enabled: bool, maxSingle: nat)
      ensures Told() && suspended == {} && this.enabled == enabled && this.maxSingle == maxSingle && limit == 0
    {
      suspended, this.enabled, backend, limit, this.maxSingle := {}, enabled, enabled, 0, maxSingle;
    }

    method Suspend(what: set<Flag>)
      requires Told() && what != {}
      modifies this`suspended, this`backend
      ensures Told() && suspended == old(suspended) + what
    {
      if suspended == {} {
        backend := false;
      }
      suspended := suspended + what;
    }

    method Unsuspend(what: set<Flag>)
      requires Told()
      modifies this`suspended, this`backend
      ensures Told() && suspended == old(suspended) - what
    {
      suspended := suspended - what;
      if suspended == {} && enabled {
        backend := true;
      }
    }
  }

  class BufferEvent {
    const read: Direction
    const write: Direction
    var limited: bool
    var cfg: Config?
    var lastUpdated: u32
    var refillPending: bool // the refill timer is set
    var refillFired: bool // it has gone off, and its callback has not had the lock yet

    constructor (maxSingleRead: nat, maxSingleWrite: nat)
      ensures Valid() && fresh(read) && fresh(write) && !limited && cfg == null && !refillPending && !refillFired
      ensures read.maxSingle == maxSingleRead && write.maxSingle == maxSingleWrite
      ensures !read.enabled && write.enabled && read.suspended == {} && write.suspended == {}
      ensures read.limit == write.limit == 0 && lastUpdated == 0
    {
      read := new Direction(false, maxSingleRead);
      write := new Direction(true, maxSingleWrite);
      limited, cfg, lastUpdated, refillPending, refillFired := false, null, 0, false, false;
    }

    /** Some direction is suspended until the bucket is filled again. */
    ghost predicate Waiting()
      reads read`suspended, write`suspended
    {
      Bandwidth in read.suspended || Bandwidth in write.suspended
    }

    /** What holds between any two calls, whatever the limits: the backend is right, and whoever waits for the timer will see it. */
    ghost predicate Valid()
      reads this, read`suspended, read`enabled, read`backend, write`suspended, write`enabled, write`backend
    {
      && read != write
      && read.Told() && write.Told()
      && (cfg != null ==> limited && cfg.Ok())
      && (refillPending ==> cfg != null)
      && (Waiting() ==> cfg != null && (refillPending || refillFired))
    }

    /** No direction has more than its maximum. */
    ghost predicate Bounded()
      requires cfg != null
      reads this`cfg, read`limit, write`limit
    {
      read.limit <= cfg.reading.maximum && write.limit <= cfg.writing.maximum
    }

    /** Nobody has more than the maximum, and whoever has nothing is suspended. */
    ghost predicate Sound()
      reads this, read, write
    {
      Valid() && (cfg != null ==> Bounded() && read.Starved() && write.Starved())
    }

    function Side(reading: bool): Direction {
      if reading then read else write
    }

    function RateOf(d: Direction): Rate
      requires cfg != null
      reads this`cfg
    {
      if d == read then cfg.reading else cfg.writing
    }

    function Other(d: Direction): Direction {
      if d == read then write else read
    }

    method SuspendFor(d: Direction, what: set<Flag>)
      requires Valid() && d in {read, write} && what != {} && Bandwidth !in what
      modifies d`suspended, d`backend
      ensures Valid() && d.suspended == old(d.suspended) + what
    {
      d.Suspend(what);
    }

    method UnsuspendFor(d: Direction, what: set<Flag>)
      requires Valid() && d in {read, write} && Bandwidth !in what
      modifies d`suspended, d`backend
      ensures Valid() && d.suspended == old(d.suspended) - what
    {
      d.Unsuspend(what);
    }

    method Enable(reading: bool, writing: bool)
      requires Valid()
      modifies read`enabled, read`backend, write`enabled, write`backend
      ensures Valid()
      ensures read.enabled == (old(read.enabled) || reading) && write.enabled == (old(write.enabled) || writing)
    {
      if reading && read.suspended == {} {
        read.backend := true;
      }
      if writing && write.suspended == {} {
        write.backend := true;
      }
      read.enabled := read.enabled || reading;
      write.enabled := write.enabled || writing;
    }

    method Disable(reading: bool, writing: bool)
      requires Valid()
      modifies read`enabled, read`backend, write`enabled, write`backend
      ensures Valid()
      ensures read.enabled == (old(read.enabled) && !reading) && write.enabled == (old(write.enabled) && !writing)
    {
      if reading {
        read.enabled, read.backend := false, false;
      }
      if writing {
        write.enabled, write.backend := false, false;
      }
    }

    method AddRefill()
      modifies this`refillPending
      ensures refillPending
    {
      refillPending := true;
    }

    /** The timer goes; a callback that another thread is about to run may still come. */
    method DelRefill()
      modifies this`refillPending, this`refillFired
      ensures !refillPending && (refillFired ==> old(refillFired))
    {
      refillPending := false;
      var running: bool := *;
      if !running {
        refillFired := false;
      }
    }

    method FireRefill()
      requires Valid() && refillPending
      modifies this`refillPending, this`refillFired
      ensures Valid() && !refillPending && refillFired
    {
      refillPending, refillFired := false, true;
    }

    /** Bring the buckets to this tick; they are left as they are if no tick has gone by. */
    method Update(tick: u32) returns (updated: bool)
      requires cfg != null && cfg.Ok() && read != write
      modifies this`lastUpdated, read`limit, write`limit
      ensures updated == Counts(TicksBetween(old(lastUpdated), tick))
      ensures lastUpdated == (if updated then tick else old(lastUpdated))
      ensures read.limit == LimitAt(old(read.limit), old(lastUpdated), cfg.reading, tick)
      ensures write.limit == LimitAt(old(write.limit), old(lastUpdated), cfg.writing, tick)
    {
      var n := TicksBetween(lastUpdated, tick);
      if !Counts(n) {
        return false;
      }
      read.limit := Refilled(read.limit, cfg.reading, n);
      write.limit := Refilled(write.limit, cfg.writing, n);
      lastUpdated := tick;
      return true;
    }

    /** How much may be read or written at once. While there is a configuration, its limit is the only bound. */
    method GetMax(d: Direction, tick: u32) returns (n: nat)
      requires Valid() && d in {read, write}
      modifies this`lastUpdated, read`limit, write`limit
      ensures Valid()
      ensures cfg == null ==> n == d.maxSingle && lastUpdated == old(lastUpdated)
      ensures cfg == null ==> read.limit == old(read.limit) && write.limit == old(write.limit)
      ensures cfg != null ==> n == if d.limit > 0 then d.limit else 0
      ensures cfg != null ==> read.limit == LimitAt(old(read.limit), old(lastUpdated), cfg.reading, tick)
      ensures cfg != null ==> write.limit == LimitAt(old(write.limit), old(lastUpdated), cfg.writing, tick)
      ensures cfg != null ==> lastUpdated == if Counts(TicksBetween(old(lastUpdated), tick)) then tick else old(lastUpdated)
      ensures cfg != null && old(Bounded()) && old(read.Starved()) ==> read.Starved() && Bounded()
      ensures cfg != null && old(Bounded()) && old(write.Starved()) ==> write.Starved() && Bounded()
      ensures cfg != null && old(Bounded()) && old(d.Starved()) && Bandwidth !in d.suspended ==> n > 0
    {
      hide LimitAt;
      if !limited || cfg == null {
        return d.maxSingle;
      }
      LimitGrows(read.limit, lastUpdated, cfg.reading, tick);
      LimitGrows(write.limit, lastUpdated, cfg.writing, tick);
      if tick != lastUpdated {
        var _ := Update(tick);
      }
      n := Max(d.limit, 0);
    }

    /** Take away what was read or written. */
    method DecrementBuckets(d: Direction, bytes: int)
      requires Valid() && d in {read, write}
      requires cfg != null ==> 0 - TWO_63 <= d.limit - bytes <= SSIZE_MAX
      modifies this`refillPending, this`refillFired, d`limit, d`suspended, d`backend
      ensures Valid()
      ensures cfg == null ==> d.limit == old(d.limit) && d.suspended == old(d.suspended)
      ensures cfg != null ==> d.limit == old(d.limit) - bytes
      ensures cfg != null ==> d.suspended - {Bandwidth} == old(d.suspended) - {Bandwidth}
      ensures cfg != null ==> (Bandwidth in d.suspended <==> d.limit <= 0)
      ensures refillPending <==>
        if cfg != null && d.limit <= 0 then true
        else if cfg != null && old(Bandwidth in d.suspended) && Bandwidth !in Other(d).suspended then false
        else old(refillPending)
    {
      if cfg == null {
        return;
      }
      d.limit := d.limit - bytes;
      if d.limit <= 0 {
        d.Suspend({Bandwidth});
        AddRefill();
      } else if Bandwidth in d.suspended {
        if Bandwidth !in Other(d).suspended {
          DelRefill();
        }
        d.Unsuspend({Bandwidth});
      }
    }

    /** The same by hand, also to give back: this acts only where the limit crosses zero. */
    method DecrementLimit(d: Direction, decr: int)
      requires Valid() && d in {read, write} && cfg != null
      requires 0 - TWO_63 <= d.limit - decr <= SSIZE_MAX
      modifies this`refillPending, this`refillFired, d`limit, d`suspended, d`backend
      ensures Valid()
      ensures d.limit == old(d.limit) - decr
      ensures d.suspended - {Bandwidth} == old(d.suspended) - {Bandwidth}
      ensures Bandwidth in d.suspended <==> if (old(d.limit) > 0) == (d.limit > 0) then old(Bandwidth in d.suspended) else d.limit <= 0
      ensures old(d.Starved()) ==> d.Starved()
      ensures refillPending <==>
        if old(d.limit) > 0 && d.limit <= 0 then true
        else if old(d.limit) <= 0 && d.limit > 0 && Bandwidth !in Other(d).suspended then false
        else old(refillPending)
    {
      var before := d.limit;
      d.limit := d.limit - decr;
      if before > 0 && d.limit <= 0 {
        d.Suspend({Bandwidth});
        AddRefill();
      } else if before <= 0 && d.limit > 0 {
        if Bandwidth !in Other(d).suspended {
          DelRefill();
        }
        d.Unsuspend({Bandwidth});
      }
    }

    /** One direction in the refill callback: it goes on if it may, and otherwise another refill is needed. */
    method Resume(d: Direction) returns (again: bool)
      requires d.Told()
      modifies d`suspended, d`backend
      ensures d.Told()
      ensures d.suspended == if d.limit > 0 then old(d.suspended) - {Bandwidth} else old(d.suspended)
      ensures again <==> Bandwidth in d.suspended
    {
      again := false;
      if Bandwidth in d.suspended {
        if d.limit > 0 {
          d.Unsuspend({Bandwidth});
        } else {
          again := true;
        }
      }
    }

    /** The refill callback. */
    method Refill(tick: u32)
      requires Valid() && refillFired
      modifies this`lastUpdated, this`refillPending, this`refillFired
      modifies read`limit, read`suspended, read`backend, write`limit, write`suspended, write`backend
      ensures Valid() && !refillFired
      ensures cfg == null ==> read.suspended == old(read.suspended) && write.suspended == old(write.suspended)
      ensures cfg != null ==> lastUpdated == if Counts(TicksBetween(old(lastUpdated), tick)) then tick else old(lastUpdated)
      ensures cfg != null ==> read.limit == LimitAt(old(read.limit), old(lastUpdated), cfg.reading, tick)
      ensures cfg != null ==> write.limit == LimitAt(old(write.limit), old(lastUpdated), cfg.writing, tick)
      ensures cfg != null ==> read.suspended == if read.limit > 0 then old(read.suspended) - {Bandwidth} else old(read.suspended)
      ensures cfg != null ==> write.suspended == if write.limit > 0 then old(write.suspended) - {Bandwidth} else old(write.suspended)
      ensures refillPending <==> old(refillPending) || (cfg != null && Waiting())
      ensures cfg != null && old(Bounded()) ==> Bounded()
      ensures cfg != null && old(Bounded()) && old(read.Starved()) ==> read.Starved()
      ensures cfg != null && old(Bounded()) && old(write.Starved()) ==> write.Starved()
    {
      hide LimitAt;
      refillFired := false;
      if !limited || cfg == null {
        return;
      }
      LimitGrows(read.limit, lastUpdated, cfg.reading, tick);
      LimitGrows(write.limit, lastUpdated, cfg.writing, tick);
      var _ := Update(tick);
      var againRead := Resume(read);
      var againWrite := Resume(write);
      if againRead || againWrite {
        AddRefill();
      }
    }

    /** One direction when a configuration is set: it starts anew, or only comes down to the new maximum. */
    method SetLimit(d: Direction, r: Rate, reinit: bool)
      requires d.Told() && r.Ok()
      modifies d`limit
      ensures d.limit == if reinit then Min(old(d.limit), r.maximum) else r.rate
    {
      if !reinit {
        d.limit := r.rate;
      } else if d.limit > r.maximum {
        d.limit := r.maximum;
      }
    }

    method SuspendOrNot(d: Direction) returns (suspended: bool)
      requires d.Told()
      modifies d`suspended, d`backend
      ensures d.Told() && d.suspended - {Bandwidth} == old(d.suspended) - {Bandwidth}
      ensures suspended == (d.limit <= 0) == (Bandwidth in d.suspended)
    {
      suspended := d.limit <= 0;
      if suspended {
        d.Suspend({Bandwidth});
      } else {
        d.Unsuspend({Bandwidth});
      }
    }

    /** Set a configuration, or take it away. */
    method SetRateLimit(c: Config?, msec: nat)
      requires Valid() && (c != null ==> c.Ok())
      modifies this`limited, this`cfg, this`lastUpdated, this`refillPending, this`refillFired
      modifies read`limit, read`suspended, read`backend, write`limit, write`suspended, write`backend
      ensures Valid() && cfg == c
      ensures read.suspended - {Bandwidth} == old(read.suspended) - {Bandwidth}
      ensures write.suspended - {Bandwidth} == old(write.suspended) - {Bandwidth}
      ensures c == null ==> !Waiting()
      ensures c != old(cfg) || c == null ==> (refillPending <==> Waiting())
      ensures c != null && c == old(cfg) ==>
        && read.suspended == old(read.suspended) && write.suspended == old(write.suspended)
        && read.limit == old(read.limit) && write.limit == old(write.limit) && lastUpdated == old(lastUpdated)
        && refillPending == old(refillPending) && refillFired == old(refillFired)
      ensures c != null && c != old(cfg) ==> Bounded()
      ensures c != null && c != old(cfg) ==> (Bandwidth in read.suspended <==> read.limit <= 0)
      ensures c != null && c != old(cfg) ==> (Bandwidth in write.suspended <==> write.limit <= 0)
      ensures c != null && old(cfg) == null ==> lastUpdated == msec / c.msecPerTick % 0x1_0000_0000
      ensures limited <==> old(limited) || c != null
      ensures c == null ==> read.limit == old(read.limit) && write.limit == old(write.limit) && lastUpdated == old(lastUpdated)
      ensures c != null && old(cfg) == null ==> read.limit == c.reading.rate && write.limit == c.writing.rate
      ensures c != null && old(cfg) != null ==> lastUpdated == old(lastUpdated)
      ensures c != null && old(cfg) != null && c != old(cfg) ==>
        read.limit == Min(old(read.limit), c.reading.maximum) && write.limit == Min(old(write.limit), c.writing.maximum)
    {
      if c == null {
        if limited {
          cfg := null;
          read.Unsuspend({Bandwidth});
          write.Unsuspend({Bandwidth});
          DelRefill();
        }
        return;
      }
      if cfg == c {
        return;
      }
      limited := true;
      var reinit := cfg != null;
      cfg := c;
      SetLimit(read, c.reading, reinit);
      SetLimit(write, c.writing, reinit);
      if reinit {
        DelRefill();
      } else {
        lastUpdated := c.Tick(msec);
      }
      var suspendedRead := SuspendOrNot(read);
      var suspendedWrite := SuspendOrNot(write);
      if suspendedRead || suspendedWrite {
        AddRefill();
      }
    }

    /**
      Bandwidth suspension does not stick: let the timer go off at these times, as long as it is set. The bit is
      there afterwards if and only if it was there and the timer never went off, or the deficit is more than the time
      that passed pays for.
      */
    method Refills(last: nat, times: seq<nat>)
      requires Valid() && !refillFired && cfg != null && Bounded()
      requires lastUpdated == TickOf(last) && Close(last, times)
      modifies this`lastUpdated, this`refillPending, this`refillFired
      modifies read`limit, read`suspended, read`backend, write`limit, write`suspended, write`backend
      ensures Valid() && !refillFired && Bounded()
      ensures Bandwidth in read.suspended <==>
        old(Bandwidth in read.suspended) && (times == [] || StillOut(old(read.limit), LastCounted(last, times) - last, cfg.reading))
      ensures Bandwidth in write.suspended <==>
        old(Bandwidth in write.suspended) && (times == [] || StillOut(old(write.limit), LastCounted(last, times) - last, cfg.writing))
      decreases |times|
    {
      hide LimitAt, TicksBetween, Counts, LastCounted, Close, StillOut, TickOf;
      LastCountedStep(last, times);
      if times == [] || !refillPending {
        return;
      }
      var now, end := Max(last, times[0]), LastCounted(last, times);
      DeficitStep(read.limit, last, cfg.reading, times[0], end);
      DeficitStep(write.limit, last, cfg.writing, times[0], end);
      FireRefill();
      Refill(TickOf(times[0]));
      LastCountedStep(now, times[1..]);
      StillOutAtOnce(read.limit, cfg.reading);
      StillOutAtOnce(write.limit, cfg.writing);
      Refills(now, times[1..]);
    }

    /**
      Looks at the clock and transfers of at most what is allowed, in any order: in all no more is transferred than the
      limit was, and the time that passed brings.
      */
    method Transfers(d: Direction, last: nat, steps: seq<Timed>) returns (total: nat)
      requires Valid() && cfg != null && Bounded() && d in {read, write}
      requires lastUpdated == TickOf(last) && Close(last, Times(steps))
      modifies this`lastUpdated, this`refillPending, this`refillFired, d`suspended, d`backend, read`limit, write`limit
      ensures Valid() && total <= Max(old(d.limit), 0) + RateOf(d).rate * (LastCounted(last, Times(steps)) - last)
      ensures total == After(Run(old(d.limit), old(lastUpdated), 0, 0), RateOf(d), Plain(steps)).total
    {
      hide LimitAt, TicksBetween, Counts, TickOf, Next, After, Times, Plain, LastCounted, Close;
      total := 0;
      ghost var r := RateOf(d);
      ghost var start := Run(d.limit, lastUpdated, 0, 0);
      ghost var run := start;
      assert steps[0..] == steps;
      for i := 0 to |steps|
        invariant Valid() && Bounded() && r == RateOf(d)
        invariant run.limit == d.limit && run.last == lastUpdated && run.total == total
        invariant After(start, r, Plain(steps)) == After(run, r, Plain(steps[i..]))
      {
        AfterStep(run, r, steps[i..]);
        assert steps[i..][1..] == steps[i + 1..];
        match steps[i] {
          case At(time) =>
            LookStep(run, r, time);
            LimitGrows(read.limit, lastUpdated, cfg.reading, TickOf(time));
            LimitGrows(write.limit, lastUpdated, cfg.writing, TickOf(time));
            var _ := GetMax(d, TickOf(time));
          case Take(wanted) =>
            TakeStep(run, r, wanted);
            var n := Min(wanted, Max(d.limit, 0));
            DecrementBuckets(d, n);
            total := total + n;
        }
        run := Next(run, r, steps[i].Plain());
      }
      NothingLeft(run, r, []);
      assert steps[|steps|..] == [];
      ReadsAreBounded(start.limit, last, r, steps);
    }
  }

  lemma NothingLeft(run: Run, r: Rate, steps: seq<Timed>)
    requires r.Ok() && steps == []
    ensures After(run, r, Plain(steps)) == run
  {
  }

  lemma LookStep(run: Run, r: Rate, time: nat)
    requires r.Ok()
    ensures var next := Next(run, r, At(time).Plain());
      && next.limit == LimitAt(run.limit, run.last, r, TickOf(time)) && next.total == run.total
      && next.last == if Counts(TicksBetween(run.last, TickOf(time))) then TickOf(time) else run.last
  {
  }

  lemma TakeStep(run: Run, r: Rate, wanted: nat)
    requires r.Ok()
    ensures var next, n := Next(run, r, Take(wanted).Plain()), Min(wanted, Max(run.limit, 0));
      next.limit == run.limit - n && next.last == run.last && next.total == run.total + n
  {
  }

  lemma AfterStep(run: Run, r: Rate, steps: seq<Timed>)
    requires r.Ok() && steps != []
    ensures After(run, r, Plain(steps)) == After(Next(run, r, steps[0].Plain()), r, Plain(steps[1..]))
  {
    assert Plain(steps)[1..] == Plain(steps[1..]);
  }


  /** The limit once the bucket is brought to a tick. */
  function LimitAt(limit: ssize, last: u32, r: Rate, tick: u32): ssize
    requires r.Ok()
  {
    Next(Run(limit, last, 0, 0), r, Clock(tick)).limit
  }

  /** In terms of time: the limit grows by the rate with each tick, up to the maximum, but not when the clock stands or goes back. */
  lemma LimitInTime(limit: ssize, last: nat, r: Rate, time: nat)
    requires r.Ok() && limit <= r.maximum && last - HALF <= time < last + HALF
    ensures LimitAt(limit, TickOf(last), r, TickOf(time)) ==
      if time <= last then limit
      else if limit + (time - last) * r.rate >= r.maximum then r.maximum
      else limit + (time - last) * r.rate
  {
    var n := TicksBetween(TickOf(last), TickOf(time));
    TicksAreTime(last, time);
    hide TicksBetween, Refilled, TickOf;
    if time > last {
      RefilledIsMin(limit, r, n);
    }
  }

  /** Time alone takes nothing away, from a limit that is not above the maximum. */
  lemma LimitGrows(limit: ssize, last: u32, r: Rate, tick: u32)
    requires r.Ok()
    ensures limit <= r.maximum ==> limit <= LimitAt(limit, last, r, tick) <= r.maximum
    ensures tick == last ==> LimitAt(limit, last, r, tick) == limit
  {
    var n := TicksBetween(last, tick);
    if Counts(n) && limit <= r.maximum {
      RefilledIsMin(limit, r, n);
      hide Refilled;
      MulAdd(n, 0, r.rate);
    }
  }

  /** Is the deficit more than this many ticks pay for? */
  predicate StillOut(limit: ssize, ticks: int, r: Rate) {
    limit + ticks * r.rate <= 0
  }

  lemma StillOutAtOnce(limit: ssize, r: Rate)
    ensures StillOut(limit, 0, r) <==> limit <= 0
  {
  }

  lemma LastCountedStep(last: nat, times: seq<nat>)
    requires Close(last, times)
    ensures LastCounted(last, times) >= last
    ensures times == [] ==> LastCounted(last, times) == last
    ensures times != [] ==>
      && last - HALF <= times[0] < last + HALF && Close(Max(last, times[0]), times[1..])
      && LastCounted(last, times) == LastCounted(Max(last, times[0]), times[1..]) >= Max(last, times[0])
    decreases |times|
  {
    if times != [] {
      LastCountedStep(Max(last, times[0]), times[1..]);
    }
  }

  /** One refill on the way to a time: the bucket is in deficit then if and only if it is now and still will be. */
  lemma DeficitStep(limit: ssize, last: nat, r: Rate, time: nat, end: nat)
    requires r.Ok() && limit <= r.maximum && last - HALF <= time < last + HALF && end >= Max(last, time)
    ensures var next := LimitAt(limit, TickOf(last), r, TickOf(time));
      StillOut(limit, end - last, r) <==> next <= 0 && StillOut(next, end - Max(last, time), r)
    ensures (if Counts(TicksBetween(TickOf(last), TickOf(time))) then TickOf(time) else TickOf(last)) == TickOf(Max(last, time))
  {
    var n := TicksBetween(TickOf(last), TickOf(time));
    TicksAreTime(last, time);
    hide TicksBetween, Refilled, TickOf;
    if time > last {
      RefilledIsMin(limit, r, n);
      MulAdd(n, end - time, r.rate);
    } else {
      MulAdd(0, end - last, r.rate);
    }
  }

  /**
    A new configuration keeps the number of the last tick. The ticks gone by are then counted as they should be, in new
    ticks, if and only if the old and the new configuration number the last tick alike; with ticks of the same length
    they do.
    */
  lemma TicksCountedAlike(was: Config, now: Config, since: nat, msec: nat)
    requires was.Ok() && now.Ok() && 0 <= msec / now.msecPerTick - since / now.msecPerTick < TWO_32
    ensures TicksBetween(was.Tick(since), now.Tick(msec)) == msec / now.msecPerTick - since / now.msecPerTick <==>
      was.Tick(since) == now.Tick(since)
    ensures was.msecPerTick == now.msecPerTick ==> was.Tick(since) == now.Tick(since)
  {
    var t, n := since / now.msecPerTick, msec / now.msecPerTick;
    assert now.Tick(since) == TickOf(t) && now.Tick(msec) == TickOf(n);
    hide TicksBetween, TickOf;
    TicksForth(t, n);
    SameTicks(was.Tick(since), TickOf(t), TickOf(n));
  }

  lemma TicksForth(t: nat, n: nat)
    requires t <= n < t + TWO_32
    ensures TicksBetween(TickOf(t), TickOf(n)) == n - t
  {
    ModMinus(n, t);
  }

  lemma SameTicks(a: u32, b: u32, now: u32)
    ensures TicksBetween(a, now) == TicksBetween(b, now) <==> a == b
  {
  }

  /** Some time in the year 2023, in milliseconds. */
  const SINCE: nat := 1_700_000_000_000

  /** With longer ticks, time can seem to have gone back. */
  lemma LongerTicksCountNothing(shorter: Config, longer: Config, msec: nat)
    requires shorter.Ok() && longer.Ok() && shorter.msecPerTick == 1 && longer.msecPerTick == 1000
    requires SINCE <= msec < SINCE + 1_700_000_000_000
    ensures !Counts(TicksBetween(shorter.Tick(SINCE), longer.Tick(msec)))
  {
    var tick, last := msec / 1000, SINCE - 395 * TWO_32;
    assert shorter.Tick(SINCE) == last && longer.Tick(msec) == tick;
    assert (tick - last) % TWO_32 == tick - last + TWO_32;
  }

  /** Then the refill callback refills nothing, for more than fifty years: reading stays suspended with a deficit of one byte. */
  method RefillsStop(msec: nat) returns (b: BufferEvent)
    requires SINCE <= msec < SINCE + 1_700_000_000_000
    ensures b.Valid() && b.cfg != null && b.cfg.msecPerTick == 1000 && b.cfg.reading == Rate(10, 10)
    ensures b.read.limit == -1 && b.refillPending && Bandwidth in b.read.suspended
  {
    hide LimitAt, Refilled, TicksBetween;
    var shorter := new Config(10, 10, 10, 10, 1);
    assert shorter.Tick(SINCE) == SINCE / 1 % 0x1_0000_0000;
    hide TickOf;
    var longer := new Config(10, 10, 10, 10, 1000);
    b := new BufferEvent(16384, 16384);
    b.SetRateLimit(shorter, SINCE);
    b.DecrementBuckets(b.read, 11);
    b.SetRateLimit(longer, SINCE);
    b.FireRefill();
    LongerTicksCountNothing(shorter, longer, msec);
    NotRefilled(b.read.limit, b.lastUpdated, longer.reading, longer.Tick(msec));
    b.Refill(longer.Tick(msec));
  }

  lemma NotRefilled(limit: ssize, last: u32, r: Rate, tick: u32)
    requires r.Ok() && !Counts(TicksBetween(last, tick))
    ensures LimitAt(limit, last, r, tick) == limit
  {
  }

  /** A bucket filled by hand above its maximum, at any time: the next look at the clock makes the limit negative, and nothing is suspended. */
  method OverfilledWraps(since: nat) returns (b: BufferEvent, n: nat)
    ensures b.Valid() && b.cfg != null && b.read.limit < 0 && b.read.suspended == {} && !b.refillPending && n == 0
  {
    var c := new Config(1, 1, 1, 1, 1);
    b := new BufferEvent(16384, 16384);
    b.SetRateLimit(c, since);
    b.DecrementLimit(b.read, 1 - SSIZE_MAX);
    assert b.read.suspended - {Bandwidth} == {};
    RefillWraps();
    TicksForth(since, since + 1);
    assert c.Tick(since) == TickOf(since);
    n := b.GetMax(b.read, TickOf(since + 1));
  }

  // ----- runs -----

  /** Any call that is made of a bufferevent; no more is taken away than a ssize_t can count. */
  datatype Call =
    | Suspending(reading: bool, what: set<Flag>)
    | Unsuspending(reading: bool, what: set<Flag>)
    | Enabling(read: bool, write: bool)
    | Disabling(read: bool, write: bool)
    | Looking(reading: bool, tick: u32)
    | Taking(reading: bool, bytes: nat)
    | TakingByHand(reading: bool, bytes: nat)
    | Firing
    | Refilling(tick: u32)
    | Configuring(cfg: Config?, msec: nat)

  /** Is this a call that can be made now? */
  predicate Possible(b: BufferEvent, call: Call)
    reads b, b.read, b.write
  {
    match call
    case Suspending(_, what) => what != {} && Bandwidth !in what
    case Unsuspending(_, what) => Bandwidth !in what
    case Taking(reading, bytes) => b.cfg != null ==> 0 - TWO_63 <= b.Side(reading).limit - bytes
    case TakingByHand(reading, bytes) => b.cfg != null && 0 - TWO_63 <= b.Side(reading).limit - bytes
    case Firing => b.refillPending
    case Refilling(_) => b.refillFired
    case _ => true
  }

  /** What a call that can be made does, in short. */
  twostate predicate Made(b: BufferEvent, call: Call)
    reads b, b.read, b.write
  {
    match call
    case Suspending(reading, what) => b.Side(reading).suspended == old(b.Side(reading).suspended) + what
    case Unsuspending(reading, what) => b.Side(reading).suspended == old(b.Side(reading).suspended) - what
    case Enabling(reading, writing) =>
      b.read.enabled == (old(b.read.enabled) || reading) && b.write.enabled == (old(b.write.enabled) || writing)
    case Disabling(reading, writing) =>
      b.read.enabled == (old(b.read.enabled) && !reading) && b.write.enabled == (old(b.write.enabled) && !writing)
    case Looking(_, tick) => b.cfg != null && Counts(TicksBetween(old(b.lastUpdated), tick)) ==> b.lastUpdated == tick
    case Taking(reading, bytes) => b.cfg != null ==> b.Side(reading).limit == old(b.Side(reading).limit) - bytes
    case TakingByHand(reading, bytes) => b.Side(reading).limit == old(b.Side(reading).limit) - bytes
    case Firing => b.refillFired && !b.refillPending
    case Refilling(_) => !b.refillFired
    case Configuring(c, _) => b.cfg == c
  }

  /** Makes a call, if it can be made. */
  method Make(b: BufferEvent, call: Call) returns (ghost made: Call)
    requires b.Sound() && (call.Configuring? && call.cfg != null ==> call.cfg.Ok())
    modifies b, b.read, b.write
    ensures b.Sound() && made == call && (old(Possible(b, call)) ==> Made(b, call))
    ensures call.Enabling? || call.Disabling? || call.Looking? || call.Configuring? ==> Made(b, call)
    ensures (call.Firing? && old(b.refillPending)) || (call.Refilling? && old(b.refillFired)) ==> Made(b, call)
    ensures (call.Suspending? || call.Unsuspending?) && call.what != {} && Bandwidth !in call.what ==> Made(b, call)
    ensures (call.Taking? || call.TakingByHand?) && old(b.cfg) != null ==>
      ((if call.reading then old(b.read.limit) else old(b.write.limit)) - call.bytes >= -0x8000_0000_0000_0000 ==> Made(b, call))
  {
    made := call;
    if !Possible(b, call) {
      return;
    }
    match call {
      case Suspending(reading, what) => b.SuspendFor(b.Side(reading), what);
      case Unsuspending(reading, what) => b.UnsuspendFor(b.Side(reading), what);
      case Enabling(reading, writing) => b.Enable(reading, writing);
      case Disabling(reading, writing) => b.Disable(reading, writing);
      case Firing => b.FireRefill();
      case _ => MakeCounted(b, call);
    }
  }

  /** The calls that have to do with limits. */
  method MakeCounted(b: BufferEvent, call: Call)
    requires b.Sound() && (call.Configuring? && call.cfg != null ==> call.cfg.Ok()) && Possible(b, call)
    requires call.Looking? || call.Taking? || call.TakingByHand? || call.Refilling? || call.Configuring?
    modifies b, b.read, b.write
    ensures b.Sound() && Made(b, call)
  {
    hide LimitAt, TicksBetween, Counts;
    match call {
      case Looking(reading, tick) => var _ := b.GetMax(b.Side(reading), tick);
      case Taking(reading, bytes) => b.DecrementBuckets(b.Side(reading), bytes);
      case TakingByHand(reading, bytes) => b.DecrementLimit(b.Side(reading), bytes);
      case Refilling(tick) => b.Refill(tick);
      case Configuring(c, msec) => b.SetRateLimit(c, msec);
    }
  }

  /**
    Whatever calls are made, as long as nothing is given back: used up means suspended, and suspended means that a refill
    will come. Ghost: the calls that were tried.
    */
  method RunCalls(b: BufferEvent, calls: seq<Call>) returns (ghost made: seq<Call>)
    requires b.Sound() && forall i :: 0 <= i < |calls| ==> calls[i].Configuring? && calls[i].cfg != null ==> calls[i].cfg.Ok()
    modifies b, b.read, b.write
    ensures b.Sound() && made == calls
  {
    made := [];
    for i := 0 to |calls|
      invariant b.Sound() && made == calls[..i]
    {
      ghost var call := Make(b, calls[i]);
      made := made + [call];
    }
  }
}
