/** The token bucket: how much may still be read, refilled as time passes, in machine arithmetic. */
module TokenBuckets {

  import opened Machine

  const HALF: nat := 0x8000_0000

  /** What ev_token_bucket_cfg_new accepts for one direction. */
  datatype Rate = Rate(rate: nat, maximum: nat) {
    predicate Ok() {
      1 <= rate <= maximum <= SSIZE_MAX
    }
  }

  /** Conversion to size_t. */
  function Unsigned(n: int): (u: nat)
    ensures u < TWO_64
  {
    n % TWO_64
  }

  /** Conversion to ev_ssize_t. */
  function Signed(n: int): ssize {
    var u := Unsigned(n);
    if u < TWO_63 then u else u - TWO_64
  }

  /** Ticks gone by, as the difference of two unsigned ints. */
  function TicksBetween(last: u32, now: u32): u32 {
    (now - last) % TWO_32
  }

  /** Does this many ticks count? Not if there are none, or if time went back. */
  predicate Counts(n: u32) {
    n != 0 && n <= INT_MAX
  }

  /** What the limit is after n ticks, in the arithmetic of size_t. */
  function Refilled(limit: ssize, r: Rate, n: u32): ssize
    requires r.Ok() && Counts(n)
  {
    if Unsigned(r.maximum - limit) / n < r.rate then r.maximum
    else Signed(Unsigned(limit) + Unsigned(n * r.rate))
  }

  lemma DivLess(d: nat, n: nat, rate: nat)
    requires n > 0
    ensures d / n < rate <==> d < n * rate
  {
    var q := d / n;
    assert n * q <= d < n * (q + 1);
    if q < rate {
      MulLe(n, q + 1, rate);
    } else {
      MulLe(n, rate, q);
    }
  }

  lemma MulLe(n: nat, a: nat, b: nat)
    requires a <= b
    ensures n * a <= n * b
  {
  }

  lemma UnsignedSmall(n: nat)
    requires n < TWO_64
    ensures Unsigned(n) == n
  {
  }

  lemma SignedSum(limit: ssize, add: nat)
    requires limit + add <= SSIZE_MAX
    ensures Signed(Unsigned(limit) + Unsigned(add)) == limit + add
  {
    assert add < TWO_64;
    UnsignedSmall(add);
    if limit >= 0 {
      UnsignedSmall(limit);
      UnsignedSmall(limit + add);
    } else {
      assert Unsigned(limit) == limit + TWO_64;
      if limit + add >= 0 {
        assert Unsigned(limit + TWO_64 + add) == limit + add;
      } else {
        UnsignedSmall(limit + TWO_64 + add);
      }
    }
  }

  /** The careful computation does what was meant, up to the maximum, whenever the limit was not above it. */
  lemma RefilledIsMin(limit: ssize, r: Rate, n: u32)
    requires r.Ok() && Counts(n) && limit <= r.maximum
    ensures Refilled(limit, r, n) == Min(r.maximum, limit + n * r.rate)
  {
    var d := r.maximum - limit;
    UnsignedSmall(d);
    DivLess(d, n, r.rate);
    if d >= n * r.rate {
      SignedSum(limit, n * r.rate);
    }
  }

  /** Above the maximum it does what was meant if and only if the tokens to add reach around to the maximum again. */
  lemma RefilledExact(limit: ssize, r: Rate, n: u32)
    requires r.Ok() && Counts(n)
    ensures Refilled(limit, r, n) == Min(r.maximum, limit + n * r.rate) <==>
      limit <= r.maximum || n * r.rate >= TWO_64 + r.maximum - limit
  {
    hide Refilled, Signed;
    if limit <= r.maximum {
      RefilledIsMin(limit, r, n);
    } else {
      OverMaximum(limit, r, n);
    }
  }

  lemma OverMaximum(limit: ssize, r: Rate, n: u32)
    requires r.Ok() && Counts(n) && limit > r.maximum
    ensures Refilled(limit, r, n) == r.maximum <==> n * r.rate >= TWO_64 + r.maximum - limit
  {
    var d := TWO_64 + r.maximum - limit;
    assert Unsigned(r.maximum - limit) == d;
    DivLess(d, n, r.rate);
    hide Unsigned, Signed;
    if d > n * r.rate {
      WrapsElsewhere(limit, r.maximum, n * r.rate);
    } else if d == n * r.rate {
      WrapsThere(limit, r.maximum, n * r.rate);
    }
  }

  lemma WrapsElsewhere(limit: ssize, max: nat, add: nat)
    requires max < limit && 0 < add < TWO_64 + max - limit && max <= SSIZE_MAX
    ensures Signed(Unsigned(limit) + Unsigned(add)) != max
  {
    UnsignedSmall(limit);
    UnsignedSmall(add);
    if limit + add < TWO_64 {
      UnsignedSmall(limit + add);
    } else {
      assert Unsigned(limit + add) == limit + add - TWO_64;
    }
  }

  lemma WrapsThere(limit: ssize, max: nat, add: nat)
    requires max < limit && add == TWO_64 + max - limit && max <= SSIZE_MAX
    ensures Signed(Unsigned(limit) + Unsigned(add)) == max
  {
    UnsignedSmall(limit);
    UnsignedSmall(add);
    assert Unsigned(TWO_64 + max) == max;
  }

  /** An amount above the maximum can wrap around: the limit becomes negative, though nothing was taken out. */
  lemma RefillWraps()
    ensures Refilled(SSIZE_MAX, Rate(1, 1), 1) == 0 - TWO_63
  {
    assert Unsigned(1 - SSIZE_MAX) == TWO_63 + 2;
  }

  /** Refilling in two steps is refilling once. */
  lemma RefillInSteps(limit: ssize, r: Rate, a: u32, b: u32)
    requires r.Ok() && limit <= r.maximum && Counts(a) && Counts(b) && a + b <= INT_MAX
    ensures Refilled(Refilled(limit, r, a), r, b) == Refilled(limit, r, a + b)
  {
    hide Refilled;
    RefilledIsMin(limit, r, a);
    RefilledIsMin(Refilled(limit, r, a), r, b);
    RefilledIsMin(limit, r, a + b);
    MinInSteps(limit, r.maximum, a * r.rate, b * r.rate);
    MulAdd(a, b, r.rate);
  }

  lemma MulAdd(a: nat, b: nat, rate: nat)
    ensures (a + b) * rate == a * rate + b * rate && a * rate >= 0 && b * rate >= 0
  {
  }

  lemma MinInSteps(limit: int, max: int, x: nat, y: nat)
    ensures Min(max, Min(max, limit + x) + y) == Min(max, limit + (x + y))
  {
  }

  // ----- runs -----

  /** What happens to a bucket: the clock is looked at, or some bytes are read, of those that may be. */
  datatype Step = Clock(now: u32) | Read(wanted: nat)

  /** The limit; the tick it is of; what was read; and the ticks that were counted. */
  datatype Run = Run(limit: ssize, last: u32, total: nat, counted: nat)

  function Allowed(limit: ssize): nat {
    Max(limit, 0)
  }

  function Next(run: Run, r: Rate, step: Step): Run
    requires r.Ok()
  {
    match step
    case Clock(now) =>
      var n := TicksBetween(run.last, now);
      if Counts(n) then Run(Refilled(run.limit, r, n), now, run.total, run.counted + n) else run
    case Read(wanted) =>
      var n := Min(wanted, Allowed(run.limit));
      run.(limit := run.limit - n, total := run.total + n)
  }

  function After(run: Run, r: Rate, steps: seq<Step>): Run
    requires r.Ok()
    decreases |steps|
  {
    if steps == [] then run else After(Next(run, r, steps[0]), r, steps[1..])
  }

  /** What keeps the total in bounds: nothing is in the bucket that did not come with time, or was there at first. */
  predicate Accounted(run: Run, r: Rate, start: ssize) {
    && run.limit <= r.maximum
    && run.total + run.limit <= start + r.rate * run.counted
    && run.limit >= Min(start, 0)
  }

  lemma ClockAccounted(run: Run, r: Rate, now: u32, start: ssize)
    requires r.Ok() && Accounted(run, r, start) && Counts(TicksBetween(run.last, now))
    ensures Accounted(Next(run, r, Clock(now)), r, start)
  {
    var n := TicksBetween(run.last, now);
    hide Refilled, TicksBetween, Counts;
    RefilledIsMin(run.limit, r, n);
    hide Accounted;
    MulAdd(run.counted, n, r.rate);
    StillAccounted(run, r, start, n, Refilled(run.limit, r, n), now);
  }

  lemma StillAccounted(run: Run, r: Rate, start: ssize, n: nat, limit: ssize, now: u32)
    requires Accounted(run, r, start)
    requires limit == Min(r.maximum, run.limit + n * r.rate) && n * r.rate >= 0
    requires (run.counted + n) * r.rate == run.counted * r.rate + n * r.rate
    ensures Accounted(Run(limit, now, run.total, run.counted + n), r, start)
  {
    var before, after := run.counted * r.rate, (run.counted + n) * r.rate;
    assert r.rate * run.counted == before && r.rate * (run.counted + n) == after;
  }

  lemma NextAccounted(run: Run, r: Rate, step: Step, start: ssize)
    requires r.Ok() && Accounted(run, r, start)
    ensures Accounted(Next(run, r, step), r, start)
  {
    hide Refilled, TicksBetween;
    if step.Clock? && Counts(TicksBetween(run.last, step.now)) {
      hide Accounted, Counts, Next;
      ClockAccounted(run, r, step.now, start);
    }
  }

  lemma {:induction false} AfterAccounted(run: Run, r: Rate, steps: seq<Step>, start: ssize)
    requires r.Ok() && Accounted(run, r, start)
    ensures Accounted(After(run, r, steps), r, start)
    decreases |steps|
  {
    if steps != [] {
      NextAccounted(run, r, steps[0], start);
      AfterAccounted(Next(run, r, steps[0]), r, steps[1..], start);
    }
  }

  // ----- the ticks that are counted, and time -----

  /** The tick of a time, as a number that wraps around. */
  function TickOf(time: nat): u32 {
    time % TWO_32
  }

  /** The last time that was counted, on a clock that may go back, but no more than 2^31 ticks, and not forth by as many at once. */
  function LastCounted(last: nat, times: seq<nat>): nat
    decreases |times|
  {
    if times == [] then last else LastCounted(Max(last, times[0]), times[1..])
  }

  predicate Close(last: nat, times: seq<nat>)
    decreases |times|
  {
    times == [] || (last - HALF <= times[0] < last + HALF && Close(Max(last, times[0]), times[1..]))
  }

  /** The same with the time of each look at the clock, in ticks that do not wrap around. */
  datatype Timed = At(time: nat) | Take(wanted: nat) {
    function Plain(): Step {
      if At? then Clock(TickOf(time)) else Read(wanted)
    }
  }

  function Plain(steps: seq<Timed>): seq<Step>
    decreases |steps|
  {
    if steps == [] then [] else [steps[0].Plain()] + Plain(steps[1..])
  }

  function Times(steps: seq<Timed>): seq<nat>
    decreases |steps|
  {
    if steps == [] then [] else (if steps[0].At? then [steps[0].time] else []) + Times(steps[1..])
  }

  lemma TicksAreTime(last: nat, time: nat)
    requires last - HALF <= time < last + HALF
    ensures var n := TicksBetween(TickOf(last), TickOf(time));
      if time > last then Counts(n) && n == time - last else !Counts(n)
  {
    var n := TicksBetween(TickOf(last), TickOf(time));
    assert (time - last) % TWO_32 == n by { ModMinus(time, last); }
    if time >= last {
      assert (time - last) % TWO_32 == time - last;
    } else {
      assert (time - last) % TWO_32 == time - last + TWO_32;
    }
  }

  lemma ModMinus(a: nat, b: nat)
    ensures (a % TWO_32 - b % TWO_32) % TWO_32 == (a - b) % TWO_32
  {
    var qa, qb := a / TWO_32, b / TWO_32;
    assert a - b == (a % TWO_32 - b % TWO_32) + TWO_32 * (qa - qb);
    ModPlus(a % TWO_32 - b % TWO_32, qa - qb);
  }

  lemma ModPlus(x: int, k: int)
    ensures (x + TWO_32 * k) % TWO_32 == x % TWO_32
  {
  }

  /** However the tick number wraps around, and the clock goes back: what is counted is the time from the first tick to the latest. */
  lemma {:induction false} CountedIsTime(run: Run, r: Rate, last: nat, steps: seq<Timed>)
    requires r.Ok() && run.last == TickOf(last) && Close(last, Times(steps))
    ensures var run' := After(run, r, Plain(steps));
      && run'.counted - run.counted == LastCounted(last, Times(steps)) - last
      && run'.last == TickOf(LastCounted(last, Times(steps)))
    decreases |steps|
  {
    if steps != [] {
      assert Plain(steps)[1..] == Plain(steps[1..]);
      hide TicksBetween, Refilled;
      var next := Next(run, r, Plain(steps)[0]);
      if steps[0].At? {
        assert Times(steps)[1..] == Times(steps[1..]);
        TicksAreTime(last, steps[0].time);
        CountedIsTime(next, r, Max(last, steps[0].time), steps[1..]);
      } else {
        assert Times(steps) == Times(steps[1..]);
        CountedIsTime(next, r, last, steps[1..]);
      }
    }
  }

  /** Over any run of looks at the clock and reads, no more is read than was allowed at first, and came with the time that passed. */
  lemma ReadsAreBounded(limit: ssize, last: nat, r: Rate, steps: seq<Timed>)
    requires r.Ok() && limit <= r.maximum && Close(last, Times(steps))
    ensures After(Run(limit, TickOf(last), 0, 0), r, Plain(steps)).total
         <= Max(limit, 0) + r.rate * (LastCounted(last, Times(steps)) - last)
  {
    var start := Run(limit, TickOf(last), 0, 0);
    AfterAccounted(start, r, Plain(steps), limit);
    CountedIsTime(start, r, last, steps);
  }
}
