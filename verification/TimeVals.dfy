/** Points in time, with the mark of a common timeout in the high bits of the microseconds. */
module TimeVals {

  const MICROS: nat := 0x10_0000          // 20 bits of microseconds
  const IDX_LIMIT: nat := 256             // 8 bits of index
  const MAGIC: nat := 5                   // 4 bits: 0x50000000 >> 28

  /** struct timeval; usec is of 32 bits. */
  datatype TimeVal = TimeVal(sec: int, usec: nat) {
    /** tv_usec & COMMON_TIMEOUT_MICROSECONDS_MASK */
    function Micros(): nat {
      usec % MICROS
    }

    /** COMMON_TIMEOUT_IDX */
    function Idx(): nat {
      usec / MICROS % IDX_LIMIT
    }

    /** Are the high bits those of one of n common timeouts? */
    predicate IsCommon(n: nat) {
      usec / MICROS / IDX_LIMIT == MAGIC && Idx() < n
    }

    /** The time, without the mark, in microseconds. */
    function InMicros(): int {
      sec * 1_000_000 + Micros()
    }

    predicate IsPlain() {
      usec < MICROS
    }

    /** evutil_timercmp(this, tv, <=), on the fields as they are. */
    predicate Le(tv: TimeVal) {
      sec < tv.sec || (sec == tv.sec && usec <= tv.usec)
    }

    /** The time without the mark. */
    function Time(): TimeVal {
      TimeVal(sec, Micros())
    }

    /** The time with the mark of the common timeout idx. */
    function Marked(idx: nat): TimeVal {
      TimeVal(sec, (MAGIC * IDX_LIMIT + idx) * MICROS + Micros())
    }
  }

  lemma LeOrder(a: TimeVal, b: TimeVal, c: TimeVal)
    ensures a.Le(a) && (a.Le(b) || b.Le(a))
    ensures a.Le(b) && b.Le(c) ==> a.Le(c)
  {
  }

  /** Comparing the fields is comparing times, as long as the microseconds are less than a second. */
  lemma LeIsTime(a: TimeVal, b: TimeVal)
    requires a.usec < 1_000_000 && b.usec < 1_000_000
    ensures a.Le(b) <==> a.InMicros() <= b.InMicros()
  {
  }

  lemma Split(q: nat, r: nat)
    requires r < MICROS
    ensures (q * MICROS + r) / MICROS == q && (q * MICROS + r) % MICROS == r
  {
  }

  /** The mark can be read back, and the time is still there. */
  lemma MarkRoundTrip(tv: TimeVal, idx: nat, n: nat)
    requires idx < IDX_LIMIT && idx < n
    ensures tv.Marked(idx).IsCommon(n) && tv.Marked(idx).Idx() == idx && tv.Marked(idx).Time() == tv.Time()
    ensures tv.Marked(idx).usec == 0x5000_0000 + 0x10_0000 * idx + tv.usec % 0x10_0000
  {
    Split(MAGIC * IDX_LIMIT + idx, tv.Micros());
  }

  /** A plain time carries no mark. */
  lemma PlainIsNotCommon(tv: TimeVal, n: nat)
    requires tv.IsPlain()
    ensures !tv.IsCommon(n) && tv.Time() == tv
  {
  }

  /** Two times with the same mark compare as the times without it do. */
  lemma SameMarkCompares(a: TimeVal, b: TimeVal, n: nat)
    requires a.IsCommon(n) && b.IsCommon(n) && a.Idx() == b.Idx()
    ensures a.Le(b) <==> a.Time().Le(b.Time())
  {
    var x, y := a.usec / MICROS, b.usec / MICROS;
    assert x == MAGIC * IDX_LIMIT + a.Idx() && y == MAGIC * IDX_LIMIT + b.Idx();
    assert a.usec == x * MICROS + a.Micros() && b.usec == y * MICROS + b.Micros();
  }

  /** So comparing the fields is comparing times also under the same mark. */
  lemma MarkedLeIsTime(a: TimeVal, b: TimeVal, n: nat)
    requires a.IsCommon(n) && b.IsCommon(n) && a.Idx() == b.Idx() && a.Micros() < 1_000_000 && b.Micros() < 1_000_000
    ensures a.Le(b) <==> a.InMicros() <= b.InMicros()
  {
    SameMarkCompares(a, b, n);
    LeIsTime(a.Time(), b.Time());
  }

  /** evutil_timeradd of a normal time and an interval */
  function Sum(a: TimeVal, b: TimeVal): TimeVal {
    if a.usec + b.usec >= 1_000_000 then TimeVal(a.sec + b.sec + 1, a.usec + b.usec - 1_000_000)
    else TimeVal(a.sec + b.sec, a.usec + b.usec)
  }

  /** The sum is the sum of the times, and has less than a second of microseconds if both had. */
  lemma SumIsTime(a: TimeVal, b: TimeVal)
    requires a.usec < 1_000_000 && b.IsPlain()
    ensures var sum := Sum(a, b);
      && sum.InMicros() == a.InMicros() + b.InMicros()
      && sum.IsPlain() && (b.usec < 1_000_000 ==> sum.usec < 1_000_000)
  {
  }
}
