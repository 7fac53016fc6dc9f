/**
 The clock memory byte (`S7CPU.updateTimestamp`): eight square waves, made from one counter that
 is reset at the least common multiple of their dividers.
 */
module ClockMemory {
  import opened Bytes
  import opened Options
  import opened Offset
  import opened Memory
  import opened IntMath

  /** After how many ticks each bit changes. */
  const DIVIDERS := [1, 2, 4, 5, 8, 10, 16, 20]

  /** The arguments that the reset value of the counter is computed from. */
  const LCM_ARGS: seq<nat> := [2, 4, 5, 8, 10, 16, 20]

  const TICK := 0.05

  datatype Clock = Clock(value: byte, count: nat, next: real)

  function CounterLimit(): (l: nat)
    ensures l > 0
  {
    LcmIsDefined(LCM_ARGS);
    LcmOf(LCM_ARGS).value
  }

  /** The reset value is 80. */
  lemma CounterLimitIs80()
    ensures CounterLimit() == 80
  {
    var a := LCM_ARGS;
    hide Gcd, LcmOf;
    GcdValues();
    LcmOfOne(2);
    assert a[..1] == [2];
    LcmStep(a, 1, 2, 4);
    LcmStep(a, 2, 4, 20);
    LcmStep(a, 3, 20, 40);
    LcmStep(a, 4, 40, 40);
    LcmStep(a, 5, 40, 80);
    LcmStep(a, 6, 80, 80);
    assert a[..7] == a;
  }

  lemma GcdValues()
    ensures Gcd(2, 4) == 2 && Gcd(4, 5) == 1 && Gcd(20, 8) == 4
    ensures Gcd(40, 10) == 10 && Gcd(40, 16) == 8 && Gcd(80, 20) == 20
  {
  }

  lemma LcmOfOne(n: nat)
    ensures LcmOf([n]) == Some(n)
  {
  }

  /** One step of the fold. */
  lemma LcmStep(ns: seq<nat>, k: nat, l: nat, next: nat)
    requires 1 <= k < |ns| && LcmOf(ns[..k]) == Some(l) && l > 0
    requires l * ns[k] == Gcd(l, ns[k]) * next
    ensures LcmOf(ns[..k + 1]) == Some(next)
  {
    assert ns[..k + 1][..k] == ns[..k];
    hide Gcd;
    DivExact(l * ns[k], Gcd(l, ns[k]), next);
  }

  function Toggled(v: byte, i: nat): byte
    requires i < 8
  {
    SetBit(v, i, !Bit(v, i))
  }

  /** The first `k` bits changed as far as they are due at this count. */
  function Divided(v: byte, count: nat, k: nat): byte
    requires k <= 8
  {
    if k == 0 then v
    else
      var w := Divided(v, count, k - 1);
      if count % DIVIDERS[k - 1] == 0 then Toggled(w, k - 1) else w
  }

  /** One update of the time: at most one tick. */
  function Updated(c: Clock, now: real): Clock {
    if now < c.next then c
    else
      var count := c.count + 1;
      Clock(Divided(c.value, count, 8), if count >= CounterLimit() then 0 else count, c.next + TICK)
  }

  function AllUpdated(c: Clock, times: seq<real>): Clock {
    if times == [] then c else Updated(AllUpdated(c, times[..|times| - 1]), times[|times| - 1])
  }

  /** How many of the updates were ticks. */
  function Ticks(c: Clock, times: seq<real>): nat {
    if times == [] then 0
    else
      var front := times[..|times| - 1];
      Ticks(c, front) + (if times[|times| - 1] < AllUpdated(c, front).next then 0 else 1)
  }

  lemma {:induction false} DividedBit(v: byte, count: nat, k: nat, i: nat)
    requires k <= 8 && i < 8
    ensures Bit(Divided(v, count, k), i) == if i < k && count % DIVIDERS[i] == 0 then !Bit(v, i) else Bit(v, i)
    decreases k
  {
    hide Bit, WithBit;
    if k > 0 {
      DividedBit(v, count, k - 1, i);
      var w := Divided(v, count, k - 1);
      BitOfWithBit(w, k - 1, !Bit(w, k - 1), i);
      if i == k - 1 {
        DividedBit(v, count, k - 1, k - 1);
      }
    }
  }

  /** The counter modulo a multiple of the divider forgets nothing that the divider needs. */
  lemma CountIsEnough(n: nat, l: nat, d: nat)
    requires d > 0 && l > 0 && Divides(d, l)
    ensures (n % l + 1) % d == 0 <==> (n + 1) % d == 0
  {
    var k :| l == d * k;
    var q, r := n / l, n % l;
    MulAssociates(d, k, q);
    assert n + 1 == d * (k * q) + (r + 1);
    var a, b := (r + 1) / d, (r + 1) % d;
    MulDistributes(d, k * q, a);
    DivModUnique(n + 1, d, k * q + a, b);
  }

  lemma DividersDivide(i: nat)
    requires i < 8
    ensures DIVIDERS[i] > 0 && Divides(DIVIDERS[i], CounterLimit())
  {
    if i == 0 {
      assert CounterLimit() == 1 * CounterLimit();
    } else {
      LcmOfIsLeast(LCM_ARGS, 0);
      assert LCM_ARGS[i - 1] == DIVIDERS[i];
    }
  }

  lemma NextQuotient(n: nat, d: nat)
    requires d > 0
    ensures (n + 1) / d == n / d + (if (n + 1) % d == 0 then 1 else 0)
  {
    var q, r := n / d, n % d;
    if r + 1 == d {
      MulDistributes(d, q, 1);
      DivModUnique(n + 1, d, q + 1, 0);
    } else {
      DivModUnique(n + 1, d, q, r + 1);
    }
  }

  /** A step of a counter that is reset at `l`. */
  lemma CountStep(n: nat, l: nat)
    requires l > 0
    ensures (if n % l + 1 >= l then 0 else n % l + 1) == (n + 1) % l
  {
    var q, r := n / l, n % l;
    if r + 1 >= l {
      MulDistributes(l, q, 1);
      DivModUnique(n + 1, l, q + 1, 0);
    } else {
      DivModUnique(n + 1, l, q, r + 1);
    }
  }

  /** The counter is the number of ticks modulo its reset value; the next tick is due after whole tick lengths. */
  lemma {:induction false} CounterCounts(v: byte, start: real, times: seq<real>)
    ensures var c := Clock(v, 0, start + TICK);
            var after, n := AllUpdated(c, times), Ticks(c, times);
            after.count == n % CounterLimit() && after.next == start + TICK * (n + 1) as real
    decreases |times|
  {
    if times != [] {
      var front := times[..|times| - 1];
      hide CounterLimit, Divided;
      CounterCounts(v, start, front);
      CountStep(Ticks(Clock(v, 0, start + TICK), front), CounterLimit());
    }
  }

  /** How often the divider of bit `i` passes in `n` ticks. */
  function Passes(n: nat, i: nat): nat
    requires i < 8
  {
    n / DIVIDERS[i]
  }

  /** How many of the updates have changed bit `i`. */
  function Changes(c: Clock, times: seq<real>, i: nat): nat {
    if times == [] then 0
    else
      var front := times[..|times| - 1];
      Changes(c, front, i)
      + (if Bit(AllUpdated(c, front).value, i) == Bit(AllUpdated(c, times).value, i) then 0 else 1)
  }

  /** A tick changes bit `i` exactly if its divider passes. */
  lemma TickChangesBit(c: Clock, n: nat, i: nat)
    requires i < 8 && c.count == n % CounterLimit()
    ensures Passes(n + 1, i)
            == if Bit(Divided(c.value, c.count + 1, 8), i) == Bit(c.value, i) then Passes(n, i) else Passes(n, i) + 1
  {
    hide Bit, CounterLimit, Divided;
    DividersDivide(i);
    CountIsEnough(n, CounterLimit(), DIVIDERS[i]);
    NextQuotient(n, DIVIDERS[i]);
    DividedBit(c.value, c.count + 1, 8, i);
  }

  lemma CountAfter(v: byte, start: real, times: seq<real>)
    ensures var c := Clock(v, 0, start + TICK);
            AllUpdated(c, times).count == Ticks(c, times) % CounterLimit()
  {
    hide CounterLimit, AllUpdated, Ticks;
    CounterCounts(v, start, times);
  }

  lemma UpdateChangesBit(c: Clock, now: real, n: nat, i: nat)
    requires i < 8 && c.count == n % CounterLimit()
    ensures Passes(if now < c.next then n else n + 1, i)
            == if Bit(c.value, i) == Bit(Updated(c, now).value, i) then Passes(n, i) else Passes(n, i) + 1
  {
    hide Bit, CounterLimit, Divided, Passes;
    TickChangesBit(c, n, i);
  }

  /**
   The clock does not drift: after `n` ticks, bit `i` has changed exactly `n / p` times, where
   `p` is its divider, and so it is inverted exactly if that number is odd.
   */
  lemma ClockDoesNotDrift(v: byte, start: real, times: seq<real>, i: nat)
    requires i < 8
    ensures var c := Clock(v, 0, start + TICK);
            && Changes(c, times, i) == Passes(Ticks(c, times), i)
            && (Bit(AllUpdated(c, times).value, i) <==> (Bit(v, i) <==> Changes(c, times, i) % 2 == 0))
  {
    hide *;
    ChangesArePasses(v, start, times, i);
    BitIsParity(Clock(v, 0, start + TICK), times, i);
  }

  lemma {:induction false} ChangesArePasses(v: byte, start: real, times: seq<real>, i: nat)
    requires i < 8
    ensures var c := Clock(v, 0, start + TICK);
            Changes(c, times, i) == Passes(Ticks(c, times), i)
    decreases |times|
  {
    if times != [] {
      var c, front := Clock(v, 0, start + TICK), times[..|times| - 1];
      hide *;
      ChangesArePasses(v, start, front, i);
      CountAfter(v, start, front);
      UpdateChangesBit(AllUpdated(c, front), times[|times| - 1], Ticks(c, front), i);
      OneMoreUpdate(c, times, i);
    }
  }

  lemma OneMoreUpdate(c: Clock, times: seq<real>, i: nat)
    requires times != []
    ensures var front, last := times[..|times| - 1], times[|times| - 1];
            var before := AllUpdated(c, front);
            && AllUpdated(c, times) == Updated(before, last)
            && Ticks(c, times) == (if last < before.next then Ticks(c, front) else Ticks(c, front) + 1)
            && Changes(c, times, i) == if Bit(before.value, i) == Bit(Updated(before, last).value, i)
                                       then Changes(c, front, i) else Changes(c, front, i) + 1
  {
    hide Updated, Bit;
  }

  lemma {:induction false} BitIsParity(c: Clock, times: seq<real>, i: nat)
    ensures Bit(AllUpdated(c, times).value, i) <==> (Bit(c.value, i) <==> Changes(c, times, i) % 2 == 0)
    decreases |times|
  {
    hide Bit, Updated;
    if times != [] {
      BitIsParity(c, times[..|times| - 1], i);
      OneMoreUpdate(c, times, i);
    }
  }

  predicate Ascending(times: seq<real>) {
    forall i :: 0 <= i < |times| - 1 ==> times[i] <= times[i + 1]
  }

  /**
   No tick comes early, and whenever the updates have caught up with the time, the number of
   ticks is the number of whole tick lengths since the start.
   */
  lemma {:induction false} TicksFollowTime(v: byte, start: real, times: seq<real>)
    requires times != [] && Ascending(times)
    ensures var c, last := Clock(v, 0, start + TICK), times[|times| - 1];
            && (Ticks(c, times) > 0 ==> start + TICK * Ticks(c, times) as real <= last)
            && (start <= last < AllUpdated(c, times).next ==> Ticks(c, times) == ((last - start) / TICK).Floor)
    decreases |times|
  {
    var c, front := Clock(v, 0, start + TICK), times[..|times| - 1];
    hide CounterLimit, Divided;
    CounterCounts(v, start, front);
    CounterCounts(v, start, times);
    if front == [] {
      assert Ticks(c, front) == 0;
    } else {
      assert front[|front| - 1] == times[|times| - 2] <= times[|times| - 1];
      TicksFollowTime(v, start, front);
    }
  }

  /** The period of each bit in seconds, from 10 Hz to 0.5 Hz. */
  function Period(i: nat): (p: real)
    requires i < 8
    ensures p > 0.0
  {
    match i
    case 0 => 0.1
    case 1 => 0.2
    case 2 => 0.4
    case 3 => 0.5
    case 4 => 0.8
    case 5 => 1.0
    case 6 => 1.6
    case _ => 2.0
  }

  /** How often a square wave of that period has changed after some time: twice in each period. */
  function HalfPeriods(elapsed: real, period: real): int
    requires period > 0.0
  {
    (2.0 * elapsed / period).Floor
  }

  /**
   Whenever the updates have caught up with the time, every bit is what a square wave of its
   period is, from the value at the start on.
   */
  lemma BitsHaveTheirPeriods(v: byte, start: real, times: seq<real>, i: nat)
    requires i < 8 && times != [] && Ascending(times)
    requires start <= times[|times| - 1] < AllUpdated(Clock(v, 0, start + TICK), times).next
    ensures var c, n := Clock(v, 0, start + TICK), HalfPeriods(times[|times| - 1] - start, Period(i));
            && Changes(c, times, i) == n
            && (Bit(AllUpdated(c, times).value, i) <==> (Bit(v, i) <==> n % 2 == 0))
  {
    var last := times[|times| - 1];
    hide *;
    ClockDoesNotDrift(v, start, times, i);
    TicksFollowTime(v, start, times);
    PassesInSeconds((last - start) / TICK, last - start, Ticks(Clock(v, 0, start + TICK), times), i);
  }

  lemma PassesInSeconds(ticks: real, elapsed: real, n: nat, i: nat)
    requires i < 8 && elapsed >= 0.0 && ticks == elapsed / TICK && n == ticks.Floor
    ensures Passes(n, i) == HalfPeriods(elapsed, Period(i))
  {
    PeriodInTicks(elapsed, i);
    hide Period;
    FloorOfQuotient(ticks, DIVIDERS[i]);
  }

  lemma PeriodInTicks(elapsed: real, i: nat)
    requires i < 8
    ensures elapsed / TICK / DIVIDERS[i] as real == 2.0 * elapsed / Period(i)
  {
  }

  lemma FloorOfQuotient(x: real, d: nat)
    requires x >= 0.0 && d > 0
    ensures (x / d as real).Floor == x.Floor / d
  {
    var f, q := x.Floor, x.Floor / d;
    WholeBounds(f, d);
    QuotientBetween(x, q as real, d as real);
  }

  /** The multiples of `d` around a number. */
  lemma WholeBounds(f: nat, d: nat)
    requires d > 0
    ensures var q := f / d; q as real * d as real <= f as real <= (q as real + 1.0) * d as real - 1.0
  {
    var q := f / d;
    assert q * d <= f <= (q + 1) * d - 1;
    assert (q * d) as real == q as real * d as real;
    assert ((q + 1) * d) as real == (q as real + 1.0) * d as real;
  }

  lemma QuotientBetween(x: real, q: real, d: real)
    requires d > 0.0 && q * d <= x < (q + 1.0) * d
    ensures q <= x / d < q + 1.0
  {
    var y, next := x / d, q + 1.0;
    assert y * d == x < next * d;
    LessTimes(q, y, d);
    LessTimes(next, y, d);
  }

  lemma LessTimes(a: real, b: real, d: real)
    requires d > 0.0
    ensures a * d <= b * d <==> a <= b
  {
    if a < b {
      assert (b - a) * d > 0.0;
    } else if a > b {
      assert (a - b) * d > 0.0;
    }
  }

  /** The part of the CPU that makes the clock memory. */
  class ClockMemoryUnit {
    const flags: ByteArray
    const byteOffset: nat
    var clockMemCount: nat
    const clockMemCountLCM: nat
    var nextClockMemTime: real

    /** The byte in the flags, and the counter. */
    function View(): Clock
      requires byteOffset < flags.data.Length
      reads this, flags.data
    {
      Clock(flags.data[byteOffset], clockMemCount, nextClockMemTime)
    }

    constructor (flags: ByteArray, byteOffset: nat, now: real)
      ensures this.flags == flags && this.byteOffset == byteOffset && clockMemCountLCM == CounterLimit()
      ensures byteOffset < flags.data.Length ==> View() == Clock(flags.data[byteOffset], 0, now + TICK)
    {
      this.flags, this.byteOffset := flags, byteOffset;
      clockMemCount, clockMemCountLCM, nextClockMemTime := 0, CounterLimit(), now + TICK;
    }

    /** Update the byte if a tick is due; fails if the flags do not contain it. */
    method UpdateTimestamp(now: real) returns (ok: bool)
      requires clockMemCountLCM == CounterLimit()
      modifies this`clockMemCount, this`nextClockMemTime, flags.data
      ensures ok <==> byteOffset < flags.data.Length || now < old(nextClockMemTime)
      ensures byteOffset < flags.data.Length ==> View() == Updated(old(View()), now)
      ensures forall k :: 0 <= k < flags.data.Length && k != byteOffset ==> flags.data[k] == old(flags.data[k])
    {
      if now < nextClockMemTime {
        return true;
      }
      nextClockMemTime := nextClockMemTime + TICK;
      var fetched := flags.Fetch(Offset(byteOffset, 0), 8);
      if fetched.None? {
        return false;
      }
      ghost var was := flags.data[..];
      ByteIsFetched(was, byteOffset);
      var value: byte := fetched.value.n;
      var count := clockMemCount + 1;
      clockMemCount := count;
      for i := 0 to 8
        invariant value == Divided(was[byteOffset], count, i)
      {
        if count % DIVIDERS[i] == 0 {
          value := Toggled(value, i);
        }
      }
      if count >= clockMemCountLCM {
        clockMemCount := 0;
      }
      ok := flags.Store(Offset(byteOffset, 0), 8, IntVal(value));
      ByteIsStored(was, byteOffset, value);
    }
  }

  lemma ByteIsFetched(s: seq<byte>, at: nat)
    ensures Fetched(s, Offset(at, 0), 8) == if at < |s| then Some(IntVal(s[at])) else None
  {
    if at < |s| {
      assert s[at..at + 1] == [s[at]];
      assert FromBigEndian([s[at]]) == 256 * FromBigEndian([]) + s[at];
    }
  }

  lemma ByteIsStored(s: seq<byte>, at: nat, v: byte)
    requires at < |s|
    ensures Stored(s, Offset(at, 0), 8, IntVal(v)) == s[at := v] && StoreFits(s, Offset(at, 0), 8, IntVal(v))
  {
    assert BigEndian(v, 1) == BigEndian(0, 0) + [v];
  }
}
