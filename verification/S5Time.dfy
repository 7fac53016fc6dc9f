/**
 S5TIME values: three BCD digits and a time base, and their conversion from and to seconds.
 Seconds are real numbers.
 */
module S5Time {
  import opened Bytes
  import opened Options

  /** Round to the nearest integer, halves to the even one. */
  function Round(x: real): int {
    var f := x.Floor;
    var d := x - f as real;
    if d < 0.5 || (d == 0.5 && f % 2 == 0) then f else f + 1
  }

  /** The seconds of one tick of a time base. */
  function Tick(timebase: nat): real
    requires timebase < 4
  {
    match timebase
    case 0 => 0.01
    case 1 => 0.1
    case 2 => 1.0
    case _ => 10.0
  }

  /** The number of ticks that seconds are converted to. */
  function Ticks(timebase: nat, seconds: real): int
    requires timebase < 4
  {
    match timebase
    case 0 => Round(seconds * 100.0)
    case 1 => Round(seconds * 10.0)
    case 2 => seconds.Floor
    case _ => Round(seconds) / 10
  }

  /** Time base and the last three decimal digits of a number put together. */
  function Code(timebase: nat, n: nat): nat {
    timebase * 0x1000 + n % 10 + n / 10 % 10 * 0x10 + n / 100 % 10 * 0x100
  }

  function InBase(timebase: nat, seconds: real): nat
    requires timebase < 4 && seconds >= 0.0
  {
    TicksAreNatural(timebase, seconds);
    Code(timebase, Ticks(timebase, seconds))
  }

  lemma TicksAreNatural(timebase: nat, seconds: real)
    requires timebase < 4 && seconds >= 0.0
    ensures Ticks(timebase, seconds) >= 0
  {
    RoundIsNatural(seconds);
    RoundIsNatural(seconds * 10.0);
    RoundIsNatural(seconds * 100.0);
  }

  lemma RoundIsNatural(x: real)
    requires x >= 0.0
    ensures Round(x) >= 0
  {
  }

  /** The smallest time base that holds the seconds, if any does. */
  function TimebaseFor(seconds: real): Option<nat> {
    if seconds < 0.0 then None
    else if seconds <= 9.99 then Some(0)
    else if seconds <= 99.9 then Some(1)
    else if seconds <= 999.0 then Some(2)
    else if seconds <= 9990.0 then Some(3)
    else None
  }

  function SecondsToS5t(seconds: real): Option<nat> {
    match TimebaseFor(seconds)
    case None => None
    case Some(tb) => Some(InBase(tb, seconds))
  }

  function Timebase(s5t: nat): nat {
    s5t / 0x1000 % 4
  }

  /** The digits are decimal and no bit but those of digits and time base is set. */
  predicate ValidS5t(s5t: nat) {
    && s5t - Timebase(s5t) * 0x1000 <= 0x999
    && s5t % 0x10 <= 9 && s5t / 0x10 % 0x10 <= 9 && s5t / 0x100 % 0x10 <= 9
  }

  function Digits(s5t: nat): nat {
    s5t % 0x10 + s5t / 0x10 % 0x10 * 10 + s5t / 0x100 % 0x10 * 100
  }

  function S5tToSeconds(s5t: nat): Option<real> {
    if !ValidS5t(s5t) then None else Some(Tick(Timebase(s5t)) * Digits(s5t) as real)
  }

  // ----- digits

  /** A number of up to three digits is coded digit by digit. */
  lemma DigitsOfCode(timebase: nat, n: nat)
    requires timebase < 4 && n <= 999
    ensures ValidS5t(Code(timebase, n)) && Timebase(Code(timebase, n)) == timebase && Digits(Code(timebase, n)) == n
  {
    var a, b, c := n % 10, n / 10 % 10, n / 100 % 10;
    CodeParts(timebase, a, b, c);
    DigitSum(n);
  }

  /** The digits of a code are the hexadecimal ones, and so is the time base before them. */
  lemma CodeIsBcd(timebase: nat, hundreds: nat, tens: nat, ones: nat)
    requires timebase < 4 && hundreds <= 9 && tens <= 9 && ones <= 9
    ensures Code(timebase, 100 * hundreds + 10 * tens + ones)
            == 0x1000 * timebase + 0x100 * hundreds + 0x10 * tens + ones
  {
    var n := 100 * hundreds + 10 * tens + ones;
    DivModUnique(n, 10, 10 * hundreds + tens, ones);
    DivModUnique(n / 10, 10, hundreds, tens);
    DivModUnique(n, 100, hundreds, 10 * tens + ones);
  }

  lemma DigitSum(n: nat)
    requires n <= 999
    ensures n == n % 10 + 10 * (n / 10 % 10) + 100 * (n / 100 % 10)
  {
  }

  lemma CodeParts(timebase: nat, a: nat, b: nat, c: nat)
    requires timebase < 4 && a <= 9 && b <= 9 && c <= 9
    ensures var s := timebase * 0x1000 + a + b * 0x10 + c * 0x100;
            && s / 0x1000 % 4 == timebase && s % 0x10 == a && s / 0x10 % 0x10 == b && s / 0x100 % 0x10 == c
            && s - timebase * 0x1000 <= 0x999
  {
    var s, high := timebase * 0x1000 + a + b * 0x10 + c * 0x100, timebase * 0x10 + c;
    DivModUnique(s, 0x1000, timebase, a + b * 0x10 + c * 0x100);
    DivModUnique(s, 0x10, high * 0x10 + b, a);
    DivModUnique(high * 0x10 + b, 0x10, high, b);
    DivModUnique(s, 0x100, high, a + b * 0x10);
    DivModUnique(high, 0x10, timebase, c);
  }

  // ----- the error of a conversion

  lemma RoundIsNear(x: real)
    ensures -0.5 <= Round(x) as real - x <= 0.5
  {
  }

  /** As many ticks as three digits can hold, and less than one tick away from the seconds. */
  lemma TicksAreNear(timebase: nat, seconds: real)
    requires TimebaseFor(seconds) == Some(timebase)
    ensures timebase < 4 && 0 <= Ticks(timebase, seconds) <= 999
    ensures -Tick(timebase) < Tick(timebase) * Ticks(timebase, seconds) as real - seconds < Tick(timebase)
  {
    RoundIsNear(seconds);
    RoundIsNear(seconds * 10.0);
    RoundIsNear(seconds * 100.0);
    if timebase == 3 {
      var r := Round(seconds);
      assert r == 10 * (r / 10) + r % 10;
    }
  }

  /** The nearest integer, and the even one of two. */
  predicate Nearest(n: int, x: real) {
    var d := n as real - x;
    -0.5 <= d <= 0.5 && (d == 0.5 || d == -0.5 ==> n % 2 == 0)
  }

  lemma RoundIsNearest(x: real)
    ensures Nearest(Round(x), x)
  {
  }

  lemma NearestIsUnique(a: int, b: int, x: real)
    requires Nearest(a, x) && Nearest(b, x)
    ensures a == b
  {
  }

  /**
   The exact number of ticks: the nearest one for the two fine time bases; for seconds the fraction
   is cut off; and for tens of seconds the nearest number of seconds is cut off to tens.
   */
  lemma TicksAreExact(timebase: nat, seconds: real, n: int)
    requires timebase < 4 && seconds >= 0.0
    ensures n == Ticks(timebase, seconds)
            <==> match timebase
                 case 0 => Nearest(n, 100.0 * seconds)
                 case 1 => Nearest(n, 10.0 * seconds)
                 case 2 => 0.0 <= seconds - n as real < 1.0
                 case _ => -0.5 <= seconds - (10 * n) as real < 9.5
  {
    match timebase
    case 0 =>
      RoundIsNearest(100.0 * seconds);
      if Nearest(n, 100.0 * seconds) {
        NearestIsUnique(n, Round(100.0 * seconds), 100.0 * seconds);
      }
    case 1 =>
      RoundIsNearest(10.0 * seconds);
      if Nearest(n, 10.0 * seconds) {
        NearestIsUnique(n, Round(10.0 * seconds), 10.0 * seconds);
      }
    case 2 =>
    case _ =>
      RoundedTens(seconds, n);
  }

  lemma RoundedTens(x: real, n: int)
    ensures Round(x) / 10 == n <==> -0.5 <= x - (10 * n) as real < 9.5
  {
    RoundReachesEven(x, 5 * n);
    RoundReachesEven(x, 5 * n + 5);
    hide Round;
  }

  lemma RoundReachesEven(x: real, h: int)
    ensures Round(x) >= 2 * h <==> x >= (2 * h) as real - 0.5
  {
  }

  /**
   Every number of seconds from 0 to 9990 becomes a valid code in the finest time base whose 999
   ticks are enough, and its value is less than one tick away; other numbers are refused.
   */
  lemma ConversionIsNear(seconds: real)
    ensures SecondsToS5t(seconds).Some? <==> 0.0 <= seconds <= 9990.0
    ensures var s := SecondsToS5t(seconds);
            s.Some? ==> && S5tToSeconds(s.value).Some?
                        && -Tick(Timebase(s.value)) < S5tToSeconds(s.value).value - seconds < Tick(Timebase(s.value))
                        && seconds <= 999.0 * Tick(Timebase(s.value))
                        && (Timebase(s.value) > 0 ==> seconds > 999.0 * Tick(Timebase(s.value) - 1))
  {
    hide Code, ValidS5t, Digits, Timebase, Ticks;
    var tb := TimebaseFor(seconds);
    if tb.Some? {
      TicksAreNear(tb.value, seconds);
      DigitsOfCode(tb.value, Ticks(tb.value, seconds));
    }
  }

  // ----- decoded values are kept

  lemma RoundOfInt(n: int)
    ensures Round(n as real) == n
  {
  }

  /** A whole number of ticks is a whole number of ticks of the time base that is chosen for it. */
  lemma WholeTicksStayWhole(timebase: nat, d: nat)
    requires timebase < 4 && d <= 999
    ensures var v := Tick(timebase) * d as real;
            TimebaseFor(v).Some? && Tick(TimebaseFor(v).value) * Ticks(TimebaseFor(v).value, v) as real == v
  {
    var v := Tick(timebase) * d as real;
    RoundOfInt(d);
    RoundOfInt(10 * d);
    RoundOfInt(100 * d);
    RoundOfInt(1000 * d);
    hide Round;
    if timebase == 0 {
      assert v * 100.0 == d as real;
    } else if timebase == 1 {
      assert v * 10.0 == d as real && v * 100.0 == (10 * d) as real;
    } else if timebase == 2 {
      assert v == d as real && v * 10.0 == (10 * d) as real && v * 100.0 == (100 * d) as real;
    } else {
      assert v == (10 * d) as real && v * 10.0 == (100 * d) as real && v * 100.0 == (1000 * d) as real;
    }
  }

  lemma DigitsAreSmall(s5t: nat)
    requires ValidS5t(s5t)
    ensures Digits(s5t) <= 999
  {
  }

  lemma ValueIsWholeTicks(s5t: nat)
    requires ValidS5t(s5t)
    ensures var v := S5tToSeconds(s5t).value;
            TimebaseFor(v).Some? && Tick(TimebaseFor(v).value) * Ticks(TimebaseFor(v).value, v) as real == v
  {
    hide Digits, Ticks, Round;
    DigitsAreSmall(s5t);
    WholeTicksStayWhole(Timebase(s5t), Digits(s5t));
  }

  /** Encoding a decoded value and decoding it again gives the same value. */
  lemma DecodeEncodeDecode(s5t: nat)
    requires ValidS5t(s5t)
    ensures var v := S5tToSeconds(s5t).value;
            SecondsToS5t(v).Some? && S5tToSeconds(SecondsToS5t(v).value) == Some(v)
  {
    hide Code, Digits, Ticks, Round;
    var v := S5tToSeconds(s5t).value;
    ValueIsWholeTicks(s5t);
    var tb := TimebaseFor(v).value;
    TicksAreNear(tb, v);
    DigitsOfCode(tb, Ticks(tb, v));
  }
}
