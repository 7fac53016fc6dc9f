/**
 Greatest common divisors and least common multiples (`math_gcd`, `math_lcm`), folded over
 any number of arguments.
 */
module IntMath {
  import opened Bytes
  import opened Options

  ghost predicate Divides(d: int, n: int) {
    exists k :: n == d * k
  }

  /** Euclid's algorithm. */
  function Gcd(a: nat, b: nat): (g: nat)
    ensures a > 0 || b > 0 ==> g > 0
    decreases b
  {
    if b == 0 then a else Gcd(b, a % b)
  }

  /** `a * b // gcd(a, b)`. */
  function Lcm(a: nat, b: nat): nat
    requires a > 0 || b > 0
  {
    a * b / Gcd(a, b)
  }

  /** `reduce` over the arguments. */
  function GcdOf(ns: seq<nat>): nat
    requires ns != []
  {
    if |ns| == 1 then ns[0] else Gcd(GcdOf(ns[..|ns| - 1]), ns[|ns| - 1])
  }

  /** The fold divides by zero if it meets a second zero. */
  function LcmOf(ns: seq<nat>): Option<nat>
    requires ns != []
  {
    if |ns| == 1 then Some(ns[0])
    else
      var front, last := LcmOf(ns[..|ns| - 1]), ns[|ns| - 1];
      if front.None? || (front.value == 0 && last == 0) then None else Some(Lcm(front.value, last))
  }

  predicate AtMostOneZero(ns: seq<nat>) {
    forall i, j :: 0 <= i < j < |ns| ==> ns[i] != 0 || ns[j] != 0
  }

  // ----- divisors

  lemma MulDistributes(a: int, b: int, c: int)
    ensures a * (b + c) == a * b + a * c
  {
  }

  lemma MulAssociates(a: int, b: int, c: int)
    ensures a * (b * c) == a * b * c
  {
  }

  lemma DividesTransitively(a: int, b: int, c: int)
    requires Divides(a, b) && Divides(b, c)
    ensures Divides(a, c)
  {
    var k :| b == a * k;
    var j :| c == b * j;
    MulAssociates(a, k, j);
    assert c == a * (k * j);
  }

  lemma DividesSum(d: int, x: int, y: int, m: int)
    requires Divides(d, x) && Divides(d, y)
    ensures Divides(d, x * m + y)
  {
    var k :| x == d * k;
    var j :| y == d * j;
    MulAssociates(d, k, m);
    MulDistributes(d, k * m, j);
    assert x * m + y == d * (k * m + j);
  }

  lemma DividesSelf(d: int)
    ensures Divides(d, d) && Divides(d, 0)
  {
    assert d == d * 1 && 0 == d * 0;
  }

  /** The greatest common divisor is a linear combination of both numbers. */
  lemma {:induction false} Bezout(a: nat, b: nat) returns (x: int, y: int)
    ensures a * x + b * y == Gcd(a, b)
    decreases b
  {
    if b == 0 {
      x, y := 1, 0;
    } else {
      var u, v := Bezout(b, a % b);
      x, y := v, u - a / b * v;
      var q, r := a / b, a % b;
      MulDistributes(v, b * q, r);
      MulAssociates(b, q, v);
      MulDistributes(b, u, -(q * v));
      assert a * v == b * q * v + r * v;
      assert b * y == b * u - b * (q * v);
    }
  }

  /** Both numbers are multiples of the greatest common divisor. */
  lemma {:induction false} GcdDivides(a: nat, b: nat)
    ensures Divides(Gcd(a, b), a) && Divides(Gcd(a, b), b)
    decreases b
  {
    if b == 0 {
      DividesSelf(a);
    } else {
      GcdDivides(b, a % b);
      DividesSum(Gcd(a, b), b, a % b, a / b);
    }
  }

  /** Every common divisor divides the greatest one. */
  lemma GcdIsGreatest(a: nat, b: nat, d: int)
    requires Divides(d, a) && Divides(d, b)
    ensures Divides(d, Gcd(a, b))
  {
    var x, y := Bezout(a, b);
    DividesSelf(d);
    DividesSum(d, b, 0, y);
    DividesSum(d, a, b * y, x);
  }

  lemma DivExact(n: nat, g: nat, k: int)
    requires g > 0 && n == g * k
    ensures n / g == k && (n > 0 ==> k > 0)
  {
    DivModUnique(n, g, k, 0);
    MulBound(g, k);
  }

  /** The least common multiple in terms of the cofactors. */
  lemma LcmCofactors(a: nat, b: nat) returns (k: nat, j: nat)
    requires a > 0 && b > 0
    ensures a == Gcd(a, b) * k && b == Gcd(a, b) * j && Lcm(a, b) == a * j == b * k && k > 0 && j > 0
  {
    GcdDivides(a, b);
    var g := Gcd(a, b);
    var s :| a == g * s;
    var t :| b == g * t;
    DivExact(a, g, s);
    DivExact(b, g, t);
    k, j := s, t;
    Swap(a, g, t);
    assert a * b == g * (a * t);
    DivExact(a * b, g, a * t);
    Swap(b, g, s);
    assert b * a == g * (b * s);
    DivExact(b * a, g, b * s);
  }

  lemma Swap(a: int, g: int, t: int)
    ensures a * (g * t) == g * (a * t)
  {
  }

  /** The least common multiple is a multiple of both numbers, and positive if they are. */
  lemma LcmIsCommon(a: nat, b: nat)
    requires a > 0 || b > 0
    ensures (Lcm(a, b) > 0 <==> a > 0 && b > 0) && Divides(a, Lcm(a, b)) && Divides(b, Lcm(a, b))
  {
    if a > 0 && b > 0 {
      var k, j := LcmCofactors(a, b);
      assert a * j > 0;
    } else {
      LcmOfZero(a, b);
      DividesSelf(a);
      DividesSelf(b);
    }
  }

  lemma LcmOfZero(a: nat, b: nat)
    requires (a > 0 || b > 0) && (a == 0 || b == 0)
    ensures Lcm(a, b) == 0
  {
    var g := Gcd(a, b);
    assert a * b == 0;
    DivModUnique(0, g, 0, 0);
  }

  lemma OnlyZero(m: int)
    requires Divides(0, m)
    ensures m == 0
  {
  }

  /** Every common multiple is a multiple of the least one. */
  lemma LcmIsLeast(a: nat, b: nat, m: int)
    requires (a > 0 || b > 0) && Divides(a, m) && Divides(b, m)
    ensures Divides(Lcm(a, b), m)
  {
    if a == 0 || b == 0 {
      LcmOfZero(a, b);
      OnlyZero(m);
      DividesSelf(0);
      return;
    }
    var g, l := Gcd(a, b), Lcm(a, b);
    var x, y := Bezout(a, b);
    var k, j := LcmCofactors(a, b);
    var s :| m == a * s;
    var t :| m == b * t;
    var n := x * t + y * s;
    // g * m == a * x * (b * t) + b * y * (a * s) == g * (l * n)
    LcmTerm(a, b, g, k, j, l, x, y, s, t);
    Cancel(g, m, l * n);
    assert m == l * n;
  }

  lemma Interchange(a: int, x: int, j: int, t: int)
    ensures (a * x) * (j * t) == (a * j) * (x * t)
  {
    MulAssociates(a, x, j * t);
    Swap(x, j, t);
    MulAssociates(a, j, x * t);
  }

  lemma LcmHalf(a: int, b: int, g: int, j: int, l: int, x: int, t: int)
    requires b == g * j && l == a * j
    ensures (a * x) * (b * t) == g * (l * (x * t))
  {
    MulAssociates(g, j, t);
    Swap(a * x, g, j * t);
    Interchange(a, x, j, t);
  }

  lemma LcmTerm(a: int, b: int, g: int, k: int, j: int, l: int, x: int, y: int, s: int, t: int)
    requires a == g * k && b == g * j && l == a * j && l == b * k && a * s == b * t && a * x + b * y == g
    ensures g * (a * s) == g * (l * (x * t + y * s))
  {
    LcmHalf(a, b, g, j, l, x, t);
    LcmHalf(b, a, g, k, l, y, s);
    var m, p, q := a * s, l * (x * t), l * (y * s);
    SumTimes(a * x, b * y, m);
    MulDistributes(l, x * t, y * s);
    MulDistributes(g, p, q);
  }

  lemma SumTimes(a: int, b: int, m: int)
    ensures (a + b) * m == a * m + b * m
  {
  }

  lemma Cancel(g: int, m: int, n: int)
    requires g > 0 && g * m == g * n
    ensures m == n
  {
    DivModUnique(g * m, g, m, 0);
    DivModUnique(g * m, g, n, 0);
  }

  /** The fold is defined for at most one zero, and then it is zero if there is one. */
  lemma {:induction false} LcmIsDefined(ns: seq<nat>)
    requires ns != []
    ensures LcmOf(ns).Some? <==> AtMostOneZero(ns)
    ensures LcmOf(ns).Some? ==> (LcmOf(ns).value == 0 <==> exists i :: 0 <= i < |ns| && ns[i] == 0)
    decreases |ns|
  {
    if |ns| == 1 {
      assert LcmOf(ns) == Some(ns[0]);
    } else {
      var front, last := ns[..|ns| - 1], ns[|ns| - 1];
      hide Lcm;
      LcmIsDefined(front);
      FrontZeros(ns);
      if LcmOf(front).Some? && (LcmOf(front).value != 0 || last != 0) {
        LcmIsCommon(LcmOf(front).value, last);
      }
    }
  }

  lemma FrontZeros(ns: seq<nat>)
    requires |ns| > 1
    ensures var front, last := ns[..|ns| - 1], ns[|ns| - 1];
            && (AtMostOneZero(ns)
                <==> AtMostOneZero(front) && (last != 0 || forall i :: 0 <= i < |front| ==> front[i] != 0))
            && ((exists i :: 0 <= i < |ns| && ns[i] == 0)
                <==> last == 0 || exists i :: 0 <= i < |front| && front[i] == 0)
  {
    var front, last := ns[..|ns| - 1], ns[|ns| - 1];
    if i :| 0 <= i < |ns| && ns[i] == 0 {
      assert i < |front| ==> front[i] == 0;
    }
    if i :| 0 <= i < |front| && front[i] == 0 {
      assert ns[i] == 0;
    }
  }

  /** The fold is the least common multiple of all arguments. */
  lemma {:induction false} LcmOfIsLeast(ns: seq<nat>, m: int)
    requires ns != [] && AtMostOneZero(ns)
    ensures LcmOf(ns).Some? && forall i :: 0 <= i < |ns| ==> Divides(ns[i], LcmOf(ns).value)
    ensures (forall i :: 0 <= i < |ns| ==> Divides(ns[i], m)) ==> Divides(LcmOf(ns).value, m)
    decreases |ns|
  {
    LcmIsDefined(ns);
    hide Lcm;
    if |ns| == 1 {
      DividesSelf(ns[0]);
    } else {
      var front, last := ns[..|ns| - 1], ns[|ns| - 1];
      LcmOfIsLeast(front, m);
      var l := LcmOf(front).value;
      LcmIsCommon(l, last);
      forall i | 0 <= i < |ns|
        ensures Divides(ns[i], LcmOf(ns).value)
      {
        if i < |front| {
          assert Divides(front[i], l);
          DividesTransitively(front[i], l, LcmOf(ns).value);
        }
      }
      if forall i :: 0 <= i < |ns| ==> Divides(ns[i], m) {
        assert forall i :: 0 <= i < |front| ==> Divides(front[i], m);
        LcmIsLeast(l, last, m);
      }
    }
  }

  /** The fold is the greatest common divisor of all arguments. */
  lemma {:induction false} GcdOfIsGreatest(ns: seq<nat>, d: int)
    requires ns != []
    ensures forall i :: 0 <= i < |ns| ==> Divides(GcdOf(ns), ns[i])
    ensures (forall i :: 0 <= i < |ns| ==> Divides(d, ns[i])) ==> Divides(d, GcdOf(ns))
    decreases |ns|
  {
    if |ns| == 1 {
      DividesSelf(ns[0]);
    } else {
      var front, last := ns[..|ns| - 1], ns[|ns| - 1];
      GcdOfIsGreatest(front, d);
      GcdDivides(GcdOf(front), last);
      forall i | 0 <= i < |ns|
        ensures Divides(GcdOf(ns), ns[i])
      {
        if i < |front| {
          assert Divides(GcdOf(front), front[i]);
          DividesTransitively(GcdOf(ns), GcdOf(front), front[i]);
        }
      }
      if forall i :: 0 <= i < |ns| ==> Divides(d, ns[i]) {
        assert forall i :: 0 <= i < |front| ==> Divides(d, front[i]);
        GcdIsGreatest(GcdOf(front), last, d);
      }
    }
  }
}
