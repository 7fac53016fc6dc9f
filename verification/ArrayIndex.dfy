/**
 Array subscripts: the linear index of an index tuple, and the walk over all tuples.
 */
module ArrayIndex {

  /** One array dimension `lo .. hi`. */
  datatype Dim = Dim(lo: int, hi: int)

  /** The dimensions the declaration parser accepts. */
  predicate ValidDims(dims: seq<Dim>) {
    forall i :: 0 <= i < |dims| ==> dims[i].lo <= dims[i].hi
  }

  function Size(d: Dim): int {
    d.hi - d.lo + 1
  }

  function NrElements(dims: seq<Dim>): (n: int)
    ensures ValidDims(dims) ==> n > 0
  {
    if dims == [] then 1
    else
      var m := NrElements(dims[1..]);
      ProductPositive(Size(dims[0]), m);
      Size(dims[0]) * m
  }

  lemma ProductPositive(a: int, b: int)
    ensures a > 0 && b > 0 ==> a * b > 0
  {
  }

  predicate InBounds(dims: seq<Dim>, idx: seq<int>) {
    |idx| == |dims| && forall i :: 0 <= i < |dims| ==> dims[i].lo <= idx[i] <= dims[i].hi
  }

  /** The linear index of a tuple: the last subscript varies fastest. */
  function Collapse(dims: seq<Dim>, idx: seq<int>): int
    requires |idx| == |dims|
  {
    if dims == [] then 0
    else (idx[0] - dims[0].lo) * NrElements(dims[1..]) + Collapse(dims[1..], idx[1..])
  }

  /** The tuple at a linear index. */
  function Expand(dims: seq<Dim>, n: int): (idx: seq<int>)
    requires ValidDims(dims)
    ensures |idx| == |dims|
  {
    if dims == [] then []
    else
      var m := NrElements(dims[1..]);
      [dims[0].lo + n / m] + Expand(dims[1..], n % m)
  }

  function First(dims: seq<Dim>): (idx: seq<int>)
    ensures |idx| == |dims|
    ensures forall i :: 0 <= i < |dims| ==> idx[i] == dims[i].lo
  {
    seq(|dims|, i requires 0 <= i < |dims| => dims[i].lo)
  }

  lemma {:induction false} CollapseInRange(dims: seq<Dim>, idx: seq<int>)
    requires ValidDims(dims) && InBounds(dims, idx)
    ensures 0 <= Collapse(dims, idx) < NrElements(dims)
  {
    if dims != [] {
      CollapseInRange(dims[1..], idx[1..]);
      DigitBound(idx[0] - dims[0].lo, Size(dims[0]), Collapse(dims[1..], idx[1..]), NrElements(dims[1..]));
    }
  }

  lemma DigitBound(d: int, size: int, r: int, m: int)
    requires 0 <= d < size && 0 <= r < m
    ensures 0 <= d * m + r < size * m
  {
    assert (d + 1) * m <= size * m by { MulLe(d + 1, size, m); }
    assert (d + 1) * m == d * m + m;
  }

  lemma MulLe(a: int, b: int, m: int)
    requires a <= b && 0 <= m
    ensures a * m <= b * m
  {
  }

  lemma MulMono(a: int, b: int, m: int)
    requires 0 <= m
    ensures a <= b ==> a * m <= b * m
  {
  }

  lemma DigitOf(d: int, r: int, m: int)
    requires 0 <= r < m
    ensures (d * m + r) / m == d && (d * m + r) % m == r
  {
    var v := d * m + r;
    var e := v / m - d;
    assert v == m * (v / m) + v % m;
    assert m * e == m * (v / m) - m * d;
    assert m * e == r - v % m;
    MulGrows(m, e);
  }

  lemma MulGrows(m: int, e: int)
    requires m > 0
    ensures e >= 1 ==> m * e >= m
    ensures e <= -1 ==> m * e <= -m
  {
  }

  /** The first element has index 0, and the next one differs in the last subscript. */
  lemma {:induction false} LastIsFastest(dims: seq<Dim>, idx: seq<int>)
    requires |idx| == |dims| && dims != []
    ensures var last := |idx| - 1;
            && Collapse(dims, First(dims)) == 0
            && Collapse(dims, idx[last := idx[last] + 1]) == Collapse(dims, idx) + 1
    decreases |dims|
  {
    var last, first := |idx| - 1, First(dims);
    var next := idx[last := idx[last] + 1];
    assert first[1..] == First(dims[1..]);
    hide NrElements;
    if |dims| == 1 {
      NoSubscripts(dims[1..]);
    } else {
      assert next[1..] == idx[1..][last - 1 := idx[1..][last - 1] + 1];
      LastIsFastest(dims[1..], idx[1..]);
    }
  }

  lemma NoSubscripts(dims: seq<Dim>)
    requires dims == []
    ensures NrElements(dims) == 1 && Collapse(dims, []) == 0
  {
  }

  /** Expanding a collapsed tuple gives the tuple: different tuples have different indices. */
  lemma {:induction false} ExpandOfCollapse(dims: seq<Dim>, idx: seq<int>)
    requires ValidDims(dims) && InBounds(dims, idx)
    ensures Expand(dims, Collapse(dims, idx)) == idx
  {
    hide NrElements;
    if dims != [] {
      var r := Collapse(dims[1..], idx[1..]);
      CollapseInRange(dims[1..], idx[1..]);
      DigitOf(idx[0] - dims[0].lo, r, NrElements(dims[1..]));
      ExpandOfCollapse(dims[1..], idx[1..]);
    }
  }

  /** Collapsing an expanded index gives the index: every element has a tuple in bounds. */
  lemma {:induction false} CollapseOfExpand(dims: seq<Dim>, n: int)
    requires ValidDims(dims) && 0 <= n < NrElements(dims)
    ensures InBounds(dims, Expand(dims, n))
    ensures Collapse(dims, Expand(dims, n)) == n
  {
    if dims != [] {
      var m := NrElements(dims[1..]);
      var q, r := n / m, n % m;
      QuotientBound(n, Size(dims[0]), m);
      CollapseOfExpand(dims[1..], r);
      CollapseCons(dims, dims[0].lo + q, Expand(dims[1..], r));
      assert n == q * m + r;
      assert Expand(dims, n) == [dims[0].lo + q] + Expand(dims[1..], r);
      hide *;
    }
  }

  lemma CollapseCons(dims: seq<Dim>, x: int, rest: seq<int>)
    requires dims != [] && |rest| == |dims| - 1
    ensures Collapse(dims, [x] + rest) == (x - dims[0].lo) * NrElements(dims[1..]) + Collapse(dims[1..], rest)
  {
    assert ([x] + rest)[1..] == rest;
  }

  lemma QuotientBound(n: int, size: int, m: int)
    requires 0 <= n < size * m && m > 0
    ensures 0 <= n / m < size
  {
    var q := n / m;
    assert n == q * m + n % m;
    MulGrows(m, q);
    MulMono(size, q, m);
  }

  // ----- collapsing as it is computed

  /** The weight of the subscript in each dimension. */
  function Significances(dims: seq<Dim>): (s: seq<int>)
    ensures |s| == |dims|
  {
    seq(|dims|, i requires 0 <= i < |dims| => NrElements(dims[i + 1..]))
  }

  method ArrayIndexSignificances(dims: seq<Dim>) returns (signif: seq<int>)
    requires dims != []
    ensures signif == Significances(dims)
  {
    var rev := [1];
    var i := |dims| - 1;
    while i > 0
      invariant 0 <= i < |dims| && |rev| == |dims| - i
      invariant forall k :: 0 <= k < |rev| ==> rev[k] == NrElements(dims[|dims| - k..])
    {
      assert dims[i..][1..] == dims[i + 1..];
      rev := rev + [Size(dims[i]) * rev[|rev| - 1]];
      i := i - 1;
    }
    signif := seq(|rev|, k requires 0 <= k < |rev| => rev[|rev| - 1 - k]);
  }

  datatype CollapseResult = NoIndices | InvalidCount | OutOfBounds | Linear(index: int)

  method ArrayIndicesCollapse(dims: seq<Dim>, indices: seq<int>) returns (r: CollapseResult)
    requires indices == [] || |indices| > 6 || |indices| == |dims|
    ensures r.NoIndices? <==> indices == []
    ensures r.InvalidCount? <==> |indices| > 6
    ensures r.OutOfBounds? <==> 0 < |indices| <= 6 && !InBounds(dims, indices)
    ensures r.Linear? ==> |indices| == |dims| && r.index == Collapse(dims, indices)
  {
    if indices == [] {
      return NoIndices;
    }
    if |indices| > 6 {
      return InvalidCount;
    }
    hide *;
    var signif := ArrayIndexSignificances(dims);
    var res := 0;
    assert dims[0..] == dims && indices[0..] == indices;
    for i := 0 to |indices|
      invariant forall k :: 0 <= k < i ==> dims[k].lo <= indices[k] <= dims[k].hi
      invariant res + Collapse(dims[i..], indices[i..]) == Collapse(dims, indices)
    {
      if indices[i] < dims[i].lo || indices[i] > dims[i].hi {
        OutsideSomeDim(dims, indices, i);
        return OutOfBounds;
      }
      CollapseStep(dims, indices, i, signif);
      res := res + (indices[i] - dims[i].lo) * signif[i];
    }
    CollapseNil(dims[|dims|..], indices[|dims|..]);
    InsideAllDims(dims, indices);
    return Linear(res);
  }

  lemma CollapseNil(dims: seq<Dim>, idx: seq<int>)
    requires |idx| == |dims| == 0
    ensures Collapse(dims, idx) == 0
  {
  }

  lemma OutsideSomeDim(dims: seq<Dim>, idx: seq<int>, i: nat)
    requires |idx| == |dims| && i < |dims| && (idx[i] < dims[i].lo || idx[i] > dims[i].hi)
    ensures !InBounds(dims, idx)
  {
  }

  lemma InsideAllDims(dims: seq<Dim>, idx: seq<int>)
    requires |idx| == |dims| && forall k :: 0 <= k < |dims| ==> dims[k].lo <= idx[k] <= dims[k].hi
    ensures InBounds(dims, idx)
  {
  }

  lemma CollapseStep(dims: seq<Dim>, idx: seq<int>, i: nat, signif: seq<int>)
    requires |idx| == |dims| && i < |dims| && signif == Significances(dims)
    ensures Collapse(dims[i..], idx[i..])
            == (idx[i] - dims[i].lo) * signif[i] + Collapse(dims[i + 1..], idx[i + 1..])
  {
    assert dims[i..][1..] == dims[i + 1..] && idx[i..][1..] == idx[i + 1..];
  }

  // ----- walking over the elements

  /** The tuple after `idx`, starting over after the last one. */
  function Successor(dims: seq<Dim>, idx: seq<int>): seq<int>
    requires ValidDims(dims) && InBounds(dims, idx)
  {
    Expand(dims, (Collapse(dims, idx) + 1) % NrElements(dims))
  }

  lemma {:induction false} CollapseEnds(dims: seq<Dim>)
    ensures Collapse(dims, First(dims)) == 0
    ensures forall idx: seq<int> {:trigger Collapse(dims, idx)} ::
              |idx| == |dims| && (forall i :: 0 <= i < |dims| ==> idx[i] == dims[i].hi)
              ==> Collapse(dims, idx) == NrElements(dims) - 1
  {
    if dims != [] {
      CollapseEnds(dims[1..]);
      assert First(dims)[1..] == First(dims[1..]);
      forall idx: seq<int> | |idx| == |dims| && (forall i :: 0 <= i < |dims| ==> idx[i] == dims[i].hi)
        ensures Collapse(dims, idx) == NrElements(dims) - 1
      {
        var m := NrElements(dims[1..]);
        assert Collapse(dims[1..], idx[1..]) == m - 1;
        assert (Size(dims[0]) - 1) * m + m == Size(dims[0]) * m;
      }
    }
  }

  /** `res` is `idx` with position `i` incremented and everything behind it back at the start. */
  predicate CarriedAt(dims: seq<Dim>, idx: seq<int>, i: nat, res: seq<int>)
    requires |idx| == |dims| && i < |dims|
  {
    && |res| == |dims|
    && res[i] == idx[i] + 1
    && (forall k :: 0 <= k < i ==> res[k] == idx[k])
    && (forall k :: i < k < |dims| ==> res[k] == dims[k].lo && idx[k] == dims[k].hi)
  }

  /** Carrying one position to the left adds one to the linear index. */
  lemma {:induction false} CarryAddsOne(dims: seq<Dim>, idx: seq<int>, i: nat, res: seq<int>)
    requires |idx| == |dims| && i < |dims| && CarriedAt(dims, idx, i, res)
    ensures |res| == |dims| && Collapse(dims, res) == Collapse(dims, idx) + 1
  {
    assert res == [res[0]] + res[1..] && idx == [idx[0]] + idx[1..];
    CollapseCons(dims, res[0], res[1..]);
    CollapseCons(dims, idx[0], idx[1..]);
    hide Collapse, NrElements;
    if i == 0 {
      assert res[1..] == First(dims[1..]);
      CollapseEnds(dims[1..]);
      MulSucc(idx[0] - dims[0].lo, NrElements(dims[1..]));
    } else {
      CarryAddsOne(dims[1..], idx[1..], i - 1, res[1..]);
    }
  }

  lemma CarryStops(dims: seq<Dim>, idx: seq<int>, i: nat, res: seq<int>)
    requires ValidDims(dims) && InBounds(dims, idx) && i < |dims|
    requires CarriedAt(dims, idx, i, res) && idx[i] < dims[i].hi
    ensures res == Successor(dims, idx)
  {
    CarryAddsOne(dims, idx, i, res);
    assert InBounds(dims, res);
    var c, n := Collapse(dims, res), NrElements(dims);
    assert 0 <= c < n && c % n == c by {
      CollapseInRange(dims, res);
      DigitOf(0, c, n);
    }
    ExpandOfCollapse(dims, res);
  }

  lemma MulSucc(x: int, n: int)
    ensures (x + 1) * n == x * n + n
  {
  }

  lemma CarryWraps(dims: seq<Dim>, idx: seq<int>)
    requires ValidDims(dims) && InBounds(dims, idx)
    requires forall k :: 0 <= k < |dims| ==> idx[k] == dims[k].hi
    ensures First(dims) == Successor(dims, idx)
  {
    hide Expand, Collapse, NrElements;
    CollapseEnds(dims);
    assert Collapse(dims, idx) + 1 == NrElements(dims);
    assert NrElements(dims) % NrElements(dims) == 0;
    assert InBounds(dims, First(dims));
    ExpandOfCollapse(dims, First(dims));
  }

  /** A data identifier with array subscripts. */
  class DataIdent {
    var indices: seq<int>

    constructor (indices: seq<int>)
      ensures this.indices == indices
    {
      this.indices := indices;
    }

    /** Increment the subscripts by one element, the last one first. */
    method AdvanceToNextArrayElement(dims: seq<Dim>)
      requires ValidDims(dims) && indices != [] && |indices| == |dims|
      modifies this
      ensures |indices| == |dims|
      ensures InBounds(dims, old(indices)) ==> indices == Successor(dims, old(indices))
    {
      hide Collapse, NrElements, Expand;
      ghost var was := indices;
      var last := |indices| - 1;
      indices := indices[last := indices[last] + 1];
      var i := last;
      while i >= 0
        invariant 0 <= i < |dims| && |indices| == |dims|
        invariant indices[i] == was[i] + 1 && forall k :: 0 <= k < i ==> indices[k] == was[k]
        invariant forall k :: i < k < |dims| ==> indices[k] == dims[k].lo && was[k] >= dims[k].hi
      {
        if indices[i] > dims[i].hi {
          if i <= 0 {
            indices := First(dims);
            if InBounds(dims, was) {
              CarryWraps(dims, was);
            }
            break;
          }
          indices := indices[i := dims[i].lo];
          indices := indices[i - 1 := indices[i - 1] + 1];
          i := i - 1;
        } else {
          if InBounds(dims, was) {
            CarryStops(dims, was, i, indices);
          }
          break;
        }
      }
    }
  }

  /** The subscripts after `k` steps from the first element. */
  function Steps(dims: seq<Dim>, k: nat): (idx: seq<int>)
    requires ValidDims(dims)
    ensures InBounds(dims, idx)
  {
    if k == 0 then First(dims)
    else
      var p := Steps(dims, k - 1);
      CollapseOfExpand(dims, (Collapse(dims, p) + 1) % NrElements(dims));
      Successor(dims, p)
  }

  /** The walk visits the elements in linear order, and starts over after the last one. */
  lemma {:induction false} StepsReachEveryElement(dims: seq<Dim>, k: nat)
    requires ValidDims(dims)
    ensures Collapse(dims, Steps(dims, k)) == k % NrElements(dims)
    ensures Steps(dims, k) == Expand(dims, k % NrElements(dims))
  {
    var n := NrElements(dims);
    if k == 0 {
      CollapseEnds(dims);
    } else {
      StepsReachEveryElement(dims, k - 1);
      SuccMod(k - 1, n);
      CollapseOfExpand(dims, k % n);
    }
    ExpandOfCollapse(dims, Steps(dims, k));
  }

  lemma SuccMod(k: int, n: int)
    requires n > 0
    ensures (k % n + 1) % n == (k + 1) % n
  {
    var q, r := k / n, k % n;
    assert k == n * q + r;
    if r + 1 < n {
      DigitOf(q, r + 1, n);
      assert k + 1 == q * n + (r + 1);
      DigitOf(0, r + 1, n);
    } else {
      DigitOf(q + 1, 0, n);
      assert (q + 1) * n == q * n + n;
      assert k + 1 == (q + 1) * n + 0;
      DigitOf(1, 0, n);
    }
  }
}
