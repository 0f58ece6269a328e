// The order total: Go's int64 arithmetic, and when it is exact.
module Money {
  import opened Arithmetic
  import opened Tables

  const TWO_63: int := 0x8000_0000_0000_0000
  const TWO_64: int := 0x1_0000_0000_0000_0000

  // The int64 that Go computes for a mathematical result x.
  function Wrap64(x: int): int {
    (x + TWO_63) % TWO_64 - TWO_63
  }

  // The running total after the first i lines, as the code computes it.
  function Total(lines: seq<Line>, prices: seq<int>, i: nat): int
    requires i <= |lines| && i <= |prices|
  {
    if i == 0 then 0
    else Wrap64(Total(lines, prices, i - 1) + Wrap64(prices[i - 1] * lines[i - 1].quantity))
  }

  // The mathematical prefix sum.
  function Exact(lines: seq<Line>, prices: seq<int>, i: nat): int
    requires i <= |lines| && i <= |prices|
  {
    if i == 0 then 0
    else Exact(lines, prices, i - 1) + prices[i - 1] * lines[i - 1].quantity
  }

  // The one int64 congruent to x.
  lemma WrapIsInt64(x: int)
    ensures -0x8000_0000_0000_0000 <= Wrap64(x) < 0x8000_0000_0000_0000
    ensures (x - Wrap64(x)) % 0x1_0000_0000_0000_0000 == 0
  {
    var m := x + TWO_63;
    assert m == TWO_64 * (m / TWO_64) + m % TWO_64;
    assert x - Wrap64(x) == TWO_64 * (m / TWO_64);
  }

  lemma WrapAdds(a: int, b: int)
    ensures Wrap64(Wrap64(a) + Wrap64(b)) == Wrap64(a + b)
  {
  }

  lemma WrapExact(x: int)
    requires -TWO_63 <= x < TWO_63
    ensures Wrap64(x) == x
  {
  }

  // Wrapping at every step loses no more than wrapping once at the end.
  lemma {:induction false} TotalIsWrappedSum(lines: seq<Line>, prices: seq<int>, i: nat)
    requires i <= |lines| && i <= |prices|
    ensures Total(lines, prices, i) == Wrap64(Exact(lines, prices, i))
  {
    if i > 0 {
      TotalIsWrappedSum(lines, prices, i - 1);
      WrapAdds(Exact(lines, prices, i - 1), prices[i - 1] * lines[i - 1].quantity);
    }
  }

  // The total is the mathematical one exactly when that one is an int64.
  lemma TotalExactExactlyWhen(lines: seq<Line>, prices: seq<int>, i: nat)
    requires i <= |lines| && i <= |prices|
    ensures Total(lines, prices, i) == Exact(lines, prices, i) <==>
              -0x8000_0000_0000_0000 <= Exact(lines, prices, i) < 0x8000_0000_0000_0000
  {
    TotalIsWrappedSum(lines, prices, i);
    if -TWO_63 <= Exact(lines, prices, i) < TWO_63 {
      WrapExact(Exact(lines, prices, i));
    }
  }

  lemma ProductBound(p: int, q: int, pMax: int)
    requires 0 <= p <= pMax && 1 <= q <= MAX_INT32
    ensures 0 <= p * q <= pMax * MAX_INT32
  {
  }

  lemma {:induction false} ExactBound(lines: seq<Line>, prices: seq<int>, pMax: int, i: nat)
    requires i <= |lines| && i <= |prices|
    requires forall k :: 0 <= k < i ==> 0 <= prices[k] <= pMax && 1 <= lines[k].quantity <= MAX_INT32
    ensures 0 <= Exact(lines, prices, i) <= i * (pMax * MAX_INT32)
  {
    if i > 0 {
      ExactBound(lines, prices, pMax, i - 1);
      ProductBound(prices[i - 1], lines[i - 1].quantity, pMax);
      var unit := pMax * MAX_INT32;
      assert (i - 1) * unit + unit == i * unit;
    }
  }

  lemma TotalIsExactAt(lines: seq<Line>, prices: seq<int>, pMax: int, i: nat)
    requires |prices| == |lines| && i <= |lines|
    requires forall k :: 0 <= k < |lines| ==> 0 <= prices[k] <= pMax && 1 <= lines[k].quantity <= MAX_INT32
    requires |lines| * (pMax * MAX_INT32) < TWO_63
    ensures Total(lines, prices, i) == Exact(lines, prices, i)
    ensures i < |lines| ==> Wrap64(prices[i] * lines[i].quantity) == prices[i] * lines[i].quantity
  {
    ExactBound(lines, prices, pMax, i);
    if |lines| > 0 {
      ProductBound(prices[0], lines[0].quantity, pMax);
      MulMonotone(i, |lines|, pMax * MAX_INT32);
      MulMonotone(1, |lines|, pMax * MAX_INT32);
    }
    TotalIsWrappedSum(lines, prices, i);
    WrapExact(Exact(lines, prices, i));
    if i < |lines| {
      ProductBound(prices[i], lines[i].quantity, pMax);
      WrapExact(prices[i] * lines[i].quantity);
    }
  }

  // No intermediate int64 of the total loop overflows: each product and each
  // partial total is the mathematical one.
  lemma TotalIsExact(lines: seq<Line>, prices: seq<int>, pMax: int)
    requires |prices| == |lines|
    requires forall k :: 0 <= k < |lines| ==> 0 <= prices[k] <= pMax && 1 <= lines[k].quantity <= 0x7fff_ffff
    requires |lines| * (pMax * 0x7fff_ffff) < 0x8000_0000_0000_0000
    ensures forall i :: 0 <= i <= |lines| ==> Total(lines, prices, i) == Exact(lines, prices, i)
    ensures forall i :: 0 <= i < |lines| ==>
              Wrap64(prices[i] * lines[i].quantity) == prices[i] * lines[i].quantity
  {
    forall i | 0 <= i <= |lines|
      ensures Total(lines, prices, i) == Exact(lines, prices, i)
      ensures i < |lines| ==> Wrap64(prices[i] * lines[i].quantity) == prices[i] * lines[i].quantity
    {
      TotalIsExactAt(lines, prices, pMax, i);
    }
  }
}
