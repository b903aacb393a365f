/** Options, sums over sequences, and the half-open night list every hold and sale ranges over. */
module Basics {

  datatype Option<+T> = None | Some(value: T)

  function Max(a: int, b: int): int { if a < b then b else a }

  function Min(a: int, b: int): int { if a < b then a else b }

  /** Recursion runs from the end, so that appending a row unfolds the definition once. */
  function Sum(xs: seq<int>): int {
    if |xs| == 0 then 0 else Sum(xs[..|xs| - 1]) + xs[|xs| - 1]
  }

  /** Rewriting one row moves the sum by exactly the change of that row. */
  lemma {:induction false} SumUpdate(xs: seq<int>, i: nat, x: int)
    requires i < |xs|
    ensures Sum(xs[i := x]) == Sum(xs) - xs[i] + x
  {
    var n := |xs| - 1;
    if i == n {
      assert xs[i := x][..n] == xs[..n];
    } else {
      SumUpdate(xs[..n], i, x);
      assert xs[i := x][..n] == xs[..n][i := x];
    }
  }

  lemma {:induction false} SumMono(xs: seq<int>, ys: seq<int>)
    requires |xs| == |ys|
    requires forall i | 0 <= i < |xs| :: xs[i] <= ys[i]
    ensures Sum(xs) <= Sum(ys)
  {
    if |xs| > 0 {
      SumMono(xs[..|xs| - 1], ys[..|ys| - 1]);
    }
  }

  lemma {:induction false} SumZero(xs: seq<int>)
    requires forall i | 0 <= i < |xs| :: xs[i] == 0
    ensures Sum(xs) == 0
  {
    if |xs| > 0 {
      SumZero(xs[..|xs| - 1]);
    }
  }

  /** Day numbers from `start` up to but not including `end`. */
  function EachNight(start: int, end: int): (nights: seq<int>)
    ensures |nights| == Max(0, end - start)
    ensures forall i | 0 <= i < |nights| :: nights[i] == start + i
  {
    seq(Max(0, end - start), i => start + i)
  }

  /** The night list holds every day of the half-open range once, in order. */
  lemma EachNightCovers(start: int, end: int, night: int)
    ensures night in EachNight(start, end) <==> start <= night < end
    ensures forall i, j | 0 <= i < j < |EachNight(start, end)| :: EachNight(start, end)[i] < EachNight(start, end)[j]
  {
    if start <= night < end {
      assert EachNight(start, end)[night - start] == night;
    }
  }
}
