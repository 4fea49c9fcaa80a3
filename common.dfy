/** Small value-level building blocks shared by every part of the model:
    an Option type, integer helpers, and Python's integer and slicing rules. */
module Common {

  datatype Option<+T> = None | Some(value: T)

  datatype Result<+T, +E> = Ok(value: T) | Err(error: E)

  function Abs(x: int): nat { if x < 0 then -x else x }

  function Min(a: int, b: int): int { if a <= b then a else b }

  function Max(a: int, b: int): int { if a >= b then a else b }

  /** The index an edge-replicating pad reads for position k of an axis of length n. */
  function Clamp(k: int, n: nat): (r: nat)
    requires n > 0
    ensures r < n
    ensures 0 <= k < n ==> r == k
    ensures k < 0 ==> r == 0
    ensures k >= n ==> r == n - 1
  {
    if k < 0 then 0 else if k >= n then n - 1 else k
  }

  /** Python's int() of a float: truncation toward zero. */
  function Trunc(x: real): (r: int)
    ensures x >= 0.0 ==> r as real <= x < r as real + 1.0
    ensures x < 0.0 ==> r as real - 1.0 < x <= r as real
  {
    if x >= 0.0 then x.Floor else -((-x).Floor)
  }

  /** How Python normalises one bound of a slice `s[lo:hi]` over a sequence of length n. */
  function SliceBound(i: int, n: nat): (r: nat)
    ensures r <= n
    ensures 0 <= i <= n ==> r == i
  {
    if i < 0 then (if i + n < 0 then 0 else i + n) else if i > n then n else i
  }

  /** Python's `s[lo:hi]`: negative bounds count from the end, bounds are clamped,
      and a reversed range is empty. */
  function PySlice<T>(s: seq<T>, lo: int, hi: int): seq<T>
  {
    var a := SliceBound(lo, |s|);
    var b := SliceBound(hi, |s|);
    if a < b then s[a..b] else []
  }

  lemma PySliceNonNegative<T>(s: seq<T>, lo: int, hi: int)
    requires 0 <= lo <= hi
    ensures PySlice(s, lo, hi) == s[Min(lo, |s|)..Min(hi, |s|)]
  {
  }

  function Sum(s: seq<int>): int
  {
    if |s| == 0 then 0 else Sum(s[..|s| - 1]) + s[|s| - 1]
  }
}
