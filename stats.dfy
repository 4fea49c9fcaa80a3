/** The NumPy and SciPy reductions the channel finder relies on, re-specified:
    numpy.diff, first-occurrence argmax/argmin, scipy.stats.mode (smallest value
    on a tie) and the median. */
module Stats {
  import opened Common

  /** numpy.diff: differences of neighbouring elements. */
  function Diff(s: seq<int>): (d: seq<int>)
    ensures |d| == if |s| == 0 then 0 else |s| - 1
    ensures forall i :: 0 <= i < |d| ==> d[i] == s[i + 1] - s[i]
  {
    if |s| <= 1 then [] else seq(|s| - 1, i requires 0 <= i < |s| - 1 => s[i + 1] - s[i])
  }

  /** numpy.argmax: the FIRST index of the largest element. */
  function ArgMax(s: seq<int>): (k: nat)
    requires |s| > 0
    ensures k < |s|
    ensures forall j :: 0 <= j < |s| ==> s[j] <= s[k]
    ensures forall j :: 0 <= j < k ==> s[j] < s[k]
  {
    if |s| == 1 then 0
    else
      var k' := ArgMax(s[..|s| - 1]);
      if s[|s| - 1] > s[k'] then |s| - 1 else k'
  }

  /** numpy.argmin: the FIRST index of the smallest element. */
  function ArgMin(s: seq<int>): (k: nat)
    requires |s| > 0
    ensures k < |s|
    ensures forall j :: 0 <= j < |s| ==> s[k] <= s[j]
    ensures forall j :: 0 <= j < k ==> s[k] < s[j]
  {
    if |s| == 1 then 0
    else
      var k' := ArgMin(s[..|s| - 1]);
      if s[|s| - 1] < s[k'] then |s| - 1 else k'
  }

  function Count(s: seq<int>, v: int): nat { multiset(s)[v] }

  /** The candidate occurring most often in s, the smallest one among equally frequent candidates. */
  function MostFrequent(s: seq<int>, cands: seq<int>): (m: int)
    requires |cands| > 0
    ensures m in cands
    ensures forall v :: v in cands ==>
      Count(s, v) < Count(s, m) || (Count(s, v) == Count(s, m) && m <= v)
  {
    if |cands| == 1 then cands[0]
    else
      var b := MostFrequent(s, cands[1..]);
      assert forall v :: v in cands ==> v == cands[0] || v in cands[1..];
      if Count(s, cands[0]) > Count(s, b) || (Count(s, cands[0]) == Count(s, b) && cands[0] < b)
      then cands[0] else b
  }

  /** scipy.stats.mode of one column: a most frequent value, the smallest on a tie. */
  function Mode(s: seq<int>): (m: int)
    requires |s| > 0
    ensures m in s
    ensures forall v :: v in s ==> Count(s, v) <= Count(s, m)
    ensures forall v :: v in s && Count(s, v) == Count(s, m) ==> m <= v
  {
    MostFrequent(s, s)
  }

  predicate Sorted(s: seq<int>)
  {
    forall i, j :: 0 <= i < j < |s| ==> s[i] <= s[j]
  }

  function Insert(x: int, t: seq<int>): (r: seq<int>)
    requires Sorted(t)
    ensures Sorted(r)
    ensures multiset(r) == multiset(t) + multiset{x}
    ensures |r| == |t| + 1 && r[0] == (if |t| == 0 || x <= t[0] then x else t[0])
  {
    if |t| == 0 then [x]
    else if x <= t[0] then [x] + t
    else
      var rest := Insert(x, t[1..]);
      assert t == [t[0]] + t[1..];
      assert t[0] <= rest[0];
      [t[0]] + rest
  }

  /** The values of s in ascending order. */
  function Sort(s: seq<int>): (t: seq<int>)
    ensures Sorted(t)
    ensures multiset(t) == multiset(s)
    ensures |t| == |s|
  {
    if |s| == 0 then []
    else
      assert s == [s[0]] + s[1..];
      Insert(s[0], Sort(s[1..]))
  }

  /** numpy.median: the middle value, or the mean of the two middle values of an even count. */
  function Median(s: seq<int>): real
    requires |s| > 0
  {
    Middle(Sort(s))
  }

  /** The middle value of a sorted sequence, or the mean of its two middle values. */
  function Middle(t: seq<int>): real
    requires |t| > 0
  {
    var n := |t|;
    if n % 2 == 1 then t[n / 2] as real else (t[n / 2 - 1] + t[n / 2]) as real / 2.0
  }

  lemma SortedElementFrom(s: seq<int>, k: nat)
    requires k < |s|
    ensures exists i :: 0 <= i < |s| && s[i] == Sort(s)[k]
  {
    var t := Sort(s);
    assert t[k] in multiset(t);
    assert t[k] in multiset(s);
  }

  lemma SortedElementWithin(s: seq<int>, k: nat, lo: int, hi: int)
    requires k < |s|
    requires forall i :: 0 <= i < |s| ==> lo <= s[i] <= hi
    ensures lo <= Sort(s)[k] <= hi
  {
    SortedElementFrom(s, k);
  }

  lemma MeanWithin(a: int, b: int, lo: int, hi: int)
    requires lo <= a <= hi && lo <= b <= hi
    ensures lo as real <= (a + b) as real / 2.0 <= hi as real
  {
  }

  /** A median never leaves the range the values lie in. */
  lemma {:induction false} MedianWithin(s: seq<int>, lo: int, hi: int)
    requires |s| > 0
    requires forall i :: 0 <= i < |s| ==> lo <= s[i] <= hi
    ensures lo as real <= Median(s) <= hi as real
  {
    var t := Sort(s);
    forall k | 0 <= k < |t| ensures lo <= t[k] <= hi {
      SortedElementWithin(s, k, lo, hi);
    }
    MiddleWithin(t, lo, hi);
  }

  lemma MiddleWithin(t: seq<int>, lo: int, hi: int)
    requires |t| > 0
    requires forall i :: 0 <= i < |t| ==> lo <= t[i] <= hi
    ensures lo as real <= Middle(t) <= hi as real
  {
    var n := |t|;
    if n % 2 == 0 {
      MeanWithin(t[n / 2 - 1], t[n / 2], lo, hi);
    }
  }

  /** The mode likewise lies within the range of the values. */
  lemma ModeWithin(s: seq<int>, lo: int, hi: int)
    requires |s| > 0
    requires forall i :: 0 <= i < |s| ==> lo <= s[i] <= hi
    ensures lo <= Mode(s) <= hi
  {
    var m := Mode(s);
    var i :| 0 <= i < |s| && s[i] == m;
  }
}
