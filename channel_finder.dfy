/** The channel-finding block of get_tif_params: edge trimming of the detected
    peaks, the global estimate of the channel ends from the row profile, the
    per-channel refinement inside 20-pixel windows, the mode/median baselines, the
    outlier corrections, and the resulting peak -> ends map.

    Inputs are the plane-selected 2-D frame (rows of pixel values) and the peak
    x-positions returned by the wavelet peak finder. */
module ChannelFinder {
  import opened Common
  import opened Stats
  import opened Images

  /** One entry of channel_params: [peak, closed end, open end, length, flag]. */
  datatype ChannelParam = ChannelParam(peak: int, closedEnd: int, openEnd: int, length: int, corrected: bool)

  /** The value stored for a channel: {'closed_end_px', 'open_end_px'}. */
  datatype ChannelEnds = ChannelEnds(closedEnd: int, openEnd: int)

  /** The three outcomes of get_tif_params with find_channels set. */
  datatype Detection =
    | Detected(channels: map<int, ChannelEnds>)  // the result dictionary's 'channels'
    | NoBaseline                                 // the list [image_filename, -1]
    | AnalyzeFailed                              // an exception: 'analyze_success': False

  /** Half-width of the search windows around the global channel ends. */
  const PxWindow: int := 20

  // ---------------------------------------------------------------------------
  // Edge trimming of the peak list (lines 154-159)

  /** Drops the first peak when it lies closer than sep/2 (integer division) to
      x = 0, then the last remaining peak when h - peak < sep/2, where h is the
      height of the frame exactly as the source writes it. Indexing an empty peak
      list raises, which get_tif_params turns into a failed analysis. */
  function TrimEdgePeaks(peaks: seq<int>, sep: int, h: int): (r: Option<seq<int>>)
    ensures r.Some? <==> |peaks| > 0 && !(|peaks| == 1 && peaks[0] < sep / 2)
    ensures r.Some? ==>
      var first := if peaks[0] < sep / 2 then 1 else 0;
      var last := if h - peaks[|peaks| - 1] < sep / 2 then |peaks| - 1 else |peaks|;
      first <= last && r.value == peaks[first..last]
  {
    if |peaks| == 0 then None
    else
      var kept := if peaks[0] < sep / 2 then peaks[1..] else peaks;
      if |kept| == 0 then None
      else if h - kept[|kept| - 1] < sep / 2 then Some(kept[..|kept| - 1])
      else Some(kept)
  }

  /** Only an empty list, or one emptied by the left test, raises: a lone peak that
      passes the left test and fails the right one leaves an empty list, and the
      analysis goes on without channels. */
  lemma TrimToNoPeak(sep: int, h: int)
    requires 1 < sep / 2 <= h - 1
    ensures TrimEdgePeaks([h - 1], sep, h) == Some([])
  {
  }

  // ---------------------------------------------------------------------------
  // Global estimate of the channel ends (lines 162-170)

  /** `m.sum(axis=1)`: the sum of every row. */
  function RowProfile(m: Plane): (p: seq<int>)
    ensures |p| == |m|
  {
    seq(|m|, i requires 0 <= i < |m| => Sum(m[i]))
  }

  /** First differences of the upper third of the profile. */
  function UpperDerivative(profile: seq<int>): seq<int>
  {
    Diff(profile[..|profile| / 3])
  }

  /** First differences of the profile from two thirds of its length on. */
  function LowerDerivative(profile: seq<int>): seq<int>
  {
    Diff(profile[2 * |profile| / 3..])
  }

  /** (image_deriv_max, image_deriv_min): the first argmax of the upper derivative
      and, offset by 2h/3, the first argmin of the lower one. numpy's argmax of an
      empty array raises, so a frame lower than 6 rows fails. */
  function GlobalEnds(profile: seq<int>): (r: Option<(int, int)>)
    ensures r.Some? <==> |profile| / 3 >= 2
    ensures r.Some? ==>
      var h, up, low := |profile|, UpperDerivative(profile), LowerDerivative(profile);
      var (dmax, dmin) := r.value;
      && 0 <= dmax < |up| && up[dmax] == up[ArgMax(up)]
      && (forall k :: 0 <= k < |up| ==> up[k] <= up[dmax])
      && (forall k :: 0 <= k < dmax ==> up[k] < up[dmax])
      && 2 * h / 3 <= dmin < 2 * h / 3 + |low|
      && (forall k :: 0 <= k < |low| ==> low[dmin - 2 * h / 3] <= low[k])
      && (forall k :: 0 <= k < dmin - 2 * h / 3 ==> low[dmin - 2 * h / 3] < low[k])
      && dmax < h - 1 && dmin <= h - 2
  {
    var h := |profile|;
    if h / 3 < 2 then None
    else
      var up, low := UpperDerivative(profile), LowerDerivative(profile);
      Some((ArgMax(up), ArgMin(low) + 2 * h / 3))
  }

  /** The bounds low_for_max, high_for_max, low_for_min, high_for_min. */
  datatype Windows = Windows(lowMax: int, highMax: int, lowMin: int, highMin: int)

  predicate InRange(k: int, lo: int, hi: int) { lo <= k < hi }

  /** Windows of PxWindow pixels either side of the global ends, clamped to [0, h]. */
  function SearchWindows(dmax: int, dmin: int, h: int): (w: Windows)
    ensures forall k :: InRange(k, w.lowMax, w.highMax) <==> InRange(k, 0, h) && InRange(k, dmax - PxWindow, dmax + PxWindow)
    ensures forall k :: InRange(k, w.lowMin, w.highMin) <==> InRange(k, 0, h) && InRange(k, dmin - PxWindow, dmin + PxWindow)
    ensures w.lowMax >= 0 && w.lowMin >= 0
  {
    Windows(Max(0, dmax - PxWindow), Min(dmax + PxWindow, h), Max(0, dmin - PxWindow), Min(dmin + PxWindow, h))
  }

  /** Both windows are non-empty and start inside a derivative of length h - 1. */
  predicate WindowsFit(w: Windows, h: int)
  {
    0 <= w.lowMax < w.highMax && w.lowMax < h - 1 && 0 <= w.lowMin < w.highMin && w.lowMin < h - 1
  }

  /** Windows around the global ends always leave something to search. */
  lemma GlobalWindowsFit(profile: seq<int>)
    requires GlobalEnds(profile).Some?
    ensures var (dmax, dmin) := GlobalEnds(profile).value;
      WindowsFit(SearchWindows(dmax, dmin, |profile|), |profile|)
  {
  }

  // ---------------------------------------------------------------------------
  // Per-channel refinement (lines 172-210)

  /** `image[0:h, peak-chw:peak+chw]`, with Python's slicing rules on every row. */
  function Strip(image: Plane, peak: int, chw: int): (s: Plane)
    ensures |s| == |image|
  {
    seq(|image|, i requires 0 <= i < |image| => PySlice(image[i], peak - chw, peak + chw))
  }

  function StripDerivative(strip: Plane): (d: seq<int>)
    ensures |d| == if |strip| == 0 then 0 else |strip| - 1
  {
    Diff(RowProfile(strip))
  }

  /** `lo + argmax(d[lo:hi])`: the first position of the largest value in the window. */
  function WindowArgMax(d: seq<int>, lo: int, hi: int): (k: int)
    requires 0 <= lo < hi && lo < |d|
    ensures lo <= k < Min(hi, |d|)
    ensures forall j :: lo <= j < Min(hi, |d|) ==> d[j] <= d[k]
    ensures forall j :: lo <= j < k ==> d[j] < d[k]
  {
    PySliceNonNegative(d, lo, hi);
    var win := PySlice(d, lo, hi);
    assert forall j :: lo <= j < Min(hi, |d|) ==> d[j] == win[j - lo];
    ArgMax(win) + lo
  }

  /** `lo + argmin(d[lo:hi])`: the first position of the smallest value in the window. */
  function WindowArgMin(d: seq<int>, lo: int, hi: int): (k: int)
    requires 0 <= lo < hi && lo < |d|
    ensures lo <= k < Min(hi, |d|)
    ensures forall j :: lo <= j < Min(hi, |d|) ==> d[k] <= d[j]
    ensures forall j :: lo <= j < k ==> d[k] < d[j]
  {
    PySliceNonNegative(d, lo, hi);
    var win := PySlice(d, lo, hi);
    assert forall j :: lo <= j < Min(hi, |d|) ==> d[j] == win[j - lo];
    ArgMin(win) + lo
  }

  /** k is the first position of the largest value of d[lo:hi]. */
  predicate FirstMaxIn(d: seq<int>, lo: int, hi: int, k: int)
  {
    && 0 <= lo <= k < Min(hi, |d|)
    && (forall j :: lo <= j < Min(hi, |d|) ==> d[j] <= d[k])
    && (forall j :: lo <= j < k ==> d[j] < d[k])
  }

  /** k is the first position of the smallest value of d[lo:hi]. */
  predicate FirstMinIn(d: seq<int>, lo: int, hi: int, k: int)
  {
    && 0 <= lo <= k < Min(hi, |d|)
    && (forall j :: lo <= j < Min(hi, |d|) ==> d[k] <= d[j])
    && (forall j :: lo <= j < k ==> d[k] < d[j])
  }

  /** The record measured from one strip: the closed end is the steepest rise of
      the strip's row profile inside the max-window, the open end its steepest fall
      inside the min-window; both lie inside the frame's derivative. */
  function MeasureStrip(peak: int, strip: Plane, w: Windows): (c: ChannelParam)
    requires WindowsFit(w, |strip|)
    ensures c.peak == peak && !c.corrected && c.length == Abs(c.openEnd - c.closedEnd)
    ensures w.lowMax <= c.closedEnd < Min(w.highMax, |strip| - 1)
    ensures w.lowMin <= c.openEnd < Min(w.highMin, |strip| - 1)
    ensures FirstMaxIn(StripDerivative(strip), w.lowMax, w.highMax, c.closedEnd)
    ensures FirstMinIn(StripDerivative(strip), w.lowMin, w.highMin, c.openEnd)
  {
    var d := StripDerivative(strip);
    var closed := WindowArgMax(d, w.lowMax, w.highMax);
    var open := WindowArgMin(d, w.lowMin, w.highMin);
    ChannelParam(peak, closed, open, Abs(open - closed), false)
  }

  /** The (peak, strip) pairs of the kept peaks, in peak order. */
  function Strips(image: Plane, kept: seq<int>, chw: int): (ss: seq<(int, Plane)>)
    ensures |ss| == |kept| && forall n :: 0 <= n < |kept| ==> ss[n].0 == kept[n] && |ss[n].1| == |image|
  {
    seq(|kept|, n requires 0 <= n < |kept| => (kept[n], Strip(image, kept[n], chw)))
  }

  predicate AllFit(strips: seq<(int, Plane)>, w: Windows)
  {
    forall k :: 0 <= k < |strips| ==> WindowsFit(w, |strips[k].1|)
  }

  /** The record of each strip, in order. */
  function Records(strips: seq<(int, Plane)>, w: Windows): (s: seq<ChannelParam>)
    requires AllFit(strips, w)
    ensures |s| == |strips|
  {
    if |strips| == 0 then []
    else
      var last := strips[|strips| - 1];
      Records(strips[..|strips| - 1], w) + [MeasureStrip(last.0, last.1, w)]
  }

  lemma {:induction false} RecordsAt(strips: seq<(int, Plane)>, w: Windows, k: nat)
    requires AllFit(strips, w) && k < |strips|
    ensures Records(strips, w)[k] == MeasureStrip(strips[k].0, strips[k].1, w)
  {
    if k < |strips| - 1 {
      RecordsAt(strips[..|strips| - 1], w, k);
    }
  }

  /** The records of all kept peaks, in peak order. */
  function MeasureAll(image: Plane, kept: seq<int>, chw: int, w: Windows): (s: seq<ChannelParam>)
    requires WindowsFit(w, |image|)
    ensures |s| == |kept|
  {
    Records(Strips(image, kept, chw), w)
  }

  /** Record n is the one measured from the strip of kept peak n. */
  lemma MeasureAllAt(image: Plane, kept: seq<int>, chw: int, w: Windows, n: nat)
    requires WindowsFit(w, |image|) && n < |kept|
    ensures MeasureAll(image, kept, chw, w)[n] == MeasureStrip(kept[n], Strip(image, kept[n], chw), w)
  {
    RecordsAt(Strips(image, kept, chw), w, n);
  }

  predicate EndsWithin(c: ChannelParam, lo: int, hi: int)
  {
    lo <= c.closedEnd <= hi && lo <= c.openEnd <= hi
  }

  /** The records for the peaks that survive trimming, or None where the source
      raises before the baselines (no peak left, or a frame lower than 6 rows).
      Every record keeps its peak, is unflagged, and has both ends and its length
      in [0, h - 2]. */
  function MeasuredChannels(image: Plane, peaks: seq<int>, sep: int, chw: int): (r: Option<seq<ChannelParam>>)
    ensures r.Some? <==> TrimEdgePeaks(peaks, sep, |image|).Some? && |image| / 3 >= 2
    ensures r.Some? ==>
      var kept := TrimEdgePeaks(peaks, sep, |image|).value;
      && |r.value| == |kept|
      && forall n :: 0 <= n < |kept| ==>
           && r.value[n].peak == kept[n] && !r.value[n].corrected
           && EndsWithin(r.value[n], 0, |image| - 2) && 0 <= r.value[n].length <= |image| - 2
  {
    var trimmed := TrimEdgePeaks(peaks, sep, |image|);
    if trimmed.None? then None
    else
      var profile := RowProfile(image);
      var ends := GlobalEnds(profile);
      if ends.None? then None
      else
        GlobalWindowsFit(profile);
        var w := SearchWindows(ends.value.0, ends.value.1, |image|);
        MeasureAllWithin(image, trimmed.value, chw, w);
        Some(MeasureAll(image, trimmed.value, chw, w))
  }

  lemma MeasureAllWithin(image: Plane, kept: seq<int>, chw: int, w: Windows)
    requires WindowsFit(w, |image|) && w.lowMax >= 0 && w.lowMin >= 0
    ensures var s := MeasureAll(image, kept, chw, w);
      forall n :: 0 <= n < |kept| ==>
        && s[n].peak == kept[n] && !s[n].corrected
        && EndsWithin(s[n], 0, |image| - 2) && 0 <= s[n].length <= |image| - 2
  {
    forall n | 0 <= n < |kept| {
      MeasureAllAt(image, kept, chw, w, n);
    }
  }

  /** The two append loops of lines 173-210: the strips, then their records. */
  method MeasureChannels(image: Plane, kept: seq<int>, chw: int, w: Windows) returns (params: seq<ChannelParam>)
    requires WindowsFit(w, |image|)
    ensures params == MeasureAll(image, kept, chw, w)
  {
    var strips := CutStrips(image, kept, chw);
    params := MeasureStrips(strips, w);
  }

  /** The first loop: one (peak, strip) pair per kept peak. */
  method CutStrips(image: Plane, kept: seq<int>, chw: int) returns (strips: seq<(int, Plane)>)
    ensures strips == Strips(image, kept, chw)
  {
    strips := [];
    for n := 0 to |kept|
      invariant |strips| == n
      invariant forall k :: 0 <= k < n ==> strips[k] == (kept[k], Strip(image, kept[k], chw))
    {
      strips := strips + [(kept[n], Strip(image, kept[n], chw))];
    }
  }

  /** The second loop: the record of each strip. */
  method MeasureStrips(strips: seq<(int, Plane)>, w: Windows) returns (params: seq<ChannelParam>)
    requires AllFit(strips, w)
    ensures params == Records(strips, w)
  {
    params := [];
    for n := 0 to |strips|
      invariant params == Records(strips[..n], w)
    {
      assert strips[..n + 1][..n] == strips[..n];
      params := params + [MeasureStrip(strips[n].0, strips[n].1, w)];
    }
    assert strips[..|strips|] == strips;
  }

  // ---------------------------------------------------------------------------
  // Baselines (lines 216-263)

  function ClosedEnds(s: seq<ChannelParam>): (col: seq<int>)
    ensures |col| == |s| && forall n :: 0 <= n < |s| ==> col[n] == s[n].closedEnd
  {
    seq(|s|, n requires 0 <= n < |s| => s[n].closedEnd)
  }

  function OpenEnds(s: seq<ChannelParam>): (col: seq<int>)
    ensures |col| == |s| && forall n :: 0 <= n < |s| ==> col[n] == s[n].openEnd
  {
    seq(|s|, n requires 0 <= n < |s| => s[n].openEnd)
  }

  function Lengths(s: seq<ChannelParam>): (col: seq<int>)
    ensures |col| == |s| && forall n :: 0 <= n < |s| ==> col[n] == s[n].length
  {
    seq(|s|, n requires 0 <= n < |s| => s[n].length)
  }

  /** An end baseline: the column's mode when positive, otherwise int() of its median. */
  function EndBaseline(col: seq<int>): int
    requires |col| > 0
  {
    if Mode(col) > 0 then Mode(col) else Trunc(Median(col))
  }

  /** The length baseline: the mode when positive, otherwise the median itself,
      which for an even count may lie halfway between two integers. */
  function LengthBaseline(col: seq<int>): real
    requires |col| > 0
  {
    if Mode(col) > 0 then Mode(col) as real else Median(col)
  }

  /** max_baseline (closed end), min_baseline (open end), len_baseline. */
  datatype Baselines = Baselines(closed: int, open: int, length: real)

  /** Baselines of a channel list, or None where the source returns
      [image_filename, -1]: an empty list, a non-positive open-end baseline, or a
      non-positive closed-end baseline. The length baseline is not checked. For an
      empty list this takes a scipy.stats.mode that returns empty arrays, so that
      the lookup at line 229 fails inside the try; an older mode that raises at
      line 216 would make it a failed analysis instead. */
  function SelectBaselines(s: seq<ChannelParam>): (r: Option<Baselines>)
    ensures r.Some? <==> |s| > 0 && EndBaseline(OpenEnds(s)) > 0 && EndBaseline(ClosedEnds(s)) > 0
    ensures r.Some? ==> r.value.closed > 0 && r.value.open > 0
  {
    if |s| == 0 then None
    else
      var minBaseline := EndBaseline(OpenEnds(s));
      if minBaseline <= 0 then None
      else
        var maxBaseline := EndBaseline(ClosedEnds(s));
        if maxBaseline <= 0 then None
        else Some(Baselines(maxBaseline, minBaseline, LengthBaseline(Lengths(s))))
  }

  /** An end baseline lies within the range of its column. */
  lemma EndBaselineWithin(col: seq<int>, lo: int, hi: int)
    requires |col| > 0
    requires forall i :: 0 <= i < |col| ==> lo <= col[i] <= hi
    ensures lo <= EndBaseline(col) <= hi
  {
    ModeWithin(col, lo, hi);
    MedianWithin(col, lo, hi);
  }

  /** The length baseline lies within the range of the lengths. */
  lemma LengthBaselineWithin(col: seq<int>, lo: int, hi: int)
    requires |col| > 0
    requires forall i :: 0 <= i < |col| ==> lo <= col[i] <= hi
    ensures lo as real <= LengthBaseline(col) <= hi as real
  {
    ModeWithin(col, lo, hi);
    MedianWithin(col, lo, hi);
  }

  // ---------------------------------------------------------------------------
  // Corrections (lines 265-296)

  function RealAbs(x: real): real { if x < 0.0 then -x else x }

  /** `float(abs(len - len_baseline)) / float(len_baseline) > 0.5` */
  predicate LengthDeviates(len: int, lb: real)
    requires lb != 0.0
  {
    RealAbs(len as real - lb) / lb > 0.5
  }

  lemma QuotientAboveHalf(d: real, lb: real)
    requires lb > 0.0
    ensures d / lb > 0.5 <==> 2.0 * d > lb
  {
    var q := d / lb;
    assert q * lb == d;
    if q > 0.5 {
      assert (q - 0.5) * lb > 0.0;
    } else {
      NonNegativeProduct(0.5 - q, lb);
    }
  }

  lemma NonNegativeProduct(x: real, y: real)
    requires x >= 0.0 && y >= 0.0
    ensures x * y >= 0.0
  {
  }

  /** For a positive baseline the test reads: the length is off by more than half the baseline. */
  lemma LengthDeviatesMeaning(len: int, lb: real)
    requires lb > 0.0
    ensures LengthDeviates(len, lb) <==> 2.0 * RealAbs(len as real - lb) > lb
  {
    QuotientAboveHalf(RealAbs(len as real - lb), lb);
  }

  /** One step of the loop at lines 270-278. */
  function CorrectLength(c: ChannelParam, b: Baselines): ChannelParam
    requires b.length != 0.0
  {
    if !LengthDeviates(c.length, b.length) then c
    else
      var c1 := if Abs(c.closedEnd - b.closed) < Abs(c.openEnd - b.open)
        then c.(openEnd := c.closedEnd + Trunc(b.length))
        else c.(closedEnd := c.openEnd - Trunc(b.length));
      c1.(length := Abs(c1.closedEnd - c1.openEnd))
  }

  /** A channel whose length deviates keeps the end closer to its baseline (the
      closed end when strictly closer, otherwise the open end) and moves the other
      end to int(len_baseline) pixels from it; any other channel is unchanged, and
      the peak and flag never change. */
  lemma CorrectLengthSpec(c: ChannelParam, b: Baselines)
    requires b.length != 0.0
    ensures var r := CorrectLength(c, b);
      && r.peak == c.peak && r.corrected == c.corrected
      && (!LengthDeviates(c.length, b.length) ==> r == c)
      && (LengthDeviates(c.length, b.length) ==>
            && r.length == Abs(Trunc(b.length))
            && (Abs(c.closedEnd - b.closed) < Abs(c.openEnd - b.open) ==>
                  r.closedEnd == c.closedEnd && r.openEnd == c.closedEnd + Trunc(b.length))
            && (Abs(c.closedEnd - b.closed) >= Abs(c.openEnd - b.open) ==>
                  r.openEnd == c.openEnd && r.closedEnd == c.openEnd - Trunc(b.length)))
  {
  }

  /** Resetting a channel to the baseline geometry. */
  function ResetToBaseline(c: ChannelParam, b: Baselines): ChannelParam
  {
    c.(closedEnd := b.closed, openEnd := b.open, length := Abs(b.closed - b.open))
  }

  /** One step of the loop at lines 281-287. */
  function ResetNegativeClosed(c: ChannelParam, b: Baselines): ChannelParam
  {
    if c.closedEnd < 0 then ResetToBaseline(c, b) else c
  }

  /** One step of the loop at lines 290-296. */
  function ResetOverlongOpen(c: ChannelParam, b: Baselines, h: int): ChannelParam
  {
    if c.openEnd > h then ResetToBaseline(c, b) else c
  }

  /** The three correction passes, channel by channel. */
  function CorrectAll(s: seq<ChannelParam>, b: Baselines, h: int): (r: seq<ChannelParam>)
    requires b.length != 0.0
    ensures |r| == |s|
  {
    seq(|s|, n requires 0 <= n < |s| => ResetOverlongOpen(ResetNegativeClosed(CorrectLength(s[n], b), b), b, h))
  }

  /** After the passes the list has its old length and peak order, and every closed
      end is at least 0 (as long as the closed-end baseline is). */
  lemma CorrectAllKeepsPeaks(s: seq<ChannelParam>, b: Baselines, h: int)
    requires b.length != 0.0 && b.closed >= 0
    ensures |CorrectAll(s, b, h)| == |s|
    ensures forall n :: 0 <= n < |s| ==> CorrectAll(s, b, h)[n].peak == s[n].peak
    ensures forall n :: 0 <= n < |s| ==> CorrectAll(s, b, h)[n].closedEnd >= 0
    ensures forall n :: 0 <= n < |s| ==> CorrectAll(s, b, h)[n].openEnd <= Max(h, b.open)
  {
  }

  method CorrectLengths(a: array<ChannelParam>, b: Baselines)
    requires b.length != 0.0
    modifies a
    ensures forall n :: 0 <= n < a.Length ==> a[n] == CorrectLength(old(a[n]), b)
  {
    for n := 0 to a.Length
      invariant forall k :: 0 <= k < n ==> a[k] == CorrectLength(old(a[k]), b)
      invariant forall k :: n <= k < a.Length ==> a[k] == old(a[k])
    {
      if LengthDeviates(a[n].length, b.length) {
        if Abs(a[n].closedEnd - b.closed) < Abs(a[n].openEnd - b.open) {
          a[n] := a[n].(openEnd := a[n].closedEnd + Trunc(b.length));
        } else {
          a[n] := a[n].(closedEnd := a[n].openEnd - Trunc(b.length));
        }
        a[n] := a[n].(length := Abs(a[n].closedEnd - a[n].openEnd));
      }
    }
  }

  method ResetNegativeClosedEnds(a: array<ChannelParam>, b: Baselines)
    modifies a
    ensures forall n :: 0 <= n < a.Length ==> a[n] == ResetNegativeClosed(old(a[n]), b)
  {
    for n := 0 to a.Length
      invariant forall k :: 0 <= k < n ==> a[k] == ResetNegativeClosed(old(a[k]), b)
      invariant forall k :: n <= k < a.Length ==> a[k] == old(a[k])
    {
      if a[n].closedEnd < 0 {
        a[n] := a[n].(closedEnd := b.closed);
        a[n] := a[n].(openEnd := b.open);
        a[n] := a[n].(length := Abs(a[n].closedEnd - a[n].openEnd));
      }
    }
  }

  method ResetOverlongOpenEnds(a: array<ChannelParam>, b: Baselines, h: int)
    modifies a
    ensures forall n :: 0 <= n < a.Length ==> a[n] == ResetOverlongOpen(old(a[n]), b, h)
  {
    for n := 0 to a.Length
      invariant forall k :: 0 <= k < n ==> a[k] == ResetOverlongOpen(old(a[k]), b, h)
      invariant forall k :: n <= k < a.Length ==> a[k] == old(a[k])
    {
      if a[n].openEnd > h {
        a[n] := a[n].(closedEnd := b.closed);
        a[n] := a[n].(openEnd := b.open);
        a[n] := a[n].(length := Abs(a[n].closedEnd - a[n].openEnd));
      }
    }
  }

  // ---------------------------------------------------------------------------
  // The result map (lines 299-300)

  function EndsOf(c: ChannelParam): ChannelEnds { ChannelEnds(c.closedEnd, c.openEnd) }

  /** `{cp[0]: {...} for cp in channel_params}`: a later entry for the same peak wins. */
  function ChannelMap(s: seq<ChannelParam>): map<int, ChannelEnds>
  {
    if |s| == 0 then map[] else ChannelMap(s[..|s| - 1])[s[|s| - 1].peak := EndsOf(s[|s| - 1])]
  }

  /** The map's keys are exactly the peaks of the list. */
  lemma {:induction false} ChannelMapKeys(s: seq<ChannelParam>)
    ensures forall p :: p in ChannelMap(s) <==> exists n :: 0 <= n < |s| && s[n].peak == p
  {
    if |s| > 0 {
      var init, last := s[..|s| - 1], |s| - 1;
      ChannelMapKeys(init);
      forall p | p in ChannelMap(s) ensures exists n :: 0 <= n < |s| && s[n].peak == p {
        if p != s[last].peak {
          assert p in ChannelMap(init);
          var n :| 0 <= n < |init| && init[n].peak == p;
          assert s[n].peak == p;
        }
      }
      forall p | exists n :: 0 <= n < |s| && s[n].peak == p ensures p in ChannelMap(s) {
        var n :| 0 <= n < |s| && s[n].peak == p;
        if n < last {
          assert init[n].peak == p;
        }
      }
    }
  }

  /** Every value of the map is the ends of an entry carrying that key. */
  lemma {:induction false} ChannelMapValues(s: seq<ChannelParam>)
    ensures forall p :: p in ChannelMap(s) ==>
      exists n :: 0 <= n < |s| && s[n].peak == p && ChannelMap(s)[p] == EndsOf(s[n])
  {
    if |s| > 0 {
      var init, last := s[..|s| - 1], |s| - 1;
      ChannelMapValues(init);
      forall p | p in ChannelMap(s)
        ensures exists n :: 0 <= n < |s| && s[n].peak == p && ChannelMap(s)[p] == EndsOf(s[n])
      {
        if p != s[last].peak {
          var n :| 0 <= n < |init| && init[n].peak == p && ChannelMap(init)[p] == EndsOf(init[n]);
          assert s[n] == init[n];
        }
      }
    }
  }

  /** An entry whose peak no later entry repeats is the one the map keeps. */
  lemma {:induction false} ChannelMapLastWins(s: seq<ChannelParam>, n: nat)
    requires n < |s|
    requires forall k :: n < k < |s| ==> s[k].peak != s[n].peak
    ensures s[n].peak in ChannelMap(s) && ChannelMap(s)[s[n].peak] == EndsOf(s[n])
  {
    if n < |s| - 1 {
      var init := s[..|s| - 1];
      ChannelMapLastWins(init, n);
    }
  }

  /** The dictionary comprehension as a loop over the corrected list. */
  method BuildChannelMap(s: seq<ChannelParam>) returns (channels: map<int, ChannelEnds>)
    ensures channels == ChannelMap(s)
  {
    channels := map[];
    for n := 0 to |s|
      invariant channels == ChannelMap(s[..n])
    {
      assert s[..n + 1][..n] == s[..n];
      channels := channels[s[n].peak := EndsOf(s[n])];
    }
    assert s[..|s|] == s;
  }

  // ---------------------------------------------------------------------------
  // The whole channel-finding block

  /** What get_tif_params computes for the channels of one frame. */
  function ChannelDetection(image: Plane, peaks: seq<int>, sep: int, chw: int): Detection
  {
    var measured := MeasuredChannels(image, peaks, sep, chw);
    if measured.None? then AnalyzeFailed
    else
      var baselines := SelectBaselines(measured.value);
      if baselines.None? then NoBaseline
      // float division by a zero len_baseline raises ZeroDivisionError
      else if baselines.value.length == 0.0 then AnalyzeFailed
      else Detected(ChannelMap(CorrectAll(measured.value, baselines.value, |image|)))
  }

  /** The three correction passes run in place on a copy of the list. */
  method ApplyCorrections(params: seq<ChannelParam>, b: Baselines, h: int) returns (fixed: seq<ChannelParam>)
    requires b.length != 0.0
    ensures fixed == CorrectAll(params, b, h)
  {
    var a := new ChannelParam[|params|](n requires 0 <= n < |params| => params[n]);
    CorrectLengths(a, b);
    ResetNegativeClosedEnds(a, b);
    ResetOverlongOpenEnds(a, b, h);
    fixed := a[..];
  }

  method FindChannels(image: Plane, peaks: seq<int>, sep: int, chw: int) returns (r: Detection)
    ensures r == ChannelDetection(image, peaks, sep, chw)
  {
    var h := |image|;
    var trimmed := TrimEdgePeaks(peaks, sep, h);
    if trimmed.None? {
      return AnalyzeFailed;
    }
    var profile := RowProfile(image);
    var ends := GlobalEnds(profile);
    if ends.None? {
      return AnalyzeFailed;
    }
    GlobalWindowsFit(profile);
    var params := MeasureChannels(image, trimmed.value, chw, SearchWindows(ends.value.0, ends.value.1, h));
    assert MeasuredChannels(image, peaks, sep, chw) == Some(params);
    var baselines := SelectBaselines(params);
    if baselines.None? {
      return NoBaseline;
    }
    var b := baselines.value;
    if b.length == 0.0 {
      return AnalyzeFailed;
    }
    var fixed := ApplyCorrections(params, b, h);
    var channels := BuildChannelMap(fixed);
    r := Detected(channels);
  }

  // ---------------------------------------------------------------------------
  // Properties of the detected channels

  /** One measured channel through the three passes ends inside [0, h]. */
  lemma CorrectedChannelWithin(c: ChannelParam, b: Baselines, h: int)
    requires EndsWithin(c, 0, h - 2)
    requires 0 <= b.closed <= h - 2 && 0 <= b.open <= h - 2 && b.length > 0.0
    ensures EndsWithin(ResetOverlongOpen(ResetNegativeClosed(CorrectLength(c, b), b), b, h), 0, h)
  {
    CorrectLengthSpec(c, b);
  }

  /** Every channel get_tif_params reports has both ends inside the frame:
      0 <= closed end <= height and 0 <= open end <= height. */
  lemma DetectedChannelsInsideFrame(image: Plane, peaks: seq<int>, sep: int, chw: int)
    ensures var r := ChannelDetection(image, peaks, sep, chw);
      r.Detected? ==> forall p :: p in r.channels ==>
        0 <= r.channels[p].closedEnd <= |image| && 0 <= r.channels[p].openEnd <= |image|
  {
    var r := ChannelDetection(image, peaks, sep, chw);
    if r.Detected? {
      var h := |image|;
      var params := MeasuredChannels(image, peaks, sep, chw).value;
      DetectionParts(image, peaks, sep, chw);
      var b := SelectBaselines(params).value;
      assert forall n :: 0 <= n < |params| ==> EndsWithin(params[n], 0, h - 2) && 0 <= params[n].length <= h - 2;
      BaselinesWithin(params, h);
      CorrectedMapWithin(params, b, h);
    }
  }

  /** What a detection is made of: the measured records, their baselines, and the
      map of the corrected records. */
  lemma DetectionParts(image: Plane, peaks: seq<int>, sep: int, chw: int)
    ensures var r := ChannelDetection(image, peaks, sep, chw);
      r.Detected? ==>
        var m := MeasuredChannels(image, peaks, sep, chw);
        && m.Some? && SelectBaselines(m.value).Some? && SelectBaselines(m.value).value.length != 0.0
        && r.channels == ChannelMap(CorrectAll(m.value, SelectBaselines(m.value).value, |image|))
  {
  }

  /** Baselines of records measured inside [0, h-2] lie there too. */
  lemma BaselinesWithin(s: seq<ChannelParam>, h: int)
    requires forall n :: 0 <= n < |s| ==> EndsWithin(s[n], 0, h - 2) && 0 <= s[n].length <= h - 2
    ensures SelectBaselines(s).Some? ==>
      var b := SelectBaselines(s).value;
      0 <= b.closed <= h - 2 && 0 <= b.open <= h - 2 && 0.0 <= b.length
  {
    if SelectBaselines(s).Some? {
      EndBaselineWithin(ClosedEnds(s), 0, h - 2);
      EndBaselineWithin(OpenEnds(s), 0, h - 2);
      LengthBaselineWithin(Lengths(s), 0, h - 2);
    }
  }

  /** Corrected records whose measured ends lie in [0, h-2] give a map whose ends
      lie in [0, h]. */
  lemma CorrectedMapWithin(s: seq<ChannelParam>, b: Baselines, h: int)
    requires forall n :: 0 <= n < |s| ==> EndsWithin(s[n], 0, h - 2)
    requires 0 <= b.closed <= h - 2 && 0 <= b.open <= h - 2 && b.length > 0.0
    ensures forall p :: p in ChannelMap(CorrectAll(s, b, h)) ==>
      0 <= ChannelMap(CorrectAll(s, b, h))[p].closedEnd <= h && 0 <= ChannelMap(CorrectAll(s, b, h))[p].openEnd <= h
  {
    var fixed := CorrectAll(s, b, h);
    forall n | 0 <= n < |fixed| ensures EndsWithin(fixed[n], 0, h) {
      CorrectedChannelWithin(s[n], b, h);
    }
    ChannelMapValues(fixed);
  }

  /** A map built from records carrying the given peaks has those peaks as keys. */
  lemma ChannelMapKeysOfPeaks(s: seq<ChannelParam>, peaks: seq<int>)
    requires |s| == |peaks| && forall n :: 0 <= n < |s| ==> s[n].peak == peaks[n]
    ensures forall p :: p in ChannelMap(s) <==> p in peaks
  {
    ChannelMapKeys(s);
    forall p | p in peaks ensures p in ChannelMap(s) {
      var n :| 0 <= n < |peaks| && peaks[n] == p;
      assert s[n].peak == p;
    }
  }

  /** The corrections leave the map's keys the peaks of the measured list. */
  lemma CorrectedChannelIds(s: seq<ChannelParam>, b: Baselines, h: int, peaks: seq<int>)
    requires b.length != 0.0 && b.closed >= 0
    requires |s| == |peaks| && forall n :: 0 <= n < |s| ==> s[n].peak == peaks[n]
    ensures forall p :: p in ChannelMap(CorrectAll(s, b, h)) <==> p in peaks
  {
    CorrectAllKeepsPeaks(s, b, h);
    ChannelMapKeysOfPeaks(CorrectAll(s, b, h), peaks);
  }

  /** The channel ids reported are exactly the peaks that survive edge trimming. */
  lemma DetectedChannelIds(image: Plane, peaks: seq<int>, sep: int, chw: int)
    ensures var r := ChannelDetection(image, peaks, sep, chw);
      r.Detected? ==>
        (TrimEdgePeaks(peaks, sep, |image|).Some? &&
         forall p :: p in r.channels <==> p in TrimEdgePeaks(peaks, sep, |image|).value)
  {
    var r := ChannelDetection(image, peaks, sep, chw);
    if r.Detected? {
      var h := |image|;
      var params := MeasuredChannels(image, peaks, sep, chw).value;
      var b := SelectBaselines(params).value;
      var fixed := CorrectAll(params, b, h);
      var kept := TrimEdgePeaks(peaks, sep, h).value;
      assert r.channels == ChannelMap(fixed);
      assert forall n :: 0 <= n < |kept| ==> params[n].peak == kept[n];
      CorrectedChannelIds(params, b, h, kept);
    }
  }
}
