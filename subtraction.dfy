/** The integer skeleton of subtract_phase: the edge padding that brings the empty
    channel to the channel's size, the pad-shift-crop that aligns the channel with
    the empty, the zero-plane stacking of the empty, the phase-plane subtraction
    with its zero-level reset, and the extra trailing phase plane; plus the
    plane-name rotation subtract_backlog applies to label that output.

    The template-match position (x, y) and the intensity rescaling of the empty
    (a division by a floating-point histogram peak and a uint16 cast, applied
    pixel by pixel) are inputs. */
module Subtraction {
  import opened Common
  import opened Images

  /** start_padding: 25 pixels on every side. */
  const StartPadding: nat := 25

  /** matching_length: always 180 (the name is read before it is bound, and the
      handler that catches the failure sets it). */
  const MatchingLength: nat := 180

  const SubtractedPhaseName: string := "subtracted_phase"

  /** The output of subtract_phase: the subtracted stack and the offset (x, y). */
  datatype Subtracted = Subtracted(image: Stack, offset: (int, int))

  // ---------------------------------------------------------------------------
  // Template matching: only the extent of its result matters here

  /** The shape of match_template(padded_empty[:matching_length + 50],
      channel[:matching_length, :, 0]) for an h x w channel: it is always 51 x 51,
      so the argmax position satisfies 0 <= x, y <= 2 * StartPadding. */
  function MatchResultShape(h: nat, w: nat): (s: (int, int))
    ensures s == (2 * StartPadding + 1, 2 * StartPadding + 1)
  {
    var imageRows := Min(MatchingLength + 2 * StartPadding, h + 2 * StartPadding);
    var templateRows := Min(MatchingLength, h);
    (imageRows - templateRows + 1, (w + 2 * StartPadding) - w + 1)
  }

  // ---------------------------------------------------------------------------
  // Plane helpers

  /** `m[25:-25, 25:-25]` */
  function CropPadding(m: Plane): Plane
  {
    var rows := PySlice(m, StartPadding, -(StartPadding as int));
    seq(|rows|, i requires 0 <= i < |rows| => PySlice(rows[i], StartPadding, -(StartPadding as int)))
  }

  /** Cropping StartPadding from every side of an (h + 50) x (w + 50) plane. */
  lemma CropPaddingPixels(m: Plane, h: nat, w: nat)
    requires h > 0 && w > 0 && IsMatrix(m, h + 2 * StartPadding, w + 2 * StartPadding)
    ensures IsMatrix(CropPadding(m), h, w)
    ensures forall i, j :: 0 <= i < h && 0 <= j < w ==> CropPadding(m)[i][j] == m[i + StartPadding][j + StartPadding]
  {
    var rows := PySlice(m, StartPadding, -(StartPadding as int));
    assert rows == m[StartPadding..h + StartPadding];
    forall i | 0 <= i < h
      ensures CropPadding(m)[i] == rows[i][StartPadding..w + StartPadding]
    {
      assert |rows[i]| == w + 2 * StartPadding;
    }
  }

  /** A channel plane aligned with the empty: numpy.pad edge mode with (y, 50 - y)
      rows and (x, 50 - x) columns, then the 25-pixel crop. */
  function ShiftChannel(m: Plane, x: int, y: int): (r: Plane)
    requires |m| > 0 && Width(m) > 0 && Rectangular(m)
    requires 0 <= x <= 2 * StartPadding && 0 <= y <= 2 * StartPadding
    ensures IsMatrix(r, |m|, Width(m))
  {
    var padded := EdgePad(m, y, 2 * StartPadding - y, x, 2 * StartPadding - x);
    CropPaddingPixels(padded, |m|, Width(m));
    CropPadding(padded)
  }

  /** Pixel (i, j) of the aligned plane shows the channel at (i + 25 - y, j + 25 - x),
      clamped to its edges. */
  lemma ShiftChannelPixels(m: Plane, x: int, y: int)
    requires |m| > 0 && Width(m) > 0 && Rectangular(m)
    requires 0 <= x <= 2 * StartPadding && 0 <= y <= 2 * StartPadding
    ensures forall i, j :: 0 <= i < |m| && 0 <= j < Width(m) ==>
      ShiftChannel(m, x, y)[i][j] == m[Clamp(i + StartPadding - y, |m|)][Clamp(j + StartPadding - x, Width(m))]
  {
    var padded := EdgePad(m, y, 2 * StartPadding - y, x, 2 * StartPadding - x);
    CropPaddingPixels(padded, |m|, Width(m));
  }

  /** A zero offset leaves the channel as it is. */
  lemma ShiftChannelCentred(m: Plane)
    requires |m| > 0 && Width(m) > 0 && Rectangular(m)
    ensures ShiftChannel(m, StartPadding, StartPadding) == m
  {
    var r := ShiftChannel(m, StartPadding, StartPadding);
    ShiftChannelPixels(m, StartPadding, StartPadding);
    forall i | 0 <= i < |m| ensures r[i] == m[i] {
      assert |r[i]| == |m[i]|;
    }
  }

  /** The empty, edge padded by 25 on top and left and by 25 plus the size
      difference on the bottom and right: the same size as the padded channel. */
  function PaddedEmpty(empty: Plane, h: nat, w: nat): (r: Plane)
    requires |empty| > 0 && Width(empty) > 0 && Rectangular(empty)
    requires |empty| <= h + StartPadding && Width(empty) <= w + StartPadding
    ensures IsMatrix(r, h + 2 * StartPadding, w + 2 * StartPadding)
  {
    EdgePad(empty, StartPadding, StartPadding + h - |empty|, StartPadding, StartPadding + w - Width(empty))
  }

  /** `f` applied to every pixel. */
  function Rescale(m: Plane, f: int -> int): (r: Plane)
    ensures |r| == |m| && forall i :: 0 <= i < |m| ==> |r[i]| == |m[i]|
    ensures forall i, j :: 0 <= i < |m| && 0 <= j < |m[i]| ==> r[i][j] == f(m[i][j])
  {
    seq(|m|, i requires 0 <= i < |m| => seq(|m[i]|, j requires 0 <= j < |m[i]| => f(m[i][j])))
  }

  /** empty_for_sub: the cropped padded empty, rescaled. */
  function EmptyForSub(empty: Plane, h: nat, w: nat, rescale: int -> int): (r: Plane)
    requires |empty| > 0 && Width(empty) > 0 && Rectangular(empty)
    requires h > 0 && w > 0 && |empty| <= h + StartPadding && Width(empty) <= w + StartPadding
    ensures IsMatrix(r, h, w)
  {
    var padded := PaddedEmpty(empty, h, w);
    CropPaddingPixels(padded, h, w);
    Rescale(CropPadding(padded), rescale)
  }

  /** The padding and the crop cancel: empty_for_sub is the rescaled empty
      stretched to the channel's h x w by repeating its last row and column. */
  lemma EmptyForSubPixels(empty: Plane, h: nat, w: nat, rescale: int -> int)
    requires |empty| > 0 && Width(empty) > 0 && Rectangular(empty)
    requires h > 0 && w > 0 && |empty| <= h + StartPadding && Width(empty) <= w + StartPadding
    ensures forall i, j :: 0 <= i < h && 0 <= j < w ==>
      EmptyForSub(empty, h, w, rescale)[i][j] == rescale(empty[Clamp(i, |empty|)][Clamp(j, Width(empty))])
  {
    var padded := PaddedEmpty(empty, h, w);
    CropPaddingPixels(padded, h, w);
  }

  function ZeroPlane(h: nat, w: nat): (r: Plane)
    ensures IsMatrix(r, h, w) && forall i, j :: 0 <= i < h && 0 <= j < w ==> r[i][j] == 0
  {
    seq(h, i => seq(w, j => 0))
  }

  /** The empty stack after the dstack loop: the empty, then a zero plane for each
      further plane of the channel. */
  function EmptyStack(emptyForSub: Plane, planes: nat, h: nat, w: nat): (r: Stack)
    requires planes > 0
    ensures |r| == planes && r[0] == emptyForSub
    ensures forall p :: 1 <= p < planes ==> r[p] == ZeroPlane(h, w)
  {
    [emptyForSub] + seq(planes - 1, p => ZeroPlane(h, w))
  }

  predicate SameShape(a: Plane, b: Plane)
  {
    |a| == |b| && forall i :: 0 <= i < |a| ==> |a[i]| == |b[i]|
  }

  /** Pixelwise a - b. */
  function Difference(a: Plane, b: Plane): (r: Plane)
    requires SameShape(a, b)
    ensures SameShape(r, a)
    ensures forall i, j :: 0 <= i < |a| && 0 <= j < |a[i]| ==> r[i][j] == a[i][j] - b[i][j]
  {
    seq(|a|, i requires 0 <= i < |a| => seq(|a[i]|, j requires 0 <= j < |a[i]| => a[i][j] - b[i][j]))
  }

  predicate NonEmptyRows(m: Plane)
  {
    |m| > 0 && forall i :: 0 <= i < |m| ==> |m[i]| > 0
  }

  function RowMin(r: seq<int>): (v: int)
    requires |r| > 0
    ensures exists j :: 0 <= j < |r| && r[j] == v
    ensures forall j :: 0 <= j < |r| ==> v <= r[j]
  {
    if |r| == 1 then r[0]
    else
      var v' := RowMin(r[..|r| - 1]);
      if r[|r| - 1] < v' then r[|r| - 1] else v'
  }

  /** np.min of a plane: a pixel value no pixel lies below. */
  function MatrixMin(m: Plane): (v: int)
    requires NonEmptyRows(m)
    ensures exists i, j :: 0 <= i < |m| && 0 <= j < |m[i]| && m[i][j] == v
    ensures forall i, j :: 0 <= i < |m| && 0 <= j < |m[i]| ==> v <= m[i][j]
  {
    var last := RowMin(m[|m| - 1]);
    if |m| == 1 then last
    else
      var v' := MatrixMin(m[..|m| - 1]);
      if last < v' then last else v'
  }

  /** The phase plane after `*= -1`, `-= np.min(...)` and `+= 1`. */
  function ResetZeroLevel(d: Plane): (r: Plane)
    requires NonEmptyRows(d)
    ensures SameShape(r, d)
  {
    var lo := MatrixMin(Negate(d));
    seq(|d|, i requires 0 <= i < |d| => seq(|d[i]|, j requires 0 <= j < |d[i]| => -d[i][j] - lo + 1))
  }

  function Negate(d: Plane): (r: Plane)
    ensures SameShape(r, d)
    ensures forall i, j :: 0 <= i < |d| && 0 <= j < |d[i]| ==> r[i][j] == -d[i][j]
  {
    seq(|d|, i requires 0 <= i < |d| => seq(|d[i]|, j requires 0 <= j < |d[i]| => -d[i][j]))
  }

  /** `out` is `e - c` moved up by a constant so that its smallest pixel is
      exactly 1: every pixel is at least 1 and one pixel equals 1. */
  predicate IsZeroLevelReset(out: Plane, c: Plane, e: Plane)
  {
    && SameShape(out, c) && SameShape(out, e) && NonEmptyRows(out)
    && (forall i, j :: 0 <= i < |out| && 0 <= j < |out[i]| ==> out[i][j] >= 1)
    && (exists i, j :: 0 <= i < |out| && 0 <= j < |out[i]| && out[i][j] == 1)
    && (forall i, j :: 0 <= i < |out| && 0 <= j < |out[i]| ==>
          out[i][j] - (e[i][j] - c[i][j]) == out[0][0] - (e[0][0] - c[0][0]))
  }

  /** Negating c - e, subtracting its minimum and adding 1 is such a reset. */
  lemma ResetZeroLevelSpec(c: Plane, e: Plane)
    requires SameShape(c, e) && NonEmptyRows(c)
    ensures IsZeroLevelReset(ResetZeroLevel(Difference(c, e)), c, e)
  {
    var d := Difference(c, e);
    var r := ResetZeroLevel(d);
    var n := Negate(d);
    var lo := MatrixMin(n);
    var i, j :| 0 <= i < |n| && 0 <= j < |n[i]| && n[i][j] == lo;
    assert r[i][j] == 1;
  }

  predicate AllWithin(m: Plane, lo: int, hi: int)
  {
    forall i, j :: 0 <= i < |m| && 0 <= j < |m[i]| ==> lo <= m[i][j] < hi
  }

  /** With c and e inside [0, hi), a zero-level reset lies inside [1, 2 * hi). */
  lemma ZeroLevelResetWithin(out: Plane, c: Plane, e: Plane, hi: int)
    requires IsZeroLevelReset(out, c, e) && AllWithin(c, 0, hi) && AllWithin(e, 0, hi)
    ensures AllWithin(out, 1, 2 * hi)
  {
    var k, l :| 0 <= k < |out| && 0 <= l < |out[k]| && out[k][l] == 1;
    forall i, j | 0 <= i < |out| && 0 <= j < |out[i]| ensures out[i][j] < 2 * hi {
      assert out[i][j] - (e[i][j] - c[i][j]) == out[k][l] - (e[k][l] - c[k][l]);
    }
  }

  // ---------------------------------------------------------------------------
  // subtract_phase

  /** The conditions under which subtract_phase raises instead of returning:
      an empty axis cannot be edge padded, a missing phase plane cannot be
      indexed, and an empty taller or wider than the channel by more than 25
      pixels asks numpy.pad for a negative width. */
  predicate SubtractionFails(channel: Stack, empty: Plane)
  {
    var P, H, W := |channel|, Height(channel), StackWidth(channel);
    P == 0 || H == 0 || W == 0 || |empty| == 0 || Width(empty) == 0
    || H - |empty| + StartPadding < 0 || W - Width(empty) + StartPadding < 0
  }

  /** channel_for_sub: every plane of the channel aligned with the empty. */
  function ChannelForSub(channel: Stack, x: int, y: int): (r: Stack)
    requires IsBox(channel) && |channel| > 0 && Height(channel) > 0 && StackWidth(channel) > 0
    requires 0 <= x <= 2 * StartPadding && 0 <= y <= 2 * StartPadding
    ensures IsStack(r, |channel|, Height(channel), StackWidth(channel))
    ensures forall p :: 0 <= p < |channel| ==> r[p] == ShiftChannel(channel[p], x, y)
  {
    var P := |channel|;
    assert forall p :: 0 <= p < P ==> IsMatrix(channel[p], Height(channel), StackWidth(channel));
    seq(P, p requires 0 <= p < P => ShiftChannel(channel[p], x, y))
  }

  /** Planewise difference of two stacks of h x w planes. */
  function SubtractStacks(c: Stack, e: Stack, h: nat, w: nat): (r: Stack)
    requires |c| == |e| && IsStack(c, |c|, h, w) && IsStack(e, |c|, h, w)
    ensures IsStack(r, |c|, h, w)
    ensures forall p :: 0 <= p < |c| ==> r[p] == Difference(c[p], e[p])
  {
    seq(|c|, p requires 0 <= p < |c| => Difference(c[p], e[p]))
  }

  /** What subtract_phase returns for the channel stack, the empty plane, the
      template-match position (x, y) and the pixelwise rescaling of the empty. */
  function SubtractPhaseSpec(channel: Stack, empty: Plane, x: int, y: int, rescale: int -> int): (r: Option<Subtracted>)
    requires IsBox(channel) && Rectangular(empty)
    requires 0 <= x <= 2 * StartPadding && 0 <= y <= 2 * StartPadding
    ensures r.None? <==> SubtractionFails(channel, empty)
    ensures r.Some? ==> |r.value.image| == |channel| + 1
  {
    if SubtractionFails(channel, empty) then None
    else
      var P, H, W := |channel|, Height(channel), StackWidth(channel);
      var channelForSub := ChannelForSub(channel, x, y);
      var emptyStack := EmptyStack(EmptyForSub(empty, H, W, rescale), P, H, W);
      var diff := SubtractStacks(channelForSub, emptyStack, H, W);
      Some(Subtracted([ResetZeroLevel(diff[0])] + diff[1..] + [channelForSub[0]],
                      (x - StartPadding, y - StartPadding)))
  }

  /** The dstack loop of lines 638-640. */
  method StackEmpty(emptyForSub: Plane, planes: nat, h: nat, w: nat) returns (stack: Stack)
    requires planes > 0
    ensures stack == EmptyStack(emptyForSub, planes, h, w)
  {
    stack := [emptyForSub];
    for color := 1 to planes
      invariant |stack| == color && stack[0] == emptyForSub
      invariant forall p :: 1 <= p < color ==> stack[p] == ZeroPlane(h, w)
    {
      stack := stack + [ZeroPlane(h, w)];
    }
  }

  method NegateInPlace(a: array2<int>)
    modifies a
    ensures forall i, j :: 0 <= i < a.Length0 && 0 <= j < a.Length1 ==> a[i, j] == -old(a[i, j])
  {
    for i := 0 to a.Length0
      invariant forall k, l :: 0 <= k < i && 0 <= l < a.Length1 ==> a[k, l] == -old(a[k, l])
      invariant forall k, l :: i <= k < a.Length0 && 0 <= l < a.Length1 ==> a[k, l] == old(a[k, l])
    {
      for j := 0 to a.Length1
        invariant forall k, l :: 0 <= k < i && 0 <= l < a.Length1 ==> a[k, l] == -old(a[k, l])
        invariant forall l :: 0 <= l < j ==> a[i, l] == -old(a[i, l])
        invariant forall k, l :: i <= k < a.Length0 && 0 <= l < a.Length1 && (k > i || l >= j) ==> a[k, l] == old(a[k, l])
      {
        a[i, j] := -a[i, j];
      }
    }
  }

  method AddInPlace(a: array2<int>, c: int)
    modifies a
    ensures forall i, j :: 0 <= i < a.Length0 && 0 <= j < a.Length1 ==> a[i, j] == old(a[i, j]) + c
  {
    for i := 0 to a.Length0
      invariant forall k, l :: 0 <= k < i && 0 <= l < a.Length1 ==> a[k, l] == old(a[k, l]) + c
      invariant forall k, l :: i <= k < a.Length0 && 0 <= l < a.Length1 ==> a[k, l] == old(a[k, l])
    {
      for j := 0 to a.Length1
        invariant forall k, l :: 0 <= k < i && 0 <= l < a.Length1 ==> a[k, l] == old(a[k, l]) + c
        invariant forall l :: 0 <= l < j ==> a[i, l] == old(a[i, l]) + c
        invariant forall k, l :: i <= k < a.Length0 && 0 <= l < a.Length1 && (k > i || l >= j) ==> a[k, l] == old(a[k, l])
      {
        a[i, j] := a[i, j] + c;
      }
    }
  }

  /** np.min over a non-empty 2-D array. */
  method ArrayMin(a: array2<int>) returns (m: int)
    requires a.Length0 > 0 && a.Length1 > 0
    ensures exists i, j :: 0 <= i < a.Length0 && 0 <= j < a.Length1 && a[i, j] == m
    ensures forall i, j :: 0 <= i < a.Length0 && 0 <= j < a.Length1 ==> m <= a[i, j]
  {
    m := a[0, 0];
    ghost var wi, wj := 0, 0;
    for i := 0 to a.Length0
      invariant 0 <= wi < a.Length0 && 0 <= wj < a.Length1 && a[wi, wj] == m
      invariant forall k, l :: 0 <= k < i && 0 <= l < a.Length1 ==> m <= a[k, l]
      invariant i == 0 ==> m == a[0, 0]
    {
      for j := 0 to a.Length1
        invariant 0 <= wi < a.Length0 && 0 <= wj < a.Length1 && a[wi, wj] == m
        invariant forall k, l :: 0 <= k < i && 0 <= l < a.Length1 ==> m <= a[k, l]
        invariant forall l :: 0 <= l < j ==> m <= a[i, l]
      {
        if a[i, j] < m {
          m := a[i, j];
          wi, wj := i, j;
        }
      }
    }
  }

  /** Lines 646-650 on a copy of the phase plane held in a 2-D array. */
  method ResetPhaseZeroLevel(d: Plane, h: nat, w: nat) returns (plane: Plane)
    requires h > 0 && w > 0 && IsMatrix(d, h, w)
    ensures plane == ResetZeroLevel(d)
  {
    var a := new int[h, w]((i, j) requires 0 <= i < h && 0 <= j < w => d[i][j]);
    NegateInPlace(a);
    assert forall i, j :: 0 <= i < h && 0 <= j < w ==> a[i, j] == -d[i][j];
    ghost var n := Negate(d);
    assert forall i, j :: 0 <= i < h && 0 <= j < w ==> a[i, j] == n[i][j];
    var lo := ArrayMin(a);
    ArrayMinIsMatrixMin(a, n, lo);
    AddInPlace(a, -lo);
    assert forall i, j :: 0 <= i < h && 0 <= j < w ==> a[i, j] == -d[i][j] - lo;
    AddInPlace(a, 1);
    assert forall i, j :: 0 <= i < h && 0 <= j < w ==> a[i, j] == -d[i][j] - lo + 1;
    plane := ReadPlane(a);
    ResetFromPixels(plane, d, lo, h, w);
  }

  lemma ResetFromPixels(plane: Plane, d: Plane, lo: int, h: nat, w: nat)
    requires h > 0 && w > 0 && IsMatrix(d, h, w) && IsMatrix(plane, h, w)
    requires lo == MatrixMin(Negate(d))
    requires forall i, j :: 0 <= i < h && 0 <= j < w ==> plane[i][j] == -d[i][j] - lo + 1
    ensures plane == ResetZeroLevel(d)
  {
    var target := ResetZeroLevel(d);
    assert forall i, j :: 0 <= i < h && 0 <= j < w ==> plane[i][j] == target[i][j];
    PlanesEqual(plane, target, h, w);
  }

  /** The smallest entry of an array holding the pixels of m is MatrixMin(m). */
  lemma ArrayMinIsMatrixMin(a: array2<int>, m: Plane, lo: int)
    requires a.Length0 > 0 && a.Length1 > 0 && IsMatrix(m, a.Length0, a.Length1)
    requires forall i, j :: 0 <= i < a.Length0 && 0 <= j < a.Length1 ==> a[i, j] == m[i][j]
    requires exists i, j :: 0 <= i < a.Length0 && 0 <= j < a.Length1 && a[i, j] == lo
    requires forall i, j :: 0 <= i < a.Length0 && 0 <= j < a.Length1 ==> lo <= a[i, j]
    ensures lo == MatrixMin(m)
  {
    var i, j :| 0 <= i < a.Length0 && 0 <= j < a.Length1 && a[i, j] == lo;
    var k, l :| 0 <= k < |m| && 0 <= l < |m[k]| && m[k][l] == MatrixMin(m);
    assert MatrixMin(m) <= m[i][j] && lo <= a[k, l];
  }

  /** The contents of a 2-D array as a plane. */
  method ReadPlane(a: array2<int>) returns (plane: Plane)
    ensures IsMatrix(plane, a.Length0, a.Length1)
    ensures forall i, j :: 0 <= i < a.Length0 && 0 <= j < a.Length1 ==> plane[i][j] == a[i, j]
  {
    plane := seq(a.Length0, i requires 0 <= i < a.Length0 reads a =>
      seq(a.Length1, j requires 0 <= j < a.Length1 reads a => a[i, j]));
  }

  lemma PlanesEqual(p: Plane, q: Plane, h: nat, w: nat)
    requires IsMatrix(p, h, w) && IsMatrix(q, h, w)
    requires forall i, j :: 0 <= i < h && 0 <= j < w ==> p[i][j] == q[i][j]
    ensures p == q
  {
    forall i | 0 <= i < h ensures p[i] == q[i] {
    }
  }

  method SubtractPhase(channel: Stack, empty: Plane, x: int, y: int, rescale: int -> int) returns (r: Option<Subtracted>)
    requires IsBox(channel) && Rectangular(empty)
    requires 0 <= x <= 2 * StartPadding && 0 <= y <= 2 * StartPadding
    ensures r == SubtractPhaseSpec(channel, empty, x, y, rescale)
  {
    if SubtractionFails(channel, empty) {
      return None;
    }
    var P, H, W := |channel|, Height(channel), StackWidth(channel);
    var emptyForSub := EmptyForSub(empty, H, W, rescale);
    var channelForSub := ChannelForSub(channel, x, y);
    var emptyStack := StackEmpty(emptyForSub, P, H, W);
    var diff := SubtractStacks(channelForSub, emptyStack, H, W);
    var phase := ResetPhaseZeroLevel(diff[0], H, W);
    r := Some(Subtracted([phase] + diff[1..] + [channelForSub[0]], (x - StartPadding, y - StartPadding)));
  }

  // ---------------------------------------------------------------------------
  // Properties of subtract_phase

  /** The planes of a successful result, one by one. */
  lemma SubtractPhaseParts(channel: Stack, empty: Plane, x: int, y: int, rescale: int -> int)
    requires IsBox(channel) && Rectangular(empty)
    requires 0 <= x <= 2 * StartPadding && 0 <= y <= 2 * StartPadding
    requires !SubtractionFails(channel, empty)
    ensures var P, H, W := |channel|, Height(channel), StackWidth(channel);
      var img := SubtractPhaseSpec(channel, empty, x, y, rescale).value.image;
      var c := ChannelForSub(channel, x, y);
      && |img| == P + 1
      && img[0] == ResetZeroLevel(Difference(c[0], EmptyForSub(empty, H, W, rescale)))
      && (forall p :: 1 <= p < P ==> img[p] == Difference(c[p], ZeroPlane(H, W)))
      && img[P] == c[0]
  {
    var P, H, W := |channel|, Height(channel), StackWidth(channel);
    var c := ChannelForSub(channel, x, y);
    var es := EmptyStack(EmptyForSub(empty, H, W, rescale), P, H, W);
    var diff := SubtractStacks(c, es, H, W);
    var img := [ResetZeroLevel(diff[0])] + diff[1..] + [c[0]];
    assert SubtractPhaseSpec(channel, empty, x, y, rescale).value.image == img;
    assert |img| == P + 1 && img[0] == ResetZeroLevel(diff[0]) && img[P] == c[0];
    assert diff[0] == Difference(c[0], es[0]);
    assert forall p :: 1 <= p < P ==> img[p] == diff[p] && es[p] == ZeroPlane(H, W);
  }

  /** On success the output has the channel's height and width and one plane
      more than the channel, and the offset is (x - 25, y - 25). */
  lemma SubtractPhaseShape(channel: Stack, empty: Plane, x: int, y: int, rescale: int -> int)
    requires IsBox(channel) && Rectangular(empty)
    requires 0 <= x <= 2 * StartPadding && 0 <= y <= 2 * StartPadding
    ensures var r := SubtractPhaseSpec(channel, empty, x, y, rescale);
      r.Some? ==>
        && IsStack(r.value.image, |channel| + 1, Height(channel), StackWidth(channel))
        && r.value.offset == (x - StartPadding, y - StartPadding)
  {
    if !SubtractionFails(channel, empty) {
      SubtractPhaseParts(channel, empty, x, y, rescale);
      var P, H, W := |channel|, Height(channel), StackWidth(channel);
      var c := ChannelForSub(channel, x, y);
      var img := SubtractPhaseSpec(channel, empty, x, y, rescale).value.image;
      forall p | 0 <= p < P + 1 ensures IsMatrix(img[p], H, W) {
        if p == 0 {
          assert IsMatrix(c[0], H, W);
        } else if p < P {
          assert IsMatrix(c[p], H, W);
        }
      }
    }
  }

  /** Plane 0 of the output is the rescaled empty minus the aligned phase plane,
      moved up so that its smallest pixel is exactly 1. */
  lemma SubtractPhasePlaneZero(channel: Stack, empty: Plane, x: int, y: int, rescale: int -> int)
    requires IsBox(channel) && Rectangular(empty)
    requires 0 <= x <= 2 * StartPadding && 0 <= y <= 2 * StartPadding
    ensures var r := SubtractPhaseSpec(channel, empty, x, y, rescale);
      r.Some? ==>
        IsZeroLevelReset(r.value.image[0], ShiftChannel(channel[0], x, y),
                         EmptyForSub(empty, Height(channel), StackWidth(channel), rescale))
  {
    if !SubtractionFails(channel, empty) {
      SubtractPhaseParts(channel, empty, x, y, rescale);
      var H, W := Height(channel), StackWidth(channel);
      var c := ChannelForSub(channel, x, y)[0];
      assert IsMatrix(c, H, W);
      ResetZeroLevelSpec(c, EmptyForSub(empty, H, W, rescale));
    }
  }

  /** Planes 1 .. P-1 are the aligned channel planes (their empty planes are zero),
      and the extra last plane is the aligned phase plane. */
  lemma SubtractPhaseOtherPlanes(channel: Stack, empty: Plane, x: int, y: int, rescale: int -> int)
    requires IsBox(channel) && Rectangular(empty)
    requires 0 <= x <= 2 * StartPadding && 0 <= y <= 2 * StartPadding
    ensures var r := SubtractPhaseSpec(channel, empty, x, y, rescale);
      r.Some? ==>
        && (forall p :: 1 <= p < |channel| ==> r.value.image[p] == ShiftChannel(channel[p], x, y))
        && r.value.image[|channel|] == ShiftChannel(channel[0], x, y)
  {
    if !SubtractionFails(channel, empty) {
      SubtractPhaseParts(channel, empty, x, y, rescale);
      var P, H, W := |channel|, Height(channel), StackWidth(channel);
      var cs := ChannelForSub(channel, x, y);
      var img := SubtractPhaseSpec(channel, empty, x, y, rescale).value.image;
      forall p | 1 <= p < P ensures img[p] == ShiftChannel(channel[p], x, y) {
        DifferenceOfZero(cs[p], H, W);
      }
    }
  }

  lemma DifferenceOfZero(m: Plane, h: nat, w: nat)
    requires IsMatrix(m, h, w)
    ensures Difference(m, ZeroPlane(h, w)) == m
  {
    var d := Difference(m, ZeroPlane(h, w));
    forall i | 0 <= i < h ensures d[i] == m[i] {
    }
  }

  /** For uint16 pixels (and a uint16 rescaled empty) the phase plane stays inside
      [1, 2^17), far inside int32, so the int32 arithmetic of the source cannot wrap. */
  lemma SubtractPhaseFitsInt32(channel: Stack, empty: Plane, x: int, y: int, rescale: int -> int)
    requires IsBox(channel) && Rectangular(empty)
    requires 0 <= x <= 2 * StartPadding && 0 <= y <= 2 * StartPadding
    requires forall p :: 0 <= p < |channel| ==> AllWithin(channel[p], 0, 0x1_0000)
    requires forall v :: 0 <= rescale(v) < 0x1_0000
    ensures var r := SubtractPhaseSpec(channel, empty, x, y, rescale);
      r.Some? ==> AllWithin(r.value.image[0], 1, 0x2_0000)
  {
    if !SubtractionFails(channel, empty) {
      var H, W := Height(channel), StackWidth(channel);
      assert IsMatrix(channel[0], H, W);
      var c := ShiftChannel(channel[0], x, y);
      var e := EmptyForSub(empty, H, W, rescale);
      ShiftChannelPixels(channel[0], x, y);
      EmptyForSubPixels(empty, H, W, rescale);
      assert AllWithin(c, 0, 0x1_0000);
      assert AllWithin(e, 0, 0x1_0000);
      SubtractPhasePlaneZero(channel, empty, x, y, rescale);
      ZeroLevelResetWithin(SubtractPhaseSpec(channel, empty, x, y, rescale).value.image[0], c, e, 0x1_0000);
    }
  }

  // ---------------------------------------------------------------------------
  // Plane names of the subtracted stack (subtract_backlog, lines 735-737)

  /** `['subtracted_phase'] + names[1:] + [names[0]]`: the output labels. */
  function RotatedNames(names: seq<string>): (r: seq<string>)
    requires |names| > 0
    ensures |r| == |names| + 1
    ensures r[0] == SubtractedPhaseName && r[|names|] == names[0]
    ensures forall k :: 1 <= k < |names| ==> r[k] == names[k]
  {
    [SubtractedPhaseName] + names[1..] + [names[0]]
  }

  /** pop(0), append, insert(0, ...) on the list of names; pop on an empty list raises. */
  method RotatePlaneNames(names: seq<string>) returns (r: Option<seq<string>>)
    ensures |names| == 0 ==> r.None?
    ensures |names| > 0 ==> r == Some(RotatedNames(names))
  {
    if |names| == 0 {
      return None;
    }
    var list := names;
    var first := list[0];
    list := list[1..];
    list := list + [first];
    list := [SubtractedPhaseName] + list;
    assert list == [SubtractedPhaseName] + names[1..] + [names[0]];
    r := Some(list);
  }

  /** Undoing the rotation gives the original names back. */
  lemma RotatedNamesInverse(names: seq<string>)
    requires |names| > 0
    ensures var r := RotatedNames(names); [r[|r| - 1]] + r[1..|r| - 1] == names
  {
    var r := RotatedNames(names);
    assert r[1..|r| - 1] == names[1..];
  }

  /** The rotated labels name the output planes: label k (k >= 1) belongs to the
      aligned channel plane it names, and label 0 to the subtracted plane. */
  lemma RotatedNamesLabelPlanes(channel: Stack, empty: Plane, x: int, y: int, rescale: int -> int, names: seq<string>)
    requires IsBox(channel) && Rectangular(empty)
    requires 0 <= x <= 2 * StartPadding && 0 <= y <= 2 * StartPadding
    requires |names| == |channel|
    ensures var r := SubtractPhaseSpec(channel, empty, x, y, rescale);
      r.Some? ==>
        var labels := RotatedNames(names);
        && |labels| == |r.value.image|
        && labels[0] == SubtractedPhaseName
        && forall k :: 1 <= k < |labels| ==>
             var p := if k == |names| then 0 else k;
             labels[k] == names[p] && r.value.image[k] == ShiftChannel(channel[p], x, y)
  {
    SubtractPhaseShape(channel, empty, x, y, rescale);
    SubtractPhaseOtherPlanes(channel, empty, x, y, rescale);
  }
}
