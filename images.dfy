/** Image values and the geometric operations on them: the vertical crop or pad
    applied when a frame is loaded, numpy's edge padding, and cut_slice.

    A plane is a sequence of rows; an image stack is a sequence of planes, all of
    the same height and width (plane-major, whichever axis order NumPy uses). */
module Images {
  import opened Common

  type Plane = seq<seq<int>>
  type Stack = seq<Plane>

  predicate IsMatrix(m: Plane, h: nat, w: nat)
  {
    |m| == h && forall i :: 0 <= i < h ==> |m[i]| == w
  }

  function Width(m: Plane): nat { if |m| == 0 then 0 else |m[0]| }

  predicate Rectangular(m: Plane) { IsMatrix(m, |m|, Width(m)) }

  function Height(s: Stack): nat { if |s| == 0 then 0 else |s[0]| }

  function StackWidth(s: Stack): nat { if |s| == 0 then 0 else Width(s[0]) }

  /** A well-formed NumPy-like array: every plane has the same height and width. */
  predicate IsBox(s: Stack)
  {
    forall p :: 0 <= p < |s| ==> IsMatrix(s[p], Height(s), StackWidth(s))
  }

  predicate IsStack(s: Stack, planes: nat, h: nat, w: nat)
  {
    |s| == planes && forall p :: 0 <= p < planes ==> IsMatrix(s[p], h, w)
  }

  // ---------------------------------------------------------------------------
  // Vertical crop or pad of a freshly loaded frame (image_vertical_crop)

  /** `rows[c:H-c]` for c >= 0; for c < 0, |c| copies of the first row on top and of
      the last row at the bottom (numpy.pad mode 'edge'). */
  function CropRows<T>(rows: seq<T>, c: int): seq<T>
    requires c >= 0 || |rows| > 0
  {
    if c >= 0 then PySlice(rows, c, |rows| - c)
    else seq(|rows| - 2 * c, i requires 0 <= i < |rows| - 2 * c => rows[Clamp(i + c, |rows|)])
  }

  /** How many rows CropRows leaves. */
  function CroppedHeight(h: nat, c: int): nat { Max(0, h - 2 * c) }

  lemma CropRowsShape<T>(rows: seq<T>, c: int)
    requires c >= 0 || |rows| > 0
    ensures |CropRows(rows, c)| == CroppedHeight(|rows|, c)
    ensures |rows| > 0 ==> forall i :: 0 <= i < |CropRows(rows, c)| ==>
      CropRows(rows, c)[i] == rows[Clamp(i + c, |rows|)]
  {
    var h := |rows|;
    if c >= 0 {
      if c <= h && c < h - c {
        assert SliceBound(c, h) == c && SliceBound(h - c, h) == h - c;
      } else if c <= h {
        assert SliceBound(c, h) == c;
      } else {
        assert SliceBound(c, h) == h;
      }
    }
  }

  /** The crop/pad of lines 116-120 applied to every plane of a stack. numpy.pad in
      'edge' mode cannot extend an empty axis, so padding a zero-height stack fails. */
  function CropImage(image: Stack, c: int): (r: Option<Stack>)
    requires IsBox(image)
    ensures r.None? <==> c < 0 && |image| > 0 && Height(image) == 0
    ensures r.Some? ==> IsStack(r.value, |image|, CroppedHeight(Height(image), c), StackWidth(image))
    ensures r.Some? && Height(image) > 0 ==>
      forall p, i :: 0 <= p < |image| && 0 <= i < CroppedHeight(Height(image), c) ==>
        r.value[p][i] == image[p][Clamp(i + c, Height(image))]
  {
    if c < 0 && |image| > 0 && Height(image) == 0 then None
    else
      var out := seq(|image|, p requires 0 <= p < |image| => CropRows(image[p], c));
      forall p | 0 <= p < |image| ensures IsMatrix(out[p], CroppedHeight(Height(image), c), StackWidth(image)) {
        CropRowsShape(image[p], c);
        assert forall i :: 0 <= i < |out[p]| ==> out[p][i] in image[p] by {
          forall i | 0 <= i < |out[p]| ensures out[p][i] in image[p] {
            if Height(image) > 0 { assert out[p][i] == image[p][Clamp(i + c, Height(image))]; }
          }
        }
      }
      forall p | 0 <= p < |image| && Height(image) > 0 { CropRowsShape(image[p], c); }
      Some(out)
  }

  /** Cropping |c| rows off each end undoes padding by |c| rows. */
  lemma {:induction false} CropUndoesPad<T>(rows: seq<T>, p: nat)
    requires |rows| > 0
    ensures CropRows(CropRows(rows, -(p as int)), p) == rows
  {
    var padded := CropRows(rows, -(p as int));
    CropRowsShape(rows, -(p as int));
    CropRowsShape(padded, p);
    var back := CropRows(padded, p);
    assert |back| == |rows|;
    forall i | 0 <= i < |rows| ensures back[i] == rows[i] {
      assert back[i] == padded[i + p];
      assert padded[i + p] == rows[Clamp(i + p - p, |rows|)];
    }
  }

  // ---------------------------------------------------------------------------
  // numpy.pad(m, ((top, bottom), (left, right)), 'edge') on one plane

  function EdgePad(m: Plane, top: nat, bottom: nat, left: nat, right: nat): (r: Plane)
    requires |m| > 0 && Width(m) > 0 && Rectangular(m)
    ensures IsMatrix(r, |m| + top + bottom, Width(m) + left + right)
    ensures forall i, j :: 0 <= i < |m| + top + bottom && 0 <= j < Width(m) + left + right ==>
      r[i][j] == m[Clamp(i - top, |m|)][Clamp(j - left, Width(m))]
  {
    seq(|m| + top + bottom, i requires 0 <= i < |m| + top + bottom =>
      seq(Width(m) + left + right, j requires 0 <= j < Width(m) + left + right =>
        m[Clamp(i - top, |m|)][Clamp(j - left, Width(m))]))
  }

  // ---------------------------------------------------------------------------
  // cut_slice

  /** A channel's place in the map: its id (the peak) and the box [y1:y2, x1:x2]. */
  datatype ChannelLoc = ChannelLoc(id: int, y1: int, y2: int, x1: int, x2: int)

  /** Both failures raise ValueError in the source: numpy.zeros refuses a negative
      extent, and the explicit shape check refuses an empty dimension. */
  datatype SliceError = NegativeExtent | NonPositiveShape

  function SliceRows(image: Stack, loc: ChannelLoc): Stack
  {
    seq(|image|, p requires 0 <= p < |image| =>
      var rows := PySlice(image[p], loc.y1, loc.y2);
      seq(|rows|, i requires 0 <= i < |rows| => PySlice(rows[i], loc.x1, loc.x2)))
  }

  /** `(channel_loc[0], image[y1:y2, x1:x2, :])`, or the ValueError the source raises. */
  function CutSlice(image: Stack, loc: ChannelLoc): Result<(int, Stack), SliceError>
    requires IsBox(image)
  {
    if loc.y2 - loc.y1 < 0 || loc.x2 - loc.x1 < 0 then Err(NegativeExtent)
    else
      var s := SliceRows(image, loc);
      if |s| < 1 || Height(s) < 1 || StackWidth(s) < 1 then Err(NonPositiveShape)
      else Ok((loc.id, s))
  }

  /** Number of indices a Python slice [lo:hi] keeps on an axis of length n. */
  function SliceLength(lo: int, hi: int, n: nat): nat
  {
    Max(0, SliceBound(hi, n) - SliceBound(lo, n))
  }

  lemma PySliceAt<T>(s: seq<T>, lo: int, hi: int)
    ensures |PySlice(s, lo, hi)| == SliceLength(lo, hi, |s|)
    ensures forall i :: 0 <= i < |PySlice(s, lo, hi)| ==> PySlice(s, lo, hi)[i] == s[SliceBound(lo, |s|) + i]
  {
  }

  /** cut_slice keeps the channel id, fails exactly when the requested box has a
      negative extent or the slice would have an empty dimension, and otherwise
      returns precisely the pixels of the box, never an empty array. */
  lemma CutSliceSpec(image: Stack, loc: ChannelLoc)
    requires IsBox(image)
    ensures var P, H, W := |image|, Height(image), StackWidth(image);
      var ny, nx := SliceLength(loc.y1, loc.y2, H), SliceLength(loc.x1, loc.x2, W);
      var ys, xs := SliceBound(loc.y1, H), SliceBound(loc.x1, W);
      var r := CutSlice(image, loc);
      && (r.Ok? <==> loc.y2 - loc.y1 >= 0 && loc.x2 - loc.x1 >= 0 && P >= 1 && ny >= 1 && nx >= 1)
      && (r.Err? ==> (r.error == NegativeExtent <==> loc.y2 - loc.y1 < 0 || loc.x2 - loc.x1 < 0))
      && (r.Ok? ==>
            && r.value.0 == loc.id
            && IsStack(r.value.1, P, ny, nx) && P >= 1 && ny >= 1 && nx >= 1
            && forall p, i, j :: 0 <= p < P && 0 <= i < ny && 0 <= j < nx ==>
                 r.value.1[p][i][j] == image[p][ys + i][xs + j])
  {
    SliceRowsSpec(image, loc);
    var P, H, W := |image|, Height(image), StackWidth(image);
    var ny, nx := SliceLength(loc.y1, loc.y2, H), SliceLength(loc.x1, loc.x2, W);
    var s := SliceRows(image, loc);
    if P >= 1 {
      assert Height(s) == ny;
      if ny >= 1 { assert StackWidth(s) == nx; }
    }
  }

  /** Every plane of the slice is the ny-by-nx box of pixels starting at (ys, xs). */
  lemma SliceRowsSpec(image: Stack, loc: ChannelLoc)
    requires IsBox(image)
    ensures var H, W := Height(image), StackWidth(image);
      var ny, nx := SliceLength(loc.y1, loc.y2, H), SliceLength(loc.x1, loc.x2, W);
      var ys, xs := SliceBound(loc.y1, H), SliceBound(loc.x1, W);
      var s := SliceRows(image, loc);
      && |s| == |image|
      && (forall p :: 0 <= p < |image| ==> IsMatrix(s[p], ny, nx))
      && forall p, i, j :: 0 <= p < |image| && 0 <= i < ny && 0 <= j < nx ==> s[p][i][j] == image[p][ys + i][xs + j]
  {
    forall p | 0 <= p < |image| {
      SlicePlaneSpec(image[p], Height(image), StackWidth(image), loc);
    }
  }

  lemma SlicePlaneSpec(m: Plane, h: nat, w: nat, loc: ChannelLoc)
    requires IsMatrix(m, h, w)
    ensures var ny, nx := SliceLength(loc.y1, loc.y2, h), SliceLength(loc.x1, loc.x2, w);
      var ys, xs := SliceBound(loc.y1, h), SliceBound(loc.x1, w);
      var rows := PySlice(m, loc.y1, loc.y2);
      && |rows| == ny
      && forall i :: 0 <= i < ny ==>
           && |PySlice(rows[i], loc.x1, loc.x2)| == nx
           && forall j :: 0 <= j < nx ==> PySlice(rows[i], loc.x1, loc.x2)[j] == m[ys + i][xs + j]
  {
    PySliceAt(m, loc.y1, loc.y2);
    var rows := PySlice(m, loc.y1, loc.y2);
    forall i | 0 <= i < |rows| {
      PySliceAt(rows[i], loc.x1, loc.x2);
    }
  }
}
