# mm3 helpers: channel finding, slicing and background subtraction, in Dafny

A Dafny model of the integer and sequence logic in `mm3_helpers.py` of the mm3
mother-machine image-analysis pipeline. Each part is proved against its own
specification:

- the channel finder of `get_tif_params`, which turns a frame and its detected
  peak positions into a map `peak -> {closed end, open end}`;
- the vertical crop or pad applied when a frame is loaded;
- `cut_slice` and `trim_zeros_2d`;
- the integer skeleton of `subtract_phase`, together with the plane-name rotation
  that `subtract_backlog` applies to its output;
- the text decoding of `extract_tif_metadata`.

Modules, one per file:

| file | module | models |
|---|---|---|
| `common.dfy` | `Common` | Option/Result; Python slice bounds; `int()` of a float; numpy's edge clamp |
| `stats.dfy` | `Stats` | `np.diff`, first-occurrence argmax/argmin, `scipy.stats.mode` (smallest value on a tie), sorting, the median |
| `images.dfy` | `Images` | planes and stacks; the loading crop or pad; `numpy.pad(..., 'edge')`; `cut_slice` |
| `trim_zeros.dfy` | `TrimZeros` | `trim_zeros_2d` by boolean masks and transposition |
| `channel_finder.dfy` | `ChannelFinder` | `get_tif_params`, lines 144-300 |
| `subtraction.dfy` | `Subtraction` | `subtract_phase`, lines 558-654; the plane names of `subtract_backlog`, lines 735-737 |
| `tif_metadata.dfy` | `TifMetadata` | `extract_tif_metadata`, lines 345-434 |

How the model represents the source:

- **Images.** A plane is a sequence of rows. A stack is a sequence of planes of
  equal height and width. This is plane-major: NumPy's processed images are
  height x width x planes, and the model keeps the same pixels in the other axis
  order.
- **Imperative parts.** The parts the source writes as loops or in-place updates
  are methods. Each method is proved equal to the function that specifies it.
  - The append loops that build `channel_strips` and `channel_params`.
  - The three in-place correction loops over `channel_params`. They work on an
    `array` of records.
  - The `dstack` loop.
  - The in-place `*= -1`, `-= min` and `+= 1` on the phase plane. They work on an
    `array2`.
  - The string-accumulating loops of the metadata reader.
  - The plane-name rotation.
- **Failures.** An exception the source raises or catches is an explicit outcome.
  - `Detection.AnalyzeFailed` is the `{'analyze_success': False}` result.
  - `Detection.NoBaseline` is the `[image_filename, -1]` result.
  - `None` is a failing `subtract_phase`.
  - `Err(...)` is a failing metadata read.

Where the model follows the code rather than the documentation:

- **Right-edge test.** Trimming the last peak compares against
  `image_data.shape[0]`, which is the height of the frame, not its width. The
  model uses the height, as the code does.
- **Negative extents in `cut_slice`.** `cut_slice` first builds
  `np.zeros([P, y2-y1, x2-x1])`. That call raises for a negative extent even when
  the later slice would be non-empty, so `CutSlice` fails in that case too.
- **Empty peak list.** The trimming at lines 154-159 indexes the list twice.
  It raises, and the analysis fails, only when the list is empty from the start
  or becomes empty once the first peak is dropped. A single peak that passes the
  left test but fails the right one is dropped by `peaks[:-1]` without an error.
  The code then goes on with no channel record. `TrimEdgePeaks` gives `Some([])`
  in that case (`TrimToNoPeak`).
- **No channel record.** `spstats.mode` runs at lines 216 and 222, outside the
  `try` that starts at line 228. The model takes a `scipy.stats.mode` that
  returns empty arrays for an empty input. The lookup `channel_modes[0][0][2]` at
  line 229 then fails inside that `try`, and the `[filename, -1]` value
  (`NoBaseline`) is returned. Older SciPy releases raise from `mode` itself at
  line 216 (see "## Left out").
- **`tag.name in ('65331')`.** `('65331')` is a string, not a tuple, so this is a
  substring test. Names such as `"33"` and `""` also select a tag.
- **`Goddard`.** The global `Goddard` is never defined. The `except` branch
  therefore always appends `words[idx+1]`. When the marker is the last word, the
  `IndexError` is raised from inside the handler and ends the reading.
- **`matching_length`.** It is read before it is bound, so the handler always
  sets it to 180. The model uses the constant 180.

## Model

| member | source | states |
|---|---|---|
| Common.Clamp | mm3_helpers.py:120 | edge mode reads index k clamped into [0, n): k itself inside, 0 below, n-1 above |
| Common.Trunc | mm3_helpers.py:230-233 | `int()` of a float truncates toward zero: the result lies within 1 of x, on the side of 0 |
| Common.SliceBound | mm3_helpers.py:117 | a Python slice bound lands in [0, n] and is the index itself when that is in range |
| Common.PySlice | mm3_helpers.py:510-512 | definition (Python's `s[lo:hi]` with both bounds normalised by SliceBound, empty when reversed); specified by Common.PySliceNonNegative and Images.PySliceAt |
| Common.PySliceNonNegative | mm3_helpers.py:117 | for 0 <= lo <= hi a Python slice is the ordinary subsequence cut at the length |
| Stats.Diff | mm3_helpers.py:198 | `np.diff` has one element fewer and holds the successive differences |
| Stats.ArgMax | mm3_helpers.py:202 | index of a maximum, and every earlier element is strictly smaller (first occurrence) |
| Stats.ArgMin | mm3_helpers.py:204 | index of a minimum, and every earlier element is strictly larger (first occurrence) |
| Stats.Mode | mm3_helpers.py:216-222 | an element of maximal count; among elements of that count, the smallest |
| Stats.Sort | mm3_helpers.py:218 | sorted and a permutation of the input |
| Stats.Median | mm3_helpers.py:218-223 | definition (`nanmedian`: the middle value of the sorted column, or the mean of the two middle values); specified by Stats.MedianWithin |
| Stats.MedianWithin | mm3_helpers.py:223-233 | the median of values within [lo, hi] lies in [lo, hi] |
| Stats.ModeWithin | mm3_helpers.py:222-230 | the mode of values within [lo, hi] lies in [lo, hi] |
| Images.CropRowsShape | mm3_helpers.py:116-120 | the crop keeps max(0, H-2c) rows, and row i is row clamp(i+c) of the input |
| Images.CropRows | mm3_helpers.py:116-120 | definition; specified by Images.CropRowsShape and Images.CropUndoesPad |
| Images.CropImage | mm3_helpers.py:116-120 | every plane is cropped (c >= 0) or edge padded (c < 0) row by row; padding a zero-height stack fails |
| Images.CropUndoesPad | mm3_helpers.py:116-120 | cropping p rows off each end after padding p rows gives back the original rows |
| Images.EdgePad | mm3_helpers.py:581 | `numpy.pad(m, ((top, bottom), (left, right)), 'edge')`: the padded shape, each pixel an edge-clamped copy |
| Images.PySliceAt | mm3_helpers.py:510-512 | a slice has SliceLength elements, the i-th being element start+i |
| Images.SlicePlaneSpec | mm3_helpers.py:510-512 | `m[y1:y2, x1:x2]` is the ny x nx box of pixels starting at the clamped (y1, x1) |
| Images.SliceRows | mm3_helpers.py:510-512 | definition (`image[:, y1:y2, x1:x2]` plane by plane); specified by Images.SliceRowsSpec and Images.SlicePlaneSpec |
| Images.SliceRowsSpec | mm3_helpers.py:510-512 | the same box cut from every plane of the stack |
| Images.CutSlice | mm3_helpers.py:505-515 | definition; specified by Images.CutSliceSpec |
| Images.CutSliceSpec | mm3_helpers.py:505-515 | keeps the id; fails exactly on a negative extent or an empty dimension, naming which; otherwise holds exactly the box's pixels, never empty |
| TrimZeros.TrueIndices | mm3_helpers.py:523 | boolean indexing keeps exactly the True positions, in increasing order |
| TrimZeros.Select | mm3_helpers.py:523 | indexing by a list of positions picks those elements in that order |
| TrimZeros.DropZeroRows | mm3_helpers.py:523 | every kept row is a row of the input |
| TrimZeros.Transpose | mm3_helpers.py:525 | `.T` of an h x w matrix is w x h |
| TrimZeros.DropZeroRowsRectangular | mm3_helpers.py:523 | dropping rows keeps the matrix rectangular and its width |
| TrimZeros.TrimZeros2D | mm3_helpers.py:518-531 | definition; specified by TrimZeros.TrimZerosIsSubMatrix, TrimZeros.TrimZerosLeavesNoZeroLine, TrimZeros.TrimZerosKeepsNonzeroPixels and TrimZeros.TrimZerosIdempotent |
| TrimZeros.KeptRowsColumnMask | mm3_helpers.py:523-527 | after the zero rows are dropped, a column is all-zero exactly when it was all-zero in the input |
| TrimZeros.TrimZerosIsSubMatrix | mm3_helpers.py:518-531 | the result is the input restricted to its non-zero rows and non-zero columns, in their original order |
| TrimZeros.TrimZerosLeavesNoZeroLine | mm3_helpers.py:518-531 | the result has no all-zero row and no all-zero column |
| TrimZeros.TrimZerosKeepsNonzeroPixels | mm3_helpers.py:518-531 | every non-zero pixel reappears, at the position of its row and column among the kept ones |
| TrimZeros.TrimZerosOfZeroImage | mm3_helpers.py:518-531 | an all-zero input gives the empty array |
| TrimZeros.TrimZerosIdempotent | mm3_helpers.py:518-531 | trimming a trimmed array changes nothing |
| TrimZeros.TrimZerosOfTrimmed | mm3_helpers.py:518-531 | an array with no all-zero row or column is left unchanged |
| ChannelFinder.TrimEdgePeaks | mm3_helpers.py:154-159 | drops the first peak iff peaks[0] < sep/2 (integer division), then the last iff h - last < sep/2; the rest stay in order; an empty list fails |
| ChannelFinder.TrimToNoPeak | mm3_helpers.py:154-159 | a lone peak at h-1 that passes the left test (sep/2 <= h-1) but lies within sep/2 of the right edge is dropped by `peaks[:-1]` without an error, leaving an empty list |
| ChannelFinder.RowProfile | mm3_helpers.py:162 | one row sum per row |
| ChannelFinder.UpperDerivative | mm3_helpers.py:167 | definition; specified by ChannelFinder.GlobalEnds |
| ChannelFinder.LowerDerivative | mm3_helpers.py:170 | definition; specified by ChannelFinder.GlobalEnds |
| ChannelFinder.GlobalEnds | mm3_helpers.py:162-170 | first-occurrence argmax of the upper third's derivative and argmin of the lower third's, offset by 2h/3; fails when a third has fewer than two rows |
| ChannelFinder.SearchWindows | mm3_helpers.py:188-192 | each window is the 20-pixel neighbourhood of its global end intersected with [0, h) |
| ChannelFinder.GlobalWindowsFit | mm3_helpers.py:188-192 | both windows computed from the global ends are non-empty inside the strip's derivative |
| ChannelFinder.Strip | mm3_helpers.py:177 | a strip keeps every row of the frame |
| ChannelFinder.StripDerivative | mm3_helpers.py:196-198 | the derivative of the strip's row profile is one shorter than the strip |
| ChannelFinder.WindowArgMax | mm3_helpers.py:202 | the first index of the window's maximum, inside the window |
| ChannelFinder.WindowArgMin | mm3_helpers.py:204 | the first index of the window's minimum, inside the window |
| ChannelFinder.MeasureStrip | mm3_helpers.py:194-210 | keeps the peak and flag False; the closed end is the first position of the largest value of the strip's derivative inside the max window, the open end the first position of the smallest inside the min window; length is their distance |
| ChannelFinder.Strips | mm3_helpers.py:173-177 | one (peak, strip) pair per kept peak, in order |
| ChannelFinder.Records | mm3_helpers.py:194-210 | definition (one record per strip, in order); specified by ChannelFinder.RecordsAt and computed by ChannelFinder.MeasureStrips |
| ChannelFinder.RecordsAt | mm3_helpers.py:194-210 | record k is the measurement of strip k |
| ChannelFinder.MeasureAll | mm3_helpers.py:173-210 | definition (the records of the strips of the kept peaks); specified by ChannelFinder.MeasureAllAt and ChannelFinder.MeasureAllWithin, and computed by ChannelFinder.MeasureChannels |
| ChannelFinder.MeasureAllAt | mm3_helpers.py:173-210 | record n measures the strip cut around kept peak n |
| ChannelFinder.MeasureAllWithin | mm3_helpers.py:194-210 | every record keeps its peak and flag, and its ends and length lie inside [0, h-2] |
| ChannelFinder.MeasuredChannels | mm3_helpers.py:154-210 | succeeds iff trimming succeeds and the frame has at least six rows; then one record per kept peak, in order, each inside the frame |
| ChannelFinder.CutStrips | mm3_helpers.py:173-177 | the append loop builds exactly Strips |
| ChannelFinder.MeasureStrips | mm3_helpers.py:194-210 | the append loop builds exactly the records of the strips |
| ChannelFinder.MeasureChannels | mm3_helpers.py:173-210 | the two loops together give MeasureAll |
| ChannelFinder.ClosedEnds | mm3_helpers.py:247-251 | column 1 of channel_params |
| ChannelFinder.OpenEnds | mm3_helpers.py:229-233 | column 2 of channel_params |
| ChannelFinder.Lengths | mm3_helpers.py:259-263 | column 3 of channel_params |
| ChannelFinder.EndBaseline | mm3_helpers.py:228-256 | definition (column mode if > 0, else the truncated median); specified by ChannelFinder.EndBaselineWithin and ChannelFinder.SelectBaselines |
| ChannelFinder.LengthBaseline | mm3_helpers.py:258-263 | definition (column mode if > 0, else the median, not truncated); specified by ChannelFinder.LengthBaselineWithin |
| ChannelFinder.SelectBaselines | mm3_helpers.py:224-263 | baselines exist iff there are records and both end baselines (mode if > 0, else truncated median) are positive; the length baseline is not checked |
| ChannelFinder.EndBaselineWithin | mm3_helpers.py:228-256 | an end baseline of values in [lo, hi] lies in [lo, hi] |
| ChannelFinder.LengthBaselineWithin | mm3_helpers.py:258-263 | the length baseline of values in [lo, hi] lies in [lo, hi] |
| ChannelFinder.LengthDeviates | mm3_helpers.py:271 | definition (the float test `abs(len - Lb) / Lb > 0.5`); specified by ChannelFinder.LengthDeviatesMeaning and ChannelFinder.CorrectLengthSpec |
| ChannelFinder.LengthDeviatesMeaning | mm3_helpers.py:271 | for Lb > 0, abs(len - Lb)/Lb > 0.5 iff twice the deviation exceeds Lb |
| ChannelFinder.CorrectLength | mm3_helpers.py:270-278 | definition; specified by ChannelFinder.CorrectLengthSpec |
| ChannelFinder.ResetToBaseline | mm3_helpers.py:284-296 | definition (closed end := max_baseline, open end := min_baseline, length := their distance, peak kept); specified by ChannelFinder.CorrectAllKeepsPeaks and ChannelFinder.CorrectedChannelWithin, and performed in place by ChannelFinder.ResetNegativeClosedEnds and ChannelFinder.ResetOverlongOpenEnds |
| ChannelFinder.ResetNegativeClosed | mm3_helpers.py:281-287 | definition; specified by ChannelFinder.CorrectAllKeepsPeaks and ChannelFinder.CorrectedChannelWithin |
| ChannelFinder.ResetOverlongOpen | mm3_helpers.py:290-296 | definition; specified by ChannelFinder.CorrectAllKeepsPeaks and ChannelFinder.CorrectedChannelWithin |
| ChannelFinder.CorrectLengthSpec | mm3_helpers.py:270-278 | a channel within 50% is untouched; otherwise the end nearer its baseline (closed end on a strict win, else the open end) is kept, the other moved int(Lb) away, and the length recomputed |
| ChannelFinder.CorrectAll | mm3_helpers.py:270-296 | the three passes keep the number of records |
| ChannelFinder.CorrectAllKeepsPeaks | mm3_helpers.py:270-296 | after the passes every peak is unchanged, every closed end >= 0, every open end <= max(h, open baseline) |
| ChannelFinder.CorrectLengths | mm3_helpers.py:270-278 | the in-place loop applies CorrectLength to every record |
| ChannelFinder.ResetNegativeClosedEnds | mm3_helpers.py:281-287 | the in-place loop resets every record whose closed end is negative to the baselines |
| ChannelFinder.ResetOverlongOpenEnds | mm3_helpers.py:290-296 | the in-place loop resets every record whose open end exceeds h to the baselines |
| ChannelFinder.ApplyCorrections | mm3_helpers.py:270-296 | the three in-place loops compute CorrectAll |
| ChannelFinder.ChannelMap | mm3_helpers.py:299-300 | definition; specified by ChannelFinder.ChannelMapKeys, ChannelFinder.ChannelMapValues and ChannelFinder.ChannelMapLastWins |
| ChannelFinder.ChannelMapKeys | mm3_helpers.py:299-300 | the map's keys are exactly the records' peaks |
| ChannelFinder.ChannelMapValues | mm3_helpers.py:299-300 | every value is the ends of some record with that peak |
| ChannelFinder.ChannelMapLastWins | mm3_helpers.py:299-300 | when peaks repeat, the last record with that peak gives the value |
| ChannelFinder.BuildChannelMap | mm3_helpers.py:299-300 | the dictionary comprehension builds ChannelMap |
| ChannelFinder.ChannelDetection | mm3_helpers.py:144-300 | definition; specified by ChannelFinder.DetectionParts, ChannelFinder.DetectedChannelsInsideFrame and ChannelFinder.DetectedChannelIds |
| ChannelFinder.FindChannels | mm3_helpers.py:144-300 | the whole block computes ChannelDetection: failure, no baseline, or the map of corrected channels |
| ChannelFinder.CorrectedChannelWithin | mm3_helpers.py:270-296 | a measured channel with in-frame baselines ends inside [0, h] after the passes |
| ChannelFinder.DetectionParts | mm3_helpers.py:144-300 | a detection is the map of the corrected measured records under their baselines |
| ChannelFinder.BaselinesWithin | mm3_helpers.py:224-263 | baselines of in-frame records lie inside [0, h-2], and the length baseline is >= 0 |
| ChannelFinder.CorrectedMapWithin | mm3_helpers.py:270-300 | every mapped channel of the corrected records has both ends inside [0, h] |
| ChannelFinder.DetectedChannelsInsideFrame | mm3_helpers.py:144-300 | every reported channel has 0 <= closed end <= height and 0 <= open end <= height |
| ChannelFinder.ChannelMapKeysOfPeaks | mm3_helpers.py:299-300 | records carrying the peaks in turn give a map keyed by exactly those peaks |
| ChannelFinder.CorrectedChannelIds | mm3_helpers.py:270-300 | the corrections leave the map's keys equal to the peaks |
| ChannelFinder.DetectedChannelIds | mm3_helpers.py:154-300 | the reported channel ids are exactly the peaks left after edge trimming |
| Subtraction.MatchResultShape | mm3_helpers.py:585-596 | the template-match result is always 51 x 51, so 0 <= x, y <= 50 |
| Subtraction.CropPaddingPixels | mm3_helpers.py:617-620 | `m[25:-25, 25:-25]` of an (h+50) x (w+50) plane is h x w, pixel (i, j) coming from (i+25, j+25) |
| Subtraction.ShiftChannel | mm3_helpers.py:606-618 | padding by (y, 50-y), (x, 50-x) and cropping 25 keeps the plane's shape |
| Subtraction.ShiftChannelPixels | mm3_helpers.py:606-618 | aligned pixel (i, j) is the channel's pixel at the clamped (i+25-y, j+25-x) |
| Subtraction.ShiftChannelCentred | mm3_helpers.py:606-618 | x = y = 25 leaves the plane unchanged |
| Subtraction.PaddedEmpty | mm3_helpers.py:573-581 | the padded empty is exactly (h+50) x (w+50) |
| Subtraction.Rescale | mm3_helpers.py:631 | the rescaling maps every pixel through the same function |
| Subtraction.EmptyForSub | mm3_helpers.py:619-631 | empty_for_sub has the channel's height and width |
| Subtraction.EmptyForSubPixels | mm3_helpers.py:573-631 | padding and cropping cancel: each pixel is the rescaled empty at the edge-clamped position |
| Subtraction.ZeroPlane | mm3_helpers.py:637 | `zeros_like`: an h x w plane of zeros |
| Subtraction.EmptyStack | mm3_helpers.py:634-640 | the empty, then P-1 zero planes |
| Subtraction.StackEmpty | mm3_helpers.py:637-640 | the dstack loop builds EmptyStack |
| Subtraction.Difference | mm3_helpers.py:644 | pixelwise a - b, of the same shape |
| Subtraction.SubtractStacks | mm3_helpers.py:644 | the planewise difference of two stacks |
| Subtraction.ChannelForSub | mm3_helpers.py:612-618 | every plane of the channel aligned, shape kept |
| Subtraction.MatrixMin | mm3_helpers.py:648 | `np.min`: a pixel value that no pixel lies below |
| Subtraction.Negate | mm3_helpers.py:646 | pixelwise negation |
| Subtraction.ResetZeroLevel | mm3_helpers.py:646-650 | the reset plane has the shape of its input |
| Subtraction.ResetZeroLevelSpec | mm3_helpers.py:644-650 | the phase plane becomes e - c shifted by a constant, with every pixel >= 1 and some pixel == 1 |
| Subtraction.ZeroLevelResetWithin | mm3_helpers.py:644-650 | with c and e in [0, hi), the reset plane lies in [1, 2hi) |
| Subtraction.SubtractionFails | mm3_helpers.py:573-654 | definition; specified by Subtraction.SubtractPhaseSpec (its result is None exactly when SubtractionFails holds) |
| Subtraction.NegateInPlace | mm3_helpers.py:646 | `*= -1` on the array: every entry negated |
| Subtraction.AddInPlace | mm3_helpers.py:648-650 | `+= c` on the array: every entry moved by c |
| Subtraction.ArrayMin | mm3_helpers.py:648 | the minimum of a non-empty 2-D array: attained and a lower bound |
| Subtraction.ArrayMinIsMatrixMin | mm3_helpers.py:648 | the array's minimum is MatrixMin of the plane it holds |
| Subtraction.ReadPlane | mm3_helpers.py:646-650 | the array's contents as a plane |
| Subtraction.ResetFromPixels | mm3_helpers.py:646-650 | a plane of -d - min(-d) + 1 pixels is ResetZeroLevel(d) |
| Subtraction.ResetPhaseZeroLevel | mm3_helpers.py:646-650 | the three in-place updates compute ResetZeroLevel |
| Subtraction.SubtractPhaseSpec | mm3_helpers.py:558-654 | fails exactly on an empty axis, a missing phase plane or an empty more than 25 px larger than the channel; otherwise one plane more than the channel |
| Subtraction.SubtractPhase | mm3_helpers.py:558-654 | the method with its loop and in-place updates computes SubtractPhaseSpec |
| Subtraction.SubtractPhaseParts | mm3_helpers.py:644-652 | plane 0 is the reset difference, planes 1..P-1 the differences with zero planes, plane P the aligned phase plane |
| Subtraction.SubtractPhaseShape | mm3_helpers.py:539-600 | the output is (P+1) planes of the channel's height and width, and offset = (x-25, y-25) |
| Subtraction.SubtractPhasePlaneZero | mm3_helpers.py:644-650 | plane 0 is a zero-level reset of aligned phase minus rescaled empty |
| Subtraction.SubtractPhaseOtherPlanes | mm3_helpers.py:637-652 | planes 1..P-1 are the aligned channel planes, and the extra last plane is the aligned phase plane |
| Subtraction.DifferenceOfZero | mm3_helpers.py:637-644 | subtracting a zero plane changes nothing |
| Subtraction.SubtractPhaseFitsInt32 | mm3_helpers.py:612-650 | for uint16 input the phase plane lies in [1, 2^17), so int32 arithmetic never wraps |
| Subtraction.RotatedNames | mm3_helpers.py:735-737 | `['subtracted_phase', n1..nk, n0]`: one label more, n0 moved to the end |
| Subtraction.RotatePlaneNames | mm3_helpers.py:735-737 | pop(0)/append/insert(0) compute RotatedNames; an empty list fails |
| Subtraction.RotatedNamesInverse | mm3_helpers.py:735-737 | moving the last label back to the front and dropping the first gives the original names |
| Subtraction.RotatedNamesLabelPlanes | mm3_helpers.py:735-737 | label k names output plane k: label 0 the subtracted plane, the others the aligned plane they name |
| TifMetadata.EveryOther | mm3_helpers.py:369 | `v[start::2]`: its length, and element k is v[start + 2k] |
| TifMetadata.PairWords | mm3_helpers.py:369 | zip truncates to the shorter list; word k is lo[k] + 256 hi[k] |
| TifMetadata.Words | mm3_helpers.py:369 | definition; specified by TifMetadata.WordsSpec and TifMetadata.WordsRoundTrip |
| TifMetadata.LaneWords | mm3_helpers.py:404 | definition; specified by TifMetadata.LaneWordsSpec |
| TifMetadata.WordsSpec | mm3_helpers.py:369 | infolist holds |v|/2 words, word k being bytes 2k and 2k+1, little-endian |
| TifMetadata.LaneWordsSpec | mm3_helpers.py:404 | li holds (|v|-1)/2 words, word k being bytes 2k+1 and 2k+2 |
| TifMetadata.WordsAreShorts | mm3_helpers.py:403-404 | every word lies in [0, 65536) |
| TifMetadata.WordsRoundTrip | mm3_helpers.py:369 | splitting the words back into bytes gives the input without a trailing odd byte |
| TifMetadata.LetterOrSpace | mm3_helpers.py:373-379 | definition (a word in (64, 127) is its character, otherwise a space); specified by TifMetadata.TagTextSpec |
| TifMetadata.TagText | mm3_helpers.py:371-379 | definition; specified by TifMetadata.TagTextSpec |
| TifMetadata.TagTextSpec | mm3_helpers.py:371-379 | character c is not a space iff 64 < word c < 127, and then it is chr(word c) |
| TifMetadata.BuildTagText | mm3_helpers.py:371-379 | the accumulating loop builds TagText |
| TifMetadata.PickChar | mm3_helpers.py:408-415 | definition (the first lane's character when in (31, 127), else the second lane's, else a space); specified by TifMetadata.LaneTextSpec |
| TifMetadata.LaneText | mm3_helpers.py:406-415 | definition; specified by TifMetadata.LaneTextSpec |
| TifMetadata.LaneTextSpec | mm3_helpers.py:406-415 | each character is printable, the first lane's when that is in (31, 127), else the second lane's when that is, else a space |
| TifMetadata.BuildLaneText | mm3_helpers.py:406-415 | the accumulating loop builds LaneText |
| TifMetadata.IndexOf | mm3_helpers.py:387 | `str.index`: the first occurrence, or None iff there is none |
| TifMetadata.FieldBytes | mm3_helpers.py:387-400 | definition; specified by TifMetadata.FieldBytesSpec |
| TifMetadata.FieldBytesSpec | mm3_helpers.py:387-400 | a field is read iff its marker occurs and all n bytes from 2 index + offset exist; it is then those bytes; otherwise the error names the missing marker or the short field |
| TifMetadata.CollapseSpaces | mm3_helpers.py:417 | never longer, empty iff the input is, same last character; its meaning is completed by the lemmas below, TifMetadata.CollapseKeepsWordBoundaries in particular |
| TifMetadata.CollapseLeavesNoDoubleSpace | mm3_helpers.py:417 | the result has no two adjacent spaces |
| TifMetadata.CollapseKeepsNonSpaces | mm3_helpers.py:417 | the non-space characters are kept, in order |
| TifMetadata.CollapseOfNoDoubleSpace | mm3_helpers.py:417 | text without double spaces is left unchanged |
| TifMetadata.CollapseIdempotent | mm3_helpers.py:417 | collapsing twice is collapsing once |
| TifMetadata.CollapseConcat | mm3_helpers.py:417 | the text from a non-space onwards is collapsed independently of what precedes it |
| TifMetadata.CollapseRun | mm3_helpers.py:417 | a run of spaces after a non-space (or at the start) becomes one space |
| TifMetadata.CollapseKeepsWordBoundaries | mm3_helpers.py:417 | `a + spaces + b` collapses to collapse(a) + " " + collapse(b) when the run is maximal: each run of spaces becomes exactly one space |
| TifMetadata.Split | mm3_helpers.py:419 | definition; specified by TifMetadata.JoinSplit, TifMetadata.SplitJoin, TifMetadata.SplitPiecesHaveNoSpace and TifMetadata.SplitCount |
| TifMetadata.JoinSplit | mm3_helpers.py:419 | joining the pieces of `split(" ")` with spaces gives the text back |
| TifMetadata.SplitJoin | mm3_helpers.py:419 | splitting space-joined space-free words gives the words back |
| TifMetadata.SplitPiecesHaveNoSpace | mm3_helpers.py:419 | no piece contains a space |
| TifMetadata.SplitCount | mm3_helpers.py:419 | there is one piece more than there are spaces |
| TifMetadata.SplitAppendWord | mm3_helpers.py:419 | appending " " + a space-free word appends one piece |
| TifMetadata.SplitOfSpaceFree | mm3_helpers.py:419 | a space-free text is one piece |
| TifMetadata.MarkerPositions | mm3_helpers.py:424 | every listed position below n holds sOpticalConfigName |
| TifMetadata.MarkerPositionsComplete | mm3_helpers.py:424 | the positions are increasing and include every occurrence below n |
| TifMetadata.PlaneWords | mm3_helpers.py:403-419 | definition (the two-lane text, collapsed, split on spaces); specified by TifMetadata.LaneTextSpec, TifMetadata.CollapseKeepsWordBoundaries, TifMetadata.JoinSplit and TifMetadata.SplitPiecesHaveNoSpace |
| TifMetadata.PlaneNames | mm3_helpers.py:423-433 | definition; specified by TifMetadata.PlaneNamesSpec |
| TifMetadata.PlaneNamesSpec | mm3_helpers.py:423-433 | fails iff the last word is the marker; otherwise one name per marker, the word right after it |
| TifMetadata.CollectPlaneNames | mm3_helpers.py:423-433 | the loop over marker positions computes PlaneNames |
| TifMetadata.DecodeFrom | mm3_helpers.py:387-433 | definition; specified by TifMetadata.DecodeFromSucceeds, TifMetadata.DecodeFromFields, TifMetadata.DecodeFromParts and TifMetadata.DecodeFromErrorOrder |
| TifMetadata.DecodeFromSucceeds | mm3_helpers.py:387-433 | a tag decodes iff all three markers occur, each field's bytes are present and the last word is not the marker |
| TifMetadata.DecodeFromFields | mm3_helpers.py:387-433 | a decoded tag holds bytes [16, 20) after dXPos and dYPos, [28, 36) after dTimeAbsolute, and the plane names |
| TifMetadata.DecodeFromParts | mm3_helpers.py:387-433 | decoding succeeds iff every field and the names do, and then holds each of them |
| TifMetadata.DecodeFromErrorOrder | mm3_helpers.py:387-433 | the x field is read first; a missing name is the error only when all three fields were read |
| TifMetadata.DecodeTag | mm3_helpers.py:369-433 | definition (DecodeFrom applied to t_string and the plane-name words of one tag); specified by TifMetadata.DecodeFromSucceeds, TifMetadata.DecodeFromFields, TifMetadata.DecodeFromParts and TifMetadata.DecodeFromErrorOrder, and computed by TifMetadata.DecodeTagValue |
| TifMetadata.DecodeTagValue | mm3_helpers.py:366-433 | the method with its loops computes DecodeTag |
| TifMetadata.Selected | mm3_helpers.py:366 | definition; specified by TifMetadata.SelectedMeaning and TifMetadata.SelectedNames |
| TifMetadata.SelectedMeaning | mm3_helpers.py:366 | a tag is selected exactly when its name occurs as a substring of "65331" |
| TifMetadata.SelectedNames | mm3_helpers.py:366 | the substring test selects "", "65331" and "33" but not "65332" |
| TifMetadata.TagOutcome | mm3_helpers.py:366 | definition (no outcome for an unselected tag, its decoding otherwise); specified by TifMetadata.SelectedMeaning and TifMetadata.FoldError, and computed by TifMetadata.ReadTag |
| TifMetadata.Outcomes | mm3_helpers.py:350-354 | one outcome per tag |
| TifMetadata.ReadTag | mm3_helpers.py:354-433 | reading one tag computes its outcome |
| TifMetadata.FoldError | mm3_helpers.py:350-434 | the reading fails iff some selected tag fails, and then with the first such tag's error |
| TifMetadata.FoldDefaults | mm3_helpers.py:345-350 | idata keeps its defaults iff no tag is selected |
| TifMetadata.FoldLastWins | mm3_helpers.py:350-433 | on success the result is the last selected tag's decoding |
| TifMetadata.FoldStep | mm3_helpers.py:350-433 | one more tag leaves the result, replaces it, or fails with its error |
| TifMetadata.FoldPrefixError | mm3_helpers.py:350-434 | once a prefix fails, the whole reading fails with that error |
| TifMetadata.Fold | mm3_helpers.py:350-434 | definition; specified by TifMetadata.FoldError, TifMetadata.FoldDefaults and TifMetadata.FoldLastWins |
| TifMetadata.ExtractSpec | mm3_helpers.py:345-434 | definition; specified by TifMetadata.FoldError, TifMetadata.FoldDefaults and TifMetadata.FoldLastWins through Fold; computed by TifMetadata.ExtractTifMetadata |
| TifMetadata.ExtractTifMetadata | mm3_helpers.py:345-434 | the loop over all tags computes ExtractSpec |

## Left out

- Names the file uses without importing or defining them: `spsig`, `spstats`, `re`, `struct`, `traceback`, `equalize_hist`, `match_template`, `extract_metadata` and `fix_orientation_perfov`. The model takes these as bound by the importing script, so `traceback` at line 319 works and a failed analysis returns `{'analyze_success': False}`. `Goddard` is the one name the model takes as unbound, because no caller sets it.
- ChannelFinder.ChannelDetection / ChannelFinder.SelectBaselines: with no channel record, the model returns `NoBaseline`. This assumes a `scipy.stats.mode` that returns empty arrays for an empty input. The SciPy releases this Python 2 file was written for, which still had `scipy.stats.nanmedian`, raise from `mode` at line 216 instead. The outer `except` then makes the result `AnalyzeFailed`. The model does not capture that older behaviour.
- File, HDF5 and YAML I/O: reading the tiff (with its retry after a sleep), creating the HDF5 datasets, and the module parameters. The parameters the model needs are explicit arguments: the crop size, the channel separation and the crop half-width.
- Concurrency: the worker pool, the HDF5 locks and the pause event.
- Foreign library calls, which are inputs to the model: the wavelet peak finder (the peak list), `fix_orientation_perfov` and the choice of the phase plane by mean intensity (the frame is given as one plane), histogram equalisation and template matching (the argmax position `(x, y)`).
- The pixel-ratio histogram and `pxrpeak` rescaling of `subtract_phase` (lines 624-631), which is floating point. It is a per-pixel function `rescale` passed in, with the uint16 cast folded into it.
- `pxrpeak` can depend on the channel itself. Any such dependence is fixed before the call, because `rescale` is an argument.
- The float decoding of `struct.unpack` in `extract_tif_metadata`: the x, y and jdn fields are returned as the raw bytes that would be unpacked.
- The default float values of `idata` (`0.0`, `[]`): the model returns `None` for "defaults kept".
- The `.view(np.int32)[0::2]` reinterpretation of the row profiles (lines 167, 170, 198). The profiles are plain integer sequences, which is what the view yields for non-negative 64-bit sums below 2^31.
- `int(h*(1./3.))` and `int(h*(2./3.))` are the integer `h/3` and `2*h/3`.
- `spstats.mode` and `nanmedian` are specified in Dafny: mode takes the smallest value on a tie, and the median is the mean of the two middle values. The channel records hold no NaN.
- The uint16 cast when `subtract_backlog` stores the subtracted stack, and the rest of `subtract_backlog` apart from the plane-name rotation.
- The warning and information logging.
- `mm3_MovieMaker.py`: glyph rendering, the ffmpeg pipe and float normalisation.
- The date and time conversions (`days_to_hmsm`, `hmsm_to_days`, `date_to_jd`, `datetime_to_jd`), which are floating point.
- Integer width: all pixel and profile arithmetic uses unbounded integers. `Subtraction.SubtractPhaseFitsInt32` shows that the int32 arithmetic of `subtract_phase` cannot wrap for uint16 input.
- Subtraction.SubtractPhaseSpec and its method require 0 <= x, y <= 50. This is what the argmax of the 51 x 51 match result always gives (`Subtraction.MatchResultShape`).
- Subtraction.SubtractPhaseSpec and its method require a well-formed channel stack (`IsBox`) and a rectangular empty, as NumPy arrays always are.
- ChannelFinder.FindChannels accepts any sequence of rows as the frame. Each row is sliced like a Python list, so a strip that reaches past the frame's columns is clamped, the same as NumPy's slicing. NumPy would never pass a ragged frame, and the model does not need to exclude one.
