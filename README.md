# Intra reference samples of the HEVC encoder

This project models how the encoder builds the reference samples of an intra-predicted
block (`TComPattern` in `source/Lib/TLibCommon/TComPattern.cpp`) and proves properties
of the model.

The modelled behaviour covers four parts:

- **Availability flags.** The five `is*Available` functions mark each neighbouring unit
  as usable or not and count the usable ones. Under constrained intra prediction, only
  intra-coded neighbours are usable.
- **Reference border.** `fillReferenceSamples` builds the border of samples around the
  block, following section 8.4.4.2.2 of ITU-T H.265:
  - with no usable neighbour, every sample is the DC value `1 << (X265_DEPTH - 1)`;
  - with every neighbour usable, the reconstruction is copied;
  - otherwise, the usable units are gathered into a line and the gaps are padded unit by
    unit.
- **Filtered copy.** `initAdiPattern` lays the border out as one linear run, then smooths
  it, following section 8.4.4.2.3 of ITU-T H.265. It uses the `[1 2 1]` filter, or the
  bilinear strong filter for flat blocks of 32 or more samples. The result is stored as a
  second border. Its overload copies both borders into the four reference arrays of the
  angular predictor.
- **Chroma.** `initAdiPatternChroma` builds the Cb or Cr border of the chroma block.

The modules are:

- `PixelMath` (`pixel_math.dfy`): the bit depth, the DC value, shifts, and the unit
  arithmetic of the line.
- `SeqUtil` (`seq_util.dfy`): reversal, splicing and repetition of sequences.
- `NeighbourFlags` (`neighbour_flags.dfy`): the `is*Available` functions and the flag
  array of `initAdiPattern`.
- `ReferenceSamples` (`reference_samples.dfy`): `fillReferenceSamples`, specified by the
  sample-wise substitution of the standard.
- `IntraSmoothing` (`intra_smoothing.dfy`): the linear layout, the two filters and the
  write-back.
- `AdiPattern` (`adi_pattern.dfy`): `initAdiPattern`, its overload and
  `initAdiPatternChroma`.

Each loop of the source is a method. The method's postcondition ties the array it writes
to a specification function, and lemmas state what that function promises.

**How the model represents the source's inputs and buffers**

- **Neighbours.** The lookups `getPUAbove`, `getPULeft`, `getPUAboveRightAdi`,
  `getPUBelowLeftAdi` and `getPUAboveLeft` become a `NeighbourUnits` value. For each unit,
  it records what the lookup finds: nothing, or a coding unit that is intra-coded or not.
- **Reconstructed samples.** The samples read through `roiOrigin` become a `Border`. It
  holds the above-left sample, the `2 * cuHeight` samples left of the block going down,
  and the `2 * cuWidth` samples above it going right.
- **ADI buffer.** The buffer is an `array2<int>`, with `ADI_BUF_STRIDE` as its row length.
  - Rows `0 .. height - 1` are `adiTemp` of luma and Cb.
  - Rows `height ..` are `filteredBuf1`.
  - Rows `2 * height ..` are the Cr `adiTemp`.
  - A border stored from row `base` has its corner at `(base, 0)`, its top row along row
    `base`, and its left column down column 0.

## Model

| member | source | states |
|---|---|---|
| NeighbourFlags.IsUsable | source/Lib/TLibCommon/TComPattern.cpp:416-431 | a unit is usable iff a coding unit is there and, under constrained intra prediction, it is intra-coded (isAboveLeftAvailable) |
| NeighbourFlags.UsableFlags | source/Lib/TLibCommon/TComPattern.cpp:441-470 | flag k is set exactly when unit k exists and, under constrained intra prediction, is intra-coded |
| NeighbourFlags.WriteUpward | source/Lib/TLibCommon/TComPattern.cpp:441-472 | the array becomes the old array with the units' flags stored in order from start (unit k at start + k, every other entry unchanged), and the result counts the usable units |
| NeighbourFlags.WriteDownward | source/Lib/TLibCommon/TComPattern.cpp:483-514 | the array becomes the old array with the units' flags stored reversed so that unit k lands at start - k (every other entry unchanged), and the result counts the usable units |
| NeighbourFlags.IsAboveAvailable | source/Lib/TLibCommon/TComPattern.cpp:433-473 | the flags of the above units are stored in order from start; the result is their count of usable units |
| NeighbourFlags.IsAboveRightAvailable | source/Lib/TLibCommon/TComPattern.cpp:517-555 | the same for the above-right units |
| NeighbourFlags.IsLeftAvailable | source/Lib/TLibCommon/TComPattern.cpp:475-515 | the flags of the left units are stored reversed, ending at start; the result is their count of usable units |
| NeighbourFlags.IsBelowLeftAvailable | source/Lib/TLibCommon/TComPattern.cpp:557-595 | the same for the below-left units |
| NeighbourFlags.CountUsableStep | source/Lib/TLibCommon/TComPattern.cpp:447-455 | one more unit adds one to iNumIntra exactly when it is usable |
| NeighbourFlags.CountTrueZero | source/Lib/TLibCommon/TComPattern.cpp:261 | a zero count means no flag is set, and conversely |
| NeighbourFlags.CountTrueFull | source/Lib/TLibCommon/TComPattern.cpp:274 | a count equal to the length means every flag is set, and conversely |
| NeighbourFlags.CountTrueReverse | source/Lib/TLibCommon/TComPattern.cpp:511 | writing flags downwards does not change how many are set |
| NeighbourFlags.FlagLayoutAt | source/Lib/TLibCommon/TComPattern.cpp:78-83 | the flag array has 4n + 1 entries: below-left unit k at n-1-k, left unit k at 2n-1-k, the corner at 2n, above unit k at 2n+1+k, above-right unit k at 3n+1+k |
| NeighbourFlags.NeighbourCount | source/Lib/TLibCommon/TComPattern.cpp:78-83 | numIntraNeighbor, the sum of the five results, is the number of usable units of all five groups |
| NeighbourFlags.MarkAboveNeighbours | source/Lib/TLibCommon/TComPattern.cpp:78-81 | the corner, above and above-right flags fill the upper half of the array from 2n; the count is theirs |
| NeighbourFlags.MarkLeftNeighbours | source/Lib/TLibCommon/TComPattern.cpp:82-83 | the left and below-left flags fill the lower half of the array, bottom unit first; the count is theirs |
| NeighbourFlags.HalvesMakeLayout | source/Lib/TLibCommon/TComPattern.cpp:78-83 | the two halves together give the whole flag layout, whatever the array held before |
| NeighbourFlags.DeriveNeighbourFlags | source/Lib/TLibCommon/TComPattern.cpp:66-83 | the array holds the flag layout and numIntraNeighbor is the number of flags set |
| ReferenceSamples.LineLengthIs | source/Lib/TLibCommon/TComPattern.cpp:298 | iTotalSamples = totalUnits * unitSize is the length of the line (left column, one corner unit, top row) |
| ReferenceSamples.ReconLineParts | source/Lib/TLibCommon/TComPattern.cpp:311-355 | the reconstructed line is the left column reversed, the corner repeated over one unit, then the top row |
| ReferenceSamples.UnitFlags | source/Lib/TLibCommon/TComPattern.cpp:328-355 | every sample of unit c takes the flag of unit c |
| ReferenceSamples.GatheredSample | source/Lib/TLibCommon/TComPattern.cpp:305-355 | a sample of the gathered line is the reconstructed sample when its unit is usable and the DC value otherwise |
| ReferenceSamples.FirstTrueCount | source/Lib/TLibCommon/TComPattern.cpp:295-372 | a usable unit exists exactly when numIntraNeighbor is positive, so the search for the first usable unit stops inside the line |
| ReferenceSamples.FirstSample | source/Lib/TLibCommon/TComPattern.cpp:367-372 | the first usable sample is the first sample of the first usable unit |
| ReferenceSamples.Substitute | source/Lib/TLibCommon/TComPattern.cpp:357-402 | every substituted sample is the value of some usable sample |
| ReferenceSamples.SubstituteLeading | source/Lib/TLibCommon/TComPattern.cpp:365-383 | every sample before the first usable one takes the first usable sample |
| ReferenceSamples.SubstituteRun | source/Lib/TLibCommon/TComPattern.cpp:385-395 | a run of unusable samples repeats the value just before it |
| ReferenceSamples.SubstituteReadsAvailable | source/Lib/TLibCommon/TComPattern.cpp:357-402 | substitution reads only usable samples: lines that agree there substitute alike |
| ReferenceSamples.PaddedIgnoresDc | source/Lib/TLibCommon/TComPattern.cpp:305-309 | the DC initialisation of the line never shows through: the padded line is the substitution of the reconstruction |
| ReferenceSamples.LeadingUnitsPadded | source/Lib/TLibCommon/TComPattern.cpp:365-383 | every sample before the first usable unit becomes the first sample of that unit |
| ReferenceSamples.UnusableUnitPadded | source/Lib/TLibCommon/TComPattern.cpp:385-395 | every sample of a later unusable unit becomes the last sample of the unit before it |
| ReferenceSamples.UsableUnitKept | source/Lib/TLibCommon/TComPattern.cpp:397-401 | the samples of a usable unit are left as they are |
| ReferenceSamples.PaddedPixels | source/Lib/TLibCommon/TComPattern.cpp:357-402 | the padded line holds picture samples when the reconstruction does |
| ReferenceSamples.LineToBorderRecon | source/Lib/TLibCommon/TComPattern.cpp:404-412 | reading the border back from the reconstructed line gives the reconstruction |
| ReferenceSamples.SubstituteAllUsable | source/Lib/TLibCommon/TComPattern.cpp:274-294 | with every sample usable, substitution changes nothing |
| ReferenceSamples.CopyAgreesWithPadding | source/Lib/TLibCommon/TComPattern.cpp:274-294 | the direct copy of the all-usable case is what the padding path would build |
| ReferenceSamples.DcBorder | source/Lib/TLibCommon/TComPattern.cpp:259-273 | the DC border has the block's shape and holds picture samples |
| ReferenceSamples.ReferenceBorderPixels | source/Lib/TLibCommon/TComPattern.cpp:255-414 | in all three cases the border holds picture samples when the reconstruction does |
| ReferenceSamples.ReferenceBorderIsSubstitution | source/Lib/TLibCommon/TComPattern.cpp:274-412 | with any usable unit, the border is the sample-wise substitution of the reconstruction (section 8.4.4.2.2 of ITU-T H.265) |
| ReferenceSamples.FillDcBorder | source/Lib/TLibCommon/TComPattern.cpp:259-273 | the width entries of the top row and rows 1 .. height - 1 of column 0 hold the DC value; nothing else changes |
| ReferenceSamples.CopyReconBorder | source/Lib/TLibCommon/TComPattern.cpp:274-294 | the buffer holds the reconstruction as its border; nothing else changes |
| ReferenceSamples.InitLine | source/Lib/TLibCommon/TComPattern.cpp:305-309 | the line starts as the DC value throughout |
| ReferenceSamples.GatherCorner | source/Lib/TLibCommon/TComPattern.cpp:311-322 | the corner unit holds the above-left sample when usable; no other sample changes |
| ReferenceSamples.GatherLeft | source/Lib/TLibCommon/TComPattern.cpp:324-340 | the left part of the line holds the gathered samples; no other sample changes |
| ReferenceSamples.GatherAbove | source/Lib/TLibCommon/TComPattern.cpp:342-355 | the top-row part of the line holds the gathered samples; no other sample changes |
| ReferenceSamples.GatherLine | source/Lib/TLibCommon/TComPattern.cpp:297-355 | the line is the gathered line: reconstruction in usable units, DC elsewhere |
| ReferenceSamples.SkipUnusable | source/Lib/TLibCommon/TComPattern.cpp:367-370 | iNext is the first usable unit at or after the start, or totalUnits when there is none |
| ReferenceSamples.PadUnits | source/Lib/TLibCommon/TComPattern.cpp:357-402 | the padding loop visits every unit once and leaves the line that the unit-level padding rules describe |
| ReferenceSamples.PadLine | source/Lib/TLibCommon/TComPattern.cpp:357-402 | the padded line is the sample-wise substitution of the gathered line |
| ReferenceSamples.CopyLineToBorder | source/Lib/TLibCommon/TComPattern.cpp:404-412 | the buffer holds the border read back from the line; nothing else changes |
| ReferenceSamples.FillReferenceSamples | source/Lib/TLibCommon/TComPattern.cpp:255-414 | the buffer holds the reference border: DC, the reconstruction, or the padded line by numIntraNeighbor; nothing else changes |
| IntraSmoothing.LinearRoundTrip | source/Lib/TLibCommon/TComPattern.cpp:108-119 | reading the linear run back as a border gives the border it was laid out from |
| IntraSmoothing.BorderRoundTrip | source/Lib/TLibCommon/TComPattern.cpp:170-178 | laying out again a border read from a run gives the run, so the write-back inverts the read |
| IntraSmoothing.Smooth121Between | source/Lib/TLibCommon/TComPattern.cpp:155 | (a + 2b + c + 2) >> 2 lies between the minimum and the maximum of a, b and c |
| IntraSmoothing.Filter121Bounds | source/Lib/TLibCommon/TComPattern.cpp:150-157 | the [1 2 1] filter keeps both ends and puts every interior entry between its three inputs |
| IntraSmoothing.Filter121Pixels | source/Lib/TLibCommon/TComPattern.cpp:161-167 | the [1 2 1] filter maps picture samples to picture samples |
| IntraSmoothing.Filter121Flat | source/Lib/TLibCommon/TComPattern.cpp:161-167 | a flat run is left unchanged |
| IntraSmoothing.StrongShiftIsLog | source/Lib/TLibCommon/TComPattern.cpp:133 | for every block width, 1 << (g_convertToBit[cuWidth] + 3) is 2 * cuWidth |
| IntraSmoothing.InterpolateBetween | source/Lib/TLibCommon/TComPattern.cpp:138-146 | the bilinear value lies between the two samples it interpolates and is the first one at position 0 |
| IntraSmoothing.StrongSmoothBounds | source/Lib/TLibCommon/TComPattern.cpp:131-147 | entries 0, cuHeight2 and bufSize - 1 are kept; left entries lie between bottom-left and top-left, top entries between top-left and top-right |
| IntraSmoothing.StrongSmoothPixels | source/Lib/TLibCommon/TComPattern.cpp:131-147 | the strong filter maps picture samples to picture samples |
| IntraSmoothing.StrongSmoothFlat | source/Lib/TLibCommon/TComPattern.cpp:131-147 | a flat run is left unchanged |
| IntraSmoothing.StrongOnlyWhenFlat | source/Lib/TLibCommon/TComPattern.cpp:121-130 | the strong filter is used only with the SPS flag set, cuWidth >= 32, and both flatness tests below 1 << (X265_DEPTH - 5) |
| IntraSmoothing.FilteredLinearProperties | source/Lib/TLibCommon/TComPattern.cpp:121-168 | whichever filter applies, both ends of the run are kept and picture samples stay picture samples |
| IntraSmoothing.FilteredDcBorder | source/Lib/TLibCommon/TComPattern.cpp:121-178 | the DC border comes out of either filter unchanged |
| IntraSmoothing.FilteredBorderProperties | source/Lib/TLibCommon/TComPattern.cpp:98-178 | the filtered border keeps the bottom-most left and the right-most top sample and holds picture samples when the border does |
| IntraSmoothing.LinearToBorderPixels | source/Lib/TLibCommon/TComPattern.cpp:170-178 | a border read from a run of picture samples holds picture samples |
| IntraSmoothing.ReadLinearBorder | source/Lib/TLibCommon/TComPattern.cpp:108-119 | filterBuf is the linear layout of the border held from row 0 |
| IntraSmoothing.Filter121Run | source/Lib/TLibCommon/TComPattern.cpp:150-157 | filterBufN is the [1 2 1]-filtered filterBuf |
| IntraSmoothing.StrongSmoothRun | source/Lib/TLibCommon/TComPattern.cpp:131-147 | filterBufN is the strongly smoothed filterBuf |
| IntraSmoothing.WriteFilteredBorder | source/Lib/TLibCommon/TComPattern.cpp:170-178 | filteredBuf1 holds the border read back from filterBufN; nothing else changes |
| AdiPattern.SkipsBufferPlain | source/Lib/TLibCommon/TComPattern.cpp:88-91 | for non-negative sizes, the early return happens exactly when 4 * width > strideOrig or 4 * height > heightOrig |
| AdiPattern.SkipsBufferNegative | source/Lib/TLibCommon/TComPattern.cpp:88-91 | negative strideOrig and heightOrig never cause the early return, because the comparison is unsigned |
| AdiPattern.InitAdiPattern | source/Lib/TLibCommon/TComPattern.cpp:51-179 | on the early return the buffer is unchanged; otherwise row 0 on holds the reference border and row height on its filtered copy, and nothing else changes |
| AdiPattern.FilterBorder | source/Lib/TLibCommon/TComPattern.cpp:98-178 | the filtered border is stored from row height; the border from row 0 and the rest of the buffer are kept |
| AdiPattern.CopyRefArrays | source/Lib/TLibCommon/TComPattern.cpp:192-204 | refAbove and refAboveFlt hold rows 0 and height, and refLeft and refLeftFlt hold column 0 of both borders, all from index cuWidth - 1; no other entry changes |
| AdiPattern.CopiedBorder | source/Lib/TLibCommon/TComPattern.cpp:198-204 | a border copied out of the buffer this way is held by the reference arrays, with the corner at cuWidth - 1 in both |
| AdiPattern.InitAdiPatternWithRefs | source/Lib/TLibCommon/TComPattern.cpp:182-205 | everything `InitAdiPattern` promises about the ADI buffer (unchanged after the early return; otherwise the border at row 0, its filtered copy at row height, and nothing else changed); all four arrays receive rows 0 and height of the buffer from index cuWidth - 1 on, even after the early return; their other entries keep their values; and once the border is built, refAbove and refLeft hold it and refAboveFlt and refLeftFlt hold the filtered border |
| AdiPattern.ChromaGeometry444 | source/Lib/TLibCommon/TComPattern.cpp:224-241 | with no chroma shift, the chroma block is the luma block |
| AdiPattern.ChromaGeometry420 | source/Lib/TLibCommon/TComPattern.cpp:224-241 | with both shifts 1, the chroma block is half as wide, has as many units, and has the shape the border needs |
| AdiPattern.InitAdiPatternChroma | source/Lib/TLibCommon/TComPattern.cpp:207-253 | on the early return the buffer is unchanged; otherwise the chroma border is stored from row 0 (Cb) or row 2 * height (Cr), and nothing else changes |

## Left out

- **Neighbour lookups.** The `TComDataCU` lookups are inputs: `deriveLeftRightTopIdxAdi`,
  `deriveLeftBottomIdxAdi`, `getPU*`, `getPredictionMode` and the `g_zscanToRaster` /
  `g_rasterToZscan` tables. The model takes one neighbour per unit, in visiting order.
  The count of units each `is*Available` loop visits comes from the raster-scan tables,
  so it is an input here: `numUnitsInCU` units per group.
- **Picture access.** `getLumaAddr`, `getCbAddr`, `getCrAddr` and `picStride` are
  replaced by the `Border` of reconstructed samples.
- **Luma geometry.** `cuWidth = getWidth(0) >> partDepth`,
  `unitSize = g_maxCUWidth >> g_maxCUDepth` and `numUnitsInCU = cuWidth / unitSize` are
  inputs in a `Geometry` value.
- **Geometry restrictions.** The model requires a square block that is a whole number of
  units (`Geometry.Valid`). HEVC intra blocks are always square. For chroma this covers
  4:2:0 and 4:4:4 (`ChromaGeometry420`, `ChromaGeometry444`). The non-square 4:2:2 chroma
  block is not modelled.
- **Constants missing from the source text.**
  - `ADI_BUF_STRIDE`: the row length of the buffer.
  - `g_convertToBit`: modelled as log2(width) - 2 for widths 4 to 64 and -1 otherwise.
  - `X265_DEPTH`: fixed at 8.
- **Scratch buffers.** `filterBuf` and `filterBufN` live in `adiBuf` from row
  `3 * height` on, past the second filter buffer (`adiBuf + 3 * ADI_BUF_STRIDE * height`,
  TComPattern.cpp:101-106); here they are fresh arrays. `piAdiLine`, a local array of
  `fillReferenceSamples`, is a fresh array too.
- InitAdiPattern: its "nothing else changes" ensures is stronger than the source: the
  source also overwrites the scratch rows from `3 * height` on, which the model's fresh
  scratch arrays leave untouched. The same holds for InitAdiPatternWithRefs.
- **Integer widths.**
  - `Pel` values and the `int` arithmetic of the filters are unbounded integers. For
    picture samples below `2^X265_DEPTH` no intermediate value comes near the 32-bit
    range.
  - `uint32_t` wrap-around of `cuWidth << 1` and similar is not modelled. Block sizes
    are at most 64.
  - The unsigned comparison of the early return is modelled (`SkipsBuffer`).
- **Writes into the caller's memory.** The source writes through the caller's pointers
  without checking bounds. The model requires the buffer and the reference arrays to be
  large enough and the four reference arrays to be distinct.
- **Copy order in the overload.** The source's refLeft/refLeftFlt loop and its two
  `memcpy` calls run in a fixed order. `CopyRefArrays` keeps that order; the order is
  unobservable because the arrays are distinct.
- **Consumers of the buffers.** Angular prediction and the deblocking and SAO filters use
  these buffers but are not part of this model, and neither is the scheduling of the
  frame filter.
