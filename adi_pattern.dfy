/** TComPattern's entry points: initAdiPattern fills the luma ADI buffer with the reference
    border and its filtered copy, its overload also copies both into the reference arrays of
    the angular predictor, and initAdiPatternChroma fills the Cb or Cr border. */
module AdiPattern {
  import opened PixelMath
  import opened NeighbourFlags
  import opened ReferenceSamples
  import opened IntraSmoothing

  /** The early return of both entry points: (width << 2) > strideOrig or
      (height << 2) > heightOrig, compared as unsigned 32-bit integers. */
  predicate SkipsBuffer(g: Geometry, strideOrig: int, heightOrig: int) {
    AsUint32(4 * g.Width()) > AsUint32(strideOrig) || AsUint32(4 * g.Height()) > AsUint32(heightOrig)
  }

  /** For non-negative 32-bit sizes the unsigned comparison is the plain one: the border is
      skipped exactly when four times its width or height exceeds the caller's buffer. */
  lemma SkipsBufferPlain(g: Geometry, strideOrig: int, heightOrig: int)
    requires 0 <= strideOrig < 0x8000_0000 && 0 <= heightOrig < 0x8000_0000
    requires 4 * g.Width() < 0x1_0000_0000 && 4 * g.Height() < 0x1_0000_0000
    ensures SkipsBuffer(g, strideOrig, heightOrig) <==> 4 * g.Width() > strideOrig || 4 * g.Height() > heightOrig
  {
  }

  /** A negative strideOrig and heightOrig (as 32-bit ints) never trigger the early return:
      as unsigned values they exceed every border of a block narrower than 2^29 samples. */
  lemma SkipsBufferNegative(g: Geometry, strideOrig: int, heightOrig: int)
    requires -0x8000_0000 <= strideOrig < 0 && -0x8000_0000 <= heightOrig < 0
    requires 4 * g.Width() < 0x8000_0000 && 4 * g.Height() < 0x8000_0000
    ensures !SkipsBuffer(g, strideOrig, heightOrig)
  {
  }

  /** The border fillReferenceSamples builds for a block with these neighbours. */
  function BlockReferenceBorder(g: Geometry, units: NeighbourUnits, constrainedIntraPred: bool, recon: Border): (b: Border)
    requires g.Valid() && units.Fits(g.numUnitsInCU) && recon.Fits(g)
    ensures b.Fits(g)
  {
    var flags := FlagLayout(units, constrainedIntraPred);
    ReferenceBorder(g, flags, CountTrue(flags), recon)
  }

  /** initAdiPattern (lines 51-179): unless the caller's buffer is too small, the reference
      border is stored from row 0 of the ADI buffer and its filtered copy from row height;
      nothing else in the buffer changes. */
  method InitAdiPattern(g: Geometry, units: NeighbourUnits, constrainedIntraPred: bool, recon: Border,
                        strongEnabled: bool, strideOrig: int, heightOrig: int, adi: array2<int>)
    requires g.Valid() && units.Fits(g.numUnitsInCU) && recon.Fits(g)
    requires !SkipsBuffer(g, strideOrig, heightOrig) ==> 2 * g.Height() <= adi.Length0 && g.Width() <= adi.Length1
    modifies adi
    ensures SkipsBuffer(g, strideOrig, heightOrig) ==> unchanged(adi)
    ensures !SkipsBuffer(g, strideOrig, heightOrig) ==>
      HoldsBorder(adi, 0, BlockReferenceBorder(g, units, constrainedIntraPred, recon)) &&
      HoldsBorder(adi, g.Height(), FilteredBorder(g, BlockReferenceBorder(g, units, constrainedIntraPred, recon), strongEnabled))
    ensures forall r, c :: 0 <= r < adi.Length0 && 0 <= c < adi.Length1 && !OnBorder(g, 0, r, c) && !OnBorder(g, g.Height(), r, c) ==>
      adi[r, c] == old(adi[r, c])
  {
    var flags, numIntraNeighbor := DeriveNeighbourFlags(units, constrainedIntraPred, g.numUnitsInCU);
    if SkipsBuffer(g, strideOrig, heightOrig) {
      return;
    }
    FillReferenceSamples(g, flags, numIntraNeighbor, recon, adi, 0);
    FilterBorder(g, adi, BlockReferenceBorder(g, units, constrainedIntraPred, recon), strongEnabled);
  }

  /** Lines 98-178: the border held from row 0 read as a linear run, filtered, and stored
      from row height; the border from row 0 and everything else in the buffer stay as they
      were. */
  method FilterBorder(g: Geometry, adi: array2<int>, ghost ref: Border, strongEnabled: bool)
    requires g.Valid() && ref.Fits(g) && HoldsBorder(adi, 0, ref)
    requires 2 * g.Height() <= adi.Length0 && g.Width() <= adi.Length1
    modifies adi
    ensures HoldsBorder(adi, 0, ref) && HoldsBorder(adi, g.Height(), FilteredBorder(g, ref, strongEnabled))
    ensures forall r, c :: 0 <= r < adi.Length0 && 0 <= c < adi.Length1 && !OnBorder(g, g.Height(), r, c) ==>
      adi[r, c] == old(adi[r, c])
  {
    var filterBuf := ReadLinearBorder(g, adi, ref);
    var filterBufN := new int[filterBuf.Length];
    if UseStrongSmoothing(g, filterBuf[..], strongEnabled) {
      StrongSmoothRun(g, filterBuf, filterBufN);
    } else {
      Filter121Run(filterBuf, filterBufN);
    }
    WriteFilteredBorder(g, filterBufN, adi, g.Height());
    forall r | 0 < r <= |ref.left|
      ensures adi[r, 0] == ref.left[r - 1]
    {
      assert !OnBorder(g, g.Height(), r, 0) && old(adi[r, 0]) == ref.left[r - 0 - 1];
    }
    forall c | 0 <= c <= |ref.above|
      ensures adi[0, c] == old(adi[0, c])
    {
      assert !OnBorder(g, g.Height(), 0, c);
    }
  }

  /** The reference arrays hold border b from index off on: the corner at off in both, the
      top row after it in `above`, the left column after it in `left`. */
  ghost predicate HoldsRefs(above: array<int>, left: array<int>, off: nat, b: Border)
    reads above, left
  {
    off + 1 + |b.above| <= above.Length && off + 1 + |b.left| <= left.Length &&
    above[off] == b.corner && left[off] == b.corner &&
    (forall j :: 0 <= j < |b.above| ==> above[off + 1 + j] == b.above[j]) &&
    (forall k :: 0 <= k < |b.left| ==> left[off + 1 + k] == b.left[k])
  }

  /** Lines 192-204: row 0 and row height of the ADI buffer copied into refAbove and
      refAboveFlt, column 0 of the two borders into refLeft and refLeftFlt, all from index
      cuWidth - 1 on. No other entry of the four arrays changes. */
  method CopyRefArrays(g: Geometry, adi: array2<int>, refAbove: array<int>, refLeft: array<int>,
                       refAboveFlt: array<int>, refLeftFlt: array<int>)
    requires g.Valid() && g.cuWidth > 0
    requires 2 * g.Height() <= adi.Length0 && g.Width() <= adi.Length1
    requires g.cuWidth - 1 + g.Width() <= refAbove.Length && g.cuWidth - 1 + g.Width() <= refAboveFlt.Length
    requires g.cuWidth - 1 + g.Height() <= refLeft.Length && g.cuWidth - 1 + g.Height() <= refLeftFlt.Length
    requires refAbove != refLeft && refAbove != refAboveFlt && refAbove != refLeftFlt
    requires refLeft != refAboveFlt && refLeft != refLeftFlt && refAboveFlt != refLeftFlt
    modifies refAbove, refLeft, refAboveFlt, refLeftFlt
    ensures forall i :: g.cuWidth - 1 <= i < g.cuWidth - 1 + g.Width() ==> refAbove[i] == adi[0, i - (g.cuWidth - 1)]
    ensures forall i :: g.cuWidth - 1 <= i < g.cuWidth - 1 + g.Width() ==> refAboveFlt[i] == adi[g.Height(), i - (g.cuWidth - 1)]
    ensures forall i :: g.cuWidth - 1 <= i < g.cuWidth - 1 + g.Height() ==> refLeft[i] == adi[0 + (i - (g.cuWidth - 1)), 0]
    ensures forall i :: g.cuWidth - 1 <= i < g.cuWidth - 1 + g.Height() ==> refLeftFlt[i] == adi[g.Height() + (i - (g.cuWidth - 1)), 0]
    ensures forall i :: 0 <= i < refAbove.Length && !(g.cuWidth - 1 <= i < g.cuWidth - 1 + g.Width()) ==>
      refAbove[i] == old(refAbove[i])
    ensures forall i :: 0 <= i < refAboveFlt.Length && !(g.cuWidth - 1 <= i < g.cuWidth - 1 + g.Width()) ==>
      refAboveFlt[i] == old(refAboveFlt[i])
    ensures forall i :: 0 <= i < refLeft.Length && !(g.cuWidth - 1 <= i < g.cuWidth - 1 + g.Height()) ==>
      refLeft[i] == old(refLeft[i])
    ensures forall i :: 0 <= i < refLeftFlt.Length && !(g.cuWidth - 1 <= i < g.cuWidth - 1 + g.Height()) ==>
      refLeftFlt[i] == old(refLeftFlt[i])
  {
    var off := g.cuWidth - 1;
    for j := 0 to g.Width()
      modifies refAbove
      invariant forall i :: off <= i < off + j ==> refAbove[i] == adi[0, i - off]
      invariant forall i :: 0 <= i < refAbove.Length && !(off <= i < off + j) ==> refAbove[i] == old(refAbove[i])
    {
      refAbove[off + j] := adi[0, j];
    }
    for j := 0 to g.Width()
      modifies refAboveFlt
      invariant forall i :: off <= i < off + j ==> refAboveFlt[i] == adi[g.Height(), i - off]
      invariant forall i :: 0 <= i < refAboveFlt.Length && !(off <= i < off + j) ==> refAboveFlt[i] == old(refAboveFlt[i])
    {
      refAboveFlt[off + j] := adi[g.Height(), j];
    }
    for k := 0 to g.Height()
      modifies refLeft, refLeftFlt
      invariant forall i :: off <= i < off + k ==> refLeft[i] == adi[i - off, 0]
      invariant forall i :: off <= i < off + k ==> refLeftFlt[i] == adi[g.Height() + (i - off), 0]
      invariant forall i :: 0 <= i < refLeft.Length && !(off <= i < off + k) ==> refLeft[i] == old(refLeft[i])
      invariant forall i :: 0 <= i < refLeftFlt.Length && !(off <= i < off + k) ==> refLeftFlt[i] == old(refLeftFlt[i])
    {
      refLeft[off + k] := adi[k, 0];
      refLeftFlt[off + k] := adi[g.Height() + k, 0];
    }
  }

  /** The overload of initAdiPattern (lines 182-205): initAdiPattern, then the copy into the
      four reference arrays, which takes place even after the early return. When the border
      was built, refAbove and refLeft hold it and refAboveFlt and refLeftFlt its filtered
      copy, from index cuWidth - 1 on; after the early return the buffer is unchanged and
      the four arrays receive its old rows 0 and height. In both cases the entries of the
      arrays outside the copied range keep their values. */
  method InitAdiPatternWithRefs(g: Geometry, units: NeighbourUnits, constrainedIntraPred: bool, recon: Border,
                                strongEnabled: bool, strideOrig: int, heightOrig: int, adi: array2<int>,
                                refAbove: array<int>, refLeft: array<int>, refAboveFlt: array<int>, refLeftFlt: array<int>)
    requires g.Valid() && g.cuWidth > 0 && units.Fits(g.numUnitsInCU) && recon.Fits(g)
    requires 2 * g.Height() <= adi.Length0 && g.Width() <= adi.Length1
    requires g.cuWidth - 1 + g.Width() <= refAbove.Length && g.cuWidth - 1 + g.Width() <= refAboveFlt.Length
    requires g.cuWidth - 1 + g.Height() <= refLeft.Length && g.cuWidth - 1 + g.Height() <= refLeftFlt.Length
    requires refAbove != refLeft && refAbove != refAboveFlt && refAbove != refLeftFlt
    requires refLeft != refAboveFlt && refLeft != refLeftFlt && refAboveFlt != refLeftFlt
    modifies adi, refAbove, refLeft, refAboveFlt, refLeftFlt
    ensures !SkipsBuffer(g, strideOrig, heightOrig) ==>
      HoldsRefs(refAbove, refLeft, g.cuWidth - 1, BlockReferenceBorder(g, units, constrainedIntraPred, recon)) &&
      HoldsRefs(refAboveFlt, refLeftFlt, g.cuWidth - 1,
                FilteredBorder(g, BlockReferenceBorder(g, units, constrainedIntraPred, recon), strongEnabled))
    ensures SkipsBuffer(g, strideOrig, heightOrig) ==> unchanged(adi)
    ensures !SkipsBuffer(g, strideOrig, heightOrig) ==>
      HoldsBorder(adi, 0, BlockReferenceBorder(g, units, constrainedIntraPred, recon)) &&
      HoldsBorder(adi, g.Height(), FilteredBorder(g, BlockReferenceBorder(g, units, constrainedIntraPred, recon), strongEnabled))
    ensures forall r, c :: 0 <= r < adi.Length0 && 0 <= c < adi.Length1 && !OnBorder(g, 0, r, c) && !OnBorder(g, g.Height(), r, c) ==>
      adi[r, c] == old(adi[r, c])
    ensures forall i :: g.cuWidth - 1 <= i < g.cuWidth - 1 + g.Width() ==> refAbove[i] == adi[0, i - (g.cuWidth - 1)]
    ensures forall i :: g.cuWidth - 1 <= i < g.cuWidth - 1 + g.Width() ==> refAboveFlt[i] == adi[g.Height(), i - (g.cuWidth - 1)]
    ensures forall i :: g.cuWidth - 1 <= i < g.cuWidth - 1 + g.Height() ==> refLeft[i] == adi[0 + (i - (g.cuWidth - 1)), 0]
    ensures forall i :: g.cuWidth - 1 <= i < g.cuWidth - 1 + g.Height() ==> refLeftFlt[i] == adi[g.Height() + (i - (g.cuWidth - 1)), 0]
    ensures forall i :: 0 <= i < refAbove.Length && !(g.cuWidth - 1 <= i < g.cuWidth - 1 + g.Width()) ==>
      refAbove[i] == old(refAbove[i])
    ensures forall i :: 0 <= i < refAboveFlt.Length && !(g.cuWidth - 1 <= i < g.cuWidth - 1 + g.Width()) ==>
      refAboveFlt[i] == old(refAboveFlt[i])
    ensures forall i :: 0 <= i < refLeft.Length && !(g.cuWidth - 1 <= i < g.cuWidth - 1 + g.Height()) ==>
      refLeft[i] == old(refLeft[i])
    ensures forall i :: 0 <= i < refLeftFlt.Length && !(g.cuWidth - 1 <= i < g.cuWidth - 1 + g.Height()) ==>
      refLeftFlt[i] == old(refLeftFlt[i])
  {
    ghost var ref := BlockReferenceBorder(g, units, constrainedIntraPred, recon);
    ghost var flt := FilteredBorder(g, ref, strongEnabled);
    InitAdiPattern(g, units, constrainedIntraPred, recon, strongEnabled, strideOrig, heightOrig, adi);
    CopyBorders(g, adi, refAbove, refLeft, refAboveFlt, refLeftFlt, !SkipsBuffer(g, strideOrig, heightOrig), ref, flt);
  }

  /** CopyRefArrays, and what it means when the buffer holds the border from row 0 and its
      filtered copy from row height. */
  method CopyBorders(g: Geometry, adi: array2<int>, refAbove: array<int>, refLeft: array<int>,
                     refAboveFlt: array<int>, refLeftFlt: array<int>, ghost built: bool, ghost ref: Border, ghost flt: Border)
    requires g.Valid() && g.cuWidth > 0 && ref.Fits(g) && flt.Fits(g)
    requires 2 * g.Height() <= adi.Length0 && g.Width() <= adi.Length1
    requires g.cuWidth - 1 + g.Width() <= refAbove.Length && g.cuWidth - 1 + g.Width() <= refAboveFlt.Length
    requires g.cuWidth - 1 + g.Height() <= refLeft.Length && g.cuWidth - 1 + g.Height() <= refLeftFlt.Length
    requires refAbove != refLeft && refAbove != refAboveFlt && refAbove != refLeftFlt
    requires refLeft != refAboveFlt && refLeft != refLeftFlt && refAboveFlt != refLeftFlt
    requires built ==> HoldsBorder(adi, 0, ref) && HoldsBorder(adi, g.Height(), flt)
    modifies refAbove, refLeft, refAboveFlt, refLeftFlt
    ensures built ==> HoldsRefs(refAbove, refLeft, g.cuWidth - 1, ref) && HoldsRefs(refAboveFlt, refLeftFlt, g.cuWidth - 1, flt)
    ensures forall i :: g.cuWidth - 1 <= i < g.cuWidth - 1 + g.Width() ==> refAbove[i] == adi[0, i - (g.cuWidth - 1)]
    ensures forall i :: g.cuWidth - 1 <= i < g.cuWidth - 1 + g.Width() ==> refAboveFlt[i] == adi[g.Height(), i - (g.cuWidth - 1)]
    ensures forall i :: g.cuWidth - 1 <= i < g.cuWidth - 1 + g.Height() ==> refLeft[i] == adi[0 + (i - (g.cuWidth - 1)), 0]
    ensures forall i :: g.cuWidth - 1 <= i < g.cuWidth - 1 + g.Height() ==> refLeftFlt[i] == adi[g.Height() + (i - (g.cuWidth - 1)), 0]
    ensures forall i :: 0 <= i < refAbove.Length && !(g.cuWidth - 1 <= i < g.cuWidth - 1 + g.Width()) ==>
      refAbove[i] == old(refAbove[i])
    ensures forall i :: 0 <= i < refAboveFlt.Length && !(g.cuWidth - 1 <= i < g.cuWidth - 1 + g.Width()) ==>
      refAboveFlt[i] == old(refAboveFlt[i])
    ensures forall i :: 0 <= i < refLeft.Length && !(g.cuWidth - 1 <= i < g.cuWidth - 1 + g.Height()) ==>
      refLeft[i] == old(refLeft[i])
    ensures forall i :: 0 <= i < refLeftFlt.Length && !(g.cuWidth - 1 <= i < g.cuWidth - 1 + g.Height()) ==>
      refLeftFlt[i] == old(refLeftFlt[i])
  {
    CopyRefArrays(g, adi, refAbove, refLeft, refAboveFlt, refLeftFlt);
    if built {
      CopiedBorder(g, adi, 0, refAbove, refLeft, ref);
      CopiedBorder(g, adi, g.Height(), refAboveFlt, refLeftFlt, flt);
    }
  }

  /** A border held in the ADI buffer from row base, with row base and column 0 copied into
      `above` and `left` from index cuWidth - 1 on, is held by those arrays. */
  lemma CopiedBorder(g: Geometry, adi: array2<int>, base: nat, above: array<int>, left: array<int>, b: Border)
    requires g.Valid() && g.cuWidth > 0 && b.Fits(g) && HoldsBorder(adi, base, b)
    requires g.cuWidth - 1 + g.Width() <= above.Length && g.cuWidth - 1 + g.Height() <= left.Length
    requires base + g.Height() <= adi.Length0
    requires forall i :: g.cuWidth - 1 <= i < g.cuWidth - 1 + g.Width() ==> above[i] == adi[base, i - (g.cuWidth - 1)]
    requires forall i :: g.cuWidth - 1 <= i < g.cuWidth - 1 + g.Height() ==> left[i] == adi[base + (i - (g.cuWidth - 1)), 0]
    ensures HoldsRefs(above, left, g.cuWidth - 1, b)
  {
    var off := g.cuWidth - 1;
    assert above[off] == adi[base, 0];
    assert left[off] == adi[base + 0, 0];
    forall j | 0 <= j < |b.above|
      ensures above[off + 1 + j] == b.above[j]
    {
      assert above[off + 1 + j] == adi[base, 1 + j];
    }
    forall k | 0 <= k < |b.left|
      ensures left[off + 1 + k] == b.left[k]
    {
      assert left[off + 1 + k] == adi[base + (1 + k), 0];
    }
  }

  /** The chroma block geometry initAdiPatternChroma derives from the luma one: the unit size
      and the block width shifted by the horizontal chroma shift, the block height by the
      vertical one, and numUnitsInCU as (cuWidth / unitSize) >> horzShift. */
  function ChromaGeometry(luma: Geometry, horzShift: nat, vertShift: nat): (g: Geometry)
    requires ShiftRight(luma.unitSize, horzShift) > 0
    ensures g.unitSize > 0
  {
    var unitSize := ShiftRight(luma.unitSize, horzShift);
    Geometry(ShiftRight(luma.cuWidth, horzShift), ShiftRight(luma.cuHeight, vertShift), unitSize,
             ShiftRight(Quotient(luma.cuWidth, unitSize), horzShift))
  }

  /** 4:4:4: the chroma block is the luma block. */
  lemma ChromaGeometry444(luma: Geometry)
    requires luma.Valid()
    ensures ChromaGeometry(luma, 0, 0) == luma
  {
    UnitStartIs(luma.numUnitsInCU, luma.unitSize, luma.cuWidth);
    DivBetween(luma.cuWidth, luma.unitSize, luma.numUnitsInCU);
  }

  /** 4:2:0 with an even luma unit size: the chroma block is half as wide and high, made of
      the same number of units, each half as wide, so it has the shape the border needs. */
  lemma ChromaGeometry420(luma: Geometry)
    requires luma.Valid() && luma.unitSize % 2 == 0
    ensures ChromaGeometry(luma, 1, 1).Valid()
    ensures ChromaGeometry(luma, 1, 1).numUnitsInCU == luma.numUnitsInCU
    ensures 2 * ChromaGeometry(luma, 1, 1).cuWidth == luma.cuWidth
  {
    var n := luma.numUnitsInCU;
    var v := luma.unitSize / 2;
    UnitStartIs(n, luma.unitSize, luma.cuWidth);
    assert luma.unitSize == 2 * v;
    assert luma.cuWidth == (2 * n) * v;
    DivBetween(luma.cuWidth, v, 2 * n);
    DivBetween(2 * n, 2, n);
    assert luma.cuWidth == 2 * (n * v);
    DivBetween(luma.cuWidth, 2, n * v);
    UnitStartIs(n, v, n * v);
  }

  /** adiTemp of initAdiPatternChroma: row 0 for Cb, row 2 * height for Cr. */
  function ChromaBase(g: Geometry, chromaId: int): nat {
    if chromaId > 0 then 2 * g.Height() else 0
  }

  /** initAdiPatternChroma (lines 207-253): unless the caller's buffer is too small, the
      reference border of the chroma block is stored from row ChromaBase of the ADI buffer;
      no filtered copy is made and nothing else in the buffer changes. */
  method InitAdiPatternChroma(luma: Geometry, horzShift: nat, vertShift: nat, units: NeighbourUnits,
                              constrainedIntraPred: bool, recon: Border, chromaId: int,
                              strideOrig: int, heightOrig: int, adi: array2<int>)
    requires ShiftRight(luma.unitSize, horzShift) > 0
    requires ChromaGeometry(luma, horzShift, vertShift).Valid()
    requires units.Fits(ChromaGeometry(luma, horzShift, vertShift).numUnitsInCU)
    requires recon.Fits(ChromaGeometry(luma, horzShift, vertShift))
    requires var g := ChromaGeometry(luma, horzShift, vertShift);
      !SkipsBuffer(g, strideOrig, heightOrig) ==> ChromaBase(g, chromaId) + g.Height() <= adi.Length0 && g.Width() <= adi.Length1
    modifies adi
    ensures var g := ChromaGeometry(luma, horzShift, vertShift);
      SkipsBuffer(g, strideOrig, heightOrig) ==> unchanged(adi)
    ensures var g := ChromaGeometry(luma, horzShift, vertShift);
      !SkipsBuffer(g, strideOrig, heightOrig) ==>
        HoldsBorder(adi, ChromaBase(g, chromaId), BlockReferenceBorder(g, units, constrainedIntraPred, recon))
    ensures var g := ChromaGeometry(luma, horzShift, vertShift);
      forall r, c :: 0 <= r < adi.Length0 && 0 <= c < adi.Length1 && !OnBorder(g, ChromaBase(g, chromaId), r, c) ==>
        adi[r, c] == old(adi[r, c])
  {
    var g := ChromaGeometry(luma, horzShift, vertShift);
    var flags, numIntraNeighbor := DeriveNeighbourFlags(units, constrainedIntraPred, g.numUnitsInCU);
    if SkipsBuffer(g, strideOrig, heightOrig) {
      return;
    }
    FillReferenceSamples(g, flags, numIntraNeighbor, recon, adi, ChromaBase(g, chromaId));
  }
}
