/** fillReferenceSamples: the border of neighbouring samples an intra-predicted block is
    predicted from, with the substitution of section 8.4.4.2.2 of ITU-T H.265 for the
    neighbours that cannot be used. */
module ReferenceSamples {
  import opened PixelMath
  import opened SeqUtil
  import opened NeighbourFlags

  /** The block geometry fillReferenceSamples is called with: the block is cuWidth x cuHeight
      samples and its neighbours are checked in units of unitSize samples, numUnitsInCU
      units per block side. */
  datatype Geometry = Geometry(cuWidth: nat, cuHeight: nat, unitSize: nat, numUnitsInCU: nat)
  {
    /** Square blocks made of whole units: what the line layout of the partial case needs. */
    predicate Valid() {
      unitSize > 0 && UnitStart(numUnitsInCU, unitSize, cuWidth) && cuHeight == cuWidth
    }

    /** totalUnits: below-left, left, corner, above and above-right units. */
    function TotalUnits(): nat { 4 * numUnitsInCU + 1 }

    /** width: entries of the top row of the border, the corner included. */
    function Width(): nat { 2 * cuWidth + 1 }

    /** height: entries of the left column of the border, the corner included. */
    function Height(): nat { 2 * cuHeight + 1 }

    /** Length of the line buffer piAdiLine: the left column, one unit for the corner, the top row. */
    function LineLength(): nat { 2 * cuHeight + unitSize + 2 * cuWidth }
  }

  /** iTotalSamples, totalUnits * unitSize, is the length of the line. */
  lemma LineLengthIs(g: Geometry)
    requires g.Valid()
    ensures g.TotalUnits() * g.unitSize == g.LineLength()
  {
    UnitStartIs(g.numUnitsInCU, g.unitSize, g.cuWidth);
    assert g.TotalUnits() * g.unitSize == 4 * (g.numUnitsInCU * g.unitSize) + g.unitSize;
  }

  /** The line is totalUnits whole units. */
  lemma LineUnits(g: Geometry)
    requires g.Valid()
    ensures UnitStart(g.TotalUnits(), g.unitSize, g.LineLength())
  {
    LineLengthIs(g);
    UnitStartIs(g.TotalUnits(), g.unitSize, g.LineLength());
  }

  /** The left column and the top row are 2 * numUnitsInCU units each. */
  lemma HalfRuns(g: Geometry)
    requires g.Valid()
    ensures UnitStart(2 * g.numUnitsInCU, g.unitSize, 2 * g.cuHeight)
    ensures UnitStart(2 * g.numUnitsInCU, g.unitSize, 2 * g.cuWidth)
  {
    UnitStartIs(g.numUnitsInCU, g.unitSize, g.cuWidth);
    assert (2 * g.numUnitsInCU) * g.unitSize == 2 * (g.numUnitsInCU * g.unitSize);
    UnitStartIs(2 * g.numUnitsInCU, g.unitSize, 2 * g.cuHeight);
  }

  /** The samples around a block: the above-left corner, the column to the left read
      downwards (left[i] is the sample left of row i, rows 2*cuHeight deep) and the row above
      read rightwards (above[j] is the sample above column j, 2*cuWidth wide). */
  datatype Border = Border(corner: int, left: seq<int>, above: seq<int>)
  {
    predicate Fits(g: Geometry) {
      |left| == 2 * g.cuHeight && |above| == 2 * g.cuWidth
    }

    predicate IsPixels() {
      IsPixel(corner) && AllPixels(left) && AllPixels(above)
    }
  }

  /** Sample k of the reconstructed line: the left column read bottom-to-top, then the
      above-left corner repeated over one unit, then the top row read left-to-right. */
  function ReconAt(g: Geometry, recon: Border, k: int): int
    requires recon.Fits(g) && 0 <= k < g.LineLength()
  {
    if k < |recon.left| then recon.left[|recon.left| - 1 - k]
    else if k < 2 * g.cuHeight + g.unitSize then recon.corner
    else recon.above[k - 2 * g.cuHeight - g.unitSize]
  }

  /** The reconstructed samples in line order. */
  function ReconLine(g: Geometry, recon: Border): (line: seq<int>)
    requires recon.Fits(g)
    ensures |line| == g.LineLength()
  {
    seq(g.LineLength(), k requires 0 <= k < g.LineLength() => ReconAt(g, recon, k))
  }

  /** The line is the left column reversed, one unit of corner samples and the top row. */
  lemma ReconLineParts(g: Geometry, recon: Border)
    requires recon.Fits(g)
    ensures ReconLine(g, recon) == Reverse(recon.left) + Repeat(g.unitSize, recon.corner) + recon.above
  {
    var r := Reverse(recon.left) + Repeat(g.unitSize, recon.corner) + recon.above;
    forall k | 0 <= k < g.LineLength()
      ensures ReconLine(g, recon)[k] == r[k]
    {
      if k >= 2 * g.cuHeight + g.unitSize {
        assert r[k] == recon.above[k - 2 * g.cuHeight - g.unitSize];
      }
    }
  }

  /** Whether sample k of the line can be used: the flag of the unit it lies in. */
  function SampleUsable(g: Geometry, flags: seq<bool>, k: int): bool
    requires g.Valid() && |flags| == g.TotalUnits() && 0 <= k < g.LineLength()
  {
    LineUnits(g);
    UnitOfSampleBelow(k, g.TotalUnits(), g.unitSize, g.LineLength());
    flags[UnitOfSample(k, g.unitSize)]
  }

  /** The unit flags spread over the samples of the line. */
  function SampleFlags(g: Geometry, flags: seq<bool>): (avail: seq<bool>)
    requires g.Valid() && |flags| == g.TotalUnits()
    ensures |avail| == g.LineLength()
  {
    seq(g.LineLength(), k requires 0 <= k < g.LineLength() => SampleUsable(g, flags, k))
  }

  /** Every sample of unit c, which starts at lo, has the unit's flag. */
  lemma UnitFlags(g: Geometry, flags: seq<bool>, c: nat, lo: int)
    requires g.Valid() && |flags| == g.TotalUnits() && c < g.TotalUnits() && UnitStart(c, g.unitSize, lo)
    ensures 0 <= lo && lo + g.unitSize <= g.LineLength()
    ensures forall k :: lo <= k < lo + g.unitSize ==> SampleUsable(g, flags, k) == flags[c]
    ensures forall k :: lo <= k < lo + g.unitSize ==> SampleFlags(g, flags)[k] == flags[c]
  {
    LineUnits(g);
    UnitStartIs(c, g.unitSize, lo);
    MulNonNegative(c, g.unitSize);
    UnitStartBelow(c, g.TotalUnits(), g.unitSize, lo, g.LineLength());
    forall k | lo <= k < lo + g.unitSize
      ensures SampleUsable(g, flags, k) == flags[c]
    {
      UnitOfSampleIs(c, g.unitSize, lo, k);
    }
  }

  /** Sample k of the line after the initialisation to the DC value and the copy of every
      usable unit. */
  function GatheredAt(g: Geometry, flags: seq<bool>, recon: Border, k: int): int
    requires g.Valid() && |flags| == g.TotalUnits() && recon.Fits(g) && 0 <= k < g.LineLength()
  {
    if SampleUsable(g, flags, k) then ReconAt(g, recon, k) else DcValue()
  }

  /** The line after the initialisation to the DC value and the copy of every usable unit. */
  function GatheredLine(g: Geometry, flags: seq<bool>, recon: Border): (line: seq<int>)
    requires g.Valid() && |flags| == g.TotalUnits() && recon.Fits(g)
    ensures |line| == g.LineLength()
  {
    seq(g.LineLength(), k requires 0 <= k < g.LineLength() => GatheredAt(g, flags, recon, k))
  }

  /** Sample k of unit c of the gathered line is the reconstructed sample when flag c is set
      and the DC value otherwise. */
  lemma GatheredSample(g: Geometry, flags: seq<bool>, recon: Border, c: nat, lo: int, k: int)
    requires g.Valid() && |flags| == g.TotalUnits() && recon.Fits(g) && c < g.TotalUnits()
    requires UnitStart(c, g.unitSize, lo) && lo <= k < lo + g.unitSize
    ensures 0 <= k < g.LineLength()
    ensures GatheredAt(g, flags, recon, k) == if flags[c] then ReconAt(g, recon, k) else DcValue()
  {
    UnitFlags(g, flags, c, lo);
  }

  /** Index of the first true entry; |s| when there is none. */
  function FirstTrue(s: seq<bool>): (r: nat)
    ensures r <= |s|
    ensures forall i :: 0 <= i < r ==> !s[i]
    ensures r < |s| ==> s[r]
  {
    if |s| == 0 then 0
    else if s[0] then 0
    else 1 + FirstTrue(s[1..])
  }

  lemma FirstTrueIs(s: seq<bool>, r: nat)
    requires r < |s| && s[r] && forall i :: 0 <= i < r ==> !s[i]
    ensures FirstTrue(s) == r
  {
  }

  /** Some flag is set exactly when the count of set flags is positive. */
  lemma FirstTrueCount(s: seq<bool>)
    ensures FirstTrue(s) < |s| <==> CountTrue(s) > 0
  {
    CountTrueZero(s);
  }

  /** The first usable sample is the first sample of the first usable unit, which starts at p. */
  lemma FirstSample(g: Geometry, flags: seq<bool>, p: int)
    requires g.Valid() && |flags| == g.TotalUnits() && FirstTrue(flags) < |flags|
    requires UnitStart(FirstTrue(flags), g.unitSize, p)
    ensures 0 <= p && p + g.unitSize <= g.LineLength()
    ensures FirstTrue(SampleFlags(g, flags)) == p
  {
    var f := FirstTrue(flags);
    var u := g.unitSize;
    var avail := SampleFlags(g, flags);
    UnitFlags(g, flags, f, p);
    forall i | 0 <= i < p
      ensures !avail[i]
    {
      UnitOfSampleBelow(i, f, u, p);
    }
    FirstTrueIs(avail, p);
  }

  /** Some sample is usable as soon as some unit is. */
  lemma SomeSampleUsable(g: Geometry, flags: seq<bool>)
    requires g.Valid() && |flags| == g.TotalUnits() && FirstTrue(flags) < |flags|
    ensures FirstTrue(SampleFlags(g, flags)) < g.LineLength()
  {
    UnitStartIs(FirstTrue(flags), g.unitSize, FirstTrue(flags) * g.unitSize);
    FirstSample(g, flags, FirstTrue(flags) * g.unitSize);
  }

  /** Section 8.4.4.2.2 of ITU-T H.265, one sample at a time along the line: a usable sample
      is kept; an unusable first sample takes the first usable one; any other unusable sample
      takes the substituted value of the sample before it. */
  function Substitute(avail: seq<bool>, s: seq<int>, k: nat): (v: int)
    requires |avail| == |s| && k < |s| && FirstTrue(avail) < |avail|
    ensures exists j :: 0 <= j < |s| && avail[j] && v == s[j]
    decreases k
  {
    if avail[k] then s[k]
    else if k == 0 then s[FirstTrue(avail)]
    else Substitute(avail, s, k - 1)
  }

  function SubstitutedLine(avail: seq<bool>, s: seq<int>): (line: seq<int>)
    requires |avail| == |s| && FirstTrue(avail) < |avail|
    ensures |line| == |s|
  {
    seq(|s|, k requires 0 <= k < |s| => Substitute(avail, s, k))
  }

  /** Every sample before the first usable one takes the first usable sample. */
  lemma {:induction false} SubstituteLeading(avail: seq<bool>, s: seq<int>, k: nat)
    requires |avail| == |s| && FirstTrue(avail) < |avail| && k < FirstTrue(avail)
    ensures Substitute(avail, s, k) == s[FirstTrue(avail)]
  {
    if k > 0 {
      SubstituteLeading(avail, s, k - 1);
    }
  }

  /** A run of unusable samples after position a - 1 all take the value substituted at a - 1. */
  lemma {:induction false} SubstituteRun(avail: seq<bool>, s: seq<int>, a: nat, k: nat)
    requires |avail| == |s| && FirstTrue(avail) < |avail|
    requires 0 < a <= k < |s| && forall i :: a <= i <= k ==> !avail[i]
    ensures Substitute(avail, s, k) == Substitute(avail, s, a - 1)
  {
    if k > a {
      SubstituteRun(avail, s, a, k - 1);
    }
  }

  /** Substitution reads only the usable samples: two lines that agree there substitute alike. */
  lemma {:induction false} SubstituteReadsAvailable(avail: seq<bool>, s: seq<int>, t: seq<int>, k: nat)
    requires |avail| == |s| == |t| && FirstTrue(avail) < |avail| && k < |s|
    requires forall i :: 0 <= i < |s| && avail[i] ==> s[i] == t[i]
    ensures Substitute(avail, s, k) == Substitute(avail, t, k)
  {
    if !avail[k] && k > 0 {
      SubstituteReadsAvailable(avail, s, t, k - 1);
    }
  }

  /** The line after the padding pass of the partial case. */
  function PaddedLine(g: Geometry, flags: seq<bool>, recon: Border): (line: seq<int>)
    requires g.Valid() && |flags| == g.TotalUnits() && recon.Fits(g) && FirstTrue(flags) < |flags|
    ensures |line| == g.LineLength()
  {
    SomeSampleUsable(g, flags);
    SubstitutedLine(SampleFlags(g, flags), GatheredLine(g, flags, recon))
  }

  /** The DC initialisation of the line does not show through: the padded line is the
      substitution of the reconstruction itself. */
  lemma PaddedIgnoresDc(g: Geometry, flags: seq<bool>, recon: Border)
    requires g.Valid() && |flags| == g.TotalUnits() && recon.Fits(g) && FirstTrue(flags) < |flags|
    ensures FirstTrue(SampleFlags(g, flags)) < g.LineLength()
    ensures PaddedLine(g, flags, recon) == SubstitutedLine(SampleFlags(g, flags), ReconLine(g, recon))
  {
    SomeSampleUsable(g, flags);
    var avail := SampleFlags(g, flags);
    forall k | 0 <= k < g.LineLength()
      ensures PaddedLine(g, flags, recon)[k] == SubstitutedLine(avail, ReconLine(g, recon))[k]
    {
      SubstituteReadsAvailable(avail, GatheredLine(g, flags, recon), ReconLine(g, recon), k);
    }
  }

  /** Unit-level padding rule, leading units: every sample before the first usable unit,
      which starts at p, takes the first sample of that unit. */
  lemma LeadingUnitsPadded(g: Geometry, flags: seq<bool>, s: seq<int>, p: int)
    requires g.Valid() && |flags| == g.TotalUnits() && |s| == g.LineLength() && FirstTrue(flags) < |flags|
    requires UnitStart(FirstTrue(flags), g.unitSize, p)
    ensures 0 <= p < |s| && FirstTrue(SampleFlags(g, flags)) < |s|
    ensures forall k :: 0 <= k < p ==> SubstitutedLine(SampleFlags(g, flags), s)[k] == s[p]
  {
    FirstSample(g, flags, p);
    var avail := SampleFlags(g, flags);
    forall k | 0 <= k < p
      ensures SubstitutedLine(avail, s)[k] == s[p]
    {
      SubstituteLeading(avail, s, k);
    }
  }

  /** Unit-level padding rule, later units: every sample of an unusable unit c > 0, which
      starts at lo, takes the substituted sample just before the unit. */
  lemma UnusableUnitPadded(g: Geometry, flags: seq<bool>, s: seq<int>, c: nat, lo: int)
    requires g.Valid() && |flags| == g.TotalUnits() && |s| == g.LineLength() && FirstTrue(flags) < |flags|
    requires 0 < c < g.TotalUnits() && !flags[c] && UnitStart(c, g.unitSize, lo)
    ensures 0 < lo && lo + g.unitSize <= |s| && FirstTrue(SampleFlags(g, flags)) < |s|
    ensures forall k :: lo <= k < lo + g.unitSize ==>
      SubstitutedLine(SampleFlags(g, flags), s)[k] == SubstitutedLine(SampleFlags(g, flags), s)[lo - 1]
  {
    SomeSampleUsable(g, flags);
    UnitFlags(g, flags, c, lo);
    var avail := SampleFlags(g, flags);
    forall k | lo <= k < lo + g.unitSize
      ensures SubstitutedLine(avail, s)[k] == SubstitutedLine(avail, s)[lo - 1]
    {
      SubstituteRun(avail, s, lo, k);
    }
  }

  /** Unit-level padding rule, usable units: their samples are left as they are. */
  lemma UsableUnitKept(g: Geometry, flags: seq<bool>, s: seq<int>, c: nat, lo: int)
    requires g.Valid() && |flags| == g.TotalUnits() && |s| == g.LineLength() && FirstTrue(flags) < |flags|
    requires c < g.TotalUnits() && flags[c] && UnitStart(c, g.unitSize, lo)
    ensures 0 <= lo && lo + g.unitSize <= |s| && FirstTrue(SampleFlags(g, flags)) < |s|
    ensures forall k :: lo <= k < lo + g.unitSize ==> SubstitutedLine(SampleFlags(g, flags), s)[k] == s[k]
  {
    SomeSampleUsable(g, flags);
    UnitFlags(g, flags, c, lo);
  }

  /** Every padded sample is a copy of a usable reconstructed sample, so the line holds
      picture samples when the reconstruction does. */
  lemma PaddedPixels(g: Geometry, flags: seq<bool>, recon: Border)
    requires g.Valid() && |flags| == g.TotalUnits() && recon.Fits(g) && FirstTrue(flags) < |flags|
    requires recon.IsPixels()
    ensures AllPixels(PaddedLine(g, flags, recon))
  {
    SomeSampleUsable(g, flags);
    var avail := SampleFlags(g, flags);
    var gathered := GatheredLine(g, flags, recon);
    forall k | 0 <= k < g.LineLength()
      ensures IsPixel(PaddedLine(g, flags, recon)[k])
    {
      var j :| 0 <= j < |gathered| && avail[j] && Substitute(avail, gathered, k) == gathered[j];
      assert gathered[j] == ReconLine(g, recon)[j];
    }
  }

  /** The border read back from a line: the corner is the last sample of the corner unit,
      the left column runs down from the end of the left part, the top row follows the
      corner unit. */
  function LineToBorder(g: Geometry, line: seq<int>): (b: Border)
    requires g.Valid() && |line| == g.LineLength()
    ensures b.Fits(g)
  {
    var h2 := 2 * g.cuHeight;
    Border(line[h2 + g.unitSize - 1],
           seq(h2, i requires 0 <= i < h2 => line[h2 - 1 - i]),
           line[h2 + g.unitSize..h2 + g.unitSize + 2 * g.cuWidth])
  }

  /** Reading the border back from the reconstructed line gives the reconstruction. */
  lemma LineToBorderRecon(g: Geometry, recon: Border)
    requires g.Valid() && recon.Fits(g)
    ensures LineToBorder(g, ReconLine(g, recon)) == recon
  {
    var b := LineToBorder(g, ReconLine(g, recon));
    assert b.left == recon.left;
    assert b.above == recon.above;
  }

  /** With every unit usable, substitution changes nothing. */
  lemma {:induction false} SubstituteAllUsable(avail: seq<bool>, s: seq<int>)
    requires |avail| == |s| && 0 < |avail| && forall i :: 0 <= i < |avail| ==> avail[i]
    ensures FirstTrue(avail) < |avail|
    ensures SubstitutedLine(avail, s) == s
  {
  }

  /** The copy of the all-available case is what the padding of the partial case would
      produce: the three cases of fillReferenceSamples agree with one substitution rule. */
  lemma CopyAgreesWithPadding(g: Geometry, flags: seq<bool>, recon: Border)
    requires g.Valid() && |flags| == g.TotalUnits() && recon.Fits(g)
    requires forall c :: 0 <= c < |flags| ==> flags[c]
    ensures FirstTrue(flags) < |flags|
    ensures LineToBorder(g, PaddedLine(g, flags, recon)) == recon
  {
    assert flags[0];
    PaddedIgnoresDc(g, flags, recon);
    LineUnits(g);
    forall k | 0 <= k < g.LineLength()
      ensures SampleFlags(g, flags)[k]
    {
      UnitOfSampleBelow(k, g.TotalUnits(), g.unitSize, g.LineLength());
    }
    SubstituteAllUsable(SampleFlags(g, flags), ReconLine(g, recon));
    LineToBorderRecon(g, recon);
  }

  /** The border of the no-neighbour case: every entry is the DC value 1 << (X265_DEPTH - 1). */
  function DcBorder(g: Geometry): (b: Border)
    ensures b.Fits(g) && b.IsPixels()
  {
    Border(DcValue(), Repeat(2 * g.cuHeight, DcValue()), Repeat(2 * g.cuWidth, DcValue()))
  }

  /** The border fillReferenceSamples leaves in adiTemp, by numIntraNeighbor: DC when no unit
      is usable, the reconstruction when every unit is, the padded line otherwise. */
  function ReferenceBorder(g: Geometry, flags: seq<bool>, numIntraNeighbor: nat, recon: Border): (b: Border)
    requires g.Valid() && |flags| == g.TotalUnits() && recon.Fits(g)
    requires numIntraNeighbor == CountTrue(flags)
    ensures b.Fits(g)
  {
    if numIntraNeighbor == 0 then DcBorder(g)
    else if numIntraNeighbor == g.TotalUnits() then recon
    else
      FirstTrueCount(flags);
      LineToBorder(g, PaddedLine(g, flags, recon))
  }

  /** Whatever the availability, the reference border holds picture samples when the
      reconstruction does. */
  lemma ReferenceBorderPixels(g: Geometry, flags: seq<bool>, numIntraNeighbor: nat, recon: Border)
    requires g.Valid() && |flags| == g.TotalUnits() && recon.Fits(g)
    requires numIntraNeighbor == CountTrue(flags) && recon.IsPixels()
    ensures ReferenceBorder(g, flags, numIntraNeighbor, recon).IsPixels()
  {
    if numIntraNeighbor != 0 && numIntraNeighbor != g.TotalUnits() {
      FirstTrueCount(flags);
      PaddedPixels(g, flags, recon);
      var line := PaddedLine(g, flags, recon);
      var b := LineToBorder(g, line);
      assert forall i :: 0 <= i < |b.left| ==> b.left[i] == line[2 * g.cuHeight - 1 - i];
      assert forall j :: 0 <= j < |b.above| ==> b.above[j] == line[2 * g.cuHeight + g.unitSize + j];
    }
  }

  /** When some unit is usable, the reference border is the substitution of the
      reconstruction read back as a border, whether or not every unit is usable. */
  lemma ReferenceBorderIsSubstitution(g: Geometry, flags: seq<bool>, numIntraNeighbor: nat, recon: Border)
    requires g.Valid() && |flags| == g.TotalUnits() && recon.Fits(g)
    requires numIntraNeighbor == CountTrue(flags) && numIntraNeighbor > 0
    ensures FirstTrue(SampleFlags(g, flags)) < g.LineLength()
    ensures ReferenceBorder(g, flags, numIntraNeighbor, recon) ==
      LineToBorder(g, SubstitutedLine(SampleFlags(g, flags), ReconLine(g, recon)))
  {
    FirstTrueCount(flags);
    PaddedIgnoresDc(g, flags, recon);
    if numIntraNeighbor == g.TotalUnits() {
      CountTrueFull(flags);
      CopyAgreesWithPadding(g, flags, recon);
    }
  }

  /** An entry of the ADI buffer that belongs to the border stored from row `base`: the top
      row (width entries from column 0) or the left column (rows base + 1 .. base + height - 1). */
  predicate OnBorder(g: Geometry, base: nat, r: int, c: int) {
    Covered(base, g.Width(), base + g.Height() - 1, r, c)
  }

  /** The first `columns` entries of row `base` and column 0 of rows base + 1 .. lastRow:
      the part of a border written so far. */
  predicate Covered(base: nat, columns: int, lastRow: int, r: int, c: int) {
    (r == base && 0 <= c < columns) || (c == 0 && base < r <= lastRow)
  }

  /** The ADI buffer holds border b from row `base` on: the corner at (base, 0), the top row
      along row base from column 1, the left column down column 0 from row base + 1. */
  ghost predicate HoldsBorder(adi: array2<int>, base: nat, b: Border)
    reads adi
  {
    base + 1 + |b.left| <= adi.Length0 && 1 + |b.above| <= adi.Length1 &&
    adi[base, 0] == b.corner &&
    (forall r :: base < r <= base + |b.left| ==> adi[r, 0] == b.left[r - base - 1]) &&
    (forall c :: 0 < c <= |b.above| ==> adi[base, c] == b.above[c - 1])
  }

  /** Lines 259-273: no usable neighbour, every border entry takes the DC value. */
  method FillDcBorder(g: Geometry, adi: array2<int>, base: nat)
    requires base + g.Height() <= adi.Length0 && g.Width() <= adi.Length1
    modifies adi
    ensures forall j :: 0 <= j < g.Width() ==> adi[base, j] == DcValue()
    ensures forall r :: base < r < base + g.Height() ==> adi[r, 0] == DcValue()
    ensures HoldsBorder(adi, base, DcBorder(g))
    ensures forall r, c :: 0 <= r < adi.Length0 && 0 <= c < adi.Length1 && !OnBorder(g, base, r, c) ==>
      adi[r, c] == old(adi[r, c])
  {
    var i := 0;
    while i < g.Width()
      invariant 0 <= i <= g.Width()
      invariant forall j :: 0 <= j < i ==> adi[base, j] == DcValue()
      invariant forall r, c :: 0 <= r < adi.Length0 && 0 <= c < adi.Length1 && !Covered(base, i, base, r, c) ==>
        adi[r, c] == old(adi[r, c])
    {
      adi[base, i] := DcValue();
      i := i + 1;
    }
    i := 1;
    while i < g.Height()
      invariant 1 <= i <= g.Height()
      invariant forall j :: 0 <= j < g.Width() ==> adi[base, j] == DcValue()
      invariant forall r :: base < r < base + i ==> adi[r, 0] == DcValue()
      invariant forall r, c :: 0 <= r < adi.Length0 && 0 <= c < adi.Length1 && !Covered(base, g.Width(), base + i - 1, r, c) ==>
        adi[r, c] == old(adi[r, c])
    {
      adi[base + i, 0] := DcValue();
      i := i + 1;
    }
  }

  /** Lines 274-294: every neighbour usable, the border is copied from the reconstruction. */
  method CopyReconBorder(g: Geometry, recon: Border, adi: array2<int>, base: nat)
    requires recon.Fits(g) && base + g.Height() <= adi.Length0 && g.Width() <= adi.Length1
    modifies adi
    ensures HoldsBorder(adi, base, recon)
    ensures forall r, c :: 0 <= r < adi.Length0 && 0 <= c < adi.Length1 && !OnBorder(g, base, r, c) ==>
      adi[r, c] == old(adi[r, c])
  {
    adi[base, 0] := recon.corner;
    var i := 0;
    while i < 2 * g.cuHeight
      invariant 0 <= i <= 2 * g.cuHeight
      invariant adi[base, 0] == recon.corner
      invariant forall r :: base < r <= base + i ==> adi[r, 0] == recon.left[r - base - 1]
      invariant forall r, c :: 0 <= r < adi.Length0 && 0 <= c < adi.Length1 && !Covered(base, 1, base + i, r, c) ==>
        adi[r, c] == old(adi[r, c])
    {
      adi[base + 1 + i, 0] := recon.left[i];
      i := i + 1;
    }
    var j := 0;
    while j < 2 * g.cuWidth
      invariant 0 <= j <= 2 * g.cuWidth
      invariant adi[base, 0] == recon.corner
      invariant forall r :: base < r <= base + 2 * g.cuHeight ==> adi[r, 0] == recon.left[r - base - 1]
      invariant forall c :: 0 < c <= j ==> adi[base, c] == recon.above[c - 1]
      invariant forall r, c :: 0 <= r < adi.Length0 && 0 <= c < adi.Length1 && !Covered(base, j + 1, base + 2 * g.cuHeight, r, c) ==>
        adi[r, c] == old(adi[r, c])
    {
      adi[base, 1 + j] := recon.above[j];
      j := j + 1;
    }
  }

  /** A run of unitSize entries set to one value (the padding of one unit). */
  method FillUnit(line: array<int>, start: nat, unitSize: nat, value: int)
    requires start + unitSize <= line.Length
    modifies line
    ensures forall k :: 0 <= k < line.Length ==>
      line[k] == if start <= k < start + unitSize then value else old(line[k])
  {
    var i := 0;
    while i < unitSize
      invariant 0 <= i <= unitSize
      invariant forall k :: 0 <= k < line.Length ==>
        line[k] == if start <= k < start + i then value else old(line[k])
    {
      line[start + i] := value;
      i := i + 1;
    }
  }

  /** The copy of one unit of the top row into the line, left to right (a memcpy). */
  method CopyUnitUp(line: array<int>, lo: nat, src: seq<int>, from: nat, unitSize: nat)
    requires lo + unitSize <= line.Length && from + unitSize <= |src|
    modifies line
    ensures forall k :: 0 <= k < line.Length ==>
      line[k] == if lo <= k < lo + unitSize then src[from + (k - lo)] else old(line[k])
  {
    var i := 0;
    while i < unitSize
      invariant 0 <= i <= unitSize
      invariant forall k :: 0 <= k < line.Length ==>
        line[k] == if lo <= k < lo + i then src[from + (k - lo)] else old(line[k])
    {
      line[lo + i] := src[from + i];
      i := i + 1;
    }
  }

  /** The copy of one unit of the left column into the line: sample i of the run lands at
      lo + unitSize - 1 - i, so the run is stored bottom-to-top. */
  method CopyUnitDown(line: array<int>, lo: nat, src: seq<int>, from: nat, unitSize: nat)
    requires lo + unitSize <= line.Length && from + unitSize <= |src|
    modifies line
    ensures forall k :: 0 <= k < line.Length ==>
      line[k] == if lo <= k < lo + unitSize then src[from + (lo + unitSize - 1 - k)] else old(line[k])
  {
    var i := 0;
    while i < unitSize
      invariant 0 <= i <= unitSize
      invariant forall k :: 0 <= k < line.Length ==>
        line[k] == if lo + unitSize - i <= k < lo + unitSize then src[from + (lo + unitSize - 1 - k)] else old(line[k])
    {
      line[lo + unitSize - 1 - i] := src[from + i];
      i := i + 1;
    }
  }

  /** One unit of the top row stored into the line when it is usable; an unusable unit is
      left as it is. */
  method StoreUnitUp(line: array<int>, usable: bool, lo: nat, src: seq<int>, from: nat, unitSize: nat)
    requires lo + unitSize <= line.Length && from + unitSize <= |src|
    modifies line
    ensures forall k :: 0 <= k < line.Length ==>
      line[k] == if usable && lo <= k < lo + unitSize then src[from + (k - lo)] else old(line[k])
  {
    if usable {
      CopyUnitUp(line, lo, src, from, unitSize);
    }
  }

  /** One unit of the left column stored bottom-to-top into the line when it is usable. */
  method StoreUnitDown(line: array<int>, usable: bool, lo: nat, src: seq<int>, from: nat, unitSize: nat)
    requires lo + unitSize <= line.Length && from + unitSize <= |src|
    modifies line
    ensures forall k :: 0 <= k < line.Length ==>
      line[k] == if usable && lo <= k < lo + unitSize then src[from + (lo + unitSize - 1 - k)] else old(line[k])
  {
    if usable {
      CopyUnitDown(line, lo, src, from, unitSize);
    }
  }

  /** Lines 305-309: the line buffer starts out as the DC value throughout. */
  method InitLine(totalSamples: nat) returns (line: array<int>)
    ensures fresh(line)
    ensures line[..] == Repeat(totalSamples, DcValue())
  {
    line := new int[totalSamples];
    var i := 0;
    while i < totalSamples
      invariant 0 <= i <= totalSamples
      invariant forall k :: 0 <= k < i ==> line[k] == DcValue()
    {
      line[i] := DcValue();
      i := i + 1;
    }
  }

  /** Lines 311-322: the corner unit, when usable, holds the above-left sample repeated. */
  method GatherCorner(g: Geometry, flags: array<bool>, recon: Border, line: array<int>)
    requires g.Valid() && flags.Length == g.TotalUnits() && recon.Fits(g) && line.Length == g.LineLength()
    requires forall k :: 2 * g.cuHeight <= k < 2 * g.cuHeight + g.unitSize ==> line[k] == DcValue()
    modifies line
    ensures forall k :: 0 <= k < line.Length ==>
      line[k] == if 2 * g.cuHeight <= k < 2 * g.cuHeight + g.unitSize then GatheredAt(g, flags[..], recon, k)
                 else old(line[k])
  {
    var numUnits2 := 2 * g.numUnitsInCU;
    var pos := 2 * g.cuHeight;
    HalfRuns(g);
    forall k | pos <= k < pos + g.unitSize
      ensures GatheredAt(g, flags[..], recon, k) == if flags[numUnits2] then recon.corner else DcValue()
    {
      GatheredSample(g, flags[..], recon, numUnits2, pos, k);
    }
    if flags[numUnits2] {
      line[pos] := recon.corner;
      FillUnit(line, pos + 1, g.unitSize - 1, line[pos]);
    }
  }

  /** The n units of a run of |src| samples copied downwards into the bottom of the line,
      unit c only when flags[c] is set: the store loop of lines 324-340 on its own. `target`
      is the run after the copy; it holds the DC value where a unit is not copied. */
  method CopyUnitsDown(line: array<int>, flags: seq<bool>, src: seq<int>, u: nat, n: nat,
                       ghost target: seq<int>)
    requires u > 0 && n <= |flags| && UnitStart(n, u, |target|)
    requires |src| == |target| <= line.Length
    requires forall k :: 0 <= k < |target| ==> line[k] == DcValue()
    requires forall c, lo, k :: 0 <= c < n && UnitStart(c, u, lo) && lo <= k < lo + u && k < |target| ==>
      target[k] == if flags[c] then src[|src| - 1 - k] else DcValue()
    modifies line
    ensures forall k :: 0 <= k < line.Length ==> line[k] == if k < |target| then target[k] else old(line[k])
  {
    var hi := |src|;
    var flag: int := n - 1;
    var from := 0;
    while flag >= 0
      invariant -1 <= flag < n
      invariant UnitStart(flag + 1, u, hi) && from + hi == |src|
      invariant forall k :: 0 <= k < line.Length ==> line[k] == if hi <= k < |target| then target[k] else old(line[k])
      decreases flag
    {
      var lo := hi - u;
      assert UnitStart(flag, u, lo);
      StoreUnitDown(line, flags[flag], lo, src, from, u);
      hi := lo;
      flag := flag - 1;
      from := from + u;
    }
  }

  /** The n units of a run of |src| samples copied upwards into the line from `start` on,
      unit c only when flags[first + c] is set: the store loop of lines 342-355 on its own. */
  method CopyUnitsUp(line: array<int>, flags: seq<bool>, first: nat, src: seq<int>, u: nat, n: nat,
                     start: nat, ghost target: seq<int>)
    requires u > 0 && first + n <= |flags| && UnitStart(n, u, |target|)
    requires |src| == |target| && start + |target| <= line.Length
    requires forall k :: start <= k < start + |target| ==> line[k] == DcValue()
    requires forall c, off, k :: 0 <= c < n && UnitStart(c, u, off) && off <= k < off + u && k < |target| ==>
      target[k] == if flags[first + c] then src[k] else DcValue()
    modifies line
    ensures forall k :: 0 <= k < line.Length ==>
      line[k] == if start <= k < start + |target| then target[k - start] else old(line[k])
  {
    var c := 0;
    var off := 0;
    while c < n
      invariant 0 <= c <= n && UnitStart(c, u, off) && 0 <= off <= |target|
      invariant forall k :: 0 <= k < line.Length ==>
        line[k] == if start <= k < start + off then target[k - start] else old(line[k])
    {
      UnitStartBelow(c, n, u, off, |target|);
      StoreUnitUp(line, flags[first + c], start + off, src, off, u);
      UnitStartNext(c, u, off);
      c := c + 1;
      off := off + u;
    }
    UnitStartUnique(n, u, off, |target|);
  }

  /** Samples of the left part of the gathered line, unit by unit, for the units below
      2 * numUnitsInCU. */
  lemma LeftUnits(g: Geometry, flags: seq<bool>, recon: Border, target: seq<int>)
    requires g.Valid() && |flags| == g.TotalUnits() && recon.Fits(g)
    requires |target| == 2 * g.cuHeight
    requires forall k :: 0 <= k < |target| ==> target[k] == GatheredAt(g, flags, recon, k)
    ensures UnitStart(2 * g.numUnitsInCU, g.unitSize, |target|)
    ensures forall c, lo, k ::
      0 <= c < 2 * g.numUnitsInCU && UnitStart(c, g.unitSize, lo) && lo <= k < lo + g.unitSize && k < |target| ==>
      target[k] == if flags[c] then recon.left[|recon.left| - 1 - k] else DcValue()
  {
    var u := g.unitSize;
    var n2 := 2 * g.numUnitsInCU;
    HalfRuns(g);
    forall c, lo, k | 0 <= c < n2 && UnitStart(c, u, lo) && lo <= k < lo + u && k < |target|
      ensures target[k] == if flags[c] then recon.left[|recon.left| - 1 - k] else DcValue()
    {
      GatheredSample(g, flags, recon, c, lo, k);
    }
  }

  /** Sample k of the top row, in unit c of the row, which starts at offset off: the
      above sample when flag 2 * numUnitsInCU + 1 + c is set and the DC value otherwise. */
  lemma AboveSample(g: Geometry, flags: seq<bool>, recon: Border, c: nat, off: int, k: int)
    requires g.Valid() && |flags| == g.TotalUnits() && recon.Fits(g)
    requires c < 2 * g.numUnitsInCU && UnitStart(c, g.unitSize, off) && off <= k < off + g.unitSize
    ensures 0 <= k < 2 * g.cuWidth
    ensures GatheredAt(g, flags, recon, 2 * g.cuHeight + g.unitSize + k) ==
      if flags[2 * g.numUnitsInCU + 1 + c] then recon.above[k] else DcValue()
  {
    var u := g.unitSize;
    var n2 := 2 * g.numUnitsInCU;
    var start := 2 * g.cuHeight + u;
    HalfRuns(g);
    UnitStartBelow(c, n2, u, off, 2 * g.cuWidth);
    AboveUnitStart(n2, 2 * g.cuHeight, start, c, u, off);
    GatheredSample(g, flags, recon, n2 + 1 + c, start + off, start + k);
    assert ReconAt(g, recon, start + k) == recon.above[k];
  }

  /** Samples of the top-row part of the gathered line, unit by unit; offsets count from
      the end of the corner unit. */
  lemma AboveUnits(g: Geometry, flags: seq<bool>, recon: Border, target: seq<int>)
    requires g.Valid() && |flags| == g.TotalUnits() && recon.Fits(g)
    requires |target| == 2 * g.cuWidth
    requires forall k :: 0 <= k < |target| ==> target[k] == GatheredAt(g, flags, recon, 2 * g.cuHeight + g.unitSize + k)
    ensures UnitStart(2 * g.numUnitsInCU, g.unitSize, |target|)
    ensures forall c, off, k ::
      0 <= c < 2 * g.numUnitsInCU && UnitStart(c, g.unitSize, off) && off <= k < off + g.unitSize && k < |target| ==>
      target[k] == if flags[2 * g.numUnitsInCU + 1 + c] then recon.above[k] else DcValue()
  {
    HalfRuns(g);
    forall c, off, k | 0 <= c < 2 * g.numUnitsInCU && UnitStart(c, g.unitSize, off) && off <= k < off + g.unitSize &&
      k < |target|
      ensures target[k] == if flags[2 * g.numUnitsInCU + 1 + c] then recon.above[k] else DcValue()
    {
      AboveSample(g, flags, recon, c, off, k);
    }
  }

  /** Unit c of the top row, which starts at offset off, is unit n2 + 1 + c of the line when
      the top row starts at `start`, after n2 units ending at h and one more unit. */
  lemma {:induction false} AboveUnitStart(n2: nat, h: int, start: int, c: nat, u: nat, off: int)
    requires 0 <= h && start == h + u && UnitStart(n2, u, h) && UnitStart(c, u, off)
    ensures UnitStart(n2 + 1 + c, u, start + off)
    decreases c
  {
    if c == 0 {
      UnitStartNext(n2, u, h);
    } else {
      AboveUnitStart(n2, h, start, c - 1, u, off - u);
    }
  }

  /** Lines 324-340: the left and below-left units, when usable, copied downwards from the
      end of the left part of the line, one unit per flag from flag 2 * numUnitsInCU - 1 down. */
  method GatherLeft(g: Geometry, flags: array<bool>, recon: Border, line: array<int>)
    requires g.Valid() && flags.Length == g.TotalUnits() && recon.Fits(g) && line.Length == g.LineLength()
    requires forall k :: 0 <= k < 2 * g.cuHeight ==> line[k] == DcValue()
    modifies line
    ensures forall k :: 0 <= k < line.Length ==>
      line[k] == if k < 2 * g.cuHeight then GatheredAt(g, flags[..], recon, k) else old(line[k])
  {
    var units := flags[..];
    ghost var target := seq(2 * g.cuHeight, k requires 0 <= k < 2 * g.cuHeight => GatheredAt(g, units, recon, k));
    LeftUnits(g, units, recon, target);
    CopyUnitsDown(line, units, recon.left, g.unitSize, 2 * g.numUnitsInCU, target);
  }

  /** Lines 342-355: the above and above-right units, when usable, copied rightwards after
      the corner unit, one unit per flag from flag 2 * numUnitsInCU + 1 up. */
  method GatherAbove(g: Geometry, flags: array<bool>, recon: Border, line: array<int>)
    requires g.Valid() && flags.Length == g.TotalUnits() && recon.Fits(g) && line.Length == g.LineLength()
    requires forall k :: 2 * g.cuHeight + g.unitSize <= k < line.Length ==> line[k] == DcValue()
    modifies line
    ensures forall k :: 0 <= k < line.Length ==>
      line[k] == if 2 * g.cuHeight + g.unitSize <= k then GatheredAt(g, flags[..], recon, k) else old(line[k])
  {
    var start := 2 * g.cuHeight + g.unitSize;
    var units := flags[..];
    ghost var target := seq(2 * g.cuWidth, k requires 0 <= k < 2 * g.cuWidth =>
      GatheredAt(g, units, recon, 2 * g.cuHeight + g.unitSize + k));
    AboveUnits(g, units, recon, target);
    CopyUnitsUp(line, units, 2 * g.numUnitsInCU + 1, recon.above, g.unitSize, 2 * g.numUnitsInCU,
      start, target);
  }

  /** Lines 297-355: the line of the partial case before padding. */
  method GatherLine(g: Geometry, flags: array<bool>, recon: Border) returns (line: array<int>)
    requires g.Valid() && flags.Length == g.TotalUnits() && recon.Fits(g)
    ensures fresh(line)
    ensures line[..] == GatheredLine(g, flags[..], recon)
  {
    LineLengthIs(g);
    line := InitLine(g.TotalUnits() * g.unitSize);
    assert forall k :: 0 <= k < line.Length ==> line[k] == line[..][k];
    GatherCorner(g, flags, recon, line);
    GatherLeft(g, flags, recon, line);
    GatherAbove(g, flags, recon, line);
    assert forall k :: 0 <= k < line.Length ==> line[..][k] == GatheredLine(g, flags[..], recon)[k];
  }

  /** Lines 367-370: the first usable unit at or after `from`, or the unit count if none. */
  method SkipUnusable(flags: seq<bool>, from: nat) returns (next: nat)
    requires from <= |flags|
    ensures from <= next <= |flags|
    ensures forall i :: from <= i < next ==> !flags[i]
    ensures next < |flags| ==> flags[next]
  {
    next := from;
    while next < |flags| && !flags[next]
      invariant from <= next <= |flags|
      invariant forall i :: from <= i < next ==> !flags[i]
    {
      next := next + 1;
    }
  }

  /** Lines 357-402 on their own: the padding pass over n units of u samples, unit by unit.
      `padded` is the line it must produce: before the first usable unit, which starts at
      `first`, every sample is the first sample of that unit; an unusable unit after it
      repeats the sample just before it; a usable unit keeps its samples. */
  method PadUnits(line: array<int>, flags: seq<bool>, u: nat, n: nat, ghost first: int, ghost padded: seq<int>)
    requires u > 0 && |flags| == n && UnitStart(n, u, line.Length) && |padded| == line.Length
    requires FirstTrue(flags) < n && UnitStart(FirstTrue(flags), u, first) && 0 <= first < line.Length
    requires forall k :: 0 <= k < first ==> padded[k] == line[first]
    requires forall c, lo, k :: 0 < c < n && !flags[c] && UnitStart(c, u, lo) && 1 <= lo <= k < lo + u && k < |padded| ==>
      padded[k] == padded[lo - 1]
    requires forall c, lo, k :: 0 <= c < n && flags[c] && UnitStart(c, u, lo) && 0 <= lo <= k < lo + u && k < |padded| ==>
      padded[k] == line[k]
    modifies line
    ensures forall k :: 0 <= k < line.Length ==> line[k] == padded[k]
  {
    ghost var s0 := line[..];
    var curr := 0;
    var next := 1;
    var pos := 0;
    while curr < n
      invariant 0 <= curr <= n && 0 <= pos && UnitStart(curr, u, pos) && (curr == 0 ==> next == 1)
      invariant forall k :: 0 <= k < line.Length ==> line[k] == if k < pos then padded[k] else s0[k]
    {
      UnitStartBelow(curr, n, u, pos, line.Length);
      if !flags[curr] {
        if curr == 0 {
          next := SkipUnusable(flags, next);
          assert flags[FirstTrue(flags)];
          FirstTrueIs(flags, next);
          UnitStartIs(next, u, first);
          var ref := line[next * u];
          while curr < next
            invariant 0 <= curr <= next && 0 <= pos && UnitStart(curr, u, pos)
            invariant forall k :: 0 <= k < line.Length ==> line[k] == if k < pos then padded[k] else s0[k]
          {
            UnitStartBelow(curr, next, u, pos, first);
            FillUnit(line, pos, u, ref);
            UnitStartNext(curr, u, pos);
            pos := pos + u;
            curr := curr + 1;
          }
        } else {
          var ref := line[pos - 1];
          FillUnit(line, pos, u, ref);
          UnitStartNext(curr, u, pos);
          pos := pos + u;
          curr := curr + 1;
        }
      } else {
        UnitStartNext(curr, u, pos);
        pos := pos + u;
        curr := curr + 1;
      }
    }
    UnitStartUnique(n, u, pos, line.Length);
  }

  /** The padding pass of fillReferenceSamples: the line ends up as the sample-wise
      substitution of section 8.4.4.2.2 of ITU-T H.265. */
  method PadLine(g: Geometry, flags: seq<bool>, line: array<int>)
    requires g.Valid() && |flags| == g.TotalUnits() && line.Length == g.LineLength()
    requires FirstTrue(flags) < |flags|
    modifies line
    ensures FirstTrue(SampleFlags(g, flags)) < g.LineLength()
    ensures line[..] == SubstitutedLine(SampleFlags(g, flags), old(line[..]))
  {
    SomeSampleUsable(g, flags);
    LineUnits(g);
    ghost var s0 := line[..];
    ghost var padded := SubstitutedLine(SampleFlags(g, flags), s0);
    var u := g.unitSize;
    ghost var first := FirstTrue(flags) * u;
    UnitStartIs(FirstTrue(flags), u, first);
    LeadingUnitsPadded(g, flags, s0, first);
    forall c, lo, k | 0 < c < |flags| && !flags[c] && UnitStart(c, u, lo) && 1 <= lo <= k < lo + u && k < |padded|
      ensures padded[k] == padded[lo - 1]
    {
      UnusableUnitPadded(g, flags, s0, c, lo);
    }
    forall c, lo, k | 0 <= c < |flags| && flags[c] && UnitStart(c, u, lo) && 0 <= lo <= k < lo + u && k < |padded|
      ensures padded[k] == line[k]
    {
      UsableUnitKept(g, flags, s0, c, lo);
    }
    PadUnits(line, flags, u, g.TotalUnits(), first, padded);
    assert forall k :: 0 <= k < line.Length ==> line[..][k] == padded[k];
  }

  /** Lines 404-412: the corner and the top row copied from the last sample of the corner
      unit on, the left column read backwards from the end of the left part. */
  method CopyLineToBorder(g: Geometry, line: array<int>, adi: array2<int>, base: nat)
    requires g.Valid() && line.Length == g.LineLength()
    requires base + g.Height() <= adi.Length0 && g.Width() <= adi.Length1
    modifies adi
    ensures HoldsBorder(adi, base, LineToBorder(g, line[..]))
    ensures forall r, c :: 0 <= r < adi.Length0 && 0 <= c < adi.Length1 && !OnBorder(g, base, r, c) ==>
      adi[r, c] == old(adi[r, c])
  {
    var from := g.Height() + g.unitSize - 2;
    var j := 0;
    while j < g.Width()
      invariant 0 <= j <= g.Width()
      invariant forall c :: 0 <= c < j ==> adi[base, c] == line[from + c]
      invariant forall r, c :: 0 <= r < adi.Length0 && 0 <= c < adi.Length1 && !Covered(base, j, base, r, c) ==>
        adi[r, c] == old(adi[r, c])
    {
      adi[base, j] := line[from + j];
      j := j + 1;
    }
    var last := g.Height() - 1;
    var i := 1;
    while i < g.Height()
      invariant 1 <= i <= g.Height()
      invariant forall c :: 0 <= c < g.Width() ==> adi[base, c] == line[from + c]
      invariant forall r :: base < r < base + i ==> adi[r, 0] == line[last - (r - base)]
      invariant forall r, c :: 0 <= r < adi.Length0 && 0 <= c < adi.Length1 && !Covered(base, g.Width(), base + i - 1, r, c) ==>
        adi[r, c] == old(adi[r, c])
    {
      adi[base + i, 0] := line[last - i];
      i := i + 1;
    }
  }

  /** fillReferenceSamples (lines 255-414): the border left in adiTemp, stored from row
      `base` of the ADI buffer, for the given unit flags and their count. */
  method FillReferenceSamples(g: Geometry, flags: array<bool>, numIntraNeighbor: nat, recon: Border,
                              adi: array2<int>, base: nat)
    requires g.Valid() && flags.Length == g.TotalUnits() && recon.Fits(g)
    requires numIntraNeighbor == CountTrue(flags[..])
    requires base + g.Height() <= adi.Length0 && g.Width() <= adi.Length1
    modifies adi
    ensures HoldsBorder(adi, base, ReferenceBorder(g, flags[..], numIntraNeighbor, recon))
    ensures forall r, c :: 0 <= r < adi.Length0 && 0 <= c < adi.Length1 && !OnBorder(g, base, r, c) ==>
      adi[r, c] == old(adi[r, c])
  {
    if numIntraNeighbor == 0 {
      FillDcBorder(g, adi, base);
    } else if numIntraNeighbor == g.TotalUnits() {
      CopyReconBorder(g, recon, adi, base);
    } else {
      FirstTrueCount(flags[..]);
      var line := GatherLine(g, flags, recon);
      PadLine(g, flags[..], line);
      CopyLineToBorder(g, line, adi, base);
    }
  }
}
