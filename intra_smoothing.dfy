/** The filtering half of initAdiPattern: the reference border laid out as one linear run,
    smoothed with the [1 2 1] filter or, for large flat blocks, with the bilinear strong
    intra smoothing of section 8.4.4.2.3 of ITU-T H.265, and stored back as a border. */
module IntraSmoothing {
  import opened PixelMath
  import opened ReferenceSamples

  /** Entry k of the linear run filterBuf: the left column bottom-to-top, then the corner,
      then the top row left-to-right. */
  function LinearAt(b: Border, k: int): int
    requires 0 <= k < |b.left| + 1 + |b.above|
  {
    if k < |b.left| then b.left[|b.left| - 1 - k]
    else if k == |b.left| then b.corner
    else b.above[k - |b.left| - 1]
  }

  /** Lines 108-119: the border as the linear run filterBuf of bufSize entries. */
  function LinearBorder(b: Border): (s: seq<int>)
    ensures |s| == |b.left| + 1 + |b.above|
  {
    seq(|b.left| + 1 + |b.above|, k requires 0 <= k < |b.left| + 1 + |b.above| => LinearAt(b, k))
  }

  /** Lines 170-178: a linear run read back as a border whose left column is h2 samples long. */
  function LinearToBorder(s: seq<int>, h2: nat): (b: Border)
    requires h2 < |s|
    ensures |b.left| == h2 && |b.left| + 1 + |b.above| == |s|
  {
    Border(s[h2], seq(h2, i requires 0 <= i < h2 => s[h2 - 1 - i]), s[h2 + 1..])
  }

  /** Reading the linear run back gives the border it was laid out from. */
  lemma LinearRoundTrip(b: Border)
    ensures LinearToBorder(LinearBorder(b), |b.left|) == b
  {
    var s := LinearBorder(b);
    var r := LinearToBorder(s, |b.left|);
    forall i | 0 <= i < |b.left|
      ensures r.left[i] == b.left[i]
    {
      assert r.left[i] == s[|b.left| - 1 - i];
    }
    forall j | 0 <= j < |b.above|
      ensures r.above[j] == b.above[j]
    {
      assert r.above[j] == s[|b.left| + 1 + j];
    }
  }

  /** Laying a border read from a linear run out again gives the run. */
  lemma BorderRoundTrip(s: seq<int>, h2: nat)
    requires h2 < |s|
    ensures LinearBorder(LinearToBorder(s, h2)) == s
  {
    var b := LinearToBorder(s, h2);
    forall k | 0 <= k < |s|
      ensures LinearBorder(b)[k] == s[k]
    {
      if k < h2 {
        assert b.left[h2 - 1 - k] == s[h2 - 1 - (h2 - 1 - k)];
      } else if k > h2 {
        assert b.above[k - h2 - 1] == s[h2 + 1 + (k - h2 - 1)];
      }
    }
  }

  /** One tap of the [1 2 1] filter with rounding, (a + 2b + c + 2) >> 2. */
  function Smooth121(a: int, b: int, c: int): int {
    (a + 2 * b + c + 2) / 4
  }

  /** A smoothed sample lies between the smallest and the largest of its three taps. */
  lemma Smooth121Between(a: int, b: int, c: int)
    ensures Min(a, Min(b, c)) <= Smooth121(a, b, c) <= Max(a, Max(b, c))
  {
    DivBounds(a + 2 * b + c + 2, 4, Min(a, Min(b, c)), Max(a, Max(b, c)));
  }

  /** Entry i of the [1 2 1]-filtered run: both ends are kept, every other entry is smoothed
      with its two neighbours. */
  function Filter121At(s: seq<int>, i: int): int
    requires 0 <= i < |s|
  {
    if i == 0 || i == |s| - 1 then s[i] else Smooth121(s[i - 1], s[i], s[i + 1])
  }

  /** Lines 150-157 and 161-167: the [1 2 1]-filtered run filterBufN. */
  function Filter121(s: seq<int>): (r: seq<int>)
    ensures |r| == |s|
  {
    seq(|s|, i requires 0 <= i < |s| => Filter121At(s, i))
  }

  /** The [1 2 1] filter keeps both ends of the run and never leaves the range of the three
      samples it reads. */
  lemma Filter121Bounds(s: seq<int>, i: nat)
    requires 0 < i < |s| - 1
    ensures Filter121(s)[0] == s[0] && Filter121(s)[|s| - 1] == s[|s| - 1]
    ensures Min(s[i - 1], Min(s[i], s[i + 1])) <= Filter121(s)[i] <= Max(s[i - 1], Max(s[i], s[i + 1]))
  {
    Smooth121Between(s[i - 1], s[i], s[i + 1]);
  }

  /** The [1 2 1] filter maps picture samples to picture samples. */
  lemma Filter121Pixels(s: seq<int>)
    requires AllPixels(s)
    ensures AllPixels(Filter121(s))
  {
    forall i | 0 < i < |s| - 1
      ensures IsPixel(Filter121(s)[i])
    {
      Smooth121Between(s[i - 1], s[i], s[i + 1]);
    }
  }

  /** A flat run, such as the DC border of a block without neighbours, is left as it is. */
  lemma Filter121Flat(s: seq<int>, v: int)
    requires forall i :: 0 <= i < |s| ==> s[i] == v
    ensures Filter121(s) == s
  {
    forall i | 0 <= i < |s|
      ensures Filter121(s)[i] == s[i]
    {
      if 0 < i < |s| - 1 {
        assert Smooth121(v, v, v) == (4 * v + 2) / 4;
        DivBetween(4 * v + 2, 4, v);
      }
    }
  }

  /** g_convertToBit: log2(width) - 2 for the block widths 4 to 64, -1 for any other width. */
  function ConvertToBit(width: nat): (r: int)
    ensures -1 <= r <= 4
  {
    if width == 4 then 0
    else if width == 8 then 1
    else if width == 16 then 2
    else if width == 32 then 3
    else if width == 64 then 4
    else -1
  }

  /** The block widths of the coding tree: 4, 8, 16, 32 and 64. */
  predicate IsBlockWidth(w: nat) {
    w == 4 || w == 8 || w == 16 || w == 32 || w == 64
  }

  /** The shift of the strong filter, ConvertToBit(cuWidth) + 3, is log2 of 2 * cuWidth. */
  lemma StrongShiftIsLog(w: nat)
    requires IsBlockWidth(w)
    ensures Pow2(ConvertToBit(w) + 3) == 2 * w
  {
    assert Pow2(3) == 8;
    assert Pow2(4) == 16;
    assert Pow2(5) == 32;
    assert Pow2(6) == 64;
    assert Pow2(7) == 128;
  }

  /** threshold of the flatness test: 1 << (X265_DEPTH - 5). */
  function StrongThreshold(): (t: nat)
    ensures t == 8
  {
    assert Pow2(3) == 8;
    Pow2(BitDepth - 5)
  }

  /** Lines 121-130: the strong filter applies when the SPS enables it, the block is at least
      32 samples wide and both the left run and the top run are close to straight lines
      through their end samples and the corner. */
  predicate UseStrongSmoothing(g: Geometry, s: seq<int>, strongEnabled: bool)
    requires g.Valid() && |s| == 2 * g.cuHeight + 2 * g.cuWidth + 1
  {
    var bottomLeft := s[0];
    var topLeft := s[2 * g.cuHeight];
    var topRight := s[|s| - 1];
    strongEnabled && g.cuWidth >= 32 &&
    Abs(bottomLeft + topLeft - 2 * s[g.cuHeight]) < StrongThreshold() &&
    Abs(topLeft + topRight - 2 * s[2 * g.cuHeight + g.cuHeight]) < StrongThreshold()
  }

  /** The strong filter's interpolation between a and b at position i of n, with rounding
      offset half: ((n - i) * a + i * b + half) >> shift, shift being log2 n. */
  function Interpolate(n: nat, i: int, a: int, b: int, half: int, shift: nat): int {
    ((n - i) * a + i * b + half) / Pow2(shift)
  }

  /** With 2^shift == n, an interpolated sample lies between the two samples it interpolates,
      and at the two ends it is those samples. */
  lemma InterpolateBetween(n: nat, i: int, a: int, b: int, half: int, shift: nat)
    requires Pow2(shift) == n && 0 <= i <= n && 0 <= half < n
    ensures Min(a, b) <= Interpolate(n, i, a, b, half, shift) <= Max(a, b)
    ensures i == 0 ==> Interpolate(n, i, a, b, half, shift) == a
  {
    var lo := Min(a, b);
    var hi := Max(a, b);
    MulMonotone(lo, a, n - i);
    MulMonotone(lo, b, i);
    MulMonotone(a, hi, n - i);
    MulMonotone(b, hi, i);
    assert (n - i) * lo + i * lo == n * lo;
    assert (n - i) * hi + i * hi == n * hi;
    DivBounds((n - i) * a + i * b + half, n, lo, hi);
    if i == 0 {
      DivBetween(n * a + half, n, a);
    }
  }

  /** Entry i of the strongly smoothed run: the bottom-left, top-left and top-right samples are
      kept; the left run interpolates bottom-left to top-left and the top run top-left to
      top-right, both with shift ConvertToBit(cuWidth) + 3. */
  function StrongAt(g: Geometry, s: seq<int>, i: int): int
    requires g.Valid() && |s| == 2 * g.cuHeight + 2 * g.cuWidth + 1 && 0 <= i < |s|
  {
    var h2 := 2 * g.cuHeight;
    var w2 := 2 * g.cuWidth;
    var shift := ConvertToBit(g.cuWidth) + 3;
    if i == 0 || i == h2 || i == |s| - 1 then s[i]
    else if i < h2 then Interpolate(h2, i, s[0], s[h2], g.cuHeight, shift)
    else Interpolate(w2, i - h2, s[h2], s[|s| - 1], g.cuWidth, shift)
  }

  /** Lines 131-147: the strongly smoothed run filterBufN. */
  function StrongSmooth(g: Geometry, s: seq<int>): (r: seq<int>)
    requires g.Valid() && |s| == 2 * g.cuHeight + 2 * g.cuWidth + 1
    ensures |r| == |s|
  {
    seq(|s|, i requires 0 <= i < |s| => StrongAt(g, s, i))
  }

  /** The strong filter keeps its three anchors and puts every left sample between the
      bottom-left and the top-left anchor, every top sample between the top-left and the
      top-right anchor. */
  lemma StrongSmoothBounds(g: Geometry, s: seq<int>, i: nat)
    requires g.Valid() && |s| == 2 * g.cuHeight + 2 * g.cuWidth + 1 && IsBlockWidth(g.cuWidth) && i < |s|
    ensures StrongSmooth(g, s)[0] == s[0] && StrongSmooth(g, s)[2 * g.cuHeight] == s[2 * g.cuHeight]
    ensures StrongSmooth(g, s)[|s| - 1] == s[|s| - 1]
    ensures i <= 2 * g.cuHeight ==>
      Min(s[0], s[2 * g.cuHeight]) <= StrongSmooth(g, s)[i] <= Max(s[0], s[2 * g.cuHeight])
    ensures 2 * g.cuHeight <= i ==>
      Min(s[2 * g.cuHeight], s[|s| - 1]) <= StrongSmooth(g, s)[i] <= Max(s[2 * g.cuHeight], s[|s| - 1])
  {
    var h2 := 2 * g.cuHeight;
    StrongShiftIsLog(g.cuWidth);
    if 0 < i < h2 {
      InterpolateBetween(h2, i, s[0], s[h2], g.cuHeight, ConvertToBit(g.cuWidth) + 3);
    } else if h2 < i < |s| - 1 {
      InterpolateBetween(2 * g.cuWidth, i - h2, s[h2], s[|s| - 1], g.cuWidth, ConvertToBit(g.cuWidth) + 3);
    }
  }

  /** The strong filter maps picture samples to picture samples. */
  lemma StrongSmoothPixels(g: Geometry, s: seq<int>)
    requires g.Valid() && |s| == 2 * g.cuHeight + 2 * g.cuWidth + 1 && IsBlockWidth(g.cuWidth)
    requires AllPixels(s)
    ensures AllPixels(StrongSmooth(g, s))
  {
    forall i | 0 <= i < |s|
      ensures IsPixel(StrongSmooth(g, s)[i])
    {
      StrongSmoothBounds(g, s, i);
    }
  }

  /** Lines 96-168: filterBufN, the strongly smoothed run when the strong filter applies and
      the [1 2 1]-filtered run otherwise. */
  function FilteredLinear(g: Geometry, s: seq<int>, strongEnabled: bool): (r: seq<int>)
    requires g.Valid() && |s| == 2 * g.cuHeight + 2 * g.cuWidth + 1
    ensures |r| == |s|
  {
    if UseStrongSmoothing(g, s, strongEnabled) then StrongSmooth(g, s) else Filter121(s)
  }

  /** A run comes out of the filtering other than [1 2 1]-filtered only when the SPS enables
      strong smoothing, the block is at least 32 samples wide and both runs are flat. */
  lemma StrongOnlyWhenFlat(g: Geometry, s: seq<int>, strongEnabled: bool)
    requires g.Valid() && |s| == 2 * g.cuHeight + 2 * g.cuWidth + 1
    requires FilteredLinear(g, s, strongEnabled) != Filter121(s)
    ensures strongEnabled && g.cuWidth >= 32
    ensures Abs(s[0] + s[2 * g.cuHeight] - 2 * s[g.cuHeight]) < 8
    ensures Abs(s[2 * g.cuHeight] + s[|s| - 1] - 2 * s[3 * g.cuHeight]) < 8
  {
  }

  /** Whichever filter applies, both ends of the run are kept and picture samples stay
      picture samples. */
  lemma FilteredLinearProperties(g: Geometry, s: seq<int>, strongEnabled: bool)
    requires g.Valid() && |s| == 2 * g.cuHeight + 2 * g.cuWidth + 1 && IsBlockWidth(g.cuWidth)
    ensures FilteredLinear(g, s, strongEnabled)[0] == s[0]
    ensures FilteredLinear(g, s, strongEnabled)[|s| - 1] == s[|s| - 1]
    ensures AllPixels(s) ==> AllPixels(FilteredLinear(g, s, strongEnabled))
  {
    if UseStrongSmoothing(g, s, strongEnabled) {
      StrongSmoothBounds(g, s, 0);
      if AllPixels(s) {
        StrongSmoothPixels(g, s);
      }
    } else {
      if AllPixels(s) {
        Filter121Pixels(s);
      }
    }
  }

  /** The filtered border initAdiPattern stores as the first filter buffer. */
  function FilteredBorder(g: Geometry, b: Border, strongEnabled: bool): (f: Border)
    requires g.Valid() && b.Fits(g)
    ensures f.Fits(g)
  {
    LinearToBorder(FilteredLinear(g, LinearBorder(b), strongEnabled), 2 * g.cuHeight)
  }

  /** The strong filter leaves a flat run as it is. */
  lemma StrongSmoothFlat(g: Geometry, s: seq<int>, v: int)
    requires g.Valid() && |s| == 2 * g.cuHeight + 2 * g.cuWidth + 1 && IsBlockWidth(g.cuWidth)
    requires forall i :: 0 <= i < |s| ==> s[i] == v
    ensures StrongSmooth(g, s) == s
  {
    forall i | 0 <= i < |s|
      ensures StrongSmooth(g, s)[i] == s[i]
    {
      StrongSmoothBounds(g, s, i);
    }
  }

  /** The DC border of a block without usable neighbours comes out of either filter as it
      went in. */
  lemma FilteredDcBorder(g: Geometry, strongEnabled: bool)
    requires g.Valid() && IsBlockWidth(g.cuWidth)
    ensures FilteredBorder(g, DcBorder(g), strongEnabled) == DcBorder(g)
  {
    var s := LinearBorder(DcBorder(g));
    assert forall i :: 0 <= i < |s| ==> s[i] == DcValue();
    if UseStrongSmoothing(g, s, strongEnabled) {
      StrongSmoothFlat(g, s, DcValue());
    } else {
      Filter121Flat(s, DcValue());
    }
    LinearRoundTrip(DcBorder(g));
  }

  /** The linear run of a border of picture samples holds picture samples. */
  lemma LinearBorderPixels(b: Border)
    requires b.IsPixels()
    ensures AllPixels(LinearBorder(b))
  {
  }

  /** A border read from a run of picture samples holds picture samples. */
  lemma LinearToBorderPixels(s: seq<int>, h2: nat)
    requires h2 < |s| && AllPixels(s)
    ensures LinearToBorder(s, h2).IsPixels()
  {
    var b := LinearToBorder(s, h2);
    assert forall i :: 0 <= i < |b.left| ==> b.left[i] == s[h2 - 1 - i];
    assert forall j :: 0 <= j < |b.above| ==> b.above[j] == s[h2 + 1 + j];
  }

  /** The filtered border keeps the bottom-most left sample and the right-most top sample,
      and holds picture samples when the border does. */
  lemma FilteredBorderProperties(g: Geometry, b: Border, strongEnabled: bool)
    requires g.Valid() && b.Fits(g) && IsBlockWidth(g.cuWidth)
    ensures FilteredBorder(g, b, strongEnabled).left[2 * g.cuHeight - 1] == b.left[2 * g.cuHeight - 1]
    ensures FilteredBorder(g, b, strongEnabled).above[2 * g.cuWidth - 1] == b.above[2 * g.cuWidth - 1]
    ensures b.IsPixels() ==> FilteredBorder(g, b, strongEnabled).IsPixels()
  {
    var s := LinearBorder(b);
    var r := FilteredLinear(g, s, strongEnabled);
    FilteredLinearProperties(g, s, strongEnabled);
    assert s[0] == b.left[2 * g.cuHeight - 1];
    assert s[|s| - 1] == b.above[2 * g.cuWidth - 1];
    if b.IsPixels() {
      LinearBorderPixels(b);
      LinearToBorderPixels(r, 2 * g.cuHeight);
    }
  }

  /** Lines 108-119: filterBuf, the border held in adiTemp (row 0 of the ADI buffer on)
      read into one linear run. */
  method ReadLinearBorder(g: Geometry, adi: array2<int>, ghost b: Border) returns (filterBuf: array<int>)
    requires g.Valid() && b.Fits(g) && HoldsBorder(adi, 0, b)
    ensures fresh(filterBuf)
    ensures filterBuf[..] == LinearBorder(b)
  {
    var h2 := 2 * g.cuHeight;
    var w2 := 2 * g.cuWidth;
    filterBuf := new int[h2 + w2 + 1];
    for i := 0 to h2
      invariant forall k :: 0 <= k < i ==> filterBuf[k] == LinearAt(b, k)
    {
      assert adi[h2 - i, 0] == b.left[|b.left| - 1 - i];
      filterBuf[i] := adi[h2 - i, 0];
    }
    filterBuf[h2] := adi[0, 0];
    for j := 0 to w2
      invariant forall k :: 0 <= k < h2 + 1 + j ==> filterBuf[k] == LinearAt(b, k)
    {
      assert adi[0, 1 + j] == b.above[(h2 + 1 + j) - |b.left| - 1];
      filterBuf[h2 + 1 + j] := adi[0, 1 + j];
    }
    assert forall k :: 0 <= k < filterBuf.Length ==> filterBuf[k] == LinearBorder(b)[k];
  }

  /** Lines 150-157 and 161-167: the [1 2 1] filter from filterBuf into filterBufN. */
  method Filter121Run(filterBuf: array<int>, filterBufN: array<int>)
    requires filterBuf != filterBufN && filterBuf.Length == filterBufN.Length >= 1
    modifies filterBufN
    ensures filterBufN[..] == Filter121(filterBuf[..])
  {
    var n := filterBuf.Length;
    filterBufN[0] := filterBuf[0];
    filterBufN[n - 1] := filterBuf[n - 1];
    var i := 1;
    while i < n - 1
      invariant 1 <= i && (n > 1 ==> i <= n - 1)
      invariant filterBufN[0] == filterBuf[0] && filterBufN[n - 1] == filterBuf[n - 1]
      invariant forall k :: 0 < k < i && k < n - 1 ==> filterBufN[k] == Filter121At(filterBuf[..], k)
    {
      filterBufN[i] := (filterBuf[i - 1] + 2 * filterBuf[i] + filterBuf[i + 1] + 2) / 4;
      i := i + 1;
    }
    assert forall k :: 0 <= k < n ==> filterBufN[k] == Filter121(filterBuf[..])[k];
  }

  /** Lines 131-147: the strong filter from filterBuf into filterBufN. */
  method StrongSmoothRun(g: Geometry, filterBuf: array<int>, filterBufN: array<int>)
    requires g.Valid() && filterBuf != filterBufN
    requires filterBuf.Length == filterBufN.Length == 2 * g.cuHeight + 2 * g.cuWidth + 1
    modifies filterBufN
    ensures filterBufN[..] == StrongSmooth(g, filterBuf[..])
  {
    var h2 := 2 * g.cuHeight;
    var w2 := 2 * g.cuWidth;
    var n := filterBuf.Length;
    var bottomLeft := filterBuf[0];
    var topLeft := filterBuf[h2];
    var topRight := filterBuf[n - 1];
    var shift := ConvertToBit(g.cuWidth) + 3;
    filterBufN[0] := filterBuf[0];
    filterBufN[h2] := filterBuf[h2];
    filterBufN[n - 1] := filterBuf[n - 1];
    var i := 1;
    while i < h2
      invariant 1 <= i && (h2 > 0 ==> i <= h2)
      invariant filterBufN[0] == filterBuf[0] && filterBufN[h2] == filterBuf[h2] && filterBufN[n - 1] == filterBuf[n - 1]
      invariant forall k :: 0 < k < i && k < h2 ==> filterBufN[k] == StrongAt(g, filterBuf[..], k)
    {
      filterBufN[i] := Interpolate(h2, i, bottomLeft, topLeft, g.cuHeight, shift);
      i := i + 1;
    }
    i := 1;
    while i < w2
      invariant 1 <= i && (w2 > 0 ==> i <= w2)
      invariant filterBufN[0] == filterBuf[0] && filterBufN[h2] == filterBuf[h2] && filterBufN[n - 1] == filterBuf[n - 1]
      invariant forall k :: 0 <= k <= h2 ==> filterBufN[k] == StrongAt(g, filterBuf[..], k)
      invariant forall k :: h2 < k < h2 + i && k < n - 1 ==> filterBufN[k] == StrongAt(g, filterBuf[..], k)
    {
      filterBufN[h2 + i] := Interpolate(w2, i, topLeft, topRight, g.cuWidth, shift);
      i := i + 1;
    }
    assert forall k :: 0 <= k < n ==> filterBufN[k] == StrongSmooth(g, filterBuf[..])[k];
  }

  /** Lines 170-178: filterBufN stored as a border from row `base` (filteredBuf1): the left
      column bottom row first, then the corner, then the top row. Nothing else changes. */
  method WriteFilteredBorder(g: Geometry, filterBufN: array<int>, adi: array2<int>, base: nat)
    requires g.Valid() && filterBufN.Length == 2 * g.cuHeight + 2 * g.cuWidth + 1
    requires base + g.Height() <= adi.Length0 && g.Width() <= adi.Length1
    modifies adi
    ensures HoldsBorder(adi, base, LinearToBorder(filterBufN[..], 2 * g.cuHeight))
    ensures forall r, c :: 0 <= r < adi.Length0 && 0 <= c < adi.Length1 && !OnBorder(g, base, r, c) ==>
      adi[r, c] == old(adi[r, c])
  {
    var h2 := 2 * g.cuHeight;
    var w2 := 2 * g.cuWidth;
    ghost var f := LinearToBorder(filterBufN[..], h2);
    for i := 0 to h2
      invariant forall r :: base + h2 - i < r <= base + h2 ==> adi[r, 0] == f.left[r - base - 1]
      invariant forall r, c :: 0 <= r < adi.Length0 && 0 <= c < adi.Length1 && !(c == 0 && base + h2 - i < r <= base + h2) ==>
        adi[r, c] == old(adi[r, c])
    {
      assert filterBufN[i] == f.left[(base + h2 - i) - base - 1];
      adi[base + h2 - i, 0] := filterBufN[i];
    }
    adi[base, 0] := filterBufN[h2];
    for j := 0 to w2
      invariant adi[base, 0] == f.corner
      invariant forall r :: base < r <= base + h2 ==> adi[r, 0] == f.left[r - base - 1]
      invariant forall c :: 0 < c <= j ==> adi[base, c] == f.above[c - 1]
      invariant forall r, c :: 0 <= r < adi.Length0 && 0 <= c < adi.Length1 && !Covered(base, j + 1, base + h2, r, c) ==>
        adi[r, c] == old(adi[r, c])
    {
      adi[base, 1 + j] := filterBufN[h2 + 1 + j];
    }
  }
}
