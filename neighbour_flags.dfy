/**
  Availability of the units that border an intra block (TComPattern::is*Available).

  A block of numUnitsInCU units across has 4 * numUnitsInCU + 1 neighbouring units:
  numUnitsInCU below-left, numUnitsInCU left, the above-left corner, numUnitsInCU above
  and numUnitsInCU above-right. Their flags are kept in one array in the order of the
  reference line: below-left from the bottom up, left from the bottom up, the corner,
  above from left to right, above-right from left to right.
*/
module NeighbourFlags {
  import opened SeqUtil

  /** What a neighbour lookup (getPUAbove, getPULeft, ...) finds for one unit:
      no coding unit there (outside the picture, slice or tile, or not yet coded),
      or a coding unit, intra-coded or not. */
  datatype Neighbour = Missing | Present(isIntra: bool)

  /** The neighbours of one block, per direction, each in the order the source visits them:
      left[k] and above[k] are the k-th unit from the block's top-left corner,
      belowLeft[k] and aboveRight[k] the unit at offset k + 1 past the block's edge. */
  datatype NeighbourUnits = NeighbourUnits(
    belowLeft: seq<Neighbour>,
    left: seq<Neighbour>,
    aboveLeft: Neighbour,
    above: seq<Neighbour>,
    aboveRight: seq<Neighbour>)
  {
    predicate Fits(numUnitsInCU: nat) {
      |belowLeft| == numUnitsInCU && |left| == numUnitsInCU &&
      |above| == numUnitsInCU && |aboveRight| == numUnitsInCU
    }
  }

  /** The test each is*Available function applies to one unit: a neighbour must exist and,
      under constrained intra prediction, must itself be intra-coded.
      isAboveLeftAvailable is exactly this test on the above-left unit. */
  function IsUsable(n: Neighbour, constrainedIntraPred: bool): (ok: bool)
    ensures ok <==> n.Present? && (constrainedIntraPred ==> n.isIntra)
  {
    if constrainedIntraPred then n.Present? && n.isIntra else n.Present?
  }

  /** The flags of a run of units, in the order the source visits them: a flag is set
      exactly when its unit exists and, under constrained intra prediction, is intra-coded. */
  function UsableFlags(ns: seq<Neighbour>, constrainedIntraPred: bool): (flags: seq<bool>)
    ensures |flags| == |ns|
    ensures forall k :: 0 <= k < |ns| ==> (flags[k] <==> ns[k].Present? && (constrainedIntraPred ==> ns[k].isIntra))
  {
    seq(|ns|, k requires 0 <= k < |ns| => IsUsable(ns[k], constrainedIntraPred))
  }

  /** The number of flags set in a sequence. */
  function CountTrue(s: seq<bool>): (n: nat)
    ensures n <= |s|
  {
    if s == [] then 0 else CountTrue(s[..|s| - 1]) + (if s[|s| - 1] then 1 else 0)
  }

  lemma {:induction false} CountTrueAppend(a: seq<bool>, b: seq<bool>)
    ensures CountTrue(a + b) == CountTrue(a) + CountTrue(b)
  {
    if b == [] {
      assert a + b == a;
    } else {
      assert (a + b)[..|a + b| - 1] == a + b[..|b| - 1];
      CountTrueAppend(a, b[..|b| - 1]);
    }
  }

  lemma {:induction false} CountTrueReverse(s: seq<bool>)
    ensures CountTrue(Reverse(s)) == CountTrue(s)
  {
    if s != [] {
      var init := s[..|s| - 1];
      assert Reverse(s) == [s[|s| - 1]] + Reverse(init);
      CountTrueAppend([s[|s| - 1]], Reverse(init));
      assert [s[|s| - 1]][..0] == [];
      CountTrueReverse(init);
    }
  }

  /** No flag is set exactly when the count is zero. */
  lemma {:induction false} CountTrueZero(s: seq<bool>)
    ensures CountTrue(s) == 0 <==> forall i :: 0 <= i < |s| ==> !s[i]
  {
    if s != [] {
      var init := s[..|s| - 1];
      CountTrueZero(init);
      assert forall i :: 0 <= i < |init| ==> init[i] == s[i];
    }
  }

  /** Every flag is set exactly when the count is the length. */
  lemma {:induction false} CountTrueFull(s: seq<bool>)
    ensures CountTrue(s) == |s| <==> forall i :: 0 <= i < |s| ==> s[i]
  {
    if s != [] {
      var init := s[..|s| - 1];
      CountTrueFull(init);
      assert forall i :: 0 <= i < |init| ==> init[i] == s[i];
    }
  }

  /** One more unit adds one to the count exactly when that unit is usable. */
  lemma CountUsableStep(ns: seq<Neighbour>, constrainedIntraPred: bool, k: nat)
    requires k < |ns|
    ensures CountTrue(UsableFlags(ns[..k + 1], constrainedIntraPred)) ==
      CountTrue(UsableFlags(ns[..k], constrainedIntraPred)) + (if IsUsable(ns[k], constrainedIntraPred) then 1 else 0)
  {
    assert UsableFlags(ns[..k + 1], constrainedIntraPred)[..k] == UsableFlags(ns[..k], constrainedIntraPred);
  }

  /** The loop of isAboveAvailable / isAboveRightAvailable: unit k's flag is written at
      start + k, so the flags land in order at [start, start + |ns|) and every other entry
      keeps its value; the result is the number of flags set to true. */
  method WriteUpward(ns: seq<Neighbour>, constrainedIntraPred: bool, flags: array<bool>, start: nat)
    returns (numIntra: nat)
    requires start + |ns| <= flags.Length
    modifies flags
    ensures flags[..] == Splice(old(flags[..]), start, UsableFlags(ns, constrainedIntraPred))
    ensures numIntra == CountTrue(UsableFlags(ns, constrainedIntraPred))
  {
    numIntra := 0;
    var k := 0;
    while k < |ns|
      invariant 0 <= k <= |ns|
      invariant forall i :: 0 <= i < k ==> flags[start + i] == IsUsable(ns[i], constrainedIntraPred)
      invariant forall j :: 0 <= j < flags.Length && !(start <= j < start + k) ==> flags[j] == old(flags[j])
      invariant numIntra == CountTrue(UsableFlags(ns[..k], constrainedIntraPred))
    {
      CountUsableStep(ns, constrainedIntraPred, k);
      if IsUsable(ns[k], constrainedIntraPred) {
        numIntra := numIntra + 1;
        flags[start + k] := true;
      } else {
        flags[start + k] := false;
      }
      k := k + 1;
    }
    assert ns[..k] == ns;
    StoredRun(old(flags[..]), flags[..], start, UsableFlags(ns, constrainedIntraPred));
  }

  /** A buffer that holds `piece` from `start` on and agrees with `before` elsewhere is
      the block store of `piece` into `before`. */
  lemma StoredRun(before: seq<bool>, after: seq<bool>, start: nat, piece: seq<bool>)
    requires |after| == |before| && start + |piece| <= |before|
    requires forall i :: 0 <= i < |piece| ==> after[start + i] == piece[i]
    requires forall j :: 0 <= j < |before| && !(start <= j < start + |piece|) ==> after[j] == before[j]
    ensures after == Splice(before, start, piece)
  {
    forall j | 0 <= j < |after|
      ensures after[j] == Splice(before, start, piece)[j]
    {
      if start <= j < start + |piece| {
        assert after[start + (j - start)] == piece[j - start];
      }
    }
  }

  /** The loop of isLeftAvailable / isBelowLeftAvailable: unit k's flag is written at
      start - k (towards lower addresses), so the flags land reversed at
      [start + 1 - |ns|, start + 1) and every other entry keeps its value; the result is the
      number of flags set to true. */
  method WriteDownward(ns: seq<Neighbour>, constrainedIntraPred: bool, flags: array<bool>, start: int)
    returns (numIntra: nat)
    requires -1 <= start - |ns| && start < flags.Length
    modifies flags
    ensures flags[..] == Splice(old(flags[..]), start + 1 - |ns|, Reverse(UsableFlags(ns, constrainedIntraPred)))
    ensures numIntra == CountTrue(UsableFlags(ns, constrainedIntraPred))
  {
    numIntra := 0;
    var k := 0;
    while k < |ns|
      invariant 0 <= k <= |ns|
      invariant forall i :: 0 <= i < k ==> flags[start - i] == IsUsable(ns[i], constrainedIntraPred)
      invariant forall j :: 0 <= j < flags.Length && !(start - k < j <= start) ==> flags[j] == old(flags[j])
      invariant numIntra == CountTrue(UsableFlags(ns[..k], constrainedIntraPred))
    {
      CountUsableStep(ns, constrainedIntraPred, k);
      if IsUsable(ns[k], constrainedIntraPred) {
        numIntra := numIntra + 1;
        flags[start - k] := true;
      } else {
        flags[start - k] := false;
      }
      k := k + 1;
    }
    assert ns[..k] == ns;
    forall i | 0 <= i < flags.Length
      ensures flags[..][i] == Splice(old(flags[..]), start + 1 - |ns|, Reverse(UsableFlags(ns, constrainedIntraPred)))[i]
    {
      if start + 1 - |ns| <= i <= start {
        assert flags[start - (start - i)] == IsUsable(ns[start - i], constrainedIntraPred);
      }
    }
  }

  method IsAboveAvailable(above: seq<Neighbour>, constrainedIntraPred: bool, flags: array<bool>, start: nat)
    returns (numIntra: nat)
    requires start + |above| <= flags.Length
    modifies flags
    ensures flags[..] == Splice(old(flags[..]), start, UsableFlags(above, constrainedIntraPred))
    ensures numIntra == CountTrue(UsableFlags(above, constrainedIntraPred))
  {
    numIntra := WriteUpward(above, constrainedIntraPred, flags, start);
  }

  method IsAboveRightAvailable(aboveRight: seq<Neighbour>, constrainedIntraPred: bool, flags: array<bool>, start: nat)
    returns (numIntra: nat)
    requires start + |aboveRight| <= flags.Length
    modifies flags
    ensures flags[..] == Splice(old(flags[..]), start, UsableFlags(aboveRight, constrainedIntraPred))
    ensures numIntra == CountTrue(UsableFlags(aboveRight, constrainedIntraPred))
  {
    numIntra := WriteUpward(aboveRight, constrainedIntraPred, flags, start);
  }

  method IsLeftAvailable(left: seq<Neighbour>, constrainedIntraPred: bool, flags: array<bool>, start: int)
    returns (numIntra: nat)
    requires -1 <= start - |left| && start < flags.Length
    modifies flags
    ensures flags[..] == Splice(old(flags[..]), start + 1 - |left|, Reverse(UsableFlags(left, constrainedIntraPred)))
    ensures numIntra == CountTrue(UsableFlags(left, constrainedIntraPred))
  {
    numIntra := WriteDownward(left, constrainedIntraPred, flags, start);
  }

  method IsBelowLeftAvailable(belowLeft: seq<Neighbour>, constrainedIntraPred: bool, flags: array<bool>, start: int)
    returns (numIntra: nat)
    requires -1 <= start - |belowLeft| && start < flags.Length
    modifies flags
    ensures flags[..] == Splice(old(flags[..]), start + 1 - |belowLeft|, Reverse(UsableFlags(belowLeft, constrainedIntraPred)))
    ensures numIntra == CountTrue(UsableFlags(belowLeft, constrainedIntraPred))
  {
    numIntra := WriteDownward(belowLeft, constrainedIntraPred, flags, start);
  }

  /** The flags of the left column, bottom-to-top: below-left units, then left units. */
  function LeftFlags(units: NeighbourUnits, constrainedIntraPred: bool): (flags: seq<bool>)
    ensures |flags| == |units.belowLeft| + |units.left|
  {
    Reverse(UsableFlags(units.belowLeft, constrainedIntraPred)) + Reverse(UsableFlags(units.left, constrainedIntraPred))
  }

  /** The flags of the corner and the top row, left to right: above-left, above, above-right. */
  function AboveFlags(units: NeighbourUnits, constrainedIntraPred: bool): (flags: seq<bool>)
    ensures |flags| == 1 + |units.above| + |units.aboveRight|
  {
    [IsUsable(units.aboveLeft, constrainedIntraPred)] +
    UsableFlags(units.above, constrainedIntraPred) + UsableFlags(units.aboveRight, constrainedIntraPred)
  }

  /** The flag array initAdiPattern assembles, in reference-line order. */
  function FlagLayout(units: NeighbourUnits, constrainedIntraPred: bool): (flags: seq<bool>)
    ensures |flags| == |units.belowLeft| + |units.left| + 1 + |units.above| + |units.aboveRight|
  {
    LeftFlags(units, constrainedIntraPred) + AboveFlags(units, constrainedIntraPred)
  }

  /** Where each neighbour's flag sits: below-left unit k at n-1-k, left unit k at 2n-1-k,
      the corner at 2n, above unit k at 2n+1+k, above-right unit k at 3n+1+k. */
  lemma FlagLayoutAt(units: NeighbourUnits, constrainedIntraPred: bool, n: nat, k: nat)
    requires units.Fits(n) && k < n
    ensures |FlagLayout(units, constrainedIntraPred)| == 4 * n + 1
    ensures FlagLayout(units, constrainedIntraPred)[n - 1 - k] == IsUsable(units.belowLeft[k], constrainedIntraPred)
    ensures FlagLayout(units, constrainedIntraPred)[2 * n - 1 - k] == IsUsable(units.left[k], constrainedIntraPred)
    ensures FlagLayout(units, constrainedIntraPred)[2 * n] == IsUsable(units.aboveLeft, constrainedIntraPred)
    ensures FlagLayout(units, constrainedIntraPred)[2 * n + 1 + k] == IsUsable(units.above[k], constrainedIntraPred)
    ensures FlagLayout(units, constrainedIntraPred)[3 * n + 1 + k] == IsUsable(units.aboveRight[k], constrainedIntraPred)
  {
  }

  /** numIntraNeighbor, the sum of what the five functions return, counts the flags set. */
  lemma NeighbourCount(units: NeighbourUnits, constrainedIntraPred: bool)
    ensures CountTrue(FlagLayout(units, constrainedIntraPred)) ==
      CountTrue(UsableFlags(units.belowLeft, constrainedIntraPred)) +
      CountTrue(UsableFlags(units.left, constrainedIntraPred)) +
      (if IsUsable(units.aboveLeft, constrainedIntraPred) then 1 else 0) +
      CountTrue(UsableFlags(units.above, constrainedIntraPred)) +
      CountTrue(UsableFlags(units.aboveRight, constrainedIntraPred))
  {
    var bl := Reverse(UsableFlags(units.belowLeft, constrainedIntraPred));
    var l := Reverse(UsableFlags(units.left, constrainedIntraPred));
    var c := [IsUsable(units.aboveLeft, constrainedIntraPred)];
    var a := UsableFlags(units.above, constrainedIntraPred);
    var ar := UsableFlags(units.aboveRight, constrainedIntraPred);
    CountTrueAppend(LeftFlags(units, constrainedIntraPred), AboveFlags(units, constrainedIntraPred));
    CountTrueAppend(bl, l);
    CountTrueAppend(c, a);
    CountTrueAppend(c + a, ar);
    CountTrueReverse(UsableFlags(units.belowLeft, constrainedIntraPred));
    CountTrueReverse(UsableFlags(units.left, constrainedIntraPred));
    assert c[..0] == [];
  }

  /** The flags of the above-left, above and above-right units (lines 78-81): they take
      the upper half of the array, from index 2 * numUnitsInCU on. */
  method MarkAboveNeighbours(units: NeighbourUnits, constrainedIntraPred: bool, flags: array<bool>, n: nat)
    returns (numIntra: nat)
    requires units.Fits(n) && flags.Length == 4 * n + 1
    modifies flags
    ensures flags[..] == Splice(old(flags[..]), 2 * n, AboveFlags(units, constrainedIntraPred))
    ensures numIntra ==
      (if IsUsable(units.aboveLeft, constrainedIntraPred) then 1 else 0) +
      CountTrue(UsableFlags(units.above, constrainedIntraPred)) +
      CountTrue(UsableFlags(units.aboveRight, constrainedIntraPred))
  {
    flags[2 * n] := IsUsable(units.aboveLeft, constrainedIntraPred);
    numIntra := if flags[2 * n] then 1 else 0;
    assert flags[..] == old(flags[..])[2 * n := IsUsable(units.aboveLeft, constrainedIntraPred)];
    var count := IsAboveAvailable(units.above, constrainedIntraPred, flags, 2 * n + 1);
    numIntra := numIntra + count;
    count := IsAboveRightAvailable(units.aboveRight, constrainedIntraPred, flags, 3 * n + 1);
    numIntra := numIntra + count;
    AboveSplices(old(flags[..]), units, constrainedIntraPred, n);
  }

  /** The three writes of the upper half amount to one block store of AboveFlags. */
  lemma AboveSplices(s: seq<bool>, units: NeighbourUnits, constrainedIntraPred: bool, n: nat)
    requires units.Fits(n) && |s| == 4 * n + 1
    ensures Splice(Splice(s[2 * n := IsUsable(units.aboveLeft, constrainedIntraPred)],
                          2 * n + 1, UsableFlags(units.above, constrainedIntraPred)),
                   3 * n + 1, UsableFlags(units.aboveRight, constrainedIntraPred))
         == Splice(s, 2 * n, AboveFlags(units, constrainedIntraPred))
  {
  }

  /** The flags of the left and below-left units (lines 82-83): they take the lower half
      of the array, written from index 2 * numUnitsInCU - 1 downwards. */
  method MarkLeftNeighbours(units: NeighbourUnits, constrainedIntraPred: bool, flags: array<bool>, n: nat)
    returns (numIntra: nat)
    requires units.Fits(n) && flags.Length == 4 * n + 1
    modifies flags
    ensures flags[..] == Splice(old(flags[..]), 0, LeftFlags(units, constrainedIntraPred))
    ensures numIntra ==
      CountTrue(UsableFlags(units.left, constrainedIntraPred)) +
      CountTrue(UsableFlags(units.belowLeft, constrainedIntraPred))
  {
    numIntra := IsLeftAvailable(units.left, constrainedIntraPred, flags, n as int * 2 - 1);
    var count := IsBelowLeftAvailable(units.belowLeft, constrainedIntraPred, flags, n as int - 1);
    numIntra := numIntra + count;
    LeftSplices(old(flags[..]), units, constrainedIntraPred, n);
  }

  /** The two writes of the lower half amount to one block store of LeftFlags. */
  lemma LeftSplices(s: seq<bool>, units: NeighbourUnits, constrainedIntraPred: bool, n: nat)
    requires units.Fits(n) && |s| == 4 * n + 1
    ensures Splice(Splice(s, n, Reverse(UsableFlags(units.left, constrainedIntraPred))),
                   0, Reverse(UsableFlags(units.belowLeft, constrainedIntraPred)))
         == Splice(s, 0, LeftFlags(units, constrainedIntraPred))
  {
  }

  /** Storing both halves over any array of the right length leaves exactly the layout. */
  lemma HalvesMakeLayout(s: seq<bool>, units: NeighbourUnits, constrainedIntraPred: bool, n: nat)
    requires units.Fits(n) && |s| == 4 * n + 1
    ensures Splice(Splice(s, 2 * n, AboveFlags(units, constrainedIntraPred)), 0, LeftFlags(units, constrainedIntraPred))
         == FlagLayout(units, constrainedIntraPred)
  {
  }

  /** Lines 66-83 of initAdiPattern (and 220-237 of initAdiPatternChroma): the flag array
      of the 4 * numUnitsInCU + 1 neighbouring units and the number of usable ones. */
  method DeriveNeighbourFlags(units: NeighbourUnits, constrainedIntraPred: bool, numUnitsInCU: nat)
    returns (flags: array<bool>, numIntraNeighbor: nat)
    requires units.Fits(numUnitsInCU)
    ensures fresh(flags)
    ensures flags[..] == FlagLayout(units, constrainedIntraPred)
    ensures numIntraNeighbor == CountTrue(flags[..])
  {
    var n := numUnitsInCU;
    flags := new bool[4 * n + 1];
    ghost var initial := flags[..];
    numIntraNeighbor := MarkAboveNeighbours(units, constrainedIntraPred, flags, n);
    var count := MarkLeftNeighbours(units, constrainedIntraPred, flags, n);
    numIntraNeighbor := numIntraNeighbor + count;
    HalvesMakeLayout(initial, units, constrainedIntraPred, n);
    NeighbourCount(units, constrainedIntraPred);
  }
}
