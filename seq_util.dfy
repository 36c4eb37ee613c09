/** Sequence helpers shared by the border layouts. */
module SeqUtil {

  /** The sequence read back to front (a border column walked bottom-to-top). */
  function Reverse<T>(s: seq<T>): (r: seq<T>)
    ensures |r| == |s|
    ensures forall i :: 0 <= i < |s| ==> r[i] == s[|s| - 1 - i]
  {
    seq(|s|, i requires 0 <= i < |s| => s[|s| - 1 - i])
  }

  /** `s` with `piece` written over it from index `start` on (a block store into a buffer). */
  function Splice<T>(s: seq<T>, start: nat, piece: seq<T>): (r: seq<T>)
    requires start + |piece| <= |s|
    ensures |r| == |s|
    ensures forall i :: 0 <= i < |s| ==> r[i] == if start <= i < start + |piece| then piece[i - start] else s[i]
  {
    s[..start] + piece + s[start + |piece|..]
  }

  /** n copies of v (a run of samples padded with one value). */
  function Repeat<T>(n: nat, v: T): (r: seq<T>)
    ensures |r| == n
    ensures forall i :: 0 <= i < n ==> r[i] == v
  {
    seq(n, _ => v)
  }
}
