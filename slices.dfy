/** Python slicing of sequences: `s[start:]`, `s[:stop]` and `s[::-1]`. */
module Slices {

  /** The position a slice bound `i` stands for in a sequence of length `n`. */
  function Bound(n: nat, i: int): (b: nat)
    ensures b <= n
    ensures 0 <= i <= n ==> b == i
    ensures i > n ==> b == n
    ensures i < 0 ==> b == if n + i < 0 then 0 else n + i
  {
    if i < 0 then (if n + i < 0 then 0 else n + i) else if i > n then n else i
  }

  /**
   * Among bounds of the same sign a larger bound never stands for an earlier
   * position. Across signs it can: in a sequence of length 3, -1 stands for 2
   * and 0 for 0.
   */
  lemma BoundMonotone(n: nat, i: int, j: int)
    requires i <= j
    requires (0 <= i) == (0 <= j)
    ensures Bound(n, i) <= Bound(n, j)
  {
  }

  /** `s[start:]` */
  function From<T>(s: seq<T>, start: int): seq<T> {
    s[Bound(|s|, start)..]
  }

  /** `s[:stop]` */
  function Upto<T>(s: seq<T>, stop: int): seq<T> {
    s[..Bound(|s|, stop)]
  }

  /** `s[::-1]` */
  function Reverse<T>(s: seq<T>): (r: seq<T>)
    ensures |r| == |s|
    ensures forall i :: 0 <= i < |s| ==> r[i] == s[|s| - 1 - i]
  {
    seq(|s|, i requires 0 <= i < |s| => s[|s| - 1 - i])
  }
}
