/**
 * The selection `np.argsort(similarities)[-k:][::-1]` of the retriever: sort
 * recipe positions by ascending score, keep the slice `[-k:]`, reverse it.
 * `ArgSort` fixes one order among equal scores (that of an insertion sort),
 * which need not be numpy's; no contract below relies on it.
 */
module Ranking {
  import opened Slices

  /** The positions `lo, lo + 1, …, hi - 1`. */
  function Range(lo: nat, hi: nat): (r: seq<nat>)
    ensures |r| == if lo <= hi then hi - lo else 0
    ensures forall i :: 0 <= i < |r| ==> r[i] == lo + i
  {
    if lo >= hi then [] else seq(hi - lo, i requires 0 <= i < hi - lo => lo + i)
  }

  lemma RangeCons(lo: nat, hi: nat)
    requires lo < hi
    ensures Range(lo, hi) == [lo] + Range(lo + 1, hi)
  {
    var a, b := Range(lo, hi), [lo] + Range(lo + 1, hi);
    assert |a| == |b|;
    forall i | 0 <= i < |a| ensures a[i] == b[i] {
      if i > 0 {
        assert b[i] == Range(lo + 1, hi)[i - 1];
      }
    }
  }

  lemma RangeSnoc(lo: nat, hi: nat)
    requires lo < hi
    ensures Range(lo, hi) == Range(lo, hi - 1) + [hi - 1]
  {
    var a, b := Range(lo, hi), Range(lo, hi - 1) + [hi - 1];
    assert |a| == |b|;
    forall i | 0 <= i < |a| ensures a[i] == b[i] {
      if i < hi - 1 - lo {
        assert b[i] == Range(lo, hi - 1)[i];
      }
    }
  }

  predicate InBounds(order: seq<nat>, n: nat) {
    forall i :: 0 <= i < |order| ==> order[i] < n
  }

  predicate Distinct(order: seq<nat>) {
    forall i, j :: 0 <= i < j < |order| ==> order[i] != order[j]
  }

  /** Scores never decrease along `order`. */
  predicate Ascending(scores: seq<real>, order: seq<nat>)
    requires InBounds(order, |scores|)
  {
    forall i, j :: 0 <= i < j < |order| ==> scores[order[i]] <= scores[order[j]]
  }

  /** Scores never increase along `order`. */
  predicate Descending(scores: seq<real>, order: seq<nat>)
    requires InBounds(order, |scores|)
  {
    forall i, j :: 0 <= i < j < |order| ==> scores[order[i]] >= scores[order[j]]
  }

  /** `order` lists every position of `scores` exactly once. */
  predicate IsArrangement(order: seq<nat>, n: nat) {
    |order| == n && InBounds(order, n) && Distinct(order) && forall p :: 0 <= p < n ==> p in order
  }

  function Insert(scores: seq<real>, x: nat, sorted: seq<nat>): (r: seq<nat>)
    requires x < |scores| && InBounds(sorted, |scores|)
    ensures InBounds(r, |scores|)
    ensures multiset(r) == multiset(sorted) + multiset{x}
    decreases |sorted|
  {
    if sorted == [] then [x]
    else if scores[x] <= scores[sorted[0]] then [x] + sorted
    else
      assert sorted == [sorted[0]] + sorted[1..];
      [sorted[0]] + Insert(scores, x, sorted[1..])
  }

  lemma {:induction false} InsertAscending(scores: seq<real>, x: nat, sorted: seq<nat>)
    requires x < |scores| && InBounds(sorted, |scores|)
    requires Ascending(scores, sorted)
    ensures Ascending(scores, Insert(scores, x, sorted))
    decreases |sorted|
  {
    if sorted != [] && scores[x] > scores[sorted[0]] {
      var rest := Insert(scores, x, sorted[1..]);
      InsertAscending(scores, x, sorted[1..]);
      var r := [sorted[0]] + rest;
      forall j | 0 < j < |r| ensures scores[r[0]] <= scores[r[j]] {
        assert r[j] in multiset(rest);
        assert r[j] in multiset(sorted[1..]) || r[j] == x;
        if r[j] != x {
          var m :| 0 <= m < |sorted[1..]| && sorted[1..][m] == r[j];
          assert sorted[m + 1] == r[j];
        }
      }
    }
  }

  /** Sorts the positions `lo, …, |scores| - 1` by ascending score. */
  function SortFrom(scores: seq<real>, lo: nat): (order: seq<nat>)
    requires lo <= |scores|
    ensures InBounds(order, |scores|)
    ensures multiset(order) == multiset(Range(lo, |scores|))
    decreases |scores| - lo
  {
    if lo == |scores| then []
    else
      var rest := SortFrom(scores, lo + 1);
      RangeCons(lo, |scores|);
      Insert(scores, lo, rest)
  }

  lemma {:induction false} SortFromAscending(scores: seq<real>, lo: nat)
    requires lo <= |scores|
    ensures Ascending(scores, SortFrom(scores, lo))
    decreases |scores| - lo
  {
    if lo < |scores| {
      var rest := SortFrom(scores, lo + 1);
      SortFromAscending(scores, lo + 1);
      InsertAscending(scores, lo, rest);
      assert SortFrom(scores, lo) == Insert(scores, lo, rest);
    }
  }

  /** A sequence with the multiset of `Range(0, n)` lists each position once. */
  lemma ArrangementOfRange(order: seq<nat>, n: nat)
    requires multiset(order) == multiset(Range(0, n))
    ensures IsArrangement(order, n)
  {
    var range := Range(0, n);
    assert |order| == |multiset(order)| == |range|;
    forall i | 0 <= i < |order| ensures order[i] < n {
      assert order[i] in multiset(range);
    }
    forall p | 0 <= p < n ensures p in order {
      assert range[p] == p;
      assert p in multiset(range);
    }
    forall i, j | 0 <= i < j < |order| ensures order[i] != order[j] {
      if order[i] == order[j] {
        var x := order[i];
        assert multiset(order) == multiset(order[..j]) + multiset{x} + multiset(order[j + 1..]) by {
          assert order == order[..j] + [x] + order[j + 1..];
        }
        assert x in multiset(order[..j]) by { assert order[..j][i] == x; }
        assert multiset(order)[x] >= 2;
        RangeCountsOnce(n, x);
        assert false;
      }
    }
  }

  lemma {:induction false} RangeCountsOnce(n: nat, x: nat)
    requires x < n
    ensures multiset(Range(0, n))[x] == 1
    decreases n
  {
    if n > 1 {
      RangeSnoc(0, n);
      assert multiset(Range(0, n)) == multiset(Range(0, n - 1)) + multiset([n - 1]);
      if x < n - 1 {
        RangeCountsOnce(n - 1, x);
      } else {
        assert x !in Range(0, n - 1);
      }
    } else {
      assert Range(0, 1) == [0];
    }
  }

  /** `np.argsort(scores)`: every position once, in ascending score order. */
  function ArgSort(scores: seq<real>): (order: seq<nat>)
    ensures IsArrangement(order, |scores|)
    ensures Ascending(scores, order)
  {
    var order := SortFrom(scores, 0);
    ArrangementOfRange(order, |scores|);
    SortFromAscending(scores, 0);
    order
  }

  /** `np.argsort(scores)[-k:][::-1]` */
  function TopK(scores: seq<real>, k: int): (top: seq<nat>)
    ensures InBounds(top, |scores|)
  {
    Reverse(From(ArgSort(scores), -k))
  }

  /** How many positions `[-k:]` keeps out of `n`: `k` ones clipped to `n`, all for `k = 0`, `n + k` for negative `k`. */
  function TopKCount(n: nat, k: int): (count: nat)
    ensures count <= n
    ensures k > 0 ==> count <= k
  {
    if k > 0 then (if k < n then k else n)
    else if k == 0 then n
    else if n + k < 0 then 0 else n + k
  }

  /** The selection keeps `TopKCount(|scores|, k)` positions. */
  lemma TopKLength(scores: seq<real>, k: int)
    ensures |TopK(scores, k)| == TopKCount(|scores|, k)
  {
    ReverseFromShape(ArgSort(scores), -k);
  }

  /** No position is selected twice, and the best score comes first. */
  lemma TopKOrdered(scores: seq<real>, k: int)
    ensures Distinct(TopK(scores, k))
    ensures Descending(scores, TopK(scores, k))
  {
    var top := TopK(scores, k);
    forall i, j | 0 <= i < j < |top| ensures top[i] != top[j] && scores[top[i]] >= scores[top[j]] {
      TopKPair(scores, k, i, j);
    }
  }

  lemma TopKPair(scores: seq<real>, k: int, i: nat, j: nat)
    requires i < j < |TopK(scores, k)|
    ensures TopK(scores, k)[i] != TopK(scores, k)[j]
    ensures scores[TopK(scores, k)[i]] >= scores[TopK(scores, k)[j]]
  {
    var n, order := |scores|, ArgSort(scores);
    ReverseFromAt(order, -k, i);
    ReverseFromAt(order, -k, j);
    var a, b := n - 1 - j, n - 1 - i;
    assert 0 <= a < b < n;
    assert order[a] != order[b] && scores[order[a]] <= scores[order[b]];
  }

  /** `s[start:][::-1]` lists the elements from the bound on, last first. */
  lemma ReverseFromShape<T>(s: seq<T>, start: int)
    ensures var top := Reverse(From(s, start));
      && |top| == |s| - Bound(|s|, start)
      && (forall i :: 0 <= i < |top| ==> top[i] == s[|s| - 1 - i])
      && forall m :: Bound(|s|, start) <= m < |s| ==> s[m] in top
  {
    var n, top := |s|, Reverse(From(s, start));
    forall i | 0 <= i < |top| ensures top[i] == s[n - 1 - i] {
      ReverseFromAt(s, start, i);
    }
    forall m | Bound(n, start) <= m < n ensures s[m] in top {
      assert top[n - 1 - m] == s[m];
    }
  }

  /** Position `i` of `s[start:][::-1]` is position `|s| - 1 - i` of `s`. */
  lemma ReverseFromAt<T>(s: seq<T>, start: int, i: nat)
    requires i < |Reverse(From(s, start))|
    ensures Reverse(From(s, start))[i] == s[|s| - 1 - i]
  {
    var tail := From(s, start);
    assert tail == s[Bound(|s|, start)..];
    assert Reverse(tail)[i] == tail[|tail| - 1 - i];
  }

  /** No position left out scores above a selected one. */
  lemma TopKBest(scores: seq<real>, k: int, i: nat, p: nat)
    requires i < |TopK(scores, k)| && p < |scores| && p !in TopK(scores, k)
    ensures scores[p] <= scores[TopK(scores, k)[i]]
  {
    SelectionBest(scores, ArgSort(scores), k, i, p);
  }

  /** The same, for any ascending arrangement: the tail of the ranking holds the best scores. */
  lemma SelectionBest(scores: seq<real>, order: seq<nat>, k: int, i: nat, p: nat)
    requires IsArrangement(order, |scores|) && Ascending(scores, order)
    requires i < |Reverse(From(order, -k))| && p < |scores| && p !in Reverse(From(order, -k))
    ensures scores[p] <= scores[Reverse(From(order, -k))[i]]
  {
    var n := |scores|;
    var m := LeftOutPosition(order, n, k, p);
    ReverseFromAt(order, -k, i);
    var c := n - 1 - i;
    assert m < c < n;
    assert scores[order[m]] <= scores[order[c]];
  }

  /** A position left out of `order[-k:]` sits before the cut. */
  lemma LeftOutPosition(order: seq<nat>, n: nat, k: int, p: nat) returns (m: nat)
    requires IsArrangement(order, n) && p < n && p !in Reverse(From(order, -k))
    ensures m < Bound(n, -k) && order[m] == p
  {
    assert p in order;
    m :| 0 <= m < n && order[m] == p;
    ReverseFromShape(order, -k);
  }

  /**
   * What the selection promises: the number of positions kept, no position
   * twice, best first, and no position left out scoring above one kept.
   */
  lemma TopKSelects(scores: seq<real>, k: int)
    ensures var top := TopK(scores, k);
      && |top| == TopKCount(|scores|, k)
      && Distinct(top)
      && Descending(scores, top)
      && forall i, p :: 0 <= i < |top| && 0 <= p < |scores| && p !in top ==> scores[p] <= scores[top[i]]
  {
    TopKLength(scores, k);
    TopKOrdered(scores, k);
    var top := TopK(scores, k);
    forall i, p | 0 <= i < |top| && 0 <= p < |scores| && p !in top ensures scores[p] <= scores[top[i]] {
      TopKBest(scores, k, i, p);
    }
  }

  /** With `k = 0` the slice `[-0:]` is the whole ranking: every recipe comes back. */
  lemma TopKZeroKeepsAll(scores: seq<real>)
    ensures IsArrangement(TopK(scores, 0), |scores|)
  {
    var order := ArgSort(scores);
    var top := TopK(scores, 0);
    assert From(order, 0) == order;
    ReverseFromShape(order, 0);
    forall p | 0 <= p < |scores| ensures p in top {
      assert p in order;
      var m :| 0 <= m < |order| && order[m] == p;
      assert top[|order| - 1 - m] == p;
    }
    TopKSelects(scores, 0);
  }
}
