/**
 * Retrieval metrics: Recall@k over a set of relevant ids, the keyword
 * heuristic that decides which retrieved recipes are relevant, and NDCG@k with
 * its guard against an ideal gain of zero.
 */
module Evaluation {
  import opened Wrappers
  import opened Text
  import opened Recipes
  import opened Slices

  /** `set(s)` */
  function Elements<T>(s: seq<T>): set<T> {
    set x | x in s
  }

  /** A subset is no larger, and a proper subset is smaller. */
  lemma SubsetCard<T>(a: set<T>, b: set<T>)
    requires a <= b
    ensures |a| <= |b|
    ensures a < b ==> |a| < |b|
  {
    assert b == a + (b - a);
    assert a * (b - a) == {};
    if a < b {
      var x :| x in b && x !in a;
      assert x in b - a;
    }
  }

  lemma CardIntersection<T>(a: set<T>, b: set<T>)
    ensures |a * b| <= |a|
  {
    SubsetCard(a * b, a);
  }

  /** `calculate_recall_at_k`: the share of the relevant ids found among `retrieved[:k]`. */
  function RecallAtK<T>(relevant: set<T>, retrieved: seq<T>, k: int := 3): (r: real)
    ensures 0.0 <= r <= 1.0
  {
    if |relevant| == 0 then 0.0
    else
      var found := relevant * Elements(Upto(retrieved, k));
      CardIntersection(relevant, Elements(Upto(retrieved, k)));
      (|found| as real) / (|relevant| as real)
  }

  /** Recall is 0 exactly when nothing relevant exists or none of it is retrieved within the cut-off. */
  lemma RecallZero<T>(relevant: set<T>, retrieved: seq<T>, k: int)
    ensures RecallAtK(relevant, retrieved, k) == 0.0 <==> relevant * Elements(Upto(retrieved, k)) == {}
  {
    if relevant != {} {
      var found := relevant * Elements(Upto(retrieved, k));
      if found != {} {
        assert |found| > 0;
        assert (|found| as real) / (|relevant| as real) > 0.0;
      }
    }
  }

  /** Recall is 1 exactly when every relevant id is retrieved within the cut-off (and there is one). */
  lemma RecallOne<T>(relevant: set<T>, retrieved: seq<T>, k: int)
    ensures RecallAtK(relevant, retrieved, k) == 1.0 <==> relevant != {} && relevant <= Elements(Upto(retrieved, k))
  {
    if relevant != {} {
      var found := relevant * Elements(Upto(retrieved, k));
      if found != relevant {
        assert found < relevant;
        SubsetCard(found, relevant);
      } else {
        assert relevant <= Elements(Upto(retrieved, k));
      }
    }
  }

  /** Only a longer prefix is intersected, so recall never drops as `k` grows (for cut-offs of one sign). */
  lemma RecallMonotone<T>(relevant: set<T>, retrieved: seq<T>, k1: int, k2: int)
    requires k1 <= k2
    requires (0 <= k1) == (0 <= k2)
    ensures RecallAtK(relevant, retrieved, k1) <= RecallAtK(relevant, retrieved, k2)
  {
    if relevant != {} {
      BoundMonotone(|retrieved|, k1, k2);
      var p1, p2 := Upto(retrieved, k1), Upto(retrieved, k2);
      assert p1 == p2[..|p1|];
      assert Elements(p1) <= Elements(p2);
      var f1, f2 := relevant * Elements(p1), relevant * Elements(p2);
      assert f1 <= f2;
      SubsetCard(f1, f2);
      var d := |relevant| as real;
      assert (|f1| as real) / d <= (|f2| as real) / d;
    }
  }

  /** Items after position `k` do not change recall. */
  lemma RecallIgnoresTail<T>(relevant: set<T>, retrieved: seq<T>, rest: seq<T>, k: int)
    requires 0 <= k <= |retrieved|
    ensures RecallAtK(relevant, retrieved + rest, k) == RecallAtK(relevant, retrieved, k)
  {
    assert Upto(retrieved + rest, k) == Upto(retrieved, k);
  }

  /** An item repeated within the cut-off counts once: dropping the repeat from the cut-off changes nothing. */
  lemma RecallIgnoresRepeats<T>(relevant: set<T>, retrieved: seq<T>, k: nat)
    requires 0 < k <= |retrieved| && retrieved[k - 1] in retrieved[..k - 1]
    ensures RecallAtK(relevant, retrieved, k) == RecallAtK(relevant, retrieved, k - 1)
  {
    assert retrieved[..k] == retrieved[..k - 1] + [retrieved[k - 1]];
    assert Elements(retrieved[..k]) == Elements(retrieved[..k - 1]);
  }

  // ---------------------------------------------------------------- relevance heuristic

  const StopWords: set<string> := {"a", "an", "the", "me", "show", "give", "list", "what", "is", "with", "for"}

  /** The default `threshold` of `identify_relevant_recipes`. */
  const DefaultThreshold: real := 0.15

  /** The query's keywords: its lower-cased words, as a set, without the stop words. */
  function Keywords(query: string): (keywords: set<string>)
    ensures forall w :: w in keywords ==> w !in StopWords && w in Words(Lower(query))
  {
    Elements(Words(Lower(query))) - StopWords
  }

  /** The text a keyword is looked for in: `f"{title} {tags}".lower()`, missing fields read as "". */
  function MatchText(recipe: Recipe): string {
    Lower(recipe.title.GetOr("") + " " + recipe.tags.GetOr(""))
  }

  predicate MatchesKeyword(recipe: Recipe, keywords: set<string>) {
    exists kw | kw in keywords :: Contains(MatchText(recipe), kw)
  }

  /** Some keyword occurs in the title and tags, and the retrieval score (0 if absent) reaches the threshold. */
  predicate Relevant(recipe: Recipe, keywords: set<string>, threshold: real) {
    MatchesKeyword(recipe, keywords) && recipe.relevanceScore.GetOr(0.0) >= threshold
  }

  /** `recipe['recipe_id']` raising KeyError. */
  datatype EvalError = MissingRecipeId

  /** `identify_relevant_recipes` */
  method IdentifyRelevantRecipes(query: string, recipes: seq<Recipe>, threshold: real := DefaultThreshold)
    returns (result: Result<set<Id>, EvalError>)
    ensures result.Failure? <==> exists r :: r in recipes && Relevant(r, Keywords(query), threshold) && r.recipeId.None?
    ensures result.Success? ==>
      result.value == set r | r in recipes && Relevant(r, Keywords(query), threshold) && r.recipeId.Some? :: r.recipeId.value
    ensures result.Success? ==> forall id :: id in result.value ==> exists r :: r in recipes && r.recipeId == Some(id)
    ensures Keywords(query) == {} ==> result == Success({})
  {
    var keywords := Keywords(query);
    var relevant: set<Id> := {};
    for i := 0 to |recipes|
      invariant forall r :: r in recipes[..i] && Relevant(r, keywords, threshold) ==> r.recipeId.Some?
      invariant relevant == set r | r in recipes[..i] && Relevant(r, keywords, threshold) && r.recipeId.Some? :: r.recipeId.value
      invariant keywords == {} ==> relevant == {}
    {
      var recipe := recipes[i];
      var recipeText := MatchText(recipe);
      var matches := exists kw | kw in keywords :: Contains(recipeText, kw);
      if matches && recipe.relevanceScore.GetOr(0.0) >= threshold {
        if recipe.recipeId.None? {
          assert recipe in recipes;
          return Failure(MissingRecipeId);
        }
        relevant := relevant + {recipe.recipeId.value};
      }
      assert recipes[..i + 1] == recipes[..i] + [recipe];
    }
    assert recipes[..|recipes|] == recipes;
    return Success(relevant);
  }

  /** A query made only of stop words, or of nothing, has no keywords. */
  lemma StopWordQueryHasNoKeywords(query: string)
    requires forall k :: 0 <= k < |Words(Lower(query))| ==> Words(Lower(query))[k] in StopWords
    ensures Keywords(query) == {}
  {
  }

  // ---------------------------------------------------------------- NDCG

  /** The ideal DCG of `count` relevant items: `gain(1) + … + gain(count)`, and 0 for `count <= 0`. */
  function IdealDcg(gain: nat -> real, count: int): real
    decreases count
  {
    if count <= 0 then 0.0 else IdealDcg(gain, count - 1) + gain(count)
  }

  /** The DCG of a ranking: `gain(i)` for each relevant item at (1-based) position `i`. */
  function Dcg<T>(relevant: set<T>, items: seq<T>, gain: nat -> real): real
    decreases |items|
  {
    if items == [] then 0.0
    else Dcg(relevant, items[..|items| - 1], gain) + (if items[|items| - 1] in relevant then gain(|items|) else 0.0)
  }

  function Min(a: int, b: int): int {
    if a < b then a else b
  }

  /** NDCG@k: DCG over `retrieved[:k]` divided by the ideal DCG, or 0 when the ideal DCG is 0. */
  function Ndcg<T>(relevant: set<T>, retrieved: seq<T>, k: int, gain: nat -> real): real {
    var idcg := IdealDcg(gain, Min(|relevant|, k));
    if idcg == 0.0 then 0.0 else Dcg(relevant, Upto(retrieved, k), gain) / idcg
  }

  /**
   * `calculate_ndcg_at_k`, with the discount `1 / log2(i + 1)` left as the
   * parameter `gain`. The score is 0 whenever the ideal DCG is 0, and in
   * particular when nothing is relevant or `k <= 0`.
   */
  method NdcgAtK<T>(relevant: set<T>, retrieved: seq<T>, k: int := 3, gain: nat -> real) returns (score: real)
    ensures score == Ndcg(relevant, retrieved, k, gain)
    ensures relevant == {} || k <= 0 ==> score == 0.0
  {
    var retrievedK := Upto(retrieved, k);
    var dcg := 0.0;
    for i := 0 to |retrievedK|
      invariant dcg == Dcg(relevant, retrievedK[..i], gain)
    {
      assert retrievedK[..i + 1][..i] == retrievedK[..i];
      if retrievedK[i] in relevant {
        dcg := dcg + gain(i + 1);
      }
    }
    assert retrievedK[..|retrievedK|] == retrievedK;
    var numRelevant := Min(|relevant|, k);
    var idcg := 0.0;
    var i := 1;
    while i <= numRelevant
      invariant 1 <= i && (numRelevant >= 0 ==> i <= numRelevant + 1) && (numRelevant < 1 ==> i == 1)
      invariant idcg == IdealDcg(gain, i - 1)
      decreases numRelevant - i
    {
      idcg := idcg + gain(i);
      i := i + 1;
    }
    assert idcg == IdealDcg(gain, numRelevant);
    if idcg == 0.0 {
      return 0.0;
    }
    score := dcg / idcg;
  }

  /** With positive discounts the ideal DCG is 0 only when nothing is counted, so the guard fires exactly then. */
  lemma {:induction false} IdealDcgZero(gain: nat -> real, count: int)
    requires forall i: nat :: gain(i) > 0.0
    ensures IdealDcg(gain, count) == 0.0 <==> count <= 0
    decreases count
  {
    if count > 0 {
      IdealDcgNonNegative(gain, count - 1);
    }
  }

  lemma {:induction false} IdealDcgNonNegative(gain: nat -> real, count: int)
    requires forall i: nat :: gain(i) > 0.0
    ensures IdealDcg(gain, count) >= 0.0
    decreases count
  {
    if count > 0 {
      IdealDcgNonNegative(gain, count - 1);
    }
  }

  /** A discount like `1 / log2(i + 1)`: positive and never increasing with the position. */
  ghost predicate Discount(gain: nat -> real) {
    (forall i: nat :: gain(i) > 0.0) && forall i: nat, j: nat :: i <= j ==> gain(j) <= gain(i)
  }

  /** No item occurs twice. */
  ghost predicate NoRepeats<T>(s: seq<T>) {
    forall i, j :: 0 <= i < j < |s| ==> s[i] != s[j]
  }

  /** The number of entries of `items` that are relevant, repeats included. */
  function Hits<T>(relevant: set<T>, items: seq<T>): nat
    decreases |items|
  {
    if items == [] then 0
    else Hits(relevant, items[..|items| - 1]) + (if items[|items| - 1] in relevant then 1 else 0)
  }

  lemma {:induction false} HitsAtMostLength<T>(relevant: set<T>, items: seq<T>)
    ensures Hits(relevant, items) <= |items|
    decreases |items|
  {
    if items != [] {
      HitsAtMostLength(relevant, items[..|items| - 1]);
    }
  }

  /** Adding an item not seen before adds one relevant item exactly when it is relevant. */
  lemma RelevantSnoc<T>(relevant: set<T>, init: seq<T>, last: T)
    requires last !in init
    ensures |relevant * Elements(init + [last])| == |relevant * Elements(init)| + (if last in relevant then 1 else 0)
  {
    var before := relevant * Elements(init);
    assert last !in before;
    if last in relevant {
      assert relevant * Elements(init + [last]) == before + {last};
    } else {
      assert relevant * Elements(init + [last]) == before;
    }
  }

  /** Without repeats, each hit is a different relevant item. */
  lemma {:induction false} HitsCountRelevant<T>(relevant: set<T>, items: seq<T>)
    requires NoRepeats(items)
    ensures Hits(relevant, items) == |relevant * Elements(items)|
    decreases |items|
  {
    if items != [] {
      var init, last := items[..|items| - 1], items[|items| - 1];
      assert items == init + [last];
      assert NoRepeats(init);
      HitsCountRelevant(relevant, init);
      assert last !in init;
      RelevantSnoc(relevant, init, last);
    }
  }

  lemma {:induction false} IdealDcgMonotone(gain: nat -> real, a: int, b: int)
    requires forall i: nat :: gain(i) > 0.0
    requires a <= b
    ensures IdealDcg(gain, a) <= IdealDcg(gain, b)
    decreases b - a
  {
    if a < b {
      IdealDcgMonotone(gain, a, b - 1);
      if b - 1 < 0 {
        assert IdealDcg(gain, b) == 0.0;
      }
    }
  }

  /** Relevant items placed anywhere earn at most what the same number earns at the top. */
  lemma {:induction false} DcgAtMostIdeal<T>(relevant: set<T>, items: seq<T>, gain: nat -> real)
    requires Discount(gain)
    ensures 0.0 <= Dcg(relevant, items, gain) <= IdealDcg(gain, Hits(relevant, items))
    decreases |items|
  {
    if items != [] {
      var init := items[..|items| - 1];
      DcgAtMostIdeal(relevant, init, gain);
      HitsAtMostLength(relevant, init);
      if items[|items| - 1] in relevant {
        var h := Hits(relevant, init);
        assert h + 1 <= |items|;
        assert gain(|items|) <= gain(h + 1);
      }
    }
  }

  lemma RatioInUnitRange(a: real, b: real)
    requires 0.0 <= a <= b && b > 0.0
    ensures 0.0 <= a / b <= 1.0
  {
  }

  /** A prefix of a list without repeats has none either. */
  lemma PrefixNoRepeats<T>(s: seq<T>, n: nat)
    requires NoRepeats(s) && n <= |s|
    ensures NoRepeats(s[..n])
  {
  }

  /**
   * For a retrieved list without repeats and a positive, non-increasing
   * discount, NDCG@k lies in [0, 1].
   */
  lemma NdcgInUnitRange<T>(relevant: set<T>, retrieved: seq<T>, k: int, gain: nat -> real)
    requires Discount(gain)
    requires NoRepeats(retrieved)
    ensures 0.0 <= Ndcg(relevant, retrieved, k, gain) <= 1.0
  {
    var count := Min(|relevant|, k);
    var idcg := IdealDcg(gain, count);
    if idcg != 0.0 {
      IdealDcgZero(gain, count);
      var items := Upto(retrieved, k);
      assert |items| <= k;
      PrefixNoRepeats(retrieved, |items|);
      HitsCountRelevant(relevant, items);
      HitsAtMostLength(relevant, items);
      CardIntersection(relevant, Elements(items));
      var h := Hits(relevant, items);
      assert h <= count;
      DcgAtMostIdeal(relevant, items, gain);
      IdealDcgMonotone(gain, h, count);
      RatioInUnitRange(Dcg(relevant, items, gain), idcg);
    }
  }

  /** A relevant id retrieved twice is counted twice, so the score can exceed 1. */
  lemma NdcgRepeatsExceedOne(gain: nat -> real)
    requires forall i: nat :: gain(i) == if i <= 1 then 1.0 else 0.5
    ensures Discount(gain)
    ensures Ndcg({7}, [7, 7], 2, gain) == 1.5
  {
    assert Upto([7, 7], 2) == [7, 7];
    assert [7, 7][..1] == [7];
    assert [7][..0] == [];
    assert |{7}| == 1;
  }

  // The intended score: a relevant id earns its discount only at its first
  // position in the ranking, so repeats cannot lift the score above 1.

  /** The number of relevant ids in `items`, each counted at its first occurrence only. */
  function FirstHits<T(==)>(relevant: set<T>, items: seq<T>): nat
    decreases |items|
  {
    if items == [] then 0
    else
      var init, last := items[..|items| - 1], items[|items| - 1];
      FirstHits(relevant, init) + (if last in relevant && last !in init then 1 else 0)
  }

  /** DCG in which only the first occurrence of a relevant id earns its discount. */
  function FirstHitDcg<T(==)>(relevant: set<T>, items: seq<T>, gain: nat -> real): real
    decreases |items|
  {
    if items == [] then 0.0
    else
      var init, last := items[..|items| - 1], items[|items| - 1];
      FirstHitDcg(relevant, init, gain) + (if last in relevant && last !in init then gain(|items|) else 0.0)
  }

  /** NDCG@k with first occurrences only: the score the docstring's "(0 to 1)" describes. */
  function NdcgFirstHits<T(==)>(relevant: set<T>, retrieved: seq<T>, k: int, gain: nat -> real): real {
    var idcg := IdealDcg(gain, Min(|relevant|, k));
    if idcg == 0.0 then 0.0 else FirstHitDcg(relevant, Upto(retrieved, k), gain) / idcg
  }

  /** Counting first occurrences counts the different relevant ids retrieved, repeats or not. */
  lemma {:induction false} FirstHitsCountRelevant<T>(relevant: set<T>, items: seq<T>)
    ensures FirstHits(relevant, items) == |relevant * Elements(items)|
    decreases |items|
  {
    if items != [] {
      var init, last := items[..|items| - 1], items[|items| - 1];
      assert items == init + [last];
      FirstHitsCountRelevant(relevant, init);
      if last in init {
        assert Elements(items) == Elements(init);
      } else {
        RelevantSnoc(relevant, init, last);
      }
    }
  }

  lemma {:induction false} FirstHitsAtMostLength<T>(relevant: set<T>, items: seq<T>)
    ensures FirstHits(relevant, items) <= |items|
    decreases |items|
  {
    if items != [] {
      FirstHitsAtMostLength(relevant, items[..|items| - 1]);
    }
  }

  /** First occurrences placed anywhere earn at most what the same number earns at the top. */
  lemma {:induction false} FirstHitDcgAtMostIdeal<T>(relevant: set<T>, items: seq<T>, gain: nat -> real)
    requires Discount(gain)
    ensures 0.0 <= FirstHitDcg(relevant, items, gain) <= IdealDcg(gain, FirstHits(relevant, items))
    decreases |items|
  {
    if items != [] {
      var init, last := items[..|items| - 1], items[|items| - 1];
      FirstHitDcgAtMostIdeal(relevant, init, gain);
      FirstHitsAtMostLength(relevant, init);
      if last in relevant && last !in init {
        var h := FirstHits(relevant, init);
        assert h + 1 <= |items|;
        assert gain(|items|) <= gain(h + 1);
      }
    }
  }

  /** Without repeats, counting first occurrences is counting every occurrence. */
  lemma {:induction false} FirstHitDcgWithoutRepeats<T>(relevant: set<T>, items: seq<T>, gain: nat -> real)
    requires NoRepeats(items)
    ensures FirstHitDcg(relevant, items, gain) == Dcg(relevant, items, gain)
    decreases |items|
  {
    if items != [] {
      var init, last := items[..|items| - 1], items[|items| - 1];
      assert NoRepeats(init);
      assert last !in init;
      FirstHitDcgWithoutRepeats(relevant, init, gain);
    }
  }

  /** With a positive, non-increasing discount the first-occurrence score lies in [0, 1] for every ranking. */
  lemma NdcgFirstHitsInUnitRange<T>(relevant: set<T>, retrieved: seq<T>, k: int, gain: nat -> real)
    requires Discount(gain)
    ensures 0.0 <= NdcgFirstHits(relevant, retrieved, k, gain) <= 1.0
  {
    var count := Min(|relevant|, k);
    var idcg := IdealDcg(gain, count);
    if idcg != 0.0 {
      IdealDcgZero(gain, count);
      var items := Upto(retrieved, k);
      assert |items| <= k;
      FirstHitsCountRelevant(relevant, items);
      FirstHitsAtMostLength(relevant, items);
      CardIntersection(relevant, Elements(items));
      var h := FirstHits(relevant, items);
      assert h <= count;
      FirstHitDcgAtMostIdeal(relevant, items, gain);
      IdealDcgMonotone(gain, h, count);
      RatioInUnitRange(FirstHitDcg(relevant, items, gain), idcg);
    }
  }

  /** On rankings without repeats the first-occurrence score is the score as written. */
  lemma NdcgFirstHitsAgrees<T>(relevant: set<T>, retrieved: seq<T>, k: int, gain: nat -> real)
    requires NoRepeats(retrieved)
    ensures NdcgFirstHits(relevant, retrieved, k, gain) == Ndcg(relevant, retrieved, k, gain)
  {
    var items := Upto(retrieved, k);
    PrefixNoRepeats(retrieved, |items|);
    FirstHitDcgWithoutRepeats(relevant, items, gain);
  }

  /** On the ranking that lifts the written score to 1.5, the first-occurrence score is 1. */
  lemma NdcgFirstHitsRepeats(gain: nat -> real)
    requires forall i: nat :: gain(i) == if i <= 1 then 1.0 else 0.5
    ensures NdcgFirstHits({7}, [7, 7], 2, gain) == 1.0
  {
    assert Upto([7, 7], 2) == [7, 7];
    assert [7, 7][..1] == [7];
    assert [7][..0] == [];
    assert |{7}| == 1;
  }
}
