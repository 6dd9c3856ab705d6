/**
 * The TF-IDF retriever: a catalog of recipes and, standing for the fitted
 * vectorizer and document matrix, the cosine similarity of a (lower-cased)
 * query to each stored recipe. Retrieval ranks the catalog by that score.
 */
module Retrieval {
  import opened Wrappers
  import opened Text
  import opened Recipes
  import opened Ranking

  /** A copy of `recipe` with `relevance_score` set. */
  function Scored(recipe: Recipe, score: real): (r: Recipe)
    ensures r.relevanceScore == Some(score)
    ensures r.(relevanceScore := recipe.relevanceScore) == recipe
  {
    recipe.(relevanceScore := Some(score))
  }

  class RecipeRetriever {
    const recipes: seq<Recipe>
    /** Cosine similarity between the TF-IDF vector of a query and that of the recipe at a position. */
    const similarity: (string, nat) -> real

    constructor (recipes: seq<Recipe>, similarity: (string, nat) -> real)
      ensures this.recipes == recipes && this.similarity == similarity
    {
      this.recipes := recipes;
      this.similarity := similarity;
    }

    /** `cosine_similarity(vectorizer.transform([query.lower()]), tfidf_matrix).flatten()` */
    function Similarities(query: string): (s: seq<real>)
      ensures |s| == |recipes|
    {
      seq(|recipes|, i requires 0 <= i < |recipes| => similarity(Lower(query), i))
    }

    /** The list `retrieve_recipes(query, k)` returns: each selected recipe, copied, with its score. */
    function Ranked(query: string, k: int): (results: seq<Recipe>)
      ensures var scores := Similarities(query); var top := TopK(scores, k);
        && |results| == |top|
        && forall j :: 0 <= j < |top| ==> results[j] == Scored(recipes[top[j]], scores[top[j]])
    {
      var scores := Similarities(query);
      var top := TopK(scores, k);
      seq(|top|, j requires 0 <= j < |top| => Scored(recipes[top[j]], scores[top[j]]))
    }

    method RetrieveRecipes(query: string, k: int := 5) returns (results: seq<Recipe>)
      ensures results == Ranked(query, k)
    {
      var similarities := Similarities(query);
      var topIndices := TopK(similarities, k);
      results := [];
      for j := 0 to |topIndices|
        invariant |results| == j
        invariant forall m :: 0 <= m < j ==> results[m] == Scored(recipes[topIndices[m]], similarities[topIndices[m]])
      {
        var idx := topIndices[j];
        var recipe := recipes[idx].(relevanceScore := Some(similarities[idx]));
        results := results + [recipe];
      }
    }

    /**
     * What a caller of `retrieve_recipes` gets: `TopKCount(n, k)` records
     * (exactly `min(k, n)` for positive `k`, all `n` for `k = 0`), each the
     * stored recipe at a distinct position with that position's score, best
     * first, and no recipe left out scoring above one returned.
     */
    lemma RankedSelects(query: string, k: int)
      ensures var scores, results := Similarities(query), Ranked(query, k);
        && |results| == TopKCount(|recipes|, k)
        && (forall j :: 0 <= j < |results| ==> results[j].relevanceScore.Some?)
        && (forall i, j :: 0 <= i < j < |results| ==> results[i].relevanceScore.value >= results[j].relevanceScore.value)
        && exists top: seq<nat> ::
             && |top| == |results| && Distinct(top) && InBounds(top, |recipes|)
             && (forall j :: 0 <= j < |top| ==> results[j] == Scored(recipes[top[j]], scores[top[j]]))
             && (forall j, p :: 0 <= j < |top| && 0 <= p < |recipes| && p !in top ==> scores[p] <= scores[top[j]])
    {
      var scores := Similarities(query);
      var top := TopK(scores, k);
      TopKSelects(scores, k);
      var results := Ranked(query, k);
      forall i, j | 0 <= i < j < |results|
        ensures results[i].relevanceScore.value >= results[j].relevanceScore.value
      {
        assert scores[top[i]] >= scores[top[j]];
      }
    }

    /** With `k = 0` every stored recipe comes back, each once, ranked. */
    lemma RankedZeroIsWholeCatalog(query: string)
      ensures |Ranked(query, 0)| == |recipes|
      ensures forall p :: 0 <= p < |recipes| ==> Scored(recipes[p], Similarities(query)[p]) in Ranked(query, 0)
    {
      var scores := Similarities(query);
      TopKZeroKeepsAll(scores);
      var top := TopK(scores, 0);
      var results := Ranked(query, 0);
      assert |top| == |scores| == |recipes| == |results|;
      forall p | 0 <= p < |recipes|
        ensures Scored(recipes[p], scores[p]) in results
      {
        assert p in top;
        var j :| 0 <= j < |top| && top[j] == p;
        assert results[j] == Scored(recipes[p], scores[p]);
      }
    }

    /** Scoring copies keep their titles, so a catalog with every title gives results with every title. */
    lemma RankedKeepsTitles(query: string, k: int)
      ensures AllTitled(recipes) ==> AllTitled(Ranked(query, k))
    {
      var scores := Similarities(query);
      var top := TopK(scores, k);
      if AllTitled(recipes) {
        forall j | 0 <= j < |top| ensures Ranked(query, k)[j].title.Some? {
          assert recipes[top[j]].title.Some?;
        }
      }
    }

    /** The query is lower-cased before it is vectorised, so its case does not matter. */
    lemma RankedIgnoresCase(query: string, k: int)
      ensures Ranked(Lower(query), k) == Ranked(query, k)
    {
      LowerIdempotent(query);
      assert Similarities(Lower(query)) == Similarities(query);
    }

    /** `format_recipe_for_display` */
    method FormatRecipeForDisplay(recipe: Recipe, fmt: Formats) returns (text: string)
      ensures text == Join("\n", DisplayLines(recipe, fmt))
    {
      var title := ["Title: " + recipe.title.GetOr("N/A")];
      var output := title;
      if Truthy(recipe.tags) {
        output := output + ["Tags: " + recipe.tags.value];
      }
      assert output == title + TagsDisplay(recipe);
      if TruthyNumber(recipe.duration) {
        output := output + ["Duration: " + fmt.plain(recipe.duration.value) + " minutes"];
      }
      assert output == title + TagsDisplay(recipe) + DurationDisplay(recipe, fmt);
      if TruthyNumber(recipe.calories) {
        output := output + ["Calories: " + fmt.fixed1(recipe.calories.value) + " cal"];
      }
      assert output == title + TagsDisplay(recipe) + DurationDisplay(recipe, fmt) + CaloriesDisplay(recipe, fmt);
      if Truthy(recipe.healthCategory) {
        output := output + ["Health: " + recipe.healthCategory.value];
      }
      assert output == title + TagsDisplay(recipe) + DurationDisplay(recipe, fmt) + CaloriesDisplay(recipe, fmt)
        + HealthDisplay(recipe);
      DisplayAssociates(recipe, fmt);
      if recipe.relevanceScore.Some? {
        output := output + ["Relevance: " + fmt.fixed3(recipe.relevanceScore.value)];
      }
      assert output == title + DisplayDetails(recipe, fmt) + RelevanceDisplay(recipe, fmt);
      text := Join("\n", output);
    }
  }

  /** The optional display lines, in their fixed order: Tags, Duration, Calories, Health. */
  function DisplayDetails(recipe: Recipe, fmt: Formats): seq<string> {
    TagsDisplay(recipe) + DurationDisplay(recipe, fmt) + CaloriesDisplay(recipe, fmt) + HealthDisplay(recipe)
  }

  function TagsDisplay(recipe: Recipe): seq<string> {
    if Truthy(recipe.tags) then ["Tags: " + recipe.tags.value] else []
  }

  function DurationDisplay(recipe: Recipe, fmt: Formats): seq<string> {
    if TruthyNumber(recipe.duration) then ["Duration: " + fmt.plain(recipe.duration.value) + " minutes"] else []
  }

  function CaloriesDisplay(recipe: Recipe, fmt: Formats): seq<string> {
    if TruthyNumber(recipe.calories) then ["Calories: " + fmt.fixed1(recipe.calories.value) + " cal"] else []
  }

  function HealthDisplay(recipe: Recipe): seq<string> {
    if Truthy(recipe.healthCategory) then ["Health: " + recipe.healthCategory.value] else []
  }

  function RelevanceDisplay(recipe: Recipe, fmt: Formats): seq<string> {
    if recipe.relevanceScore.Some? then ["Relevance: " + fmt.fixed3(recipe.relevanceScore.value)] else []
  }

  /** The lines of the display: the title, the details, and the relevance whenever the key exists. */
  function DisplayLines(recipe: Recipe, fmt: Formats): seq<string> {
    ["Title: " + recipe.title.GetOr("N/A")] + DisplayDetails(recipe, fmt) + RelevanceDisplay(recipe, fmt)
  }

  lemma DisplayAssociates(recipe: Recipe, fmt: Formats)
    ensures var title := ["Title: " + recipe.title.GetOr("N/A")];
      title + TagsDisplay(recipe) + DurationDisplay(recipe, fmt) + CaloriesDisplay(recipe, fmt) + HealthDisplay(recipe)
        == title + DisplayDetails(recipe, fmt)
  {
    var title, t, d, c, h := ["Title: " + recipe.title.GetOr("N/A")], TagsDisplay(recipe), DurationDisplay(recipe, fmt),
      CaloriesDisplay(recipe, fmt), HealthDisplay(recipe);
    SeqAssociate(title, t + d + c, h);
    SeqAssociate(title, t + d, c);
    SeqAssociate(title, t, d);
  }

  lemma SeqAssociate<T>(a: seq<T>, b: seq<T>, c: seq<T>)
    ensures a + (b + c) == a + b + c
  {
  }

  function Count(b: bool): nat {
    if b then 1 else 0
  }

  /**
   * The display always opens with the title line ("N/A" when there is none),
   * has one line per truthy detail field, and ends with the relevance line
   * exactly when a score is present, even a zero score.
   */
  lemma DisplayShape(recipe: Recipe, fmt: Formats)
    ensures var lines := DisplayLines(recipe, fmt);
      && lines[0] == "Title: " + recipe.title.GetOr("N/A")
      && |lines| == 1 + Count(Truthy(recipe.tags)) + Count(TruthyNumber(recipe.duration))
                      + Count(TruthyNumber(recipe.calories)) + Count(Truthy(recipe.healthCategory))
                      + Count(recipe.relevanceScore.Some?)
      && (recipe.relevanceScore.Some? <==> |lines| >= 2 && StartsWith(lines[|lines| - 1], "Relevance: "))
  {
    var lines := DisplayLines(recipe, fmt);
    var details := DisplayDetails(recipe, fmt);
    DetailsLength(recipe, fmt);
    var last := lines[|lines| - 1];
    if recipe.relevanceScore.Some? {
      assert last == "Relevance: " + fmt.fixed3(recipe.relevanceScore.value);
      StartsWithConcat("Relevance: ", fmt.fixed3(recipe.relevanceScore.value));
    } else if |lines| >= 2 {
      assert last == details[|details| - 1];
      LastDetailNotRelevance(recipe, fmt);
      FirstCharDiffers(last, "Relevance: ");
    }
  }

  lemma DetailsLength(recipe: Recipe, fmt: Formats)
    ensures |DisplayDetails(recipe, fmt)| == Count(Truthy(recipe.tags)) + Count(TruthyNumber(recipe.duration))
                                            + Count(TruthyNumber(recipe.calories)) + Count(Truthy(recipe.healthCategory))
  {
  }

  /** The last detail line is a Health, Calories, Duration or Tags line, never a Relevance line. */
  lemma LastDetailNotRelevance(recipe: Recipe, fmt: Formats)
    requires DisplayDetails(recipe, fmt) != []
    ensures DisplayDetails(recipe, fmt)[|DisplayDetails(recipe, fmt)| - 1][0] in "HCDT"
  {
    var details := DisplayDetails(recipe, fmt);
    var t, d, c, h := TagsDisplay(recipe), DurationDisplay(recipe, fmt), CaloriesDisplay(recipe, fmt), HealthDisplay(recipe);
    var last := details[|details| - 1];
    if h != [] {
      assert last == h[0];
    } else if c != [] {
      assert details == t + d + c;
      assert last == c[0];
    } else if d != [] {
      assert details == t + d;
      assert last == d[0];
    } else {
      assert details == t;
      assert last == t[0];
    }
  }

  /** When no field text holds a line break, splitting the display on "\n" gives the lines back. */
  lemma DisplaySplits(recipe: Recipe, fmt: Formats)
    requires forall m :: 0 <= m < |DisplayLines(recipe, fmt)| ==> '\n' !in DisplayLines(recipe, fmt)[m]
    ensures SplitOn('\n', Join("\n", DisplayLines(recipe, fmt))) == DisplayLines(recipe, fmt)
  {
    SplitJoin('\n', DisplayLines(recipe, fmt));
  }
}
