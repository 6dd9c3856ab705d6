/**
 * The templated answer used as a baseline against the model-generated one:
 * up to three titles from the retrieved list and two facts about the first
 * recipe, with no language model involved.
 */
module Baseline {
  import opened Wrappers
  import opened Text
  import opened Recipes

  /** A shown recipe without a title: the lookup `r['title'].title()` fails on it. */
  datatype BaselineError = MissingTitle(position: nat)

  const NoRecipes: string := "No recipes found matching your query."
  const Opening: string := "Based on your search, I found: "

  /** `retrieved_recipes[:3]` */
  function Shown(recipes: seq<Recipe>): (shown: seq<Recipe>)
    ensures |shown| == if |recipes| < 3 then |recipes| else 3
    ensures shown <= recipes
  {
    recipes[..if |recipes| < 3 then |recipes| else 3]
  }

  /**
   * The title-cased titles of `recipes`, failing at the first recipe that has
   * none.
   */
  function Titles(recipes: seq<Recipe>, fmt: Formats): (r: Result<seq<string>, BaselineError>)
    ensures r.Success? <==> forall j :: 0 <= j < |recipes| ==> recipes[j].title.Some?
    ensures r.Success? ==>
      |r.value| == |recipes| && forall j :: 0 <= j < |recipes| ==> r.value[j] == fmt.titleCase(recipes[j].title.value)
    ensures r.Failure? ==> var p := r.error.position;
      p < |recipes| && recipes[p].title.None? && forall j :: 0 <= j < p ==> recipes[j].title.Some?
    decreases |recipes|
  {
    if recipes == [] then Success([])
    else if recipes[0].title.None? then Failure(MissingTitle(0))
    else match Titles(recipes[1..], fmt)
      case Failure(e) => Failure(MissingTitle(e.position + 1))
      case Success(rest) => Success([fmt.titleCase(recipes[0].title.value)] + rest)
  }

  /** The sentence naming one, two, or three titles. */
  function TitleSentence(titles: seq<string>): string
    requires 1 <= |titles| <= 3
  {
    if |titles| == 1 then Opening + titles[0] + "."
    else if |titles| == 2 then Opening + titles[0] + " and " + titles[1] + "."
    else Opening + titles[0] + ", " + titles[1] + ", and " + titles[2] + "."
  }

  function CaloriesSentence(first: Recipe, fmt: Formats): string {
    if TruthyNumber(first.calories) then " The first recipe has " + fmt.fixed0(first.calories.value) + " calories." else ""
  }

  function DurationSentence(first: Recipe, fmt: Formats): string {
    if TruthyNumber(first.duration) then " It takes about " + fmt.fixed0(first.duration.value) + " minutes to prepare." else ""
  }

  /** `generate_baseline_answer`; the query is accepted and not used. */
  function BaselineAnswer(query: string, recipes: seq<Recipe>, fmt: Formats): (r: Result<string, BaselineError>)
    ensures r.Failure? ==> r.error.position < 3 && r.error.position < |recipes| && recipes[r.error.position].title.None?
  {
    if recipes == [] then Success(NoRecipes)
    else match Titles(Shown(recipes), fmt)
      case Failure(e) => Failure(e)
      case Success(titles) =>
        Success(TitleSentence(titles) + CaloriesSentence(recipes[0], fmt) + DurationSentence(recipes[0], fmt))
  }

  /**
   * No recipes give the fixed apology; otherwise the answer exists exactly
   * when the first three recipes all have titles, and it is the same for
   * every query.
   */
  lemma BaselineSucceeds(query: string, other: string, recipes: seq<Recipe>, fmt: Formats)
    ensures recipes == [] ==> BaselineAnswer(query, recipes, fmt) == Success(NoRecipes)
    ensures BaselineAnswer(query, recipes, fmt).Success? <==>
      forall j :: 0 <= j < |recipes| && j < 3 ==> recipes[j].title.Some?
    ensures BaselineAnswer(query, recipes, fmt) == BaselineAnswer(other, recipes, fmt)
  {
    if recipes != [] {
      var shown := Shown(recipes);
      assert forall j :: 0 <= j < |shown| ==> shown[j] == recipes[j];
    }
  }

  /** Recipes after the third change nothing but the facts, which come from the first. */
  lemma BaselineUsesFirstThree(query: string, recipes: seq<Recipe>, more: seq<Recipe>, fmt: Formats)
    requires |recipes| >= 3
    ensures BaselineAnswer(query, recipes + more, fmt) == BaselineAnswer(query, recipes, fmt)
  {
    assert Shown(recipes + more) == Shown(recipes);
    assert (recipes + more)[0] == recipes[0];
  }

  /** The three templates each contain every title they list. */
  lemma TitleSentenceNames(titles: seq<string>, j: nat, facts: string)
    requires 1 <= |titles| <= 3 && j < |titles|
    ensures Contains(TitleSentence(titles) + facts, titles[j])
  {
    var sentence := TitleSentence(titles);
    if |titles| == 1 {
      ContainsLast(Opening, titles[0]);
      ContainsExtended(Opening + titles[0], titles[0], ".");
    } else if |titles| == 2 {
      if j == 0 {
        ContainsLast(Opening, titles[0]);
        ContainsExtended(Opening + titles[0], titles[0], " and ");
        ContainsExtended(Opening + titles[0] + " and ", titles[0], titles[1]);
        ContainsExtended(Opening + titles[0] + " and " + titles[1], titles[0], ".");
      } else {
        ContainsLast(Opening + titles[0] + " and ", titles[1]);
        ContainsExtended(Opening + titles[0] + " and " + titles[1], titles[1], ".");
      }
    } else {
      var upTo0 := Opening + titles[0];
      var upTo1 := upTo0 + ", " + titles[1];
      var upTo2 := upTo1 + ", and " + titles[2];
      if j == 0 {
        ContainsLast(Opening, titles[0]);
        ContainsExtended(upTo0, titles[0], ", ");
        ContainsExtended(upTo0 + ", ", titles[0], titles[1]);
      }
      if j <= 1 {
        if j == 1 {
          ContainsLast(upTo0 + ", ", titles[1]);
        }
        ContainsExtended(upTo1, titles[j], ", and ");
        ContainsExtended(upTo1 + ", and ", titles[j], titles[2]);
      } else {
        ContainsLast(upTo1 + ", and ", titles[2]);
      }
      ContainsExtended(upTo2, titles[j], ".");
    }
    ContainsExtended(sentence, titles[j], facts);
  }

  /** Each template opens with "Based on your search, I found: " and the first title. */
  lemma TitleSentenceOpens(titles: seq<string>, facts: string)
    requires 1 <= |titles| <= 3
    ensures StartsWith(TitleSentence(titles) + facts, Opening + titles[0])
  {
    var sentence := TitleSentence(titles);
    assert sentence + facts == Opening + titles[0] + (sentence[|Opening + titles[0]|..] + facts);
  }

  /** A successful answer opens with the title list and names every shown title. */
  lemma BaselineNamesTitles(query: string, recipes: seq<Recipe>, fmt: Formats)
    requires recipes != [] && BaselineAnswer(query, recipes, fmt).Success?
    ensures var answer := BaselineAnswer(query, recipes, fmt).value;
      && StartsWith(answer, Opening + fmt.titleCase(recipes[0].title.value))
      && forall j :: 0 <= j < |recipes| && j < 3 ==> Contains(answer, fmt.titleCase(recipes[j].title.value))
  {
    var shown := Shown(recipes);
    assert forall j :: 0 <= j < |shown| ==> shown[j] == recipes[j];
    var titles := Titles(shown, fmt).value;
    var facts := CaloriesSentence(recipes[0], fmt) + DurationSentence(recipes[0], fmt);
    assert BaselineAnswer(query, recipes, fmt).value == TitleSentence(titles) + facts;
    TitleSentenceOpens(titles, facts);
    forall j | 0 <= j < |recipes| && j < 3 ensures Contains(TitleSentence(titles) + facts, titles[j]) {
      TitleSentenceNames(titles, j, facts);
    }
  }

  /**
   * A successful answer is the title sentence followed by the calories
   * sentence exactly when the first recipe's calories are set and non-zero,
   * then the duration sentence exactly when its duration is; each states its
   * value rounded, and without either the title sentence stands alone.
   */
  lemma BaselineStatesFacts(query: string, recipes: seq<Recipe>, fmt: Formats)
    requires recipes != [] && BaselineAnswer(query, recipes, fmt).Success?
    ensures var answer, first := BaselineAnswer(query, recipes, fmt).value, recipes[0];
      var sentence := TitleSentence(Titles(Shown(recipes), fmt).value);
      && answer == sentence
           + (if TruthyNumber(first.calories) then " The first recipe has " + fmt.fixed0(first.calories.value) + " calories." else "")
           + (if TruthyNumber(first.duration) then " It takes about " + fmt.fixed0(first.duration.value) + " minutes to prepare." else "")
      && (TruthyNumber(first.calories) ==>
            Contains(answer, " The first recipe has " + fmt.fixed0(first.calories.value) + " calories."))
      && (TruthyNumber(first.duration) ==>
            Contains(answer, " It takes about " + fmt.fixed0(first.duration.value) + " minutes to prepare."))
      && (!TruthyNumber(first.calories) && !TruthyNumber(first.duration) ==> answer == sentence)
  {
    var sentence := TitleSentence(Titles(Shown(recipes), fmt).value);
    var calories := CaloriesSentence(recipes[0], fmt);
    var duration := DurationSentence(recipes[0], fmt);
    var answer := BaselineAnswer(query, recipes, fmt).value;
    assert answer == sentence + calories + duration;
    ContainsMiddle(sentence, calories, duration);
    ContainsMiddle(sentence + calories, duration, "");
    assert answer == sentence + calories + duration + "";
  }
}
