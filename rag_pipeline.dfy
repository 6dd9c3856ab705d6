/**
 * The retrieval-augmented answering pipeline: provider and model selection,
 * the context block built from the retrieved recipes, the prompt, and the
 * record `answer_query` returns. The language model itself is a parameter.
 */
module RagPipeline {
  import opened Wrappers
  import opened Text
  import opened Recipes
  import opened Retrieval

  // ---------------------------------------------------------------- configuration

  datatype Settings = Settings(provider: string, model: string, apiKey: string)

  /** The `ValueError`s raised while setting up the client. */
  datatype ConfigError = MissingApiKey(variable: string) | UnknownProvider(provider: string)

  const AnthropicModel: string := "claude-3-haiku-20240307"
  const OpenAiModel: string := "gpt-3.5-turbo"

  predicate KnownProvider(provider: string) {
    provider == "anthropic" || provider == "openai"
  }

  /** The environment variable `_get_api_key` reads for a provider. */
  function KeyVariable(provider: string): string {
    if provider == "anthropic" then "ANTHROPIC_API_KEY" else "OPENAI_API_KEY"
  }

  /** `os.environ.get(variable)`, failing when unset or empty. */
  function EnvironmentKey(variable: string, env: map<string, string>): Result<string, ConfigError> {
    if variable in env && env[variable] != "" then Success(env[variable]) else Failure(MissingApiKey(variable))
  }

  /** `api_key or self._get_api_key()` */
  function ApiKeyFor(provider: string, apiKey: Option<string>, env: map<string, string>): Result<string, ConfigError> {
    if Truthy(apiKey) then Success(apiKey.value)
    else if KnownProvider(provider) then EnvironmentKey(KeyVariable(provider), env)
    else Failure(UnknownProvider(provider))
  }

  /**
   * The configuration part of `RecipeRAG.__init__`: the provider is
   * lower-cased, the key taken from the argument or the environment, the model
   * defaulted by provider, and the client set up only for a known provider.
   */
  function Configure(llmProvider: string, modelName: Option<string>, apiKey: Option<string>, env: map<string, string>)
    : (r: Result<Settings, ConfigError>)
    ensures r.Success? ==> KnownProvider(r.value.provider) && r.value.apiKey != ""
    ensures r.Failure? && r.error.MissingApiKey? ==> r.error.variable == KeyVariable(Lower(llmProvider))
  {
    var provider := Lower(llmProvider);
    match ApiKeyFor(provider, apiKey, env)
    case Failure(e) => Failure(e)
    case Success(key) =>
      var model := if modelName.None? then (if provider == "anthropic" then AnthropicModel else OpenAiModel) else modelName.value;
      if !KnownProvider(provider) then Failure(UnknownProvider(provider))
      else Success(Settings(provider, model, key))
  }

  /**
   * Set-up succeeds exactly for a known provider with a key, given or found in
   * its environment variable; any other provider is rejected as unknown.
   */
  lemma ConfigureSucceeds(llmProvider: string, modelName: Option<string>, apiKey: Option<string>, env: map<string, string>)
    ensures var provider := Lower(llmProvider);
      && (Configure(llmProvider, modelName, apiKey, env).Success? <==>
            KnownProvider(provider) && (Truthy(apiKey) || EnvironmentKey(KeyVariable(provider), env).Success?))
      && (!KnownProvider(provider) ==> Configure(llmProvider, modelName, apiKey, env) == Failure(UnknownProvider(provider)))
  {
  }

  /**
   * A configured pipeline uses the lower-cased provider, the model asked for,
   * or else "claude-3-haiku-20240307" for anthropic and "gpt-3.5-turbo" for
   * openai, and the given key when it is non-empty.
   */
  lemma ConfigureChoosesModel(llmProvider: string, modelName: Option<string>, apiKey: Option<string>, env: map<string, string>)
    requires Configure(llmProvider, modelName, apiKey, env).Success?
    ensures var s := Configure(llmProvider, modelName, apiKey, env).value;
      && s.provider == Lower(llmProvider)
      && (modelName.Some? ==> s.model == modelName.value)
      && (modelName.None? ==> (s.model == AnthropicModel <==> s.provider == "anthropic"))
      && (modelName.None? ==> (s.model == OpenAiModel <==> s.provider == "openai"))
      && (Truthy(apiKey) ==> s.apiKey == apiKey.value)
  {
  }

  // ---------------------------------------------------------------- context

  const IngredientLimit: nat := 300

  /** Ingredient text over 300 characters is cut to its first 300 and marked with "...". */
  function TruncateIngredients(ingredients: string): (r: string)
    ensures |r| <= IngredientLimit + 3
    ensures |ingredients| <= IngredientLimit ==> r == ingredients
    ensures |ingredients| > IngredientLimit ==> |r| == IngredientLimit + 3 && StartsWith(ingredients, r[..IngredientLimit]) && r[IngredientLimit..] == "..."
  {
    if |ingredients| > IngredientLimit then ingredients[..IngredientLimit] + "..." else ingredients
  }

  function Header(number: nat, recipe: Recipe): string {
    "Recipe " + NatToString(number) + ": " + recipe.title.GetOr("N/A")
  }

  function TagsLine(recipe: Recipe): seq<string> {
    if Truthy(recipe.tags) then ["  Tags: " + recipe.tags.value] else []
  }

  function IngredientsLine(recipe: Recipe): seq<string> {
    if Truthy(recipe.ingredients) then ["  Ingredients: " + TruncateIngredients(recipe.ingredients.value)] else []
  }

  function DurationLine(recipe: Recipe, fmt: Formats): seq<string> {
    if TruthyNumber(recipe.duration) then ["  Duration: " + fmt.plain(recipe.duration.value) + " minutes"] else []
  }

  function CaloriesLine(recipe: Recipe, fmt: Formats): seq<string> {
    if TruthyNumber(recipe.calories) then ["  Calories: " + fmt.fixed1(recipe.calories.value) + " cal"] else []
  }

  function HealthLine(recipe: Recipe): seq<string> {
    if Truthy(recipe.healthCategory) then ["  Health: " + recipe.healthCategory.value] else []
  }

  /** The optional lines of a block, in their fixed order: Tags, Ingredients, Duration, Calories, Health. */
  function BlockDetails(recipe: Recipe, fmt: Formats): seq<string> {
    TagsLine(recipe) + IngredientsLine(recipe) + DurationLine(recipe, fmt) + CaloriesLine(recipe, fmt) + HealthLine(recipe)
  }

  /** The block of the `number`-th retrieved recipe: its header line and its detail lines. */
  function Block(number: nat, recipe: Recipe, fmt: Formats): string {
    Join("\n", [Header(number, recipe)] + BlockDetails(recipe, fmt))
  }

  /** The blocks of the retrieved recipes, numbered from 1 in retrieval order. */
  function Blocks(recipes: seq<Recipe>, fmt: Formats): seq<string> {
    seq(|recipes|, j requires 0 <= j < |recipes| => Block(j + 1, recipes[j], fmt))
  }

  /** The context handed to the model: the blocks separated by blank lines. */
  function PromptContext(recipes: seq<Recipe>, fmt: Formats): (context: string)
    ensures recipes == [] <==> context == ""
  {
    var blocks := Blocks(recipes, fmt);
    if blocks != [] then
      JoinStartsWith("\n\n", blocks);
      JoinStartsWith("\n", [Header(1, recipes[0])] + BlockDetails(recipes[0], fmt));
      Join("\n\n", blocks)
    else Join("\n\n", blocks)
  }

  lemma DetailsAssociate(header: string, recipe: Recipe, fmt: Formats)
    ensures [header] + TagsLine(recipe) + IngredientsLine(recipe) + DurationLine(recipe, fmt) + CaloriesLine(recipe, fmt)
      + HealthLine(recipe) == [header] + BlockDetails(recipe, fmt)
  {
  }

  lemma BlocksSnoc(recipes: seq<Recipe>, recipe: Recipe, fmt: Formats)
    ensures Blocks(recipes + [recipe], fmt) == Blocks(recipes, fmt) + [Block(|recipes| + 1, recipe, fmt)]
  {
  }

  /** `_format_recipes_for_prompt` */
  method FormatRecipesForPrompt(recipes: seq<Recipe>, fmt: Formats) returns (context: string)
    ensures context == PromptContext(recipes, fmt)
  {
    var contextParts: seq<string> := [];
    for i := 0 to |recipes|
      invariant contextParts == Blocks(recipes[..i], fmt)
    {
      var recipe := recipes[i];
      var parts := ["Recipe " + NatToString(i + 1) + ": " + recipe.title.GetOr("N/A")];
      if Truthy(recipe.tags) {
        parts := parts + ["  Tags: " + recipe.tags.value];
      }
      assert parts == [Header(i + 1, recipe)] + TagsLine(recipe);
      if Truthy(recipe.ingredients) {
        var ingredients := recipe.ingredients.value;
        if |ingredients| > 300 {
          ingredients := ingredients[..300] + "...";
        }
        parts := parts + ["  Ingredients: " + ingredients];
      }
      assert parts == [Header(i + 1, recipe)] + TagsLine(recipe) + IngredientsLine(recipe);
      if TruthyNumber(recipe.duration) {
        parts := parts + ["  Duration: " + fmt.plain(recipe.duration.value) + " minutes"];
      }
      assert parts == [Header(i + 1, recipe)] + TagsLine(recipe) + IngredientsLine(recipe) + DurationLine(recipe, fmt);
      if TruthyNumber(recipe.calories) {
        parts := parts + ["  Calories: " + fmt.fixed1(recipe.calories.value) + " cal"];
      }
      assert parts == [Header(i + 1, recipe)] + TagsLine(recipe) + IngredientsLine(recipe) + DurationLine(recipe, fmt)
        + CaloriesLine(recipe, fmt);
      if Truthy(recipe.healthCategory) {
        parts := parts + ["  Health: " + recipe.healthCategory.value];
      }
      assert parts == [Header(i + 1, recipe)] + TagsLine(recipe) + IngredientsLine(recipe) + DurationLine(recipe, fmt)
        + CaloriesLine(recipe, fmt) + HealthLine(recipe);
      DetailsAssociate(Header(i + 1, recipe), recipe, fmt);
      BlocksSnoc(recipes[..i], recipe, fmt);
      assert recipes[..i + 1] == recipes[..i] + [recipe];
      contextParts := contextParts + [Join("\n", parts)];
    }
    assert recipes[..|recipes|] == recipes;
    context := Join("\n\n", contextParts);
  }

  /**
   * The context grows one block per recipe, in order: no recipes give "", and
   * one more recipe adds a blank line and its block, numbered after the rest.
   */
  lemma PromptContextGrows(recipes: seq<Recipe>, recipe: Recipe, fmt: Formats)
    ensures PromptContext([], fmt) == ""
    ensures PromptContext(recipes + [recipe], fmt) ==
      if recipes == [] then Block(1, recipe, fmt)
      else PromptContext(recipes, fmt) + "\n\n" + Block(|recipes| + 1, recipe, fmt)
  {
    BlocksSnoc(recipes, recipe, fmt);
    JoinSnoc("\n\n", Blocks(recipes, fmt), Block(|recipes| + 1, recipe, fmt));
  }

  /** Block `j` opens with "Recipe j+1: " and the title, "N/A" without one, and the number reads back as j+1. */
  lemma BlockNumbered(recipes: seq<Recipe>, fmt: Formats, j: nat)
    requires j < |recipes|
    ensures StartsWith(Blocks(recipes, fmt)[j], "Recipe " + NatToString(j + 1) + ": " + recipes[j].title.GetOr("N/A"))
    ensures ParseDigits(NatToString(j + 1)) == j + 1
  {
    JoinStartsWith("\n", [Header(j + 1, recipes[j])] + BlockDetails(recipes[j], fmt));
    ParseNatToString(j + 1);
  }

  /** A block has an ingredients line exactly when the ingredients are non-empty, and that line never runs past 303 characters of ingredients. */
  lemma BlockIngredients(recipe: Recipe, fmt: Formats)
    ensures var details := BlockDetails(recipe, fmt);
      Truthy(recipe.ingredients) <==> exists m :: 0 <= m < |details| && StartsWith(details[m], "  Ingredients: ")
    ensures forall line :: line in BlockDetails(recipe, fmt) && StartsWith(line, "  Ingredients: ") ==>
      |line| <= |"  Ingredients: "| + IngredientLimit + 3
  {
    var details := BlockDetails(recipe, fmt);
    forall m | 0 <= m < |details| && StartsWith(details[m], "  Ingredients: ") ensures Truthy(recipe.ingredients) && details[m] == "  Ingredients: " + TruncateIngredients(recipe.ingredients.value) {
      assert details[m][2] == 'I';
    }
    if Truthy(recipe.ingredients) {
      var m := if Truthy(recipe.tags) then 1 else 0;
      assert StartsWith(details[m], "  Ingredients: ");
    }
  }

  // ---------------------------------------------------------------- prompt

  const SystemPrompt: string :=
    "You are a helpful recipe assistant. Answer user questions about recipes using ONLY the information provided in the CONTEXT below.\n"
    + "\n"
    + "Guidelines:\n"
    + "- Provide concise, natural answers (1-3 sentences)\n"
    + "- Mention specific recipe titles when relevant\n"
    + "- If the context doesn't contain relevant recipes, say so\n"
    + "- Focus on answering the specific question asked\n"
    + "- Use friendly, conversational tone"

  const ContextHeading: string := "CONTEXT (Retrieved Recipes):\n"
  const QuestionHeading: string := "\n\nUSER QUESTION: "
  const Closing: string := "\n\nPlease answer the question based on the recipes provided above."

  datatype Prompt = Prompt(system: string, user: string)

  /** `_create_prompt`: the fixed system prompt, and a user message holding the context, then the question. */
  function CreatePrompt(userQuery: string, recipes: seq<Recipe>, fmt: Formats): (p: Prompt)
    ensures p.system == SystemPrompt
  {
    Prompt(SystemPrompt, ContextHeading + PromptContext(recipes, fmt) + QuestionHeading + userQuery + Closing)
  }

  /** Reads the question back out of a user message built around a known context. */
  function QuestionOf(user: string, context: string): string
    requires |ContextHeading| + |context| + |QuestionHeading| + |Closing| <= |user|
  {
    user[|ContextHeading| + |context| + |QuestionHeading| .. |user| - |Closing|]
  }

  /**
   * The user message is the heading, the formatted context, the question
   * heading, the query verbatim and the closing line; the query can be read
   * back from it, so different queries give different messages.
   */
  lemma PromptCarriesQuery(userQuery: string, recipes: seq<Recipe>, fmt: Formats)
    ensures var user, context := CreatePrompt(userQuery, recipes, fmt).user, PromptContext(recipes, fmt);
      && StartsWith(user, ContextHeading + context + QuestionHeading)
      && |ContextHeading| + |context| + |QuestionHeading| + |Closing| <= |user|
      && QuestionOf(user, context) == userQuery
      && user == ContextHeading + context + QuestionHeading + userQuery + Closing
      && user[|user| - |Closing|..] == Closing
  {
    var context := PromptContext(recipes, fmt);
    var user := CreatePrompt(userQuery, recipes, fmt).user;
    var head := ContextHeading + context + QuestionHeading;
    assert user == head + userQuery + Closing;
    assert user[..|head|] == head;
    assert user[|head|..|user| - |Closing|] == userQuery;
    assert user[|user| - |Closing|..] == Closing;
  }

  lemma PromptInjective(q1: string, q2: string, recipes: seq<Recipe>, fmt: Formats)
    requires CreatePrompt(q1, recipes, fmt) == CreatePrompt(q2, recipes, fmt)
    ensures q1 == q2
  {
    PromptCarriesQuery(q1, recipes, fmt);
    PromptCarriesQuery(q2, recipes, fmt);
  }

  // ---------------------------------------------------------------- answer_query

  /** The `KeyError` the verbose listing raises at the first retrieved recipe without a title. */
  datatype AnswerError = MissingTitle(position: nat)

  /** The dictionary `answer_query` returns. */
  datatype QueryResult = QueryResult(
    query: string,
    answer: string,
    retrievedRecipes: seq<Recipe>,
    numRecipesRetrieved: nat,
    llmProvider: string,
    model: string)

  class RecipeRAG {
    const retriever: RecipeRetriever
    const llmProvider: string
    const modelName: string
    const apiKey: string

    /**
     * `__init__` with a loaded retriever. The set-up is `Configure`; when it
     * fails, `__init__` raises and no pipeline exists, so it must succeed.
     */
    constructor (retriever: RecipeRetriever, llmProvider: string, modelName: Option<string>, apiKey: Option<string>,
                 env: map<string, string>)
      requires Configure(llmProvider, modelName, apiKey, env).Success?
      ensures this.retriever == retriever
      ensures var settings := Configure(llmProvider, modelName, apiKey, env).value;
        this.llmProvider == settings.provider && this.modelName == settings.model && this.apiKey == settings.apiKey
      ensures KnownProvider(this.llmProvider) && this.apiKey != ""
    {
      var settings := Configure(llmProvider, modelName, apiKey, env).value;
      this.retriever := retriever;
      this.llmProvider := settings.provider;
      this.modelName := settings.model;
      this.apiKey := settings.apiKey;
    }

    /**
     * `answer_query`: retrieve with the given `k`, build the prompt from the
     * query and what was retrieved, and report the model's reply (`llm` stands
     * for the configured client) together with the query and the recipes.
     * With `verbose` the retrieved titles are listed first, and a recipe
     * without a `title` key raises `KeyError` there, before the model is asked.
     */
    method AnswerQuery(userQuery: string, k: int := 5, verbose: bool := true, fmt: Formats, llm: Prompt -> string)
      returns (result: Result<QueryResult, AnswerError>)
      ensures result.Failure? <==> verbose && !AllTitled(retriever.Ranked(userQuery, k))
      ensures result.Failure? ==> var retrieved, p := retriever.Ranked(userQuery, k), result.error.position;
        && p < |retrieved| && retrieved[p].title.None?
        && forall j :: 0 <= j < p ==> retrieved[j].title.Some?
      ensures result.Success? ==> var r := result.value;
        && r.query == userQuery
        && r.retrievedRecipes == retriever.Ranked(userQuery, k)
        && r.numRecipesRetrieved == |r.retrievedRecipes|
        && r.answer == llm(CreatePrompt(userQuery, r.retrievedRecipes, fmt))
        && r.llmProvider == llmProvider && r.model == modelName
    {
      var retrievedRecipes := retriever.RetrieveRecipes(userQuery, k);
      if verbose {
        for i := 0 to |retrievedRecipes|
          invariant forall j :: 0 <= j < i ==> retrievedRecipes[j].title.Some?
        {
          if retrievedRecipes[i].title.None? {
            return Failure(MissingTitle(i));
          }
        }
      }
      var context := FormatRecipesForPrompt(retrievedRecipes, fmt);
      var prompt := Prompt(SystemPrompt, ContextHeading + context + QuestionHeading + userQuery + Closing);
      var answer := llm(prompt);
      result := Success(QueryResult(userQuery, answer, retrievedRecipes, |retrievedRecipes|, llmProvider, modelName));
    }
  }
}
