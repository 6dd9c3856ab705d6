/**
 * The conversational wrapper: a classifier that decides whether an utterance
 * follows up on the previous query, the template rewriter that merges the two,
 * and the assistant whose one-slot memory and history each turn updates.
 */
module Conversation {
  import opened Wrappers
  import opened Text
  import opened Recipes
  import opened Retrieval
  import opened RagPipeline

  // ---------------------------------------------------------------- classifier

  const ClarificationKeywords: seq<string> := [
    "shorter", "longer", "faster", "slower",
    "healthier", "less healthy", "more calories", "fewer calories",
    "with chicken", "with beef", "with fish", "with vegetables",
    "without", "instead", "different", "another",
    "simpler", "easier", "harder",
    "vegan", "vegetarian", "gluten-free"
  ]

  /** The utterance mentions one of the keywords, ignoring case. */
  predicate MentionsKeyword(query: string) {
    exists i :: 0 <= i < |ClarificationKeywords| && Contains(Lower(query), ClarificationKeywords[i])
  }

  /** What `_is_clarification` decides: a keyword anywhere, or at most three words. */
  predicate Clarifies(query: string) {
    MentionsKeyword(query) || |Words(query)| <= 3
  }

  /**
   * An utterance of four or more words without any keyword is a new query;
   * one of at most three words, the empty one included, is always a
   * follow-up; so is any utterance with a keyword, whatever its length.
   */
  lemma ClarifiesExactly(query: string, i: nat)
    ensures |Words(query)| <= 3 ==> Clarifies(query)
    ensures i < |ClarificationKeywords| && Contains(Lower(query), ClarificationKeywords[i]) ==> Clarifies(query)
    ensures |Words(query)| >= 4 && (forall j :: 0 <= j < |ClarificationKeywords| ==> !Contains(Lower(query), ClarificationKeywords[j]))
      ==> !Clarifies(query)
    ensures Clarifies("")
  {
    assert Words("") == [];
  }

  // ---------------------------------------------------------------- rewriter

  predicate ContainsAny(s: string, words: seq<string>) {
    exists i :: 0 <= i < |words| && Contains(s, words[i])
  }

  /** `_build_clarified_query`: the first matching template, in order of priority. */
  function BuildClarifiedQuery(originalQuery: string, clarification: string): (r: string)
    ensures StartsWith(r, originalQuery)
  {
    var lower := Lower(clarification);
    var r :=
      if Contains(lower, "instead") || Contains(lower, "with") then originalQuery + ", but " + clarification
      else if ContainsAny(lower, ["shorter", "faster", "quicker"]) then originalQuery + " that takes less time"
      else if ContainsAny(lower, ["longer", "slower"]) then originalQuery + " that takes more time"
      else if Contains(lower, "healthier") || Contains(lower, "healthy") then originalQuery + " that is healthier"
      else if Contains(lower, "calorie") then
        if Contains(lower, "fewer") || Contains(lower, "less") || Contains(lower, "low") then originalQuery + " with fewer calories"
        else originalQuery + " with more calories"
      else originalQuery + ", " + clarification;
    assert r[..|originalQuery|] == originalQuery;
    r
  }

  /**
   * A substitution is recognised first: "instead" or "with" anywhere, so
   * "without" too, keeps the clarification in its own casing after ", but ".
   */
  lemma SubstitutionFirst(originalQuery: string, clarification: string)
    requires Contains(Lower(clarification), "instead") || Contains(Lower(clarification), "without") ||
             Contains(Lower(clarification), "with")
    ensures BuildClarifiedQuery(originalQuery, clarification) == originalQuery + ", but " + clarification
  {
    if Contains(Lower(clarification), "without") {
      assert "without" == "with" + "out";
      ContainsPrefixOf(Lower(clarification), "with", "out");
    }
  }

  function NoSubstitution(clarification: string): bool {
    !Contains(Lower(clarification), "instead") && !Contains(Lower(clarification), "with")
  }

  /** Without a substitution, a shorter/faster/quicker request wins over a longer/slower one. */
  lemma TimeBranches(originalQuery: string, clarification: string)
    requires NoSubstitution(clarification)
    ensures var lower := Lower(clarification);
      && (Contains(lower, "shorter") || Contains(lower, "faster") || Contains(lower, "quicker") ==>
            BuildClarifiedQuery(originalQuery, clarification) == originalQuery + " that takes less time")
      && (!ContainsAny(lower, ["shorter", "faster", "quicker"]) && (Contains(lower, "longer") || Contains(lower, "slower")) ==>
            BuildClarifiedQuery(originalQuery, clarification) == originalQuery + " that takes more time")
  {
    var lower := Lower(clarification);
    var quick := ["shorter", "faster", "quicker"];
    var slow := ["longer", "slower"];
    if Contains(lower, "shorter") { assert Contains(lower, quick[0]); }
    if Contains(lower, "faster") { assert Contains(lower, quick[1]); }
    if Contains(lower, "quicker") { assert Contains(lower, quick[2]); }
    if Contains(lower, "longer") { assert Contains(lower, slow[0]); }
    if Contains(lower, "slower") { assert Contains(lower, slow[1]); }
  }

  /** No substitution and no time word. */
  predicate NoEarlierBranch(clarification: string) {
    NoSubstitution(clarification)
    && !ContainsAny(Lower(clarification), ["shorter", "faster", "quicker"])
    && !ContainsAny(Lower(clarification), ["longer", "slower"])
  }

  predicate MentionsHealth(lower: string) {
    Contains(lower, "healthier") || Contains(lower, "healthy")
  }

  /**
   * Anything mentioning "healthier" or "healthy", "less healthy" included,
   * asks for healthier; a calorie request asks for fewer calories when it says
   * fewer, less or low and for more otherwise; anything else is appended
   * after a comma.
   */
  lemma HealthAndCalorieBranches(originalQuery: string, clarification: string)
    requires NoEarlierBranch(clarification)
    ensures var lower, r := Lower(clarification), BuildClarifiedQuery(originalQuery, clarification);
      && (Contains(lower, "less healthy") ==> r == originalQuery + " that is healthier")
      && (MentionsHealth(lower) ==> r == originalQuery + " that is healthier")
      && (!MentionsHealth(lower) && Contains(lower, "calorie") ==>
            (r == originalQuery + " with fewer calories" <==> Contains(lower, "fewer") || Contains(lower, "less") || Contains(lower, "low")))
      && (!MentionsHealth(lower) && Contains(lower, "calorie") ==>
            r == originalQuery + " with fewer calories" || r == originalQuery + " with more calories")
      && (!MentionsHealth(lower) && !Contains(lower, "calorie") ==> r == originalQuery + ", " + clarification)
  {
    var lower := Lower(clarification);
    if Contains(lower, "less healthy") {
      assert OccursAt("less healthy", "healthy", 5);
      ContainsTransitive(lower, "less healthy", "healthy");
    }
    if !MentionsHealth(lower) && Contains(lower, "calorie") {
      assert (originalQuery + " with more calories")[|originalQuery| + 6] == 'm';
      assert (originalQuery + " with fewer calories")[|originalQuery| + 6] == 'f';
    }
  }

  // ---------------------------------------------------------------- turns

  /** The query a turn actually sends: rewritten only after a non-empty previous query. */
  function Resolve(lastQuery: Option<string>, query: string): (actual: string)
    ensures !Truthy(lastQuery) ==> actual == query
    ensures Truthy(lastQuery) && !Clarifies(query) ==> actual == query
    ensures Truthy(lastQuery) && Clarifies(query) ==> StartsWith(actual, lastQuery.value)
  {
    if Truthy(lastQuery) && Clarifies(query) then BuildClarifiedQuery(lastQuery.value, query) else query
  }

  /** The demonstration's follow-ups are already lower-case. */
  lemma DemoTurnLower(turn: string)
    requires turn == "with chicken instead" || turn == "and make it healthier"
    ensures Lower(turn) == turn
  {
    assert NoUpper(turn);
    LowerOfNoUpper(turn);
  }

  lemma DemoSecondTurnClarifies(second: string)
    requires second == "with chicken instead"
    ensures Clarifies(second)
  {
    DemoTurnLower(second);
    assert OccursAt(second, ClarificationKeywords[8], 0);
  }

  lemma DemoSecondTurnRewrite(originalQuery: string, second: string)
    requires second == "with chicken instead"
    ensures BuildClarifiedQuery(originalQuery, second) == originalQuery + ", but " + second
  {
    DemoTurnLower(second);
    assert OccursAt(second, "with", 0);
    SubstitutionFirst(originalQuery, second);
  }

  lemma DemoThirdTurnClarifies(third: string)
    requires third == "and make it healthier"
    ensures Clarifies(third)
  {
    DemoTurnLower(third);
    assert OccursAt(third, ClarificationKeywords[4], 12);
  }

  lemma DemoThirdTurnNoSubstitution(third: string)
    requires third == "and make it healthier"
    ensures NoSubstitution(third)
  {
    DemoTurnLower(third);
    MissingCharNotContained(third, "instead", 2);
    MissingCharNotContained(third, "with", 0);
  }

  lemma DemoThirdTurnNotQuicker(third: string)
    requires third == "and make it healthier"
    ensures !ContainsAny(Lower(third), ["shorter", "faster", "quicker"])
  {
    DemoTurnLower(third);
    var quick := ["shorter", "faster", "quicker"];
    MissingCharNotContained(third, quick[0], 0);
    MissingCharNotContained(third, quick[1], 2);
    MissingCharNotContained(third, quick[2], 0);
  }

  lemma DemoThirdTurnNotSlower(third: string)
    requires third == "and make it healthier"
    ensures !ContainsAny(Lower(third), ["longer", "slower"])
  {
    DemoTurnLower(third);
    var slow := ["longer", "slower"];
    MissingCharNotContained(third, slow[0], 3);
    MissingCharNotContained(third, slow[1], 0);
  }

  lemma DemoThirdTurnRewrite(originalQuery: string, third: string)
    requires third == "and make it healthier"
    ensures BuildClarifiedQuery(originalQuery, third) == originalQuery + " that is healthier"
  {
    DemoThirdTurnNoSubstitution(third);
    DemoThirdTurnNotQuicker(third);
    DemoThirdTurnNotSlower(third);
    DemoTurnLower(third);
    assert OccursAt(third, "healthier", 12);
    HealthAndCalorieBranches(originalQuery, third);
  }

  /**
   * The three turns of the scripted demonstration: the opening query is sent
   * as typed, "with chicken instead" becomes a substitution, and "and make it
   * healthier" asks for a healthier version of the rewritten query.
   */
  lemma DemoConversation(first: string, second: string, third: string)
    requires first == "Show me a pasta recipe"
    requires second == "with chicken instead"
    requires third == "and make it healthier"
    ensures Resolve(None, first) == first
    ensures Resolve(Some(first), second) == first + ", but " + second
    ensures Resolve(Some(first + ", but " + second), third) == first + ", but " + second + " that is healthier"
  {
    DemoSecondTurnClarifies(second);
    DemoSecondTurnRewrite(first, second);
    DemoThirdTurnClarifies(third);
    DemoThirdTurnRewrite(first + ", but " + second, third);
  }

  // ---------------------------------------------------------------- assistant

  /** One entry of `conversation_history`. */
  datatype Turn = Turn(userInput: string, actualQuery: string, answer: string, numRecipes: nat)

  class Assistant {
    const rag: RecipeRAG
    var lastQuery: Option<string>
    var lastResults: Option<seq<Recipe>>
    var history: seq<Turn>

    /** A fresh assistant remembers nothing. */
    constructor (rag: RecipeRAG)
      ensures this.rag == rag
      ensures lastQuery == None && lastResults == None && history == []
    {
      this.rag := rag;
      lastQuery := None;
      lastResults := None;
      history := [];
    }

    /** `_is_clarification`: the keyword scan with its early return, then the length test. */
    method IsClarification(query: string) returns (b: bool)
      ensures b == Clarifies(query)
    {
      var queryLower := Lower(query);
      for i := 0 to |ClarificationKeywords|
        invariant forall j :: 0 <= j < i ==> !Contains(queryLower, ClarificationKeywords[j])
      {
        if Contains(queryLower, ClarificationKeywords[i]) {
          return true;
        }
      }
      if |Words(query)| <= 3 {
        return true;
      }
      return false;
    }

    /**
     * `ask`: resolve the query against the previous one, answer it through
     * the verbose pipeline, remember it and what was retrieved, and log the
     * turn. When the pipeline raises, nothing is remembered or logged.
     */
    method Ask(query: string, k: int := 5, fmt: Formats, llm: Prompt -> string) returns (result: Result<QueryResult, AnswerError>)
      modifies this
      ensures var sent := Resolve(old(lastQuery), query);
        result.Failure? <==> !AllTitled(rag.retriever.Ranked(sent, k))
      ensures result.Failure? ==> lastQuery == old(lastQuery) && lastResults == old(lastResults) && history == old(history)
      ensures result.Success? ==> var r := result.value;
        && r.query == Resolve(old(lastQuery), query)
        && r.retrievedRecipes == rag.retriever.Ranked(r.query, k)
        && r.numRecipesRetrieved == |r.retrievedRecipes|
        && r.answer == llm(CreatePrompt(r.query, r.retrievedRecipes, fmt))
        && lastQuery == Some(r.query) && lastResults == Some(r.retrievedRecipes)
        && history == old(history) + [Turn(query, r.query, r.answer, |r.retrievedRecipes|)]
    {
      var actualQuery := query;
      if Truthy(lastQuery) {
        var clarifies := IsClarification(query);
        if clarifies {
          actualQuery := BuildClarifiedQuery(lastQuery.value, query);
        }
      }
      result := rag.AnswerQuery(actualQuery, k, true, fmt, llm);
      if result.Failure? {
        return;
      }
      lastQuery := Some(actualQuery);
      lastResults := Some(result.value.retrievedRecipes);
      history := history + [Turn(query, actualQuery, result.value.answer, |result.value.retrievedRecipes|)];
    }

    /** A turn of a scripted run: `ask` with its result discarded, telling only whether it raised. */
    method AskTurn(query: string, k: int, fmt: Formats, llm: Prompt -> string) returns (ok: bool)
      modifies this
      ensures var sent := Resolve(old(lastQuery), query);
        && (ok <==> AllTitled(rag.retriever.Ranked(sent, k)))
        && (!ok ==> lastQuery == old(lastQuery) && lastResults == old(lastResults) && history == old(history))
        && (ok ==>
              && lastQuery == Some(sent) && |history| == |old(history)| + 1 && history[..|old(history)|] == old(history)
              && history[|old(history)|].userInput == query && history[|old(history)|].actualQuery == sent)
    {
      var result := Ask(query, k, fmt, llm);
      ok := result.Success?;
    }

    /** `reset`: forget the previous query and results, keep the history. */
    method Reset()
      modifies this
      ensures lastQuery == None && lastResults == None && history == old(history)
    {
      lastQuery := None;
      lastResults := None;
    }
  }

  /**
   * The `for query in examples` loop of the demonstration: a fresh assistant
   * asks each query in turn and the run stops at the first turn the pipeline
   * raises on. `sent` names what each turn is expected to send.
   */
  method AskEach(rag: RecipeRAG, examples: seq<string>, k: int, fmt: Formats, llm: Prompt -> string, ghost sent: seq<string>)
    returns (assistant: Assistant)
    requires |sent| == |examples|
    requires examples != [] ==> Resolve(None, examples[0]) == sent[0]
    requires forall j :: 0 < j < |examples| ==> Resolve(Some(sent[j - 1]), examples[j]) == sent[j]
    ensures assistant.rag == rag
    ensures |assistant.history| <= |examples|
    ensures AllTitled(rag.retriever.recipes) ==> |assistant.history| == |examples|
    ensures forall j :: 0 <= j < |assistant.history| ==>
      assistant.history[j].userInput == examples[j] && assistant.history[j].actualQuery == sent[j]
  {
    assistant := new Assistant(rag);
    for i := 0 to |examples|
      invariant |assistant.history| == i
      invariant assistant.lastQuery == if i == 0 then None else Some(sent[i - 1])
      invariant forall j :: 0 <= j < i ==>
        assistant.history[j].userInput == examples[j] && assistant.history[j].actualQuery == sent[j]
    {
      assert Resolve(assistant.lastQuery, examples[i]) == sent[i];
      rag.retriever.RankedKeepsTitles(sent[i], k);
      var ok := assistant.AskTurn(examples[i], k, fmt, llm);
      if !ok {
        return;
      }
    }
  }

  /**
   * The demonstration run: the history records the queries as typed and as
   * sent, in order. The run stops at the first turn the pipeline raises on,
   * which cannot happen when every stored recipe has a title.
   */
  method Demo(rag: RecipeRAG, fmt: Formats, llm: Prompt -> string) returns (assistant: Assistant)
    ensures |assistant.history| <= 3
    ensures AllTitled(rag.retriever.recipes) ==> |assistant.history| == 3
    ensures |assistant.history| >= 1 ==>
      assistant.history[0].userInput == "Show me a pasta recipe" && assistant.history[0].actualQuery == "Show me a pasta recipe"
    ensures |assistant.history| >= 2 ==>
      assistant.history[1].actualQuery == "Show me a pasta recipe" + ", but " + "with chicken instead"
    ensures |assistant.history| >= 3 ==>
      assistant.history[2].actualQuery == "Show me a pasta recipe" + ", but " + "with chicken instead" + " that is healthier"
  {
    var first, second, third := "Show me a pasta recipe", "with chicken instead", "and make it healthier";
    DemoConversation(first, second, third);
    ghost var sent := [first, first + ", but " + second, first + ", but " + second + " that is healthier"];
    assistant := AskEach(rag, [first, second, third], 3, fmt, llm, sent);
  }
}
