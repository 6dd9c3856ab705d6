# Recipe question-answering assistant, modelled in Dafny

This project models the deterministic core of a small recipe question-answering system. The system:

- ranks a recipe catalog by TF-IDF similarity to a query;
- builds a prompt for a language model from the top recipes;
- produces a templated baseline answer without a model;
- scores retrieval with Recall@k and NDCG@k;
- prepares the catalog from a CSV table;
- wraps all of this in a conversational assistant that rewrites follow-up utterances ("with chicken instead", "make it healthier") into full queries.

Dafny proves properties of each part.

Modules follow the source files:

| module | file | models |
|---|---|---|
| `Wrappers` | `wrappers.dfy` | `Option` and `Result` |
| `Text` | `text.dfy` | The Python string operations the code relies on: `lower()` (ASCII), `strip()`, `split()`, `split(sep)`, `sep.join`, `sub in s`, `str(int)` |
| `Slices` | `slices.dfy` | Python slicing `s[start:]`, `s[:stop]`, `s[::-1]`, including negative and out-of-range bounds |
| `Recipes` | `recipes.dfy` | The recipe record. A field is `None` when its key is absent. Python truthiness of text and numbers. The float formatters and `str.title()` as a `Formats` value |
| `Ranking` | `ranking.dfy` | `np.argsort(similarities)[-k:][::-1]` over a given score vector |
| `Retrieval` | `retrieval.dfy` | `RecipeRetriever.retrieve_recipes` and `format_recipe_for_display` |
| `Evaluation` | `evaluation.dfy` | `calculate_recall_at_k`, `identify_relevant_recipes`, `calculate_ndcg_at_k` |
| `RagPipeline` | `rag_pipeline.dfy` | Provider/model set-up, `_format_recipes_for_prompt`, `_create_prompt`, `RecipeRAG.answer_query` |
| `Baseline` | `baseline.dfy` | `generate_baseline_answer` |
| `PrepareData` | `prepare_data.dfy` | Sampling, column selection, text and number cleaning, the calorie category, row dropping, `create_recipe_text` |
| `Conversation` | `conversation.dfy` | `_is_clarification`, `_build_clarified_query`, and the `ConversationalRecipeAssistant` state (`ask`, `reset`) |

Things the code does not determine become parameters:

- the cosine similarity of a query to each stored recipe (`similarity`);
- the language model's reply to a prompt (`llm`);
- the number formatting and title casing (`Formats`);
- the NDCG discount `1/log2(i+1)` (`gain`);
- the environment variables (`env`);
- the shuffle `df.sample` draws (`order`);
- number printing and parsing in pandas (`show`, `parse`).

The model follows the code:

- `retrieve_recipes` raises no error for `k <= 0`: `k = 0` returns the whole catalog, ranked, and a negative `k` drops that many of the lowest-scoring recipes. It raises none for an empty catalog or duplicate ids either. Building the index over an empty catalog does fail, but that is outside the model.
- `ArgSort` fixes one order among equal scores, that of an insertion sort. numpy's sort may order ties differently, so no contract relies on that order.
- When none of the known column names is present, `preprocess_recipes` returns no rows: its new frame starts as an empty `DataFrame()` and gets its rows only from the first column copied in.
- Merging a follow-up into the previous query uses templates only. There is no token de-duplication.
- `answer_query` lists the retrieved titles when `verbose` is set, which `ask` always sets. A retrieved recipe without a `title` key raises `KeyError` there, so `ask` then does not record the turn.

The source's defaults are Dafny default parameter values: `k := 5` for retrieval, answering and `ask`, `k := 3` for Recall and NDCG, `threshold := 0.15` and `sample_size := 5000`.

## Model

| member | source | states |
|---|---|---|
| Slices.Bound | src/retrieval.py:83 | A slice bound stands for a position in `0..n`: non-negative bounds are clipped to `n`, negative ones count from the end and are clipped to 0 |
| Ranking.ArgSort | src/retrieval.py:83 | `argsort` lists every position exactly once, in non-decreasing score order; the order among ties is not fixed |
| Ranking.TopK | src/retrieval.py:83 | Defines the selection `argsort[-k:][::-1]`; every selected position is in range. `TopKSelects` and `TopKZeroKeepsAll` describe it |
| Ranking.TopKCount | src/retrieval.py:83 | Defines how many positions `[-k:]` keeps; never more than n, and never more than k for positive k |
| Ranking.TopKSelects | src/retrieval.py:83 | The selection keeps min(k, n) positions for k > 0, all n for k = 0 and max(0, n + k) for k < 0; no position twice; scores non-increasing; no position left out scores above a kept one |
| Ranking.TopKZeroKeepsAll | src/retrieval.py:83 | With k = 0 the selection is an arrangement of all n positions |
| Retrieval.Scored | src/retrieval.py:88-89 | The copy carries the given relevance score and agrees with the stored recipe on every other field |
| Retrieval.RecipeRetriever.constructor | src/retrieval.py:16-32 | Holds the loaded catalog and the similarity that stands for the fitted index |
| Retrieval.RecipeRetriever.Similarities | src/retrieval.py:77-80 | One similarity per stored recipe |
| Retrieval.RecipeRetriever.Ranked | src/retrieval.py:83-90 | Defines the list `retrieve_recipes` returns: one record per selected position, the stored recipe with that position's score. `RankedSelects` describes it |
| Retrieval.RecipeRetriever.RetrieveRecipes | src/retrieval.py:65-92 | The copy-and-score loop returns exactly the ranked records; the stored recipes are not modified |
| Retrieval.RecipeRetriever.RankedSelects | src/retrieval.py:83-90 | The count from `TopKCount`; each result is the stored recipe at a distinct position with that position's score; scores non-increasing; no unreturned recipe scores above a returned one |
| Retrieval.RecipeRetriever.RankedZeroIsWholeCatalog | src/retrieval.py:83 | k = 0 is not rejected: there are as many results as stored recipes, and every stored recipe, with its score, is among them |
| Retrieval.RecipeRetriever.RankedIgnoresCase | src/retrieval.py:77 | Retrieving for `lower(q)` gives the same result as retrieving for `q` |
| Retrieval.RecipeRetriever.RankedKeepsTitles | src/retrieval.py:88-89 | The scored copies keep their titles, so when every stored recipe has a title, so does every result |
| Retrieval.RecipeRetriever.FormatRecipeForDisplay | src/retrieval.py:94-114 | The appending method produces the display lines joined by "\n" |
| Retrieval.DisplayShape | src/retrieval.py:96-112 | The Title line comes first ("N/A" by default); there is one line per truthy Tags/Duration/Calories/Health field; the Relevance line comes last exactly when a score is present, even a zero score |
| Retrieval.DisplaySplits | src/retrieval.py:114 | Splitting the display on "\n" gives back the lines when no field contains a line break |
| Evaluation.RecallAtK | src/evaluate_retrieval.py:45-68 | Recall lies in [0, 1] |
| Evaluation.RecallZero | src/evaluate_retrieval.py:57-67 | Recall is 0 exactly when nothing relevant is retrieved within the cut-off; this includes an empty relevant set |
| Evaluation.RecallOne | src/evaluate_retrieval.py:61-67 | Recall is 1 exactly when the relevant set is non-empty and all of it is retrieved within the cut-off |
| Evaluation.RecallMonotone | src/evaluate_retrieval.py:61-64 | Recall never decreases as k grows, for cut-offs of the same sign |
| Evaluation.RecallIgnoresTail | src/evaluate_retrieval.py:61 | Items after position k do not change recall |
| Evaluation.RecallIgnoresRepeats | src/evaluate_retrieval.py:61 | A repeated item within the cut-off counts once |
| Evaluation.IdentifyRelevantRecipes | src/evaluate_retrieval.py:70-106 | The result is the set of ids of recipes that match a keyword and reach the threshold; ids come only from the input; the call fails exactly when such a recipe has no id; no keywords gives the empty set |
| Evaluation.Keywords | src/evaluate_retrieval.py:88-93 | Defines the keyword set; every keyword is a word of the lower-cased query and not a stop word |
| Evaluation.StopWordQueryHasNoKeywords | src/evaluate_retrieval.py:88-93 | A query of stop words only, or an empty query, has no keywords |
| Evaluation.Ndcg | src/evaluate_retrieval.py:22-43 | Defines NDCG@k as DCG over `retrieved[:k]` divided by the ideal DCG, and 0 when the ideal DCG is 0. The lemmas below describe it |
| Evaluation.NdcgAtK | src/evaluate_retrieval.py:10-43 | The two DCG loops compute `Ndcg`; the score is 0 for an empty relevant set or k <= 0 |
| Evaluation.NdcgInUnitRange | src/evaluate_retrieval.py:20-43 | With a positive, non-increasing discount and no repeated retrieved id, the score lies in [0, 1] |
| Evaluation.NdcgRepeatsExceedOne | src/evaluate_retrieval.py:25-31 | A relevant id retrieved twice is counted twice: with discounts 1 and 0.5, relevant {7} and retrieved [7, 7] the score at k = 2 is 1.5 |
| Evaluation.DcgAtMostIdeal | src/evaluate_retrieval.py:25-37 | With a positive, non-increasing discount, the DCG is non-negative and at most the ideal DCG of as many hits |
| Evaluation.HitsCountRelevant | src/evaluate_retrieval.py:27-28 | Without repeats, the number of relevant entries is the number of relevant ids retrieved |
| Evaluation.FirstHitsCountRelevant | src/evaluate_retrieval.py:27-28 | Counting each relevant id at its first occurrence gives the number of different relevant ids retrieved, repeats or not |
| Evaluation.FirstHitDcgAtMostIdeal | src/evaluate_retrieval.py:25-37 | The first-occurrence DCG is non-negative and at most the ideal DCG of its hit count, under a positive non-increasing discount |
| Evaluation.NdcgFirstHitsInUnitRange | src/evaluate_retrieval.py:20-43 | The corrected score, which credits a relevant id only at its first position, lies in [0, 1] for every ranking and every k, under a positive non-increasing discount |
| Evaluation.NdcgFirstHitsAgrees | src/evaluate_retrieval.py:20-43 | On rankings without repeats the corrected score equals the score as written |
| Evaluation.NdcgFirstHitsRepeats | src/evaluate_retrieval.py:25-31 | On relevant {7}, retrieved [7, 7], k = 2 with discounts 1 and 0.5, the corrected score is 1 |
| Evaluation.IdealDcgZero | src/evaluate_retrieval.py:35-40 | With positive discounts, the guard fires exactly when min(relevant, k) <= 0 |
| Evaluation.IdealDcgNonNegative | src/evaluate_retrieval.py:36 | The ideal DCG is non-negative |
| RagPipeline.Configure | src/rag_pipeline.py:34-83 | Defines the set-up of `__init__`; a successful one has a known provider and a non-empty key, and a missing key names the provider's environment variable |
| RagPipeline.ConfigureSucceeds | src/rag_pipeline.py:34-83 | Set-up succeeds exactly for "anthropic"/"openai" (after lower-casing) with a key, given or taken from the provider's variable; any other provider raises the unknown-provider error |
| RagPipeline.ConfigureChoosesModel | src/rag_pipeline.py:34-44 | The provider is lower-cased; an explicit model is kept; otherwise the model is "claude-3-haiku-20240307" exactly for anthropic and "gpt-3.5-turbo" exactly for openai; a given key is used |
| RagPipeline.TruncateIngredients | src/rag_pipeline.py:97-99 | Ingredients longer than 300 characters become their first 300 characters plus "..." (length 303); shorter ones are unchanged |
| RagPipeline.FormatRecipesForPrompt | src/rag_pipeline.py:85-113 | The nested appending loop produces the blocks, numbered from 1, joined by "\n\n" |
| RagPipeline.PromptContext | src/rag_pipeline.py:85-113 | Defines the context as the numbered blocks joined by "\n\n"; it is empty exactly when there are no recipes |
| RagPipeline.PromptContextGrows | src/rag_pipeline.py:111-113 | No recipes give ""; one more recipe appends a blank line and its block, numbered after the others |
| RagPipeline.BlockNumbered | src/rag_pipeline.py:89-90 | Block j opens with "Recipe j+1: " and the title, or "N/A"; the number reads back as j+1 |
| RagPipeline.BlockIngredients | src/rag_pipeline.py:95-100 | A block has an Ingredients line exactly when the ingredients are non-empty, and that line is bounded by the 303-character limit |
| RagPipeline.CreatePrompt | src/rag_pipeline.py:115-138 | The system prompt is the fixed instruction text |
| RagPipeline.PromptCarriesQuery | src/rag_pipeline.py:131-136 | The user message is exactly the context heading, the formatted context, "USER QUESTION: ", the query verbatim and the closing line, which ends it; the query reads back out of it |
| RagPipeline.PromptInjective | src/rag_pipeline.py:131-136 | Different queries over the same recipes give different prompts |
| RagPipeline.RecipeRAG.constructor | src/rag_pipeline.py:13-47 | `__init__` exists only when `Configure` succeeds on its arguments; the pipeline holds its retriever and exactly `Configure`'s provider, model and key, so a known provider and a non-empty key |
| RagPipeline.RecipeRAG.AnswerQuery | src/rag_pipeline.py:164-224 | With `verbose`, fails exactly when a retrieved recipe has no title, naming the first; otherwise the result holds the input query, the recipes retrieved with the given k and their count, the model's reply to the prompt built from them, and the provider and model |
| Baseline.Shown | src/baseline_comparison.py:25 | `[:3]` keeps a prefix of at most three recipes |
| Baseline.Titles | src/baseline_comparison.py:25 | The title-cased titles, one per recipe; failure exactly when some recipe lacks a title, reported at the first one |
| Baseline.BaselineAnswer | src/baseline_comparison.py:9-41 | Defines `generate_baseline_answer`; a failure names one of the first three recipes, which has no title. The lemmas below describe it |
| Baseline.BaselineSucceeds | src/baseline_comparison.py:9-41 | An empty list gives "No recipes found matching your query."; otherwise an answer exists exactly when the first three recipes have titles; the query does not matter |
| Baseline.BaselineUsesFirstThree | src/baseline_comparison.py:25-39 | Recipes after the third do not change the answer |
| Baseline.TitleSentenceNames | src/baseline_comparison.py:27-32 | Each of the 1/2/3-title templates contains every title it lists |
| Baseline.TitleSentenceOpens | src/baseline_comparison.py:28-32 | Each template opens with "Based on your search, I found: " and the first title |
| Baseline.BaselineNamesTitles | src/baseline_comparison.py:25-32 | A successful answer opens with the prefix and the first title, and names each of the first three titles |
| Baseline.BaselineStatesFacts | src/baseline_comparison.py:34-39 | The answer is the title sentence, then the calories sentence exactly when the first recipe's calories are truthy, then the duration sentence exactly when its duration is; each sentence is present when its value is truthy |
| PrepareData.Sample | src/prepare_data.py:16-31 | Defines the rows `df.sample` keeps, given its shuffle. `SampleShape` describes it |
| PrepareData.SampleShape | src/prepare_data.py:26-31 | The sample has min(rows, sample size) rows from distinct positions, and is the whole frame when the frame is not larger |
| PrepareData.FirstAvailable | src/prepare_data.py:61-64 | The chosen name is the first candidate, in list order, that is an available column; none exactly when no candidate is available |
| PrepareData.Selection | src/prepare_data.py:58-64 | Defines `selected_cols`; every chosen column is available. `SelectionFirstMatch` describes it |
| PrepareData.SelectionFirstMatch | src/prepare_data.py:59-64 | A field is selected exactly when a candidate is available, and then with its first available candidate; nothing else is selected |
| PrepareData.FieldMappingDistinct | src/prepare_data.py:46-56 | The nine standard fields are distinct |
| PrepareData.SelectColumns | src/prepare_data.py:59-64 | The nested loop with `break`, run over a field mapping (the code's is `FieldMapping`), fills exactly the selection the first-match rule describes |
| PrepareData.CleanText | src/prepare_data.py:77 | The cleaned text has no upper-case letter and no leading or trailing space; a missing value becomes "" |
| PrepareData.CleanTextIdempotent | src/prepare_data.py:77 | Cleaning a cleaned value changes nothing |
| PrepareData.ToNumeric | src/prepare_data.py:83 | Coercion yields a number or a missing value, and keeps numbers |
| PrepareData.HealthBin | src/prepare_data.py:88-92 | The bin exists exactly for calories > 0; bin b covers (200b, 200(b+1)], and the last bin is everything above 600 |
| PrepareData.HealthCategory | src/prepare_data.py:88-92 | Defines the category cell; there is a label, one of the four, exactly when calories are a number above 0, and a missing value otherwise |
| PrepareData.HealthCategoryTable | src/prepare_data.py:88-92 | low_calorie is (0,200], moderate (200,400], high_calorie (400,600], very_high_calorie above 600; calories that are missing or at most 0 get no category |
| PrepareData.HealthBinMonotone | src/prepare_data.py:88-92 | More calories never give a lower category |
| PrepareData.ProcessRow | src/prepare_data.py:68-92 | Defines the processing of one row. `ProcessRowFields` describes it |
| PrepareData.ProcessRowFields | src/prepare_data.py:69-92 | A processed row has the selected fields: text fields cleaned, numeric fields coerced, others as read; it has health_category exactly when calories were selected |
| PrepareData.DropIncompleteFilters | src/prepare_data.py:95-96 | Dropping keeps exactly the rows whose present recipe_id and title are not missing, and never adds rows |
| PrepareData.DropIncompleteSingle | src/prepare_data.py:95-96 | A single row is kept exactly when its present recipe_id and title are not missing |
| PrepareData.DropIncompleteInOrder | src/prepare_data.py:95-96 | Dropping distributes over concatenation, so the kept rows keep their order and their repeats |
| PrepareData.Preprocess | src/prepare_data.py:35-101 | Defines `preprocess_recipes` as written; it never adds rows, and with no column selected the new frame has no rows. `PreprocessFilters` and `TitleNeverDropped` describe it |
| PrepareData.PreprocessFilters | src/prepare_data.py:68-96 | No rows when no column is selected (the empty `DataFrame()` never gets an index); every kept row is a processed input row with its essential fields; when some column is selected, every such row is kept |
| PrepareData.TitleNeverDropped | src/prepare_data.py:74-96 | Because titles are cleaned first, a processed row is dropped only for a missing recipe_id, never for a missing title |
| PrepareData.MissingTitleKept | src/prepare_data.py:95-96 | A row with an id and a missing title survives preprocessing with title "" |
| PrepareData.PreprocessIntended | src/prepare_data.py:94-96 | Defines the corrected rule: the essential cells are checked as read, before cleaning; it never adds rows |
| PrepareData.KeepRawCompleteFilters | src/prepare_data.py:94-96 | The intended filter keeps exactly the rows whose id and title cells, as read, are present |
| PrepareData.PreprocessIntendedDrops | src/prepare_data.py:68-96 | Under the intended rule: no rows when no column is selected; every kept row had an id and a title; when some column is selected, every such row is kept |
| PrepareData.MissingTitleDroppedWhenIntended | src/prepare_data.py:94-96 | The intended rule drops the row `MissingTitleKept` keeps |
| PrepareData.CreateRecipeText | src/prepare_data.py:103-117 | The appending method joins the present title, tags and ingredients with single spaces |
| PrepareData.RecipeTextLayout | src/prepare_data.py:106-117 | One part per present field, in order, with one space between each two; empty when none is present; the text starts with the title when there is one |
| PrepareData.EmptyTitleKeepsSeparator | src/prepare_data.py:108-117 | An empty title still contributes its separator |
| Conversation.Clarifies | src/conversation_handler.py:22-48 | Defines the follow-up test: a keyword in the lower-cased query, or at most three words. `ClarifiesExactly` and `IsClarification` describe it |
| Conversation.ClarifiesExactly | src/conversation_handler.py:22-48 | Any keyword substring of the lower-cased query makes it a follow-up; so does any query of at most three words, the empty one included; four or more words without a keyword do not |
| Conversation.BuildClarifiedQuery | src/conversation_handler.py:50-83 | Every branch's result begins with the previous query |
| Conversation.SubstitutionFirst | src/conversation_handler.py:64-65 | "instead" or "with", hence also "without", takes priority and gives `original + ", but " + clarification` in the clarification's own casing |
| Conversation.TimeBranches | src/conversation_handler.py:67-71 | Without a substitution, shorter/faster/quicker gives " that takes less time", checked before longer/slower, which gives " that takes more time" |
| Conversation.HealthAndCalorieBranches | src/conversation_handler.py:74-83 | "healthier"/"healthy", so "less healthy" too, gives " that is healthier"; "calorie" gives " with fewer calories" exactly when fewer/less/low occurs, else " with more calories"; otherwise `original + ", " + clarification` |
| Conversation.Resolve | src/conversation_handler.py:97-104 | The query is rewritten only when the previous query is non-empty and the utterance is a follow-up; otherwise it is sent verbatim |
| Conversation.DemoConversation | src/conversation_handler.py:200-204 | The demonstration turns give "Show me a pasta recipe", then "Show me a pasta recipe, but with chicken instead", then that query followed by " that is healthier" |
| Conversation.Assistant.constructor | src/conversation_handler.py:15-20 | A new assistant has no previous query or results and an empty history |
| Conversation.Assistant.IsClarification | src/conversation_handler.py:22-48 | The keyword loop with early return, followed by the word count, decides exactly the follow-up predicate |
| Conversation.Assistant.Ask | src/conversation_handler.py:85-121 | Fails exactly when a recipe retrieved for the resolved query has no title, and then changes nothing. Otherwise the sent query is the resolved one, previous query and results become this turn's, and the history grows by exactly one entry with the input, the sent query, the answer and the recipe count |
| Conversation.Assistant.AskTurn | src/conversation_handler.py:107-119 | One `ask` whose result is discarded: it succeeds exactly when `ask` does; on success the history grows by one entry with the input and the sent query; on failure the last query, the last results and the history are unchanged |
| Conversation.Assistant.Reset | src/conversation_handler.py:123-127 | Previous query and results are cleared; the history is unchanged |
| Conversation.AskEach | src/conversation_handler.py:205-211 | A fresh assistant asks the queries in turn and stops at the first that raises; each history entry holds its query and the query it sent; when every stored recipe has a title, all are asked |
| Conversation.Demo | src/conversation_handler.py:197-211 | The demonstration's history holds its sent queries in order, at most three; when every stored recipe has a title, it holds all three |

## Left out

- TF-IDF vectorisation and cosine similarity (`retrieval.py` 43-61, 77-80) are absent: the similarity is a parameter, together with the sklearn stop words, `min_df`, `max_features` and floating-point weights.
- The order of `np.argsort` among equal scores is not modelled. `ArgSort` picks one order, and no contract relies on it.
- Loading the catalog, building the index, `search` with its printing, and the module-level `answer_query` are I/O wrappers and are omitted.
- Language-model clients and their calls (`_init_llm_client`, `_call_llm`, `max_tokens`) are omitted: the reply is a parameter of the prompt. Environment variables are a map parameter.
- Float formatting (`:.0f`, `:.1f`, `:.3f`, `str(float)`) and `str.title()` are uninterpreted `Formats` functions.
- NDCG's `log2` discount is the `gain` parameter. The `np.mean` averages over test queries, and all report writing in `evaluate_retrieval.py`, are omitted.
- pandas is omitted: reading the CSV, the seeded random draw of `df.sample` (a permutation parameter), `pd.to_numeric` parsing (a parameter), and number-to-text conversion (a parameter).
- The JSON file written by `save_recipes`, which adds `searchable_text` to each row, is omitted.
- JSON `null` and NaN values inside recipe records are not modelled. A field is either absent (`None`) or has a value.
- A title that is not a string, which makes `.title()` fail, is not modelled.
- `lower()` is modelled for ASCII letters only. `split()` uses Python's white-space characters.
- Console printing, the text `verbose` prints (its `KeyError` is modelled), `interactive_conversation` with its `input()` and interrupt handling, `run_baseline_comparison`, `generate_interaction_log.py` and `run_all_tests.py` are omitted.
- Evaluation.RecallMonotone: proved only for cut-offs of the same sign. Python slice bounds are not monotone across zero: `[:-1]` of three items keeps two, `[:0]` keeps none.
- Evaluation.NdcgAtK: states the score through the abstract `gain`, so its own contract makes no claim that the score lies in [0, 1]. The docstring's "(0 to 1)" holds of the written score only for retrieved lists without repeats, as `NdcgInUnitRange` proves; a relevant id retrieved twice is counted twice and can push the score above 1, as `NdcgRepeatsExceedOne` shows. The corrected `NdcgFirstHits` stays in [0, 1] for every list.

## Findings

| source | as written | input that shows it | evidently intended | confidence | as-written member | corrected member |
|---|---|---|---|---|---|---|
| src/evaluate_retrieval.py:20-43 | Repeated retrieved ids are each counted as hits in the DCG while the ideal DCG counts each relevant id once, so the score can exceed 1 | relevant {7}, retrieved [7, 7], k = 2, discounts 1 and 0.5: the score is 1.5 | A score in [0, 1], as the docstring's "(0 to 1)" says | medium (not executed) | Evaluation.NdcgRepeatsExceedOne | Evaluation.NdcgFirstHitsInUnitRange |
| src/prepare_data.py:77-96 | Titles are filled with "" before `dropna(subset=['recipe_id', 'title'])`, so no row is ever dropped for a missing title | A row with recipe id 7 and a missing title is kept, with title "" | Rows without a title are dropped together with rows without an id, as the comment "Remove rows with missing essential data" says | high (not executed) | PrepareData.MissingTitleKept | PrepareData.PreprocessIntendedDrops |

For NDCG, `Evaluation.Ndcg` models the code as written. `Evaluation.NdcgFirstHits` is the corrected definition: a relevant id earns its discount only at its first position. `NdcgFirstHitsInUnitRange` proves it lies in [0, 1] for every ranking, `NdcgFirstHitsAgrees` that it equals the written score on rankings without repeats, and `NdcgFirstHitsRepeats` that it scores the counterexample 1. `NdcgInUnitRange` gives the written score's range on such rankings; the retriever returns distinct catalog positions, so its lists have no repeats when the catalog's recipe ids are unique.

`PrepareData.Preprocess` models the code as written, and `PrepareData.TitleNeverDropped` states its general behaviour. `PrepareData.PreprocessIntended` is the corrected definition: it checks the id and title cells as read, before cleaning.
