# Business assistant core, modelled in Dafny

This project models the core of the business assistant (IAvent) and proves properties of the model:

- **Knowledge bases.**
  - The flattening `KnowledgeBase`:
    - a JSON document;
    - a flat index of its dot-joined leaf paths;
    - a recursive `update_knowledge`;
    - a threshold, sort and top-3 lookup.
  - The `HybridKnowledgeBase` router:
    - a one-level index;
    - a word-overlap score;
    - a sorted and truncated local search;
    - the policy that chooses between local results and one remote model call.
- **Latency testing.**
  - The `LatencyTester`. Its latency and error histories grow in place as requests are made. A batch loop survives failing requests.
    The stand-alone checker `models_tests/utils/latency_checker.py` repeats `tester.py` lines 10-113 in its lines 46-150, so one class models both and the table cites `tester.py`. Its lines 12-25 repeat the eleven `LatencyMetrics` fields of `metrics.py`, without `create_empty`.
  - The metrics snapshot: mean, minimum, maximum and linear-interpolation percentiles.
  - The `LatencyMetrics` record.
  - The provider registry `ProviderFactory`.
- **Conversation contexts.** The in-memory `ContextManager`.
- **Hallucination testers.** Two testers, `TestadorClaudeFiscal` and `TestadorLLM`, each with:
  - a word-set similarity;
  - the check of whether the documentation covers a question;
  - the rules that classify an answer;
  - the verdict-counting loop;
  - the numbered report.

Python's own building blocks are modelled once, in their own modules:

- dictionaries that keep insertion order (`PyDict`), and JSON values with `str()`/`repr()` (`Json`);
- `lower()`, `split()`, `join()` and `in` on strings (`Text`);
- stable `sorted(..., reverse=True)` and slicing (`Ranking`).

State that the source updates in place is modelled as classes:

- `KnowledgeBase`, `HybridKnowledgeBase`, `LatencyTester`, `ProviderFactory` and `ContextManager`;
- their methods carry `modifies` clauses and are proved against specification functions.

Pure logic is modelled as functions and lemmas.

## Model

| member | source | states |
|---|---|---|
| Text.Lower | src/business_assistant/assistant/core/knowledge.py:44 | `lower()` keeps the length and lower-cases each character |
| Text.Split | src/business_assistant/assistant/core/hydbrid_knowledge.py:23-24 | every word `split()` returns is non-empty, has no whitespace, and is made of characters of the text |
| Text.SplitEmptyIffBlank | src/business_assistant/assistant/core/hydbrid_knowledge.py:23-24 | there are no words exactly when the text is empty or all whitespace |
| Text.NoWordsIffBlank | src/business_assistant/assistant/core/hydbrid_knowledge.py:23-24 | the lower-cased query has no words exactly when the query is empty or all whitespace, the condition under which the lookups' `max()` over the keywords can raise |
| Text.SplitCoversText | src/business_assistant/assistant/core/hydbrid_knowledge.py:23-24 | the words, written one after the other, are the text with its whitespace removed, so every non-space character is in a word, in order |
| Text.SplitJoinRoundTrip | src/business_assistant/assistant/core/hydbrid_knowledge.py:23-24 | splitting words joined by single spaces gives those words back: `split()` neither merges nor breaks up the maximal runs |
| PyDict.Get | src/business_assistant/assistant/core/knowledge.py:131 | `dict.get` finds a value exactly when the key is present |
| PyDict.GetAfterAssign | src/business_assistant/assistant/core/knowledge.py:22 | after `d[k] = v`, looking up `k` gives `v` and every other key gives what it gave before |
| PyDict.AssignKeyOrder | src/business_assistant/assistant/core/knowledge.py:90 | assigning an existing key keeps the key order; assigning a new key appends it |
| PyDict.AssignAllKeys | src/business_assistant/assistant/core/knowledge.py:17-22 | after a series of assignments, the keys are the old keys together with the assigned ones |
| Ranking.PyPrefix | src/business_assistant/assistant/core/hydbrid_knowledge.py:84 | `s[:n]` is a prefix of `s`, of length min(n, len(s)) for n >= 0, and counts from the end for negative n |
| Ranking.SortDescIsStableSort | src/business_assistant/assistant/core/hydbrid_knowledge.py:82-84 | the sort gives non-increasing keys and a permutation of its input, and keeps the input order among equal keys |
| Ranking.StableSortIsUnique | src/business_assistant/assistant/core/knowledge.py:65 | two orderings that are both non-increasing and keep the input order among equal keys are the same |
| Ranking.TopIsRanked | src/business_assistant/assistant/core/hydbrid_knowledge.py:82-84 | the first n of the sorted list: sorted, a sub-multiset of the input, of length min(n, len) for n >= 0 |
| Ranking.TopKeepsTieOrder | src/business_assistant/assistant/core/hydbrid_knowledge.py:82-84 | among equal scores, the kept items are the first ones of the input, in input order |
| Ranking.TopAreTheBest | src/business_assistant/assistant/core/knowledge.py:72 | no item left out scores more than an item kept |
| HybridKnowledge.BuildSearchIndex | src/business_assistant/assistant/core/hydbrid_knowledge.py:17-19 | one entry per document entry, same key and position, value `str(v)` |
| HybridKnowledge.Similarity | src/business_assistant/assistant/core/hydbrid_knowledge.py:21-26 | division by zero exactly when neither text has a word; otherwise in [0, 1], and 0 exactly when no word is shared |
| HybridKnowledge.ApiSearch | src/business_assistant/assistant/core/hydbrid_knowledge.py:86-100 | never raises; the result holds only `response` (the reply text) when the client answers, only `error` (its message) when it raises |
| HybridKnowledge.HybridKnowledgeBase.constructor | src/business_assistant/assistant/core/hydbrid_knowledge.py:8-15 | stores the settings with their defaults (3, 0.3, 0.5) and builds the index from the document |
| HybridKnowledge.HybridKnowledgeBase.LocalSearch | src/business_assistant/assistant/core/hydbrid_knowledge.py:64-84 | the loop-and-sort computes the filtered, sorted, truncated local results |
| HybridKnowledge.HybridKnowledgeBase.GetInfo | src/business_assistant/assistant/core/hydbrid_knowledge.py:28-62 | returns the routing decision of `get_info`, or the error the local search raises |
| HybridKnowledgeProperties.IndexIsOneLevel | src/business_assistant/assistant/core/hydbrid_knowledge.py:17-19 | the index keys are the top-level document keys; nested objects are not flattened but stringified whole |
| HybridKnowledgeProperties.QueryWordSimilarity | src/business_assistant/assistant/core/hydbrid_knowledge.py:21-26 | a single query word scores 1/|words of text| against a text that contains it, and 0 otherwise |
| HybridKnowledgeProperties.SharedWordScore | src/business_assistant/assistant/core/hydbrid_knowledge.py:69-72 | the best keyword score of a query against a text lies in [0, 1] |
| HybridKnowledgeProperties.BestScoreOfWords | src/business_assistant/assistant/core/hydbrid_knowledge.py:69-72 | the best score over query words is 1/|text words| if some query word is in the text, else 0 |
| HybridKnowledgeProperties.BestScoreOfQuery | src/business_assistant/assistant/core/hydbrid_knowledge.py:69-72 | `max()` raises on a query with no words and otherwise gives the shared-word score |
| HybridKnowledgeProperties.EntryScoreOfQuery | src/business_assistant/assistant/core/hydbrid_knowledge.py:68-73 | an entry is always scored when the query has a word |
| HybridKnowledgeProperties.CandidatesOfQuery | src/business_assistant/assistant/core/hydbrid_knowledge.py:68-80 | the loop raises exactly when the index is non-empty and the query has no word, and then with the `max()` error |
| HybridKnowledgeProperties.LocalSearchRaisesIffQueryHasNoWords | src/business_assistant/assistant/core/hydbrid_knowledge.py:64-84 | the local search raises exactly when the index is non-empty and the query has no word |
| HybridKnowledgeProperties.CandidatesAreScoredEntries | src/business_assistant/assistant/core/hydbrid_knowledge.py:68-80 | every result is an index entry whose score is the max of key and value scores and at least the threshold |
| HybridKnowledgeProperties.CandidatesKeepEveryScoringEntry | src/business_assistant/assistant/core/hydbrid_knowledge.py:75-80 | every index entry scoring at least the threshold is among the results |
| HybridKnowledgeProperties.LocalResultsRanked | src/business_assistant/assistant/core/hydbrid_knowledge.py:64-84 | local results are scored index entries above the threshold, in non-increasing score order, at most `max_local_results` of them |
| HybridKnowledgeProperties.LocalResultsKeepTieOrder | src/business_assistant/assistant/core/hydbrid_knowledge.py:82-84 | results of equal score keep index order |
| HybridKnowledgeProperties.LocalResultsAreTheBest | src/business_assistant/assistant/core/hydbrid_knowledge.py:82-84 | no scoring entry left out by the truncation scores more than a kept one |
| HybridKnowledgeProperties.MaxScoreOfRanked | src/business_assistant/assistant/core/hydbrid_knowledge.py:48 | the best score of the sorted local results is that of the first one |
| HybridKnowledgeProperties.ForcedApiAlwaysAsksTheModel | src/business_assistant/assistant/core/hydbrid_knowledge.py:42-53 | with `force_mode='api'` no local search runs, and the mode is `api` with the API reply |
| HybridKnowledgeProperties.ForcedLocalNeverAsksTheModel | src/business_assistant/assistant/core/hydbrid_knowledge.py:42-56 | with `force_mode='local'` the outcome does not depend on the client and is the local list, even when empty |
| HybridKnowledgeProperties.DefaultModePolicy | src/business_assistant/assistant/core/hydbrid_knowledge.py:45-56 | without a forced mode, the API is used exactly when there are no local results or the best is below `use_api_threshold`; otherwise the results are the local list |
| HybridKnowledgeProperties.EmptyDocumentAsksTheModel | src/business_assistant/assistant/core/hydbrid_knowledge.py:42-53 | an empty document always goes to the API |
| Knowledge.BestRatio | src/business_assistant/assistant/core/knowledge.py:49-52 | `max` over keywords raises exactly on no keywords; otherwise it is the score of some keyword and at least that of every keyword |
| Knowledge.Lines | src/business_assistant/assistant/core/knowledge.py:71-73 | one `[key]: value` line per match, in order |
| Knowledge.DeepUpdate | src/business_assistant/assistant/core/knowledge.py:85-90 | the in-place recursive merge computes the merged document |
| Knowledge.KnowledgeBase.constructor | src/business_assistant/assistant/core/knowledge.py:8-10 | keeps the data and builds its flat index |
| Knowledge.KnowledgeBase.CreateSearchIndex | src/business_assistant/assistant/core/knowledge.py:12-24 | the index is rebuilt from scratch as the flattening of the data; the data is unchanged |
| Knowledge.KnowledgeBase.FlattenInto | src/business_assistant/assistant/core/knowledge.py:16-22 | the recursive walk writes into the index what the flattening specifies, starting from the index it found |
| Knowledge.KnowledgeBase.UpdateKnowledge | src/business_assistant/assistant/core/knowledge.py:77-93 | the data becomes the deep merge of old and new data, and the index is rebuilt from it |
| Knowledge.KnowledgeBase.ImportKnowledge | src/business_assistant/assistant/core/knowledge.py:105-115 | the data is replaced by the imported document and the index rebuilt |
| Knowledge.KnowledgeBase.Categories | src/business_assistant/assistant/core/knowledge.py:117-119 | the top-level keys of the data in insertion order, one name per entry; a name is listed exactly when it is a key of the data |
| Knowledge.KnowledgeBase.CategoryContent | src/business_assistant/assistant/core/knowledge.py:121-131 | the category's value when present, otherwise an empty object |
| Knowledge.KnowledgeBase.GetRelevantInfo | src/business_assistant/assistant/core/knowledge.py:30-75 | the loop, stable sorted copy and formatting loop compute the specified answer or error |
| KnowledgeProperties.FlattenIsAssignAll | src/business_assistant/assistant/core/knowledge.py:16-22 | flattening is assigning the document's leaves, in walk order, into the index |
| KnowledgeProperties.LeavesAreNotObjects | src/business_assistant/assistant/core/knowledge.py:19-22 | no nested object is ever stored as a leaf |
| KnowledgeProperties.IndexIsTheLeaves | src/business_assistant/assistant/core/knowledge.py:12-24 | index keys are exactly the leaf paths; entries are leaves and never objects; keys are unique; without path clashes the index is the leaves in walk order |
| KnowledgeProperties.ValidIndexIsTheLeaves | src/business_assistant/assistant/core/knowledge.py:8-24 | for a base whose index is in step with its data, the index keys are the data's leaf paths, and without clashing paths the lookup answers exactly as over the leaves |
| KnowledgeProperties.EmptyObjectAddsNothing | src/business_assistant/assistant/core/knowledge.py:19-20 | an empty nested object contributes no index entry |
| KnowledgeProperties.FlattenCollision | src/business_assistant/assistant/core/knowledge.py:18-22 | a key `a.b` and a nested path `a` → `b` clash: one index entry survives, holding the later value |
| KnowledgeProperties.MergeKeys | src/business_assistant/assistant/core/knowledge.py:85-90 | merged keys are the old keys, in their old order, followed by the new ones |
| KnowledgeProperties.MergeLeavesOthers | src/business_assistant/assistant/core/knowledge.py:85-90 | a key absent from the update keeps its value |
| KnowledgeProperties.MergeRule | src/business_assistant/assistant/core/knowledge.py:86-90 | an updated key gets the recursive merge when both values are objects, and the new value otherwise |
| KnowledgeProperties.MergeUnique | src/business_assistant/assistant/core/knowledge.py:85-90 | merging keeps keys unique |
| KnowledgeProperties.RateOfEntry | src/business_assistant/assistant/core/knowledge.py:49-55 | an entry's score is the best keyword ratio over key and value; it raises for no keywords or a non-text value |
| KnowledgeProperties.MatchesRaise | src/business_assistant/assistant/core/knowledge.py:44-62 | the loop raises exactly for no keywords over a non-empty index, or for keywords and some non-text value, with that error |
| KnowledgeProperties.MatchesAreRatedEntries | src/business_assistant/assistant/core/knowledge.py:47-62 | every match is a text entry of the index whose score is at least the threshold |
| KnowledgeProperties.MatchesKeepEveryRatedEntry | src/business_assistant/assistant/core/knowledge.py:57-62 | every entry scoring at least the threshold is matched |
| KnowledgeProperties.RelevantInfoRaises | src/business_assistant/assistant/core/knowledge.py:30-75 | `get_relevant_info` raises exactly for a wordless query over a non-empty index, or a non-text leaf with a worded query |
| KnowledgeProperties.MatchesEmpty | src/business_assistant/assistant/core/knowledge.py:57-68 | nothing is matched exactly when every entry scores below the threshold |
| KnowledgeProperties.FormattedIsNotTheMessage | src/business_assistant/assistant/core/knowledge.py:67-75 | a formatted answer can never be mistaken for the not-found message |
| KnowledgeProperties.RelevantInfoNotFound | src/business_assistant/assistant/core/knowledge.py:67-68 | the answer is the not-found message exactly when every entry scores below the threshold |
| KnowledgeProperties.TopMatchesAreTheBest | src/business_assistant/assistant/core/knowledge.py:65-72 | the shown matches: min(3, n) of them, sorted, drawn from the matches, none beaten by one left out, ties in index order |
| KnowledgeProperties.RelevantInfoShowsTheBestThree | src/business_assistant/assistant/core/knowledge.py:64-75 | any other answer is the newline-joined lines of the best three matches |
| Metrics.CreateEmpty | src/business_assistant/latency_testing/core/metrics.py:20-35 | every figure is zero, no model information, the given timestamp; the record is consistent |
| LatencyStats.Min | src/business_assistant/latency_testing/core/tester.py:88 | `min` is a recorded latency and no latency is smaller |
| LatencyStats.Max | src/business_assistant/latency_testing/core/tester.py:89 | `max` is a recorded latency and no latency is larger |
| LatencyStats.AscendingIsSorted | src/business_assistant/latency_testing/core/tester.py:90-93 | the sorted copy percentiles work on is increasing and a permutation of the latencies |
| LatencyStats.AscendingEnds | src/business_assistant/latency_testing/core/tester.py:88-93 | the sorted copy starts with the minimum and ends with the maximum |
| LatencyStats.PercentileBounds | src/business_assistant/latency_testing/core/tester.py:90-93 | every percentile lies between the minimum and the maximum |
| LatencyStats.PercentileMonotone | src/business_assistant/latency_testing/core/tester.py:90-93 | a higher percentile is never smaller |
| LatencyStats.SumBounds | src/business_assistant/latency_testing/core/tester.py:87 | n values between lo and hi sum to between n·lo and n·hi |
| LatencyStats.MeanBounds | src/business_assistant/latency_testing/core/tester.py:87 | the mean lies between the minimum and the maximum |
| LatencyTesting.LatencyTester.constructor | src/business_assistant/latency_testing/core/tester.py:11-20 | both histories start empty |
| LatencyTesting.LatencyTester.MakeTestRequest | src/business_assistant/latency_testing/core/tester.py:22-47 | a success appends and returns its latency; a failure appends an error record with the prompt and raises again; the other history is unchanged |
| LatencyTesting.LatencyTester.RunBatchTest | src/business_assistant/latency_testing/core/tester.py:49-79 | every request's latency or error is appended in order; sleeps follow each success but the last request; the result is the metrics of the whole history |
| LatencyTesting.LatencyTester.ExportResults | src/business_assistant/latency_testing/core/tester.py:100-106 | the export raises exactly when the metrics do; otherwise it holds the metrics, raw latencies and errors |
| LatencyTesting.LatencyTester.ClearHistory | src/business_assistant/latency_testing/core/tester.py:111-114 | both histories become empty |
| LatencyTestingProperties.MetricsAreConsistent | src/business_assistant/latency_testing/core/tester.py:81-98 | metrics exist exactly when a latency was recorded; min <= p50 <= p90 <= p95 <= p99 <= max, min <= mean <= max, counts of successes and failures |
| LatencyTestingProperties.EveryCallRecordedOnce | src/business_assistant/latency_testing/core/tester.py:70-77 | each request of a batch is recorded exactly once, as a latency or as an error |
| LatencyTestingProperties.PausesFollowSuccesses | src/business_assistant/latency_testing/core/tester.py:70-75 | the batch sleeps after request i exactly when it succeeded and was not the last |
| LatencyTestingProperties.AllFailedRecordsNoLatency | src/business_assistant/latency_testing/core/tester.py:70-77 | a batch whose requests all fail records no latency |
| LatencyTestingProperties.AnySuccessGivesMetrics | src/business_assistant/latency_testing/core/tester.py:70-84 | a batch with one success records a latency, so metrics exist |
| LatencyTestingProperties.AllFailedBatchRaises | src/business_assistant/latency_testing/core/tester.py:79-84 | on an empty history, an all-failing or empty batch raises instead of returning metrics |
| ProviderRegistry.BuiltIn | src/business_assistant/latency_testing/providers/factory.py:10-13 | the initial table names exactly `anthropic` and `openai` |
| ProviderRegistry.CreateFrom | src/business_assistant/latency_testing/providers/factory.py:27-32 | an unknown name is refused with its message and nothing is built; a known one builds its class, initialized once with the options |
| ProviderRegistry.ProviderFactory.constructor | src/business_assistant/latency_testing/providers/factory.py:10-13 | the registry starts with the two built-in providers |
| ProviderRegistry.ProviderFactory.Create | src/business_assistant/latency_testing/providers/factory.py:16-32 | `create` builds what the table says, or refuses the name |
| ProviderRegistry.ProviderFactory.RegisterProvider | src/business_assistant/latency_testing/providers/factory.py:35-37 | the name is mapped to the class, replacing any entry; the others are unchanged |
| ProviderRegistry.RegisteredNameCreates | src/business_assistant/latency_testing/providers/factory.py:27-37 | after registration, `create(name)` builds the new class and every other name behaves as before |
| ProviderRegistry.BuiltInProviders | src/business_assistant/latency_testing/providers/factory.py:10-28 | a fresh registry creates exactly `anthropic` and `openai` |
| Contexts.ContextManager.constructor | src/business_assistant/assistant/utils/context.py:7-8 | no context is stored |
| Contexts.ContextManager.Load | src/business_assistant/assistant/utils/context.py:10-12 | a context is found exactly when its id is stored, and it is the stored one |
| Contexts.ContextManager.Save | src/business_assistant/assistant/utils/context.py:14-16 | the id then loads the saved context; other ids load what they did before |
| Contexts.ContextManager.Clear | src/business_assistant/assistant/utils/context.py:18-21 | the id then loads nothing, an absent id changes nothing, other ids are untouched |
| Contexts.NewManagerIsEmpty | src/business_assistant/assistant/utils/context.py:7-12 | a new manager loads nothing |
| Hallucination.CountAppend | models_tests/testador_llm_claude.py:79-92 | recording a detail raises the count of its own verdict by one and leaves the other verdict counts unchanged, which is how the counters of the summary are kept equal to the details |
| Hallucination.CountsWithinDetails | models_tests/testador_llm_claude.py:86-92 | each detail raises at most one counter, so the three counters sum to at most the details |
| ClaudeTester.Jaccard | models_tests/testador_llm_claude.py:167-170 | the Jaccard index is in [0, 1], 0 exactly with no common element, 1 exactly for equal non-empty sets |
| ClaudeTester.WordSimilarity | models_tests/testador_llm_claude.py:159-170 | in [0, 1]; 0 exactly when no word is shared (including two wordless texts); 1 exactly when the word sets agree |
| ClaudeTester.WordSimilaritySymmetric | models_tests/testador_llm_claude.py:164-170 | the similarity does not depend on the order of the texts |
| ClaudeTester.SearchKeywords | models_tests/testador_llm_claude.py:107-109 | the keyword loop returns true exactly when some lower-cased keyword is a question word |
| ClaudeTester.SearchTopics | models_tests/testador_llm_claude.py:104-115 | the topic loop returns true exactly when some topic has a keyword hit or a content overlap of more than two words |
| ClaudeTester.SearchCategories | models_tests/testador_llm_claude.py:103-117 | the category loop returns true exactly when some topic of some category hits |
| ClaudeTester.InfoExists | models_tests/testador_llm_claude.py:96-117 | the question counts as documented exactly when some topic has a keyword that is a question word or content sharing more than two words with it |
| ClaudeTester.SpacedKeywordNeverHits | models_tests/testador_llm_claude.py:101-108 | a keyword holding whitespace can never match, since question words have none |
| ClaudeTester.Analyse | models_tests/testador_llm_claude.py:119-157 | each verdict's exact condition: refusal without documentation (0.9); any other answer without documentation (0.8); similarity above 0.8 with an expected answer (confidence = similarity, else hallucination with 1 − similarity); no verdict, 0.0 and no observation otherwise; confidence in [0, 1] |
| ClaudeTester.TestHallucinations | models_tests/testador_llm_claude.py:35-94 | `total_testes` is the number of cases; the details are those of the answered cases in order; the counters equal the verdict counts of the details |
| ClaudeTester.RecordedAtMostCases | models_tests/testador_llm_claude.py:62-84 | at most one detail per case, and one per case exactly when no API call raised |
| ClaudeTester.EveryDetailIsAnAnsweredCase | models_tests/testador_llm_claude.py:62-84 | every detail is the analysis of an answered case, stamped with that case's time |
| ClaudeTester.SummaryCountersBounded | models_tests/testador_llm_claude.py:40-92 | counters sum to at most the details, which are at most the cases |
| ClaudeTester.BlocksNumberedInOrder | models_tests/testador_llm_claude.py:189-197 | the detail at position i is test number i + 1, with the earlier details before it |
| ClaudeTester.GenerateReport | models_tests/testador_llm_claude.py:172-199 | an empty test run divides by zero; otherwise the report is the header followed by the numbered blocks of the details in order |
| ClaudeTester.RatesWithinHundred | models_tests/testador_llm_claude.py:182-184 | the three rates of a tester's summary add up to at most 100 percent |
| GenericTester.Analyse | models_tests/testador_llm_generico.py:71-95 | without documentation only the exact phrase gives a verdict (0.9); with documentation and an expected answer, correct above 0.8 similarity (confidence = similarity), else hallucination (1 − similarity); otherwise no verdict and 0.0; never observations |
| GenericTester.TestHallucinations | models_tests/testador_llm_generico.py:21-61 | `total_testes` is the number of cases; the details are one per case in order; the counters equal the verdict counts |
| GenericTester.OneDetailPerCase | models_tests/testador_llm_generico.py:33-51 | exactly one detail per case, in case order, carrying its question, answer and analysis |
| GenericTester.SummaryCountersBounded | models_tests/testador_llm_generico.py:53-59 | counters sum to at most the details, which equal the cases |
| GenericTester.StubbedSearchNeverJudges | models_tests/testador_llm_generico.py:63-69 | with the documentation search as written (it returns `None`), no answer is ever judged correct or a hallucination |

## Left out

- Network and SDK calls are not modelled as calls. Each one is an input instead:
  - the Anthropic client of the hybrid router is a function from prompt to reply;
  - a provider call of the latency tester is an outcome per request;
  - the model answers of both hallucination testers are an answer per case (the Claude tester's may be missing when the call raised).
  - The prompt text the Claude tester sends, and the system prompt, are not modelled.
- `time.time()`, `time.sleep` and `datetime.now()` are left out or taken as inputs:
  - latencies and timestamps are inputs;
  - `processing_time` is dropped;
  - the `delay` argument of `run_batch_test` is not modelled, only the requests after which the batch sleeps;
  - the printed progress lines are not modelled.
- File I/O is left out: loading documentation, `export_knowledge`, the reading half of `import_knowledge`, the JSON writing of `export_results`, and the testers' `__main__` blocks. Import replaces the data with an already-parsed document. Export yields the exported content.
- `difflib.SequenceMatcher(...).ratio()` is a parameter `ratio` of the lookup. It is a library algorithm and is not modelled.
- Floating point is modelled as exact reals. This covers scores, latencies, `statistics.mean` and `numpy.percentile` (linear interpolation). The `:.2f` formatting in the report is a parameter.
- `lower()` and `split()` handle ASCII only: A–Z folding and ASCII whitespace. Unicode case folding and Unicode spaces are not modelled.
- JSON values: numbers are integers only. `str()`/`repr()` of nested values always quotes strings with `'` and does not escape characters inside them.
- Knowledge.DeepUpdate: returns the merged document rather than mutating shared nested dictionaries, so aliasing between the caller's dictionaries and the knowledge base is not modelled.
- HybridKnowledge.HybridKnowledgeBase.constructor: the prompt's documentation text, `json.dumps(self.documentacao, ensure_ascii=False)` (hydbrid_knowledge.py line 113), is a constructor argument; JSON serialisation is not modelled, so nothing ties that text to the document.
- HybridKnowledge.HybridKnowledgeBase.GetInfo: any `force_mode` other than `'api'` or `'local'` behaves as no forced mode, as in the source; `processing_time` is not returned.
- `KeyError`s that a malformed documentation would raise in `_verificar_existencia_info` (a missing `categorias` or `topicos`) are not modelled: the documentation is typed with those parts present, and the dictionaries' keys are dropped, keeping the values in order.
- The generic tester's `_verificar_existencia_info` and `_calcular_similaridade` have `pass` bodies; they are parameters here, and GenericTester.StubbedSearchNeverJudges states the consequence of the search as written. Its `gerar_relatorio` body is also `pass` and is not modelled. An exception from `modelo.gerar_resposta` stops that tester; this is not modelled.
- ProviderRegistry.CreateFrom: an exception raised by a provider's own `initialize(**kwargs)` is not modelled; the only failure is an unknown provider name, since the provider classes' code is not part of this model.
- `ProviderFactory._providers` is a class attribute shared by all users; it is modelled as the state of one factory object. The provider modules it imports (an Anthropic provider module in the latency-testing package is not part of this model) are just the class names they stand for.
- `async` in `ContextManager`: the coroutines are modelled as plain calls, since each runs to completion without awaiting anything. Contexts are stored by value, so later mutation of a saved dictionary through another reference is not modelled.
- The embedding similarity calculator, the assistants' prompt glue, prompt templates, logging, exceptions, the abstract base classes and the assistant-side provider factory are not part of this model. The `exemplo_uso_*` functions of the stand-alone latency checker refer to undefined provider classes and are not part of this model either.
