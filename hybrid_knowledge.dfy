/**
 * The hybrid retrieval router (`HybridKnowledgeBase`): a one-level search index over the
 * top-level keys of a JSON document, a word-overlap score, a filtered, stably sorted and
 * truncated local search, and the policy that picks between the local results and one call
 * to a remote model. The remote client is a function from prompt to reply; the wall-clock
 * `processing_time` is not modelled.
 */
module HybridKnowledge {
  import opened Wrappers
  import opened Text
  import opened PyDict
  import opened Json
  import opened Ranking

  /** One local result, `{'key': ..., 'value': ..., 'score': ...}`. */
  datatype Hit = Hit(key: string, value: string, score: real)

  function Score(h: Hit): real { h.score }

  /** The two ways the local search can raise. */
  datatype SearchError =
    | MaxOfEmpty    // `max()` over a query with no words: ValueError
    | ZeroDivision  // `_calculate_similarity` of two texts without words

  /** What the remote client does with one prompt. */
  datatype ApiReply = Replied(text: string) | Raised(message: string)

  datatype Mode = Api | Local

  datatype Results = LocalResults(hits: seq<Hit>) | ApiResults(reply: map<string, string>)

  /** The dictionary `get_info` returns, without `processing_time`. */
  datatype Routing = Routing(results: Results, modeUsed: Mode)

  /** `_build_search_index`: `{str(k): str(v) for k, v in documentacao.items()}`. */
  function BuildSearchIndex(documentation: Dict<Value>): (index: Dict<string>)
    ensures |index| == |documentation|
    ensures forall i :: 0 <= i < |index| ==>
      index[i].key == documentation[i].key && index[i].value == PyStr(documentation[i].value)
  {
    if documentation == [] then []
    else [Entry(documentation[0].key, PyStr(documentation[0].value))] + BuildSearchIndex(documentation[1..])
  }

  /**
   * `_calculate_similarity`: |q ∩ t| / max(|q|, |t|) over the two word sets; `Err` is the
   * ZeroDivisionError Python raises when neither text has a word.
   */
  function Similarity(query: string, text: string): (r: Result<real, SearchError>)
    ensures r.Err? <==> WordSet(query) == {} && WordSet(text) == {}
    ensures r.Ok? ==> 0.0 <= r.value <= 1.0
    ensures r.Ok? ==> (r.value == 0.0 <==> WordSet(query) * WordSet(text) == {})
  {
    var q, t := WordSet(query), WordSet(text);
    var m := if |q| >= |t| then |q| else |t|;
    SubsetCardinality(q * t, q);
    if m == 0 then Err(ZeroDivision) else Ok(Fraction(|q * t|, m))
  }

  /** `max(self._calculate_similarity(kw, text) for kw in keywords)`. */
  function BestScore(keywords: seq<string>, text: string): Result<real, SearchError>
  {
    if keywords == [] then Err(MaxOfEmpty)
    else match Similarity(keywords[0], text)
      case Err(e) => Err(e)
      case Ok(s) =>
        if |keywords| == 1 then Ok(s)
        else match BestScore(keywords[1..], text)
          case Err(e) => Err(e)
          case Ok(b) => Ok(if s >= b then s else b)
  }

  /** The score of one index entry: the larger of its key score and its value score. */
  function EntryScore(keywords: seq<string>, entry: Entry<string>): Result<real, SearchError>
  {
    match BestScore(keywords, entry.key)
    case Err(e) => Err(e)
    case Ok(keyScore) =>
      match BestScore(keywords, entry.value)
      case Err(e) => Err(e)
      case Ok(valueScore) => Ok(if keyScore >= valueScore then keyScore else valueScore)
  }

  /** The loop of `_local_search`: the entries scoring at least `threshold`, in index order. */
  function Candidates(index: Dict<string>, keywords: seq<string>, threshold: real): Result<seq<Hit>, SearchError>
  {
    if index == [] then Ok([])
    else
      match Candidates(index[..|index| - 1], keywords, threshold)
      case Err(e) => Err(e)
      case Ok(kept) =>
        var entry := index[|index| - 1];
        match EntryScore(keywords, entry)
        case Err(e) => Err(e)
        case Ok(s) => Ok(if s >= threshold then kept + [Hit(entry.key, entry.value, s)] else kept)
  }

  /** `_local_search`: the candidates, stably sorted by descending score, cut to `maxResults`. */
  function LocalSearchResult(index: Dict<string>, query: string, threshold: real, maxResults: int)
    : Result<seq<Hit>, SearchError>
  {
    match Candidates(index, Split(Lower(query)), threshold)
    case Err(e) => Err(e)
    case Ok(kept) => Ok(Top(kept, Score, maxResults))
  }

  /** `max(r['score'] for r in local_results)` */
  function MaxScore(hits: seq<Hit>): real
    requires hits != []
  {
    if |hits| == 1 then hits[0].score
    else var rest := MaxScore(hits[1..]); if hits[0].score >= rest then hits[0].score else rest
  }

  /** The `use_api` condition of `get_info`; `local` is not looked at when the API is forced. */
  predicate UseApi(forceMode: Option<string>, local: seq<Hit>, useApiThreshold: real)
  {
    forceMode == Some("api")
    || (forceMode != Some("local") && (local == [] || MaxScore(local) < useApiThreshold))
  }

  /** `_get_context_documentation` followed by the question, as sent to the model. */
  function ApiPrompt(documentationJson: string, query: string): string
  {
    "Documentação do sistema fiscal: " + documentationJson + "\n\nPergunta: " + query
  }

  /** `_api_search`: the reply text under `'response'`, or the failure text under `'error'`. */
  function ApiSearch(client: string -> ApiReply, documentationJson: string, query: string)
    : (r: map<string, string>)
    ensures r.Keys == {"response"} || r.Keys == {"error"}
    ensures client(ApiPrompt(documentationJson, query)).Replied? <==> r.Keys == {"response"}
    ensures "response" in r ==> r["response"] == client(ApiPrompt(documentationJson, query)).text
    ensures "error" in r ==> r["error"] == client(ApiPrompt(documentationJson, query)).message
  {
    match client(ApiPrompt(documentationJson, query))
    case Replied(text) => map["response" := text]
    case Raised(message) => map["error" := message]
  }

  class HybridKnowledgeBase {
    const documentation: Dict<Value>
    /** `json.dumps(documentation, ensure_ascii=False)`, the text the prompt embeds. */
    const documentationJson: string
    const client: string -> ApiReply
    const maxLocalResults: int
    const similarityThreshold: real
    const useApiThreshold: real
    const searchIndex: Dict<string>

    constructor (documentation: Dict<Value>, documentationJson: string, client: string -> ApiReply,
                 maxLocalResults: int := 3, similarityThreshold: real := 0.3, useApiThreshold: real := 0.5)
      ensures this.documentation == documentation && this.documentationJson == documentationJson
      ensures this.client == client && this.maxLocalResults == maxLocalResults
      ensures this.similarityThreshold == similarityThreshold && this.useApiThreshold == useApiThreshold
      ensures searchIndex == BuildSearchIndex(documentation)
      ensures Valid()
    {
      this.documentation := documentation;
      this.documentationJson := documentationJson;
      this.client := client;
      this.maxLocalResults := maxLocalResults;
      this.similarityThreshold := similarityThreshold;
      this.useApiThreshold := useApiThreshold;
      this.searchIndex := BuildSearchIndex(documentation);
    }

    /** The index is the one built from the documentation, as the constructor leaves it. */
    predicate Valid()
    {
      searchIndex == BuildSearchIndex(documentation)
    }

    /** What `get_info(query, force_mode)` returns, or the error it raises. */
    function Route(query: string, forceMode: Option<string>): Result<Routing, SearchError>
    {
      if forceMode == Some("api") then
        Ok(Routing(ApiResults(ApiSearch(client, documentationJson, query)), Api))
      else
        match LocalSearchResult(searchIndex, query, similarityThreshold, maxLocalResults)
        case Err(e) => Err(e)
        case Ok(local) =>
          if UseApi(forceMode, local, useApiThreshold)
          then Ok(Routing(ApiResults(ApiSearch(client, documentationJson, query)), Api))
          else Ok(Routing(LocalResults(local), Local))
    }

    method LocalSearch(query: string) returns (r: Result<seq<Hit>, SearchError>)
      ensures r == LocalSearchResult(searchIndex, query, similarityThreshold, maxLocalResults)
    {
      var keywords := Split(Lower(query));
      var results: seq<Hit> := [];
      var i := 0;
      while i < |searchIndex|
        invariant 0 <= i <= |searchIndex|
        invariant Candidates(searchIndex[..i], keywords, similarityThreshold) == Ok(results)
      {
        var entry := searchIndex[i];
        CandidatesStep(searchIndex, i, keywords, similarityThreshold, results);
        var keyScore := BestScore(keywords, entry.key);
        var valueScore := BestScore(keywords, entry.value);
        if keyScore.Err? || valueScore.Err? {
          var e := if keyScore.Err? then keyScore.error else valueScore.error;
          CandidatesErrorPersists(searchIndex, i + 1, keywords, similarityThreshold);
          return Err(e);
        }
        var maxScore := if keyScore.value >= valueScore.value then keyScore.value else valueScore.value;
        if maxScore >= similarityThreshold {
          results := results + [Hit(entry.key, entry.value, maxScore)];
        }
        i := i + 1;
      }
      assert searchIndex[..i] == searchIndex;
      return Ok(Top(results, Score, maxLocalResults));
    }

    method GetInfo(query: string, forceMode: Option<string> := None) returns (r: Result<Routing, SearchError>)
      ensures r == Route(query, forceMode)
    {
      var local: seq<Hit> := [];
      if forceMode != Some("api") {
        var found := LocalSearch(query);
        if found.Err? {
          return Err(found.error);
        }
        local := found.value;
      }
      var useApi := forceMode == Some("api")
        || (forceMode != Some("local") && (local == [] || MaxScore(local) < useApiThreshold));
      if useApi {
        var results := ApiSearch(client, documentationJson, query);
        r := Ok(Routing(ApiResults(results), Api));
      } else {
        r := Ok(Routing(LocalResults(local), Local));
      }
    }
  }

  lemma CandidatesStep(index: Dict<string>, i: nat, keywords: seq<string>, threshold: real, kept: seq<Hit>)
    requires i < |index|
    requires Candidates(index[..i], keywords, threshold) == Ok(kept)
    ensures Candidates(index[..i + 1], keywords, threshold) ==
      match EntryScore(keywords, index[i])
      case Err(e) => Err(e)
      case Ok(s) => Ok(if s >= threshold then kept + [Hit(index[i].key, index[i].value, s)] else kept)
  {
    assert index[..i + 1][..i] == index[..i];
  }

  /** Once an entry raises, the whole search raises with that error. */
  lemma {:induction false} CandidatesErrorPersists(index: Dict<string>, n: nat, keywords: seq<string>, threshold: real)
    requires n <= |index|
    requires Candidates(index[..n], keywords, threshold).Err?
    ensures Candidates(index, keywords, threshold) == Candidates(index[..n], keywords, threshold)
    decreases |index| - n
  {
    if n < |index| {
      assert index[..n + 1][..n] == index[..n];
      CandidatesErrorPersists(index, n + 1, keywords, threshold);
    } else {
      assert index[..n] == index;
    }
  }
}

/** What the router promises, stated over `HybridKnowledge`'s definitions. */
module HybridKnowledgeProperties {
  import opened Wrappers
  import opened Text
  import opened PyDict
  import opened Json
  import opened Ranking
  import opened HybridKnowledge

  /**
   * The index has one entry per top-level key, in document order, with the key unchanged
   * and the value stringified whole: a nested object becomes its `str()` text, not entries.
   */
  lemma {:induction false} IndexIsOneLevel(documentation: Dict<Value>)
    ensures Keys(BuildSearchIndex(documentation)) == Keys(documentation)
    ensures UniqueKeys(documentation) ==> UniqueKeys(BuildSearchIndex(documentation))
    ensures forall i :: 0 <= i < |documentation| && documentation[i].value.Obj? ==>
          BuildSearchIndex(documentation)[i].value == Repr(documentation[i].value)
  {
  }

  /**
   * Scoring one query word against a text: 1/|words of text| when the word occurs in the
   * text, 0 otherwise. Never a division by zero, since a query word is a word.
   */
  lemma QueryWordSimilarity(query: string, kw: string, text: string)
    requires kw in Split(Lower(query))
    ensures Similarity(kw, text) ==
      Ok(if kw in WordSet(text) then 1.0 / (|WordSet(text)| as real) else 0.0)
  {
    WordSetOfQueryWord(query, kw);
    var q, t := WordSet(kw), WordSet(text);
    assert q == {kw} && |q| == 1;
    if kw in t {
      assert q * t == {kw};
      assert |t| >= 1;
      assert Similarity(kw, text) == Ok(Fraction(1, |t|));
    } else {
      assert q * t == {};
      assert Similarity(kw, text) == Ok(0.0);
    }
  }

  /** 1/|words of text| when `text` shares a word with `query`, else 0. */
  function SharedWordScore(query: string, text: string): (r: real)
    ensures 0.0 <= r <= 1.0
  {
    var t := WordSet(text);
    if WordSet(query) * t != {} then
      SubsetCardinality(WordSet(query) * t, t);
      Fraction(1, |t|)
    else 0.0
  }

  lemma {:induction false} BestScoreOfWords(query: string, keywords: seq<string>, text: string)
    requires keywords != []
    requires forall w <- keywords :: w in Split(Lower(query))
    ensures BestScore(keywords, text) ==
      Ok(if exists w <- keywords :: w in WordSet(text) then 1.0 / (|WordSet(text)| as real) else 0.0)
  {
    var t := WordSet(text);
    var hit := if |t| == 0 then 0.0 else 1.0 / (|t| as real);
    forall w <- keywords ensures Similarity(w, text) == Ok(if w in t then hit else 0.0) {
      QueryWordSimilarity(query, w, text);
    }
    BestScoreOfHits(keywords, text, t, hit);
  }

  /** The maximum over keywords each scoring `hit` when in `hits` and 0 otherwise. */
  lemma {:induction false} BestScoreOfHits(keywords: seq<string>, text: string, hits: set<string>, hit: real)
    requires keywords != [] && hit >= 0.0
    requires forall w <- keywords :: Similarity(w, text) == Ok(if w in hits then hit else 0.0)
    ensures BestScore(keywords, text) == Ok(if exists w <- keywords :: w in hits then hit else 0.0)
  {
    assert keywords[0] in keywords;
    if |keywords| > 1 {
      var rest := keywords[1..];
      assert keywords == [keywords[0]] + rest;
      BestScoreOfHits(rest, text, hits, hit);
      assert (exists w <- keywords :: w in hits) <==> keywords[0] in hits || exists w <- rest :: w in hits;
    }
  }

  /**
   * The best score of a text against a whole query: 1/|words of text| when the text shares
   * any word with the query, 0 when it shares none; `max()` raises on a query without words.
   */
  lemma BestScoreOfQuery(query: string, text: string)
    ensures Split(Lower(query)) == [] ==> BestScore(Split(Lower(query)), text) == Err(MaxOfEmpty)
    ensures Split(Lower(query)) != [] ==>
      BestScore(Split(Lower(query)), text) == Ok(SharedWordScore(query, text))
  {
    var ks := Split(Lower(query));
    var t := WordSet(text);
    if ks != [] {
      BestScoreOfWords(query, ks, text);
      if exists w <- ks :: w in t {
        var w :| w in ks && w in t;
        assert w in WordSet(query) * t;
      }
      if WordSet(query) * t != {} {
        var w :| w in WordSet(query) * t;
        assert w in ks && w in t;
      }
    }
  }

  lemma EntryScoreOfQuery(query: string, entry: Entry<string>)
    requires Split(Lower(query)) != []
    ensures EntryScore(Split(Lower(query)), entry).Ok?
  {
    BestScoreOfQuery(query, entry.key);
    BestScoreOfQuery(query, entry.value);
  }

  lemma {:induction false} CandidatesOfQuery(index: Dict<string>, query: string, threshold: real)
    ensures Candidates(index, Split(Lower(query)), threshold).Err? <==>
      index != [] && Split(Lower(query)) == []
    ensures Candidates(index, Split(Lower(query)), threshold).Err? ==>
      Candidates(index, Split(Lower(query)), threshold).error == MaxOfEmpty
  {
    var ks := Split(Lower(query));
    if index != [] {
      var last := index[|index| - 1];
      CandidatesOfQuery(index[..|index| - 1], query, threshold);
      if ks != [] {
        EntryScoreOfQuery(query, last);
      } else {
        assert BestScore(ks, last.key) == Err(MaxOfEmpty);
      }
    }
  }

  /**
   * The local search raises exactly when the query has no words and the index is not
   * empty (`max()` of an empty sequence); it never divides by zero.
   */
  lemma LocalSearchRaisesIffQueryHasNoWords(index: Dict<string>, query: string, threshold: real, maxResults: int)
    ensures LocalSearchResult(index, query, threshold, maxResults).Err? <==>
      index != [] && Split(Lower(query)) == []
    ensures LocalSearchResult(index, query, threshold, maxResults).Err? ==>
      LocalSearchResult(index, query, threshold, maxResults).error == MaxOfEmpty
  {
    CandidatesOfQuery(index, query, threshold);
  }

  /** Every candidate comes from the index with its entry score, which reaches the threshold. */
  lemma {:induction false} CandidatesAreScoredEntries(index: Dict<string>, keywords: seq<string>, threshold: real)
    requires Candidates(index, keywords, threshold).Ok?
    ensures forall h <- Candidates(index, keywords, threshold).value ::
      h.score >= threshold && Entry(h.key, h.value) in index
      && EntryScore(keywords, Entry(h.key, h.value)) == Ok(h.score)
    ensures |Candidates(index, keywords, threshold).value| <= |index|
  {
    if index != [] {
      var n := |index| - 1;
      var prefix := index[..n];
      assert index[..n + 1] == index;
      assert Candidates(prefix, keywords, threshold).Ok?;
      var kept := Candidates(prefix, keywords, threshold).value;
      CandidatesAreScoredEntries(prefix, keywords, threshold);
      CandidatesStep(index, n, keywords, threshold, kept);
      assert forall e <- prefix :: e in index;
    }
  }

  /** An entry scoring at least the threshold is among the candidates. */
  lemma {:induction false} CandidatesKeepEveryScoringEntry(index: Dict<string>, keywords: seq<string>, threshold: real, i: nat, score: real)
    requires Candidates(index, keywords, threshold).Ok?
    requires i < |index| && EntryScore(keywords, index[i]) == Ok(score) && score >= threshold
    ensures Hit(index[i].key, index[i].value, score) in Candidates(index, keywords, threshold).value
  {
    var n := |index| - 1;
    assert index[..n + 1] == index;
    var prefix := index[..n];
    assert Candidates(prefix, keywords, threshold).Ok?;
    var kept := Candidates(prefix, keywords, threshold).value;
    CandidatesStep(index, n, keywords, threshold, kept);
    var all := Candidates(index, keywords, threshold).value;
    var hit := Hit(index[i].key, index[i].value, score);
    if i < n {
      assert prefix[i] == index[i];
      CandidatesKeepEveryScoringEntry(prefix, keywords, threshold, i, score);
      assert hit in kept;
      assert all == kept || all == kept + [Hit(index[n].key, index[n].value, EntryScore(keywords, index[n]).value)];
    } else {
      assert i == n;
      assert EntryScore(keywords, index[n]) == Ok(score);
      assert Candidates(index[..n + 1], keywords, threshold) == Ok(kept + [hit]);
    }
  }

  /**
   * The local results: non-increasing scores, each at least `threshold` and taken from the
   * index with its entry score, and no more than `maxResults` of them.
   */
  lemma LocalResultsRanked(index: Dict<string>, query: string, threshold: real, maxResults: int)
    requires LocalSearchResult(index, query, threshold, maxResults).Ok?
    ensures var r := LocalSearchResult(index, query, threshold, maxResults).value;
      && SortedDesc(r, Score)
      && (forall h <- r :: h.score >= threshold && Entry(h.key, h.value) in index
            && EntryScore(Split(Lower(query)), Entry(h.key, h.value)) == Ok(h.score))
      && (maxResults >= 0 ==> |r| <= maxResults)
      && |r| <= |index|
  {
    var ks := Split(Lower(query));
    assert Candidates(index, ks, threshold).Ok?;
    var kept := Candidates(index, ks, threshold).value;
    assert LocalSearchResult(index, query, threshold, maxResults).value == Top(kept, Score, maxResults);
    TopIsRanked(kept, Score, maxResults);
    CandidatesAreScoredEntries(index, ks, threshold);
  }

  /**
   * Ties keep index order: each run of equal scores in the results is a prefix of the
   * candidates with that score, which are in index order.
   */
  lemma LocalResultsKeepTieOrder(index: Dict<string>, query: string, threshold: real, maxResults: int, c: real)
    requires LocalSearchResult(index, query, threshold, maxResults).Ok?
    ensures Candidates(index, Split(Lower(query)), threshold).Ok?
    ensures var r := LocalSearchResult(index, query, threshold, maxResults).value;
      var kept := Candidates(index, Split(Lower(query)), threshold).value;
      |Tie(r, Score, c)| <= |Tie(kept, Score, c)| && Tie(r, Score, c) == Tie(kept, Score, c)[..|Tie(r, Score, c)|]
  {
    TopKeepsTieOrder(Candidates(index, Split(Lower(query)), threshold).value, Score, maxResults, c);
  }

  /** Truncation drops only candidates that score no higher than every kept result. */
  lemma LocalResultsAreTheBest(index: Dict<string>, query: string, threshold: real, maxResults: int, h: Hit, x: Hit)
    requires LocalSearchResult(index, query, threshold, maxResults).Ok?
    requires Candidates(index, Split(Lower(query)), threshold).Ok?
    requires h in multiset(Candidates(index, Split(Lower(query)), threshold).value)
                - multiset(LocalSearchResult(index, query, threshold, maxResults).value)
    requires x in LocalSearchResult(index, query, threshold, maxResults).value
    ensures h.score <= x.score
  {
    TopAreTheBest(Candidates(index, Split(Lower(query)), threshold).value, Score, maxResults, h, x);
  }

  /** The best score of a ranked list is its first score. */
  lemma {:induction false} MaxScoreOfRanked(hits: seq<Hit>)
    requires hits != [] && SortedDesc(hits, Score)
    ensures MaxScore(hits) == hits[0].score
  {
    if |hits| > 1 {
      MaxScoreOfRanked(hits[1..]);
    }
  }

  /** `force_mode='api'`: local search is skipped (even a query without words is fine). */
  lemma ForcedApiAlwaysAsksTheModel(kb: HybridKnowledgeBase, query: string)
    ensures kb.Route(query, Some("api")) ==
      Ok(Routing(ApiResults(ApiSearch(kb.client, kb.documentationJson, query)), Api))
  {
  }

  /**
   * `force_mode='local'`: the outcome is the local search's, whatever the client would
   * answer (so the client is never consulted), and the results are the local list even when
   * it is empty.
   */
  lemma ForcedLocalNeverAsksTheModel(kb: HybridKnowledgeBase, other: HybridKnowledgeBase, query: string)
    requires other.searchIndex == kb.searchIndex && other.similarityThreshold == kb.similarityThreshold
    requires other.maxLocalResults == kb.maxLocalResults
    ensures kb.Route(query, Some("local")) == other.Route(query, Some("local"))
    ensures kb.Route(query, Some("local")).Ok? ==>
      kb.Route(query, Some("local")).value ==
        Routing(LocalResults(LocalSearchResult(kb.searchIndex, query, kb.similarityThreshold, kb.maxLocalResults).value), Local)
  {
  }

  /**
   * No forced mode (or any value other than 'api' and 'local', such as 'remote'): the model
   * is asked iff the local list is empty or its best score is below `use_api_threshold`;
   * otherwise the results are exactly the local list.
   */
  lemma DefaultModePolicy(kb: HybridKnowledgeBase, query: string, forceMode: Option<string>)
    requires forceMode != Some("api") && forceMode != Some("local")
    requires LocalSearchResult(kb.searchIndex, query, kb.similarityThreshold, kb.maxLocalResults).Ok?
    ensures var local := LocalSearchResult(kb.searchIndex, query, kb.similarityThreshold, kb.maxLocalResults).value;
      var r := kb.Route(query, forceMode);
      && r.Ok?
      && (r.value.modeUsed == Api <==> local == [] || local[0].score < kb.useApiThreshold)
      && (r.value.modeUsed == Api ==> r.value.results == ApiResults(ApiSearch(kb.client, kb.documentationJson, query)))
      && (r.value.modeUsed == Local ==> r.value.results == LocalResults(local))
  {
    var local := LocalSearchResult(kb.searchIndex, query, kb.similarityThreshold, kb.maxLocalResults).value;
    if local != [] {
      LocalResultsRanked(kb.searchIndex, query, kb.similarityThreshold, kb.maxLocalResults);
      MaxScoreOfRanked(local);
    }
  }

  /** An empty document gives no local results, so without a forced mode the model is asked. */
  lemma EmptyDocumentAsksTheModel(kb: HybridKnowledgeBase, query: string)
    requires kb.Valid() && kb.documentation == []
    ensures kb.Route(query, None) ==
      Ok(Routing(ApiResults(ApiSearch(kb.client, kb.documentationJson, query)), Api))
  {
    assert kb.searchIndex == [];
    assert SortDesc([], Score) == [];
  }
}
