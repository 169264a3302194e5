/**
 * The model-agnostic hallucination tester (`TestadorLLM`). Its documentation search and
 * its similarity are left to be written, so here they are parameters: `infoExists` for
 * `_verificar_existencia_info` and `similarity` for `_calcular_similaridade`. The model
 * under test answers the case at position `i` with `replies(i)`.
 */
module GenericTester {
  import opened Wrappers
  import opened Text
  import opened Hallucination

  /** The one phrase taken as the model acknowledging the limit of the documentation. */
  const RefusalPhrase: string := "não encontrei essa informação" + " na documentação"

  /**
   * `_analisar_resposta`: without documentation, only the exact refusal phrase gives a
   * verdict (acknowledging the limit, 0.9); with documentation and a non-empty expected
   * answer, a similarity above 0.8 is correct with the similarity as confidence, anything
   * else a hallucination with 1 - similarity; every other case has no verdict and 0.0.
   */
  function Analyse(similarity: (string, string) -> real, response: string, infoExists: bool,
                   expected: Option<string>): (r: Analysis)
    ensures r.observations == []
    ensures r.kind == Some(LimitAcknowledged) <==> !infoExists && Contains(Lower(response), RefusalPhrase)
    ensures r.kind == Some(Correct) <==>
      infoExists && HasExpected(expected) && similarity(response, expected.value) > 0.8
    ensures r.kind == Some(Hallucination) <==>
      infoExists && HasExpected(expected) && similarity(response, expected.value) <= 0.8
    ensures r.kind.None? <==>
      (!infoExists && !Contains(Lower(response), RefusalPhrase)) || (infoExists && !HasExpected(expected))
    ensures r.kind == Some(LimitAcknowledged) ==> r.confidence == 0.9
    ensures r.kind == Some(Correct) ==> r.confidence == similarity(response, expected.value) > 0.8
    ensures r.kind == Some(Hallucination) ==> r.confidence == 1.0 - similarity(response, expected.value)
    ensures r.kind.None? ==> r.confidence == 0.0
  {
    if !infoExists && Contains(Lower(response), RefusalPhrase) then
      Analysis(Some(LimitAcknowledged), 0.9, [])
    else if infoExists && HasExpected(expected) then
      var sim := similarity(response, expected.value);
      if sim > 0.8 then Analysis(Some(Correct), sim, [])
      else Analysis(Some(Hallucination), 1.0 - sim, [])
    else Analysis(None, 0.0, [])
  }

  /** The detail recorded for a case the model answered with `response`. */
  function DetailOf(infoExists: string -> bool, similarity: (string, string) -> real, c: TestCase, response: string): Detail
  {
    Detail(c.question, response, Analyse(similarity, response, infoExists(c.question), c.expected), None)
  }

  /** The details of the first `k` cases: one per case, in order. */
  function Answered(infoExists: string -> bool, similarity: (string, string) -> real, cases: seq<TestCase>,
                    replies: nat -> string, k: nat): seq<Detail>
    requires k <= |cases|
  {
    if k == 0 then []
    else
      var i := k - 1;
      Answered(infoExists, similarity, cases, replies, i) + [DetailOf(infoExists, similarity, cases[i], replies(i))]
  }

  /**
   * `testar_alucinacoes(modelo, casos_teste)`: every case is asked, analysed and recorded,
   * and the counter of its verdict raised.
   */
  method TestHallucinations(infoExists: string -> bool, similarity: (string, string) -> real,
                            cases: seq<TestCase>, replies: nat -> string) returns (r: Summary)
    ensures r.total == |cases|
    ensures r.details == Answered(infoExists, similarity, cases, replies, |cases|)
    ensures CountersMatch(r)
  {
    r := Summary(|cases|, 0, 0, 0, []);
    for i := 0 to |cases|
      invariant r.total == |cases|
      invariant r.details == Answered(infoExists, similarity, cases, replies, i)
      invariant CountersMatch(r)
    {
      var response := replies(i);
      var analysis := Analyse(similarity, response, infoExists(cases[i].question), cases[i].expected);
      var detail := Detail(cases[i].question, response, analysis, None);
      CountAppend(r.details, detail, Hallucination);
      CountAppend(r.details, detail, Correct);
      CountAppend(r.details, detail, LimitAcknowledged);
      r := r.(details := r.details + [detail]);
      if analysis.kind == Some(Hallucination) {
        r := r.(hallucinations := r.hallucinations + 1);
      } else if analysis.kind == Some(Correct) {
        r := r.(correct := r.correct + 1);
      } else if analysis.kind == Some(LimitAcknowledged) {
        r := r.(limits := r.limits + 1);
      }
    }
  }

  /** Exactly one detail per case, in the order of the cases, carrying its question and answer. */
  lemma {:induction false} OneDetailPerCase(infoExists: string -> bool, similarity: (string, string) -> real,
                                            cases: seq<TestCase>, replies: nat -> string, k: nat)
    requires k <= |cases|
    ensures |Answered(infoExists, similarity, cases, replies, k)| == k
    ensures forall i :: 0 <= i < k ==>
      Answered(infoExists, similarity, cases, replies, k)[i] == DetailOf(infoExists, similarity, cases[i], replies(i))
  {
    if k > 0 {
      OneDetailPerCase(infoExists, similarity, cases, replies, k - 1);
    }
  }

  /** The counters of the summary add up to at most the number of cases. */
  lemma SummaryCountersBounded(infoExists: string -> bool, similarity: (string, string) -> real,
                               cases: seq<TestCase>, replies: nat -> string)
    ensures var d := Answered(infoExists, similarity, cases, replies, |cases|);
      Count(d, Hallucination) + Count(d, Correct) + Count(d, LimitAcknowledged) <= |d| == |cases|
  {
    OneDetailPerCase(infoExists, similarity, cases, replies, |cases|);
    CountsWithinDetails(Answered(infoExists, similarity, cases, replies, |cases|));
  }

  /** The search as written: its body is `pass`, so it returns `None`, which is falsy. */
  function SearchAsWritten(question: string): bool
  {
    false
  }

  /**
   * With the search as written, no answer is ever judged correct or a hallucination: every
   * verdict is acknowledging the limit or none at all.
   */
  lemma {:induction false} StubbedSearchNeverJudges(similarity: (string, string) -> real, cases: seq<TestCase>,
                                                   replies: nat -> string, k: nat)
    requires k <= |cases|
    ensures Count(Answered(SearchAsWritten, similarity, cases, replies, k), Hallucination) == 0
    ensures Count(Answered(SearchAsWritten, similarity, cases, replies, k), Correct) == 0
  {
    if k > 0 {
      var before := Answered(SearchAsWritten, similarity, cases, replies, k - 1);
      var d := DetailOf(SearchAsWritten, similarity, cases[k - 1], replies(k - 1));
      StubbedSearchNeverJudges(similarity, cases, replies, k - 1);
      assert d.analysis.kind != Some(Hallucination) && d.analysis.kind != Some(Correct);
      CountAppend(before, d, Hallucination);
      CountAppend(before, d, Correct);
    }
  }
}
