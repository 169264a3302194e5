/**
 * What the two hallucination testers share: the verdicts, one analysed answer, the test
 * cases, the `resultados` dictionary and its counters.
 */
module Hallucination {
  import opened Wrappers

  /** The verdicts `'alucinacao'`, `'correto'` and `'reconhecimento_limite'`. */
  datatype Kind = Hallucination | Correct | LimitAcknowledged

  /** `{'tipo': ..., 'confianca': ..., 'observacoes': [...]}`; a `tipo` left at `None` is `None` here. */
  datatype Analysis = Analysis(kind: Option<Kind>, confidence: real, observations: seq<string>)

  /** A test case: `caso['pergunta']` and `caso.get('resposta_esperada')`. */
  datatype TestCase = TestCase(question: string, expected: Option<string>)

  /** One entry of `detalhes_testes`; only the Claude tester stamps it with the time. */
  datatype Detail = Detail(question: string, response: string, analysis: Analysis, timestamp: Option<string>)

  /** The `resultados` dictionary: `total_testes`, the three counters and `detalhes_testes`. */
  datatype Summary = Summary(total: nat, hallucinations: nat, correct: nat, limits: nat, details: seq<Detail>)

  /** `resposta_esperada` is truthy: present and not the empty string. */
  predicate HasExpected(expected: Option<string>)
  {
    expected.Some? && expected.value != ""
  }

  /** The number of details whose verdict is `kind`. */
  function Count(details: seq<Detail>, kind: Kind): (n: nat)
    ensures n <= |details|
  {
    if details == [] then 0
    else Count(details[..|details| - 1], kind) + (if details[|details| - 1].analysis.kind == Some(kind) then 1 else 0)
  }

  /** The counters agree with the details. */
  predicate CountersMatch(s: Summary)
  {
    && s.hallucinations == Count(s.details, Hallucination)
    && s.correct == Count(s.details, Correct)
    && s.limits == Count(s.details, LimitAcknowledged)
  }

  /** Appending a detail raises the count of its own verdict by one and leaves the others. */
  lemma CountAppend(details: seq<Detail>, d: Detail, kind: Kind)
    ensures Count(details + [d], kind) == Count(details, kind) + (if d.analysis.kind == Some(kind) then 1 else 0)
  {
    var ds := details + [d];
    assert ds[..|ds| - 1] == details;
  }

  /** Each detail raises at most one counter, so the three together never exceed the details. */
  lemma {:induction false} CountsWithinDetails(details: seq<Detail>)
    ensures Count(details, Hallucination) + Count(details, Correct) + Count(details, LimitAcknowledged) <= |details|
  {
    if details != [] {
      CountsWithinDetails(details[..|details| - 1]);
    }
  }
}
