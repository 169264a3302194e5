/**
 * The Claude hallucination tester (`TestadorClaudeFiscal`): it asks the model each test
 * question, checks by keywords whether the reference documentation covers the question,
 * classifies the answer, counts the verdicts and writes a report. The API call is an
 * oracle: for the case at position `i`, `replies(i)` is the answer text, or `None` when
 * the call raised. The clock and the `:.2f` number formatting are parameters.
 */
module ClaudeTester {
  import opened Wrappers
  import opened Text
  import opened Hallucination

  /** A topic of the documentation: optional `palavras_chave` and `conteudo`. */
  datatype Topic = Topic(keywords: Option<seq<string>>, content: Option<string>)

  /** A category: the values of its `topicos`, in order. */
  datatype Category = Category(topics: seq<Topic>)

  /** The documentation: the values of `documentacao['categorias']`, in order. */
  type Documentation = seq<Category>

  /*
   * Word similarity
   */

  /** The Jaccard index |A ∩ B| / |A ∪ B| of two word sets, and 0 when both are empty. */
  function Jaccard(a: set<string>, b: set<string>): (r: real)
    ensures 0.0 <= r <= 1.0
    ensures r == 0.0 <==> a * b == {}
    ensures r == 1.0 <==> a == b != {}
  {
    SubsetCardinality(a * b, a + b);
    if a + b == {} then 0.0
    else
      IntersectionFillsUnion(a, b);
      FractionOne(|a * b|, |a + b|);
      Fraction(|a * b|, |a + b|)
  }

  lemma FractionOne(a: nat, m: nat)
    requires a <= m && m > 0
    ensures Fraction(a, m) == 1.0 <==> a == m
  {
    if Fraction(a, m) == 1.0 {
      assert a as real == m as real * Fraction(a, m);
    }
  }

  /**
   * `_calcular_similaridade`: the Jaccard index of the two lower-cased word sets. It lies
   * in [0, 1], is 0 exactly when no word is shared and 1 exactly when the word sets agree.
   */
  function WordSimilarity(text1: string, text2: string): (r: real)
    ensures 0.0 <= r <= 1.0
    ensures r == 0.0 <==> WordSet(text1) * WordSet(text2) == {}
    ensures r == 1.0 <==> WordSet(text1) == WordSet(text2) != {}
  {
    Jaccard(WordSet(text1), WordSet(text2))
  }

  /** The intersection is as large as the union only when the two sets are equal. */
  lemma IntersectionFillsUnion(a: set<string>, b: set<string>)
    ensures |a * b| == |a + b| <==> a == b
  {
    var rest := (a + b) - (a * b);
    assert a + b == (a * b) + rest;
    assert |a + b| == |a * b| + |rest|;
    if a != b {
      var x :| x in a + b && !(x in a && x in b);
      assert x in rest;
    }
  }

  /** The similarity does not depend on the order of the texts. */
  lemma WordSimilaritySymmetric(text1: string, text2: string)
    ensures WordSimilarity(text1, text2) == WordSimilarity(text2, text1)
  {
    var a, b := WordSet(text1), WordSet(text2);
    assert a * b == b * a && a + b == b + a;
    assert Jaccard(a, b) == Jaccard(b, a);
  }

  /*
   * Does the documentation cover the question?
   */

  /** Line 108: some keyword of the topic, lower-cased, is a word of the question. */
  predicate KeywordHit(topic: Topic, questionWords: set<string>)
  {
    topic.keywords.Some? && exists kw <- topic.keywords.value :: Lower(kw) in questionWords
  }

  /** Line 114: the topic's content shares more than two words with the question. */
  predicate ContentHit(topic: Topic, questionWords: set<string>)
  {
    topic.content.Some? && |questionWords * WordSet(topic.content.value)| > 2
  }

  /** The keyword loop, returning at the first keyword that is a question word. */
  function SearchKeywords(keywords: seq<string>, questionWords: set<string>): (r: bool)
    ensures r <==> exists kw <- keywords :: Lower(kw) in questionWords
  {
    if keywords == [] then false
    else if Lower(keywords[0]) in questionWords then
      assert keywords[0] in keywords;
      true
    else
      var r := SearchKeywords(keywords[1..], questionWords);
      assert forall kw <- keywords :: kw == keywords[0] || kw in keywords[1..];
      assert forall kw <- keywords[1..] :: kw in keywords;
      r
  }

  /** The topic loop: keywords first, then content, returning at the first hit. */
  function SearchTopics(topics: seq<Topic>, questionWords: set<string>): (r: bool)
    ensures r <==> exists t <- topics :: KeywordHit(t, questionWords) || ContentHit(t, questionWords)
  {
    if topics == [] then false
    else
      var t := topics[0];
      if t.keywords.Some? && SearchKeywords(t.keywords.value, questionWords) then
        assert t in topics && KeywordHit(t, questionWords);
        true
      else if t.content.Some? && |questionWords * WordSet(t.content.value)| > 2 then
        assert t in topics && ContentHit(t, questionWords);
        true
      else
        var r := SearchTopics(topics[1..], questionWords);
        assert forall u <- topics :: u == t || u in topics[1..];
        assert forall u <- topics[1..] :: u in topics;
        r
  }

  /** The category loop. */
  function SearchCategories(categories: seq<Category>, questionWords: set<string>): (r: bool)
    ensures r <==> exists c <- categories, t <- c.topics :: KeywordHit(t, questionWords) || ContentHit(t, questionWords)
  {
    if categories == [] then false
    else if SearchTopics(categories[0].topics, questionWords) then true
    else
      var r := SearchCategories(categories[1..], questionWords);
      assert forall c <- categories :: c == categories[0] || c in categories[1..];
      assert forall c <- categories[1..] :: c in categories;
      r
  }

  /**
   * `_verificar_existencia_info`: true exactly when some topic has a keyword that is a
   * question word or content sharing more than two words with the question.
   */
  function InfoExists(doc: Documentation, question: string): (r: bool)
    ensures r <==> exists c <- doc, t <- c.topics ::
      KeywordHit(t, WordSet(question)) || ContentHit(t, WordSet(question))
  {
    SearchCategories(doc, WordSet(question))
  }

  /**
   * A keyword holding a space can never be a question word, so only its topic's content can
   * make the question count as documented.
   */
  lemma SpacedKeywordNeverHits(question: string, kw: string, i: nat)
    requires i < |kw| && IsSpace(kw[i])
    ensures Lower(kw) !in WordSet(question)
  {
    assert LowerChar(kw[i]) == kw[i];
    assert Lower(kw)[i] == kw[i];
  }

  /*
   * Classifying an answer
   */

  /** The phrases that show the model admitting the documentation does not cover the question. */
  const RefusalPhrases: seq<string> := [
    "não encontrei essa informação",
    "não consta na documentação",
    "não possui essa informação",
    "não está documentado"
  ]

  /** Some refusal phrase occurs in the lower-cased answer. */
  predicate Refuses(response: string)
  {
    exists phrase <- RefusalPhrases :: Contains(Lower(response), phrase)
  }

  /**
   * `_analisar_resposta`. Without documentation, a refusal is acknowledging the limit
   * (0.9) and anything else a hallucination (0.8). With documentation and a non-empty
   * expected answer, a similarity above 0.8 is correct, with the similarity as confidence,
   * and otherwise a hallucination with confidence 1 - similarity. With documentation and
   * no expected answer there is no verdict.
   */
  function Analyse(response: string, infoExists: bool, expected: Option<string>): (r: Analysis)
    ensures 0.0 <= r.confidence <= 1.0
    ensures r.kind == Some(LimitAcknowledged) <==> !infoExists && Refuses(response)
    ensures r.kind == Some(Correct) <==>
      infoExists && HasExpected(expected) && WordSimilarity(response, expected.value) > 0.8
    ensures r.kind == Some(Hallucination) <==>
      || (!infoExists && !Refuses(response))
      || (infoExists && HasExpected(expected) && WordSimilarity(response, expected.value) <= 0.8)
    ensures r.kind.None? <==> infoExists && !HasExpected(expected)
    ensures !infoExists ==> r.confidence == (if Refuses(response) then 0.9 else 0.8)
    ensures infoExists && HasExpected(expected) ==>
      var sim := WordSimilarity(response, expected.value);
      r.confidence == (if sim > 0.8 then sim else 1.0 - sim)
    ensures r.kind == Some(Correct) ==> r.confidence > 0.8
    ensures r.kind.None? ==> r.confidence == 0.0 && r.observations == []
    ensures r.kind.Some? ==> |r.observations| == 1
  {
    if !infoExists then
      if Refuses(response) then
        Analysis(Some(LimitAcknowledged), 0.9, ["Modelo reconheceu corretamente a ausência de informação"])
      else
        Analysis(Some(Hallucination), 0.8, ["Modelo forneceu informação não presente na documentação"])
    else if HasExpected(expected) then
      var sim := WordSimilarity(response, expected.value);
      if sim > 0.8 then Analysis(Some(Correct), sim, ["Resposta alinhada com a documentação"])
      else Analysis(Some(Hallucination), 1.0 - sim, ["Resposta diverge da documentação"])
    else Analysis(None, 0.0, [])
  }

  /*
   * The test loop
   */

  /** The detail recorded for a case whose question the model answered with `response`. */
  function DetailOf(doc: Documentation, c: TestCase, response: string, stamp: string): Detail
  {
    Detail(c.question, response, Analyse(response, InfoExists(doc, c.question), c.expected), Some(stamp))
  }

  /** The details the first `k` cases record: one per case the API answered, in order. */
  function Recorded(doc: Documentation, cases: seq<TestCase>, replies: nat -> Option<string>,
                    clock: nat -> string, k: nat): seq<Detail>
    requires k <= |cases|
  {
    if k == 0 then []
    else
      var i := k - 1;
      Recorded(doc, cases, replies, clock, i)
        + (if replies(i).Some? then [DetailOf(doc, cases[i], replies(i).value, clock(i))] else [])
  }

  /**
   * `testar_alucinacoes`: `total_testes` is the number of cases; a case whose API call
   * raises is skipped; every other case records its detail and raises the counter of its
   * verdict.
   */
  method TestHallucinations(doc: Documentation, cases: seq<TestCase>, replies: nat -> Option<string>,
                            clock: nat -> string) returns (r: Summary)
    ensures r.total == |cases|
    ensures r.details == Recorded(doc, cases, replies, clock, |cases|)
    ensures CountersMatch(r)
  {
    r := Summary(|cases|, 0, 0, 0, []);
    for i := 0 to |cases|
      invariant r.total == |cases|
      invariant r.details == Recorded(doc, cases, replies, clock, i)
      invariant CountersMatch(r)
    {
      var reply := replies(i);
      if reply.None? {
        continue;
      }
      var response := reply.value;
      var infoExists := InfoExists(doc, cases[i].question);
      var analysis := Analyse(response, infoExists, cases[i].expected);
      var detail := Detail(cases[i].question, response, analysis, Some(clock(i)));
      CountAppend(r.details, detail, Hallucination);
      CountAppend(r.details, detail, Correct);
      CountAppend(r.details, detail, LimitAcknowledged);
      r := r.(details := r.details + [detail]);
      if analysis.kind == Some(Hallucination) {
        r := r.(hallucinations := r.hallucinations + 1);
      } else if analysis.kind == Some(Correct) {
        r := r.(correct := r.correct + 1);
      } else if analysis.kind == Some(LimitAcknowledged) {
        r := r.(limits := r.limits + 1);
      }
    }
  }

  /**
   * There is at most one detail per case, and exactly one per case only when every API call
   * answered.
   */
  lemma {:induction false} RecordedAtMostCases(doc: Documentation, cases: seq<TestCase>,
                                               replies: nat -> Option<string>, clock: nat -> string, k: nat)
    requires k <= |cases|
    ensures |Recorded(doc, cases, replies, clock, k)| <= k
    ensures |Recorded(doc, cases, replies, clock, k)| == k <==> forall i :: 0 <= i < k ==> replies(i).Some?
  {
    if k > 0 {
      RecordedAtMostCases(doc, cases, replies, clock, k - 1);
      var prev := Recorded(doc, cases, replies, clock, k - 1);
      assert |Recorded(doc, cases, replies, clock, k)| == |prev| + (if replies(k - 1).Some? then 1 else 0);
      if |Recorded(doc, cases, replies, clock, k)| == k {
        forall i | 0 <= i < k ensures replies(i).Some? {
          if i < k - 1 {
            assert |prev| == k - 1;
          }
        }
      }
    }
  }

  /** Every detail is the analysis of a case the API answered, stamped with that case's time. */
  lemma {:induction false} EveryDetailIsAnAnsweredCase(doc: Documentation, cases: seq<TestCase>,
                                                       replies: nat -> Option<string>, clock: nat -> string,
                                                       k: nat, j: nat)
    requires k <= |cases|
    requires j < |Recorded(doc, cases, replies, clock, k)|
    ensures exists i :: && 0 <= i < k && replies(i).Some?
                        && Recorded(doc, cases, replies, clock, k)[j] == DetailOf(doc, cases[i], replies(i).value, clock(i))
  {
    var prev := Recorded(doc, cases, replies, clock, k - 1);
    if j < |prev| {
      EveryDetailIsAnAnsweredCase(doc, cases, replies, clock, k - 1, j);
    } else {
      assert replies(k - 1).Some?;
    }
  }

  /** In the summary, the counters add up to at most the details, which are at most the cases. */
  lemma SummaryCountersBounded(doc: Documentation, cases: seq<TestCase>, replies: nat -> Option<string>,
                               clock: nat -> string)
    ensures var d := Recorded(doc, cases, replies, clock, |cases|);
      Count(d, Hallucination) + Count(d, Correct) + Count(d, LimitAcknowledged) <= |d| <= |cases|
  {
    RecordedAtMostCases(doc, cases, replies, clock, |cases|);
    CountsWithinDetails(Recorded(doc, cases, replies, clock, |cases|));
  }

  /*
   * The report
   */

  /** `gerar_relatorio` divides by `total_testes`, which raises ZeroDivisionError when it is 0. */
  datatype ReportError = DivisionByZero

  /** A new line of the report, indented as in the template. */
  const Indent: string := "\n        "

  /** `str(tipo)` */
  function KindName(kind: Option<Kind>): string
  {
    match kind
    case None => "None"
    case Some(Hallucination) => "alucinacao"
    case Some(Correct) => "correto"
    case Some(LimitAcknowledged) => "reconhecimento_limite"
  }

  /** `count / total_testes * 100` */
  function Rate(count: nat, total: nat): (r: real)
    requires total > 0
  {
    count as real / total as real * 100.0
  }

  /** The report's opening lines: the time, the number of tests and the three rates. */
  function Header(s: Summary, now: string, fixed2: real -> string): string
    requires s.total > 0
  {
    Indent + "RELATÓRIO DE TESTES - " + now + "\n"
      + Indent + "Total de testes realizados: " + NatToString(s.total)
      + Indent + "Taxa de acerto: " + fixed2(Rate(s.correct, s.total)) + "%"
      + Indent + "Taxa de alucinações: " + fixed2(Rate(s.hallucinations, s.total)) + "%"
      + Indent + "Taxa de reconhecimento " + "de limites: " + fixed2(Rate(s.limits, s.total)) + "%"
      + "\n" + Indent + "DETALHES DOS TESTES:" + Indent
  }

  /** The block of test number `n`. */
  function Block(n: nat, d: Detail, fixed2: real -> string): string
  {
    Indent + "Teste #" + NatToString(n) + ":"
      + Indent + "Pergunta: " + d.question
      + Indent + "Tipo de resultado: " + KindName(d.analysis.kind)
      + Indent + "Confiança: " + fixed2(d.analysis.confidence)
      + Indent + "Observações: " + Join(", ", d.analysis.observations)
      + "\n" + Indent
  }

  /** The blocks of `details`, test number `first + i` for the detail at position `i`. */
  function Blocks(details: seq<Detail>, first: nat, fixed2: real -> string): (r: seq<string>)
    ensures |r| == |details|
  {
    Numbered(details, first, (n, d) => Block(n, d, fixed2))
  }

  /** `f(first + i, xs[i])` for every position `i` of `xs`. */
  function Numbered<T>(xs: seq<T>, first: nat, f: (nat, T) -> string): (r: seq<string>)
    ensures |r| == |xs|
  {
    seq(|xs|, i requires 0 <= i < |xs| => f(first + i, xs[i]))
  }

  lemma NumberedSplit<T>(xs: seq<T>, i: nat, f: (nat, T) -> string)
    requires i <= |xs|
    ensures Numbered(xs, 1, f) == Numbered(xs[..i], 1, f) + Numbered(xs[i..], i + 1, f)
  {
    var b, l, h := Numbered(xs, 1, f), Numbered(xs[..i], 1, f), Numbered(xs[i..], i + 1, f);
    forall j | 0 <= j < |b| ensures b[j] == (l + h)[j] {
      if j < i {
        assert xs[..i][j] == xs[j];
      } else {
        assert xs[i..][j - i] == xs[j];
      }
    }
    assert b == l + h;
  }

  /** The detail at position `i` appears as test number `i + 1`, after those before it. */
  lemma BlocksNumberedInOrder(details: seq<Detail>, i: nat, fixed2: real -> string)
    requires i < |details|
    ensures Blocks(details, 1, fixed2)[i] == Block(i + 1, details[i], fixed2)
    ensures Blocks(details, 1, fixed2) == Blocks(details[..i], 1, fixed2) + Blocks(details[i..], i + 1, fixed2)
  {
    NumberedSplit(details, i, (n, d) => Block(n, d, fixed2));
  }

  /**
   * `gerar_relatorio`: the header, then the numbered blocks of the details in order; an
   * empty set of tests raises instead.
   */
  method GenerateReport(s: Summary, now: string, fixed2: real -> string) returns (r: Result<string, ReportError>)
    ensures r.Err? <==> s.total == 0
    ensures r.Ok? ==> r.value == Header(s, now, fixed2) + Join("", Blocks(s.details, 1, fixed2))
  {
    if s.total == 0 {
      return Err(DivisionByZero);
    }
    var header := Header(s, now, fixed2);
    var details := s.details;
    var report := header;
    for i := 0 to |details|
      invariant report == header + Join("", Blocks(details[..i], 1, fixed2))
    {
      ReportGrows(header, report, details, i, fixed2);
      report := report + Block(i + 1, details[i], fixed2);
    }
    assert details[..|details|] == details;
    return Ok(report);
  }

  /** Appending the next block to the text so far gives the text of one more detail. */
  lemma ReportGrows(header: string, report: string, details: seq<Detail>, i: nat, fixed2: real -> string)
    requires i < |details|
    requires report == header + Join("", Blocks(details[..i], 1, fixed2))
    ensures report + Block(i + 1, details[i], fixed2) == header + Join("", Blocks(details[..i + 1], 1, fixed2))
  {
    BlocksStep(details, i, fixed2);
    JoinGrows(header, report, Blocks(details[..i], 1, fixed2), Block(i + 1, details[i], fixed2));
  }

  lemma BlocksStep(details: seq<Detail>, i: nat, fixed2: real -> string)
    requires i < |details|
    ensures Blocks(details[..i + 1], 1, fixed2) == Blocks(details[..i], 1, fixed2) + [Block(i + 1, details[i], fixed2)]
  {
  }

  lemma JoinGrows(header: string, report: string, before: seq<string>, block: string)
    requires report == header + Join("", before)
    ensures report + block == header + Join("", before + [block])
  {
    JoinAppend("", before, block);
    assert Join("", before) + "" == Join("", before);
  }

  /** The three rates of a tester's summary add up to at most 100 percent. */
  lemma RatesWithinHundred(doc: Documentation, cases: seq<TestCase>, replies: nat -> Option<string>,
                           clock: nat -> string, s: Summary)
    requires s.total == |cases| > 0
    requires s.details == Recorded(doc, cases, replies, clock, |cases|) && CountersMatch(s)
    ensures 0.0 <= Rate(s.correct, s.total) + Rate(s.hallucinations, s.total) + Rate(s.limits, s.total) <= 100.0
  {
    SummaryCountersBounded(doc, cases, replies, clock);
    RateSum(s.correct, s.hallucinations, s.limits, s.total);
  }

  lemma RateSum(a: nat, b: nat, c: nat, total: nat)
    requires 0 < total && a + b + c <= total
    ensures 0.0 <= Rate(a, total) + Rate(b, total) + Rate(c, total) <= 100.0
  {
    var t := total as real;
    DivAdd(a as real, b as real, t);
    DivAdd((a + b) as real, c as real, t);
    var q := Fraction(a + b + c, total);
  }

  lemma DivAdd(x: real, y: real, t: real)
    requires t > 0.0
    ensures x / t + y / t == (x + y) / t
  {
  }
}
