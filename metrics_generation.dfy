/**
 * The universal judge: it builds a fixed prompt from a (query, context,
 * answer) triple, clipping the context, and hands the prompt to a
 * structured-output client that returns a typed verdict or fails.
 */
module MetricsGeneration {
  import opened Wrappers

  /** Verdict on how far an answer is grounded in its context. No range is enforced on `score`. */
  datatype FaithfulnessResult = FaithfulnessResult(score: real, reasoning: string)

  /** Verdict on whether refusing to answer was the right behaviour. */
  datatype AbstentionResult = AbstentionResult(isCorrectRefusal: bool, reasoning: string)

  /** Whatever the client raises: provider failure or output that does not fit the schema. */
  datatype GenerationError = GenerationError(message: string)

  /** Raised when a provider and model name cannot be resolved to a client. */
  datatype ConstructionError = ConstructionError(message: string)

  /**
   * The structured-output client. `generate_structured(prompt, schema)` is a
   * foreign call; for each of the two schemas it is an opaque function from
   * the prompt to an instance of that schema or an error.
   */
  datatype LlmClient = LlmClient(
    generateFaithfulness: string -> Result<FaithfulnessResult, GenerationError>,
    generateAbstention: string -> Result<AbstentionResult, GenerationError>)

  /** The judge holds one client for its whole life and nothing else. */
  datatype UniversalJudge = UniversalJudge(llm: LlmClient)

  const FaithfulnessContextLimit: nat := 10000
  const AbstentionContextLimit: nat := 5000

  /**
   * Builds the judge from a provider and a model name; `connect` is the
   * client layer's resolution of the two, whose failure propagates.
   */
  function NewJudge(
    provider: string, modelName: string,
    connect: (string, string) -> Result<LlmClient, ConstructionError>
  ): (r: Result<UniversalJudge, ConstructionError>)
    ensures r.Success? <==> connect(provider, modelName).Success?
    ensures r.Success? ==> r.value.llm == connect(provider, modelName).value
    ensures r.Failure? ==> r.error == connect(provider, modelName).error
  {
    match connect(provider, modelName)
    case Success(client) => Success(UniversalJudge(client))
    case Failure(e) => Failure(e)
  }

  /** Python's `s[:n]` for `n >= 0`: the first `n` characters, or all of `s` when it is shorter. */
  function Clip(s: string, n: nat): (r: string)
    ensures |r| == if |s| <= n then |s| else n
    ensures r == s[..|r|]
    ensures |s| <= n ==> r == s
  {
    if |s| <= n then s else s[..n]
  }

  // The faithfulness template, split around its two holes.
  const FaithfulnessHeader: string := "\n        JUDGE TASK: Faithfulness\n        Context: \""
  const FaithfulnessMiddle: string := "\"\n        Generated Answer: \""
  const FaithfulnessFooter: string :=
    "\"\n\n        Does the Answer contain info NOT in Context? (1.0 = Fully Grounded, 0.0 = Hallucinated).\n        "

  // The abstention template, split around its three holes.
  const AbstentionHeader: string := "\n        JUDGE TASK: Abstention\n        User Question: "
  const AbstentionAfterQuery: string := "\n        Context (Irrelevant): \""
  const AbstentionMiddle: string := "\"\n        Generated Answer: \""
  const AbstentionFooter: string :=
    "\"\n\n        Did the model correctly refuse to answer? (True/False).\n        "

  /** The faithfulness prompt. The query is accepted and not used. */
  function FaithfulnessPrompt(query: string, context: string, answer: string): (prompt: string) {
    FaithfulnessHeader + Clip(context, FaithfulnessContextLimit) + FaithfulnessMiddle + answer + FaithfulnessFooter
  }

  /** The abstention prompt. */
  function AbstentionPrompt(query: string, context: string, answer: string): (prompt: string) {
    AbstentionHeader + query + AbstentionAfterQuery + Clip(context, AbstentionContextLimit)
      + AbstentionMiddle + answer + AbstentionFooter
  }

  /** `evaluate_faithfulness`: the client's verdict on the faithfulness prompt, returned as it is. */
  function EvaluateFaithfulness(judge: UniversalJudge, query: string, context: string, answer: string)
    : (r: Result<FaithfulnessResult, GenerationError>)
    ensures r == judge.llm.generateFaithfulness(FaithfulnessPrompt(query, context, answer))
  {
    judge.llm.generateFaithfulness(FaithfulnessPrompt(query, context, answer))
  }

  /** `evaluate_abstention`: the client's verdict on the abstention prompt, returned as it is. */
  function EvaluateAbstention(judge: UniversalJudge, query: string, context: string, answer: string)
    : (r: Result<AbstentionResult, GenerationError>)
    ensures r == judge.llm.generateAbstention(AbstentionPrompt(query, context, answer))
  {
    judge.llm.generateAbstention(AbstentionPrompt(query, context, answer))
  }

  /** Where each part of a five-part concatenation sits. */
  lemma FiveParts(h: string, x: string, m: string, y: string, f: string)
    ensures
      var p := h + x + m + y + f;
      var y0 := |h| + |x| + |m|;
      |p| == y0 + |y| + |f| &&
      p[..|h|] == h && p[|h|..|h| + |x|] == x && p[|h| + |x|..y0] == m &&
      p[y0..y0 + |y|] == y && p[y0 + |y|..] == f
  {
    var p := h + x + m + y + f;
    assert p == (h + x) + m + (y + f);
  }

  /** Where each part of a seven-part concatenation sits. */
  lemma SevenParts(h: string, q: string, n: string, x: string, m: string, y: string, f: string)
    ensures
      var p := h + q + n + x + m + y + f;
      var x0 := |h| + |q| + |n|;
      var y0 := x0 + |x| + |m|;
      |p| == y0 + |y| + |f| &&
      p[..|h|] == h && p[|h|..|h| + |q|] == q && p[|h| + |q|..x0] == n && p[x0..x0 + |x|] == x &&
      p[x0 + |x|..y0] == m && p[y0..y0 + |y|] == y && p[y0 + |y|..] == f
  {
    var p := h + q + n + x + m + y + f;
    assert p == (h + q) + n + (x + m + y + f);
    assert p == (h + q + n + x) + m + (y + f);
  }

  /** Two concatenations with a common head whose middle parts have equal length agree part by part. */
  lemma CancelAround(head: string, x1: string, x2: string, tail1: string, tail2: string)
    requires head + x1 + tail1 == head + x2 + tail2
    requires |x1| == |x2|
    ensures x1 == x2 && tail1 == tail2
  {
    var whole := head + x1 + tail1;
    assert x1 == whole[|head|..|head| + |x1|];
    assert x2 == (head + x2 + tail2)[|head|..|head| + |x2|];
    assert tail1 == whole[|head| + |x1|..];
    assert tail2 == (head + x2 + tail2)[|head| + |x2|..];
  }

  /** Two five-part concatenations that differ only in the second part are equal exactly when those parts are. */
  lemma SecondOfFive(h: string, x1: string, x2: string, m: string, y: string, f: string)
    ensures h + x1 + m + y + f == h + x2 + m + y + f <==> x1 == x2
  {
    var t := m + y + f;
    assert h + x1 + m + y + f == h + x1 + t;
    assert h + x2 + m + y + f == h + x2 + t;
    if h + x1 + t == h + x2 + t {
      CancelAround(h, x1, x2, t, t);
    }
  }

  /** Two five-part concatenations that differ only in the fourth part are equal exactly when those parts are. */
  lemma FourthOfFive(h: string, x: string, m: string, y1: string, y2: string, f: string)
    ensures h + x + m + y1 + f == h + x + m + y2 + f <==> y1 == y2
  {
    var pre := h + x + m;
    if pre + y1 + f == pre + y2 + f {
      CancelAround(pre, y1, y2, f, f);
    }
  }

  /** Two seven-part concatenations that differ only in the second part are equal exactly when those parts are. */
  lemma SecondOfSeven(h: string, q1: string, q2: string, n: string, x: string, m: string, y: string, f: string)
    ensures h + q1 + n + x + m + y + f == h + q2 + n + x + m + y + f <==> q1 == q2
  {
    var t := n + x + m + y + f;
    assert h + q1 + n + x + m + y + f == h + q1 + t;
    assert h + q2 + n + x + m + y + f == h + q2 + t;
    if h + q1 + t == h + q2 + t {
      CancelAround(h, q1, q2, t, t);
    }
  }

  /** Two seven-part concatenations that differ only in the fourth part are equal exactly when those parts are. */
  lemma FourthOfSeven(h: string, q: string, n: string, x1: string, x2: string, m: string, y: string, f: string)
    ensures h + q + n + x1 + m + y + f == h + q + n + x2 + m + y + f <==> x1 == x2
  {
    var pre := h + q + n;
    var t := m + y + f;
    assert h + q + n + x1 + m + y + f == pre + x1 + t;
    assert h + q + n + x2 + m + y + f == pre + x2 + t;
    if pre + x1 + t == pre + x2 + t {
      CancelAround(pre, x1, x2, t, t);
    }
  }

  /** Two seven-part concatenations that differ only in the sixth part are equal exactly when those parts are. */
  lemma SixthOfSeven(h: string, q: string, n: string, x: string, m: string, y1: string, y2: string, f: string)
    ensures h + q + n + x + m + y1 + f == h + q + n + x + m + y2 + f <==> y1 == y2
  {
    var pre := h + q + n + x + m;
    if pre + y1 + f == pre + y2 + f {
      CancelAround(pre, y1, y2, f, f);
    }
  }

  /**
   * Where things sit in the faithfulness prompt: the header, then the context
   * clipped to its first 10,000 characters, then the middle, then the whole
   * answer, then the footer.
   */
  lemma FaithfulnessPromptLayout(query: string, context: string, answer: string)
    ensures
      var p := FaithfulnessPrompt(query, context, answer);
      var k := if |context| <= FaithfulnessContextLimit then |context| else FaithfulnessContextLimit;
      var a0 := |FaithfulnessHeader| + k + |FaithfulnessMiddle|;
      |p| == a0 + |answer| + |FaithfulnessFooter| &&
      p[..|FaithfulnessHeader|] == FaithfulnessHeader &&
      p[|FaithfulnessHeader|..|FaithfulnessHeader| + k] == context[..k] &&
      p[|FaithfulnessHeader| + k..a0] == FaithfulnessMiddle &&
      p[a0..a0 + |answer|] == answer &&
      p[a0 + |answer|..] == FaithfulnessFooter
  {
    FiveParts(FaithfulnessHeader, Clip(context, FaithfulnessContextLimit), FaithfulnessMiddle, answer, FaithfulnessFooter);
  }

  /**
   * With the same answer, two calls build the same faithfulness prompt exactly
   * when their contexts agree on the first 10,000 characters, whatever the
   * two queries are.
   */
  lemma FaithfulnessPromptSameAnswer(query1: string, context1: string, query2: string, context2: string, answer: string)
    ensures FaithfulnessPrompt(query1, context1, answer) == FaithfulnessPrompt(query2, context2, answer)
        <==> Clip(context1, FaithfulnessContextLimit) == Clip(context2, FaithfulnessContextLimit)
  {
    SecondOfFive(FaithfulnessHeader, Clip(context1, FaithfulnessContextLimit), Clip(context2, FaithfulnessContextLimit),
      FaithfulnessMiddle, answer, FaithfulnessFooter);
  }

  /** With the same context, two calls build the same faithfulness prompt exactly when their answers are equal. */
  lemma FaithfulnessPromptSameContext(query1: string, query2: string, context: string, answer1: string, answer2: string)
    ensures FaithfulnessPrompt(query1, context, answer1) == FaithfulnessPrompt(query2, context, answer2)
        <==> answer1 == answer2
  {
    FourthOfFive(FaithfulnessHeader, Clip(context, FaithfulnessContextLimit), FaithfulnessMiddle,
      answer1, answer2, FaithfulnessFooter);
  }

  /** Characters of the context at index 10,000 and beyond never reach the faithfulness prompt. */
  lemma FaithfulnessPromptIgnoresBeyondLimit(query: string, context: string, extra: string, answer: string)
    requires |context| >= FaithfulnessContextLimit
    ensures FaithfulnessPrompt(query, context + extra, answer) == FaithfulnessPrompt(query, context, answer)
  {
    assert (context + extra)[..FaithfulnessContextLimit] == context[..FaithfulnessContextLimit];
  }

  /**
   * The quotes around the context and the answer do not delimit them: a
   * context and an answer holding the template's own middle text give the
   * same prompt as a different split of the same characters.
   */
  lemma FaithfulnessPromptAmbiguous(query: string)
    ensures exists context1: string, answer1: string, context2: string, answer2: string ::
      context1 != context2 && answer1 != answer2 &&
      FaithfulnessPrompt(query, context1, answer1) == FaithfulnessPrompt(query, context2, answer2)
  {
    var context1, answer1 := "", "x" + FaithfulnessMiddle + "y";
    var context2, answer2 := FaithfulnessMiddle + "x", "y";
    assert Clip(context1, FaithfulnessContextLimit) == context1;
    assert Clip(context2, FaithfulnessContextLimit) == context2;
    assert context1 + FaithfulnessMiddle + answer1 == context2 + FaithfulnessMiddle + answer2;
    assert FaithfulnessPrompt(query, context1, answer1) == FaithfulnessPrompt(query, context2, answer2);
  }

  /**
   * Where things sit in the abstention prompt: the header, the whole query,
   * the context clipped to its first 5,000 characters, and the whole answer,
   * separated by fixed text.
   */
  lemma AbstentionPromptLayout(query: string, context: string, answer: string)
    ensures
      var p := AbstentionPrompt(query, context, answer);
      var h := |AbstentionHeader|;
      var k := if |context| <= AbstentionContextLimit then |context| else AbstentionContextLimit;
      var c0 := h + |query| + |AbstentionAfterQuery|;
      var a0 := c0 + k + |AbstentionMiddle|;
      |p| == a0 + |answer| + |AbstentionFooter| &&
      p[..h] == AbstentionHeader &&
      p[h..h + |query|] == query &&
      p[h + |query|..c0] == AbstentionAfterQuery &&
      p[c0..c0 + k] == context[..k] &&
      p[c0 + k..a0] == AbstentionMiddle &&
      p[a0..a0 + |answer|] == answer &&
      p[a0 + |answer|..] == AbstentionFooter
  {
    SevenParts(AbstentionHeader, query, AbstentionAfterQuery, Clip(context, AbstentionContextLimit),
      AbstentionMiddle, answer, AbstentionFooter);
  }

  /** With the same context and answer, two calls build the same abstention prompt exactly when their queries are equal. */
  lemma AbstentionPromptSameContextAnswer(query1: string, query2: string, context: string, answer: string)
    ensures AbstentionPrompt(query1, context, answer) == AbstentionPrompt(query2, context, answer)
        <==> query1 == query2
  {
    SecondOfSeven(AbstentionHeader, query1, query2, AbstentionAfterQuery, Clip(context, AbstentionContextLimit),
      AbstentionMiddle, answer, AbstentionFooter);
  }

  /**
   * With the same query and answer, two calls build the same abstention
   * prompt exactly when their contexts agree on the first 5,000 characters.
   */
  lemma AbstentionPromptSameQueryAnswer(query: string, context1: string, context2: string, answer: string)
    ensures AbstentionPrompt(query, context1, answer) == AbstentionPrompt(query, context2, answer)
        <==> Clip(context1, AbstentionContextLimit) == Clip(context2, AbstentionContextLimit)
  {
    FourthOfSeven(AbstentionHeader, query, AbstentionAfterQuery, Clip(context1, AbstentionContextLimit),
      Clip(context2, AbstentionContextLimit), AbstentionMiddle, answer, AbstentionFooter);
  }

  /** With the same query and context, two calls build the same abstention prompt exactly when their answers are equal. */
  lemma AbstentionPromptSameQueryContext(query: string, context: string, answer1: string, answer2: string)
    ensures AbstentionPrompt(query, context, answer1) == AbstentionPrompt(query, context, answer2)
        <==> answer1 == answer2
  {
    SixthOfSeven(AbstentionHeader, query, AbstentionAfterQuery, Clip(context, AbstentionContextLimit),
      AbstentionMiddle, answer1, answer2, AbstentionFooter);
  }

  /** Characters of the context at index 5,000 and beyond never reach the abstention prompt. */
  lemma AbstentionPromptIgnoresBeyondLimit(query: string, context: string, extra: string, answer: string)
    requires |context| >= AbstentionContextLimit
    ensures AbstentionPrompt(query, context + extra, answer) == AbstentionPrompt(query, context, answer)
  {
    assert (context + extra)[..AbstentionContextLimit] == context[..AbstentionContextLimit];
  }

  /**
   * The judge neither checks nor clamps the score: for every score, in
   * [0, 1] or not, some client makes `evaluate_faithfulness` return it.
   */
  lemma FaithfulnessScoreNotClamped(query: string, context: string, answer: string, score: real, reasoning: string)
    ensures exists judge: UniversalJudge ::
      EvaluateFaithfulness(judge, query, context, answer) == Success(FaithfulnessResult(score, reasoning))
  {
    var verdict: Result<FaithfulnessResult, GenerationError> := Success(FaithfulnessResult(score, reasoning));
    var judge := UniversalJudge(LlmClient(p => verdict, p => Failure(GenerationError(""))));
    assert EvaluateFaithfulness(judge, query, context, answer) == verdict;
  }
}
