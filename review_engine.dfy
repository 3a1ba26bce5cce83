/** The review engine: retrieve guideline documents for a diff, join them
    into one context, ask the LLM client once, and turn its raw answer into
    a verdict. Retrieval, the LLM call and the JSON parser are collaborators
    passed in as functions. */
module ReviewEngine {
  import opened Strings
  import opened Outcomes
  import opened Json

  /** Placed between two retrieved documents. */
  const ContextSeparator: string := "\n\n"
  const UnknownRisk: string := "UNKNOWN"
  const NoSummary: string := "No summary provided."

  /** `ReviewResult`: the risk level and summary read from the LLM's
      answer, and the context the LLM was given. */
  datatype ReviewResult = ReviewResult(riskLevel: string, summary: string, usedContext: string)

  /** `name` is a field of the parsed answer holding a value other than JSON null. */
  predicate HasValue(node: Json, name: string) {
    node.Object? && name in node.fields && !node.fields[name].Null?
  }

  /** Step 3 of `process`: a parsed answer gives its `risk_level` and
      `summary` fields (with their defaults when absent or null); an answer
      that does not parse is kept whole as the summary of an UNKNOWN
      verdict. The context is passed through unchanged either way. */
  function Interpret(response: string, context: string, parse: string -> Option<Json>): (r: ReviewResult)
    ensures r.usedContext == context
    ensures parse(response).None? ==> r.riskLevel == UnknownRisk && r.summary == response
    ensures parse(response).Some? ==>
      var node := parse(response).value;
      && (!HasValue(node, "risk_level") ==> r.riskLevel == UnknownRisk)
      && (!HasValue(node, "summary") ==> r.summary == NoSummary)
      && (HasValue(node, "risk_level") && node.fields["risk_level"].Text? ==>
            r.riskLevel == node.fields["risk_level"].text)
      && (HasValue(node, "summary") && node.fields["summary"].Text? ==>
            r.summary == node.fields["summary"].text)
  {
    match parse(response)
    case None => ReviewResult(UnknownRisk, response, context)
    case Some(node) =>
      ReviewResult(AsText(Path(node, "risk_level"), UnknownRisk),
                   AsText(Path(node, "summary"), NoSummary),
                   context)
  }

  /** `process(diff)`: the only failures are the retriever's and the LLM
      client's, passed on unchanged; a successful run reports the joined
      documents as its context and interprets the LLM's answer to the
      diff and that context. */
  function Process(diff: string,
                   retrieve: string -> Result<seq<string>, Error>,
                   review: (string, string) -> Result<string, Error>,
                   parse: string -> Option<Json>): (r: Result<ReviewResult, Error>)
    ensures retrieve(diff).Failure? ==> r == Failure(retrieve(diff).error)
    ensures retrieve(diff).Success? ==>
      var context := Join(ContextSeparator, retrieve(diff).value);
      && (review(diff, context).Failure? ==> r == Failure(review(diff, context).error))
      && (review(diff, context).Success? ==>
            r == Success(Interpret(review(diff, context).value, context, parse)) && r.value.usedContext == context)
  {
    match retrieve(diff)
    case Failure(e) => Failure(e)
    case Success(docs) =>
      var context := Join(ContextSeparator, docs);
      match review(diff, context)
      case Failure(e) => Failure(e)
      case Success(response) => Success(Interpret(response, context, parse))
  }

  /** No documents give an empty context, one document is the context as
      it stands, and further documents follow "\n\n". */
  lemma ContextOfDocuments(docs: seq<string>, doc: string)
    ensures Join(ContextSeparator, []) == ""
    ensures Join(ContextSeparator, [doc]) == doc
    ensures |docs| > 0 ==> Join(ContextSeparator, docs + [doc]) == Join(ContextSeparator, docs) + "\n\n" + doc
  {
    if |docs| > 0 {
      JoinSnoc(ContextSeparator, docs, doc);
    }
  }

  /** The LLM is consulted at one point only, the original diff with the
      joined context: two LLM clients that agree there give the same
      outcome. */
  lemma ProcessAsksOnce(diff: string,
                        retrieve: string -> Result<seq<string>, Error>,
                        review1: (string, string) -> Result<string, Error>,
                        review2: (string, string) -> Result<string, Error>,
                        parse: string -> Option<Json>)
    requires retrieve(diff).Success? ==>
      var context := Join(ContextSeparator, retrieve(diff).value);
      review1(diff, context) == review2(diff, context)
    ensures Process(diff, retrieve, review1, parse) == Process(diff, retrieve, review2, parse)
  {
  }

  /** A parse failure never escapes: once the retriever and the LLM have
      answered, the run succeeds whatever the parser makes of the answer,
      and an unparsable answer survives verbatim as the summary. */
  lemma ParseFailureIsAbsorbed(diff: string,
                               retrieve: string -> Result<seq<string>, Error>,
                               review: (string, string) -> Result<string, Error>,
                               parse: string -> Option<Json>)
    requires retrieve(diff).Success?
    requires review(diff, Join(ContextSeparator, retrieve(diff).value)).Success?
    ensures var r := Process(diff, retrieve, review, parse);
            var response := review(diff, Join(ContextSeparator, retrieve(diff).value)).value;
            && r.Success?
            && (parse(response).None? ==> r.value == ReviewResult(UnknownRisk, response, r.value.usedContext))
  {
  }

  /** A present text field is reported as written: no case folding, and no
      check that the risk level is one of HIGH, MEDIUM or LOW. */
  lemma RiskTextIsVerbatim(response: string, context: string, parse: string -> Option<Json>,
                           risk: string, summary: string)
    requires parse(response) == Some(Object(map["risk_level" := Text(risk), "summary" := Text(summary)]))
    ensures Interpret(response, context, parse) == ReviewResult(risk, summary, context)
  {
  }

  /** An answer that parses but names neither field gets both defaults. */
  lemma EmptyVerdictGetsDefaults(response: string, context: string, parse: string -> Option<Json>)
    requires parse(response) == Some(Object(map[]))
    ensures Interpret(response, context, parse) == ReviewResult(UnknownRisk, NoSummary, context)
  {
  }
}
