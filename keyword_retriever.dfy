/** The keyword retriever: a fixed keyword test on the diff decides
    whether the one SQL-injection guideline of the knowledge base is
    handed to the reviewer. Example lemmas take their literal text as a
    parameter fixed by `requires`, so the solver works with one named term
    instead of re-expanding the literal. */
module KeywordRetriever {
  import opened Strings

  /** The knowledge-base entry the retriever can return. */
  const SqlGuideKey: string := "SQL_Injection_Prevention.md"

  /** `containsSqlInjectionKeywords`: on the lower-cased diff, one of
      "select", "insert", "update" occurs, and so does "+" or "concat".
      Lower-casing does not move a "+", so a match needs a "+" in the diff
      as written, or "concat" in some letter case. */
  function ContainsSqlInjectionKeywords(codeDiff: string): (found: bool)
    ensures found ==> Contains(codeDiff, "+") || Contains(ToLower(codeDiff), "concat")
  {
    LoweredContainsNonLetter(codeDiff, '+');
    var lowerDiff := ToLower(codeDiff);
    (Contains(lowerDiff, "select") || Contains(lowerDiff, "insert") || Contains(lowerDiff, "update"))
    && (Contains(lowerDiff, "+") || Contains(lowerDiff, "concat"))
  }

  /** `SimpleKeywordRetriever`. The knowledge base maps a document name to
      its text; a name mapped to null is absent from the map. The map is
      fixed at construction and only ever read. */
  class SimpleKeywordRetriever {
    const knowledgeBase: map<string, string>

    constructor (knowledgeBase: map<string, string>)
      ensures this.knowledgeBase == knowledgeBase
    {
      this.knowledgeBase := knowledgeBase;
    }

    /** `retrieve(codeDiff)`: at most one document, present exactly when the
        keyword test holds and the knowledge base has the SQL guideline,
        and then that guideline's text. */
    method Retrieve(codeDiff: string) returns (relevantDocs: seq<string>)
      ensures |relevantDocs| <= 1
      ensures relevantDocs != [] <==> ContainsSqlInjectionKeywords(codeDiff) && SqlGuideKey in knowledgeBase
      ensures relevantDocs != [] ==> relevantDocs == [knowledgeBase[SqlGuideKey]]
    {
      relevantDocs := [];
      if ContainsSqlInjectionKeywords(codeDiff) {
        if SqlGuideKey in knowledgeBase {
          var doc := knowledgeBase[SqlGuideKey];
          relevantDocs := relevantDocs + [doc];
        }
      }
    }
  }

  /** Without "+" and without "concat" in any letter case, no SQL keyword
      is enough: the test needs a sign of string concatenation. */
  lemma NoConcatenationNoMatch(codeDiff: string)
    requires !Contains(codeDiff, "+")
    requires !Contains(ToLower(codeDiff), "concat")
    ensures !ContainsSqlInjectionKeywords(codeDiff)
  {
    LoweredContainsNonLetter(codeDiff, '+');
  }

  /** The test ignores letter case: an upper-case keyword with a "+" matches. */
  lemma UpperCaseKeywordMatches(codeDiff: string)
    requires Contains(codeDiff, "SELECT") && Contains(codeDiff, "+")
    ensures ContainsSqlInjectionKeywords(codeDiff)
  {
    ContainsLowered(codeDiff, "SELECT");
    assert ToLower("SELECT") == "select";
    LoweredContainsNonLetter(codeDiff, '+');
  }

  /** A query assembled with "+" matches. */
  lemma ConcatenatedQueryMatches()
    ensures ContainsSqlInjectionKeywords("\"SELECT \" + id")
  {
    var query := "\"SELECT \" + id";
    assert query[1..7] == "SELECT" && query[10..11] == "+";
    ContainsAt(query, "SELECT", 1);
    ContainsAt(query, "+", 10);
    UpperCaseKeywordMatches(query);
  }

  /** The same query with a bind parameter in place of the concatenation
      does not match. */
  lemma BoundQueryDoesNotMatch()
    ensures !ContainsSqlInjectionKeywords("\"SELECT ?\"")
  {
    BoundQueryLacksConcatenation("\"SELECT ?\"");
    NoConcatenationNoMatch("\"SELECT ?\"");
  }

  lemma BoundQueryLacksConcatenation(query: string)
    requires query == "\"SELECT ?\""
    ensures !Contains(query, "+") && !Contains(ToLower(query), "concat")
  {
    assert forall k :: 0 <= k < |query| ==> query[k] != '+' && query[k] != 'n' && query[k] != 'N';
    NotContainsMissingChar(query, "+", 0);
    var lowered := ToLower(query);
    assert forall k :: 0 <= k < |lowered| ==> lowered[k] != 'n';
    NotContainsMissingChar(lowered, "concat", 2);
  }
}
