/** The command-line run: load the knowledge base, find the pull request,
    fetch its diff, review it, post the verdict as a comment, and set the
    exit code from the verdict's risk level. Every outside service is a
    collaborator passed in as a value or a function. Example lemmas take
    their literal text as a parameter fixed by `requires`, so the solver
    works with one named term instead of re-expanding the literal. */
module CheckRunner {
  import opened Strings
  import opened Outcomes
  import opened ReviewEngine

  // ----- the risk gate -----

  /** The verdicts that fail the check: HIGH or CRITICAL in any letter case. */
  function Blocks(riskLevel: string): (blocks: bool)
    ensures blocks ==> |riskLevel| == 4 || |riskLevel| == 8
  {
    EqualsIgnoreCase("HIGH", riskLevel) || EqualsIgnoreCase("CRITICAL", riskLevel)
  }

  /** The exit code a completed review ends with. */
  function ExitCodeFor(riskLevel: string): (code: int)
    ensures code == 1 <==> Blocks(riskLevel)
    ensures code == 0 <==> !Blocks(riskLevel)
  {
    if Blocks(riskLevel) then 1 else 0
  }

  /** The gate is a case-insensitive comparison against exactly two words. */
  lemma BlocksExactlyHighAndCritical(riskLevel: string)
    ensures Blocks(riskLevel) <==> ToUpper(riskLevel) == "HIGH" || ToUpper(riskLevel) == "CRITICAL"
  {
    EqualsIgnoreCaseByUpper("HIGH", riskLevel);
    EqualsIgnoreCaseByUpper("CRITICAL", riskLevel);
    UpperOfNoLowerCase("HIGH");
    UpperOfNoLowerCase("CRITICAL");
  }

  /** The gate fails open: a risk level of any length other than those of
      HIGH and CRITICAL lets the pull request through. */
  lemma FailsOpen(riskLevel: string)
    requires |riskLevel| != 4 && |riskLevel| != 8
    ensures ExitCodeFor(riskLevel) == 0
  {
  }

  /** LOW, MEDIUM, UNKNOWN and the empty verdict pass; High and critical block. */
  lemma GateTable()
    ensures ExitCodeFor("LOW") == 0 && ExitCodeFor("MEDIUM") == 0
    ensures ExitCodeFor("UNKNOWN") == 0 && ExitCodeFor("") == 0
    ensures ExitCodeFor("High") == 1 && ExitCodeFor("critical") == 1
  {
    FailsOpen("LOW");
    FailsOpen("MEDIUM");
    FailsOpen("UNKNOWN");
    FailsOpen("");
    HighBlocks("High");
    CriticalBlocks("critical");
  }

  lemma HighBlocks(riskLevel: string)
    requires riskLevel == "High"
    ensures Blocks(riskLevel)
  {
    assert ToLower(riskLevel) == ToLower("HIGH");
  }

  lemma CriticalBlocks(riskLevel: string)
    requires riskLevel == "critical"
    ensures Blocks(riskLevel)
  {
    assert ToLower(riskLevel) == ToLower("CRITICAL");
  }

  // ----- the comment -----

  /** The heading line; the siren emoji is one char here. */
  const Header: string := "### " + ['\U{1F6A8}'] + " SecuBot Security Review\n\n"
  const RiskLabel: string := "**Risk Level**: `"
  const RiskEnd: string := "`\n\n"
  const SummaryLabel: string := "**Summary**:\n"
  const SummaryEnd: string := "\n\n"
  const DetailsOpen: string := "<details><summary> Referenced Security Guidelines </summary>\n\n"
  const DetailsClose: string := "\n</details>"

  /** The comment for a verdict: heading, risk level, summary, and the
      guidelines used, in a collapsed section, when there were any. */
  function CommentBody(result: ReviewResult): string {
    var head := Header + RiskLabel + result.riskLevel + RiskEnd + SummaryLabel + result.summary + SummaryEnd;
    if result.usedContext != "" then head + DetailsOpen + result.usedContext + DetailsClose else head
  }

  /** `buildCommentBody`, appending piece by piece. */
  method BuildCommentBody(result: ReviewResult) returns (body: string)
    ensures body == CommentBody(result)
  {
    var sb := "";
    sb := sb + Header;
    assert sb == Header;
    sb := sb + RiskLabel;
    sb := sb + result.riskLevel;
    sb := sb + RiskEnd;
    sb := sb + SummaryLabel;
    sb := sb + result.summary;
    sb := sb + SummaryEnd;
    if result.usedContext != "" {
      sb := sb + DetailsOpen;
      sb := sb + result.usedContext;
      sb := sb + DetailsClose;
    }
    body := sb;
  }

  /** The comment opens with the heading and the risk level, quoted as
      reported, followed by the summary. */
  lemma CommentOpensWithVerdict(result: ReviewResult)
    ensures StartsWith(CommentBody(result), Header + RiskLabel + result.riskLevel + RiskEnd + SummaryLabel + result.summary)
  {
    var opening := Header + RiskLabel + result.riskLevel + RiskEnd + SummaryLabel + result.summary;
    var rest := if result.usedContext != "" then DetailsOpen + result.usedContext + DetailsClose else "";
    PrefixOfAppend(opening, SummaryEnd, rest);
  }

  lemma PrefixOfAppend(x: string, y: string, z: string)
    ensures StartsWith(x + y + z, x)
  {
    assert (x + y + z)[..|x|] == x;
  }

  /** The collapsed section is there exactly when guidelines were used,
      and then it holds them verbatim at the end of the comment. */
  lemma CommentDetailsIffContext(result: ReviewResult)
    ensures EndsWith(CommentBody(result), DetailsClose) <==> result.usedContext != ""
    ensures result.usedContext != "" ==> EndsWith(CommentBody(result), DetailsOpen + result.usedContext + DetailsClose)
    ensures result.usedContext == "" ==> EndsWith(CommentBody(result), result.summary + SummaryEnd)
  {
    var lead := Header + RiskLabel + result.riskLevel + RiskEnd + SummaryLabel;
    var head := lead + result.summary + SummaryEnd;
    if result.usedContext != "" {
      SectionAtEnd(head, DetailsOpen, result.usedContext, DetailsClose);
    } else {
      assert head == lead + (result.summary + SummaryEnd);
      EndsWithSuffix(lead, result.summary + SummaryEnd);
      LastCharDiffers(lead + result.summary, SummaryEnd, DetailsClose);
    }
  }

  lemma SectionAtEnd(head: string, open: string, section: string, close: string)
    ensures EndsWith(head + open + section + close, open + section + close)
    ensures EndsWith(head + open + section + close, close)
  {
    var body := head + open + section + close;
    assert body == head + (open + section + close);
    EndsWithSuffix(head, open + section + close);
    EndsWithSuffix(head + open + section, close);
  }

  lemma EndsWithSuffix(x: string, y: string)
    ensures EndsWith(x + y, y)
  {
    assert (x + y)[|x + y| - |y|..] == y;
  }

  /** A text ending in "\n\n" does not end in "\n</details>". */
  lemma LastCharDiffers(x: string, end: string, close: string)
    requires end == SummaryEnd && close == DetailsClose
    ensures !EndsWith(x + end, close)
  {
    var body := x + end;
    if |close| <= |body| {
      assert body[|body| - 1] == '\n';
      assert body[|body| - |close|..][|close| - 1] == body[|body| - 1];
      assert close[|close| - 1] == '>';
    }
  }

  // ----- the run -----

  /** The pull request URL: a non-empty `--pr-url`, or else the one read
      from the event file. */
  function ResolvePrUrl(prUrl: Option<string>, eventPrUrl: Option<string>): (url: Option<string>)
    ensures prUrl.Some? && prUrl.value != "" ==> url == prUrl
    ensures prUrl.None? || prUrl.value == "" ==> url == eventPrUrl
  {
    if prUrl.None? || prUrl.value == "" then eventPrUrl else prUrl
  }

  /** The outside effects of a run, in order. */
  datatype Effect =
    | LoadedKnowledgeBase
    | LookedUpEventUrl
    | FetchedDiff(prUrl: string)
    | Reviewed(diff: string)
    | PostedComment(prUrl: string, body: string)

  /** The effects of a run before any diff is fetched: the knowledge base
      is loaded, and the event URL is looked up when `--pr-url` is null
      or empty. */
  function Opening(prUrl: Option<string>): (effects: seq<Effect>)
    ensures |effects| > 0 && effects[0] == LoadedKnowledgeBase
    ensures LookedUpEventUrl in effects <==> prUrl.None? || prUrl.value == ""
  {
    [LoadedKnowledgeBase] + (if prUrl.None? || prUrl.value == "" then [LookedUpEventUrl] else [])
  }

  /** How `call` ends: with an exit code, or by throwing. */
  datatype RunOutcome = Exited(code: int) | Crashed(error: Error)

  /** `call()`. An IOException while loading the knowledge base ends the
      run with 1 before anything else; so does a pull request URL that
      cannot be found, before any diff is fetched. Otherwise the diff is
      fetched, reviewed, and the comment posted, and only then is the
      verdict gated; a collaborator that throws ends the run there. */
  method Call(prUrl: Option<string>,
              loadKnowledgeBase: Result<(), Error>,
              eventPrUrl: Option<string>,
              fetchDiff: string -> Result<string, Error>,
              process: string -> Result<ReviewResult, Error>,
              postComment: (string, string) -> Result<(), Error>)
    returns (outcome: RunOutcome, effects: seq<Effect>)
    ensures |effects| > 0 && effects[0] == LoadedKnowledgeBase
    ensures loadKnowledgeBase.Failure? ==>
      effects == [LoadedKnowledgeBase]
      && outcome == (if loadKnowledgeBase.error.IsIOException() then Exited(1) else Crashed(loadKnowledgeBase.error))
    ensures LookedUpEventUrl in effects <==> loadKnowledgeBase.Success? && (prUrl.None? || prUrl.value == "")
    ensures loadKnowledgeBase.Success? && ResolvePrUrl(prUrl, eventPrUrl).None? ==>
      outcome == Exited(1) && effects == Opening(prUrl) && |effects| == 2
    ensures forall e | e in effects && (e.FetchedDiff? || e.PostedComment?) ::
      Some(e.prUrl) == ResolvePrUrl(prUrl, eventPrUrl)
    ensures forall i | 0 <= i < |effects| && effects[i].PostedComment? :: i == |effects| - 1
    ensures loadKnowledgeBase.Success? && ResolvePrUrl(prUrl, eventPrUrl).Some? ==>
      var url := ResolvePrUrl(prUrl, eventPrUrl).value;
      fetchDiff(url).Failure? ==>
        && outcome == Crashed(fetchDiff(url).error)
        && effects == Opening(prUrl) + [FetchedDiff(url)]
        && effects[|effects| - 1] == FetchedDiff(url)
        && forall e | e in effects :: !e.PostedComment?
    ensures loadKnowledgeBase.Success? && ResolvePrUrl(prUrl, eventPrUrl).Some? ==>
      var url := ResolvePrUrl(prUrl, eventPrUrl).value;
      fetchDiff(url).Success? && process(fetchDiff(url).value).Failure? ==>
        && outcome == Crashed(process(fetchDiff(url).value).error)
        && effects == Opening(prUrl) + [FetchedDiff(url), Reviewed(fetchDiff(url).value)]
        && effects[|effects| - 1] == Reviewed(fetchDiff(url).value)
        && forall e | e in effects :: !e.PostedComment?
    ensures outcome == Exited(0) ==>
      exists verdict: ReviewResult :: !Blocks(verdict.riskLevel) && PostedComment(ResolvePrUrl(prUrl, eventPrUrl).value, CommentBody(verdict)) in effects
    ensures loadKnowledgeBase.Success? && ResolvePrUrl(prUrl, eventPrUrl).Some? ==>
      var url := ResolvePrUrl(prUrl, eventPrUrl).value;
      fetchDiff(url).Success? && process(fetchDiff(url).value).Success? ==>
        var verdict := process(fetchDiff(url).value).value;
        && effects == Opening(prUrl) + [FetchedDiff(url), Reviewed(fetchDiff(url).value), PostedComment(url, CommentBody(verdict))]
        && effects[|effects| - 1] == PostedComment(url, CommentBody(verdict))
        && (postComment(url, CommentBody(verdict)).Failure? ==> outcome == Crashed(postComment(url, CommentBody(verdict)).error))
        && (postComment(url, CommentBody(verdict)).Success? ==> outcome == Exited(ExitCodeFor(verdict.riskLevel)))
  {
    effects := [LoadedKnowledgeBase];
    if loadKnowledgeBase.Failure? {
      if loadKnowledgeBase.error.IsIOException() {
        return Exited(1), effects;
      }
      return Crashed(loadKnowledgeBase.error), effects;
    }

    var targetPrUrl := prUrl;
    if targetPrUrl.None? || targetPrUrl.value == "" {
      effects := effects + [LookedUpEventUrl];
      targetPrUrl := eventPrUrl;
    }
    assert effects == Opening(prUrl);
    if targetPrUrl.None? {
      return Exited(1), effects;
    }
    var url := targetPrUrl.value;

    effects := effects + [FetchedDiff(url)];
    var diff := fetchDiff(url);
    if diff.Failure? {
      return Crashed(diff.error), effects;
    }

    effects := effects + [Reviewed(diff.value)];
    var result := process(diff.value);
    if result.Failure? {
      return Crashed(result.error), effects;
    }

    var commentBody := BuildCommentBody(result.value);
    effects := effects + [PostedComment(url, commentBody)];
    var posted := postComment(url, commentBody);
    if posted.Failure? {
      return Crashed(posted.error), effects;
    }

    if Blocks(result.value.riskLevel) {
      return Exited(1), effects;
    }
    return Exited(0), effects;
  }
}
