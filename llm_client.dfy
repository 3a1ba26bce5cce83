/** The internal LLM client: the `mock` endpoint's keyword reviewer, the
    prompt sent to a Gemini-style endpoint, and the clean-up of the model's
    text (markdown fences, surrounding blanks) before it is handed back.
    The HTTP exchange and the reading of the endpoint's JSON reply are
    collaborators passed in as functions. */
module LlmClient {
  import opened Strings
  import opened Outcomes
  import opened Http

  // ----- markdown fence stripping -----

  const JsonFence: string := "```json"
  const Fence: string := "```"

  /** How many leading chars the cleaner drops. */
  function OpeningFenceLength(text: string): (n: nat)
    ensures n <= |text|
  {
    if StartsWith(text, JsonFence) then 7
    else if StartsWith(text, Fence) then 3
    else 0
  }

  /** A "```json" fence is recognised before a bare "```" one, and exactly
      its 7 (or 3) chars go; anything else, blanks in front of a fence
      included, loses nothing at the front. */
  lemma OpeningFenceRule(text: string)
    ensures OpeningFenceLength(text) == 7 <==> StartsWith(text, JsonFence)
    ensures OpeningFenceLength(text) == 3 <==> StartsWith(text, Fence) && !StartsWith(text, JsonFence)
    ensures OpeningFenceLength(text) == 0 <==> !StartsWith(text, Fence)
  {
    if StartsWith(text, JsonFence) {
      assert text[..3] == text[..7][..3];
    }
  }

  /** How many trailing chars the cleaner drops: a closing "```" is looked
      for only in what is left once the opening fence is gone. */
  function ClosingFenceLength(text: string): (n: nat)
    ensures OpeningFenceLength(text) + n <= |text|
  {
    if EndsWith(text[OpeningFenceLength(text)..], Fence) then 3 else 0
  }

  /** The span between the fences. */
  function Unfenced(text: string): string {
    text[OpeningFenceLength(text)..|text| - ClosingFenceLength(text)]
  }

  /** What the cleaner returns: the span between the fences, trimmed. */
  function Cleaned(text: string): string {
    Trim(Unfenced(text))
  }

  /** The cleaner as the client runs it: drop an opening fence, then a
      closing one, then trim. Its result is a slice of the input with no
      blank char at either end. */
  method CleanMarkdownJson(text: string) returns (r: string)
    ensures r == Cleaned(text)
    ensures Contains(text, r) && IsTrimmed(r)
  {
    var t := text;
    if StartsWith(t, JsonFence) {
      t := t[7..];
    } else if StartsWith(t, Fence) {
      t := t[3..];
    }
    ghost var o := OpeningFenceLength(text);
    assert t == text[o..];
    if EndsWith(t, Fence) {
      t := t[..|t| - 3];
    }
    ghost var c := ClosingFenceLength(text);
    assert t == text[o..|text| - c];
    r := Trim(t);
    CleanedIsTrimmedSlice(text);
  }

  /** The cleaned text is a slice of the input with no blank char at either end. */
  lemma CleanedIsTrimmedSlice(text: string)
    ensures Contains(text, Cleaned(text)) && IsTrimmed(Cleaned(text))
  {
    var i, j := CleanedSlice(text);
    ContainsSlice(text, i, j);
  }

  lemma CleanedSlice(text: string) returns (i: nat, j: nat)
    ensures i <= j <= |text| && Cleaned(text) == text[i..j]
    ensures IsTrimmed(Cleaned(text))
  {
    i, j := TrimOfSlice(text, OpeningFenceLength(text), |text| - ClosingFenceLength(text));
  }

  /** A trimmed text with no fence at either end passes through unchanged. */
  lemma CleanedPlain(s: string)
    requires IsTrimmed(s) && !StartsWith(s, Fence) && !EndsWith(s, Fence)
    ensures Cleaned(s) == s
  {
    assert Unfenced(s) == s[0..|s|] == s;
    TrimTrimmed(s);
  }

  /** Wrapping a trimmed text in a "```json" (or bare "```") fence on lines
      of their own does not change what the cleaner returns. */
  lemma CleanedFenced(s: string)
    requires IsTrimmed(s)
    ensures Cleaned("```json\n" + s + "\n```") == s
    ensures Cleaned("```\n" + s + "\n```") == s
  {
    CleanedJsonFenced(s);
    CleanedBareFenced(s);
  }

  lemma CleanedJsonFenced(s: string)
    requires IsTrimmed(s)
    ensures Cleaned("```json\n" + s + "\n```") == s
  {
    var text := "```json\n" + s + "\n```";
    var rest := "\n" + s + "\n```";
    assert text == JsonFence + rest;
    assert text[..7] == JsonFence;
    assert text[7..] == rest;
    assert OpeningFenceLength(text) == 7;
    assert rest[|rest| - 3..] == Fence;
    assert ClosingFenceLength(text) == 3;
    assert Unfenced(text) == rest[..|rest| - 3] == "\n" + s + "\n";
    TrimPadded("\n", s, "\n");
  }

  lemma CleanedBareFenced(s: string)
    requires IsTrimmed(s)
    ensures Cleaned("```\n" + s + "\n```") == s
  {
    var text := "```\n" + s + "\n```";
    var rest := "\n" + s + "\n```";
    assert text == Fence + rest;
    assert text[..3] == Fence;
    assert text[3] == '\n';
    assert !StartsWith(text, JsonFence) by {
      if |JsonFence| <= |text| {
        assert text[..7][3] == '\n';
      }
    }
    assert text[3..] == rest;
    assert OpeningFenceLength(text) == 3;
    assert rest[|rest| - 3..] == Fence;
    assert ClosingFenceLength(text) == 3;
    assert Unfenced(text) == rest[..|rest| - 3] == "\n" + s + "\n";
    TrimPadded("\n", s, "\n");
  }

  /** Fenced and unfenced model output agree once cleaned. */
  lemma CleanedFencedAgreesWithPlain(s: string)
    requires IsTrimmed(s) && !StartsWith(s, Fence) && !EndsWith(s, Fence)
    ensures Cleaned("```json\n" + s + "\n```") == Cleaned(s) == s
  {
    CleanedFenced(s);
    CleanedPlain(s);
  }

  /** Blanks before the opening fence hide it: only the closing fence goes,
      and the "```json" line survives in the result. */
  lemma CleanedLeadingBlankKeepsOpeningFence(w: string, s: string)
    requires w != [] && AllBlank(w)
    requires s != [] && IsTrimmed(s)
    ensures Cleaned(w + "```json\n" + s + "\n```") == "```json\n" + s
  {
    var text := w + "```json\n" + s + "\n```";
    assert text[0] == w[0];
    assert OpeningFenceLength(text) == 0;
    assert text[|text| - 3..] == Fence;
    assert Unfenced(text) == w + ("```json\n" + s) + "\n";
    TrimPadded(w, "```json\n" + s, "\n");
  }

  /** The closing fence is looked for at the very end, before trimming: a
      blank after it keeps the fence in the result. */
  lemma CleanedTrailingBlankKeepsClosingFence(s: string)
    requires s != [] && IsTrimmed(s)
    ensures Cleaned("```json\n" + s + "\n```\n") == s + "\n```"
  {
    var text := "```json\n" + s + "\n```\n";
    var rest := "\n" + s + "\n```\n";
    assert text == JsonFence + rest;
    assert text[..7] == JsonFence;
    assert text[7..] == rest;
    assert OpeningFenceLength(text) == 7;
    assert rest[|rest| - 1] == '\n';
    assert !EndsWith(rest, Fence) by {
      if |Fence| <= |rest| {
        assert rest[|rest| - 3..][2] == '\n';
      }
    }
    assert ClosingFenceLength(text) == 0;
    assert Unfenced(text) == rest == "\n" + (s + "\n```") + "\n";
    TrimPadded("\n", s + "\n```", "\n");
  }

  // ----- the mock reviewer -----

  /** Both canned answers open with the same 16 chars and differ right after. */
  const VerdictOpening: string := "{\"risk_level\": \""
  const HighRiskJson: string :=
    VerdictOpening + "HIGH" + "\", \"summary\": \"Potential SQL Injection detected. Please use PreparedStatement.\"}"
  const LowRiskJson: string :=
    VerdictOpening + "LOW" + "\", \"summary\": \"Looks good to me.\"}"

  /** The canned verdict of the `mock` endpoint: HIGH exactly when the diff
      mentions "Statement" or "exec" (case-sensitive), LOW otherwise. */
  function MockReview(diff: string): (r: string)
    ensures r == HighRiskJson <==> Contains(diff, "Statement") || Contains(diff, "exec")
    ensures r == LowRiskJson <==> !Contains(diff, "Statement") && !Contains(diff, "exec")
  {
    assert |VerdictOpening| == 16;
    assert HighRiskJson[16] == "HIGH"[0] && LowRiskJson[16] == "LOW"[0];
    if Contains(diff, "Statement") || Contains(diff, "exec") then HighRiskJson else LowRiskJson
  }

  /** The keyword test is case-sensitive: lower-case "statement" and
      upper-case "EXEC" both pass as low risk, "createStatement" does not. */
  lemma MockReviewIsCaseSensitive()
    ensures MockReview("statement") == LowRiskJson
    ensures MockReview("EXEC") == LowRiskJson
    ensures MockReview("createStatement") == HighRiskJson
  {
    LowerCaseHasNoKeyword();
    UpperCaseHasNoKeyword();
    CamelCaseHasKeyword();
  }

  lemma LowerCaseHasNoKeyword()
    ensures !Contains("statement", "Statement") && !Contains("statement", "exec")
  {
    var lower := "statement";
    assert forall k :: 0 <= k < |lower| ==> lower[k] != 'S' && lower[k] != 'x';
    NotContainsMissingChar(lower, "Statement", 0);
    NotContainsMissingChar(lower, "exec", 1);
  }

  lemma UpperCaseHasNoKeyword()
    ensures !Contains("EXEC", "Statement") && !Contains("EXEC", "exec")
  {
    var upper := "EXEC";
    assert forall k :: 0 <= k < |upper| ==> upper[k] != 'S' && upper[k] != 'e';
    NotContainsMissingChar(upper, "Statement", 0);
    NotContainsMissingChar(upper, "exec", 0);
  }

  lemma CamelCaseHasKeyword()
    ensures Contains("createStatement", "Statement")
  {
    var call := "createStatement";
    assert call[6..15] == "Statement";
    ContainsAt(call, "Statement", 6);
  }

  // ----- the prompt -----

  const PromptPreamble: string :=
    "You are a senior security engineer. Review the following code diff for security vulnerabilities.\n"
    + "Use the provided Context/Security Guidelines if relevant.\n\n"
  const ContextHeading: string := "Context:\n"
  const DiffHeading: string := "\n\nDiff:\n"
  const PromptTrailer: string :=
    "\n\n"
    + "IMPORTANT: Respond ONLY with a valid JSON object in the following format:\n"
    + "{ \"risk_level\": \"HIGH\" | \"MEDIUM\" | \"LOW\", \"summary\": \"...\" }\n"
    + "Do not include any explanation outside the JSON."

  /** Pieces pasted one after the other sit at their running offsets. */
  lemma FrameSlices(h: string, context: string, d: string, diff: string, t: string)
    ensures var p := h + context + d + diff + t;
            var c := |h|;
            |p| == |h| + |context| + |d| + |diff| + |t|
            && StartsWith(p, h) && EndsWith(p, t)
            && p[c..c + |context|] == context
            && p[c + |context|..c + |context| + |d|] == d
            && p[c + |context| + |d|..|p| - |t|] == diff
  {
  }

  /** The prompt is a fixed frame with the context, then the diff, pasted
      in verbatim at known positions. */
  function BuildPrompt(diff: string, context: string): (p: string)
    ensures StartsWith(p, PromptPreamble + ContextHeading) && EndsWith(p, PromptTrailer)
    ensures |p| == |PromptPreamble + ContextHeading| + |context| + |DiffHeading| + |diff| + |PromptTrailer|
    ensures var c := |PromptPreamble + ContextHeading|;
            p[c..c + |context|] == context
            && p[c + |context|..c + |context| + |DiffHeading|] == DiffHeading
            && p[c + |context| + |DiffHeading|..|p| - |PromptTrailer|] == diff
  {
    FrameSlices(PromptPreamble + ContextHeading, context, DiffHeading, diff, PromptTrailer);
    PromptPreamble + ContextHeading + context + DiffHeading + diff + PromptTrailer
  }

  /** Once the length of the context is known, the prompt gives back both
      the context and the diff it was built from. */
  lemma PromptDeterminesInputs(diff1: string, context1: string, diff2: string, context2: string)
    requires |context1| == |context2|
    requires BuildPrompt(diff1, context1) == BuildPrompt(diff2, context2)
    ensures diff1 == diff2 && context1 == context2
  {
  }

  /** Moving a heading-shaped piece across the frame's heading does not
      change the text. */
  lemma RegroupAcrossHeading(h: string, a: string, d: string, b: string, c: string, t: string)
    ensures h + a + d + (b + d + c) + t == h + (a + d + b) + d + c + t
  {
  }

  /** Without that length the frame is ambiguous: a diff that itself holds
      the "Diff:" heading yields the same prompt as a different
      (diff, context) pair. The prompt has no boundary the diff cannot forge. */
  lemma PromptBoundaryForgeable()
    ensures BuildPrompt("b" + DiffHeading + "c", "a") == BuildPrompt("c", "a" + DiffHeading + "b")
    ensures "b" + DiffHeading + "c" != "c"
  {
    RegroupAcrossHeading(PromptPreamble + ContextHeading, "a", DiffHeading, "b", "c", PromptTrailer);
  }

  // ----- the review call -----

  /** The client's settings: the endpoint URL (or "mock") and an optional API key. */
  datatype LlmSettings = LlmSettings(endpoint: string, apiKey: Option<string>)

  /** The POST the client sends: the endpoint, the prompt placed as the one
      text part of the one content of the JSON payload, and the API key
      header when there is a non-empty key. */
  datatype GeminiRequest = GeminiRequest(url: string, prompt: string, apiKeyHeader: Option<string>)

  /** What reading the endpoint's JSON reply gives: unreadable JSON, JSON
      without `candidates[0].content.parts[0]`, or the text found there. */
  datatype GeminiReply = Unreadable | NoCandidateText | CandidateText(text: string)

  predicate IsMockEndpoint(endpoint: string) {
    EqualsIgnoreCase("mock", endpoint)
  }

  function GeminiRequestFor(settings: LlmSettings, diff: string, context: string): (req: GeminiRequest)
    ensures req.url == settings.endpoint && req.prompt == BuildPrompt(diff, context)
    ensures req.apiKeyHeader.Some? <==> settings.apiKey.Some? && settings.apiKey.value != ""
    ensures req.apiKeyHeader.Some? ==> req.apiKeyHeader == settings.apiKey
  {
    var header := if settings.apiKey.Some? && settings.apiKey.value != "" then settings.apiKey else None;
    GeminiRequest(settings.endpoint, BuildPrompt(diff, context), header)
  }

  /** The reply text the client substitutes when the JSON has no candidate
      text. The body is pasted in without escaping. */
  function UnknownVerdictJson(responseBody: string): string {
    UnknownVerdictOpening + responseBody + UnknownVerdictClosing
  }

  const UnknownVerdictOpening: string := "{\"risk_level\": \"UNKNOWN\", \"summary\": \"Failed to parse Gemini response: "
  const UnknownVerdictClosing: string := "\"}"

  /** `parseGeminiResponse`: unreadable JSON is an IOException; JSON without
      candidate text gives an UNKNOWN verdict that quotes the whole body;
      otherwise the candidate text is cleaned of its fences, leaving a
      trimmed piece of it. */
  function ParseGeminiResponse(responseBody: string, read: string -> GeminiReply): (r: Result<string, Error>)
    ensures r.Failure? <==> read(responseBody).Unreadable?
    ensures r.Failure? ==> r.error == GeminiJsonUnreadable && r.error.IsIOException()
    ensures read(responseBody).NoCandidateText? ==> r == Success(UnknownVerdictJson(responseBody)) && Contains(r.value, responseBody)
    ensures read(responseBody).CandidateText? ==> r == Success(Cleaned(read(responseBody).text))
    ensures read(responseBody).CandidateText? ==> Contains(read(responseBody).text, r.value) && IsTrimmed(r.value)
  {
    match read(responseBody)
    case Unreadable => Failure(GeminiJsonUnreadable)
    case NoCandidateText =>
      BodyQuoted(UnknownVerdictOpening, responseBody, UnknownVerdictClosing);
      Success(UnknownVerdictJson(responseBody))
    case CandidateText(text) =>
      CleanedIsTrimmedSlice(text);
      Success(Cleaned(text))
  }

  /** The middle of a three-part text occurs in it. */
  lemma BodyQuoted(a: string, b: string, c: string)
    ensures Contains(a + b + c, b)
  {
    assert (a + b + c)[|a|..|a| + |b|] == b;
    ContainsAt(a + b + c, b, |a|);
  }

  /** `review(diff, context)`: the mock endpoint answers from the diff alone
      without any request; otherwise one request is sent, a transport
      failure or non-2xx status is an IOException, and a 2xx reply is read
      and its candidate text cleaned. */
  function Review(settings: LlmSettings, diff: string, context: string,
                  send: GeminiRequest -> Result<HttpResponse, Error>,
                  read: string -> GeminiReply): (r: Result<string, Error>)
    ensures IsMockEndpoint(settings.endpoint) ==> r == Success(MockReview(diff))
    ensures !IsMockEndpoint(settings.endpoint) ==>
      var sent := send(GeminiRequestFor(settings, diff, context));
      && (sent.Failure? ==> r == Failure(sent.error))
      && (sent.Success? && !IsSuccessful(sent.value) ==>
            r == Failure(LlmRequestFailed(sent.value.code, sent.value.body)))
      && (sent.Success? && IsSuccessful(sent.value) ==>
            match read(sent.value.body)
            case Unreadable => r == Failure(GeminiJsonUnreadable)
            case NoCandidateText => r == Success(UnknownVerdictJson(sent.value.body))
            case CandidateText(text) => r == Success(Cleaned(text)))
    ensures r.Failure? ==> r.error.IsIOException() || send(GeminiRequestFor(settings, diff, context)).Failure?
  {
    if IsMockEndpoint(settings.endpoint) then
      Success(MockReview(diff))
    else
      match send(GeminiRequestFor(settings, diff, context))
      case Failure(e) => Failure(e)
      case Success(response) =>
        if !IsSuccessful(response) then Failure(LlmRequestFailed(response.code, response.body))
        else ParseGeminiResponse(response.body, read)
  }

  /** A model that wraps its answer in a "```json" fence and one that does
      not yield the same review text from a non-mock endpoint: two
      exchanges whose 2xx replies the one reader takes to the fenced and
      the plain candidate text give the same review. */
  lemma ReviewFencedAgreesWithPlain(settings: LlmSettings, diff: string, context: string,
                                    fencedSend: GeminiRequest -> Result<HttpResponse, Error>,
                                    plainSend: GeminiRequest -> Result<HttpResponse, Error>,
                                    read: string -> GeminiReply, s: string)
    requires !IsMockEndpoint(settings.endpoint)
    requires IsTrimmed(s) && !StartsWith(s, Fence) && !EndsWith(s, Fence)
    requires var request := GeminiRequestFor(settings, diff, context);
             && fencedSend(request).Success? && IsSuccessful(fencedSend(request).value)
             && plainSend(request).Success? && IsSuccessful(plainSend(request).value)
             && read(fencedSend(request).value.body) == CandidateText("```json\n" + s + "\n```")
             && read(plainSend(request).value.body) == CandidateText(s)
    ensures Review(settings, diff, context, fencedSend, read) == Review(settings, diff, context, plainSend, read)
  {
    CleanedFencedAgreesWithPlain(s);
  }
}
