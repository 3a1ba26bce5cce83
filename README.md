# SecuBot review pipeline in Dafny

SecuBot is a pull-request security reviewer. A run does the following:

1. It loads a knowledge base of security guidelines.
2. It finds the pull request and fetches its diff from GitHub.
3. It retrieves the guidelines that match the diff and joins them into one context.
4. It asks an LLM for a verdict on the diff and that context.
5. It posts the verdict as a comment on the pull request.
6. It fails the check when the verdict's risk level is HIGH or CRITICAL.

This project models the string and decision logic of that pipeline. It covers:

- the LLM client: the `mock` endpoint's keyword reviewer, the prompt, the clean-up of the model's answer, and the request and error branches of `review`;
- the review engine: joining the context, and reading the verdict with its defaults and fallback;
- the keyword retriever;
- the injection-resistant chat request builder;
- the GitHub comments-URL rewrite and the diff and comment requests;
- the CLI run, including its early exits, the comment body and the risk gate.

Outside services are collaborators passed in as functions or values: HTTP exchanges, JSON parsing and writing, the vector-store retriever, and knowledge-base loading.

Modules, one per source file plus four shared ones:

- `Strings` models the `java.lang.String` operations the code relies on: `startsWith`, `endsWith`, `contains`, `trim`, `String.join`, `replace`, and ASCII `toLowerCase`/`equalsIgnoreCase`.
- `Outcomes` holds null-able values, results and the pipeline's exceptions.
- `Json` models a Jackson node with `path` and `asText(default)`.
- `Http` models a response status and body, with OkHttp's `isSuccessful`.
- `LlmClient`, `ReviewEngine`, `KeywordRetriever`, `MessageBuilder`, `GitHubService` and `CheckRunner` each model the Java class of the same role.

Java `null` is `Option.None` where the code tests for it. A thrown exception is `Result.Failure`. Step-by-step code over local state (the fence cleaner, the comment builder, the JSON object builder, the retriever, `call`) becomes a Dafny `method` proved against a specification function or direct postconditions. Code whose steps are calls to collaborators (`review`, `getPullRequestDiff`, `postComment`, `process`) becomes a function of those collaborators, each call a branch on its result. Single-expression Java code becomes a function with lemmas.

## Model

| member | source | states |
|---|---|---|
| LlmClient.OpeningFenceRule | src/main/java/com/study/secubot/llm/InternalLLMClient.java:108-112 | exactly 7 leading chars go iff the text starts with "```json"; exactly 3 iff it starts with "```" but not "```json"; none otherwise |
| LlmClient.CleanMarkdownJson | src/main/java/com/study/secubot/llm/InternalLLMClient.java:107-117 | the step-by-step cleaner returns the span between the opening and the closing fence, trimmed; the result is a substring of the input with no char <= U+0020 at either end |
| LlmClient.CleanedIsTrimmedSlice | src/main/java/com/study/secubot/llm/InternalLLMClient.java:116 | every cleaned text is contained in its input and is trimmed |
| LlmClient.CleanedSlice | src/main/java/com/study/secubot/llm/InternalLLMClient.java:107-117 | the cleaned text is the slice text[i..j] of the input for some i <= j |
| LlmClient.CleanedPlain | src/main/java/com/study/secubot/llm/InternalLLMClient.java:107-117 | a trimmed text that neither starts nor ends with "```" is returned unchanged |
| LlmClient.CleanedFenced | src/main/java/com/study/secubot/llm/InternalLLMClient.java:107-117 | "```json\n" + s + "\n```" and "```\n" + s + "\n```" both clean to s, for every trimmed s |
| LlmClient.CleanedFencedAgreesWithPlain | src/main/java/com/study/secubot/llm/InternalLLMClient.java:107-117 | fenced and unfenced answers give the same cleaned text |
| LlmClient.CleanedLeadingBlankKeepsOpeningFence | src/main/java/com/study/secubot/llm/InternalLLMClient.java:108-110 | blanks before the opening fence stop it from being stripped: only the closing fence goes and the "```json" line stays |
| LlmClient.CleanedTrailingBlankKeepsClosingFence | src/main/java/com/study/secubot/llm/InternalLLMClient.java:113-116 | the closing fence is looked for before trimming, so a line break after it keeps the fence in the result |
| LlmClient.MockReview | src/main/java/com/study/secubot/llm/InternalLLMClient.java:119-125 | the HIGH answer iff the diff contains "Statement" or "exec"; the LOW answer iff it contains neither |
| LlmClient.MockReviewIsCaseSensitive | src/main/java/com/study/secubot/llm/InternalLLMClient.java:121 | "statement" and "EXEC" are LOW; "createStatement" is HIGH |
| LlmClient.BuildPrompt | src/main/java/com/study/secubot/llm/InternalLLMClient.java:127-136 | the prompt starts with the fixed preamble and "Context:\n" and ends with the fixed trailer; the context, then "\n\nDiff:\n", then the diff sit verbatim at the offsets given by their lengths |
| LlmClient.PromptDeterminesInputs | src/main/java/com/study/secubot/llm/InternalLLMClient.java:129-135 | when the context lengths are equal, equal prompts mean equal diffs and equal contexts |
| LlmClient.PromptBoundaryForgeable | src/main/java/com/study/secubot/llm/InternalLLMClient.java:131-132 | a diff holding "\n\nDiff:\n" yields the same prompt as a different (diff, context) pair |
| LlmClient.GeminiRequestFor | src/main/java/com/study/secubot/llm/InternalLLMClient.java:43-70 | the request goes to the endpoint as given and carries the prompt; the API-key header is present iff the key is non-null and non-empty, and then it is the key |
| LlmClient.ParseGeminiResponse | src/main/java/com/study/secubot/llm/InternalLLMClient.java:83-105 | fails (with the IOException "Failed to parse Gemini JSON") iff the reply cannot be read; a reply without candidate text gives the UNKNOWN verdict JSON, which quotes the whole body; otherwise the result is exactly the candidate text cleaned of its fences (`Cleaned`), which is a trimmed piece of it |
| LlmClient.Review | src/main/java/com/study/secubot/llm/InternalLLMClient.java:35-105 | a "mock" endpoint in any letter case answers MockReview(diff) without a request. Otherwise: a failed exchange passes its error on; a non-2xx status fails with the status and body; an unreadable reply fails with "Failed to parse Gemini JSON"; a reply without candidate text gives the UNKNOWN verdict embedding the body; candidate text is cleaned. Every failure is an IOException or the exchange's own error |
| LlmClient.ReviewFencedAgreesWithPlain | src/main/java/com/study/secubot/llm/InternalLLMClient.java:72-117 | from a non-mock endpoint, a model answering inside a "```json" fence and one answering plainly give the same review |
| Json.Path | src/main/java/com/study/secubot/core/ReviewEngine.java:34-35 | Jackson `path(name)`: the field's node when the node is an object with that field, the missing node otherwise |
| Json.AsText | src/main/java/com/study/secubot/core/ReviewEngine.java:34-35 | Jackson `asText(default)`: the default for a missing or null node, a string's text verbatim, a number's or boolean's rendering, and "" for an object or array |
| ReviewEngine.Interpret | src/main/java/com/study/secubot/core/ReviewEngine.java:32-40 | the context passes through unchanged. An unparsable answer gives ("UNKNOWN", raw answer). When it parses, a missing or null risk_level gives "UNKNOWN" and a missing or null summary gives "No summary provided."; present text fields are kept verbatim |
| ReviewEngine.Process | src/main/java/com/study/secubot/core/ReviewEngine.java:22-41 | a retriever failure and an LLM failure are passed on unchanged. Otherwise the result is the LLM's answer interpreted by ReviewEngine.Interpret, with usedContext equal to the documents joined with "\n\n" |
| ReviewEngine.ContextOfDocuments | src/main/java/com/study/secubot/core/ReviewEngine.java:24-25 | no documents give "", one document is the context as it stands, and each further document follows "\n\n" |
| ReviewEngine.ProcessAsksOnce | src/main/java/com/study/secubot/core/ReviewEngine.java:24-28 | the LLM is consulted only at the original diff and the joined context: LLMs that agree there give the same outcome |
| ReviewEngine.ParseFailureIsAbsorbed | src/main/java/com/study/secubot/core/ReviewEngine.java:32-40 | once retrieval and the LLM succeed, the run succeeds whatever the parser does; an unparsable answer is kept as the summary of an UNKNOWN verdict |
| ReviewEngine.RiskTextIsVerbatim | src/main/java/com/study/secubot/core/ReviewEngine.java:34-35 | any risk_level and summary text is reported as written, with no case folding and no check against HIGH/MEDIUM/LOW |
| ReviewEngine.EmptyVerdictGetsDefaults | src/main/java/com/study/secubot/core/ReviewEngine.java:34-35 | a parsed object with neither field gives ("UNKNOWN", "No summary provided.") |
| KeywordRetriever.SimpleKeywordRetriever.constructor | src/main/java/com/study/secubot/rag/SimpleKeywordRetriever.java:11-13 | the retriever keeps the map it is given; the map is a constant field, never modified |
| KeywordRetriever.ContainsSqlInjectionKeywords | src/main/java/com/study/secubot/rag/SimpleKeywordRetriever.java:35-40 | the test runs on the lower-cased diff; since lower-casing leaves "+" where it is, a match needs a "+" in the diff as written or "concat" in some letter case |
| KeywordRetriever.SimpleKeywordRetriever.Retrieve | src/main/java/com/study/secubot/rag/SimpleKeywordRetriever.java:15-33 | at most one document; one is returned iff the keyword test holds and the map has "SQL_Injection_Prevention.md", and it is exactly that entry's text |
| KeywordRetriever.NoConcatenationNoMatch | src/main/java/com/study/secubot/rag/SimpleKeywordRetriever.java:35-40 | without "+" and without "concat" in any letter case, the keyword test fails whatever SQL keyword is present |
| KeywordRetriever.UpperCaseKeywordMatches | src/main/java/com/study/secubot/rag/SimpleKeywordRetriever.java:36-39 | the test works on the lower-cased diff: "SELECT" with a "+" matches |
| KeywordRetriever.ConcatenatedQueryMatches | src/main/java/com/study/secubot/rag/SimpleKeywordRetriever.java:36-39 | a SELECT query built with "+" matches |
| KeywordRetriever.BoundQueryDoesNotMatch | src/main/java/com/study/secubot/rag/SimpleKeywordRetriever.java:36-39 | the same query with a "?" bind parameter does not match |
| MessageBuilder.ToSafeInputJson | src/main/java/com/study/secubot/core/MessageBuilder.java:49-59 | the writer receives the object {"context", "diff"} in that order, with null read as ""; its output is returned; a writer failure becomes IllegalStateException("Failed to serialize diff/context to JSON"), never an IOException |
| MessageBuilder.BuildSecurityReviewRequest | src/main/java/com/study/secubot/core/MessageBuilder.java:20-47 | exactly two messages: first the constant system text, the same for every input; then "INPUT_JSON=" followed by the written object. Temperature is 0.0 and maxOutputTokens is 1000. A writer failure gives the IllegalStateException |
| GitHubService.CommentsUrl | src/main/java/com/study/secubot/github/GitHubServiceImpl.java:58 | the comments URL always ends with "/comments" and is never shorter than the pull request URL plus "/comments" |
| GitHubService.CommentsUrlWithoutPulls | src/main/java/com/study/secubot/github/GitHubServiceImpl.java:58 | a URL without "/pulls/" gives the URL + "/comments" |
| GitHubService.CommentsUrlRewritesFirstPulls | src/main/java/com/study/secubot/github/GitHubServiceImpl.java:58 | the leftmost "/pulls/" becomes "/issues/" in place, and rewriting resumes after it |
| GitHubService.CommentsUrlOfPullRequest | src/main/java/com/study/secubot/github/GitHubServiceImpl.java:55-58 | ".../repos/owner/repo/pulls/1" gives ".../repos/owner/repo/issues/1/comments" |
| GitHubService.CommentsUrlOfRepeatedPulls | src/main/java/com/study/secubot/github/GitHubServiceImpl.java:58 | occurrences are replaced left to right without overlap: "/pulls/pulls/" gives "/issues/pulls/" + "/comments", which still contains "/pulls/" |
| GitHubService.Bearer | src/main/java/com/study/secubot/github/GitHubServiceImpl.java:34 | the header is "Bearer " followed by the token, or by "null" when there is no token |
| GitHubService.DiffRequest | src/main/java/com/study/secubot/github/GitHubServiceImpl.java:30-36 | the diff is fetched from the pull request URL unchanged, with the bearer token and the diff media type |
| GitHubService.CommentRequest | src/main/java/com/study/secubot/github/GitHubServiceImpl.java:58-68 | the comment is POSTed to CommentsUrl(prUrl) with the JSON body and the v3+json media type |
| GitHubService.GetPullRequestDiff | src/main/java/com/study/secubot/github/GitHubServiceImpl.java:29-43 | succeeds iff the exchange succeeds with a 2xx status, returning the body; any other status fails with "Unexpected code"; a failed exchange fails with its own error unchanged |
| GitHubService.PostComment | src/main/java/com/study/secubot/github/GitHubServiceImpl.java:45-76 | writer and exchange failures are passed on; a reply with any status, rejections included, counts as posted |
| CheckRunner.Blocks | src/main/java/com/study/secubot/CheckRunner.java:101 | a blocking risk level has the length of HIGH or CRITICAL, 4 or 8 chars |
| CheckRunner.ExitCodeFor | src/main/java/com/study/secubot/CheckRunner.java:101-106 | the exit code is 1 iff the risk level equals HIGH or CRITICAL ignoring case, and 0 otherwise |
| CheckRunner.BlocksExactlyHighAndCritical | src/main/java/com/study/secubot/CheckRunner.java:101 | the gate blocks iff the upper-cased risk level is "HIGH" or "CRITICAL" |
| CheckRunner.FailsOpen | src/main/java/com/study/secubot/CheckRunner.java:101-106 | a risk level of a length other than 4 or 8 always exits 0 |
| CheckRunner.GateTable | src/main/java/com/study/secubot/CheckRunner.java:101-106 | "LOW", "MEDIUM", "UNKNOWN" and "" exit 0; "High" and "critical" exit 1 |
| CheckRunner.BuildCommentBody | src/main/java/com/study/secubot/CheckRunner.java:125-137 | the appended pieces form CommentBody(result) |
| CheckRunner.CommentOpensWithVerdict | src/main/java/com/study/secubot/CheckRunner.java:127-129 | the comment starts with the header, then **Risk Level** with the risk level quoted as reported, then the summary |
| CheckRunner.CommentDetailsIffContext | src/main/java/com/study/secubot/CheckRunner.java:131-135 | the comment ends with the closing </details> iff usedContext is non-empty, and then ends with the whole section holding usedContext verbatim; otherwise it ends with the summary |
| CheckRunner.ResolvePrUrl | src/main/java/com/study/secubot/CheckRunner.java:77-80 | a non-null, non-empty --pr-url wins; otherwise the URL from the event file is used |
| CheckRunner.Call | src/main/java/com/study/secubot/CheckRunner.java:54-107 | the knowledge base is loaded first. An IOException there exits 1 with nothing else done; any other exception propagates. The event URL is looked up iff --pr-url is null or empty. On every path the whole effect list is given: no URL ends after the lookup with exit 1; a failed fetch crashes with its error after the fetch; a failed review crashes with its error after the fetch and the review; otherwise the fetch, the review and the comment post follow in that order, all at the resolved URL. A failed post crashes with its error; a successful one exits with ExitCodeFor(riskLevel), so the post comes before the gate. Exit 0 means a non-blocking verdict was posted |
| Strings.Trim | src/main/java/com/study/secubot/llm/InternalLLMClient.java:116 | `trim()` gives a text with no char <= U+0020 at either end, never longer than its input |
| Strings.TrimOfSlice | src/main/java/com/study/secubot/llm/InternalLLMClient.java:116 | trimming a slice of a text gives a narrower slice with no char <= U+0020 at either end |
| Strings.TrimPadded | src/main/java/com/study/secubot/llm/InternalLLMClient.java:116 | trimming removes blank padding around a trimmed text and nothing else |
| Strings.Replace | src/main/java/com/study/secubot/github/GitHubServiceImpl.java:58 | `replace` by a replacement at least as long as the target never shortens the text |
| Strings.ReplaceAbsent | src/main/java/com/study/secubot/github/GitHubServiceImpl.java:58 | `replace` leaves a text without the target unchanged |
| Strings.ReplaceLeftmost | src/main/java/com/study/secubot/github/GitHubServiceImpl.java:58 | `replace` rewrites the leftmost occurrence first and resumes right after it |
| Strings.Join | src/main/java/com/study/secubot/core/ReviewEngine.java:25 | `String.join` of a non-empty list opens with its first part and ends with its last |
| Strings.JoinSnoc | src/main/java/com/study/secubot/core/ReviewEngine.java:25 | joining one more part appends the separator and that part |
| Strings.LoweredContainsNonLetter | src/main/java/com/study/secubot/rag/SimpleKeywordRetriever.java:36-39 | after lower-casing, a non-letter such as "+" is found exactly where it was |

## Left out

- The HTTP exchanges (OkHttp) are collaborators: `send` functions that return a response or an error. Timeouts, connection reuse and response streaming are not modelled.
- Jackson parsing and writing are collaborators: `parse`, `read` and `writeValueAsString` functions. What they return for a given text, and escaping, are not modelled. So the model proves that the diff reaches the chat request only inside the written object, but not that the writer escapes it.
- LlmClient.Review: the writer that serialises the Gemini payload (InternalLLMClient.java:48-57) is taken to succeed. A writer failure there would also be an IOException.
- LlmClient.Review: a non-2xx response whose body is null ("No body") is not distinguished. The response body is always a string.
- LlmClient.GeminiRequestFor: the payload's map structure `{"contents": [{"parts": [{"text": prompt}]}]}` is reduced to the prompt it carries.
- The vector-store retriever (langchain4j embeddings, cosine ranking) is a collaborator `retrieve` of `ReviewEngine.Process`.
- `KnowledgeBaseLoader` is a collaborator: the outcome of loading is an input of `CheckRunner.Call`.
- `LlmConfig` is left out: it is Spring wiring that selects provider SDKs.
- `GitHubService` (the interface) is left out: it has no logic.
- `CheckRunner.main` and the picocli options are left out, as is the exit code picocli gives when `call` throws. `extractPrUrlFromEvent` (an environment variable and a file read) is an input: the URL it would return.
- Console and log printing is left out.
- CheckRunner.Call: the outside effects are recorded as a list, given in full on every path. What the services do with them is not modelled.
- ReviewEngine.Process: "called exactly once" is stated as "consulted only at (diff, joined context)". A function model cannot count calls.
- Case folding is ASCII only. Java's locale-sensitive `toLowerCase` and Unicode `equalsIgnoreCase` are not modelled.
- The siren emoji in the comment header is one char here. Java holds it as two UTF-16 units. The text is the same; only Java's `length()` differs.
- Java strings are null-able. The model uses `Option` where the code tests for null or renders it: the diff and context of the request builder, `--pr-url`, the event URL and the API key are tested; the token is rendered, so a null token gives "Bearer null". Elsewhere strings are non-null. In particular, `usedContext` comes from `String.join` and is never null, so the `!= null` half of CheckRunner.java:131 has no model.
- KeywordRetriever.SimpleKeywordRetriever.Retrieve: a map entry whose value is null is represented as an absent key.
- KeywordRetriever.SimpleKeywordRetriever.constructor: the knowledge base is a value fixed when the retriever is built. Java keeps a reference to the caller's `Map` (SimpleKeywordRetriever.java:9-12), so a later change to that map changes what `retrieve` returns; this aliasing is not modelled.
- MessageBuilder: the temperature is an opaque constant 0.0. No floating-point arithmetic is modelled.
- ReviewEngine.Interpret: besides text, `asText` gives a number's or boolean's own rendering and "" for an object or array. This is modelled in `Json.AsText`, but `Interpret`'s contract only states the text and the default cases.
