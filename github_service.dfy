/** The GitHub client: the requests it sends for a pull request's diff and
    for a comment on it, and what it makes of the replies. The exchange
    itself and the JSON writer are collaborators passed in as functions.
    Example lemmas take their literal text as a parameter fixed by
    `requires`, so the solver works with one named term instead of
    re-expanding the literal. */
module GitHubService {
  import opened Strings
  import opened Outcomes
  import opened Http

  const PullsSegment: string := "/pulls/"
  const IssuesSegment: string := "/issues/"
  const CommentsSuffix: string := "/comments"
  const DiffMediaType: string := "application/vnd.github.v3.diff"
  const JsonMediaType: string := "application/vnd.github.v3+json"

  /** A request to the code host: URL, `Authorization` and `Accept`
      headers, and the JSON body of a POST (none for a GET). */
  datatype GitHubRequest = GitHubRequest(url: string, authorization: string, accept: string, jsonBody: Option<string>)

  /** `"Bearer " + token`; Java renders a null token as "null". */
  function Bearer(token: Option<string>): (header: string)
    ensures StartsWith(header, "Bearer ")
    ensures token.Some? ==> header[7..] == token.value
    ensures token.None? ==> header == "Bearer null"
  {
    "Bearer " + (if token.Some? then token.value else "null")
  }

  /** The issue-comments endpoint of a pull request: every "/pulls/" becomes
      "/issues/" and "/comments" is appended. The URL always ends in
      "/comments", whatever it was given. */
  function CommentsUrl(prUrl: string): (url: string)
    ensures EndsWith(url, CommentsSuffix)
    ensures |url| >= |prUrl| + |CommentsSuffix|
  {
    var rewritten := Replace(prUrl, PullsSegment, IssuesSegment);
    assert (rewritten + CommentsSuffix)[|rewritten|..] == CommentsSuffix;
    rewritten + CommentsSuffix
  }

  /** A URL without "/pulls/" is kept as it is, with "/comments" appended. */
  lemma CommentsUrlWithoutPulls(prUrl: string)
    requires !Contains(prUrl, PullsSegment)
    ensures CommentsUrl(prUrl) == prUrl + CommentsSuffix
  {
    ReplaceAbsent(prUrl, PullsSegment, IssuesSegment);
  }

  /** The first "/pulls/" is rewritten in place, and the scan goes on
      after it with the rest of the URL. */
  lemma CommentsUrlRewritesFirstPulls(x: string, y: string)
    requires !Contains(x + "/pulls", PullsSegment)
    ensures CommentsUrl(x + PullsSegment + y) == x + IssuesSegment + Replace(y, PullsSegment, IssuesSegment) + CommentsSuffix
  {
    assert PullsSegment[..|PullsSegment| - 1] == "/pulls";
    ReplaceLeftmost(x, PullsSegment, y, IssuesSegment);
  }

  /** After an 'l'-free text, "/pulls" holds no "/pulls/": every window
      long enough for it would need an 'l' from the text itself. */
  lemma NoPullsBeforeSegment(x: string)
    requires forall k :: 0 <= k < |x| ==> x[k] != 'l'
    ensures !Contains(x + "/pulls", PullsSegment)
  {
    var w := x + "/pulls";
    NoEllInWindows(x, w);
    NotContainsMissingCharAtOffset(w, PullsSegment, 3);
  }

  lemma NoEllInWindows(x: string, w: string)
    requires forall k :: 0 <= k < |x| ==> x[k] != 'l'
    requires w == x + "/pulls"
    ensures forall j :: 3 <= j < |w| && j - 3 + |PullsSegment| <= |w| ==> w[j] != PullsSegment[3]
  {
    forall j | 3 <= j < |w| && j - 3 + |PullsSegment| <= |w| ensures w[j] != 'l' {
      if j < |x| {
        assert w[j] == x[j];
      } else {
        assert w[j] == "/pulls"[j - |x|];
      }
    }
  }

  /** The example the client is written for:
      ".../repos/owner/repo/pulls/1" gives ".../repos/owner/repo/issues/1/comments". */
  lemma CommentsUrlOfPullRequest(repo: string)
    requires repo == "https://api.github.com/repos/owner/repo"
    ensures CommentsUrl(repo + "/pulls/1") == repo + "/issues/1/comments"
  {
    assert forall k :: 0 <= k < |repo| ==> repo[k] != 'l';
    NoPullsBeforeSegment(repo);
    assert repo + "/pulls/1" == repo + PullsSegment + "1";
    CommentsUrlRewritesFirstPulls(repo, "1");
    ReplaceAbsent("1", PullsSegment, IssuesSegment);
  }

  /** Occurrences are taken left to right without overlap, so the rewrite
      can leave a "/pulls/" behind: "/pulls/pulls/" becomes
      "/issues/pulls/", which again holds "/pulls/". */
  lemma CommentsUrlOfRepeatedPulls(prUrl: string)
    requires prUrl == PullsSegment + "pulls/"
    ensures CommentsUrl(prUrl) == IssuesSegment + "pulls/" + CommentsSuffix
    ensures Contains(CommentsUrl(prUrl), PullsSegment)
  {
    var x: string, y := [], "pulls/";
    assert prUrl == x + PullsSegment + y;
    assert x + "/pulls" == "/pulls";
    NoPullsBeforeSegment(x);
    CommentsUrlRewritesFirstPulls(x, y);
    NoPullsInTail(y);
    ReplaceAbsent(y, PullsSegment, IssuesSegment);
    assert x + IssuesSegment + y + CommentsSuffix == IssuesSegment + y + CommentsSuffix;
    LeftoverPulls(IssuesSegment + y + CommentsSuffix);
  }

  lemma LeftoverPulls(url: string)
    requires url == IssuesSegment + "pulls/" + CommentsSuffix
    ensures Contains(url, PullsSegment)
  {
    assert url[7..14] == PullsSegment;
    ContainsAt(url, PullsSegment, 7);
  }

  lemma NoPullsInTail(tail: string)
    requires tail == "pulls/"
    ensures !Contains(tail, PullsSegment)
  {
    assert |tail| < |PullsSegment|;
    NoContainsInShorter(tail, PullsSegment);
  }

  lemma {:induction false} NoContainsInShorter(s: string, t: string)
    requires |s| < |t|
    ensures !Contains(s, t)
  {
    if s != [] {
      NoContainsInShorter(s[1..], t);
    }
  }

  /** The diff request goes to the pull request URL unchanged, asking for
      the diff media type. */
  function DiffRequest(token: Option<string>, prUrl: string): (request: GitHubRequest)
    ensures request.url == prUrl && request.jsonBody.None?
    ensures request.authorization == Bearer(token) && request.accept == DiffMediaType
  {
    GitHubRequest(prUrl, Bearer(token), DiffMediaType, None)
  }

  /** The comment request is a POST to the comments URL carrying the
      written comment JSON. */
  function CommentRequest(token: Option<string>, prUrl: string, json: string): (request: GitHubRequest)
    ensures request.url == CommentsUrl(prUrl) && request.jsonBody == Some(json)
    ensures request.authorization == Bearer(token) && request.accept == JsonMediaType
  {
    GitHubRequest(CommentsUrl(prUrl), Bearer(token), JsonMediaType, Some(json))
  }

  /** `getPullRequestDiff`: the body of a 2xx reply; any other status is an
      "Unexpected code" IOException, and a failed exchange passes its error on. */
  function GetPullRequestDiff(token: Option<string>, prUrl: string,
                              send: GitHubRequest -> Result<HttpResponse, Error>): (r: Result<string, Error>)
    ensures r.Success? <==> send(DiffRequest(token, prUrl)).Success? && IsSuccessful(send(DiffRequest(token, prUrl)).value)
    ensures r.Success? ==> r.value == send(DiffRequest(token, prUrl)).value.body
    ensures send(DiffRequest(token, prUrl)).Success? && !IsSuccessful(send(DiffRequest(token, prUrl)).value) ==>
              r == Failure(UnexpectedCode(send(DiffRequest(token, prUrl)).value.code))
    ensures send(DiffRequest(token, prUrl)).Failure? ==> r == Failure(send(DiffRequest(token, prUrl)).error)
  {
    match send(DiffRequest(token, prUrl))
    case Failure(e) => Failure(e)
    case Success(response) =>
      if !IsSuccessful(response) then Failure(UnexpectedCode(response.code)) else Success(response.body)
  }

  /** `postComment`: write `{"body": ...}` and POST it to the comments URL.
      A writer or exchange failure passes its error on; a reply with any
      status, rejected ones included, counts as done (a rejection is only
      logged). */
  function PostComment(token: Option<string>, prUrl: string, body: string,
                       writeCommentJson: string -> Result<string, Error>,
                       send: GitHubRequest -> Result<HttpResponse, Error>): (r: Result<(), Error>)
    ensures writeCommentJson(body).Failure? ==> r == Failure(writeCommentJson(body).error)
    ensures writeCommentJson(body).Success? ==>
      var sent := send(CommentRequest(token, prUrl, writeCommentJson(body).value));
      && (sent.Failure? ==> r == Failure(sent.error))
      && (sent.Success? ==> r.Success?)
  {
    match writeCommentJson(body)
    case Failure(e) => Failure(e)
    case Success(json) =>
      match send(CommentRequest(token, prUrl, json))
      case Failure(e) => Failure(e)
      case Success(_) => Success(())
  }
}
