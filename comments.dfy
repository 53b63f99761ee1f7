/** The two comment responders: thanks on a merged pull request, and an
    acknowledgement on a newly opened issue. */
module Comments {
  import opened Api
  import opened Text

  const PrThanksPrefix := "Thanks for the PR @"
  const IssueThanksPrefix := "Thanks for the report @"
  const IssueThanksSuffix := "! I will look into it ASAP! (I'm a bot \U{1F916})."

  /** The comment posted on a merged pull request. */
  function PrThanks(author: string): string {
    PrThanksPrefix + author + "! "
  }

  /** The comment posted on a newly opened issue. */
  function IssueThanks(author: string): string {
    IssueThanksPrefix + author + IssueThanksSuffix
  }

  /** The requests `on_pr_merged` makes when no call raises. */
  function MergeComments(pr: PullRequest): seq<Request> {
    if !pr.merged then []
    else [Request(Post, pr.commentsUrl, None, CommentBody(PrThanks(pr.authorLogin)))]
  }

  /** The requests `on_issue_opened` makes when no call raises. */
  function IssueComments(issue: Issue): seq<Request> {
    [Request(Post, issue.commentsUrl, None, CommentBody(IssueThanks(issue.authorLogin)))]
  }

  /** `on_pr_merged`: return early unless the pull request was merged, then
      post one thank-you comment. The pull request number only feeds a log line. */
  method OnPrMerged(number: int, pr: PullRequest, replies: Replies) returns (r: HandlerResult)
    ensures r == Attempt(MergeComments(pr), replies.failing)
  {
    if !pr.merged {
      return HandlerResult([], None);
    }
    var message := PrThanks(pr.authorLogin);
    var calls := [Request(Post, pr.commentsUrl, None, CommentBody(message))];
    if replies.failing == Some(0) {
      return HandlerResult(calls, Some(ApiError(0)));
    }
    r := HandlerResult(calls, None);
  }

  /** `on_issue_opened`: post one acknowledgement comment, unconditionally. */
  method OnIssueOpened(issue: Issue, replies: Replies) returns (r: HandlerResult)
    ensures r == Attempt(IssueComments(issue), replies.failing)
  {
    var message := IssueThanks(issue.authorLogin);
    var calls := [Request(Post, issue.commentsUrl, None, CommentBody(message))];
    if replies.failing == Some(0) {
      return HandlerResult(calls, Some(ApiError(0)));
    }
    r := HandlerResult(calls, None);
  }

  /** Closing a pull request without merging it is silent and not an error. */
  lemma ClosedUnmergedIsSilent(pr: PullRequest, failing: Option<nat>)
    requires !pr.merged
    ensures Attempt(MergeComments(pr), failing) == HandlerResult([], None)
  {
  }

  /** A merged pull request gets exactly one call: a POST of the thank-you
      comment, naming the author, to the pull request's comments URL. */
  lemma MergedGetsOneThanks(pr: PullRequest, failing: Option<nat>)
    requires pr.merged
    ensures var r := Attempt(MergeComments(pr), failing);
      && |r.calls| == 1
      && r.calls[0].verb == Post
      && r.calls[0].url == pr.commentsUrl
      && r.calls[0].body == CommentBody("Thanks for the PR @" + pr.authorLogin + "! ")
      && (r.fault == None || r.fault == Some(ApiError(0)))
  {
  }

  /** Every opened issue gets exactly one acknowledgement comment, posted to
      the issue's comments URL; re-delivering the event posts it again. */
  lemma IssueGetsOneAcknowledgement(issue: Issue, failing: Option<nat>)
    ensures var r := Attempt(IssueComments(issue), failing);
      && |r.calls| == 1
      && r.calls[0].verb == Post
      && r.calls[0].url == issue.commentsUrl
      && r.calls[0].body.CommentBody?
      && r.calls[0].body.body[..|IssueThanksPrefix| + |issue.authorLogin|]
         == "Thanks for the report @" + issue.authorLogin
      && (r.fault == None || r.fault == Some(ApiError(0)))
  {
  }

  /** Both comments mention the author as `@login`. */
  lemma ThanksMentionAuthor(author: string)
    ensures Contains(PrThanks(author), "@" + author)
    ensures Contains(IssueThanks(author), "@" + author)
  {
    PrThanksAround(author);
    IssueThanksAround(author);
  }

  lemma ContainsSelf(m: string)
    ensures Contains(m, m)
  {
  }

  lemma PrThanksAround(author: string)
    ensures Contains(PrThanks(author), "@" + author)
  {
    var at := "@" + author;
    ContainsSelf(at);
    assert PrThanks(author) == "Thanks for the PR " + at + "! ";
    ContainsInContext("Thanks for the PR ", at, "! ", at);
  }

  lemma IssueThanksAround(author: string)
    ensures Contains(IssueThanks(author), "@" + author)
  {
    var at := "@" + author;
    ContainsSelf(at);
    assert IssueThanks(author) == "Thanks for the report " + at + IssueThanksSuffix;
    ContainsInContext("Thanks for the report ", at, IssueThanksSuffix, at);
  }

  /** The author can be read back from either comment, so different authors
      get different comments. */
  lemma ThanksDetermineAuthor(a: string, b: string)
    ensures PrThanks(a) == PrThanks(b) ==> a == b
    ensures IssueThanks(a) == IssueThanks(b) ==> a == b
  {
    if PrThanks(a) == PrThanks(b) {
      assert a == PrThanks(a)[|PrThanksPrefix|..|PrThanks(a)| - 2];
    }
    if IssueThanks(a) == IssueThanks(b) {
      assert a == IssueThanks(a)[|IssueThanksPrefix|..|IssueThanks(a)| - |IssueThanksSuffix|];
    }
  }
}
