/** What the bot receives (the fields of a webhook payload it reads) and what it
    sends (GitHub REST requests), plus the outcome of one handler run. */
module Api {

  datatype Option<+T> = None | Some(value: T)

  // ---- Inbound: the payload fields the handlers read ----

  /** The `pull_request` object of a pull request event. */
  datatype PullRequest = PullRequest(
    merged: bool,
    title: string,
    headRef: string,
    headSha: string,
    headRepoUrl: string,
    commentsUrl: string,
    authorLogin: string)

  /** The `issue` object of an issues event. */
  datatype Issue = Issue(commentsUrl: string, authorLogin: string)

  /** The nested object a delivery carries, as the handlers' keyword arguments see it. */
  datatype Payload =
    | PullRequestPayload(number: int, pullRequest: PullRequest)
    | IssuePayload(issue: Issue)
    | OtherPayload

  /** One webhook delivery: the event type header, the `action` field and the payload. */
  datatype Delivery = Delivery(eventType: string, action: string, payload: Payload)

  // ---- Outbound: GitHub REST requests ----

  datatype Verb = Post | Patch

  /** The lifecycle of a check run on GitHub. */
  datatype Status = Queued | InProgress | Completed

  function StatusName(s: Status): string {
    match s
    case Queued => "queued"
    case InProgress => "in_progress"
    case Completed => "completed"
  }

  /** Position of a status in the lifecycle; a check run only moves to a higher one. */
  function Rank(s: Status): nat {
    match s
    case Queued => 0
    case InProgress => 1
    case Completed => 2
  }

  datatype Conclusion = Success | Neutral

  function ConclusionName(c: Conclusion): string {
    match c
    case Success => "success"
    case Neutral => "neutral"
  }

  /** The `output` object of a completed check run. */
  datatype Output = Output(title: string, text: string, summary: string)

  /** The JSON `data` of a request. */
  datatype Body =
    | CommentBody(body: string)
    | CreateCheckRun(name: string, headSha: string, status: Status, startedAt: string)
    | UpdateCheckRun(name: string, status: Status)
    | CompleteCheckRun(name: string, status: Status, conclusion: Conclusion,
                       completedAt: string, output: Output)

  /** The check-run status a request body sets, if it sets one. */
  function StatusOf(b: Body): Option<Status> {
    match b
    case CommentBody(_) => None
    case CreateCheckRun(_, _, s, _) => Some(s)
    case UpdateCheckRun(_, s) => Some(s)
    case CompleteCheckRun(_, s, _, _, _) => Some(s)
  }

  /** One call on the installation client: `post` or `patch`, the URL, the
      optional `preview_api_version` and the data. */
  datatype Request = Request(verb: Verb, url: string, preview: Option<string>, body: Body)

  // ---- Handler outcome ----

  /** Why a handler stopped early: an exception that escapes to the framework. */
  datatype Fault =
    | UnboundLocal(name: string)   // Python's UnboundLocalError
    | ApiError(call: nat)          // the call with this index (0-based) raised
    | MissingPayload(field: string) // the handler's keyword argument is absent

  /** The calls a handler made, in order, and the exception it ended with, if any.
      A call that raised is among the calls made. */
  datatype HandlerResult = HandlerResult(calls: seq<Request>, fault: Option<Fault>)

  /** What the GitHub API answers during one delivery: the id in the response
      to a check-run create call, and which call (if any) raises. */
  datatype Replies = Replies(createdId: int, failing: Option<nat>)

  /** The two `datetime.utcnow().isoformat()` readings a check-run handler takes. */
  datatype Clock = Clock(startedAt: string, completedAt: string)

  /** Running a planned sequence of awaited calls with no local error handling:
      every call up to and including the first one that raises is made, and the
      exception ends the handler. */
  function Attempt(plan: seq<Request>, failing: Option<nat>): (r: HandlerResult)
    ensures r.calls <= plan
    ensures r.fault == None <==> (failing == None || failing.value >= |plan|)
    ensures r.fault == None ==> r.calls == plan
    ensures r.fault != None ==> r.fault == Some(ApiError(failing.value)) && |r.calls| == failing.value + 1
  {
    match failing
    case Some(k) =>
      if k < |plan| then HandlerResult(plan[..k + 1], Some(ApiError(k))) else HandlerResult(plan, None)
    case None => HandlerResult(plan, None)
  }
}
