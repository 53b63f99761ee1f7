/** Routing of a webhook delivery to the responders registered for its event
    type and action, and one delivery run end to end. */
module Dispatch {
  import opened Api
  import Comments
  import WipCheck

  datatype HandlerTag = PrMerged | IssueOpened | PrCheckWip

  /** One registration: an event type, the set of actions it accepts, and the handler. */
  datatype Registration = Registration(eventType: string, actions: set<string>, handler: HandlerTag)

  /** The bot's registrations, in source order. */
  const Registry: seq<Registration> := [
    Registration("pull_request", {"closed"}, PrMerged),
    Registration("issues", {"opened"}, IssueOpened),
    Registration("pull_request", {"opened", "edited"}, PrCheckWip)
  ]

  predicate Selects(reg: Registration, eventType: string, action: string) {
    reg.eventType == eventType && action in reg.actions
  }

  /** The handlers a delivery with this event type and action is routed to:
      exact match on the type, membership of the action in the registered set. */
  function Handlers(eventType: string, action: string): set<HandlerTag> {
    set i | 0 <= i < |Registry| && Selects(Registry[i], eventType, action) :: Registry[i].handler
  }

  /** The routing table, case by case; every other pair routes nowhere. */
  lemma HandlersTable(eventType: string, action: string)
    ensures Handlers(eventType, action) ==
      if eventType == "pull_request" && action == "closed" then {PrMerged}
      else if eventType == "pull_request" && (action == "opened" || action == "edited") then {PrCheckWip}
      else if eventType == "issues" && action == "opened" then {IssueOpened}
      else {}
  {
    var hs := Handlers(eventType, action);
    assert Selects(Registry[0], eventType, action) <==> eventType == "pull_request" && action == "closed";
    assert Selects(Registry[1], eventType, action) <==> eventType == "issues" && action == "opened";
    assert Selects(Registry[2], eventType, action)
      <==> eventType == "pull_request" && (action == "opened" || action == "edited");
    assert PrMerged in hs <==> Selects(Registry[0], eventType, action);
    assert IssueOpened in hs <==> Selects(Registry[1], eventType, action);
    assert PrCheckWip in hs <==> Selects(Registry[2], eventType, action);
  }

  /** No delivery is routed to more than one handler. */
  lemma AtMostOneHandler(eventType: string, action: string)
    ensures |Handlers(eventType, action)| <= 1
  {
    HandlersTable(eventType, action);
  }

  /** What running handler `h` on delivery `d` yields, with the WIP handler's
      `github_api` assigned at `site`. A handler whose keyword argument is
      absent from the payload never starts. */
  function Reaction(h: HandlerTag, d: Delivery, replies: Replies, clock: Clock,
                    site: WipCheck.AssignmentSite): HandlerResult {
    match h
    case PrMerged =>
      if d.payload.PullRequestPayload? then Attempt(Comments.MergeComments(d.payload.pullRequest), replies.failing)
      else HandlerResult([], Some(MissingPayload("pull_request")))
    case IssueOpened =>
      if d.payload.IssuePayload? then Attempt(Comments.IssueComments(d.payload.issue), replies.failing)
      else HandlerResult([], Some(MissingPayload("issue")))
    case PrCheckWip =>
      if !d.payload.PullRequestPayload? then HandlerResult([], Some(MissingPayload("pull_request")))
      else if site == WipCheck.AtEntry then
        Attempt(WipCheck.CheckRunPlan(d.payload.pullRequest, replies.createdId, clock), replies.failing)
      else HandlerResult([], Some(UnboundLocal("github_api")))
  }

  /** One delivery: route it, run the selected handler if there is one.
      A delivery nothing is registered for is a no-op, not an error. `site`
      says where the WIP handler assigns `github_api`: `AfterCreate` is the
      program as written, `AtEntry` the corrected one. */
  method Deliver(d: Delivery, replies: Replies, clock: Clock, site: WipCheck.AssignmentSite)
    returns (r: HandlerResult)
    ensures Handlers(d.eventType, d.action) == {} ==> r == HandlerResult([], None)
    ensures forall h :: h in Handlers(d.eventType, d.action) ==> r == Reaction(h, d, replies, clock, site)
  {
    var hs := Handlers(d.eventType, d.action);
    if hs == {} {
      return HandlerResult([], None);
    }
    HandlersTable(d.eventType, d.action);
    var h :| h in hs;
    assert hs == {h};
    match h
    case PrMerged =>
      if d.payload.PullRequestPayload? {
        r := Comments.OnPrMerged(d.payload.number, d.payload.pullRequest, replies);
      } else {
        r := HandlerResult([], Some(MissingPayload("pull_request")));
      }
    case IssueOpened =>
      if d.payload.IssuePayload? {
        r := Comments.OnIssueOpened(d.payload.issue, replies);
      } else {
        r := HandlerResult([], Some(MissingPayload("issue")));
      }
    case PrCheckWip =>
      if d.payload.PullRequestPayload? {
        r := WipCheck.CheckWipSteps(d.payload.pullRequest, replies, clock, site);
      } else {
        r := HandlerResult([], Some(MissingPayload("pull_request")));
      }
  }

  /** Closing a pull request without merging it yields no request at all. */
  lemma ClosedUnmergedDeliveryIsSilent(d: Delivery, replies: Replies, clock: Clock)
    requires d.eventType == "pull_request" && d.action == "closed"
    requires d.payload.PullRequestPayload? && !d.payload.pullRequest.merged
    ensures Handlers(d.eventType, d.action) == {PrMerged}
    ensures forall site :: Reaction(PrMerged, d, replies, clock, site) == HandlerResult([], None)
  {
    HandlersTable(d.eventType, d.action);
  }

  /** As written, an opened or edited pull request goes to the WIP handler,
      which ends with UnboundLocalError before making any call. */
  lemma OpenedPullRequestAsWritten(d: Delivery, replies: Replies, clock: Clock)
    requires d.eventType == "pull_request" && (d.action == "opened" || d.action == "edited")
    requires d.payload.PullRequestPayload?
    ensures Handlers(d.eventType, d.action) == {PrCheckWip}
    ensures Reaction(PrCheckWip, d, replies, clock, WipCheck.AfterCreate)
      == HandlerResult([], Some(UnboundLocal("github_api")))
  {
    HandlersTable(d.eventType, d.action);
  }

  /** With the corrected handler, an opened or edited pull request is checked:
      when no call raises, exactly the three check-run requests are made. */
  lemma OpenedPullRequestIsChecked(d: Delivery, replies: Replies, clock: Clock)
    requires d.eventType == "pull_request" && (d.action == "opened" || d.action == "edited")
    requires d.payload.PullRequestPayload? && replies.failing == None
    ensures Handlers(d.eventType, d.action) == {PrCheckWip}
    ensures Reaction(PrCheckWip, d, replies, clock, WipCheck.AtEntry).calls
      == WipCheck.CheckRunPlan(d.payload.pullRequest, replies.createdId, clock)
    ensures |Reaction(PrCheckWip, d, replies, clock, WipCheck.AtEntry).calls| == 3
  {
    HandlersTable(d.eventType, d.action);
  }

  /** A merged pull request gets one call, the thank-you comment, and nothing else runs. */
  lemma MergedDeliveryThanksOnce(d: Delivery, replies: Replies, clock: Clock)
    requires d.eventType == "pull_request" && d.action == "closed"
    requires d.payload.PullRequestPayload? && d.payload.pullRequest.merged
    ensures Handlers(d.eventType, d.action) == {PrMerged}
    ensures forall site :: (Reaction(PrMerged, d, replies, clock, site).calls
      == [Request(Post, d.payload.pullRequest.commentsUrl, None, CommentBody(Comments.PrThanks(d.payload.pullRequest.authorLogin)))])
  {
    HandlersTable(d.eventType, d.action);
  }

  /** Every opened issue gets one acknowledgement call, and nothing else runs. */
  lemma OpenedIssueAcknowledged(d: Delivery, replies: Replies, clock: Clock)
    requires d.eventType == "issues" && d.action == "opened" && d.payload.IssuePayload?
    ensures Handlers(d.eventType, d.action) == {IssueOpened}
    ensures forall site :: (Reaction(IssueOpened, d, replies, clock, site).calls
      == [Request(Post, d.payload.issue.commentsUrl, None, CommentBody(Comments.IssueThanks(d.payload.issue.authorLogin)))])
  {
    HandlersTable(d.eventType, d.action);
  }
}
