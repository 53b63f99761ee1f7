/** The work-in-progress responder: create a check run on the pull request's
    head commit, move it to `in_progress`, then complete it with a conclusion
    decided by whether the title carries a WIP marker. */
module WipCheck {
  import opened Api
  import opened Text

  const CheckRunName := "Work-in-progress state"
  const ChecksPreview := "antiope"

  /** The title substrings that mark a pull request as incomplete. */
  const WipMarkers: seq<string> := [
    "wip", "\U{1F6A7}", "dnm",
    "work in progress", "work-in-progress",
    "do not merge", "do-not-merge",
    "draft"
  ]

  /** Python's `any(m in s for m in markers)`. */
  function AnyMarkerIn(markers: seq<string>, s: string): bool {
    |markers| > 0 && (Contains(s, markers[0]) || AnyMarkerIn(markers[1..], s))
  }

  lemma {:induction false} AnyMarkerInIff(markers: seq<string>, s: string)
    ensures AnyMarkerIn(markers, s) <==> exists i :: 0 <= i < |markers| && Contains(s, markers[i])
  {
    if |markers| > 0 {
      AnyMarkerInIff(markers[1..], s);
      if AnyMarkerIn(markers[1..], s) {
        var i :| 0 <= i < |markers| - 1 && Contains(s, markers[1..][i]);
        assert Contains(s, markers[i + 1]);
      }
      if exists i :: 0 <= i < |markers| && Contains(s, markers[i]) {
        var i :| 0 <= i < |markers| && Contains(s, markers[i]);
        if i > 0 {
          assert Contains(s, markers[1..][i - 1]);
        }
      }
    }
  }

  /** The WIP heuristic on a pull request title, as the handler decides it. */
  function IsWip(title: string): bool {
    AnyMarkerIn(WipMarkers, Lower(title))
  }

  /** A title is WIP exactly when its lower-cased form contains one of the markers. */
  lemma IsWipIff(title: string)
    ensures IsWip(title) <==> exists m :: m in WipMarkers && Contains(Lower(title), m)
  {
    AnyMarkerInIff(WipMarkers, Lower(title));
    if IsWip(title) {
      var i :| 0 <= i < |WipMarkers| && Contains(Lower(title), WipMarkers[i]);
      assert WipMarkers[i] in WipMarkers;
    }
  }

  /** Titles that differ only in the case of ASCII letters get the same verdict. */
  lemma IsWipIgnoresCase(a: string, b: string)
    requires EqualIgnoringCase(a, b)
    ensures IsWip(a) == IsWip(b)
  {
    LowerOfCaseVariants(a, b);
  }

  /** Writing text before or after a WIP title leaves it WIP. */
  lemma IsWipInContext(p: string, title: string, q: string)
    requires IsWip(title)
    ensures IsWip(p + title + q)
  {
    IsWipIff(title);
    var m :| m in WipMarkers && Contains(Lower(title), m);
    LowerAppend(p + title, q);
    LowerAppend(p, title);
    ContainsInContext(Lower(p), Lower(title), Lower(q), m);
    IsWipIff(p + title + q);
  }

  /** Sample titles the heuristic flags as WIP: an upper-case marker, the
      construction emoji and a marker in the middle of the title. */
  lemma WipSampleTitles(a: string, b: string, c: string)
    requires a == "WIP: add feature" && b == "\U{1F6A7} draft PR" && c == "Fix DNM bug"
    ensures IsWip(a) && IsWip(b) && IsWip(c)
  {
    assert Lower(a)[0] == 'w' && Lower(a)[1] == 'i' && Lower(a)[2] == 'p';
    assert Lower(a)[0..3] == "wip";
    MarkerAtSample(a, 0, "wip");
    assert Lower(b)[0..1] == "\U{1F6A7}";
    MarkerAtSample(b, 0, "\U{1F6A7}");
    assert Lower(c)[4] == 'd' && Lower(c)[5] == 'n' && Lower(c)[6] == 'm';
    assert Lower(c)[4..7] == "dnm";
    MarkerAtSample(c, 4, "dnm");
  }

  lemma MarkerAtSample(title: string, i: nat, m: string)
    requires m in WipMarkers && OccursAt(Lower(title), m, i)
    ensures IsWip(title)
  {
    ContainsIff(Lower(title), m);
    IsWipIff(title);
  }

  /** A sample title the heuristic lets through. */
  lemma ReadySampleTitle(title: string)
    requires title == "Add feature"
    ensures !IsWip(title)
  {
    var lowered := Lower(title);
    assert lowered[0] == 'a';
    assert forall i :: 1 <= i < |title| ==> lowered[i] == title[i];
    assert lowered == "add feature";
    NoMarkerIn(lowered);
  }

  lemma NoMarkerIn(s: string)
    requires s == "add feature"
    ensures !AnyMarkerIn(WipMarkers, s)
  {
    forall j | 0 <= j < |WipMarkers| ensures !Contains(s, WipMarkers[j]) {
      ContainsHead(s, WipMarkers[j]);
    }
    AnyMarkerInIff(WipMarkers, s);
  }

  function ConclusionFor(isWip: bool): Conclusion {
    if !isWip then Success else Neutral
  }

  /** Python's `str(b)` for a bool. */
  function PyBool(b: bool): string {
    if b then "True" else "False"
  }

  /** Python's `repr` of a tuple of strings that hold no quote or backslash. */
  function TupleRepr(items: seq<string>): string {
    "(" + JoinQuoted(items) + (if |items| == 1 then "," else "") + ")"
  }

  function JoinQuoted(items: seq<string>): string {
    if items == [] then ""
    else if |items| == 1 then "'" + items[0] + "'"
    else "'" + items[0] + "', " + JoinQuoted(items[1..])
  }

  const ReadyTitle := "\U{1F916} This PR is not Work-in-progress: Good to go"
  const WipTitle := "\U{1F916} This PR is Work-in-progress: It is incomplete"
  const ReadySummary :=
    "This change is ready to be reviewed.\n\n"
    + "![Go ahead and review it!](https://farm1.staticflickr.com/173/400428874_e087aa720d_b.jpg)"
  const WipSummary :=
    "\U{1F6A7} Please do not merge this PR as it is still under construction.\n\n"
    + "![Under constuction tape](https://cdn.pixabay.com/photo/2012/04/14/14/59/border-34209_960_720.png)"
    + "![Homer's on the job](https://farm3.staticflickr.com/2150/2101058680_64fa63971e.jpg)"

  /** The debug text of the completed check run. */
  function DebugText(isWip: bool, loweredTitle: string): string {
    "Debug info:\nis_wip_pr=" + PyBool(isWip)
    + "\npr_title=" + loweredTitle
    + "\nwip_markers=" + TupleRepr(WipMarkers)
  }

  /** The `output` object: one of two fixed title/summary pairs, chosen by the verdict. */
  function OutputFor(isWip: bool, loweredTitle: string): Output {
    if !isWip then Output(ReadyTitle, DebugText(isWip, loweredTitle), ReadySummary)
    else Output(WipTitle, DebugText(isWip, loweredTitle), WipSummary)
  }

  function CheckRunsUri(repoUrl: string): string {
    repoUrl + "/check-runs"
  }

  /** The URL of one check run, from the id in the create response. */
  function CheckRunUri(repoUrl: string, id: int): string {
    CheckRunsUri(repoUrl) + "/" + Decimal(id)
  }

  /** The three requests the handler is meant to make, in order. */
  function CheckRunPlan(pr: PullRequest, createdId: int, clock: Clock): seq<Request> {
    var updates := CheckRunUri(pr.headRepoUrl, createdId);
    var isWip := IsWip(pr.title);
    [ Request(Post, CheckRunsUri(pr.headRepoUrl), Some(ChecksPreview),
              CreateCheckRun(CheckRunName, pr.headSha, Queued, clock.startedAt + "Z")),
      Request(Patch, updates, Some(ChecksPreview), UpdateCheckRun(CheckRunName, InProgress)),
      Request(Patch, updates, Some(ChecksPreview),
              CompleteCheckRun(CheckRunName, Completed, ConclusionFor(isWip),
                               clock.completedAt + "Z", OutputFor(isWip, Lower(pr.title)))) ]
  }

  /** Where the handler body assigns `github_api` from the runtime context. */
  datatype AssignmentSite =
    | AfterCreate  // after the create call that reads it, as in the source
    | AtEntry      // before any call reads it

  /** The handler's statements in order. Python makes `github_api` local to the
      function because the body assigns it, so a read before that assignment
      raises UnboundLocalError. */
  method CheckWipSteps(pr: PullRequest, replies: Replies, clock: Clock, site: AssignmentSite)
    returns (r: HandlerResult)
    ensures site == AtEntry ==> r == Attempt(CheckRunPlan(pr, replies.createdId, clock), replies.failing)
    ensures site == AfterCreate ==> r == HandlerResult([], Some(UnboundLocal("github_api")))
  {
    ghost var plan := CheckRunPlan(pr, replies.createdId, clock);
    var githubApiBound := site == AtEntry;
    var calls: seq<Request> := [];
    var baseUri := CheckRunsUri(pr.headRepoUrl);

    // create the check run, status queued
    if !githubApiBound {
      return HandlerResult(calls, Some(UnboundLocal("github_api")));
    }
    calls := calls + [Request(Post, baseUri, Some(ChecksPreview),
                              CreateCheckRun(CheckRunName, pr.headSha, Queued, clock.startedAt + "Z"))];
    assert calls == plan[..1];
    if replies.failing == Some(0) {
      return HandlerResult(calls, Some(ApiError(0)));
    }
    var updatesUri := baseUri + "/" + Decimal(replies.createdId);

    // the source assigns github_api here, so the two PATCHes find it bound
    calls := calls + [Request(Patch, updatesUri, Some(ChecksPreview), UpdateCheckRun(CheckRunName, InProgress))];
    assert calls == plan[..2];
    if replies.failing == Some(1) {
      return HandlerResult(calls, Some(ApiError(1)));
    }

    var prTitle := Lower(pr.title);
    var isWipPr := AnyMarkerIn(WipMarkers, prTitle);
    assert isWipPr == IsWip(pr.title);
    calls := calls + [Request(Patch, updatesUri, Some(ChecksPreview),
                              CompleteCheckRun(CheckRunName, Completed, ConclusionFor(isWipPr),
                                               clock.completedAt + "Z", OutputFor(isWipPr, prTitle)))];
    assert calls == plan;
    if replies.failing == Some(2) {
      return HandlerResult(calls, Some(ApiError(2)));
    }
    r := HandlerResult(calls, None);
  }

  /** `on_pr_check_wip` as written: it fails at its first API call and makes none. */
  method OnPrCheckWipAsWritten(pr: PullRequest, replies: Replies, clock: Clock) returns (r: HandlerResult)
    ensures r.calls == []
    ensures r.fault == Some(UnboundLocal("github_api"))
  {
    r := CheckWipSteps(pr, replies, clock, AfterCreate);
  }

  /** `on_pr_check_wip` with `github_api` assigned before its first use. */
  method OnPrCheckWip(pr: PullRequest, replies: Replies, clock: Clock) returns (r: HandlerResult)
    ensures r == Attempt(CheckRunPlan(pr, replies.createdId, clock), replies.failing)
  {
    r := CheckWipSteps(pr, replies, clock, AtEntry);
  }

  /** The plan: create with POST on the collection URL, then two PATCHes of the
      created check run; the last carries the conclusion and the output. */
  lemma PlanShape(pr: PullRequest, id: int, clock: Clock)
    ensures var plan := CheckRunPlan(pr, id, clock);
      && |plan| == 3
      && plan[0].verb == Post && plan[0].url == pr.headRepoUrl + "/check-runs"
      && plan[0].body.CreateCheckRun? && plan[0].body.headSha == pr.headSha
      && plan[1].verb == Patch && plan[2].verb == Patch
      && plan[1].url == plan[2].url == pr.headRepoUrl + "/check-runs/" + Decimal(id)
      && plan[2].body.CompleteCheckRun?
      && (forall i :: 0 <= i < 3 ==> plan[i].preview == Some("antiope") && plan[i].body.name == CheckRunName)
  {
    CheckRunUriSpelled(pr.headRepoUrl, id);
  }

  /** A check run's URL, written out. */
  lemma CheckRunUriSpelled(repoUrl: string, id: int)
    ensures CheckRunUri(repoUrl, id) == repoUrl + "/check-runs/" + Decimal(id)
  {
  }

  /** The status strings the three calls send, in order. */
  lemma PlanStatusNames(pr: PullRequest, id: int, clock: Clock)
    ensures var plan := CheckRunPlan(pr, id, clock);
      && StatusName(plan[0].body.status) == "queued"
      && StatusName(plan[1].body.status) == "in_progress"
      && StatusName(plan[2].body.status) == "completed"
  {
  }

  /** The statuses the check run is given, call by call: queued, in_progress,
      completed, and so never backwards; when a call raises, the calls made so
      far follow the same order and the run is left short of completed unless
      the failing call was the last. */
  lemma StatusesAdvance(pr: PullRequest, replies: Replies, clock: Clock)
    ensures var r := Attempt(CheckRunPlan(pr, replies.createdId, clock), replies.failing);
      && (forall i :: 0 <= i < |r.calls| ==> StatusOf(r.calls[i].body) == Some([Queued, InProgress, Completed][i]))
      && (forall i, j :: 0 <= i < j < |r.calls| ==>
            Rank(StatusOf(r.calls[i].body).value) < Rank(StatusOf(r.calls[j].body).value))
      && (r.fault == None ==> |r.calls| == 3)
      && ((exists i :: 0 <= i < |r.calls| && StatusOf(r.calls[i].body) == Some(Completed))
          <==> |r.calls| == 3)
  {
    var plan := CheckRunPlan(pr, replies.createdId, clock);
    assert StatusOf(plan[0].body) == Some(Queued);
    assert StatusOf(plan[1].body) == Some(InProgress);
    assert StatusOf(plan[2].body) == Some(Completed);
    AttemptKeepsStatusOrder(plan, replies.failing);
  }

  /** Any three-call plan whose statuses are queued, in_progress, completed
      keeps that order in every prefix `Attempt` makes. */
  lemma AttemptKeepsStatusOrder(plan: seq<Request>, failing: Option<nat>)
    requires |plan| == 3
    requires StatusOf(plan[0].body) == Some(Queued)
    requires StatusOf(plan[1].body) == Some(InProgress)
    requires StatusOf(plan[2].body) == Some(Completed)
    ensures var r := Attempt(plan, failing);
      && (forall i :: 0 <= i < |r.calls| ==> StatusOf(r.calls[i].body) == Some([Queued, InProgress, Completed][i]))
      && (forall i, j :: 0 <= i < j < |r.calls| ==>
            Rank(StatusOf(r.calls[i].body).value) < Rank(StatusOf(r.calls[j].body).value))
      && (r.fault == None ==> |r.calls| == 3)
      && ((exists i :: 0 <= i < |r.calls| && StatusOf(r.calls[i].body) == Some(Completed))
          <==> |r.calls| == 3)
  {
  }

  /** The conclusion is neutral exactly for WIP titles and success otherwise;
      the output's title, summary and debug text follow the same verdict. */
  lemma ConclusionMatchesTitle(pr: PullRequest, id: int, clock: Clock)
    ensures var done := CheckRunPlan(pr, id, clock)[2].body;
      && done.status == Completed
      && (done.conclusion == Neutral <==> IsWip(pr.title))
      && (done.conclusion == Success <==> !IsWip(pr.title))
      && ConclusionName(done.conclusion) == (if IsWip(pr.title) then "neutral" else "success")
      && (done.output.title == WipTitle <==> IsWip(pr.title))
      && (done.output.summary == WipSummary <==> IsWip(pr.title))
      && done.output.text == DebugText(IsWip(pr.title), Lower(pr.title))
  {
  }

  /** Check runs created with different ids are updated at different URLs, so
      both PATCHes address the check run the create call returned. */
  lemma UpdatesAddressCreatedRun(repoUrl: string, a: int, b: int)
    requires CheckRunUri(repoUrl, a) == CheckRunUri(repoUrl, b)
    ensures a == b
  {
    var n := |CheckRunsUri(repoUrl) + "/"|;
    assert Decimal(a) == CheckRunUri(repoUrl, a)[n..];
    assert Decimal(b) == CheckRunUri(repoUrl, b)[n..];
    DecimalInjective(a, b);
  }
}
