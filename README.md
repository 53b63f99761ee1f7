# GitHub bot webhook handlers: a Dafny model

This project models a small GitHub App bot (`github_bot/__main__.py`). The bot
registers three webhook handlers:

- **Merged pull request.** On `pull_request`/`closed`, it thanks the author in a comment, but only if the pull request was merged.
- **Opened issue.** On `issues`/`opened`, it posts an acknowledgement comment.
- **WIP check.** On `pull_request`/`opened` or `edited`, it runs a "Work-in-progress state" check run. It is meant to create the run (`queued`), move it to `in_progress`, then complete it; as written it raises UnboundLocalError before its first call (see Findings). The conclusion is `neutral` when the lower-cased title contains one of eight WIP markers, and `success` otherwise.

Each handler is modelled as a method that performs the source's statements in
order and returns a `HandlerResult`. A `HandlerResult` is the list of outbound
requests made plus the exception the handler ended with, if any. Each method is
proved equal to a pure specification. That specification is the planned request
list (`MergeComments`, `IssueComments`, `CheckRunPlan`) run through `Attempt`.
`Attempt` says that an exception raised by an awaited call ends the handler,
and that the calls made before it stay made. The one exception is the WIP
handler as written (`OnPrCheckWipAsWritten`): its specification is the constant
failure, no request and UnboundLocalError on `github_api`.

Modules:

- `Text` (text.dfy): `str.lower` on ASCII, Python's substring test `m in s`, and the `:d` integer format with its inverse.
- `Api` (api.dfy): the payload fields the handlers read, the requests they send, check-run statuses and conclusions, and `Attempt`.
- `Comments` (comments.dfy): `on_pr_merged` and `on_issue_opened`.
- `WipCheck` (wip_check.dfy): the WIP markers and predicate, the output records, the intended three-request plan, and the handler both as written and corrected.
- `Dispatch` (dispatch.dfy): the registration table, routing by exact event type and action-set membership, and one delivery end to end.

Two facts about the code that a reader of the handlers might not expect:

- **Issue comment text.** The acknowledgement comment ends with a robot emoji: "(I'm a bot 🤖)."
- **Check-run calls.** As written, `on_pr_check_wip` makes no check-run call: it raises UnboundLocalError at line 87 (see Findings). The three-call plan is what the handler makes once `github_api` is assigned before its first use.

## Model

| member | source | states |
|---|---|---|
| `Dispatch.HandlersTable` | github_bot/__main__.py:13-65 | `pull_request`/`closed` routes only to the merge handler. `pull_request`/`opened` or `edited` routes only to the WIP check. `issues`/`opened` routes only to the issue handler. Every other pair routes nowhere. |
| `Dispatch.AtMostOneHandler` | github_bot/__main__.py:13-65 | No (event type, action) pair selects more than one handler |
| `Dispatch.Deliver` | github_bot/__main__.py:13-67 | A delivery no handler is registered for does nothing and is not an error. Otherwise the result is that of the selected handler. A payload without the handler's keyword argument faults with no call made. The WIP handler runs with `github_api` assigned where the source assigns it (`AfterCreate`) or before first use (`AtEntry`). |
| `Dispatch.ClosedUnmergedDeliveryIsSilent` | github_bot/__main__.py:24-27 | A `pull_request`/`closed` delivery with `merged` false makes zero requests and ends without error |
| `Dispatch.MergedDeliveryThanksOnce` | github_bot/__main__.py:29-40 | A `pull_request`/`closed` delivery with `merged` true goes only to the merge handler. That handler makes exactly one call: a POST of the thank-you comment to `comments_url`. |
| `Dispatch.OpenedIssueAcknowledged` | github_bot/__main__.py:43-62 | An `issues`/`opened` delivery goes only to the issue handler. That handler makes exactly one call: a POST of the acknowledgement to the issue's `comments_url`. |
| `Dispatch.OpenedPullRequestAsWritten` | github_bot/__main__.py:65-102 | An opened or edited pull request goes only to the WIP check. As written, that handler makes no request and ends with UnboundLocalError on `github_api`. |
| `Dispatch.OpenedPullRequestIsChecked` | github_bot/__main__.py:65-128 | An opened or edited pull request goes only to the WIP check. With the corrected handler (see Findings) and no call raising, it makes exactly the three planned check-run requests. |
| `Comments.OnPrMerged` | github_bot/__main__.py:15-40 | Returns early, with no call, unless `merged`. Otherwise it makes one comment POST. An API exception ends the handler after that call. |
| `Comments.OnIssueOpened` | github_bot/__main__.py:45-62 | Always makes one comment POST. An API exception ends the handler after that call. |
| `Comments.ClosedUnmergedIsSilent` | github_bot/__main__.py:24-27 | A closed, unmerged pull request yields no request and no fault |
| `Comments.MergedGetsOneThanks` | github_bot/__main__.py:31-40 | A merged pull request yields exactly one POST to `comments_url`. Its body is `"Thanks for the PR @" + author + "! "`. |
| `Comments.IssueGetsOneAcknowledgement` | github_bot/__main__.py:52-62 | An opened issue yields exactly one POST to its `comments_url`. The body starts with `"Thanks for the report @" + author`. |
| `Comments.ThanksMentionAuthor` | github_bot/__main__.py:32-57 | Both comment bodies contain `"@" + login` as a substring |
| `Comments.ThanksDetermineAuthor` | github_bot/__main__.py:33-35 | The author login can be read back from either comment, so different authors get different comments |
| `Api.Attempt` | github_bot/__main__.py:87-128 | Awaited calls run without local error handling. The calls made are a prefix of the plan. All of the plan is made when no call raises. When call k raises, exactly k+1 calls are made and the handler ends with that error. |
| `Text.LowerChar` | github_bot/__main__.py:112 | `str.lower` on one character. Only ASCII capitals change, each to the same small letter. The result is never an ASCII capital. |
| `Text.Lower` | github_bot/__main__.py:112 | `str.lower` keeps the length and lower-cases every character in place |
| `Text.LowerAppend` | github_bot/__main__.py:112 | Lower-casing distributes over concatenation |
| `Text.ContainsIff` | github_bot/__main__.py:120 | Python's `m in s` holds iff `m` occurs at some index of `s` |
| `Text.ContainsInContext` | github_bot/__main__.py:120 | Text added before or after a string keeps every substring it had |
| `Text.ContainsHead` | github_bot/__main__.py:120 | A string containing `m` has `m`'s first two characters adjacent somewhere |
| `Text.Digits` | github_bot/__main__.py:99 | The `:d` digits are non-empty decimal digits with no leading zero |
| `Text.DigitsRoundTrip` | github_bot/__main__.py:99 | Reading the digits back gives the number |
| `Text.DigitsInjective` | github_bot/__main__.py:99 | Different natural numbers have different digit strings |
| `Text.Decimal` | github_bot/__main__.py:99 | The `:d` text of an id is non-empty and contains no `/` |
| `Text.DecimalInjective` | github_bot/__main__.py:99 | Different ids format to different texts |
| `WipCheck.AnyMarkerInIff` | github_bot/__main__.py:120 | `any(m in s for m in markers)` holds iff some marker occurs in `s` |
| `WipCheck.IsWipIff` | github_bot/__main__.py:112-120 | A title is WIP iff its lower-cased form contains one of the eight markers |
| `WipCheck.IsWipIgnoresCase` | github_bot/__main__.py:112-120 | Titles differing only in ASCII letter case get the same verdict |
| `WipCheck.IsWipInContext` | github_bot/__main__.py:112-120 | Adding text before or after a WIP title keeps it WIP |
| `WipCheck.WipSampleTitles` | github_bot/__main__.py:113-120 | `"WIP: add feature"`, `"🚧 draft PR"` and `"Fix DNM bug"` are WIP |
| `WipCheck.MarkerAtSample` | github_bot/__main__.py:112-120 | A marker found at some index of the lower-cased title makes the title WIP |
| `WipCheck.ReadySampleTitle` | github_bot/__main__.py:112-120 | `"Add feature"` is not WIP |
| `WipCheck.NoMarkerIn` | github_bot/__main__.py:113-120 | `"add feature"` contains none of the eight markers |
| `WipCheck.CheckWipSteps` | github_bot/__main__.py:79-166 | The handler's statements in order, given where `github_api` is assigned. Assigned before first use, they make the intended plan, cut short by an API exception. Assigned where the source puts it, they fault with UnboundLocalError and make no call. |
| `WipCheck.OnPrCheckWipAsWritten` | github_bot/__main__.py:87-102 | As written, the handler makes zero requests and ends with UnboundLocalError on `github_api` |
| `WipCheck.OnPrCheckWip` | github_bot/__main__.py:79-166 | With `github_api` assigned before use, the handler's result is the check-run plan run through `Attempt` |
| `WipCheck.PlanShape` | github_bot/__main__.py:85-110 | The plan has three calls. The first is a POST to `repo_url + "/check-runs"` with the head SHA. Then come two PATCHes to `repo_url + "/check-runs/" + id`. All three carry the `antiope` preview and the check-run name. |
| `WipCheck.PlanStatusNames` | github_bot/__main__.py:93-127 | The three calls send the status strings `queued`, `in_progress` and `completed`, in that order |
| `WipCheck.AttemptKeepsStatusOrder` | github_bot/__main__.py:87-128 | For any three calls whose statuses are queued, in_progress, completed, every prefix that `Attempt` makes keeps that order, and it reaches `completed` only when all three calls were made |
| `WipCheck.StatusesAdvance` | github_bot/__main__.py:85-128 | Call by call, the statuses are `queued`, `in_progress`, `completed`, strictly increasing. `completed` is reached only when all three calls were made, so an earlier API exception leaves the run stuck. |
| `WipCheck.ConclusionMatchesTitle` | github_bot/__main__.py:128-164 | The final PATCH is `completed`. Its conclusion is `neutral` iff the title is WIP and `success` otherwise, and it is sent as the string `"neutral"` or `"success"`. The output title and summary are the WIP pair iff WIP. The debug text reports the verdict and the lower-cased title. |
| `WipCheck.UpdatesAddressCreatedRun` | github_bot/__main__.py:98-100 | Different created ids give different update URLs, so both PATCHes address the run the create call returned |

## Findings

| source | as written | input that shows it | evidently intended | confidence | as-written member | corrected member |
|---|---|---|---|---|---|---|
| github_bot/__main__.py:87 | `on_pr_check_wip` reads `github_api` at line 87 but assigns it only at line 102. Python therefore treats the name as local, and the first read raises UnboundLocalError before any request is sent. | Any `pull_request`/`opened` delivery, e.g. title `"Add feature"` | Bind the installation client before the create call, as the two other handlers do (lines 22, 51). Then the three check-run calls are made in order. | high; not executed | `WipCheck.OnPrCheckWipAsWritten` | `WipCheck.OnPrCheckWip` |

`Dispatch.Deliver` takes the assignment site as a parameter. `Dispatch.OpenedPullRequestAsWritten` states the delivery-level outcome as written, and `Dispatch.OpenedPullRequestIsChecked` states it for the corrected handler.

## Left out

- The octomachinery runner, routing decorators and `RUNTIME_CONTEXT` are framework code that is not part of this model. Routing is the explicit `Dispatch.Handlers` table; the installation client is implicit in the request list.
- Keyword-argument binding by the framework decorator is not modelled beyond a missing `pull_request`/`issue` object. An unexpected or other missing payload key (for example no `organization` on a user-owned repository) is not modelled.
- A missing nested field (`KeyError` on `pull_request['head']`, `['user']['login']` and so on) is not modelled: payloads are typed records with every field present.
- `async`/`await` and the HTTP calls are represented by the ordered request list. A response is reduced to the created check-run id (`Replies.createdId`) and the index of the call that raises (`Replies.failing`).
- `Replies.createdId` is typed `int`, so a non-integer `id` in the create response (a ValueError from `:d`) is not modelled.
- Logging calls carry no behaviour and are dropped.
- The two `datetime.utcnow().isoformat()` readings are opaque `Clock` strings; only the appended `Z` is modelled.
- `Text.Lower`: models ASCII case folding only. Python's full Unicode `str.lower` also maps KELVIN SIGN (U+212A) to `k`, so the title "WORK IN PROGRESS" with a KELVIN SIGN in place of its `K` lower-cases to the marker "work in progress" and is WIP in Python, but not in this model. Only the markers "work in progress" and "work-in-progress" are affected this way.
- `WipCheck.TupleRepr`: renders `repr` of a tuple of strings containing no quote or backslash, which covers the eight markers only.
- Concurrency between deliveries and the remote API's rate limit are out of scope; each delivery is modelled on its own.
- `run_app` (the process entry point, app name, version and URL) is configuration and is not modelled.
