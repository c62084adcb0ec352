# The Retinue, modelled and proved in Dafny

The Retinue is a build bot: it drains issues labelled for it, builds each in a disposable container, reviews the
result, opens pull requests and promotes its own backlog. This project models its scheduling and safety logic
and proves what its code promises over all inputs, all runs and all interleavings.

`dafny verify dfyconfig.toml` checks everything.

## What is modelled

- **The scheduler lane as a protocol over GitHub** (`GitHub`, `LaneTask`, `Lane`): a repository's issues, labels,
  `issue-<N>` branches and open pull requests; the drain's phases under its single-run lock; the coroutines it
  spawns; cron promotion; and people who merge, label, close, delete and reopen. Everything interleaves at each
  GitHub read or write, and any coroutine may raise. `LaneSafety`, `LaneOrder`, `LaneChain` and
  `LaneChainExact` prove the properties of whole runs.
- **The code that takes those steps** (`GitHubApi`, `ContainerBuild`, `AdhocBuild`, `Pipeline`, `AdhocDrain`):
  methods over mutable objects, with an outside world that may answer anything or raise. Their contracts tie
  every call to the lane protocol, so a theorem about all runs is a theorem about this code.
- **The rolling-24h budget** (`Window`, `BudgetProtocol`, `Budget`, `MeterLog`, `IsoTime`, `BuildMetered`): the
  shared spend table with the stamp read before the lock and the cutoff read under it, the search for the instant the
  window frees, the stored text timestamps, and the drain's metered builds, run one by one and concurrently.
- **Selection and fairness** (`RepoConfig`, `Scheduler`, `Cron`, `SingleRun`, `Readiness`): the reserved-slot
  selector, the quota floor, blocked-by readiness with its cache.
- **Texts and bytes** (`ChainDepth`, `CronField`, `ExecStream`, `ChunkedBody`, `Redaction`, `DoneCheck`, with
  `Text`, `Decimal`, `PyInt`, `Arith`): the lineage marker's regular expression, the cron field grammar, Docker's
  multiplexed stream, chunked bodies (section 7.1 of RFC 9112), and value redaction.
- `RunLedger`, `Vocab`, `Collections` and `Wrappers` are shared by the above.

## Where the code does less than it says

- `asyncio.gather` hands on the first exception without cancelling the other coroutines. A drain whose build
  raises therefore leaves its lock while siblings, running or still queued, go on. Its promises (one open pull
  request per head, no rebuild of a pushed branch, a gate that fails closed) hold on all runs exactly when
  `max_parallel` is 1; with any other setting they hold on the runs where no exception leaves a coroutine with a live
  sibling.
- The same orphans break the review-fix chain's bound: one issue can be built, and file nits, any number of times.
  The depth of a chain stays bounded on all runs; its width exactly when `max_parallel` is 1 or no nits are filed.
- The low backlog "provably drains" only as far as quota ticks are admitted: tick numbers advance on deferred, idle
  and raising ticks too, and a lane whose quota ticks are all deferred starves it.
- The fail-closed gate also needs the report, comment and label sinks, and the container's teardown, not to
  raise after the push: the push comes before the report and the gate.
- The cap holds for the trailing window at every instant, but a past 24-hour window is only covered when stamp
  and check coincide; the exact trade-off is proved.
- "A more severe issue always outranks" holds up to 10,000 days of age difference per severity step.
- A deferral is computed at a second clock reading. If a charge expires between the decline and that reading, the
  instant named is too late, or none is named at all; it is exact for all ledgers only if the readings coincide.
- A cron term with a trailing slash is read as having no step, and bounds of a term's base are not checked
  although its documentation says so; when such a term still matches is proved exactly.
- A secret that can share a character with the redaction marker is not safely scrubbed: a part of the marker, such
  as `REDACTED` itself, never is, and any other can be brought back by a value replaced after it.

## Assumptions

- Only the Retinue creates `issue-<N>` branches and opens pull requests from them; GitHub refuses a pull request
  whose head does not exist, but is not relied on to refuse a duplicate. A call either takes effect or raises.
- Listings are complete and issue numbers distinct. Bodies are not edited. Blocker relations are fixed.
- A coroutine ends by returning or raising; the process is not killed and jobs are not cancelled in between.
- A review names at most B findings below the threshold, for an arbitrary B, and any number of blocking ones.
- The clock never goes back and charges are not negative.

## Model

| member | source | states |
|---|---|---|
| `LaneSafety.OrderlyRunsDedup` | retinue/adhoc_drain.py:577-617 | For every run of drains, stranded recoveries, cron promotions and human actions in which no exception leaves a coroutine while a sibling still runs: at every state each `issue-<N>` head has at most one open pull request, and no issue whose branch exists is handed to `build`. Any `max_parallel`. |
| `LaneSafety.OrderlyRunsFailClosed` | retinue/adhoc_build.py:419-434 | On the same runs, with sinks that never raise: an issue whose branch was pushed and that neither its gate nor a person let through wears `hitl` whenever no drain holds the lock, and no pull request opens for it, by a drain or by stranded recovery. |
| `LaneSafety.CapOneIsOrderly` | retinue/adhoc_drain.py:767-788 | With `max_parallel` 1 every run is of that kind: `gather` never has a second coroutine to leave behind. |
| `LaneSafety.DedupExactly` | retinue/single_run.py:34-46 | Each of the two promises, at most one open pull request per head and no rebuild of a pushed branch, holds on all runs if and only if `max_parallel` is 1; the lock does not serialize coroutines that outlive a raising sibling. |
| `LaneSafety.FailClosedExactly` | retinue/pipeline.py:170-208 | Each of the gate's two promises, a held issue wears `hitl` whenever no drain holds the lock and gets no pull request, holds on all runs if and only if `max_parallel` is 1 and neither sinks nor teardown raise. |
| `LaneSafety.GateBypassed` | retinue/adhoc_drain.py:788-788 | A concrete run for any other cap: build 1 raises and the lock is free while issue 2's freshly pushed branch is still in its gate without `hitl`; the next drain takes it for stranded and opens its pull request. |
| `LaneSafety.PullRequestDoubled` | retinue/pr_opener.py:182-207 | A concrete run for any other cap: the orphan has seen no pull request, the next drain's recovery opens one, and then the orphan opens a second for the same head. |
| `LaneSafety.BranchRebuilt` | retinue/adhoc_drain.py:709-729 | A concrete run for any other cap in which an orphaned build pushes between a later drain's classification and its builds, so a pushed branch is rebuilt. |
| `LaneSafety.ReportFailureLeavesGateOpen` | retinue/container_build.py:334-352 | One issue suffices when a sink may raise: the report fails after the push, the gate never runs, the issue is left pushed without `hitl`, and the next drain opens its pull request. |
| `LaneSafety.SerialStep` | retinue/adhoc_drain.py:577-617 | Every step of drain, task or person that orphans nothing keeps the serialization invariant: one task per issue, plans that match GitHub, one open pull request per head, and a handed issue has no branch. |
| `LaneSafety.GateStep` | retinue/pipeline.py:180-202 | The same steps keep the gate invariant: a held issue wears `hitl` or has a task that will still decide, and an opened pull request is never for a held issue. |
| `LaneOrder.BuildsAreTopological` | retinue/adhoc_drain.py:589-593 | With issues closed only by the merge of their pull request, over every run the issues handed to `build` come in a topological order of the blocker relation: every blocker precedes, or was closed, merged or pushed when the run began. |
| `LaneOrder.TrappedNeverBuilt` | retinue/readiness.py:98-101 | An issue on a blocked-by cycle of length two or more, or depending on one, is never built and gets no branch and no pull request, over every run; no issue of the trap may be closed, merged or pushed at the start. |
| `LaneChainExact.ChainBoundedExactly` | retinue/pipeline.py:210-254 | With at most B nits per review, branches kept and bodies not edited: 1 + B + ... + B^max(0, retry_cap - 1) bounds an origin and everything that ever descends from it through filed nits, over all runs, if and only if `max_parallel` is 1, retry_cap is at most 1 or B is 0; and with none of these no number bounds it. |
| `LaneChainExact.ChainUnbounded` | retinue/adhoc_drain.py:767-788 | The runs that show it, for any number k: k drains hand issue 2 while its sibling's build raises each time; then each orphan clones, pushes, files a nit and has its pull request merged before the next one clones. Issue 2 has k children. |
| `LaneChain.ChainsAreShallow` | retinue/pipeline.py:227-248 | Over every run whatever, orphaned coroutines and deleted branches included: every filed nit has a depth in 1..retry_cap - 1 and all descendants of an issue lie within retry_cap - 1 hops of it, although the depth travels only as text. |
| `LaneChain.OrderlyChainIsBounded` | retinue/pipeline.py:210-254 | Any `max_parallel`: the bound holds on every run that keeps branches and in which no exception leaves a coroutine while a sibling still runs. |
| `LaneChain.MarkersReadBack` | retinue/adhoc_build.py:145-169 | Reading depths by the last marker gives, for every body, the depth the nit was filed with. |
| `AdhocDrain.ReachedStateIsSafe` | retinue/adhoc_drain.py:523-576 | From rest, anything reached by protocol steps, in particular by any number of drain calls, was reached by a run that keeps all four promises at every state and step, provided no exception left a coroutine with a live sibling or `max_parallel` is 1. |
| `AdhocDrain.LiftTask` | retinue/adhoc_drain.py:770-786 | A coroutine's GitHub effects, run with nothing in between, are a stretch of the lane protocol with the same final state, and one that orphans nobody unless the coroutine raises with siblings left. |
| `AdhocDrain.TaskKeepsBodies` | retinue/adhoc_build.py:145-169 | Whatever a task does, issues stay and keep their bodies, so the listed body is still the issue's body when it is materialized. |
| `AdhocDrain.ChoiceIsSelection` | retinue/adhoc_drain.py:636-658 | What `select_to_build` returns for the buildable issues is one of the selections the lane protocol allows: the right number, no repeats, urgent first. |
| `AdhocDrain.AdhocDrain.FilterReady` | retinue/adhoc_drain.py:620-633 | Returns exactly the admitted issues all of whose blockers are closed on GitHub, as a run of the protocol that reads each distinct blocker once; it raises exactly when a query does. |
| `AdhocDrain.AdhocDrain.PartitionCandidates` | retinue/adhoc_drain.py:676-729 | Stranded are the ready issues with a branch and no open pull request, buildable those without a branch, as protocol steps; it raises exactly when a query does, and that changes nothing. |
| `AdhocDrain.AdhocDrain.OpenStrandedPrs` | retinue/adhoc_drain.py:732-746 | Recovers every stranded issue in turn, each a run of its task from the pull-request step; afterwards each has its pull request, or wears `hitl` when the target branch is missing; the first exception ends the drain and leaves no task behind. |
| `AdhocDrain.AdhocDrain.RankAndTake` | retinue/adhoc_drain.py:647-658 | The issues taken are the scheduler's selection, in its order; they carry the depth of their listed bodies and form a selection the protocol allows. |
| `AdhocDrain.AdhocDrain.SelectBuildable` | retinue/adhoc_drain.py:636-658 | After it the protocol has exactly one waiting task per selected issue, in rank order. |
| `AdhocDrain.AdhocDrain.BuildOne` | retinue/adhoc_drain.py:770-786 | One coroutine's budget question, with both clock readings inside the call: handed to `build` exactly when the estimate fit at the second reading, or metering is off, and then charged by one gated row; otherwise nothing is written. A handed issue gets a Building row, unless that write raised, and then at most one terminal row. Its effects are its task's run to the end, the later coroutines are untouched, it orphans them only if it is the first to raise, and it raises only if an outside call did. |
| `AdhocDrain.AdhocDrain.BuildMetered` | retinue/adhoc_drain.py:749-790 | The coroutines one after another: a run of the protocol to rest; every selected issue asked the budget once, in rank order and by the rows of its time; those it fit, and no others, were charged the estimate by a gated row and handed to `build`; a normal return names exactly those; an exception frees the lock but the rest still run. |
| `AdhocDrain.AdhocDrain.RunAdhocDrain` | retinue/adhoc_drain.py:511-617 | Turned away, changing nothing, while another drain holds the lock, whatever that one is doing; otherwise a run of the lane protocol from rest to rest by the drain's own steps alone, with the lock free on every path, and raising only if an outside call did. A normal return is a full pass, from its listing to its regular end: the scheduler's choice among the issues buildable at its listing each asked the budget in rank order, and exactly those the estimate fit were charged, handed to `build` and returned. The spend table moves by a run of the budget protocol whose charges are all gated. A coroutine is orphaned exactly if one raised that was not the last; any other call, raising or not, is orderly. |
| `AdhocDrain.AdhocDrain.RecordQueued` | retinue/adhoc_drain.py:582-588 | Best-effort Queued rows of the admitted issues: no row that got further is touched, no other row appears, and unless a write raised every admitted issue has a row. |
| `MeterLog.SpendsReaches` | retinue/adhoc_drain.py:770-786 | Any sequence of budget questions, each answered by the rows of its time and written as one gated row if it fit, is a run of the budget protocol whose readings lie no further apart than the whole took. |
| `MeterLog.HandedInOrder` | retinue/adhoc_drain.py:789-790 | Whoever is handed to `build` keeps the rank order of the selection. |
| `Pipeline.Notifier.Notify` | retinue/notify.py:104-153 | Returns normally only with the comment made and the label applied; a failing push does not matter; it raises exactly when a durable sink does, and then the label is not there. |
| `Pipeline.Pipeline.OpenStagingPr` | retinue/pr_opener.py:126-243 | Idempotent: with the target branch there, an existing head-to-base pull request leaves GitHub unchanged and otherwise exactly one is opened; without it the issue is commented on and labelled `hitl` and none is opened; the issue branch is brought up to date exactly before an opening; raising opens and labels nothing. Always a run of the task from its pull-request step. |
| `Pipeline.Pipeline.OpenAndRecord` | retinue/pipeline.py:286-311 | After `OPENED` a pull request for the head is open, the mapping recorded and the run-ledger row written; a failed record raises with the pull request left open; without `OPENED` the run ledger is as it was. |
| `Pipeline.Pipeline.EscalateBlocking` | retinue/pipeline.py:180-208 | With sinks that succeed the issue wears `hitl` even if the ledger write raises; a normal return wrote the escalated row; no pull request is opened on any path. |
| `Pipeline.Pipeline.FileEach` | retinue/pipeline.py:240-248 | Files the findings in order, one issue each, and nothing else; an exception leaves the ones before it filed. |
| `Pipeline.Pipeline.FileBacklog` | retinue/pipeline.py:210-254 | Files exactly one nit per finding, in order, each carrying its finding's body, labelled backlog without trigger and reading back as depth + 1, or none once the next depth would reach retry_cap; everything else unchanged. |
| `Pipeline.Pipeline.FileAndOpen` | retinue/pipeline.py:165-178 | A green build whose gate passed: the findings' nits are filed first, or none at the retry cap, then comes the pull-request step; opened, it is mapped and logged; anything else leaves the run ledger as it was. |
| `Pipeline.FilingFilesNits` | retinue/pipeline.py:240-248 | A stretch of filing events files that many nits one hop deeper and changes nothing else. |
| `Pipeline.NitReadsBack` | retinue/pipeline.py:240-248 | A filed nit reads back as the depth it was stamped with, whatever the finding's text quotes; it is open, labelled backlog, and wears neither the trigger nor `hitl`. |
| `Pipeline.Pipeline.ProcessAdhocPr` | retinue/pipeline.py:131-178 | Red opens nothing and logs the failure; a blocking gate opens nothing, logs the escalation and, with sinks that succeed, labels `hitl`; otherwise the findings' nits are filed, body by body and one hop deeper, or none at the retry cap, and then the pull request is opened and logged, if the target branch exists. On every path, raising included, a run of the lane's task; it raises exactly when an outside call does. |
| `Pipeline.Pipeline.BuildIssue` | retinue/pipeline.py:545-589 | Container build and pipeline composed are one run of the lane's task from its build to its end: the build's log is disciplined, what it returned is what is routed, and the run ledger gets the one row of that route, or none if anything raised; it raises only if an outside call did. |
| `Pipeline.Pipeline.RecoverStranded` | retinue/pipeline.py:594-618 | Recovery is the task's run from the pull-request step alone; a normal return completed that step and logged the open pull request, if the target branch exists; it raises exactly when an outside call does. |
| `AdhocBuild.IssueBuild.CloneAndBranch` | retinue/container_build.py:193-206 | Clone, fetch and checkout in that order, each only after the one before succeeded; no implement, push or review in between. |
| `AdhocBuild.IssueBuild.EnsureCommitsLanded` | retinue/container_build.py:218-238 | Passes exactly when the probe landed commits; what that is, `GuardExactly` says. |
| `AdhocBuild.IssueBuild.ImplementAndPush` | retinue/container_build.py:322-335 | Green exactly when one implement run with commits, one green check and one push happened; red ended with a red check and pushed nothing. |
| `AdhocBuild.IssueBuild.ReviewTip` | retinue/adhoc_build.py:380-398 | A review follows a diff taken just before it of the tip just pushed; a failing diff raises instead of reviewing nothing. |
| `AdhocBuild.IssueBuild.ReviewGatePass` | retinue/adhoc_build.py:437-531 | A review with blocking findings always gets the fix pass and, unless that regresses or raises, a second review; nit-only and clean reviews get none; a red fix is a regression and is not pushed; the outcome is the severity partition of the last review. |
| `AdhocBuild.IssueBuild.RunReviewGate` | retinue/adhoc_build.py:401-434 | Fail-closed: whatever raises, the outcome is without blocking findings if and only if the last thing done was a review with none; otherwise that was a second review, a red fix, or a step that raised, the last two as one blocking finding of their own and no nits. |
| `AdhocBuild.IssueBuild.InContainer` | retinue/container_build.py:316-353 | The lifecycle inside the container: gate outcome present exactly when green; effects are the lane task's events up to where it returned or raised. |
| `AdhocBuild.IssueBuild.Contained` | retinue/container_build.py:314-358 | The container is destroyed however the block is left. |
| `AdhocBuild.IssueBuild.Build` | retinue/adhoc_build.py:553-660 | For every answer of the outside world: the log is disciplined, a started container is destroyed once and last, green comes with a gate verdict about the last step before teardown, red followed a red check and pushed nothing, and GitHub moved as the lane's task does. It raises only if an outside call or the guard did. |
| `AdhocBuild.LogConcludes` | retinue/container_build.py:334-358 | What a normal return says about its log: a green one's gate outcome is the verdict on the last step before teardown, and blocking findings are only ever those of a second review; a red one came from a red check and pushed nothing. |
| `ContainerBuild.AcceptedIsDisciplined` | retinue/container_build.py:303-358 | What discipline means over a whole log: every push comes straight after a green check of the latest implement run, the first also after a non-zero commit count; nothing is pushed or implemented after a red check; every review reads a fresh diff of what was just pushed; a check follows the first implement run's commit count at once, and the second run directly; every implement run follows the step that writes its plan, the second one a plan for a blocking review; clone, fetch, checkout and planner in order; at most two implements, pushes and reviews; one container life. |
| `ContainerBuild.GuardCountsCommits` | retinue/container_build.py:230-238 | On git's own output the hollow-implement guard passes exactly when the commit count is positive. |
| `ContainerBuild.GuardExactly` | retinue/container_build.py:230-238 | For every exit and output the hollow-implement guard fails on a bad exit, on output of white space alone and on a 0 with only white space around it, and on nothing else. |
| `ContainerBuild.PartitionSplits` | retinue/adhoc_build.py:323-329 | Blocking and backlog together are the findings, nothing lost, with HIGH and above on one side and the rest on the other. |
| `BudgetProtocol.TrailingStaysWithinCap` | retinue/budget.py:232-271 | Under every interleaving of any number of ledger instances (stamp, lock, cutoff, insert, commit, rollback) and any non-decreasing clock: at every reachable instant the gated charges of the trailing 24 hours are within the cap, and the whole total exceeds it by at most the ungated charges still in the window. |
| `BudgetProtocol.PastWindowsObeyExactly` | retinue/budget.py:218-252 | With stamp and check at most `gap` apart, every past window of a given length obeys the cap on all runs if and only if length + gap is within 24 hours; so the full window for coinciding reads, and not even with one microsecond of lock wait. |
| `BudgetProtocol.GapOvershoots` | retinue/budget.py:251-260 | The run that shows it: two charges of the whole cap inside one window. |
| `BudgetProtocol.InvStep` | retinue/budget.py:252-270 | Each step of any call, failing ones included, keeps the ledger invariant. |
| `Budget.BudgetLedger.TryRecordIfWithinCap` | retinue/budget.py:232-271 | Admits exactly when the amount fits next to the window at the second clock reading; an admitted charge is one gated row stamped at the first reading, which is not after the second; nothing is written otherwise, exceptions included, and it raises exactly when a statement does. |
| `Budget.BudgetLedger.RecordSpend` | retinue/budget.py:193-206 | One ungated row stamped at the clock reading, or none when the driver raises; a run of the protocol. |
| `Budget.BudgetLedger.Trailing24hSpend` | retinue/budget.py:208-230 | The sum of the rows younger than 24 hours at the clock reading. |
| `Budget.BudgetLedger.WouldExceed` | retinue/budget.py:273-282 | True exactly when the amount does not fit at the clock reading. |
| `Budget.BudgetLedger.WindowFreesAt` | retinue/budget.py:284-321 | None exactly for an empty window; for an amount that can fit but does not, the least later instant at which it does; for an amount above the cap, the instant the window empties; equal stamps included. |
| `Budget.FreesAtIsUnique` | retinue/budget.py:303-306 | That description leaves one answer, so the order among equal stamps cannot change it. |
| `Budget.DeferralIsExact` | retinue/budget.py:384-394 | A charge that could fit was declined at one clock reading, and the search read the clock again with no charge in between: its answer is the instant from which the charge fits if and only if the charge does not already fit at the second reading. |
| `Budget.DeferralsExactly` | retinue/budget.py:384-394 | With the two readings at most `gap` apart, every deferral on every ledger is exact if and only if they coincide. |
| `Budget.DeferralTooLate` | retinue/budget.py:300-321 | An input where it is not: a charge expires between the readings, the amount fits from then on, and the search still waits for the next one. |
| `Budget.DeferralMissing` | retinue/budget.py:331-332 | Another: the whole window expires between the readings, and a declined charge is deferred without an instant, which is documented as admission. |
| `Budget.OversizedDeferralIsExact` | retinue/budget.py:319-321 | For a charge above the cap the search names the first instant from the decline on with an empty window, if and only if the window is not empty at its own reading. |
| `Budget.OversizedWaitsForEmptyWindow` | retinue/budget.py:319-321 | A charge above the cap never fits; the instant the search names for it is the first one, from its own reading on, with an empty window. |
| `Budget.BudgetGovernor.Gate` | retinue/budget.py:362-394 | Defers exactly when the estimate does not fit at its reading, charging nothing, with the search's answer at a later reading, exact if and only if the estimate still does not fit there; otherwise charges it once; a disabled budget admits uncharged. Its readings lie within the call, the charge is one gated row, and it raises exactly when a statement does. |
| `Budget.BudgetGovernor.MeterAdhoc` | retinue/budget.py:410-430 | True exactly when the charge fits next to the rows at a second reading between the call's beginning and its end, and then one gated row stamped at a first reading no later is all that was written; always true and nothing written with metering off; it raises exactly when a statement does. |
| `Budget.BudgetGovernor.RecordCharge` | retinue/budget.py:396-408 | Records whatever the window holds, as an ungated row stamped at a reading within the call, unless metering is off; it raises exactly when a statement does. |
| `Window.TotalOfPermutation` | retinue/budget.py:225-230 | The window sum does not depend on the order rows come back in. |
| `IsoTime.DaysBeforeYearIs` | retinue/budget.py:224-227 | The calendar the instants are counted by is the Gregorian one: the days before a year in closed form. |
| `IsoTime.DaysBeforeMonthIs` | retinue/budget.py:224-227 | The days before a month are the Gregorian ones, with a leap day from March on. |
| `IsoTime.TextOrderIsChronological` | retinue/budget.py:224-227 | For all UTC instants the text order of their `isoformat` is the chronological order, although zero microseconds are dropped. |
| `IsoTime.TextWindowIsWindow` | retinue/budget.py:218-230 | The window sum over stored text equals the window sum over instants. |
| `IsoTime.TextSortedIsChronological` | retinue/budget.py:303-306 | Rows are sorted by text if and only if they are chronological. |
| `IsoTime.FromIsoFormat` | retinue/budget.py:318-321 | `fromisoformat` inverts `isoformat` for every UTC instant. |
| `IsoTime.IsoFormatIs` | retinue/budget.py:224-227 | The text is year, month and day of fixed width with hyphens, `T`, and the time. |
| `IsoTime.TimeIs` | retinue/budget.py:224-227 | The time is of fixed width with colons, followed by the six digits of the microseconds unless they are zero, and the UTC offset. |
| `IsoTime.NextDayIsDayLater` | retinue/budget.py:224-227 | The same time on the next calendar day is one window length later. |
| `BuildMetered.EveryStartIsChargedOnce` | retinue/adhoc_drain.py:770-786 | In every interleaving with other coroutines and other lanes, once the coroutines have ended the drain recorded the estimate exactly once per build it started, run-ledger failures and crashes included. |
| `BuildMetered.ConcurrencyIsBounded` | retinue/adhoc_drain.py:767-771 | At no point do more builds run than `max_parallel`, or than were selected; the second alone when it is unset or zero. |
| `BuildMetered.OursAreRecorded` | retinue/budget.py:263-267 | The drain's charges are all in the shared table, whatever else is charged in between. |
| `BuildMetered.ReturnsWhatItStarted` | retinue/adhoc_drain.py:788-790 | At the end of any run in which nothing raised, whatever is interleaved, the returned list is what stands at the places of the issues handed to their builds, in rank order. |
| `BuildMetered.NeverStuck` | retinue/adhoc_drain.py:767-786 | From any reachable state in which a coroutine has not ended, one of them can go on, whatever the cap, the permits and the other lanes: no permit is lost, and an unset or zero `max_parallel` blocks nobody. |
| `RepoConfig.Load` | retinue/repo_config.py:272-302 | Accepts exactly the configs with unique slug tiers, priority tiers that are a prefix of them, a non-negative retry cap and a positive parallelism. |
| `RepoConfig.TiersPass` | retinue/repo_config.py:272-285 | A tier list passes exactly when it is not empty, repeats nothing and has only slugs; no repetition is tested by the size of its set. |
| `RepoConfig.SlugIs` | retinue/repo_config.py:60-60 | A tier name is accepted exactly when it is slug characters in groups joined by single hyphens, none at either end. |
| `RepoConfig.TierIsFirstNamed` | retinue/repo_config.py:317-328 | The tier is the one named by the first label that names any configured tier, whatever other labels come before it. |
| `RepoConfig.PriorityIsTopRanks` | retinue/repo_config.py:330-342 | In an accepted config the drop-everything tiers are exactly the ranks below their number. |
| `RepoConfig.TierRankIs` | retinue/repo_config.py:330-337 | A configured tier's rank is its place in the list, the first one's if it is repeated; an untiered issue ranks after every tier. |
| `Scheduler.SelectIsRankPrefix` | retinue/scheduler.py:53-97 | The two-queue selection is a prefix of the one global rank order, of a length given by cap and urgency alone; that order, stated directly, is in the next two rows. |
| `Scheduler.SelectionIsOrdered` | retinue/scheduler.py:43-64 | Along the selection the tier rank never falls, and among equal tier ranks the number never falls. |
| `Scheduler.NobodyJumped` | retinue/scheduler.py:67-97 | Nobody left out has a smaller tier rank, or the same one and a smaller number, than somebody of the same urgency who was started. |
| `Scheduler.SelectIgnoresInputOrder` | retinue/scheduler.py:43-64 | With distinct numbers the selection does not depend on the order candidates were listed in. |
| `Scheduler.SelectionIsLaneChoice` | retinue/scheduler.py:67-97 | How many are started, that they were candidates, and that nobody urgent is left out for somebody who is not. |
| `Scheduler.ReservedSlot` | retinue/scheduler.py:84-97 | With a cap of two or more at most cap - 1 non-urgent candidates are started. |
| `Scheduler.StartedOnce` | retinue/scheduler.py:67-97 | No candidate is started twice. |
| `Scheduler.PrefixRuleNeeded` | retinue/repo_config.py:288-302 | The validator's prefix rule is needed: without it some candidates are started against the rank order. |
| `Cron.TakenByQuotaRuns` | retinue/cron.py:407-433 | Over any mix of ticks that run, are deferred, idle or raise, under any tick numbers, with arbitrary higher-priority arrivals, strictly younger low arrivals and anything else leaving: a low-priority issue with m elders is promoted at the latest by the (m + 1)-th tick admitted under a quota number. |
| `Cron.LowIssuesAreNotStarved` | retinue/cron.py:407-433 | When every one of consecutive ticks is admitted and promotes, a low-priority issue with m elders is promoted within quota_every * (m + 1) of them. |
| `Cron.QuotaTicksDeferred` | retinue/heartbeat.py:302-312 | The run against the claim that the low backlog provably drains: tick numbers advance on deferred ticks too, so if every quota tick is deferred and every other finds new, more severe work of the same age, a low issue without elders is never taken, in any number of admitted ticks as time goes on. |
| `Cron.AdmittedTicksSufficeExactly` | retinue/cron.py:421-433 | Counting admitted ticks only, quota_every * (m + 1) of them suffice on all such runs if and only if quota_every is 1. |
| `Cron.QuotaPicksOldestLow` | retinue/cron.py:421-433 | A quota tick takes a low-priority issue none of the low ones is older than. |
| `Cron.ScorePickIsLexicographic` | retinue/cron.py:425-444 | With all ages under 10,000 days, a tick that is no quota tick, or whose backlog holds no low-priority issue, takes a maximum by severity then age, the first listed of its equals. |
| `Cron.ScorePickIsMax` | retinue/cron.py:421-444 | On the same ticks and for all ages: the issue taken has the largest score, counted in exact microseconds, and is the first listed of its equals. |
| `Cron.QuotaTakesOldestLow` | retinue/cron.py:421-433 | When the tick number is a positive multiple of a positive quota and the backlog holds a low-priority issue, the oldest of those is taken, the first listed of its equals. |
| `Cron.SeverityDecidesExactly` | retinue/cron.py:436-444 | Severity outranks age if and only if the less severe issue is older by less than 10,000 days per step, counted in microseconds; the documented 'always' fails beyond. |
| `Cron.RunCronTick` | retinue/cron.py:329-404 | Rejected while another tick runs; idle exactly for an empty backlog, without touching the budget; deferred exactly when the estimate does not fit, promoting and charging nothing, with the gate's deferral; admitted charges once and promotes exactly the picked issue; the lock is free afterwards. Its readings lie within the call; a rejected one aside, it raises exactly when an outside call does. |
| `Cron.Backlog.Promote` | retinue/cron.py:287-302 | Takes exactly that issue out of the backlog, or raises and changes nothing. |
| `SingleRun.SingleRunLock.Enter` | retinue/single_run.py:34-38 | The first holder enters, a second is rejected without blocking. |
| `SingleRun.SingleRunLock.Exit` | retinue/single_run.py:40-46 | Leaving frees the lock. |
| `Redaction.NoValueSurvives` | retinue/done_check.py:220-231 | In whatever order values are replaced, none of length 4 or more that cannot share a character with the marker is left in the output, for every text: nothing recreates it and markers never help to form it. |
| `Redaction.PlainIsIndependent` | retinue/done_check.py:193-193 | A value without brackets that is not part of REDACTED cannot share a character with the marker. |
| `Redaction.RemovedExactly` | retinue/done_check.py:228-231 | Replacing one value removes it from every text if and only if it does so on the finitely many texts made of a prefix of it, itself and a suffix of it. |
| `Redaction.LastValueExactly` | retinue/done_check.py:220-231 | The value replaced last, after whatever others, is gone from every report if and only if it is gone from the same finitely many texts, whether or not it can overlap the marker. |
| `Redaction.IndependentIsRemoved` | retinue/done_check.py:228-231 | A value that cannot share a character with the marker meets the exact condition. |
| `Redaction.EverySetExactly` | retinue/done_check.py:220-231 | A value is gone from the report of every set it belongs to, for every text and every longest-first order, if and only if it cannot share a character with the marker; otherwise a shorter value replaced after it can bring it back. |
| `Redaction.PartOfMarkerLeaks` | retinue/done_check.py:228-231 | A value that is part of the marker can never be scrubbed. |
| `Redaction.MarkerIsAWall` | retinue/done_check.py:228-231 | Replacing a value that cannot share a character with the marker, on a text with a marker in it, is replacing it on both sides of it. |
| `Redaction.LongestIsRedactedWhole` | retinue/done_check.py:225-228 | If the values after it cannot share a character with the marker, the longest value's first occurrence becomes exactly one marker with nothing of it left, whatever shorter values it contains. |
| `Redaction.MarkerRewritten` | retinue/done_check.py:225-228 | Without that it need not: with a word of the marker such as `REDACTED` in the set too, the marker the longest value became is itself rewritten. |
| `Redaction.ShorterFirstLeavesFragment` | retinue/done_check.py:225-228 | Replacing the shorter of two nested values first leaves the rest of the longer one next to a marker, unless the two spell the longer value again: why the order matters. |
| `Redaction.RedactValues` | retinue/done_check.py:220-231 | Applies every distinct value once, longest first, short ones skipped; no long value clear of the marker is left. |
| `DoneCheck.RunDoneCheckCommands` | retinue/done_check.py:385-416 | Green exactly when every command ran in order and exited 0; red stops at the first failure; its report is that failure with every injected value replaced, longest first, and holds none that can be scrubbed. A green report is the fixed sentence; it raises exactly when a command cannot be executed. |
| `Readiness.ResolveReady` | retinue/readiness.py:88-140 | The cached resolution equals the uncached definition (body and native blockers, self-references dropped, a repeated number spoken for by its last entry), each blocker taken in the state it was in when asked about; each distinct blocker is queried at most once and nothing else is. It raises exactly when a query does. |
| `Readiness.CollectBlockers` | retinue/readiness.py:110-118 | The dictionary holds, per number, the blockers of the last candidate with it. |
| `Readiness.FillCache` | retinue/readiness.py:122-126 | Asks only about blockers not asked before, each once, and records the answers. |
| `Readiness.CacheAnswers` | retinue/readiness.py:128-131 | Reading the cache decides readiness as the definition does. |
| `CronField.FieldMatchesWhatItDenotes` | retinue/heartbeat.py:146-186 | For every list of terms `*`, N, a-b, `*/s`, N/s, a-b/s: matching the printed field equals membership in the set the terms denote, N/s running to the field's maximum. |
| `CronField.TextMatchesWhatItIs` | retinue/heartbeat.py:151-202 | Over arbitrary text the matcher is total: it matches exactly the values denoted by the term the text is, and a text that is no term matches nothing. |
| `CronField.ReadTermExactly` | retinue/heartbeat.py:151-202 | Which texts are terms, stated without reading them: a base that is a star, an integer, or two integers around its first dash, and behind the first slash a positive integer or nothing. The matcher's reading answers on exactly those, and with that term. |
| `PyInt.ParseIntExactly` | retinue/heartbeat.py:189-194 | In bases 10 and 16 integer conversion answers on exactly the texts made of surrounding white space, an optional sign, in base 16 perhaps a prefix 0x, and digits with single underscores between them, and gives the number without the underscores. |
| `PyInt.DigitsAreLiteral` | retinue/container.py:214-214 | A digit's value is its place in 0123456789abcdef, or in the same with capitals; in base 10 only the first ten count. |
| `CronField.WeekdayMatchesWhatItDenotes` | retinue/heartbeat.py:130-143 | Sunday counts as both 0 and 7, inside ranges and steps too; other days as 1 to 6. |
| `CronField.CadenceIsDueExactly` | retinue/heartbeat.py:89-127 | A printed five-field cadence is due exactly when all five fields denote the instant's values. |
| `CronField.CronDueExactly` | retinue/heartbeat.py:110-127 | Over any cadence: a missing one, and a text that is not exactly five words with white space between them, is never due; any other is due exactly when each word denotes its part of the instant. |
| `Text.SpacesAre` | retinue/heartbeat.py:112-112 | White space is code points 9 to 13 and 32, in text 28 to 31 too. |
| `CronField.WordsExactly` | retinue/heartbeat.py:112-113 | The words of a text are its maximal runs without white space, in order. |
| `CronField.FieldMatchesWhatItIs` | retinue/heartbeat.py:146-202 | An arbitrary field matches exactly the values some part between its commas denotes. |
| `CronField.SplitOnExactly` | retinue/heartbeat.py:151-152 | Splitting at commas gives the parts without a comma that joined by commas are the text, and no other split does. |
| `CronField.TermReadsBack` | retinue/heartbeat.py:151-202 | A printed term is read as that term. |
| `CronField.OutOfBoundsMatches` | retinue/heartbeat.py:161-180 | Two texts with a base outside the field, documented to match nothing, that match: minute 5 is in `0-70`, day 5 in `0/5`. |
| `CronField.MatchesInFieldExactly` | retinue/heartbeat.py:151-186 | A term, whatever its base, matches some value of its field if and only if its first value on its steps not below the field lies beyond neither its last nor the field's: exactly when an out-of-bounds base matches nothing. |
| `CronField.EmptyStepIsNoStep` | retinue/heartbeat.py:153-155 | A trailing slash is read as no step, against the documented rule that malformed terms match nothing. |
| `ExecStream.DemuxStream` | retinue/container.py:145-168 | The decoding loop computes the recursive reading of the bytes. |
| `ExecStream.DemuxInvertsFraming` | retinue/container.py:148-151 | For any frames, followed by any incomplete bytes, demultiplexing yields exactly what the frames carry. |
| `ExecStream.CarriedIsConcatenation` | retinue/container.py:163-167 | What frames carry is, per stream, the concatenation of that stream's payloads in order. |
| `ExecStream.EveryStreamIsFrames` | retinue/container.py:156-162 | Every byte string is whole frames and an incomplete rest, so the inversion describes all inputs. |
| `ExecStream.TruncationKeepsWholeFrames` | retinue/container.py:150-162 | A stream cut anywhere yields exactly what its longest whole-frame prefix carries. |
| `ExecStream.DemuxAppends` | retinue/container.py:163-167 | More input only ever appends, on both streams, for arbitrary bytes. |
| `ChunkedBody.ReadChunked` | retinue/container.py:209-220 | The reading loop returns, and consumes, exactly what the recursive reading of the stream says, exceptions included. |
| `ChunkedBody.StreamReader.ReadLine` | retinue/container.py:213-219 | Up to and including the next line feed, or what is left. |
| `ChunkedBody.StreamReader.ReadExactly` | retinue/container.py:218-218 | Exactly that many bytes, or an exception. |
| `ChunkedBody.DechunkInvertsCoding` | retinue/container.py:209-220 | For every sequence of non-empty chunks, with CRLF in their data, any hexadecimal spelling of the sizes and any extensions: reading gives the concatenated data and leaves the reader behind the one line after the last chunk. What spells a size is defined from the literal digits. |
| `ChunkedBody.NoTrailersEndsExactly` | retinue/container.py:215-217 | Without trailers the reader stands just past the final CRLF. |
| `ChunkedBody.SizeLineReads` | retinue/container.py:213-214 | A size line reads as its size, extensions ignored, for any text that spells it: digits of 0123456789abcdef in either case, leading zeros allowed. |
| `ChunkedBody.ChunkSizeExactly` | retinue/container.py:213-214 | For every line: what is before the first semicolon once outer white space is gone, read as a hexadecimal integer; nothing there reads as 0. |
| `ChunkedBody.Hex` | retinue/container.py:214-214 | For every size there is a text that spells it: its hexadecimal one, printed from the literal digits. |
| `ChunkedBody.LeadingZero` | retinue/container.py:214-214 | A leading zero does not change what a text spells. |
| `ChunkedBody.SpelledIsValue` | retinue/container.py:214-214 | A text that spells a number in those digits, of either case, has that value for the reader. |
| `ChainDepth.ParseFiledBody` | retinue/adhoc_build.py:106-123 | Parsing a body with a rendered marker appended after a blank line gives the rendered depth, for every body, quoted and partial markers included. |
| `ChainDepth.ParseIsLastMarker` | retinue/adhoc_build.py:117-123 | Whatever earlier matches swallow, the depth read is the one on the last marker of the text. |
| `ChainDepth.ParseWithoutMarker` | retinue/adhoc_build.py:111-123 | A body without a marker is a chain origin, depth 0. |
| `ChainDepth.MatchAtComplete` | retinue/adhoc_build.py:103-103 | The greedy engine finds a match wherever the regular expression, read declaratively, has one, with the same digits. |
| `ChainDepth.MarkersDisjoint` | retinue/adhoc_build.py:103-103 | A match ends before the next marker starts although `\s*` may run over line breaks. |
| `RunLedger.RunLedgerStore.Record` | retinue/run_ledger.py:127-160 | One upsert under the lifecycle rank, or the table as it was; it raises exactly when the driver does. |
| `RunLedger.RankOrder` | retinue/run_ledger.py:79-87 | One state is short of another exactly when it is queued and the other is not, or it is building and the other terminal. |
| `RunLedger.LedgerKeepsFurthestState` | retinue/run_ledger.py:75-98 | Over any history of writes a key's row is the last write of the highest rank it ever reached, and exists exactly when the key was written. |
| `RunLedger.TerminalStays` | retinue/run_ledger.py:135-142 | The stored rank never goes back, whatever is written later. |

## Left out

- Docker, GitHub, model, Redis and push-channel calls, argument vectors, command environments, headers and JSON: outside answers are arbitrary.
- SQLite and asyncio themselves: the write lock, the transaction and the semaphore are modelled by what they guarantee; a ledger instance's own lock, which only removes interleavings, is not.
- Interleaving inside the classes of `Budget`, `Pipeline`, `AdhocBuild` and `AdhocDrain`: their calls run alone; the interleaved statements are those of `BudgetProtocol`, `Lane` and `BuildMetered`.
- AdhocDrain.AdhocDrain.BuildMetered: runs the coroutines one after another, in rank order, one of the orders `gather` allows; the others are in `Lane` and `BuildMetered`, including the lock being freed at the first exception.
- Binary floating point: amounts, scores and ages are exact reals, so rounding of a charge against the cap is not modelled.
- Unicode white space and digits, and the 4300-digit limit of `int`: texts are ASCII.
- The 200-row bound of the listings.
- Label texts: severity, trigger, backlog, hitl and urgency are fields of the model's issues; the drain takes the labels behind urgency as given.
- `parse_body_blockers`: the `## Blocked by` references come parsed; `native_blockers` answering nothing when its endpoint is missing is one of its answers.
- The text of comments, reports, plans and prompts, issue titles, and the PR numbers in the mapping.
- Readiness.ResolveReady: the native relations do not change while it runs.
- Redaction.EverySetExactly: says which values are safe in every set; a particular set with a value that can overlap the marker is decided only when that value is replaced last (`LastValueExactly`).
- The shape-based redaction patterns, the failure detail's rendering and clamping: the detail is any function of the failed command.
- `resolve_secrets_or_escalate`, secret resolution and image pulls: one arbitrary failure before the container starts.
- ChunkedBody.DechunkInvertsCoding: with trailers the code reads only one line after the last chunk and leaves the rest; that is what is stated. Read limits of the stream reader are not modelled.
- ExecStream.DemuxStream: bytes only, not the replacement decoding to text.
- Liveness of a drain whose stranded pull request keeps failing to open, and retry limits on red builds: not promised.
- Merge reaping beyond closing the issue, the API, the webhook, wiring, settings, levels, routing and the classifier.
