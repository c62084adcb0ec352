/**
 One issue's journey through the lane after the drain has selected it, as the GitHub effects and the
 exceptions the source can have between them: `build_one`, `build_issue_in_container`, the review gate,
 `Pipeline.process_adhoc_pr` and `open_staging_pr` for a build; the last two alone for a stranded branch.
 Each event is one atomic GitHub read or write, so several tasks and the outside world interleave at them.
 */
module LaneTask {
  import opened GitHub
  import opened Wrappers

  /**
   `maxNits` bounds the sub-threshold findings of one review; `sinksMayFail` says whether the report,
   comment and label sinks, or the container's teardown, may raise; `blockedBy` is the union of body and native
   blockers of an issue; `depthOf` reads the chain depth off a body.
   */
  datatype Config = Config(
    cap: Option<int>, retryCap: nat, maxNits: nat, sinksMayFail: bool, blockedBy: nat -> set<nat>,
    depthOf: string -> nat)

  datatype Phase =
    | Queued                // coroutine created, waiting for the semaphore and the budget
    | Building              // inside the container, nothing pushed yet
    | Pushed(fixed: bool)   // green branch pushed, or its fix too; report and review gate still to come
    | Blocked               // gate outcome blocking; the hitl label not applied yet
    | Escalated             // hitl label applied; run-ledger row still to come
    | Filing(left: nat)     // filing the backlog nits
    | Checking              // in `open_staging_pr`, before the idempotency query
    | Opening               // no open pull request was seen; sync and open still to come
    | Recording             // a pull request is open; mapping and run-ledger rows still to come

  datatype Task = Task(issue: nat, depth: nat, base: string, phase: Phase)

  datatype TaskEvent =
    | Decline                                    // the shared budget leaves no room
    | Hand                                       // charged and handed to `build`
    | Red                                        // red done-check: nothing pushed
    | Push                                       // green done-check: push `issue-<N>`
    | PushFix                                    // the gate's green fix pass: push `issue-<N>` again
    | Gate(blocks: bool, nits: nat)              // report posted, review gate finished
    | LabelHitl
    | FileNit(number: nat, body: string, urgent: bool)
    | FiledAll
    | BaseMissing                                // target branch gone: escalate, open nothing
    | SawPr
    | SawNoPr
    | Open
    | Record
    | Raise                                      // an exception leaves the coroutine

  datatype Progress = Continues(task: Task) | Finished | Failed

  /** How many of a review's nits are filed: none once the next hop would reach the retry cap. */
  function NitsToFile(cfg: Config, depth: nat, nits: nat): nat {
    if depth + 1 >= cfg.retryCap then 0 else nits
  }

  ghost predicate Enabled(cfg: Config, t: Task, hub: Hub, e: TaskEvent) {
    match e
    case Decline => t.phase.Queued?
    case Hand => t.phase.Queued?
    case Red => t.phase.Building?
    case Push => t.phase.Building?
    case PushFix => t.phase.Pushed? && !t.phase.fixed
    case Gate(_, nits) => t.phase.Pushed? && nits <= cfg.maxNits
    case LabelHitl => t.phase.Blocked?
    case FileNit(number, _, _) => t.phase.Filing? && t.phase.left > 0 && number !in hub.issues
    case FiledAll => t.phase.Filing? && t.phase.left == 0
    case BaseMissing => t.phase.Checking?
    case SawPr => t.phase.Checking? && HasOpenPr(hub, t.issue, t.base)
    case SawNoPr => t.phase.Checking? && !HasOpenPr(hub, t.issue, t.base)
    case Open => t.phase.Opening? && t.issue in hub.branches   // no pull request from a missing head
    case Record => t.phase.Escalated? || t.phase.Recording?
    case Raise => (t.phase.Pushed? || t.phase.Blocked?) ==> cfg.sinksMayFail
  }

  function Advance(cfg: Config, t: Task, e: TaskEvent): Progress {
    match e
    case Decline => Finished
    case Hand => Continues(t.(phase := Building))
    case Red => Finished
    case Push => Continues(t.(phase := Pushed(false)))
    case PushFix => Continues(t.(phase := Pushed(true)))
    case Gate(blocks, nits) =>
      Continues(t.(phase := if blocks then Blocked else Filing(NitsToFile(cfg, t.depth, nits))))
    case LabelHitl => Continues(t.(phase := Escalated))
    case FileNit(_, _, _) =>
      Continues(t.(phase := if t.phase.Filing? && t.phase.left > 0 then Filing(t.phase.left - 1) else t.phase))
    case FiledAll => Continues(t.(phase := Checking))
    case BaseMissing => Continues(t.(phase := Escalated))
    case SawPr => Continues(t.(phase := Recording))
    case SawNoPr => Continues(t.(phase := Opening))
    case Open => Continues(t.(phase := Recording))
    case Record => Finished
    case Raise => Failed
  }

  function Effect(t: Task, hub: Hub, e: TaskEvent): Hub {
    match e
    case Push => PushBranch(hub, t.issue)
    case PushFix => PushBranch(hub, t.issue)
    case LabelHitl => SetHitl(hub, t.issue, true)
    case BaseMissing => SetHitl(hub, t.issue, true)
    case FileNit(number, body, urgent) => AddIssue(hub, number, Nit(t.issue, t.depth + 1, body, urgent))
    case Open => OpenPr(hub, t.issue, t.base)
    case _ => hub
  }

  /** A task running with nothing interleaved: from `t` over `hub` through `es` to `p` over `hub'`. */
  ghost predicate RunsAlone(cfg: Config, t: Task, hub: Hub, es: seq<TaskEvent>, p: Progress, hub': Hub)
    decreases |es|
  {
    if es == [] then p == Continues(t) && hub' == hub
    else
      && Enabled(cfg, t, hub, es[0])
      && match Advance(cfg, t, es[0])
         case Continues(t') => RunsAlone(cfg, t', Effect(t, hub, es[0]), es[1..], p, hub')
         case stop => es[1..] == [] && p == stop && hub' == Effect(t, hub, es[0])
  }

  /** Appending one event to a run alone. */
  lemma {:induction false} RunsAloneSnoc(
      cfg: Config, t: Task, hub: Hub, es: seq<TaskEvent>, mid: Task, midHub: Hub, e: TaskEvent)
    requires RunsAlone(cfg, t, hub, es, Continues(mid), midHub) && Enabled(cfg, mid, midHub, e)
    ensures RunsAlone(cfg, t, hub, es + [e], Advance(cfg, mid, e), Effect(mid, midHub, e))
    decreases |es|
  {
    if es == [] {
      assert [e][1..] == [];
      assert es + [e] == [e];
    } else {
      assert (es + [e])[0] == es[0] && (es + [e])[1..] == es[1..] + [e];
      match Advance(cfg, t, es[0])
      case Continues(t') => RunsAloneSnoc(cfg, t', Effect(t, hub, es[0]), es[1..], mid, midHub, e);
      case _ =>
    }
  }
}
