/**
 Building one ad-hoc issue: the container lifecycle and the fail-closed review gate as methods over an
 adversarial world. Their contracts say what the log looks like on every path and which steps of the lane's
 protocol they amount to.
 */
module AdhocBuild {
  import opened Collections
  import opened ContainerBuild
  import opened GitHub
  import opened GitHubApi
  import L = LaneTask
  import opened Vocab
  import opened Wrappers

  datatype BuildResult = BuildResult(passed: bool, gate: Option<Outcome>)

  /** A review that found nothing at or above the threshold. */
  predicate Clean(e: Event) {
    e.Reviewed? && e.findings.Some? && Blocking(e.findings.value) == []
  }

  /** A step that raised. */
  predicate Failing(e: Event) {
    match e
    case Ran(_, ok) => !ok
    case Implemented(ok) => !ok
    case Checked(verdict) => verdict == Broke
    case Pushed(ok) => !ok
    case Reviewed(findings) => findings.None?
    case _ => false
  }

  /**
   What a gate outcome means for the last thing done before it: it lets the issue through exactly when that
   was a review with nothing blocking; it carries that review's findings; else something regressed or raised.
   */
  predicate GateVerdict(last: Event, o: Outcome) {
    && (o.blocking == [] <==> Clean(last))
    && (last.Reviewed? && last.findings.Some? ==>
          o.blocking == Blocking(last.findings.value) && o.backlog == Backlog(last.findings.value))
    && (o.regressed <==> last == Checked(Red))
    && (last == Checked(Red) ==> o.blocking == [RegressionFinding()] && o.backlog == [])
    && (Failing(last) ==> o.blocking == [GateErrorFinding()] && o.backlog == [])
    && (last.Reviewed? || last == Checked(Red) || Failing(last))
  }

  lemma ReviewDecides(found: seq<Finding>)
    ensures GateVerdict(Reviewed(Some(found)), Outcome(Blocking(found), Backlog(found), false))
  {
  }

  function RegressionFinding(): Finding {
    Finding("Review fix pass regressed the done-check", "", High)
  }

  function GateErrorFinding(): Finding {
    Finding("Review gate errored before it could clear the issue", "", High)
  }

  /**
   What a normal return of a build means for its log, teardown last: green comes with a gate outcome that is the
   verdict on the step before, a blocking one never on a first review; red came from a red check and pushed nothing.
   */
  ghost predicate Concluded(r: Result<BuildResult>, log: seq<Event>) {
    r.Ok? ==>
      && (r.value.passed <==> r.value.gate.Some?)
      && (r.value.passed ==>
            && |log| >= 2 && GateVerdict(log[|log| - 2], r.value.gate.value)
            && (FoundBlocking(Some(log[|log| - 2])) ==> Count(log, REVIEWS) == 2))
      && (!r.value.passed ==> Count(log, PUSHES) == 0 && |log| >= 3 && log[|log| - 3] == Checked(Red))
  }

  /** The same, as the monitor sees it. */
  ghost predicate ConcludedBy(r: Result<BuildResult>, m: Monitor) {
    r.Ok? ==>
      && (r.value.passed <==> r.value.gate.Some?)
      && (r.value.passed ==>
            && m.second.Some? && GateVerdict(m.second.value, r.value.gate.value)
            && (FoundBlocking(m.second) ==> m.reviews == 2))
      && (!r.value.passed ==> m.pushes == 0 && m.third == Some(Checked(Red)))
  }

  lemma LogConcludes(r: Result<BuildResult>, log: seq<Event>, m: Monitor)
    requires MonitorOf(log) == Some(m) && ConcludedBy(r, m) && (log == [] || m.last == Some(Destroyed))
    ensures Disciplined(log) && Concluded(r, log) && (log != [] ==> log[|log| - 1] == Destroyed)
  {
    Finished(log, m);
  }

  /** Where in the lane's protocol the pipeline takes over from a build. */
  function PhaseAfter(cfg: L.Config, depth: nat, b: BuildResult): L.Phase {
    if !b.passed then L.Building
    else match b.gate
         case None => L.Checking
         case Some(o) => if o.blocking != [] then L.Blocked else L.Filing(L.NitsToFile(cfg, depth, |o.backlog|))
  }

  class IssueBuild {
    const repo: Repository
    const cfg: L.Config
    const issue: nat
    const depth: nat
    const base: string
    var log: seq<Event>
    ghost var monitor: Monitor
    var gate: Option<Outcome>

    /** The log so far is one the monitor accepts. */
    ghost predicate Valid()
      reads this
    {
      MonitorOf(log) == Some(monitor)
    }

    /** The container runs and ordinary steps may be taken. */
    ghost predicate Running()
      reads this
    {
      Valid() && monitor.last.Some? && !monitor.destroyed
    }

    constructor (repo: Repository, cfg: L.Config, issue: nat, depth: nat, base: string)
      ensures this.repo == repo && this.cfg == cfg && this.issue == issue && this.depth == depth && this.base == base
      ensures log == [] && gate == None && Valid()
    {
      this.repo, this.cfg, this.issue, this.depth, this.base := repo, cfg, issue, depth, base;
      log, gate, monitor := [], None, FRESH;
    }

    function TaskAt(phase: L.Phase): L.Task {
      L.Task(issue, depth, base, phase)
    }

    // --- single steps, each answered by the world ---

    method Note(e: Event)
      requires Valid() && Allowed(monitor, e)
      modifies `log, `monitor
      ensures Valid() && monitor == Next(old(monitor), e) && log == old(log) + [e]
    {
      MonitorSnoc(log, monitor, e);
      log := log + [e];
      monitor := Next(monitor, e);
    }

    method Do(step: Step, mayFail: bool := true) returns (r: Result<()>)
      requires Running() && Allowed(monitor, Ran(step, true))
      modifies `log, `monitor, repo`raised
      ensures repo.raised == old(repo.raised) + if r.Raised? then 1 else 0
      ensures Running() && monitor == Next(old(monitor), Ran(step, r.Ok?))
      ensures (r.Raised? ==> mayFail)
    {
      var fails := false;
      if mayFail { fails := repo.Fails(); }
      r := if fails then Raised else Ok(());
      Note(Ran(step, r.Ok?));
    }

    method Implement() returns (r: Result<()>)
      requires Running() && Allowed(monitor, Implemented(true))
      modifies `log, `monitor, repo`raised
      ensures repo.raised == old(repo.raised) + if r.Raised? then 1 else 0
      ensures Running() && monitor == Next(old(monitor), Implemented(r.Ok?))
    {
      var fails := repo.Fails();
      r := if fails then Raised else Ok(());
      Note(Implemented(r.Ok?));
    }

    /** A hollow implement, or a probe that failed, raises. */
    method EnsureCommitsLanded() returns (r: Result<()>)
      requires Running() && Allowed(monitor, Counted(None))
      modifies `log, `monitor, repo`raised
      ensures repo.raised == old(repo.raised) + if r.Raised? then 1 else 0
      ensures Running() && exists probe :: monitor == Next(old(monitor), Counted(probe))
      ensures r.Ok? <==> Landed(monitor.last)
    {
      var fails := repo.Fails();
      var exitOk := Chance();
      var stdout: string := *;
      if !fails && !CommitsLanded(exitOk, stdout) { repo.raised := repo.raised + 1; }
      r := if fails || !CommitsLanded(exitOk, stdout) then Raised else Ok(());
      Note(Counted(if fails then None else Some(Probe(exitOk, stdout))));
    }

    method RunDoneCheck() returns (r: Result<bool>)
      requires Running() && Allowed(monitor, Checked(Green))
      modifies `log, `monitor, repo`raised
      ensures repo.raised == old(repo.raised) + if r.Raised? then 1 else 0
      ensures Running() && monitor == Next(old(monitor),
        Checked(if r.Raised? then Broke else if r.value then Green else Red))
    {
      var fails := repo.Fails();
      var green := Chance();
      r := if fails then Raised else Ok(green);
      Note(Checked(if fails then Broke else if green then Green else Red));
    }

    method PushIssueBranch() returns (r: Result<()>)
      requires Running() && Allowed(monitor, Pushed(true))
      modifies `log, `monitor, repo`hub, repo`raised
      ensures repo.raised == old(repo.raised) + if r.Raised? then 1 else 0
      ensures Running() && monitor == Next(old(monitor), Pushed(r.Ok?))
      ensures repo.hub == if r.Ok? then PushBranch(old(repo.hub), issue) else old(repo.hub)
    {
      r := repo.Push(issue);
      Note(Pushed(r.Ok?));
    }

    method Review() returns (r: Result<seq<Finding>>)
      requires Running() && Allowed(monitor, Reviewed(None))
      modifies `log, `monitor, repo`raised
      ensures repo.raised == old(repo.raised) + if r.Raised? then 1 else 0
      ensures Running() && monitor == Next(old(monitor), Reviewed(if r.Ok? then Some(r.value) else None))
      ensures r.Ok? ==> |Backlog(r.value)| <= cfg.maxNits
    {
      var fails := repo.Fails();
      var answer: seq<Finding> := *;
      var found := Limited(answer, cfg.maxNits);     // any findings with at most that many nits
      LimitedIsAny(answer, cfg.maxNits);
      r := if fails then Raised else Ok(found);
      Note(Reviewed(if fails then None else Some(found)));
    }

    // --- the lifecycle's parts ---

    method CloneAndBranch() returns (r: Result<()>)
      requires Running() && monitor.last == Some(Started)
      modifies `log, `monitor, repo`raised
      ensures repo.raised == old(repo.raised) + if r.Raised? then 1 else 0
      ensures Running() && SameCounts(monitor, old(monitor))
      ensures r.Ok? ==> [monitor.third, monitor.second, monitor.last]
                        == [Some(Ran(Clone, true)), Some(Ran(Fetch, true)), Some(Ran(Checkout, true))]
    {
      var _ :- Do(Clone);
      var commands := [Fetch, Checkout];
      for i := 0 to |commands|
        invariant Running() && SameCounts(monitor, old(monitor)) && repo.raised == old(repo.raised)
        invariant monitor.last == Some(Ran(if i == 0 then Clone else commands[i - 1], true))
        invariant i > 0 ==> monitor.second == Some(Ran(if i == 1 then Clone else commands[i - 2], true))
        invariant i > 1 ==> monitor.third == Some(Ran(Clone, true))
      {
        var _ :- Do(commands[i]);
      }
      r := Ok(());
    }

    ghost predicate SameCounts(m: Monitor, n: Monitor) {
      m.implements == n.implements && m.pushes == n.pushes && m.reviews == n.reviews && m.red == n.red
    }

    ghost predicate Counts(implements: nat, pushes: nat, reviews: nat)
      reads this
    {
      monitor.implements == implements && monitor.pushes == pushes && monitor.reviews == reviews && !monitor.red
    }

    /** Diff the issue branch and have it reviewed. */
    method ReviewTip() returns (r: Result<seq<Finding>>)
      requires Running() && monitor.reviews < 2 && JustPushed()
      modifies `log, `monitor, repo`raised
      ensures repo.raised == old(repo.raised) + if r.Raised? then 1 else 0
      ensures Running()
      ensures r.Ok? ==> monitor.last == Some(Reviewed(Some(r.value))) && monitor.reviews == old(monitor.reviews) + 1
                        && |Backlog(r.value)| <= cfg.maxNits
      ensures r.Raised? <==> Failing(monitor.last.value)
      ensures SameWork(monitor, old(monitor)) && monitor.reviews <= old(monitor.reviews) + 1
    {
      var _ :- Do(Diff);
      r := Review();
    }

    /** The tip to review was pushed last; the first time, its report came in between. */
    ghost predicate JustPushed()
      reads this
    {
      if monitor.reviews == 0 then monitor.last == Some(Ran(Report, true)) && monitor.second == Some(Pushed(true))
      else monitor.last == Some(Pushed(true))
    }

    ghost predicate SameWork(m: Monitor, n: Monitor) {
      m.implements == n.implements && m.pushes == n.pushes && m.red == n.red
    }

    /** The fix pass that answers a blocking review: a green fix is pushed, a red one is not. */
    method FixPass() returns (r: Result<bool>)
      requires Running() && Counts(1, 1, 1) && FoundBlocking(monitor.last) && issue in repo.hub.branches
      modifies `log, `monitor, repo`hub, repo`raised
      ensures repo.raised == old(repo.raised) + if r.Raised? then 1 else 0
      ensures Running() && repo.hub == old(repo.hub) && monitor.reviews == 1
      ensures r == Ok(true) ==> monitor.last == Some(Pushed(true))
      ensures r == Ok(false) ==> monitor.last == Some(Checked(Red))
      ensures r.Raised? <==> Failing(monitor.last.value)
    {
      var _ :- Do(WritePlan);
      var _ :- Implement();
      var passed :- RunDoneCheck();
      if passed {
        var _ :- PushIssueBranch();
        assert repo.hub.branches == old(repo.hub).branches;
      }
      r := Ok(passed);
    }

    /** The fix pass, and the second review of what it pushed. */
    method FixAndReview() returns (r: Result<Outcome>)
      requires Running() && Counts(1, 1, 1) && FoundBlocking(monitor.last) && issue in repo.hub.branches
      modifies `log, `monitor, repo`hub, repo`raised
      ensures repo.raised == old(repo.raised) + if r.Raised? then 1 else 0
      ensures Running() && repo.hub == old(repo.hub)
      ensures BlocksAfterFix()
      ensures r.Ok? ==> GateVerdict(monitor.last.value, r.value) && |r.value.backlog| <= cfg.maxNits
      ensures r.Raised? <==> Failing(monitor.last.value)
    {
      var passed :- FixPass();
      if !passed {
        return Ok(Outcome([RegressionFinding()], [], true));
      }
      var found :- ReviewTip();
      ReviewDecides(found);
      r := Ok(Outcome(Blocking(found), Backlog(found), false));
    }

    /** One critique-and-fix pass over the green, pushed branch. */
    method ReviewGatePass() returns (r: Result<Outcome>)
      requires Running() && Counts(1, 1, 0) && JustPushed() && issue in repo.hub.branches
      modifies `log, `monitor, repo`hub, repo`raised
      ensures repo.raised == old(repo.raised) + if r.Raised? then 1 else 0
      ensures Running() && repo.hub == old(repo.hub)
      ensures BlocksAfterFix()
      ensures r.Ok? ==> GateVerdict(monitor.last.value, r.value) && |r.value.backlog| <= cfg.maxNits
      ensures r.Raised? <==> Failing(monitor.last.value)
    {
      var found :- ReviewTip();
      NothingBlocking(found);
      if |found| == 0 {
        return Ok(Outcome([], [], false));
      }
      var blocking, backlog := Blocking(found), Backlog(found);
      if |blocking| == 0 {
        return Ok(Outcome([], backlog, false));
      }
      r := FixAndReview();
    }

    /** Blocking findings are never the last word of a first review: they get a fix pass and a second one. */
    ghost predicate BlocksAfterFix()
      reads this
    {
      FoundBlocking(monitor.last) ==> monitor.reviews == 2
    }

    /** Fail-closed: whatever the pass raises becomes a blocking outcome. */
    method RunReviewGate() returns (o: Outcome)
      requires Running() && Counts(1, 1, 0) && JustPushed() && issue in repo.hub.branches
      modifies `log, `monitor, repo`hub, repo`raised
      ensures Running() && repo.hub == old(repo.hub) && BlocksAfterFix()
      ensures GateVerdict(monitor.last.value, o) && |o.backlog| <= cfg.maxNits
      ensures repo.raised == old(repo.raised) + if Failing(monitor.last.value) then 1 else 0
    {
      var r := ReviewGatePass();
      match r
      case Ok(outcome) => o := outcome;
      case Raised => o := Outcome([GateErrorFinding()], [], false);
    }

    /** Implement, guard against a hollow run, check; push when green. */
    method ImplementAndPush() returns (r: Result<bool>)
      requires Running() && Counts(0, 0, 0)
      requires monitor.last == Some(Ran(WritePlan, true)) && monitor.second == Some(Ran(RunPlanner, true))
      modifies `log, `monitor, repo`hub, repo`raised
      ensures repo.raised == old(repo.raised) + if r.Raised? then 1 else 0
      ensures Running()
      ensures r == Ok(true) ==> Counts(1, 1, 0) && monitor.last == Some(Pushed(true))
      ensures r == Ok(false) ==> monitor.pushes == 0 && monitor.last == Some(Checked(Red))
      ensures repo.hub == if r == Ok(true) then PushBranch(old(repo.hub), issue) else old(repo.hub)
    {
      var _ :- Implement();
      var _ :- EnsureCommitsLanded();
      var passed :- RunDoneCheck();
      if passed { var _ :- PushIssueBranch(); }
      r := Ok(passed);
    }

    /** Everything before the implementer runs. */
    method Prepare() returns (r: Result<()>)
      requires Running() && Counts(0, 0, 0) && monitor.last == Some(Started)
      modifies `log, `monitor, repo`raised
      ensures repo.raised == old(repo.raised) + if r.Raised? then 1 else 0
      ensures Running() && repo.hub == old(repo.hub)
      ensures r.Ok? ==>
        Counts(0, 0, 0) && monitor.last == Some(Ran(WritePlan, true)) && monitor.second == Some(Ran(RunPlanner, true))
    {
      var _ :- CloneAndBranch();
      var _ :- Do(RunPlanner);
      r := Do(WritePlan);
    }

    /** The `try` block: everything between the container's start and its teardown. */
    method InContainer() returns (r: Result<bool>, ghost es: seq<L.TaskEvent>, ghost phase: L.Phase)
      requires Running() && Counts(0, 0, 0) && gate == None && monitor.last == Some(Started)
      modifies `log, `monitor, `gate, repo`hub, repo`raised
      ensures repo.raised >= old(repo.raised) + if r.Raised? then 1 else 0
      ensures Running()
      ensures r.Ok? ==> (r.value <==> gate.Some?)
      ensures r == Ok(true) ==>
        && GateVerdict(monitor.last.value, gate.value) && BlocksAfterFix()
        && repo.hub == PushBranch(old(repo.hub), issue)
      ensures r == Ok(false) ==>
        && repo.hub == old(repo.hub) && monitor.pushes == 0
        && monitor.second == Some(Checked(Red)) && monitor.last == Some(Ran(Report, true))
      ensures RaisedIn(phase, old(repo.hub), es, repo.hub, r.Ok? || cfg.sinksMayFail)
      ensures r.Ok? ==> phase == PhaseAfter(cfg, depth, BuildResult(r.value, gate))
    {
      r, es, phase := UpToReport();
      if r.Raised? { return; }
      if r.value { es := Gated(old(repo.hub), es); }
      phase := PhaseAfter(cfg, depth, BuildResult(r.value, gate));
    }

    /** Prepare, implement, check, push when green, report either way. */
    method UpToReport() returns (r: Result<bool>, ghost es: seq<L.TaskEvent>, ghost phase: L.Phase)
      requires Running() && Counts(0, 0, 0) && monitor.last == Some(Started)
      modifies `log, `monitor, repo`hub, repo`raised
      ensures repo.raised == old(repo.raised) + if r.Raised? then 1 else 0
      ensures Running()
      ensures r == Ok(true) ==>
        Counts(1, 1, 0) && JustPushed() && repo.hub == PushBranch(old(repo.hub), issue) && phase == L.Pushed(false)
      ensures r == Ok(false) ==>
        && repo.hub == old(repo.hub) && monitor.pushes == 0 && phase == L.Building
        && monitor.second == Some(Checked(Red)) && monitor.last == Some(Ran(Report, true))
      ensures RaisedIn(phase, old(repo.hub), es, repo.hub, r.Ok? || cfg.sinksMayFail)
    {
      es, phase := [], L.Building;
      var _ :- Prepare();
      var passed :- ImplementAndPush();
      es, phase := CheckEvents(passed, old(repo.hub));
      var _ :- Do(Report, !passed || cfg.sinksMayFail);
      r := Ok(passed);
    }

    /** The task's events up to the check: a push when it was green. */
    lemma CheckEvents(passed: bool, hub: Hub) returns (es: seq<L.TaskEvent>, phase: L.Phase)
      ensures phase == if passed then L.Pushed(false) else L.Building
      ensures RaisedIn(phase, hub, es, if passed then PushBranch(hub, issue) else hub, true)
      ensures !passed ==> RaisedIn(phase, hub, es, hub, cfg.sinksMayFail)
    {
      es, phase := if passed then [L.Push] else [], if passed then L.Pushed(false) else L.Building;
      if passed { assert es[1..] == []; }
    }

    /** The review gate on the pushed branch, with the fix's push if there was one. */
    method Gated(ghost hub: Hub, ghost before: seq<L.TaskEvent>) returns (ghost es: seq<L.TaskEvent>)
      requires Running() && Counts(1, 1, 0) && JustPushed() && issue in repo.hub.branches
      requires RaisedIn(L.Pushed(false), hub, before, repo.hub, true)
      modifies `log, `monitor, `gate, repo`hub, repo`raised
      ensures Running() && repo.hub == old(repo.hub) && repo.raised >= old(repo.raised)
      ensures gate.Some? && GateVerdict(monitor.last.value, gate.value) && BlocksAfterFix()
      ensures RaisedIn(PhaseAfter(cfg, depth, BuildResult(true, gate)), hub, es, repo.hub, true)
    {
      ghost var tip, phase := repo.hub, L.Pushed(false);
      es := before;
      var outcome := RunReviewGate();
      gate := Some(outcome);
      if monitor.pushes == 2 {
        assert tip.branches + {issue} == tip.branches;
        L.RunsAloneSnoc(cfg, TaskAt(L.Building), hub, es, TaskAt(phase), tip, L.PushFix);
        es, phase := es + [L.PushFix], L.Pushed(true);
      }
      var e := L.Gate(outcome.blocking != [], |outcome.backlog|);
      L.RunsAloneSnoc(cfg, TaskAt(L.Building), hub, es, TaskAt(phase), tip, e);
      es := es + [e];
    }

    /** The task got from Building to `phase`, where an exception may leave it if `open` allows. */
    ghost predicate RaisedIn(phase: L.Phase, hub: Hub, es: seq<L.TaskEvent>, hub': Hub, open: bool) {
      && L.RunsAlone(cfg, TaskAt(L.Building), hub, es, L.Continues(TaskAt(phase)), hub')
      && (phase.Pushed? || phase.Blocked? ==> open)
    }

    /** Start, `try`, teardown: the container is destroyed however the block was left. */
    method Contained() returns (r: Result<BuildResult>, ghost es: seq<L.TaskEvent>)
      requires Valid() && monitor == FRESH && gate == None
      modifies `log, `monitor, `gate, repo`hub, repo`raised
      ensures repo.raised >= old(repo.raised) + if r.Raised? then 1 else 0
      ensures Valid() && monitor.last == Some(Destroyed)
      ensures ConcludedBy(r, monitor)
      ensures r.Ok? ==>
        repo.hub == if r.value.passed then PushBranch(old(repo.hub), issue) else old(repo.hub)
      ensures Ends(r, old(repo.hub), es, repo.hub)
    {
      ghost var hub := repo.hub;
      Note(Started);
      var inner;
      ghost var phase;
      inner, es, phase := InContainer();
      var stuck := false;              // the teardown request itself raised
      if cfg.sinksMayFail { stuck := repo.Fails(); }
      Note(Destroyed);
      if inner.Raised? {
        es := RaiseFrom(phase, hub, es, repo.hub, cfg.sinksMayFail);
        r := Raised;
      } else if stuck {
        es := RaiseFrom(phase, hub, es, repo.hub, true);
        r := Raised;
      } else {
        r := Ok(BuildResult(inner.value, gate));
      }
    }

    /** The build's events are a run of the lane task from Building: to the pipeline's phase, or to Failed. */
    ghost predicate Ends(r: Result<BuildResult>, hub: Hub, es: seq<L.TaskEvent>, hub': Hub) {
      L.RunsAlone(cfg, TaskAt(L.Building), hub, es,
        if r.Ok? then L.Continues(TaskAt(PhaseAfter(cfg, depth, r.value))) else L.Failed, hub')
    }

    /**
     The whole build. On every path the log is disciplined and a started container is destroyed, once and
     last. A normal return is green exactly when a gate outcome comes with it; red pushed nothing. An outcome
     without blocking findings means the last step before teardown was a clean review of the pushed tip.
     */
    method Build() returns (r: Result<BuildResult>, ghost es: seq<L.TaskEvent>)
      requires log == [] && gate == None && Valid()
      modifies `log, `monitor, `gate, repo`hub, repo`raised
      ensures repo.raised >= old(repo.raised) + if r.Raised? then 1 else 0
      ensures Disciplined(log) && (log != [] ==> log[|log| - 1] == Destroyed)
      ensures Concluded(r, log)
      ensures r.Ok? ==>
        repo.hub == if r.value.passed then PushBranch(old(repo.hub), issue) else old(repo.hub)
      ensures Ends(r, old(repo.hub), es, repo.hub)
    {
      r, es := Attempt();
      LogConcludes(r, log, monitor);
    }

    /** The same, by what the monitor saw. */
    method Attempt() returns (r: Result<BuildResult>, ghost es: seq<L.TaskEvent>)
      requires log == [] && gate == None && Valid()
      modifies `log, `monitor, `gate, repo`hub, repo`raised
      ensures repo.raised >= old(repo.raised) + if r.Raised? then 1 else 0
      ensures Valid() && ConcludedBy(r, monitor) && (log == [] || monitor.last == Some(Destroyed))
      ensures r.Ok? ==>
        repo.hub == if r.value.passed then PushBranch(old(repo.hub), issue) else old(repo.hub)
      ensures Ends(r, old(repo.hub), es, repo.hub)
    {
      es := [];
      var unprepared := repo.Fails();      // no done-check block, a missing secret, no token, no container
      if unprepared {
        es := RaiseFrom(L.Building, repo.hub, es, repo.hub, cfg.sinksMayFail);
        r := Raised;
      } else {
        r, es := Contained();
      }
    }

    ghost method RaiseFrom(phase: L.Phase, hub: Hub, es: seq<L.TaskEvent>, hub': Hub, open: bool)
      returns (es': seq<L.TaskEvent>)
      requires RaisedIn(phase, hub, es, hub', open) && (open ==> cfg.sinksMayFail)
      ensures L.RunsAlone(cfg, TaskAt(L.Building), hub, es', L.Failed, hub')
    {
      L.RunsAloneSnoc(cfg, TaskAt(L.Building), hub, es, TaskAt(phase), hub', L.Raise);
      es' := es + [L.Raise];
    }
  }
}
