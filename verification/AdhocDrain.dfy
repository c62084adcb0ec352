/**
 One pass of the scheduler drain as the source runs it, phase by phase under the single-run lock, with the
 selected builds run one after another. A ghost copy of the lane's protocol state follows the code; every call
 is proved to be a run of that protocol, so what holds of all runs holds of this code.
 */
module AdhocDrain {
  import Budget
  import opened Collections
  import opened GitHub
  import opened Lane
  import LaneSafety
  import opened LaneTask
  import opened MeterLog
  import P = BudgetProtocol
  import Pipeline
  import RepoConfig
  import RunLedger
  import Scheduler
  import SingleRun
  import opened Wrappers

  // --- what reaching a state means for the promises ---

  /** The drain's own steps, with no exception that leaves a live sibling behind. */
  const ALONE := Undisturbed(true)

  /** How the drain ran a stretch of the protocol: an exception left a coroutine with live siblings, or none did. */
  function Way(orphaned: bool): Manner {
    Undisturbed(!orphaned)
  }

  lemma Onward(first: bool, second: bool, cfg: Config, a: Lane, b: Lane, c: Lane)
    requires Reaches(Way(first), cfg, a, b) && Reaches(Way(second), cfg, b, c)
    ensures Reaches(Way(first || second), cfg, a, c)
  {
    ReachesToo(Way(first), Way(first || second), cfg, a, b);
    ReachesToo(Way(second), Way(first || second), cfg, b, c);
    ReachesThen(Way(first || second), cfg, a, b, c);
  }

  /** An exception leaving this coroutine would leave siblings of the current drain behind. */
  predicate HasSiblings(s: Lane, tid: nat) {
    tid in s.own && s.own != {tid}
  }

  /** Some run from `a` to `b` keeps the promises all along: in every state and at every step. */
  ghost predicate SafelyReaches(cfg: Config, a: Lane, b: Lane) {
    exists es :: Run(cfg, a, es) && Final(cfg, a, es) == b
      && LaneSafety.RunKeeps(LaneSafety.OnePullRequest, cfg, a, es)
      && LaneSafety.RunKeeps(LaneSafety.NoRebuild, cfg, a, es)
      && (!cfg.sinksMayFail ==>
            && LaneSafety.RunKeeps(LaneSafety.HeldWearHitl, cfg, a, es)
            && LaneSafety.RunKeeps(LaneSafety.HeldNotOpened, cfg, a, es))
  }

  /**
   What the protocol's theorems say about anything that reaches a state by its steps, as every drain call does:
   from rest, if no exception left a coroutine with a live sibling or builds run one at a time, nothing was
   duplicated or rebuilt on the way, and if the sinks never fail the gate failed closed all along.
   */
  lemma ReachedStateIsSafe(m: Manner, cfg: Config, a: Lane, b: Lane)
    requires Initial(a) && Reaches(m, cfg, a, b) && (Stricter(m, Orderly) || cfg.cap == Some(1))
    ensures SafelyReaches(cfg, a, b)
  {
    var es :| Run(cfg, a, es) && Suited(m, cfg, a, es) && Final(cfg, a, es) == b;
    if cfg.cap == Some(1) { LaneSafety.CapOneIsOrderly(cfg, a, es); } else { SuitedToo(m, Orderly, cfg, a, es); }
    LaneSafety.OrderlyRunsDedup(cfg, a, es);
    if !cfg.sinksMayFail { LaneSafety.OrderlyRunsFailClosed(cfg, a, es); }
  }

  // --- a task run alone is a stretch of the protocol ---

  ghost predicate Lifted(s: Lane, tid: nat, p: Progress, hub': Hub, s': Lane) {
    && s'.hub == hub'
    && match p
       case Continues(t) => s'.tasks == s.tasks[tid := t] && s'.own == s.own && s'.drain == s.drain
       case Finished => s'.tasks == s.tasks - {tid} && s'.own == s.own - {tid} && s'.drain == s.drain
       case Failed =>
         && s'.tasks == s.tasks - {tid}
         && (if tid in s.own then s'.own == {} && s'.drain == Idle else s'.own == s.own && s'.drain == s.drain)
  }

  lemma {:induction false} LiftTask(
      m: Manner, cfg: Config, s: Lane, tid: nat, es: seq<TaskEvent>, p: Progress, hub': Hub) returns (s': Lane)
    requires tid in s.tasks && RunsAlone(cfg, s.tasks[tid], s.hub, es, p, hub')
    requires m.Undisturbed? && (m.orderly && p.Failed? ==> !HasSiblings(s, tid))
    ensures Reaches(m, cfg, s, s') && Lifted(s, tid, p, hub', s')
    ensures !s.tasks[tid].phase.Queued? ==> s'.handed == s.handed
    decreases |es|
  {
    if es == [] {
      s' := s;
      ReachesSelf(m, cfg, s);
    } else {
      var s1 := AfterTask(cfg, s, tid, es[0]);
      match Advance(cfg, s.tasks[tid], es[0]) {
        case Continues(t') =>
          s' := LiftTask(m, cfg, s1, tid, es[1..], p, hub');
          assert s.tasks[tid := t'] - {tid} == s.tasks - {tid};
        case _ =>
          s' := s1;
          ReachesSelf(m, cfg, s');
      }
      ReachesBack(m, cfg, s, T(tid, es[0]), s1, s');
    }
  }

  /** Issues stay, with the bodies they have, whatever a task does. */
  ghost predicate KeepsBodies(a: Hub, b: Hub) {
    forall n | n in a.issues :: n in b.issues && b.issues[n].body == a.issues[n].body
  }

  lemma {:induction false} TaskKeepsBodies(cfg: Config, t: Task, hub: Hub, es: seq<TaskEvent>, p: Progress, hub': Hub)
    requires RunsAlone(cfg, t, hub, es, p, hub')
    ensures KeepsBodies(hub, hub')
    decreases |es|
  {
    if es != [] {
      assert KeepsBodies(hub, Effect(t, hub, es[0]));
      match Advance(cfg, t, es[0])
      case Continues(t') => TaskKeepsBodies(cfg, t', Effect(t, hub, es[0]), es[1..], p, hub');
      case _ =>
    }
  }

  // --- the selection, as the lane states it ---

  method Enumerate(all: set<nat>) returns (s: seq<nat>)
    ensures Distinct(s) && ToSet(s) == all
  {
    s := [];
    var left := all;
    while left != {}
      invariant Distinct(s) && left <= all && forall n :: n in s <==> n in all && n !in left
      decreases left
    {
      var n :| n in left;
      s := s + [n];
      left := left - {n};
    }
  }

  /** The tasks a selection spawns: coroutine `k` for the `k`-th issue. */
  function Numbered(chosen: seq<nat>): (m: map<nat, nat>)
    ensures |m| == |chosen|
    ensures forall k: nat :: k in m <==> k < |chosen|
    ensures forall k: nat | k < |chosen| :: m[k] == chosen[k]
  {
    if chosen == [] then map[] else Numbered(chosen[..|chosen| - 1])[|chosen| - 1 := chosen[|chosen| - 1]]
  }

  lemma NumberedValues(chosen: seq<nat>)
    ensures Numbered(chosen).Values == ToSet(chosen)
  {
    var m := Numbered(chosen);
    forall n | n in ToSet(chosen) ensures n in m.Values {
      var k :| 0 <= k < |chosen| && chosen[k] == n;
      assert k in m && m[k] == n;
    }
  }

  /** The candidates the drain hands to the scheduler. */
  function Candidates(numbers: seq<nat>, labelsOf: nat -> seq<string>): (cs: seq<Scheduler.Candidate>)
    ensures |cs| == |numbers|
    ensures forall i | 0 <= i < |cs| :: cs[i] == Scheduler.Candidate(numbers[i], labelsOf(numbers[i]))
  {
    if numbers == [] then []
    else Candidates(numbers[..|numbers| - 1], labelsOf)
         + [Scheduler.Candidate(numbers[|numbers| - 1], labelsOf(numbers[|numbers| - 1]))]
  }

  /** The labels agree with the urgency the lane knows. */
  ghost predicate LabelsAgree(config: RepoConfig.RepoConfig, numbers: set<nat>, labelsOf: nat -> seq<string>,
      urgent: set<nat>) {
    forall n | n in numbers :: n in urgent <==> Scheduler.UrgentIn(config)(Scheduler.Candidate(n, labelsOf(n)))
  }

  function Selected(config: RepoConfig.RepoConfig, numbers: seq<nat>, labelsOf: nat -> seq<string>,
      cap: Option<int>): seq<Scheduler.Candidate> {
    Scheduler.SelectToBuild(config, Candidates(numbers, labelsOf), cap)
  }

  lemma SelectedAreListed(config: RepoConfig.RepoConfig, numbers: seq<nat>, labelsOf: nat -> seq<string>,
      cap: Option<int>, c: Scheduler.Candidate)
    requires RepoConfig.Validated(config) && c in Selected(config, numbers, labelsOf, cap)
    ensures c.number >= 0 && c.number in ToSet(numbers) && c == Scheduler.Candidate(c.number, labelsOf(c.number))
  {
    Scheduler.SelectionIsLaneChoice(config, Candidates(numbers, labelsOf), cap);
    var i :| 0 <= i < |numbers| && Candidates(numbers, labelsOf)[i] == c;
  }

  lemma AnyUrgentListed(config: RepoConfig.RepoConfig, numbers: seq<nat>, labelsOf: nat -> seq<string>,
      urgent: set<nat>)
    requires LabelsAgree(config, ToSet(numbers), labelsOf, urgent)
    ensures Scheduler.AnyUrgent(config, Candidates(numbers, labelsOf)) <==> ToSet(numbers) * urgent != {}
  {
    var cs := Candidates(numbers, labelsOf);
    if c :| c in cs && Scheduler.UrgentIn(config)(c) {
      var i :| 0 <= i < |cs| && cs[i] == c;
      assert numbers[i] in ToSet(numbers) * urgent;
    }
    if n :| n in ToSet(numbers) * urgent {
      var i :| 0 <= i < |numbers| && numbers[i] == n;
      assert cs[i] in cs && Scheduler.UrgentIn(config)(cs[i]);
    }
  }

  ghost predicate AreNumbersOf(chosen: seq<nat>, started: seq<Scheduler.Candidate>) {
    |chosen| == |started| && forall i | 0 <= i < |chosen| :: chosen[i] == started[i].number
  }

  lemma ChosenAreListed(config: RepoConfig.RepoConfig, numbers: seq<nat>, labelsOf: nat -> seq<string>,
      cap: Option<int>, chosen: seq<nat>)
    requires RepoConfig.Validated(config) && Distinct(numbers)
      && AreNumbersOf(chosen, Selected(config, numbers, labelsOf, cap))
    ensures Distinct(chosen) && ToSet(chosen) <= ToSet(numbers)
    ensures forall i | 0 <= i < |chosen| ::
      Selected(config, numbers, labelsOf, cap)[i] == Scheduler.Candidate(chosen[i], labelsOf(chosen[i]))
  {
    var started := Selected(config, numbers, labelsOf, cap);
    forall i | 0 <= i < |started|
      ensures chosen[i] in ToSet(numbers) && started[i] == Scheduler.Candidate(chosen[i], labelsOf(chosen[i]))
    {
      SelectedAreListed(config, numbers, labelsOf, cap, started[i]);
    }
    forall i, j | 0 <= i < j < |chosen| ensures chosen[i] != chosen[j] {
      Scheduler.StartedOnce(config, Candidates(numbers, labelsOf), cap, i, j);
    }
  }

  /** `chosen` are the numbers the scheduler selects from `buildable`, in its order. */
  ghost predicate RanksAndTakes(config: RepoConfig.RepoConfig, chosen: seq<nat>, buildable: set<nat>,
      labelsOf: nat -> seq<string>) {
    exists numbers: seq<nat> :: Distinct(numbers) && ToSet(numbers) == buildable
      && AreNumbersOf(chosen, Selected(config, numbers, labelsOf, config.maxParallel))
  }

  /** `m` numbers the issues of `chosen`. */
  ghost predicate Numbers(m: map<nat, nat>, chosen: seq<nat>) {
    && |m| == |chosen| && (forall k: nat :: k in m <==> k < |chosen|)
    && (forall k: nat | k < |chosen| :: m[k] == chosen[k])
  }

  lemma NumbersSelect(cfg: Config, m: map<nat, nat>, chosen: seq<nat>, all: set<nat>, urgent: set<nat>)
    requires Numbers(m, chosen) && m.Values == ToSet(chosen) && Distinct(chosen) && ToSet(chosen) <= all
    requires |chosen| == Scheduler.SelectCount(|all|, cfg.cap, all * urgent != {})
    requires ToSet(chosen) <= urgent || all * urgent <= ToSet(chosen)
    ensures Selection(cfg, m, all, urgent)
  {
  }

  /** What the scheduler picks is one of the selections the lane allows. */
  lemma ChoiceIsSelection(cfg: Config, config: RepoConfig.RepoConfig, numbers: seq<nat>, labelsOf: nat -> seq<string>,
      urgent: set<nat>, chosen: seq<nat>)
    requires RepoConfig.Validated(config) && cfg.cap == config.maxParallel && Distinct(numbers)
    requires LabelsAgree(config, ToSet(numbers), labelsOf, urgent)
    requires AreNumbersOf(chosen, Selected(config, numbers, labelsOf, cfg.cap))
    ensures Distinct(chosen) && ToSet(chosen) <= ToSet(numbers)
    ensures Selection(cfg, Numbered(chosen), ToSet(numbers), urgent)
  {
    ChosenAreListed(config, numbers, labelsOf, cfg.cap, chosen);
    Scheduler.SelectionIsLaneChoice(config, Candidates(numbers, labelsOf), cfg.cap);
    UrgentChosenFirst(config, numbers, labelsOf, urgent, chosen, Selected(config, numbers, labelsOf, cfg.cap));
    AnyUrgentListed(config, numbers, labelsOf, urgent);
    DistinctSize(numbers);
    NumberedValues(chosen);
    NumbersSelect(cfg, Numbered(chosen), chosen, ToSet(numbers), urgent);
  }

  lemma UrgentChosenFirst(config: RepoConfig.RepoConfig, numbers: seq<nat>, labelsOf: nat -> seq<string>,
      urgent: set<nat>, chosen: seq<nat>, started: seq<Scheduler.Candidate>)
    requires LabelsAgree(config, ToSet(numbers), labelsOf, urgent) && ToSet(chosen) <= ToSet(numbers)
    requires |chosen| == |started|
    requires forall i | 0 <= i < |chosen| :: started[i] == Scheduler.Candidate(chosen[i], labelsOf(chosen[i]))
    requires Scheduler.UrgentFirst(config, started, Candidates(numbers, labelsOf))
    ensures ToSet(chosen) <= urgent || ToSet(numbers) * urgent <= ToSet(chosen)
  {
    if d :| d in ToSet(chosen) && d !in urgent {
      var j :| 0 <= j < |chosen| && chosen[j] == d;
      assert started[j] in started && !Scheduler.UrgentIn(config)(started[j]);
      forall n | n in ToSet(numbers) * urgent ensures n in ToSet(chosen) {
        var i :| 0 <= i < |numbers| && numbers[i] == n;
        var c := Candidates(numbers, labelsOf)[i];
        assert c in Candidates(numbers, labelsOf) && Scheduler.UrgentIn(config)(c);
        assert c in started;
        var k :| 0 <= k < |started| && started[k] == c;
        assert chosen[k] == n;
      }
    }
  }

  /** The selected issues' coroutines from `k` on have not begun, the earlier ones are over. */
  ghost predicate PendingIn(s: Lane, base: string, issues: seq<Pipeline.AdhocIssue>, k: nat, failed: bool) {
    && (forall j: nat :: j in s.tasks <==> k <= j < |issues|)
    && (forall j: nat | k <= j < |issues| :: s.tasks[j] == Task(issues[j].number, issues[j].chainDepth, base, Queued))
    && (if failed then s.drain.Idle? && s.own == {} else s.drain.BuildingAll? && s.own == s.tasks.Keys)
  }

  /** Before an exception, exactly the later coroutines are the siblings; after one, nobody is anybody's. */
  lemma SiblingsPending(s: Lane, base: string, issues: seq<Pipeline.AdhocIssue>, k: nat, failed: bool)
    requires PendingIn(s, base, issues, k, failed) && k < |issues|
    ensures HasSiblings(s, k) <==> !failed && k + 1 < |issues|
  {
    if !failed {
      assert k in s.own;
      if k + 1 < |issues| { assert k + 1 in s.own; }
    }
  }

  lemma NextPending(s: Lane, s': Lane, base: string, issues: seq<Pipeline.AdhocIssue>, k: nat, failed: bool,
      p: Progress, hub: Hub)
    requires PendingIn(s, base, issues, k, failed) && k < |issues| && (p.Finished? || p.Failed?)
      && Lifted(s, k, p, hub, s')
    ensures PendingIn(s', base, issues, k + 1, failed || p.Failed?)
  {
    assert s'.tasks == s.tasks - {k};
    assert s'.tasks.Keys == s.tasks.Keys - {k};
  }

  /** A coroutine that went on to another phase before it ended. */
  lemma LiftedTwice(s: Lane, mid: Lane, s': Lane, tid: nat, t: Task, p: Progress, hub: Hub, hub': Hub)
    requires Lifted(s, tid, Continues(t), hub, mid) && Lifted(mid, tid, p, hub', s') && tid in s.tasks && !p.Continues?
    ensures Lifted(s, tid, p, hub', s')
  {
    assert s.tasks[tid := t] - {tid} == s.tasks - {tid};
  }

  /** The coroutine spawned for an issue carries the depth its listed body says. */
  lemma SpawnAt(cfg: Config, hub: Hub, m: map<nat, nat>, base: string, tid: nat, body: string)
    requires m.Values <= hub.issues.Keys && tid in m && m[tid] in hub.issues && hub.issues[m[tid]].body == body
    ensures var tasks, issue := map[] + Spawn(cfg, hub, m, base), Pipeline.FromFetched(cfg, m[tid], body);
      tid in tasks && tasks[tid] == Task(issue.number, issue.chainDepth, base, Queued)
  {
  }

  lemma SpawnKeys(cfg: Config, hub: Hub, m: map<nat, nat>, base: string)
    requires m.Values <= hub.issues.Keys
    ensures (map[] + Spawn(cfg, hub, m, base)).Keys == m.Keys
  {
  }

  /** `issues` are those numbers with the depths their listed bodies carry. */
  ghost predicate Fetched(cfg: Config, issues: seq<Pipeline.AdhocIssue>, chosen: seq<nat>, bodies: map<nat, string>) {
    && |issues| == |chosen|
    && forall j | 0 <= j < |chosen| ::
         chosen[j] in bodies && issues[j] == Pipeline.FromFetched(cfg, chosen[j], bodies[chosen[j]])
  }

  lemma SpawnedArePending(cfg: Config, s: Lane, base: string, bodies: map<nat, string>, m: map<nat, nat>,
      chosen: seq<nat>, issues: seq<Pipeline.AdhocIssue>)
    requires Numbers(m, chosen) && m.Values <= s.hub.issues.Keys && Fetched(cfg, issues, chosen, bodies)
    requires s.tasks == map[] + Spawn(cfg, s.hub, m, base)
    requires s.tasks.Keys == m.Keys && s.own == s.tasks.Keys && s.drain == BuildingAll
    requires forall n | n in m.Values && n in bodies && n in s.hub.issues :: s.hub.issues[n].body == bodies[n]
    ensures PendingIn(s, base, issues, 0, false)
  {
    forall j: nat | j < |issues| ensures s.tasks[j] == Task(issues[j].number, issues[j].chainDepth, base, Queued) {
      assert j in m && m[j] == chosen[j] && m[j] in m.Values;
      SpawnAt(cfg, s.hub, m, base, j, bodies[chosen[j]]);
    }
  }

  /** What the selection step leaves: one waiting coroutine per selected issue. */
  lemma SelectSpawns(cfg: Config, s: Lane, base: string, buildable: set<nat>, m: map<nat, nat>, chosen: seq<nat>,
      issues: seq<Pipeline.AdhocIssue>, bodies: map<nat, string>)
    requires s.tasks == map[] && s.own == {} && s.drain.Recovering? && s.drain.pass.base == base
    requires s.drain == Recovering(s.drain.pass, {}, buildable)
    requires forall n | n in buildable :: n in bodies && n in s.hub.issues && s.hub.issues[n].body == bodies[n]
    requires Numbers(m, chosen) && m.Values == ToSet(chosen) && ToSet(chosen) <= buildable
    requires Fetched(cfg, issues, chosen, bodies) && Selection(cfg, m, buildable, s.drain.pass.urgent)
    ensures DrainEnabled(cfg, s, Select(m))
    ensures PendingIn(AfterDrain(cfg, s, Select(m)), base, issues, 0, false)
  {
    SpawnKeys(cfg, s.hub, m, base);
    SpawnedArePending(cfg, AfterDrain(cfg, s, Select(m)), base, bodies, m, chosen, issues);
  }

  // --- a whole pass ---

  /** The admitted issues whose blockers are all closed. */
  ghost function ReadyNow(cfg: Config, hub: Hub): set<nat> {
    set n | n in AdmittedNow(hub) && forall b | b in Blockers(cfg, n) :: IsClosed(hub, b)
  }

  /** What the listing says of the bodies. */
  ghost function BodiesNow(hub: Hub): map<nat, string> {
    map n | n in hub.issues && hub.issues[n].open && hub.issues[n].trigger :: hub.issues[n].body
  }

  /** The ready issues without a branch. */
  ghost function BuildableNow(cfg: Config, hub: Hub): set<nat> {
    ReadyNow(cfg, hub) - hub.branches
  }

  /** The ready issues with a branch and no open pull request from it. */
  ghost function StrandedNow(cfg: Config, hub: Hub): set<nat> {
    (ReadyNow(cfg, hub) * hub.branches) - Heads(hub.prs)
  }

  /** The protocol goes from `a`, by whatever steps, to the regular end of a drain at `b`. */
  ghost predicate EndsPass(cfg: Config, a: Lane, b: Lane) {
    exists mid :: Reaches(ALONE, cfg, a, mid) && DrainEnabled(cfg, mid, End) && AfterDrain(cfg, mid, End) == b
  }

  /** A drain that listed at `a` and ended regularly at `b`, all its coroutines over. */
  ghost predicate FullPass(cfg: Config, a: Lane, b: Lane, base: string) {
    DrainEnabled(cfg, a, Start(base)) && EndsPass(cfg, AfterDrain(cfg, a, Start(base)), b)
  }

  lemma EndsPassAfter(cfg: Config, a: Lane, mid: Lane, b: Lane)
    requires Reaches(ALONE, cfg, a, mid) && EndsPass(cfg, mid, b)
    ensures EndsPass(cfg, a, b)
  {
    var last :| Reaches(ALONE, cfg, mid, last) && DrainEnabled(cfg, last, End) && AfterDrain(cfg, last, End) == b;
    ReachesThen(ALONE, cfg, a, mid, last);
  }

  function IssueNumbers(issues: seq<Pipeline.AdhocIssue>): (ns: seq<nat>)
    ensures |ns| == |issues|
  {
    if issues == [] then [] else IssueNumbers(issues[..|issues| - 1]) + [issues[|issues| - 1].number]
  }

  lemma NumbersSnoc(issues: seq<Pipeline.AdhocIssue>, issue: Pipeline.AdhocIssue)
    ensures IssueNumbers(issues + [issue]) == IssueNumbers(issues) + [issue.number]
  {
    assert (issues + [issue])[..|issues|] == issues;
  }

  // --- the drain ---

  /** Who was handed to `build`, the shared budget, and how many outside calls raised. */
  datatype Books = OnRecord(handed: seq<nat>, spend: P.Ledger, faults: nat)

  class AdhocDrain {
    const pipeline: Pipeline.Pipeline
    const governor: Budget.BudgetGovernor
    const lock: SingleRun.SingleRunLock
    const config: RepoConfig.RepoConfig
    const estimate: real
    ghost var lane: Lane

    ghost function Cfg(): Config {
      pipeline.cfg
    }

    /** The ghost state agrees with GitHub and no coroutine of an earlier drain is left. */
    ghost predicate InStep()
      reads this, pipeline.repo
    {
      lane.hub == pipeline.repo.hub
    }

    ghost predicate Valid()
      reads this, pipeline.repo
    {
      && InStep() && pipeline.Valid()
      && RepoConfig.Validated(config) && pipeline.cfg.cap == config.maxParallel
    }

    /** The exceptions of this drain's outside calls so far. */
    ghost function Faults(): nat
      reads pipeline.repo, pipeline.runLedger, governor.ledger.table
    {
      pipeline.Faults() + governor.ledger.table.raised
    }

    /** The shared budget, as its protocol sees it. */
    ghost function Spend(): P.Ledger
      reads governor.ledger.clock, governor.ledger.table
    {
      Budget.StateOf(governor.ledger.clock, governor.ledger.table)
    }

    ghost function Metering(): Meter {
      Meter(governor.ledger.weeklyBudget == 0.0, governor.ledger.Cap(), estimate)
    }

    ghost predicate AtRest()
      reads this
    {
      lane.drain.Idle? && lane.own == {} && lane.tasks == map[]
    }

    constructor (pipeline: Pipeline.Pipeline, governor: Budget.BudgetGovernor, lock: SingleRun.SingleRunLock,
        config: RepoConfig.RepoConfig, estimate: real)
      requires pipeline.Valid() && RepoConfig.Validated(config) && pipeline.cfg.cap == config.maxParallel
      ensures Valid() && AtRest() && this.pipeline == pipeline && this.lock == lock && this.governor == governor
    {
      this.pipeline, this.governor, this.lock, this.config, this.estimate := pipeline, governor, lock, config, estimate;
      lane := Lane(pipeline.repo.hub, Idle, {}, map[], {}, {}, []);
    }

    /** One protocol event, of the drain itself. */
    ghost method Step(e: DrainEvent)
      requires DrainEnabled(Cfg(), lane, e)
      modifies `lane
      ensures lane == AfterDrain(Cfg(), old(lane), e) && Reaches(ALONE, Cfg(), old(lane), lane)
    {
      ReachesSelf(ALONE, Cfg(), AfterDrain(Cfg(), lane, e));
      ReachesBack(ALONE, Cfg(), lane, D(e), AfterDrain(Cfg(), lane, e), AfterDrain(Cfg(), lane, e));
      lane := AfterDrain(Cfg(), lane, e);
    }

    /** A stretch of one task's events, as the pipeline performed them. */
    ghost method Follow(m: Manner, tid: nat, es: seq<TaskEvent>, p: Progress, hub: Hub)
      requires tid in lane.tasks && RunsAlone(Cfg(), lane.tasks[tid], lane.hub, es, p, hub)
      requires m.Undisturbed? && (m.orderly && p.Failed? ==> !HasSiblings(lane, tid))
      modifies `lane
      ensures Reaches(m, Cfg(), old(lane), lane) && Lifted(old(lane), tid, p, hub, lane)
        && KeepsBodies(old(lane).hub, hub)
      ensures !old(lane).tasks[tid].phase.Queued? ==> lane.handed == old(lane).handed
    {
      TaskKeepsBodies(Cfg(), lane.tasks[tid], lane.hub, es, p, hub);
      var next := LiftTask(m, Cfg(), lane, tid, es, p, hub);
      lane := next;
    }

    /** `_filter_ready`: each distinct blocker read once into the cache, then the admitted with none open. */
    method FilterReady(admitted: set<nat>, blockedBy: nat -> set<nat>) returns (r: Result<set<nat>>)
      requires Valid() && blockedBy == Cfg().blockedBy && lane.drain.Resolving? && lane.drain.admitted == admitted
        && lane.drain.closed == map[]
      modifies `lane, pipeline.repo`raised
      ensures pipeline.repo.raised == old(pipeline.repo.raised) + if r.Raised? then 1 else 0
      ensures Valid() && Reaches(ALONE, Cfg(), old(lane), lane)
      ensures lane == old(lane).(drain := lane.drain)
      ensures r.Ok? ==> lane.drain == Ready(old(lane).drain.pass, r.value)
      ensures r.Ok? ==> r.value == set n | n in admitted && forall b | b in Blockers(Cfg(), n) :: IsClosed(lane.hub, b)
      ensures r.Raised? ==> lane.drain.Resolving?
    {
      ghost var start := lane;
      ReachesSelf(ALONE, Cfg(), lane);
      var cache: map<nat, bool> := map[];
      var left := admitted;
      while left != {}
        invariant pipeline.repo.raised == old(pipeline.repo.raised)
        invariant Valid() && left <= admitted && lane == start.(drain := start.drain.(closed := cache))
        invariant Reaches(ALONE, Cfg(), start, lane) && forall b | b in cache :: cache[b] == IsClosed(start.hub, b)
        invariant forall n, b | n in admitted && n !in left && b in Blockers(Cfg(), n) :: b in cache
        decreases left
      {
        var n :| n in left;
        left := left - {n};
        var unread := blockedBy(n) - {n} - cache.Keys;
        while unread != {}
          invariant pipeline.repo.raised == old(pipeline.repo.raised)
          invariant Valid() && lane == start.(drain := start.drain.(closed := cache)) && unread <= Blockers(Cfg(), n)
          invariant Reaches(ALONE, Cfg(), start, lane) && unread !! cache.Keys
          invariant forall b | b in cache :: cache[b] == IsClosed(start.hub, b)
          invariant forall m, b | m in admitted && m !in left && m != n && b in Blockers(Cfg(), m) :: b in cache
          invariant forall b | b in Blockers(Cfg(), n) && b !in unread :: b in cache
          decreases unread
        {
          var b :| b in unread;
          unread := unread - {b};
          ghost var before := lane;
          var closed :- pipeline.repo.IsIssueClosed(b);
          assert n in admitted && b in Blockers(Cfg(), n);
          Step(ReadBlocker(b));
          ReachesThen(ALONE, Cfg(), start, before, lane);
          cache := cache[b := closed];
        }
      }
      ghost var before := lane;
      Step(FinishReadiness);
      ReachesThen(ALONE, Cfg(), start, before, lane);
      var ready := set n | n in admitted && forall b | b in blockedBy(n) - {n} :: b in cache && cache[b];
      assert ready == ReadyIssues(Cfg(), admitted, cache);
      r := Ok(ready);
    }

    /** `_partition_candidates`: open pull request heads, then branches; in-flight issues belong to neither part. */
    method PartitionCandidates(ready: set<nat>) returns (r: Result<(set<nat>, set<nat>)>)
      requires Valid() && lane.drain.Ready? && lane.drain.ready == ready
      modifies `lane, pipeline.repo`raised
      ensures pipeline.repo.raised == old(pipeline.repo.raised) + if r.Raised? then 1 else 0
      ensures Valid() && Reaches(ALONE, Cfg(), old(lane), lane)
      ensures lane == old(lane).(drain := lane.drain)
      ensures r.Ok? ==> lane.drain == Recovering(old(lane).drain.pass, r.value.0, r.value.1)
      ensures r.Ok? ==> r.value.0 == set n | n in ready && n in lane.hub.branches && n !in Heads(lane.hub.prs)
      ensures r.Ok? ==> r.value.1 == ready - lane.hub.branches
      ensures r.Raised? ==> lane.drain.Ready? || lane.drain.Classifying?
    {
      ghost var start := lane;
      ReachesSelf(ALONE, Cfg(), lane);
      var heads :- pipeline.repo.OpenPrHeads();
      Step(ReadHeads);
      ghost var before := lane;
      var branches :- pipeline.repo.IssueBranches();
      Step(ReadBranches);
      ReachesThen(ALONE, Cfg(), start, before, lane);
      var stranded := set n | n in ready && StateFor(heads, branches, n) == Stranded;
      var buildable := set n | n in ready && StateFor(heads, branches, n) == Absent;
      r := Ok((stranded, buildable));
    }

    /** The listed bodies still stand for these issues. */
    ghost predicate Bodies(bodies: map<nat, string>, numbers: set<nat>, hub: Hub) {
      forall n | n in numbers :: n in bodies && n in hub.issues && hub.issues[n].body == bodies[n]
    }

    /** The stranded issue has its pull request, or wears hitl because the target branch is missing. */
    ghost predicate Recovered(hub: Hub, n: nat) {
      if pipeline.base in pipeline.repo.targets then HasOpenPr(hub, n, pipeline.base)
      else n in hub.issues && hub.issues[n].hitl
    }

    /** One stranded issue's pull request, from the protocol's step to its task's end. */
    method RecoverOne(n: nat, stranded: set<nat>, buildable: set<nat>, body: string) returns (r: Result<()>)
      requires Valid() && lane.tasks == map[] && lane.own == {} && n in stranded && lane.drain.Recovering?
      requires lane.drain == Recovering(lane.drain.pass, stranded, buildable) && lane.drain.pass.base == pipeline.base
      requires n in lane.hub.issues && lane.hub.issues[n].body == body
      modifies `lane, pipeline.repo, pipeline.runLedger, pipeline`mapped
      ensures Faults() == old(Faults()) + if r.Raised? then 1 else 0
      ensures Valid() && Reaches(ALONE, Cfg(), old(lane), lane) && lane.tasks == map[] && lane.own == {}
      ensures lane.drain == if r.Raised? then Idle else Recovering(old(lane).drain.pass, stranded - {n}, buildable)
      ensures KeepsBodies(old(lane).hub, lane.hub) && lane.handed == old(lane).handed
      ensures r.Ok? ==> Recovered(lane.hub, n) && forall k | Recovered(old(lane).hub, k) :: Recovered(lane.hub, k)
    {
      ghost var start := lane;
      Step(Recover(0, n));
      ghost var before := lane;
      ghost var es;
      r, es := pipeline.RecoverStranded(Pipeline.FromFetched(pipeline.cfg, n, body));
      ghost var p := if r.Raised? then Failed else Finished;
      Follow(ALONE, 0, es, p, pipeline.repo.hub);
      ReachesThen(ALONE, Cfg(), start, before, lane);
      RecoveryEnds(start, before, n, p, lane);
      if r.Ok? { StepRecovers(n, start.hub, lane.hub); }
    }

    /** The recovery's task is the only one, so its end leaves none. */
    lemma RecoveryEnds(start: Lane, before: Lane, n: nat, p: Progress, end: Lane)
      requires start.tasks == map[] && DrainEnabled(Cfg(), start, Recover(0, n)) && !p.Continues?
      requires before == AfterDrain(Cfg(), start, Recover(0, n)) && Lifted(before, 0, p, end.hub, end)
      ensures end.tasks == map[] && end.own == {}
      ensures end.drain == if p.Failed? then Idle else start.drain.(stranded := start.drain.stranded - {n})
    {
      assert before.tasks - {0} == map[];
    }

    lemma StepRecovers(n: nat, hub: Hub, hub': Hub)
      requires n in hub.issues && pipeline.PrStep(Pipeline.AdhocIssue(n, 0), hub, hub')
      ensures Recovered(hub', n) && forall k | Recovered(hub, k) :: Recovered(hub', k)
    {
    }

    /** `_open_stranded_prs`: one after another, without rebuilding; an exception ends the drain. */
    method OpenStrandedPrs(stranded: set<nat>, buildable: set<nat>, bodies: map<nat, string>) returns (r: Result<()>)
      requires Valid() && lane.tasks == map[] && lane.own == {} && lane.drain.Recovering?
      requires lane.drain == Recovering(lane.drain.pass, stranded, buildable) && lane.drain.pass.base == pipeline.base
      requires Bodies(bodies, stranded + buildable, lane.hub)
      modifies `lane, pipeline.repo, pipeline.runLedger, pipeline`mapped
      ensures Faults() == old(Faults()) + if r.Raised? then 1 else 0
      ensures Valid() && Reaches(ALONE, Cfg(), old(lane), lane) && lane.tasks == map[] && lane.own == {}
      ensures r.Ok? ==>
        lane.drain == Recovering(old(lane).drain.pass, {}, buildable) && Bodies(bodies, buildable, lane.hub)
      ensures r.Ok? ==> forall n | n in stranded :: Recovered(lane.hub, n)
      ensures r.Raised? ==> lane.drain.Idle?
      ensures lane.handed == old(lane).handed
    {
      ghost var start := lane;
      ReachesSelf(ALONE, Cfg(), lane);
      var left := stranded;
      while left != {}
        invariant Valid() && lane.tasks == map[] && lane.own == {} && left <= stranded && Faults() == old(Faults())
        invariant lane.drain == Recovering(start.drain.pass, left, buildable)
        invariant Reaches(ALONE, Cfg(), start, lane) && Bodies(bodies, stranded + buildable, lane.hub)
        invariant lane.handed == start.handed && forall n | n in stranded && n !in left :: Recovered(lane.hub, n)
        decreases left
      {
        var n :| n in left;
        assert n in stranded + buildable;
        ghost var before := lane;
        var recovered := RecoverOne(n, left, buildable, bodies[n]);
        ReachesThen(ALONE, Cfg(), start, before, lane);
        if recovered.Raised? { return Raised; }
        left := left - {n};
      }
      r := Ok(());
    }

    ghost predicate Pending(issues: seq<Pipeline.AdhocIssue>, k: nat, failed: bool)
      reads this
    {
      PendingIn(lane, pipeline.base, issues, k, failed)
    }

    /** One coroutine's single event. */
    ghost method FollowOne(tid: nat, e: TaskEvent)
      requires tid in lane.tasks && Enabled(Cfg(), lane.tasks[tid], lane.hub, e)
        && Effect(lane.tasks[tid], lane.hub, e) == lane.hub
      modifies `lane
      ensures Reaches(Way(e.Raise? && HasSiblings(old(lane), tid)), Cfg(), old(lane), lane)
        && Lifted(old(lane), tid, Advance(Cfg(), old(lane).tasks[tid], e), old(lane).hub, lane)
      ensures lane.handed == old(lane).handed + if e.Hand? then [old(lane).tasks[tid].issue] else []
    {
      var next := AfterTask(Cfg(), lane, tid, e);
      ghost var m := Way(e.Raise? && HasSiblings(lane, tid));
      ReachesSelf(m, Cfg(), next);
      ReachesBack(m, Cfg(), lane, T(tid, e), next, next);
      lane := next;
    }

    ghost function Books(): Books
      reads this, pipeline.repo, pipeline.runLedger, governor.ledger.clock, governor.ledger.table
    {
      OnRecord(lane.handed, Spend(), Faults())
    }

    /** What the asks did to the budget, and whom they handed to `build`. */
    ghost predicate Bookkept(b: Books, asks: seq<Ask>, b': Books) {
      b'.handed == b.handed + Handed(asks) && Spends(Metering(), b.spend, asks, b'.spend)
    }

    /** A normal return names whom it handed over, nobody's coroutine having raised; no exception is made up. */
    ghost predicate Accounts(b: Books, r: Result<seq<Pipeline.AdhocIssue>>, asks: seq<Ask>, b': Books) {
      && Bookkept(b, asks, b')
      && b'.faults >= b.faults + (if r.Raised? then 1 else 0)
      && (r.Ok? ==> IssueNumbers(r.value) == Handed(asks) && forall a | a in asks :: !a.raised)
    }

    lemma NothingBooked(b: Books)
      ensures Bookkept(b, [], b)
    {
      SpendsNothing(Metering(), b.spend);
      assert b.handed + Handed([]) == b.handed;
    }

    /** The shared budget moved by a run of its protocol. */
    ghost predicate ByProtocol(b: Books, b': Books) {
      b.spend.clock <= b'.spend.clock
        && (estimate >= 0.0 ==>
              P.Reaches(governor.ledger.Cap(), b'.spend.clock - b.spend.clock, b.spend, b'.spend))
    }

    /** Whatever was asked is one. */
    lemma BookedSteps(b: Books, asks: seq<Ask>, b': Books)
      requires Bookkept(b, asks, b') && b.spend.calls == map[] && b.spend.writer.None?
      ensures ByProtocol(b, b')
    {
      MeteredForward(Metering(), b.spend.rows, b.spend.clock, asks, b'.spend.clock);
      if estimate >= 0.0 { SpendsReaches(Metering(), b.spend, asks, b'.spend); }
    }

    lemma BookThen(b: Books, asks: seq<Ask>, mid: Books, a: Ask, b': Books)
      requires Bookkept(b, asks, mid) && Bookkept(mid, [a], b')
      ensures Bookkept(b, asks + [a], b') && Asked(asks + [a]) == Asked(asks) + [a.number]
      ensures Handed(asks + [a]) == Handed(asks) + if a.handed then [a.number] else []
    {
      SpendsThen(Metering(), b.spend, asks, mid.spend, a, b'.spend);
      Snoc(Metering(), asks, a);
      assert [a][..0] == [];
      assert Handed([a]) == if a.handed then [a.number] else [];
      assert b.handed + (Handed(asks) + Handed([a])) == b.handed + Handed(asks) + Handed([a]);
    }

    /** What one issue's coroutine leaves in the run ledger. */
    ghost predicate Shown(before: RunLedger.Table, after: RunLedger.Table, issue: Pipeline.AdhocIssue, handed: bool,
        raised: bool, faulted: bool) {
      if handed then exists mid :: Announced(before, mid, issue, faulted) && Traced(mid, after, issue, raised)
      else after == before
    }

    /** The Building row, unless a write raised, which the drain ignores. */
    ghost predicate Announced(before: RunLedger.Table, after: RunLedger.Table, issue: Pipeline.AdhocIssue,
        faulted: bool) {
      (faulted && after == before) || pipeline.Logged(before, after, issue, RunLedger.Building)
    }

    /** After it the build's own: at most one terminal row, and none if it raised. */
    ghost predicate Traced(before: RunLedger.Table, after: RunLedger.Table, issue: Pipeline.AdhocIssue, raised: bool) {
      after == before || (!raised && exists state ::
        state in {RunLedger.Failed, RunLedger.Escalated, RunLedger.PrOpened}
        && pipeline.Logged(before, after, issue, state))
    }

    /** The best-effort Building row. */
    method Announce(issue: Pipeline.AdhocIssue)
      modifies pipeline.runLedger
      ensures Announced(old(pipeline.Ledger()), pipeline.Ledger(), issue,
                pipeline.Faults() > old(pipeline.Faults()))
      ensures pipeline.Faults() >= old(pipeline.Faults())
    {
      var _ := pipeline.RecordRow(issue, RunLedger.Building);
    }

    /** The coroutine's budget question, and the protocol's event unless it goes on to build. */
    method AskBudget(issues: seq<Pipeline.AdhocIssue>, k: nat, failed: bool)
        returns (admitted: Result<bool>, ghost a: Ask)
      requires Valid() && k < |issues| && Pending(issues, k, failed)
      modifies governor.ledger.table, governor.ledger.clock, governor.ledger`connected
      ensures Faults() == old(Faults()) + if admitted.Raised? then 1 else 0
      ensures a.number == issues[k].number && a.raised == admitted.Raised? && a.handed == (admitted == Ok(true))
      ensures Spends(Metering(), old(Spend()), [a], Spend())
    {
      ghost var stamp, check;
      admitted, stamp, check := governor.MeterAdhoc(estimate);
      a := Ask(issues[k].number, stamp, check, admitted == Ok(true), admitted.Raised?);
      assert [a][..0] == [];
      assert old(Spend()).rows + [] == old(Spend()).rows && old(Spend()).gated + [] == old(Spend()).gated;
      assert Metered(Metering(), old(Spend()).rows, old(Spend()).clock, [], stamp);
    }

    /** `build_one`: meter, record, build. The result says whether it raised and whether it built. */
    method BuildOne(issues: seq<Pipeline.AdhocIssue>, k: nat, failed: bool)
        returns (raised: bool, built: bool, ghost a: Ask)
      requires Valid() && k < |issues| && Pending(issues, k, failed)
      modifies `lane, pipeline.repo, pipeline.runLedger, pipeline`mapped
      modifies governor.ledger.table, governor.ledger.clock, governor.ledger`connected
      ensures Valid() && Pending(issues, k + 1, failed || raised)
      ensures Reaches(Way(raised && !failed && k + 1 < |issues|), Cfg(), old(lane), lane)
      ensures a.number == issues[k].number && a.raised == raised && (built <==> a.handed && !raised)
      ensures Bookkept(old(Books()), [a], Books()) && Faults() >= old(Faults()) + if raised then 1 else 0
      ensures Shown(old(pipeline.Ledger()), pipeline.Ledger(), issues[k], a.handed, raised,
                pipeline.Faults() > old(pipeline.Faults()))
    {
      var admitted;
      admitted, a := AskBudget(issues, k, failed);
      if admitted.Raised? || !admitted.value {
        NotHanded(issues, k, failed, admitted.Raised?);
        return admitted.Raised?, false, a;
      }
      assert pipeline.Ledger() == old(pipeline.Ledger());
      raised := HandAndBuild(issues, k, failed);
      a := a.(raised := raised);
      built := !raised;
    }

    /** The coroutine's only event when it does not go on to build. */
    ghost method NotHanded(issues: seq<Pipeline.AdhocIssue>, k: nat, failed: bool, raised: bool)
      requires Valid() && k < |issues| && Pending(issues, k, failed)
      modifies `lane
      ensures Valid() && Pending(issues, k + 1, failed || raised) && lane.handed == old(lane).handed
      ensures Reaches(Way(raised && !failed && k + 1 < |issues|), Cfg(), old(lane), lane)
    {
      ghost var start := lane;
      SiblingsPending(start, pipeline.base, issues, k, failed);
      FollowOne(k, if raised then Raise else Decline);
      NextPending(start, lane, pipeline.base, issues, k, failed, if raised then Failed else Finished, start.hub);
    }

    /** An issue the budget admitted: announced, handed to `build`, built. */
    method HandAndBuild(issues: seq<Pipeline.AdhocIssue>, k: nat, failed: bool) returns (raised: bool)
      requires Valid() && k < |issues| && Pending(issues, k, failed)
      modifies `lane, pipeline.repo, pipeline.runLedger, pipeline`mapped
      ensures Valid() && Pending(issues, k + 1, failed || raised)
      ensures Reaches(Way(raised && !failed && k + 1 < |issues|), Cfg(), old(lane), lane)
      ensures lane.handed == old(lane).handed + [issues[k].number]
      ensures Shown(old(pipeline.Ledger()), pipeline.Ledger(), issues[k], true, raised,
                pipeline.Faults() > old(pipeline.Faults()))
      ensures pipeline.Faults() >= old(pipeline.Faults()) + if raised then 1 else 0
    {
      ghost var start := lane;
      SiblingsPending(start, pipeline.base, issues, k, failed);
      Announce(issues[k]);
      FollowOne(k, Hand);
      ghost var before := lane;
      var result := BuildAlone(issues[k], k);
      raised := result.Raised?;
      ghost var p := if raised then Failed else Finished;
      Onward(false, raised && HasSiblings(before, k), Cfg(), start, before, lane);
      LiftedTwice(start, before, lane, k, before.tasks[k], p, start.hub, lane.hub);
      NextPending(start, lane, pipeline.base, issues, k, failed, p, lane.hub);
    }

    /** The handed issue's build and pipeline, followed by the ghost state. */
    method BuildAlone(issue: Pipeline.AdhocIssue, tid: nat) returns (r: Result<()>)
      requires Valid() && tid in lane.tasks
        && lane.tasks[tid] == Task(issue.number, issue.chainDepth, pipeline.base, Phase.Building)
      modifies `lane, pipeline.repo, pipeline.runLedger, pipeline`mapped
      ensures Valid() && lane.handed == old(lane).handed
      ensures Reaches(Way(r.Raised? && HasSiblings(old(lane), tid)), Cfg(), old(lane), lane)
      ensures Lifted(old(lane), tid, if r.Raised? then Failed else Finished, lane.hub, lane)
      ensures Traced(old(pipeline.Ledger()), pipeline.Ledger(), issue, r.Raised?)
      ensures pipeline.Faults() >= old(pipeline.Faults()) + if r.Raised? then 1 else 0
    {
      ghost var es, built, log;
      r, es, built, log := pipeline.BuildIssue(issue);
      ghost var m := Way(r.Raised? && HasSiblings(lane, tid));
      Follow(m, tid, es, if r.Raised? then Failed else Finished, pipeline.repo.hub);
    }

    /** Somebody raised, and somebody is orphaned: exactly by an exception with more coroutines to come. */
    ghost predicate Flags(asks: seq<Ask>, all: nat, failed: bool, orphaned: bool) {
      (failed <==> RaisedBefore(asks, |asks|)) && (orphaned <==> RaisedBefore(asks, all - 1))
    }

    lemma NextFlags(asks: seq<Ask>, all: nat, failed: bool, orphaned: bool, a: Ask)
      requires |asks| < all && Flags(asks, all, failed, orphaned)
      ensures Flags(asks + [a], all, failed || a.raised, orphaned || (a.raised && !failed && |asks| + 1 < all))
    {
      RaisedSnoc(asks, a, |asks| + 1);
      RaisedSnoc(asks, a, all - 1);
      assert RaisedBefore(asks, |asks|) <==> RaisedBefore(asks, all - 1);
      assert RaisedBefore(asks, |asks|) <==> RaisedBefore(asks, |asks| + 1);
    }

    /** One ask per coroutine so far, in rank order; without an exception those handed over are what was built. */
    ghost predicate AskedSoFar(books: Books, issues: seq<Pipeline.AdhocIssue>, k: nat,
        built: seq<Pipeline.AdhocIssue>, failed: bool, orphaned: bool, asks: seq<Ask>, books': Books) {
      && |asks| == k <= |issues| && Flags(asks, |issues|, failed, orphaned)
      && Asked(asks) == IssueNumbers(issues[..k]) && (forall b | b in built :: b in issues)
      && Accounts(books, if failed then Raised else Ok(built), asks, books')
    }

    lemma AskedNext(books: Books, issues: seq<Pipeline.AdhocIssue>, k: nat, built: seq<Pipeline.AdhocIssue>,
        failed: bool, orphaned: bool, asks: seq<Ask>, mid: Books, a: Ask, books': Books)
      requires k < |issues| && AskedSoFar(books, issues, k, built, failed, orphaned, asks, mid)
      requires Bookkept(mid, [a], books') && books'.faults >= mid.faults + if a.raised then 1 else 0
      requires a.number == issues[k].number
      ensures AskedSoFar(books, issues, k + 1, if a.handed && !a.raised then built + [issues[k]] else built,
                failed || a.raised, orphaned || (a.raised && !failed && k + 1 < |issues|), asks + [a], books')
    {
      assert issues[k] in issues;
      NextFlags(asks, |issues|, failed, orphaned, a);
      NextAccounts(books, issues[k], built, failed, asks, mid, a, books');
      NumbersSnoc(issues[..k], issues[k]);
      assert issues[..k] + [issues[k]] == issues[..k + 1];
    }

    /** After `k` coroutines of a drain that was at `start` with `books`. */
    ghost predicate Progress(start: Lane, books: Books, issues: seq<Pipeline.AdhocIssue>, k: nat,
        built: seq<Pipeline.AdhocIssue>, failed: bool, orphaned: bool, asks: seq<Ask>, now: Lane, books': Books) {
      && PendingIn(now, pipeline.base, issues, k, failed) && Reaches(Way(orphaned), Cfg(), start, now)
      && AskedSoFar(books, issues, k, built, failed, orphaned, asks, books')
    }

    lemma NextAccounts(books: Books, issue: Pipeline.AdhocIssue, built: seq<Pipeline.AdhocIssue>, failed: bool,
        asks: seq<Ask>, mid: Books, a: Ask, books': Books)
      requires Accounts(books, if failed then Raised else Ok(built), asks, mid) && a.number == issue.number
      requires Bookkept(mid, [a], books') && books'.faults >= mid.faults + if a.raised then 1 else 0
      ensures var built' := if a.handed && !a.raised then built + [issue] else built;
        Accounts(books, if failed || a.raised then Raised else Ok(built'), asks + [a], books')
      ensures Asked(asks + [a]) == Asked(asks) + [issue.number]
    {
      BookThen(books, asks, mid, a, books');
      NumbersSnoc(built, issue);
    }

    /** Each with the depth its listed body says. */
    ghost predicate AsListed(built: seq<Pipeline.AdhocIssue>, bodies: map<nat, string>) {
      forall b | b in built :: b.number in bodies && b == Pipeline.FromFetched(Cfg(), b.number, bodies[b.number])
    }

    /** The `k`-th coroutine. */
    method BuildNext(issues: seq<Pipeline.AdhocIssue>, k: nat, built: seq<Pipeline.AdhocIssue>, failed: bool,
        ghost start: Lane, ghost books: Books, ghost orphaned: bool, ghost asks: seq<Ask>)
      returns (nowBuilt: seq<Pipeline.AdhocIssue>, nowFailed: bool, ghost nowOrphaned: bool, ghost now: seq<Ask>)
      requires Valid() && k < |issues|
      requires Progress(start, books, issues, k, built, failed, orphaned, asks, lane, Books())
      modifies `lane, pipeline.repo, pipeline.runLedger, pipeline`mapped
      modifies governor.ledger.table, governor.ledger.clock, governor.ledger`connected
      ensures Valid()
      ensures Progress(start, books, issues, k + 1, nowBuilt, nowFailed, nowOrphaned, now, lane, Books())
    {
      ghost var before, mid := lane, Books();
      var raised, done;
      ghost var a;
      raised, done, a := BuildOne(issues, k, failed);
      Onward(orphaned, raised && !failed && k + 1 < |issues|, Cfg(), start, before, lane);
      AskedNext(books, issues, k, built, failed, orphaned, asks, mid, a, Books());
      now, nowOrphaned := asks + [a], orphaned || (raised && !failed && k + 1 < |issues|);
      nowFailed, nowBuilt := failed || raised, if done then built + [issues[k]] else built;
    }

    /** All coroutines, one after another. */
    method BuildAll(issues: seq<Pipeline.AdhocIssue>)
        returns (built: seq<Pipeline.AdhocIssue>, failed: bool, ghost orphaned: bool, ghost asks: seq<Ask>)
      requires Valid() && Pending(issues, 0, false)
      modifies `lane, pipeline.repo, pipeline.runLedger, pipeline`mapped
      modifies governor.ledger.table, governor.ledger.clock, governor.ledger`connected
      ensures Valid() && Asked(asks) == IssueNumbers(issues)
      ensures Progress(old(lane), old(Books()), issues, |issues|, built, failed, orphaned, asks, lane, Books())
    {
      ghost var start, books := lane, Books();
      ReachesSelf(ALONE, Cfg(), lane);
      built, failed, orphaned, asks := [], false, false, [];
      NothingBooked(books);
      for k := 0 to |issues|
        invariant Valid() && Progress(start, books, issues, k, built, failed, orphaned, asks, lane, Books())
      {
        built, failed, orphaned, asks := BuildNext(issues, k, built, failed, start, books, orphaned, asks);
      }
      assert issues[..|issues|] == issues;
    }

    /**
     `_build_metered`, the coroutines run one after another: the first exception ends the drain, the rest run on
     as `asyncio.gather` leaves them. Every issue asked the budget in rank order; those it fit, and no others, were
     charged by a gated row and handed to `build`, and a normal return names exactly those.
     */
    method BuildMetered(issues: seq<Pipeline.AdhocIssue>)
        returns (r: Result<seq<Pipeline.AdhocIssue>>, ghost orphaned: bool, ghost asks: seq<Ask>)
      requires Valid() && Pending(issues, 0, false)
      modifies `lane, pipeline.repo, pipeline.runLedger, pipeline`mapped
      modifies governor.ledger.table, governor.ledger.clock, governor.ledger`connected
      ensures Valid() && AtRest() && Reaches(Way(orphaned), Cfg(), old(lane), lane)
      ensures (orphaned ==> r.Raised?) && (orphaned <==> RaisedBefore(asks, |asks| - 1))
      ensures r.Ok? ==> EndsPass(Cfg(), old(lane), lane)
      ensures |asks| == |issues| && Asked(asks) == IssueNumbers(issues)
      ensures r.Ok? ==> forall b | b in r.value :: b in issues
      ensures Accounts(old(Books()), r, asks, Books())
    {
      ghost var start := lane;
      var built, failed;
      built, failed, orphaned, asks := BuildAll(issues);
      assert lane.tasks == map[];
      if failed { return Raised, orphaned, asks; }
      ghost var before := lane;
      Step(End);
      ReachesThen(ALONE, Cfg(), start, before, lane);
      r := Ok(built);
    }

    /** Rank, take this pass's builds, materialize each from its listed body. */
    method RankAndTake(buildable: set<nat>, bodies: map<nat, string>, labelsOf: nat -> seq<string>,
        ghost urgent: set<nat>)
      returns (issues: seq<Pipeline.AdhocIssue>, ghost chosen: seq<nat>)
      requires RepoConfig.Validated(config) && pipeline.cfg.cap == config.maxParallel && buildable <= bodies.Keys
      requires LabelsAgree(config, buildable, labelsOf, urgent)
      ensures Fetched(Cfg(), issues, chosen, bodies) && ToSet(chosen) <= buildable
      ensures Selection(Cfg(), Numbered(chosen), buildable, urgent)
      ensures RanksAndTakes(config, IssueNumbers(issues), buildable, labelsOf)
    {
      var numbers := Enumerate(buildable);
      var started := Selected(config, numbers, labelsOf, config.maxParallel);
      forall c | c in started ensures c.number >= 0 && c.number in buildable {
        SelectedAreListed(config, numbers, labelsOf, config.maxParallel, c);
      }
      issues, chosen := Materialize(started, buildable, bodies);
      ChoiceIsSelection(Cfg(), config, numbers, labelsOf, urgent, chosen);
    }

    /** Each selected candidate's issue, from its listed body. */
    method Materialize(started: seq<Scheduler.Candidate>, buildable: set<nat>, bodies: map<nat, string>)
      returns (issues: seq<Pipeline.AdhocIssue>, ghost chosen: seq<nat>)
      requires buildable <= bodies.Keys && forall c | c in started :: c.number >= 0 && c.number in buildable
      ensures Fetched(Cfg(), issues, chosen, bodies) && AreNumbersOf(chosen, started)
      ensures IssueNumbers(issues) == chosen && ToSet(chosen) <= buildable
    {
      issues, chosen := [], [];
      for k := 0 to |started|
        invariant |chosen| == k && Fetched(Cfg(), issues, chosen, bodies)
        invariant forall j | 0 <= j < k :: chosen[j] == started[j].number && chosen[j] in buildable
        invariant IssueNumbers(issues) == chosen
      {
        var n: nat := started[k].number;
        chosen := chosen + [n];
        NumbersSnoc(issues, Pipeline.FromFetched(pipeline.cfg, n, bodies[n]));
        issues := issues + [Pipeline.FromFetched(pipeline.cfg, n, bodies[n])];
      }
    }

    /** The protocol's selection step: one waiting task per issue. */
    ghost method SpawnAll(issues: seq<Pipeline.AdhocIssue>, chosen: seq<nat>, buildable: set<nat>,
        bodies: map<nat, string>)
      requires lane.tasks == map[] && lane.own == {} && lane.drain.Recovering? && lane.drain.pass.base == pipeline.base
      requires lane.drain == Recovering(lane.drain.pass, {}, buildable) && Bodies(bodies, buildable, lane.hub)
      requires Fetched(Cfg(), issues, chosen, bodies) && ToSet(chosen) <= buildable
      requires Selection(Cfg(), Numbered(chosen), buildable, lane.drain.pass.urgent)
      modifies `lane
      ensures Reaches(ALONE, Cfg(), old(lane), lane) && Pending(issues, 0, false)
      ensures lane.hub == old(lane.hub) && lane.handed == old(lane).handed
    {
      NumberedValues(chosen);
      SelectSpawns(Cfg(), lane, pipeline.base, buildable, Numbered(chosen), chosen, issues, bodies);
      Step(Select(Numbered(chosen)));
    }

    /** `_select_buildable`, and the coroutines `gather` creates from it. */
    method SelectBuildable(buildable: set<nat>, bodies: map<nat, string>, labelsOf: nat -> seq<string>)
      returns (issues: seq<Pipeline.AdhocIssue>)
      requires Valid() && lane.tasks == map[] && lane.own == {} && lane.drain.Recovering?
        && lane.drain.pass.base == pipeline.base
      requires lane.drain == Recovering(lane.drain.pass, {}, buildable) && Bodies(bodies, buildable, lane.hub)
      requires LabelsAgree(config, buildable, labelsOf, lane.drain.pass.urgent)
      modifies `lane
      ensures Valid() && Reaches(ALONE, Cfg(), old(lane), lane) && Pending(issues, 0, false)
      ensures lane.handed == old(lane).handed
      ensures RanksAndTakes(config, IssueNumbers(issues), buildable, labelsOf) && AsListed(issues, bodies)
    {
      ghost var chosen;
      issues, chosen := RankAndTake(buildable, bodies, labelsOf, lane.drain.pass.urgent);
      SpawnAll(issues, chosen, buildable, bodies);
    }

    /** A query raised: the lock is freed and nothing else happens. */
    ghost method GiveUp()
      requires !lane.drain.Idle? && !lane.drain.BuildingAll? && lane.own == {}
      modifies `lane
      ensures lane == old(lane).(drain := Idle) && Reaches(ALONE, Cfg(), old(lane), lane)
    {
      Step(Abort);
    }

    /** One more Queued row keeps what these rows promise. */
    lemma QueuedOnce(before: RunLedger.Table, mid: RunLedger.Table, done: set<nat>, all: set<nat>, n: nat,
        row: RunLedger.Row)
      requires QueuedRows(before, mid, done, all) && n in all && row.state == RunLedger.Queued
      ensures QueuedRows(before,
                RunLedger.AfterWrite(mid, RunLedger.Write(RunLedger.Key(pipeline.repoName, n), row)), done + {n}, all)
    {
      var key := RunLedger.Key(pipeline.repoName, n);
      var after := RunLedger.AfterWrite(mid, RunLedger.Write(key, row));
      assert forall k | k != key ::
        (k in after.rows <==> k in mid.rows) && (k in mid.rows ==> after.rows[k] == mid.rows[k]);
      assert key in after.rows;
      if key in mid.rows && !mid.rows[key].state.Queued? { assert after.rows == mid.rows; }
    }

    /**
     Queued rows for the issues in `done`, and for nobody outside `all`: no row that got further is touched, and no
     other row appears.
     */
    ghost predicate QueuedRows(before: RunLedger.Table, after: RunLedger.Table, done: set<nat>, all: set<nat>) {
      && (forall n | n in done :: RunLedger.Key(pipeline.repoName, n) in after.rows)
      && (forall k | k in before.rows :: k in after.rows)
      && (forall k | k in before.rows && !before.rows[k].state.Queued? :: after.rows[k] == before.rows[k])
      && (forall k | k in after.rows && (k !in before.rows || after.rows[k] != before.rows[k]) ::
            k.repo == pipeline.repoName && k.issue in all && after.rows[k].state.Queued?)
    }

    /** Queued rows for some of `all`, and for every one of them if no write raised. */
    ghost predicate AllQueued(before: RunLedger.Table, after: RunLedger.Table, all: set<nat>, complete: bool) {
      exists done :: QueuedRows(before, after, done, all) && done <= all && (complete ==> done == all)
    }

    /** The best-effort Queued rows of the admitted issues: unless a write raised, every one of them has a row. */
    method RecordQueued(admitted: set<nat>)
      modifies pipeline.runLedger
      ensures AllQueued(old(pipeline.Ledger()), pipeline.Ledger(), admitted,
                pipeline.runLedger.raised == old(pipeline.runLedger.raised))
      ensures pipeline.runLedger.raised >= old(pipeline.runLedger.raised)
    {
      var left := admitted;
      ghost var before, done := pipeline.Ledger(), {};
      while left != {}
        invariant left <= admitted && done <= admitted - left && QueuedRows(before, pipeline.Ledger(), done, admitted)
        invariant pipeline.runLedger.raised >= old(pipeline.runLedger.raised)
        invariant pipeline.runLedger.raised == old(pipeline.runLedger.raised) ==> done == admitted - left
        decreases left
      {
        var n :| n in left;
        left := left - {n};
        ghost var mid := pipeline.Ledger();
        var recorded := pipeline.RecordRow(Pipeline.AdhocIssue(n, 0), RunLedger.Queued);
        if recorded.Ok? {
          ghost var row: RunLedger.Row :| row.state == RunLedger.Queued && pipeline.Ledger()
            == RunLedger.AfterWrite(mid, RunLedger.Write(RunLedger.Key(pipeline.repoName, n), row));
          QueuedOnce(before, mid, done, admitted, n, row);
          done := done + {n};
        }
      }
    }

    /** The listing: who is admitted, each on record as queued, and every listed body. */
    method Listing() returns (r: Result<(set<nat>, map<nat, string>)>)
      requires Valid() && AtRest()
      modifies `lane, pipeline.repo`raised, pipeline.runLedger
      ensures Valid() && pipeline.Faults() >= old(pipeline.Faults()) + if r.Raised? then 1 else 0
      ensures r.Raised? ==> lane == old(lane) && pipeline.Ledger() == old(pipeline.Ledger())
      ensures r.Ok? ==> AllQueued(old(pipeline.Ledger()), pipeline.Ledger(), r.value.0,
                          pipeline.runLedger.raised == old(pipeline.runLedger.raised))
      ensures r.Ok? ==>
        && r.value.0 == AdmittedNow(lane.hub) && Bodies(r.value.1, r.value.0, lane.hub)
        && r.value.1 == BodiesNow(lane.hub)
        && lane == AfterDrain(Cfg(), old(lane), Start(pipeline.base)) && Reaches(ALONE, Cfg(), old(lane), lane)
    {
      var listed :- pipeline.repo.ListReady();
      var admitted := set n | n in listed && !listed[n].hitl;
      var bodies := map n | n in listed :: listed[n].body;
      Step(Start(pipeline.base));
      RecordQueued(admitted);
      assert admitted == AdmittedNow(pipeline.repo.hub);
      r := Ok((admitted, bodies));
    }

    /** The first half of a pass: readiness and classification; a query that raises ends the drain. */
    method Plan(admitted: set<nat>, blockedBy: nat -> set<nat>) returns (r: Result<(set<nat>, set<nat>)>)
      requires Valid() && blockedBy == Cfg().blockedBy && lane.own == {}
      requires lane.drain.Resolving? && lane.drain == Resolving(lane.drain.pass, admitted, map[])
      requires admitted == AdmittedNow(lane.hub)
      modifies `lane, pipeline.repo`raised
      ensures pipeline.repo.raised == old(pipeline.repo.raised) + if r.Raised? then 1 else 0
      ensures Valid() && Reaches(ALONE, Cfg(), old(lane), lane)
      ensures r.Ok? ==> lane == old(lane).(drain := Recovering(old(lane).drain.pass, r.value.0, r.value.1))
      ensures r.Ok? ==> r.value == (StrandedNow(Cfg(), lane.hub), BuildableNow(Cfg(), lane.hub))
      ensures r.Raised? ==> lane == old(lane).(drain := Idle)
    {
      ghost var start := lane;
      var ready := FilterReady(admitted, blockedBy);
      if ready.Raised? {
        ghost var before := lane;
        GiveUp();
        ReachesThen(ALONE, Cfg(), start, before, lane);
        return Raised;
      }
      assert ready.value == ReadyNow(Cfg(), lane.hub);
      ghost var before := lane;
      r := PartitionCandidates(ready.value);
      assert r.Ok? ==> r.value.0 == StrandedNow(Cfg(), lane.hub);
      ReachesThen(ALONE, Cfg(), start, before, lane);
      if r.Raised? {
        before := lane;
        GiveUp();
        ReachesThen(ALONE, Cfg(), start, before, lane);
      }
    }

    /** The second half: recover the stranded, then select and build. */
    method RecoverAndBuild(stranded: set<nat>, buildable: set<nat>, bodies: map<nat, string>,
        labelsOf: nat -> seq<string>)
      returns (r: Result<seq<Pipeline.AdhocIssue>>, ghost orphaned: bool, ghost asks: seq<Ask>)
      requires Valid() && lane.tasks == map[] && lane.own == {} && lane.drain.Recovering?
      requires lane.drain == Recovering(lane.drain.pass, stranded, buildable) && lane.drain.pass.base == pipeline.base
      requires Bodies(bodies, stranded + buildable, lane.hub)
      requires LabelsAgree(config, buildable, labelsOf, lane.drain.pass.urgent)
      modifies `lane, pipeline.repo, pipeline.runLedger, pipeline`mapped
      modifies governor.ledger.table, governor.ledger.clock, governor.ledger`connected
      ensures Valid() && AtRest() && Reaches(Way(orphaned), Cfg(), old(lane), lane)
      ensures (orphaned ==> r.Raised?) && (orphaned <==> RaisedBefore(asks, |asks| - 1))
      ensures r.Ok? ==> EndsPass(Cfg(), old(lane), lane)
      ensures r.Ok? || asks != [] ==> RanksAndTakes(config, Asked(asks), buildable, labelsOf)
      ensures r.Ok? ==> AsListed(r.value, bodies)
      ensures Accounts(old(Books()), r, asks, Books())
    {
      orphaned, asks := false, [];
      ghost var start := lane;
      NothingBooked(Books());
      var recovered := OpenStrandedPrs(stranded, buildable, bodies);
      if recovered.Raised? { return Raised, orphaned, asks; }
      ghost var before := lane;
      var issues := SelectBuildable(buildable, bodies, labelsOf);
      ReachesThen(ALONE, Cfg(), start, before, lane);
      before := lane;
      r, orphaned, asks := BuildMetered(issues);
      Onward(false, orphaned, Cfg(), start, before, lane);
      if r.Ok? { EndsPassAfter(Cfg(), start, before, lane); }
    }

    /** Everything inside the lock. */
    method Locked(blockedBy: nat -> set<nat>, labelsOf: nat -> seq<string>)
        returns (r: Result<seq<Pipeline.AdhocIssue>>, ghost orphaned: bool, ghost asks: seq<Ask>)
      requires Valid() && AtRest() && blockedBy == Cfg().blockedBy
      requires LabelsAgree(config, pipeline.repo.hub.issues.Keys, labelsOf, UrgentNow(pipeline.repo.hub))
      modifies `lane, pipeline.repo, pipeline.runLedger, pipeline`mapped
      modifies governor.ledger.table, governor.ledger.clock, governor.ledger`connected
      ensures Valid() && AtRest() && Reaches(Way(orphaned), Cfg(), old(lane), lane)
      ensures (orphaned ==> r.Raised?) && (orphaned <==> RaisedBefore(asks, |asks| - 1))
      ensures r.Ok? ==> FullPass(Cfg(), old(lane), lane, pipeline.base)
      ensures r.Ok? || asks != [] ==>
        RanksAndTakes(config, Asked(asks), BuildableNow(Cfg(), old(pipeline.repo.hub)), labelsOf)
      ensures r.Ok? ==> AsListed(r.value, BodiesNow(old(pipeline.repo.hub)))
      ensures Accounts(old(Books()), r, asks, Books())
    {
      orphaned, asks := false, [];
      ghost var start := lane;
      ReachesSelf(ALONE, Cfg(), lane);
      NothingBooked(Books());
      var listed :- Listing();
      ghost var begun := lane;
      var plan := Plan(listed.0, blockedBy);
      ReachesThen(ALONE, Cfg(), start, begun, lane);
      if plan.Raised? { return Raised, orphaned, asks; }
      ghost var planned := lane;
      r, orphaned, asks := RecoverAndBuild(plan.value.0, plan.value.1, listed.1, labelsOf);
      Onward(false, orphaned, Cfg(), start, planned, lane);
      if r.Ok? { EndsPassAfter(Cfg(), begun, planned, lane); }
    }

    /**
     `run_adhoc_drain`: turned away while another drain holds the lock; otherwise the whole call is a run of the
     protocol from rest to rest in which nobody else acts, and the lock is free again on every path. A call orphans
     a coroutine exactly if one raised that was not the last; any other call, raising or not, is an orderly run.
     Whoever was selected asked the budget in rank order, and exactly those it fit were charged, by steps of the
     budget protocol that leave the side charges alone, and handed to `build`.
     */
    method RunAdhocDrain(blockedBy: nat -> set<nat>, labelsOf: nat -> seq<string>)
      returns (r: Result<seq<Pipeline.AdhocIssue>>, ghost orphaned: bool, ghost asks: seq<Ask>)
      requires Valid() && blockedBy == Cfg().blockedBy && (!lock.held ==> AtRest())
      requires LabelsAgree(config, pipeline.repo.hub.issues.Keys, labelsOf, UrgentNow(pipeline.repo.hub))
      modifies `lane, lock, pipeline.repo, pipeline.runLedger, pipeline`mapped
      modifies governor.ledger.table, governor.ledger.clock, governor.ledger`connected
      ensures old(lock.held) ==>
        r.Raised? && lock.held && pipeline.repo.hub == old(pipeline.repo.hub) && lane == old(lane)
          && Spend() == old(Spend()) && pipeline.Ledger() == old(pipeline.Ledger()) && asks == []
      ensures !old(lock.held) ==> !lock.held && AtRest()
      ensures Valid() && Reaches(Way(orphaned), Cfg(), old(lane), lane)
      ensures (orphaned ==> r.Raised?) && (orphaned <==> RaisedBefore(asks, |asks| - 1))
      ensures r.Ok? ==> FullPass(Cfg(), old(lane), lane, pipeline.base)
      ensures r.Ok? || asks != [] ==>
        RanksAndTakes(config, Asked(asks), BuildableNow(Cfg(), old(pipeline.repo.hub)), labelsOf)
      ensures r.Ok? ==> AsListed(r.value, BodiesNow(old(pipeline.repo.hub)))
      ensures !old(lock.held) ==> Accounts(old(Books()), r, asks, Books())
      ensures ByProtocol(old(Books()), Books())
    {
      orphaned, asks := false, [];
      var entered := lock.Enter();
      if !entered {
        ReachesSelf(ALONE, Cfg(), lane);
        NothingBooked(Books());
        BookedSteps(Books(), asks, Books());
        return Raised, orphaned, asks;
      }
      r, orphaned, asks := Locked(blockedBy, labelsOf);
      BookedSteps(old(Books()), asks, Books());
      lock.Exit();
    }
  }
}
