/**
 Safety of the lane over whole runs: no duplicate pull request, no rebuild of a pushed branch, and a review
 gate that fails closed. Serialization by the single-run lock is what everything rests on, and the lock
 only serializes drains that end with no coroutine left running.
 */
module LaneSafety {
  import ChainDepth
  import opened GitHub
  import opened Lane
  import opened LaneTask
  import opened Wrappers

  // --- what is promised ---

  datatype Promise =
    | OnePullRequest   // at most one open pull request per issue branch
    | NoRebuild        // an issue whose branch exists is not handed to a build
    | HeldWearHitl     // a held issue wears hitl whenever no drain holds the lock
    | HeldNotOpened    // no pull request opens for a held issue

  ghost predicate StateKeeps(p: Promise, s: Lane) {
    match p
    case OnePullRequest => OneOpenPrPerHead(s.hub.prs)
    case NoRebuild => true
    case HeldNotOpened => true
    case HeldWearHitl => s.drain.Idle? ==> forall n | n in s.held :: n in s.hub.issues && s.hub.issues[n].hitl
  }

  ghost predicate StepKeeps(p: Promise, s: Lane, e: Event) {
    e.T? && e.tid in s.tasks ==>
      var n := s.tasks[e.tid].issue;
      match p
      case OnePullRequest => true
      case NoRebuild => e.t.Hand? ==> n !in s.hub.branches
      case HeldWearHitl => true
      case HeldNotOpened => e.t.Open? ==> n !in s.held
  }

  ghost predicate RunKeeps(p: Promise, cfg: Config, s: Lane, es: seq<Event>)
    requires Run(cfg, s, es)
    decreases |es|
  {
    && StateKeeps(p, s)
    && (es == [] || (StepKeeps(p, s, es[0]) && RunKeeps(p, cfg, After(cfg, s, es[0]), es[1..])))
  }

  // --- the invariant of serialized drains ---

  ghost predicate TaskFits(s: Lane, t: Task) {
    && t.issue in s.hub.issues
    && (t.phase.Queued? || t.phase.Building? ==> t.issue !in s.hub.branches)
    && (t.phase.Pushed? || t.phase.Filing? || t.phase.Checking? || t.phase.Opening? ==> t.issue !in Heads(s.hub.prs))
  }

  ghost predicate PlanFits(s: Lane) {
    match s.drain
    case Resolving(_, admitted, _) => admitted <= s.hub.issues.Keys
    case Ready(_, ready) => ready <= s.hub.issues.Keys
    case Classifying(_, ready, heads) => ready <= s.hub.issues.Keys && Heads(s.hub.prs) <= heads
    case Recovering(_, stranded, buildable) =>
      && stranded !! buildable && stranded + buildable <= s.hub.issues.Keys
      && stranded !! Heads(s.hub.prs) && buildable !! s.hub.branches
      && (forall tid | tid in s.tasks :: s.tasks[tid].issue !in stranded + buildable)
    case _ => true
  }

  ghost predicate OneTaskPerIssue(s: Lane) {
    forall a, b | a in s.tasks && b in s.tasks && a != b :: s.tasks[a].issue != s.tasks[b].issue
  }

  ghost predicate Serial(s: Lane) {
    && s.tasks.Keys == s.own
    && (s.own != {} ==> s.drain.Recovering? || s.drain.BuildingAll?)
    && (s.drain.Recovering? ==> forall a, b | a in s.own && b in s.own :: a == b)
    && OneTaskPerIssue(s)
    && OneOpenPrPerHead(s.hub.prs) && Heads(s.hub.prs) <= s.hub.branches
    && PlanFits(s)
    && forall tid | tid in s.tasks :: TaskFits(s, s.tasks[tid])
  }

  lemma HeadsAfterOpen(hub: Hub, n: nat, base: string)
    ensures Heads(OpenPr(hub, n, base).prs) == Heads(hub.prs) + {n}
    ensures OneOpenPrPerHead(hub.prs) && n !in Heads(hub.prs) ==> OneOpenPrPerHead(OpenPr(hub, n, base).prs)
  {
    var prs, p := hub.prs, PullRequest(n, base);
    forall m ensures m in Heads(prs + [p]) <==> m in Heads(prs) + {n} {
      if m in Heads(prs) {
        var q :| q in prs && q.head == m;
        assert q in prs + [p];
      }
      if m == n { assert p in prs + [p]; }
    }
    if n !in Heads(prs) {
      forall i | 0 <= i < |prs| ensures prs[i].head != n {
        assert prs[i] in prs;
      }
    }
  }

  lemma SerialSelect(cfg: Config, s: Lane, chosen: map<nat, nat>, s': Lane)
    requires Serial(s) && s.drain.Recovering? && s.tasks == map[] && chosen.Values <= s.drain.buildable
    requires chosen.Values <= s.hub.issues.Keys
    requires forall a, b | a in chosen && b in chosen && a != b :: chosen[a] != chosen[b]
    requires s' == s.(drain := BuildingAll, own := chosen.Keys, tasks := Spawn(cfg, s.hub, chosen, s.drain.pass.base))
    ensures Serial(s')
  {
    forall tid | tid in chosen ensures chosen[tid] in s.drain.buildable {
      assert chosen[tid] in chosen.Values;
    }
    forall tid | tid in s'.tasks ensures TaskFits(s', s'.tasks[tid]) {
      assert s'.tasks[tid] == Spawned(cfg, s.hub, chosen[tid], s.drain.pass.base);
    }
  }

  lemma SerialRecover(cfg: Config, s: Lane, tid: nat, n: nat)
    requires Serial(s) && s.tasks == map[] && DrainEnabled(cfg, s, Recover(tid, n))
    ensures Serial(AfterDrain(cfg, s, Recover(tid, n)))
  {
  }

  lemma SerialDrain(cfg: Config, s: Lane, e: DrainEvent)
    requires Serial(s) && DrainEnabled(cfg, s, e)
    ensures Serial(AfterDrain(cfg, s, e))
  {
    assert s.tasks == map[];
    if e.Select? {
      var spawned := Spawn(cfg, s.hub, e.chosen, s.drain.pass.base);
      assert s.tasks + spawned == spawned;
      SerialSelect(cfg, s, e.chosen, s.(drain := BuildingAll, own := e.chosen.Keys, tasks := spawned));
    } else if e.Recover? {
      SerialRecover(cfg, s, e.tid, e.issue);
    }
  }

  lemma SerialTask(cfg: Config, s: Lane, tid: nat, e: TaskEvent)
    requires Serial(s) && TaskEnabled(cfg, s, tid, e) && !Orphans(s, T(tid, e))
    ensures Serial(AfterTask(cfg, s, tid, e))
  {
    var s' := AfterTask(cfg, s, tid, e);
    var t := s.tasks[tid];
    assert TaskFits(s, t);
    if e.Open? { HeadsAfterOpen(s.hub, t.issue, t.base); }
    assert s.hub.issues.Keys <= s'.hub.issues.Keys;
    assert Heads(s'.hub.prs) <= Heads(s.hub.prs) + (if e.Open? then {t.issue} else {});
    forall k | k in s'.tasks ensures TaskFits(s', s'.tasks[k]) {
      assert TaskFits(s, s.tasks[k]);
    }
    assert PlanFits(s');
  }

  lemma SerialWorld(cfg: Config, s: Lane, e: WorldEvent)
    requires Serial(s) && WorldEnabled(s, e)
    ensures Serial(AfterWorld(s, e))
  {
    var s' := AfterWorld(s, e);
    assert Heads(s'.hub.prs) <= Heads(s.hub.prs);
    assert s.hub.issues.Keys <= s'.hub.issues.Keys;
    forall k | k in s'.tasks ensures TaskFits(s', s'.tasks[k]) {
      assert TaskFits(s, s.tasks[k]);
    }
    assert Heads(s'.hub.prs) <= s'.hub.branches;
  }

  // --- the invariant of the gate ---

  ghost predicate PlanClear(s: Lane) {
    match s.drain
    case Resolving(_, admitted, _) => admitted !! s.held
    case Ready(_, ready) => ready !! s.held
    case Classifying(_, ready, _) => ready !! s.held
    case Recovering(_, stranded, buildable) => stranded + buildable !! s.held
    case _ => true
  }

  ghost predicate GateInv(s: Lane) {
    && PlanClear(s)
    && (forall tid | tid in s.tasks && s.tasks[tid].issue in s.held ::
          !(s.tasks[tid].phase.Queued? || s.tasks[tid].phase.Building? || s.tasks[tid].phase.Filing?
            || s.tasks[tid].phase.Checking? || s.tasks[tid].phase.Opening?))
    && (forall n | n in s.held ::
          && n in s.hub.issues
          && (s.hub.issues[n].hitl || exists tid :: tid in s.tasks && Gating(s.tasks[tid], n)))
  }

  ghost predicate Gating(t: Task, n: nat) {
    t.issue == n && (t.phase.Pushed? || t.phase.Blocked?)
  }

  /** With no task running every held issue wears hitl, so none is admitted. */
  lemma HeldAreLabelled(s: Lane)
    requires GateInv(s) && s.tasks == map[]
    ensures forall n | n in s.held :: n in s.hub.issues && s.hub.issues[n].hitl
    ensures AdmittedNow(s.hub) !! s.held
  {
  }

  lemma PlanStaysClear(cfg: Config, s: Lane, e: DrainEvent)
    requires PlanClear(s) && AdmittedNow(s.hub) !! s.held && DrainEnabled(cfg, s, e)
    ensures PlanClear(AfterDrain(cfg, s, e))
  {
  }

  /** No task before, and none after except perhaps one for an issue nobody holds. */
  lemma GateUntouched(s: Lane, s': Lane)
    requires GateInv(s) && s.tasks == map[] && PlanClear(s') && s'.hub == s.hub && s'.held == s.held
    requires forall tid | tid in s'.tasks :: s'.tasks[tid].issue !in s.held
    ensures GateInv(s')
  {
    HeldAreLabelled(s);
  }

  lemma GateDrain(cfg: Config, s: Lane, e: DrainEvent)
    requires Serial(s) && GateInv(s) && DrainEnabled(cfg, s, e)
    ensures GateInv(AfterDrain(cfg, s, e))
  {
    assert s.tasks == map[];
    HeldAreLabelled(s);
    PlanStaysClear(cfg, s, e);
    var s' := AfterDrain(cfg, s, e);
    forall tid | tid in s'.tasks ensures s'.tasks[tid].issue !in s.held {
      SpawnedClear(cfg, s, e, tid);
    }
    GateUntouched(s, s');
  }

  /** A drain creates coroutines for planned issues only, and those are not held. */
  lemma SpawnedClear(cfg: Config, s: Lane, e: DrainEvent, tid: nat)
    requires s.tasks == map[] && PlanClear(s) && DrainEnabled(cfg, s, e) && tid in AfterDrain(cfg, s, e).tasks
    ensures AfterDrain(cfg, s, e).tasks[tid].issue !in s.held
  {
    match e
    case Select(chosen) => assert chosen[tid] in chosen.Values;
    case Recover(_, n) => assert n in s.drain.stranded + s.drain.buildable;
    case _ =>
  }

  /** After a task's step every held issue still wears hitl or has a task that will decide. */
  lemma HeldAfterTask(cfg: Config, s: Lane, tid: nat, e: TaskEvent, n: nat)
    requires Serial(s) && GateInv(s) && !cfg.sinksMayFail
    requires TaskEnabled(cfg, s, tid, e) && !Orphans(s, T(tid, e)) && n in AfterTask(cfg, s, tid, e).held
    ensures var s' := AfterTask(cfg, s, tid, e);
      n in s'.hub.issues && (s'.hub.issues[n].hitl || exists k :: k in s'.tasks && Gating(s'.tasks[k], n))
  {
    var s', t := AfterTask(cfg, s, tid, e), s.tasks[tid];
    assert TaskFits(s, t);
    if n == t.issue && (e.Push? || e.PushFix? || e.Gate?) {
      assert tid in s'.tasks && Gating(s'.tasks[tid], n);
    } else {
      assert n in s.held && n in s'.hub.issues;
      if !s'.hub.issues[n].hitl {
        var k :| k in s.tasks && Gating(s.tasks[k], n);
        assert k != tid;
        assert k in s'.tasks && s'.tasks[k] == s.tasks[k];
      }
    }
  }

  lemma GateTask(cfg: Config, s: Lane, tid: nat, e: TaskEvent)
    requires Serial(s) && GateInv(s) && !cfg.sinksMayFail
    requires TaskEnabled(cfg, s, tid, e) && !Orphans(s, T(tid, e))
    ensures GateInv(AfterTask(cfg, s, tid, e))
  {
    var s' := AfterTask(cfg, s, tid, e);
    var t := s.tasks[tid];
    assert TaskFits(s, t);
    assert PlanClear(s') by { assert s.drain.Recovering? ==> t.issue !in s.drain.stranded + s.drain.buildable; }
    forall n | n in s'.held
      ensures n in s'.hub.issues && (s'.hub.issues[n].hitl || exists k :: k in s'.tasks && Gating(s'.tasks[k], n))
    {
      HeldAfterTask(cfg, s, tid, e, n);
    }
  }

  lemma GateWorld(cfg: Config, s: Lane, e: WorldEvent)
    requires GateInv(s) && WorldEnabled(s, e)
    ensures GateInv(AfterWorld(s, e))
  {
    var s' := AfterWorld(s, e);
    forall n | n in s'.held && !s'.hub.issues[n].hitl
      ensures exists tid :: tid in s'.tasks && Gating(s'.tasks[tid], n)
    {
      assert n in s.held;
      var tid :| tid in s.tasks && Gating(s.tasks[tid], n);
      assert tid in s'.tasks && s'.tasks[tid] == s.tasks[tid];
    }
  }

  // --- whole runs ---

  lemma SerialStep(cfg: Config, s: Lane, e: Event)
    requires Serial(s) && EventEnabled(cfg, s, e) && !Orphans(s, e)
    ensures Serial(After(cfg, s, e)) && StepKeeps(NoRebuild, s, e)
  {
    match e
    case D(d) => SerialDrain(cfg, s, d);
    case T(tid, t) =>
      assert TaskFits(s, s.tasks[tid]);
      SerialTask(cfg, s, tid, t);
    case W(w) => SerialWorld(cfg, s, w);
  }

  lemma GateStep(cfg: Config, s: Lane, e: Event)
    requires Serial(s) && GateInv(s) && !cfg.sinksMayFail && EventEnabled(cfg, s, e) && !Orphans(s, e)
    ensures GateInv(After(cfg, s, e)) && StepKeeps(HeldNotOpened, s, e)
  {
    match e
    case D(d) => GateDrain(cfg, s, d);
    case T(tid, t) => GateTask(cfg, s, tid, t);
    case W(w) => GateWorld(cfg, s, w);
  }

  lemma {:induction false} SerialKeepsDedup(cfg: Config, s: Lane, es: seq<Event>)
    requires Serial(s) && Run(cfg, s, es) && Suited(Orderly, cfg, s, es)
    ensures RunKeeps(OnePullRequest, cfg, s, es) && RunKeeps(NoRebuild, cfg, s, es)
    decreases |es|
  {
    if es != [] {
      SerialStep(cfg, s, es[0]);
      SerialKeepsDedup(cfg, After(cfg, s, es[0]), es[1..]);
    }
  }

  lemma {:induction false} GateKeepsFailClosed(cfg: Config, s: Lane, es: seq<Event>)
    requires Serial(s) && GateInv(s) && !cfg.sinksMayFail && Run(cfg, s, es) && Suited(Orderly, cfg, s, es)
    ensures RunKeeps(HeldWearHitl, cfg, s, es) && RunKeeps(HeldNotOpened, cfg, s, es)
    decreases |es|
  {
    assert s.drain.Idle? ==> s.tasks == map[];
    if es != [] {
      SerialStep(cfg, s, es[0]);
      GateStep(cfg, s, es[0]);
      GateKeepsFailClosed(cfg, After(cfg, s, es[0]), es[1..]);
    }
  }

  /** Every run whose drains leave no coroutine behind never duplicates work, whatever is interleaved or raises. */
  lemma OrderlyRunsDedup(cfg: Config, s: Lane, es: seq<Event>)
    requires Initial(s) && Run(cfg, s, es) && Suited(Orderly, cfg, s, es)
    ensures RunKeeps(OnePullRequest, cfg, s, es) && RunKeeps(NoRebuild, cfg, s, es)
  {
    SerialKeepsDedup(cfg, s, es);
  }

  /** If moreover the report, comment and label sinks succeed, the gate fails closed over the whole run. */
  lemma OrderlyRunsFailClosed(cfg: Config, s: Lane, es: seq<Event>)
    requires Initial(s) && Run(cfg, s, es) && Suited(Orderly, cfg, s, es) && !cfg.sinksMayFail
    ensures RunKeeps(HeldWearHitl, cfg, s, es) && RunKeeps(HeldNotOpened, cfg, s, es)
  {
    GateKeepsFailClosed(cfg, s, es);
  }

  // --- a cap of one: no siblings, so every run is orderly ---

  ghost predicate AtMostOneOwn(s: Lane) {
    forall a, b | a in s.own && b in s.own :: a == b
  }

  lemma OnlyOne<T>(xs: set<T>, a: T, b: T)
    requires |xs| <= 1 && a in xs && b in xs
    ensures a == b
  {
    assert |xs - {a}| == |xs| - 1;
    assert xs - {a} == {};
  }

  lemma OwnStaysOne(cfg: Config, s: Lane, e: Event)
    requires cfg.cap == Some(1) && AtMostOneOwn(s) && EventEnabled(cfg, s, e)
    ensures AtMostOneOwn(After(cfg, s, e)) && Suits(Orderly, s, e)
  {
    if e.D? && e.d.Select? {
      var chosen := e.d.chosen;
      forall a, b | a in chosen.Keys && b in chosen.Keys ensures a == b {
        assert |chosen.Keys| == |chosen| <= 1;
        OnlyOne(chosen.Keys, a, b);
      }
    }
  }

  lemma {:induction false} CapOneIsOrderly(cfg: Config, s: Lane, es: seq<Event>)
    requires cfg.cap == Some(1) && AtMostOneOwn(s) && Run(cfg, s, es)
    ensures Suited(Orderly, cfg, s, es)
    decreases |es|
  {
    if es != [] {
      OwnStaysOne(cfg, s, es[0]);
      CapOneIsOrderly(cfg, After(cfg, s, es[0]), es[1..]);
    }
  }

  // --- any wider cap: two runs of real events that break the promises ---

  /** Some run from here breaks the promise. */
  ghost predicate Breakable(p: Promise, cfg: Config, s: Lane) {
    exists es :: Run(cfg, s, es) && !RunKeeps(p, cfg, s, es)
  }

  lemma {:induction false} BreaksAfter(p: Promise, cfg: Config, s: Lane, es: seq<Event>, s': Lane)
    requires Run(cfg, s, es) && Final(cfg, s, es) == s' && Breakable(p, cfg, s')
    ensures Breakable(p, cfg, s)
    decreases |es|
  {
    if es != [] {
      BreaksAfter(p, cfg, After(cfg, s, es[0]), es[1..], s');
      var fs :| Run(cfg, After(cfg, s, es[0]), fs) && !RunKeeps(p, cfg, After(cfg, s, es[0]), fs);
      var all := [es[0]] + fs;
      assert all[0] == es[0] && all[1..] == fs;
      assert Run(cfg, s, all) && !RunKeeps(p, cfg, s, all);
    }
  }

  /** A state from which the promise can be broken is reached. */
  lemma BreaksLater(p: Promise, cfg: Config, s: Lane, s': Lane)
    requires Reaches(Any, cfg, s, s') && Breakable(p, cfg, s')
    ensures Breakable(p, cfg, s)
  {
    var es :| Run(cfg, s, es) && Suited(Any, cfg, s, es) && Final(cfg, s, es) == s';
    BreaksAfter(p, cfg, s, es, s');
  }

  lemma Violation(p: Promise, cfg: Config, s: Lane, e: Event)
    requires EventEnabled(cfg, s, e) && !StepKeeps(p, s, e)
    ensures Breakable(p, cfg, s)
  {
    var es := [e];
    assert es[0] == e && es[1..] == [];
    assert Run(cfg, s, es);
    assert !RunKeeps(p, cfg, s, es);
  }

  ghost predicate Unblocked(cfg: Config) {
    ValidConfig(cfg) && forall n :: cfg.blockedBy(n) == {}
  }

  ghost predicate Eager(i: Issue) {
    i.open && i.trigger && !i.hitl && i.urgent && i.parent.None?
  }

  ghost function At(cfg: Config, i: Issue, phase: Phase, n: nat): Task {
    Task(n, cfg.depthOf(i.body), "main", phase)
  }

  /** One pass from the free lock to its classification: nothing is in its way, whatever orphans run beside it. */
  lemma PassClassifies(m: Manner, cfg: Config, s: Lane, s4: Lane)
    requires Unblocked(cfg) && s.drain.Idle? && s.hub.prs == []
    requires forall n | n in s.hub.issues :: Eager(s.hub.issues[n])
    requires var all := s.hub.issues.Keys;
      s4 == s.(own := {}, drain := Recovering(Pass("main", all), all * s.hub.branches, all - s.hub.branches))
    ensures Reaches(m, cfg, s, s4)
  {
    var all := s.hub.issues.Keys;
    var pass := Pass("main", all);
    var s1 := s.(own := {}, drain := Resolving(pass, all, map[]));
    var s2 := s.(own := {}, drain := Ready(pass, all));
    var s3 := s.(own := {}, drain := Classifying(pass, all, {}));
    assert Moves(cfg, s, D(Start("main")), s1) by {
      assert UrgentNow(s.hub) == all && AdmittedNow(s.hub) == all;
    }
    assert Moves(cfg, s1, D(FinishReadiness), s2) by {
      assert ReadyIssues(cfg, all, map[]) == all;
    }
    assert Moves(cfg, s2, D(ReadHeads), s3) by {
      assert Heads(s.hub.prs) == {};
    }
    assert Moves(cfg, s3, D(ReadBranches), s4) by {
      var s4' := AfterDrain(cfg, s3, ReadBranches);
      assert s4'.drain.stranded == all * s.hub.branches;
      assert s4'.drain.buildable == all - s.hub.branches;
    }
    ReachesSelf(m, cfg, s4);
    ReachesBack(m, cfg, s3, D(ReadBranches), s4, s4);
    ReachesBack(m, cfg, s2, D(ReadHeads), s3, s4);
    ReachesBack(m, cfg, s1, D(FinishReadiness), s2, s4);
    ReachesBack(m, cfg, s, D(Start("main")), s1, s4);
  }

  const ONE: set<nat> := {1}
  const BOTH: set<nat> := {1, 2}

  ghost function TwoIssues(i: Issue, branches: set<nat>): Hub {
    Hub(map[1 := i, 2 := i], branches, [])
  }

  lemma BothFit(cfg: Config, chosen: map<nat, nat>, a: nat, b: nat)
    requires cfg.cap != Some(1) && ValidConfig(cfg) && a != b && chosen == map[a := 1, b := 2]
    ensures Selection(cfg, chosen, BOTH, BOTH) && chosen.Values == BOTH && chosen.Keys == {a, b}
  {
    assert chosen.Keys == {a, b} && chosen[a] == 1 && chosen[b] == 2;
    assert chosen.Values == BOTH by {
      assert chosen[a] in chosen.Values && chosen[b] in chosen.Values;
    }
    assert |chosen| == |chosen.Keys| == 2;
    assert |BOTH| == 2 && BOTH * BOTH == BOTH;
  }

  lemma SelectMoves(cfg: Config, s: Lane, chosen: map<nat, nat>, all: set<nat>, s': Lane)
    requires s.drain == Recovering(Pass("main", all), {}, all) && s.own == {} && all <= s.hub.issues.Keys
    requires chosen.Keys !! s.tasks.Keys && chosen.Values <= all && Selection(cfg, chosen, all, all)
    requires s' == s.(drain := BuildingAll, own := chosen.Keys, tasks := s.tasks + Spawn(cfg, s.hub, chosen, "main"))
    ensures Moves(cfg, s, D(Select(chosen)), s')
  {
  }

  /** Coroutines `a` and `b` are created for issues 1 and 2. */
  ghost function BothQueued(cfg: Config, i: Issue, s: Lane, a: nat, b: nat): Lane {
    s.(drain := BuildingAll, own := {a, b}, tasks := s.tasks + Queues(cfg, i, a, b))
  }

  ghost function Queues(cfg: Config, i: Issue, a: nat, b: nat): map<nat, Task> {
    map[a := At(cfg, i, Queued, 1), b := At(cfg, i, Queued, 2)]
  }

  /** Both issues buildable, urgent, and the cap wider than one: both are selected. */
  lemma BothMove(cfg: Config, i: Issue, s: Lane, a: nat, b: nat)
    requires cfg.cap != Some(1) && ValidConfig(cfg) && s.hub == TwoIssues(i, s.hub.branches) && s.own == {}
    requires s.drain == Recovering(Pass("main", BOTH), {}, BOTH) && a != b && a !in s.tasks && b !in s.tasks
    ensures Moves(cfg, s, D(Select(map[a := 1, b := 2])), BothQueued(cfg, i, s, a, b))
  {
    var chosen: map<nat, nat> := map[a := 1, b := 2];
    BothFit(cfg, chosen, a, b);
    BothSpawned(cfg, i, s.hub, chosen, a, b);
    SelectMoves(cfg, s, chosen, BOTH, BothQueued(cfg, i, s, a, b));
  }

  lemma BothSpawned(cfg: Config, i: Issue, hub: Hub, chosen: map<nat, nat>, a: nat, b: nat)
    requires hub == TwoIssues(i, hub.branches) && a != b && chosen == map[a := 1, b := 2] && chosen.Values == BOTH
    ensures Spawn(cfg, hub, chosen, "main") == Queues(cfg, i, a, b)
  {
  }

  ghost function Rest(hub: Hub): Lane {
    Lane(hub, Idle, {}, map[], {}, {}, [])
  }

  /** A drain has handed issues 1 and 2 to their builds. */
  ghost function TwoBuilds(cfg: Config, i: Issue, s: Lane, a: nat, b: nat): Lane {
    s.(drain := BuildingAll, own := {a, b},
      tasks := s.tasks[a := At(cfg, i, Building, 1)][b := At(cfg, i, Building, 2)],
       handed := s.handed + [1] + [2])
  }

  lemma BothClassified(m: Manner, cfg: Config, i: Issue, s: Lane, s4: Lane)
    requires Unblocked(cfg) && Eager(i) && s.drain.Idle? && s.hub == TwoIssues(i, {})
    requires s4 == s.(own := {}, drain := Recovering(Pass("main", BOTH), {}, BOTH))
    ensures Reaches(m, cfg, s, s4)
  {
    assert s.hub.issues.Keys == BOTH && BOTH * s.hub.branches == {} && BOTH - s.hub.branches == BOTH;
    PassClassifies(m, cfg, s, s4);
  }

  /** Nothing pushed yet and the lock free: the next drain hands both issues, whatever orphans build them already. */
  lemma BothHanded(m: Manner, cfg: Config, i: Issue, s: Lane, a: nat, b: nat)
    requires Unblocked(cfg) && cfg.cap != Some(1) && Eager(i) && s.drain.Idle? && s.hub == TwoIssues(i, {})
    requires a != b && a !in s.tasks && b !in s.tasks
    ensures Reaches(m, cfg, s, TwoBuilds(cfg, i, s, a, b))
  {
    var s4 := s.(own := {}, drain := Recovering(Pass("main", BOTH), {}, BOTH));
    BothClassified(m, cfg, i, s, s4);
    BothMove(cfg, i, s4, a, b);
    HandBoth(m, cfg, i, s4, a, b);
    ReachesBack(m, cfg, s4, D(Select(map[a := 1, b := 2])), BothQueued(cfg, i, s4, a, b), TwoBuilds(cfg, i, s4, a, b));
    ReachesThen(m, cfg, s, s4, TwoBuilds(cfg, i, s4, a, b));
  }

  lemma HandBoth(m: Manner, cfg: Config, i: Issue, s: Lane, a: nat, b: nat)
    requires a != b && a !in s.tasks && b !in s.tasks
    ensures Reaches(m, cfg, BothQueued(cfg, i, s, a, b), TwoBuilds(cfg, i, s, a, b))
  {
    var s5, s7 := BothQueued(cfg, i, s, a, b), TwoBuilds(cfg, i, s, a, b);
    var s6 := s5.(tasks := s5.tasks[a := At(cfg, i, Building, 1)], handed := s.handed + [1]);
    assert Moves(cfg, s5, T(a, Hand), s6);
    assert Moves(cfg, s6, T(b, Hand), s7) by {
      assert s6.tasks[b := At(cfg, i, Building, 2)] == s7.tasks;
    }
    ReachesSelf(m, cfg, s7);
    ReachesBack(m, cfg, s6, T(b, Hand), s7, s7);
    ReachesBack(m, cfg, s5, T(a, Hand), s6, s7);
  }

  /** A first drain from rest. */
  lemma FirstDrain(p: Promise, cfg: Config, i: Issue)
    requires Unblocked(cfg) && cfg.cap != Some(1) && Eager(i)
    requires Breakable(p, cfg, TwoBuilds(cfg, i, Rest(TwoIssues(i, {})), 10, 11))
    ensures Initial(Rest(TwoIssues(i, {}))) && Breakable(p, cfg, Rest(TwoIssues(i, {})))
  {
    var s := Rest(TwoIssues(i, {}));
    assert Heads(s.hub.prs) == {};
    BothHanded(Any, cfg, i, s, 10, 11);
    BreaksLater(p, cfg, s, TwoBuilds(cfg, i, s, 10, 11));
  }

  lemma Back(p: Promise, cfg: Config, s: Lane, e: Event, s': Lane)
    requires Moves(cfg, s, e, s') && Breakable(p, cfg, s')
    ensures Breakable(p, cfg, s)
  {
    ReachesSelf(Any, cfg, s');
    ReachesBack(Any, cfg, s, e, s', s');
    BreaksLater(p, cfg, s, s');
  }

  /**
   Build 1 raises before its sibling's gate has finished. The lock is free, the next drain sees issue 2's
   branch without pull request or hitl, takes it for stranded and opens its pull request while the orphaned
   gate is still reviewing it.
   */
  lemma GateBypassed(p: Promise, cfg: Config, i: Issue)
    requires Unblocked(cfg) && cfg.cap != Some(1) && Eager(i) && (p.HeldWearHitl? || p.HeldNotOpened?)
    ensures Initial(Rest(TwoIssues(i, {}))) && Breakable(p, cfg, Rest(TwoIssues(i, {})))
  {
    var t7 := TwoBuilds(cfg, i, Rest(TwoIssues(i, {})), 10, 11);
    var t8 := t7.(hub := PushBranch(t7.hub, 2), tasks := t7.tasks[11 := At(cfg, i, Pushed(false), 2)], held := {2});
    var t9 := t8.(drain := Idle, own := {}, tasks := t8.tasks - {10});
    assert Moves(cfg, t7, T(11, Push), t8) by { assert t7.held + {2} == {2}; }
    assert Moves(cfg, t8, T(10, Raise), t9);
    assert t9.hub == TwoIssues(i, {2}) && 12 !in t9.tasks;
    if p.HeldWearHitl? { Unlabelled(cfg, t9, 2); } else { StrandedWhileGating(cfg, i, t9); }
    Back(p, cfg, t8, T(10, Raise), t9);
    Back(p, cfg, t7, T(11, Push), t8);
    FirstDrain(p, cfg, i);
  }

  /** At rest with a held issue that does not wear hitl. */
  lemma Unlabelled(cfg: Config, s: Lane, n: nat)
    requires s.drain.Idle? && n in s.held && n in s.hub.issues && !s.hub.issues[n].hitl
    ensures Breakable(HeldWearHitl, cfg, s)
  {
    assert Run(cfg, s, []) && !RunKeeps(HeldWearHitl, cfg, s, []);
  }

  lemma StrandedWhileGating(cfg: Config, i: Issue, s: Lane)
    requires Unblocked(cfg) && Eager(i) && s.drain.Idle? && s.hub == TwoIssues(i, {2})
    requires 2 in s.held && 12 !in s.tasks
    ensures Breakable(HeldNotOpened, cfg, s)
  {
    var pass := Pass("main", BOTH);
    var s4 := s.(own := {}, drain := Recovering(pass, {2}, ONE));
    var none: set<nat> := {};
    var s5 := s4.(drain := Recovering(pass, none, ONE), own := {12}, tasks := s.tasks[12 := At(cfg, i, Checking, 2)]);
    var s6 := s5.(tasks := s5.tasks[12 := At(cfg, i, Opening, 2)]);
    assert Moves(cfg, s4, D(Recover(12, 2)), s5) by { assert {2} - {2} == none; }
    assert Moves(cfg, s5, T(12, SawNoPr), s6);
    Violation(HeldNotOpened, cfg, s6, T(12, Open));
    Back(HeldNotOpened, cfg, s5, T(12, SawNoPr), s6);
    Back(HeldNotOpened, cfg, s4, D(Recover(12, 2)), s5);
    assert s.hub.issues.Keys == BOTH && BOTH * {2} == {2} && BOTH - {2} == ONE;
    PassClassifies(Any, cfg, s, s4);
    BreaksLater(HeldNotOpened, cfg, s, s4);
  }

  /**
   The same exception, a little later: the next drain classifies issue 2 before the orphan pushes, and builds it again.
   */
  lemma BranchRebuilt(cfg: Config, i: Issue)
    requires Unblocked(cfg) && cfg.cap != Some(1) && Eager(i)
    ensures Initial(Rest(TwoIssues(i, {}))) && Breakable(NoRebuild, cfg, Rest(TwoIssues(i, {})))
  {
    var t7 := TwoBuilds(cfg, i, Rest(TwoIssues(i, {})), 10, 11);
    var t8 := t7.(drain := Idle, own := {}, tasks := t7.tasks - {10});
    assert Moves(cfg, t7, T(10, Raise), t8);
    assert t8.hub == TwoIssues(i, {}) && 11 in t8.tasks && t8.tasks[11] == At(cfg, i, Building, 2);
    ClassifiedBeforePush(cfg, i, t8);
    Back(NoRebuild, cfg, t7, T(10, Raise), t8);
    FirstDrain(NoRebuild, cfg, i);
  }

  lemma ClassifiedBeforePush(cfg: Config, i: Issue, s: Lane)
    requires Unblocked(cfg) && cfg.cap != Some(1) && Eager(i) && s.drain.Idle? && s.hub == TwoIssues(i, {})
    requires 11 in s.tasks && s.tasks[11] == At(cfg, i, Building, 2) && 12 !in s.tasks && 13 !in s.tasks
    ensures Breakable(NoRebuild, cfg, s)
  {
    var s4 := s.(own := {}, drain := Recovering(Pass("main", BOTH), {}, BOTH));
    PushedThenHanded(cfg, i, s4);
    BothClassified(Any, cfg, i, s, s4);
    BreaksLater(NoRebuild, cfg, s, s4);
  }

  lemma PushedThenHanded(cfg: Config, i: Issue, s: Lane)
    requires Unblocked(cfg) && cfg.cap != Some(1) && s.hub == TwoIssues(i, {}) && s.own == {}
    requires s.drain == Recovering(Pass("main", BOTH), {}, BOTH)
    requires 11 in s.tasks && s.tasks[11] == At(cfg, i, Building, 2) && 12 !in s.tasks && 13 !in s.tasks
    ensures Breakable(NoRebuild, cfg, s)
  {
    var s1 := s.(hub := PushBranch(s.hub, 2), tasks := s.tasks[11 := At(cfg, i, Pushed(false), 2)],
                 held := s.held + {2});
    assert Moves(cfg, s, T(11, Push), s1);
    BothMove(cfg, i, s1, 12, 13);
    Violation(NoRebuild, cfg, BothQueued(cfg, i, s1, 12, 13), T(13, Hand));
    Back(NoRebuild, cfg, s1, D(Select(map[12 := 1, 13 := 2])), BothQueued(cfg, i, s1, 12, 13));
    Back(NoRebuild, cfg, s, T(11, Push), s1);
  }

  /**
   The same exception once the orphan has passed its gate and seen no pull request: the next drain recovers the
   branch and opens one, and then the orphan opens another.
   */
  lemma PullRequestDoubled(cfg: Config, i: Issue)
    requires Unblocked(cfg) && cfg.cap != Some(1) && Eager(i)
    ensures Initial(Rest(TwoIssues(i, {}))) && Breakable(OnePullRequest, cfg, Rest(TwoIssues(i, {})))
  {
    var s := TwoBuilds(cfg, i, Rest(TwoIssues(i, {})), 10, 11);
    var s1 := SeesNone(cfg, i, s);
    var s2 := s1.(drain := Idle, own := {}, tasks := s1.tasks - {10});
    assert Moves(cfg, s1, T(10, Raise), s2);
    RecoveredBesides(cfg, i, s2);
    Back(OnePullRequest, cfg, s1, T(10, Raise), s2);
    BreaksLater(OnePullRequest, cfg, s, s1);
    FirstDrain(OnePullRequest, cfg, i);
  }

  /** Build 2 pushes, passes its gate with nothing to file, and finds no pull request. */
  lemma SeesNone(cfg: Config, i: Issue, s: Lane) returns (s4: Lane)
    requires s.hub == TwoIssues(i, {}) && 11 in s.tasks && s.tasks[11] == At(cfg, i, Building, 2)
    ensures Reaches(Any, cfg, s, s4)
    ensures s4 == s.(hub := TwoIssues(i, {2}), tasks := s.tasks[11 := At(cfg, i, Opening, 2)], held := s4.held)
  {
    var s1 := s.(hub := TwoIssues(i, {2}), tasks := s.tasks[11 := At(cfg, i, Pushed(false), 2)], held := s.held + {2});
    var s2 := s1.(tasks := s.tasks[11 := At(cfg, i, Filing(0), 2)], held := s1.held - {2});
    var s3 := s2.(tasks := s.tasks[11 := At(cfg, i, Checking, 2)]);
    s4 := s2.(tasks := s.tasks[11 := At(cfg, i, Opening, 2)]);
    assert Moves(cfg, s, T(11, Push), s1) by { assert {} + {2} == {2}; }
    assert Moves(cfg, s1, T(11, Gate(false, 0)), s2) by {
      assert s1.tasks[11 := At(cfg, i, Filing(0), 2)] == s2.tasks;
    }
    assert Moves(cfg, s2, T(11, FiledAll), s3) by { assert s2.tasks[11 := At(cfg, i, Checking, 2)] == s3.tasks; }
    assert Moves(cfg, s3, T(11, SawNoPr), s4) by { assert s3.tasks[11 := At(cfg, i, Opening, 2)] == s4.tasks; }
    ReachesSelf(Any, cfg, s4);
    ReachesBack(Any, cfg, s3, T(11, SawNoPr), s4, s4);
    ReachesBack(Any, cfg, s2, T(11, FiledAll), s3, s4);
    ReachesBack(Any, cfg, s1, T(11, Gate(false, 0)), s2, s4);
    ReachesBack(Any, cfg, s, T(11, Push), s1, s4);
  }

  /** The next drain recovers issue 2 while the orphan is about to open its pull request too. */
  lemma RecoveredBesides(cfg: Config, i: Issue, s: Lane)
    requires Unblocked(cfg) && Eager(i) && s.drain.Idle? && s.hub == TwoIssues(i, {2})
    requires 11 in s.tasks && s.tasks[11] == At(cfg, i, Opening, 2) && 12 !in s.tasks
    ensures Breakable(OnePullRequest, cfg, s)
  {
    var none: set<nat> := {};
    var pass, pr := Pass("main", BOTH), PullRequest(2, "main");
    var s4 := s.(own := {}, drain := Recovering(pass, {2}, ONE));
    var s5 := s4.(drain := Recovering(pass, none, ONE), own := {12}, tasks := s.tasks[12 := At(cfg, i, Checking, 2)]);
    var s6 := s5.(tasks := s.tasks[12 := At(cfg, i, Opening, 2)]);
    var s7 := s6.(hub := s.hub.(prs := [pr]), tasks := s.tasks[12 := At(cfg, i, Recording, 2)]);
    assert Moves(cfg, s4, D(Recover(12, 2)), s5) by { assert {2} - {2} == none; }
    assert Moves(cfg, s5, T(12, SawNoPr), s6) by { assert s5.tasks[12 := At(cfg, i, Opening, 2)] == s6.tasks; }
    assert Moves(cfg, s6, T(12, Open), s7) by {
      assert s6.tasks[12 := At(cfg, i, Recording, 2)] == s7.tasks;
      assert [] + [pr] == [pr];
    }
    SecondOpen(cfg, i, s7);
    Back(OnePullRequest, cfg, s6, T(12, Open), s7);
    Back(OnePullRequest, cfg, s5, T(12, SawNoPr), s6);
    Back(OnePullRequest, cfg, s4, D(Recover(12, 2)), s5);
    assert s.hub.issues.Keys == BOTH && BOTH * {2} == {2} && BOTH - {2} == ONE;
    PassClassifies(Any, cfg, s, s4);
    BreaksLater(OnePullRequest, cfg, s, s4);
  }

  lemma SecondOpen(cfg: Config, i: Issue, s: Lane)
    requires 11 in s.tasks && s.tasks[11] == At(cfg, i, Opening, 2) && 2 in s.hub.branches
    requires s.hub.prs == [PullRequest(2, "main")]
    ensures Breakable(OnePullRequest, cfg, s)
  {
    var pr := PullRequest(2, "main");
    var s' := AfterTask(cfg, s, 11, Open);
    assert s'.hub.prs == [pr] + [pr] == [pr, pr];
    assert !OneOpenPrPerHead(s'.hub.prs) by { assert s'.hub.prs[0].head == s'.hub.prs[1].head; }
    assert Run(cfg, s', []) && !RunKeeps(OnePullRequest, cfg, s', []);
    Back(OnePullRequest, cfg, s, T(11, Open), s');
  }

  // --- a sink that may fail: one issue suffices ---

  /**
   The report sink raises after the push: the branch is out, no gate ran, and the issue wears no hitl; the next drain
   takes the branch for stranded and opens its pull request.
   */
  lemma ReportFailureLeavesGateOpen(p: Promise, cfg: Config, i: Issue)
    requires Unblocked(cfg) && cfg.sinksMayFail && Eager(i) && (p.HeldWearHitl? || p.HeldNotOpened?)
    ensures Initial(Rest(OneIssue(i, {}))) && Breakable(p, cfg, Rest(OneIssue(i, {})))
  {
    var s := Rest(OneIssue(i, {}));
    assert Heads(s.hub.prs) == {};
    var s4 := s.(own := {}, drain := Recovering(Pass("main", ONE), {}, ONE));
    var s5 := s4.(drain := BuildingAll, own := {10}, tasks := s.tasks[10 := At(cfg, i, Queued, 1)]);
    PushedThenRaised(p, cfg, i, s5);
    OneSelected(cfg, i, s4, s5);
    Back(p, cfg, s4, D(Select(map[10 := 1])), s5);
    assert s.hub.issues.Keys == ONE && ONE * s.hub.branches == {} && ONE - s.hub.branches == ONE;
    PassClassifies(Any, cfg, s, s4);
    BreaksLater(p, cfg, s, s4);
  }

  ghost function OneIssue(i: Issue, branches: set<nat>): Hub {
    Hub(map[1 := i], branches, [])
  }

  lemma PushedThenRaised(p: Promise, cfg: Config, i: Issue, s: Lane)
    requires Unblocked(cfg) && cfg.sinksMayFail && Eager(i) && (p.HeldWearHitl? || p.HeldNotOpened?)
    requires s.drain.BuildingAll? && s.own == {10} && 10 in s.tasks
    requires s.tasks[10] == At(cfg, i, Queued, 1) && s.hub == OneIssue(i, {})
    ensures Breakable(p, cfg, s)
  {
    var s6 := s.(tasks := s.tasks[10 := At(cfg, i, Building, 1)], handed := s.handed + [1]);
    var s7 := s6.(hub := PushBranch(s.hub, 1), tasks := s6.tasks[10 := At(cfg, i, Pushed(false), 1)],
                  held := s.held + {1});
    var s8 := s7.(drain := Idle, own := {}, tasks := s7.tasks - {10});
    assert Moves(cfg, s, T(10, Hand), s6);
    assert Moves(cfg, s6, T(10, Push), s7);
    assert Moves(cfg, s7, T(10, Raise), s8);
    assert s8.hub == OneIssue(i, {1});
    if p.HeldWearHitl? { Unlabelled(cfg, s8, 1); } else { StrandedUnreviewed(cfg, i, s8); }
    Back(p, cfg, s7, T(10, Raise), s8);
    Back(p, cfg, s6, T(10, Push), s7);
    Back(p, cfg, s, T(10, Hand), s6);
  }

  /** The next drain recovers the branch that no gate has seen. */
  lemma StrandedUnreviewed(cfg: Config, i: Issue, s: Lane)
    requires Unblocked(cfg) && Eager(i) && s.drain.Idle? && s.hub == OneIssue(i, {1})
    requires 1 in s.held && 10 !in s.tasks
    ensures Breakable(HeldNotOpened, cfg, s)
  {
    var none: set<nat> := {};
    var s4 := s.(own := {}, drain := Recovering(Pass("main", ONE), ONE, none));
    var s5 := s4.(drain := Recovering(Pass("main", ONE), none, none), own := {10},
                  tasks := s.tasks[10 := At(cfg, i, Checking, 1)]);
    var s6 := s5.(tasks := s5.tasks[10 := At(cfg, i, Opening, 1)]);
    assert Moves(cfg, s4, D(Recover(10, 1)), s5) by { assert ONE - {1} == none; }
    assert Moves(cfg, s5, T(10, SawNoPr), s6);
    Violation(HeldNotOpened, cfg, s6, T(10, Open));
    Back(HeldNotOpened, cfg, s5, T(10, SawNoPr), s6);
    Back(HeldNotOpened, cfg, s4, D(Recover(10, 1)), s5);
    assert s.hub.issues.Keys == ONE && ONE * {1} == ONE && ONE - {1} == none;
    PassClassifies(Any, cfg, s, s4);
    BreaksLater(HeldNotOpened, cfg, s, s4);
  }

  lemma OneSelected(cfg: Config, i: Issue, s: Lane, s': Lane)
    requires ValidConfig(cfg) && s == Rest(OneIssue(i, {})).(drain := Recovering(Pass("main", ONE), {}, ONE))
    requires s' == s.(drain := BuildingAll, own := {10}, tasks := s.tasks[10 := At(cfg, i, Queued, 1)])
    ensures Moves(cfg, s, D(Select(map[10 := 1])), s')
  {
    var chosen: map<nat, nat> := map[10 := 1];
    assert chosen.Keys == {10} && chosen[10] == 1;
    assert chosen.Values == ONE by { assert chosen[10] in chosen.Values; }
    assert |chosen| == |chosen.Keys| == 1 && |ONE| == 1 && ONE * ONE == ONE;
    assert Selection(cfg, chosen, ONE, ONE);
    assert Spawn(cfg, s.hub, chosen, "main") == map[10 := At(cfg, i, Queued, 1)];
    SelectMoves(cfg, s, chosen, ONE, s');
  }

  // --- exactly when the lane keeps its promises ---

  ghost predicate AlwaysKeeps(p: Promise, cap: Option<int>, sinksMayFail: bool) {
    forall cfg: Config, s: Lane, es: seq<Event> ::
      cfg.cap == cap && cfg.sinksMayFail == sinksMayFail && Initial(s) && Run(cfg, s, es) ==> RunKeeps(p, cfg, s, es)
  }

  lemma NotAlways(p: Promise, cfg: Config, s: Lane)
    requires Initial(s) && Breakable(p, cfg, s)
    ensures !AlwaysKeeps(p, cfg.cap, cfg.sinksMayFail)
  {
  }

  ghost function SampleConfig(cap: Option<int>, sinksMayFail: bool): Config {
    Config(cap, 0, 0, sinksMayFail, n => {}, ChainDepth.Parse)
  }

  const SAMPLE_ISSUE := Issue(true, true, false, false, true, "", None)

  lemma OneAtATimeKeeps(p: Promise, sinksMayFail: bool)
    requires p.HeldWearHitl? || p.HeldNotOpened? ==> !sinksMayFail
    ensures AlwaysKeeps(p, Some(1), sinksMayFail)
  {
    forall cfg: Config, s: Lane, es: seq<Event>
      | cfg.cap == Some(1) && cfg.sinksMayFail == sinksMayFail && Initial(s) && Run(cfg, s, es)
      ensures RunKeeps(p, cfg, s, es)
    {
      CapOneIsOrderly(cfg, s, es);
      OrderlyRunsDedup(cfg, s, es);
      if !sinksMayFail { OrderlyRunsFailClosed(cfg, s, es); }
    }
  }

  /** No rebuild of a pushed branch, no duplicate pull request: each on all runs exactly when `max_parallel` is one. */
  lemma DedupExactly(p: Promise, cap: Option<int>, sinksMayFail: bool)
    requires (cap.Some? ==> cap.value > 0) && (p.OnePullRequest? || p.NoRebuild?)
    ensures AlwaysKeeps(p, cap, sinksMayFail) <==> cap == Some(1)
  {
    if cap == Some(1) {
      OneAtATimeKeeps(p, sinksMayFail);
    } else {
      var cfg := SampleConfig(cap, sinksMayFail);
      if p.NoRebuild? { BranchRebuilt(cfg, SAMPLE_ISSUE); } else { PullRequestDoubled(cfg, SAMPLE_ISSUE); }
      NotAlways(p, cfg, Rest(TwoIssues(SAMPLE_ISSUE, {})));
    }
  }

  /** The gate's two promises, each over all runs: exactly when `max_parallel` is one and the sinks never raise. */
  lemma FailClosedExactly(p: Promise, cap: Option<int>, sinksMayFail: bool)
    requires (cap.Some? ==> cap.value > 0) && (p.HeldWearHitl? || p.HeldNotOpened?)
    ensures AlwaysKeeps(p, cap, sinksMayFail) <==> cap == Some(1) && !sinksMayFail
  {
    var cfg := SampleConfig(cap, sinksMayFail);
    if cap != Some(1) {
      GateBypassed(p, cfg, SAMPLE_ISSUE);
      NotAlways(p, cfg, Rest(TwoIssues(SAMPLE_ISSUE, {})));
    } else if sinksMayFail {
      ReportFailureLeavesGateOpen(p, cfg, SAMPLE_ISSUE);
      NotAlways(p, cfg, Rest(OneIssue(SAMPLE_ISSUE, {})));
    } else {
      OneAtATimeKeeps(p, sinksMayFail);
    }
  }
}
