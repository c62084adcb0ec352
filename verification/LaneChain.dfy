/**
 Termination of the review-fix chain over whole runs: a build files its nits one hop deeper, the cron lane
 promotes them, the drain builds them. The depth travels only as text in the issue body. Every run whatever
 bounds how deep a chain gets; how wide it gets is bounded exactly when no issue is built twice.
 */
module LaneChain {
  import ChainDepth
  import opened GitHub
  import opened Lane
  import opened LaneSafety
  import opened LaneTask
  import opened Wrappers

  /** A filed body reads back as the depth it was filed with. */
  ghost predicate ReadsFiled(cfg: Config) {
    forall body: string, depth: nat :: cfg.depthOf(ChainDepth.FiledBody(body, depth)) == depth
  }

  /** Reading depths by the last marker does that, whatever the bodies quote. */
  lemma MarkersReadBack(cfg: Config)
    requires forall body :: cfg.depthOf(body) == ChainDepth.Parse(body)
    ensures ReadsFiled(cfg)
  {
    forall body: string, depth: nat ensures cfg.depthOf(ChainDepth.FiledBody(body, depth)) == depth {
      ChainDepth.ParseFiledBody(body, depth);
    }
  }

  // --- how deep: every run ---

  /** Every filed nit is one hop below the issue whose review filed it, and below the cap. */
  ghost predicate Lineage(cfg: Config, hub: Hub) {
    forall n | n in hub.issues && hub.issues[n].parent.Some? ::
      var p := hub.issues[n].parent.value;
      && p in hub.issues
      && cfg.depthOf(hub.issues[n].body) == cfg.depthOf(hub.issues[p].body) + 1 < cfg.retryCap
  }

  ghost predicate TaskDepth(cfg: Config, hub: Hub, t: Task) {
    && t.issue in hub.issues && t.depth == cfg.depthOf(hub.issues[t.issue].body)
    && (t.phase.Filing? && t.phase.left > 0 ==> t.depth + 1 < cfg.retryCap)
  }

  ghost predicate DepthInv(cfg: Config, s: Lane) {
    Lineage(cfg, s.hub) && forall tid | tid in s.tasks :: TaskDepth(cfg, s.hub, s.tasks[tid])
  }

  /** The old issues keep their texts, whatever is added. */
  ghost predicate TextsStay(a: Hub, b: Hub) {
    forall n | n in a.issues ::
      n in b.issues && b.issues[n].body == a.issues[n].body && b.issues[n].parent == a.issues[n].parent
  }

  lemma LineageAfterNit(cfg: Config, hub: Hub, t: Task, number: nat, body: string, urgent: bool)
    requires ReadsFiled(cfg) && Lineage(cfg, hub) && number !in hub.issues && TaskDepth(cfg, hub, t)
    requires t.depth + 1 < cfg.retryCap
    ensures Lineage(cfg, AddIssue(hub, number, Nit(t.issue, t.depth + 1, body, urgent)))
  {
    var nit := Nit(t.issue, t.depth + 1, body, urgent);
    assert cfg.depthOf(nit.body) == t.depth + 1;
  }

  lemma DepthTask(cfg: Config, s: Lane, tid: nat, e: TaskEvent)
    requires ReadsFiled(cfg) && DepthInv(cfg, s) && TaskEnabled(cfg, s, tid, e)
    ensures DepthInv(cfg, AfterTask(cfg, s, tid, e))
  {
    var t, s' := s.tasks[tid], AfterTask(cfg, s, tid, e);
    assert TaskDepth(cfg, s.hub, t);
    LineageAfterTask(cfg, s.hub, t, e);
    forall k | k in s'.tasks ensures TaskDepth(cfg, s'.hub, s'.tasks[k]) {
      assert TaskDepth(cfg, s.hub, s.tasks[k]);
    }
  }

  lemma LineageAfterTask(cfg: Config, hub: Hub, t: Task, e: TaskEvent)
    requires ReadsFiled(cfg) && Lineage(cfg, hub) && TaskDepth(cfg, hub, t) && Enabled(cfg, t, hub, e)
    ensures Lineage(cfg, Effect(t, hub, e)) && TextsStay(hub, Effect(t, hub, e))
  {
    if e.FileNit? { LineageAfterNit(cfg, hub, t, e.number, e.body, e.urgent); }
  }

  lemma DepthDrain(cfg: Config, s: Lane, e: DrainEvent)
    requires DepthInv(cfg, s) && DrainEnabled(cfg, s, e)
    ensures DepthInv(cfg, AfterDrain(cfg, s, e))
  {
    var s' := AfterDrain(cfg, s, e);
    forall k | k in s'.tasks ensures TaskDepth(cfg, s'.hub, s'.tasks[k]) {
      if e.Select? && k in e.chosen {
        assert e.chosen[k] in e.chosen.Values;
        assert s'.tasks[k] == Spawned(cfg, s.hub, e.chosen[k], s.drain.pass.base);
      } else if !(e.Recover? && k == e.tid) {
        assert s'.tasks[k] == s.tasks[k];
      }
    }
  }

  lemma DepthWorld(cfg: Config, s: Lane, e: WorldEvent)
    requires DepthInv(cfg, s) && WorldEnabled(s, e)
    ensures DepthInv(cfg, AfterWorld(s, e))
  {
    var s' := AfterWorld(s, e);
    assert TextsStay(s.hub, s'.hub);
    forall k | k in s'.tasks ensures TaskDepth(cfg, s'.hub, s'.tasks[k]) {
      assert TaskDepth(cfg, s.hub, s.tasks[k]);
    }
  }

  /** Whatever step is taken, by anybody, at any time, the depths stay right. */
  lemma DepthStep(cfg: Config, s: Lane, e: Event)
    requires ReadsFiled(cfg) && DepthInv(cfg, s) && EventEnabled(cfg, s, e)
    ensures DepthInv(cfg, After(cfg, s, e))
  {
    match e
    case D(d) => DepthDrain(cfg, s, d);
    case T(tid, t) => DepthTask(cfg, s, tid, t);
    case W(w) => DepthWorld(cfg, s, w);
  }

  lemma {:induction false} DepthRun(cfg: Config, s: Lane, es: seq<Event>)
    requires ReadsFiled(cfg) && DepthInv(cfg, s) && Run(cfg, s, es)
    ensures DepthInv(cfg, Final(cfg, s, es))
    decreases |es|
  {
    if es != [] {
      DepthStep(cfg, s, es[0]);
      DepthRun(cfg, After(cfg, s, es[0]), es[1..]);
    }
  }

  // --- how wide: runs whose drains leave no coroutine behind ---

  ghost function Children(hub: Hub, p: nat): set<nat> {
    set n | n in hub.issues && hub.issues[n].parent == Some(p)
  }

  ghost predicate TaskChain(cfg: Config, hub: Hub, t: Task) {
    && (t.phase.Pushed? ==> Children(hub, t.issue) == {})
    && (t.phase.Pushed? || t.phase.Filing? ==> t.issue in hub.branches)
    && (t.phase.Filing? ==> |Children(hub, t.issue)| + t.phase.left <= cfg.maxNits)
  }

  ghost predicate ChainInv(cfg: Config, s: Lane) {
    && (forall p :: |Children(s.hub, p)| <= cfg.maxNits)
    && (forall p | Children(s.hub, p) != {} :: p in s.hub.branches)
    && (forall tid | tid in s.tasks :: TaskChain(cfg, s.hub, s.tasks[tid]))
  }

  /** Label edits and closes leave bodies and parents alone. */
  ghost predicate SameTexts(a: Hub, b: Hub) {
    TextsStay(a, b) && a.issues.Keys == b.issues.Keys && a.branches <= b.branches
  }

  lemma TextsKept(cfg: Config, a: Hub, b: Hub)
    requires SameTexts(a, b)
    ensures forall p :: Children(b, p) == Children(a, p)
    ensures forall t: Task | TaskChain(cfg, a, t) :: TaskChain(cfg, b, t)
  {
    forall p ensures Children(b, p) == Children(a, p) {}
  }

  lemma EffectKeepsTexts(t: Task, hub: Hub, e: TaskEvent)
    requires !e.FileNit?
    ensures SameTexts(hub, Effect(t, hub, e))
  {
  }

  /** A task's own bookkeeping through one event other than a filing. */
  lemma AdvanceKeepsChain(cfg: Config, t: Task, hub: Hub, e: TaskEvent)
    requires TaskChain(cfg, hub, t) && Enabled(cfg, t, hub, e) && !e.FileNit?
    requires Children(hub, t.issue) != {} ==> t.issue in hub.branches
    requires t.phase.Queued? || t.phase.Building? ==> t.issue !in hub.branches
    ensures Advance(cfg, t, e).Continues? ==> TaskChain(cfg, Effect(t, hub, e), Advance(cfg, t, e).task)
  {
    EffectKeepsTexts(t, hub, e);
    TextsKept(cfg, hub, Effect(t, hub, e));
  }

  /** Adding an issue changes the children of its parent only. */
  lemma ChildrenAfterAdd(hub: Hub, number: nat, issue: Issue, p: nat)
    requires number !in hub.issues
    ensures Children(AddIssue(hub, number, issue), p)
         == Children(hub, p) + (if issue.parent == Some(p) then {number} else {})
  {
  }

  lemma ChainDrain(cfg: Config, s: Lane, e: DrainEvent)
    requires ChainInv(cfg, s) && s.tasks == map[] && DrainEnabled(cfg, s, e)
    ensures ChainInv(cfg, AfterDrain(cfg, s, e))
  {
    var s' := AfterDrain(cfg, s, e);
    assert s'.hub == s.hub;
    forall k | k in s'.tasks ensures s'.tasks[k].phase.Queued? || s'.tasks[k].phase.Checking? {
      if e.Select? { assert s'.tasks[k] == Spawned(cfg, s.hub, e.chosen[k], s.drain.pass.base); }
    }
  }

  /** A filing leaves every task about another issue as it was. */
  lemma NitKeepsOthers(cfg: Config, hub: Hub, number: nat, nit: Issue, u: Task)
    requires TaskChain(cfg, hub, u) && number !in hub.issues && nit.parent != Some(u.issue)
    ensures TaskChain(cfg, AddIssue(hub, number, nit), u)
  {
    ChildrenAfterAdd(hub, number, nit, u.issue);
  }

  /** The filer owes one less. */
  lemma NitKeepsFiler(cfg: Config, hub: Hub, number: nat, nit: Issue, t: Task)
    requires TaskChain(cfg, hub, t) && number !in hub.issues && nit.parent == Some(t.issue)
    requires t.phase.Filing? && t.phase.left > 0
    ensures TaskChain(cfg, AddIssue(hub, number, nit), t.(phase := Filing(t.phase.left - 1)))
    ensures |Children(AddIssue(hub, number, nit), t.issue)| <= cfg.maxNits
  {
    ChildrenAfterAdd(hub, number, nit, t.issue);
  }

  lemma NitKeepsBounds(cfg: Config, hub: Hub, number: nat, nit: Issue, parent: nat, p: nat)
    requires number !in hub.issues && nit.parent == Some(parent)
    requires parent in hub.branches && |Children(AddIssue(hub, number, nit), parent)| <= cfg.maxNits
    requires |Children(hub, p)| <= cfg.maxNits && (Children(hub, p) != {} ==> p in hub.branches)
    ensures var hub' := AddIssue(hub, number, nit);
      |Children(hub', p)| <= cfg.maxNits && (Children(hub', p) != {} ==> p in hub'.branches)
  {
    ChildrenAfterAdd(hub, number, nit, p);
    if p != parent { assert Children(AddIssue(hub, number, nit), p) == Children(hub, p); }
  }

  /** A filing, seen from the hub and the tasks: the filer owes one less, every other task is about another issue. */
  lemma ChainFileNit(cfg: Config, s: Lane, s': Lane, tid: nat, number: nat, body: string, urgent: bool)
    requires ChainInv(cfg, s) && OneTaskPerIssue(s) && number !in s.hub.issues
    requires tid in s.tasks && s.tasks[tid].phase.Filing? && s.tasks[tid].phase.left > 0
    requires var t := s.tasks[tid];
      && s'.tasks == s.tasks[tid := t.(phase := Filing(t.phase.left - 1))]
      && s'.hub == AddIssue(s.hub, number, Nit(t.issue, t.depth + 1, body, urgent))
    ensures ChainInv(cfg, s')
  {
    var t := s.tasks[tid];
    var nit := Nit(t.issue, t.depth + 1, body, urgent);
    assert TaskChain(cfg, s.hub, t);
    NitKeepsFiler(cfg, s.hub, number, nit, t);
    forall p
      ensures |Children(s'.hub, p)| <= cfg.maxNits
      ensures Children(s'.hub, p) != {} ==> p in s'.hub.branches
    {
      NitKeepsBounds(cfg, s.hub, number, nit, t.issue, p);
    }
    forall k | k in s'.tasks ensures TaskChain(cfg, s'.hub, s'.tasks[k]) {
      if k != tid {
        assert s'.tasks[k] == s.tasks[k] && s.tasks[k].issue != t.issue;
        NitKeepsOthers(cfg, s.hub, number, nit, s.tasks[k]);
      }
    }
  }

  lemma ChainTask(cfg: Config, s: Lane, tid: nat, e: TaskEvent)
    requires ChainInv(cfg, s) && TaskEnabled(cfg, s, tid, e) && !e.FileNit? && TaskFits(s, s.tasks[tid])
    ensures ChainInv(cfg, AfterTask(cfg, s, tid, e))
  {
    var t := s.tasks[tid];
    assert TaskChain(cfg, s.hub, t);
    var hub' := Effect(t, s.hub, e);
    AdvanceKeepsChain(cfg, t, s.hub, e);
    EffectKeepsTexts(t, s.hub, e);
    TextsKept(cfg, s.hub, hub');
    var s' := AfterTask(cfg, s, tid, e);
    assert s'.hub == hub';
    forall k | k in s'.tasks ensures TaskChain(cfg, hub', s'.tasks[k]) {
      assert k != tid ==> s'.tasks[k] == s.tasks[k];
    }
  }

  lemma ChainFileIssue(cfg: Config, s: Lane, n: nat, issue: Issue)
    requires ChainInv(cfg, s) && n !in s.hub.issues && issue.parent.None?
    ensures var hub' := WithIssue(s.hub, n, issue);
      && (forall p :: Children(hub', p) == Children(s.hub, p))
      && forall tid | tid in s.tasks :: TaskChain(cfg, hub', s.tasks[tid])
  {
    var hub' := WithIssue(s.hub, n, issue);
    forall p ensures Children(hub', p) == Children(s.hub, p) { ChildrenAfterAdd(s.hub, n, issue, p); }
    forall tid | tid in s.tasks ensures TaskChain(cfg, hub', s.tasks[tid]) {
      assert TaskChain(cfg, s.hub, s.tasks[tid]);
    }
  }

  lemma ChainWorld(cfg: Config, s: Lane, e: WorldEvent)
    requires ChainInv(cfg, s) && WorldEnabled(s, e) && !e.DeleteBranch?
    ensures ChainInv(cfg, AfterWorld(s, e))
  {
    if e.FileIssue? {
      ChainFileIssue(cfg, s, e.n, e.issue);
    } else {
      assert SameTexts(s.hub, AfterWorld(s, e).hub);
      TextsKept(cfg, s.hub, AfterWorld(s, e).hub);
    }
  }

  lemma ChainStep(cfg: Config, s: Lane, e: Event)
    requires Serial(s) && ChainInv(cfg, s) && EventEnabled(cfg, s, e) && Suits(KeepingBranches, s, e)
    ensures ChainInv(cfg, After(cfg, s, e))
  {
    match e
    case D(d) =>
      assert s.tasks == map[];
      ChainDrain(cfg, s, d);
    case T(tid, t) =>
      if t.FileNit? {
        ChainFileNit(cfg, s, AfterTask(cfg, s, tid, t), tid, t.number, t.body, t.urgent);
      } else {
        ChainTask(cfg, s, tid, t);
      }
    case W(w) => ChainWorld(cfg, s, w);
  }

  lemma {:induction false} ChainRun(cfg: Config, s: Lane, es: seq<Event>)
    requires Serial(s) && ChainInv(cfg, s) && Run(cfg, s, es)
    requires Suited(Orderly, cfg, s, es) && Suited(KeepingBranches, cfg, s, es)
    ensures ChainInv(cfg, Final(cfg, s, es))
    decreases |es|
  {
    if es != [] {
      SerialStep(cfg, s, es[0]);
      ChainStep(cfg, s, es[0]);
      ChainRun(cfg, After(cfg, s, es[0]), es[1..]);
    }
  }

  // --- counting what one origin leaves behind ---

  /** The issues `k` hops below `origin`. */
  ghost function Level(hub: Hub, origin: nat, k: nat): set<nat> {
    if k == 0 then {origin}
    else ChildrenOf(hub, Level(hub, origin, k - 1))
  }

  ghost function ChildrenOf(hub: Hub, parents: set<nat>): set<nat> {
    set n | n in hub.issues && hub.issues[n].parent.Some? && hub.issues[n].parent.value in parents
  }

  lemma {:induction false} ChildrenOfBound(hub: Hub, parents: set<nat>, b: nat)
    requires forall p | p in parents :: |Children(hub, p)| <= b
    ensures |ChildrenOf(hub, parents)| <= |parents| * b
  {
    if parents == {} {
      assert ChildrenOf(hub, parents) == {};
    } else {
      var p :| p in parents;
      var rest := parents - {p};
      ChildrenOfBound(hub, rest, b);
      assert ChildrenOf(hub, parents) == ChildrenOf(hub, rest) + Children(hub, p);
      assert |parents| == |rest| + 1;
      assert (|rest| + 1) * b == |rest| * b + b;
    }
  }

  function Power(b: nat, k: nat): nat {
    if k == 0 then 1 else Power(b, k - 1) * b
  }

  /** 1 + b + ... + b^k. */
  function Geometric(b: nat, k: nat): nat {
    if k == 0 then 1 else Geometric(b, k - 1) + Power(b, k)
  }

  lemma {:induction false} LevelBound(hub: Hub, origin: nat, k: nat, b: nat)
    requires forall p :: |Children(hub, p)| <= b
    ensures |Level(hub, origin, k)| <= Power(b, k)
  {
    if k > 0 {
      LevelBound(hub, origin, k - 1, b);
      var above := Level(hub, origin, k - 1);
      assert Level(hub, origin, k) == ChildrenOf(hub, above);
      ChildrenOfBound(hub, above, b);
      assert |above| * b <= Power(b, k - 1) * b by { Monotone(|above|, Power(b, k - 1), b); }
    }
  }

  lemma Monotone(x: nat, y: nat, b: nat)
    requires x <= y
    ensures x * b <= y * b
  {
  }

  lemma {:induction false} LevelDepth(cfg: Config, hub: Hub, origin: nat, k: nat, n: nat)
    requires Lineage(cfg, hub) && origin in hub.issues && n in Level(hub, origin, k)
    ensures n in hub.issues && cfg.depthOf(hub.issues[n].body) == cfg.depthOf(hub.issues[origin].body) + k
    ensures k > 0 ==> cfg.depthOf(hub.issues[n].body) < cfg.retryCap
  {
    if k > 0 {
      LevelDepth(cfg, hub, origin, k - 1, hub.issues[n].parent.value);
    }
  }

  ghost function FirstLevels(hub: Hub, origin: nat, k: nat): set<nat> {
    if k == 0 then Level(hub, origin, 0) else FirstLevels(hub, origin, k - 1) + Level(hub, origin, k)
  }

  lemma {:induction false} FirstLevelsBound(hub: Hub, origin: nat, k: nat, b: nat)
    requires forall p :: |Children(hub, p)| <= b
    ensures |FirstLevels(hub, origin, k)| <= Geometric(b, k)
  {
    LevelBound(hub, origin, k, b);
    if k > 0 { FirstLevelsBound(hub, origin, k - 1, b); }
  }

  lemma {:induction false} LevelsNest(hub: Hub, origin: nat, j: nat, k: nat)
    requires j <= k
    ensures Level(hub, origin, j) <= FirstLevels(hub, origin, k)
    decreases k
  {
    if j < k { LevelsNest(hub, origin, j, k - 1); }
  }

  ghost predicate Descends(hub: Hub, origin: nat, n: nat) {
    exists k: nat :: n in Level(hub, origin, k)
  }

  function Hops(retryCap: nat): nat {
    if retryCap == 0 then 0 else retryCap - 1
  }

  /** The origin and what lies within the hops the cap leaves. */
  ghost function Family(cfg: Config, hub: Hub, origin: nat): set<nat> {
    FirstLevels(hub, origin, Hops(cfg.retryCap))
  }

  ghost predicate Parentless(hub: Hub) {
    forall n | n in hub.issues :: hub.issues[n].parent.None?
  }

  ghost predicate ReadsLastMarker(cfg: Config) {
    forall body :: cfg.depthOf(body) == ChainDepth.Parse(body)
  }

  /**
   Over every run whatever, orphaned coroutines and deleted branches included: a filed nit has a depth between 1
   and retry_cap - 1, and all that descends from an issue lies within retry_cap - 1 hops of it.
   */
  lemma ChainsAreShallow(cfg: Config, s: Lane, es: seq<Event>, origin: nat)
    requires ReadsLastMarker(cfg) && Parentless(s.hub) && s.tasks == map[]
    requires Run(cfg, s, es) && origin in Final(cfg, s, es).hub.issues
    ensures var hub := Final(cfg, s, es).hub;
      && (forall n :: Descends(hub, origin, n) <==> n in Family(cfg, hub, origin))
      && forall n | n in hub.issues && hub.issues[n].parent.Some? ::
        1 <= cfg.depthOf(hub.issues[n].body) <= cfg.retryCap - 1
  {
    MarkersReadBack(cfg);
    DepthRun(cfg, s, es);
    var hub, k := Final(cfg, s, es).hub, Hops(cfg.retryCap);
    forall n | Descends(hub, origin, n) ensures n in FirstLevels(hub, origin, k) {
      var j: nat :| n in Level(hub, origin, j);
      LevelDepth(cfg, hub, origin, j, n);
      LevelsNest(hub, origin, j, k);
    }
    forall n | n in FirstLevels(hub, origin, k) ensures Descends(hub, origin, n) {
      FirstLevelsDescend(hub, origin, k, n);
    }
  }

  /**
   When no drain leaves a coroutine behind and nobody deletes a branch, an origin and all its descendants (by
   `ChainsAreShallow` its family) number at most 1 + B + ... + B^max(0, retry_cap - 1).
   */
  lemma OrderlyChainIsBounded(cfg: Config, s: Lane, es: seq<Event>, origin: nat)
    requires Initial(s) && Parentless(s.hub) && Run(cfg, s, es)
    requires Suited(Orderly, cfg, s, es) && Suited(KeepingBranches, cfg, s, es)
    ensures |Family(cfg, Final(cfg, s, es).hub, origin)| <= Geometric(cfg.maxNits, Hops(cfg.retryCap))
  {
    forall p ensures Children(s.hub, p) == {} {}
    ChainRun(cfg, s, es);
    FirstLevelsBound(Final(cfg, s, es).hub, origin, Hops(cfg.retryCap), cfg.maxNits);
  }

  lemma {:induction false} FirstLevelsDescend(hub: Hub, origin: nat, k: nat, n: nat)
    requires n in FirstLevels(hub, origin, k)
    ensures Descends(hub, origin, n)
  {
    if n !in Level(hub, origin, k) { FirstLevelsDescend(hub, origin, k - 1, n); }
  }
}
