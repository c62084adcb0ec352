/**
 Exactly when the review-fix chain of one origin is bounded over all runs that keep branches: builds one at a
 time, or no nits filed at all. Otherwise coroutines orphaned by a raising sibling build one issue again and
 again, each filing its review's nits, and no number bounds what one origin leaves behind.
 */
module LaneChainExact {
  import ChainDepth
  import opened Collections
  import opened GitHub
  import opened Lane
  import opened LaneChain
  import opened LaneSafety
  import opened LaneTask
  import opened Wrappers

  // --- no nits ---

  predicate FilesNothing(retryCap: nat, maxNits: nat) {
    retryCap <= 1 || maxNits == 0
  }

  ghost predicate NothingFiled(s: Lane) {
    Parentless(s.hub) && forall tid | tid in s.tasks && s.tasks[tid].phase.Filing? :: s.tasks[tid].phase.left == 0
  }

  lemma NothingFiledDrain(cfg: Config, s: Lane, e: DrainEvent)
    requires NothingFiled(s) && DrainEnabled(cfg, s, e)
    ensures NothingFiled(AfterDrain(cfg, s, e))
  {
    var s' := AfterDrain(cfg, s, e);
    forall k | k in s'.tasks ensures s'.tasks[k].phase.Filing? ==> s'.tasks[k].phase.left == 0 {
      if e.Select? && k in e.chosen { assert s'.tasks[k] == Spawned(cfg, s.hub, e.chosen[k], s.drain.pass.base); }
    }
  }

  lemma NothingFiledTask(cfg: Config, s: Lane, tid: nat, e: TaskEvent)
    requires FilesNothing(cfg.retryCap, cfg.maxNits) && NothingFiled(s) && TaskEnabled(cfg, s, tid, e)
    ensures NothingFiled(AfterTask(cfg, s, tid, e))
  {
    var s' := AfterTask(cfg, s, tid, e);
    assert !e.FileNit?;
    assert forall k | k in s'.tasks && k != tid :: s'.tasks[k] == s.tasks[k];
  }

  lemma NothingFiledWorld(s: Lane, e: WorldEvent)
    requires NothingFiled(s) && WorldEnabled(s, e)
    ensures NothingFiled(AfterWorld(s, e))
  {
  }

  lemma NothingFiledStep(cfg: Config, s: Lane, e: Event)
    requires FilesNothing(cfg.retryCap, cfg.maxNits) && NothingFiled(s) && EventEnabled(cfg, s, e)
    ensures NothingFiled(After(cfg, s, e))
  {
    match e
    case D(d) => NothingFiledDrain(cfg, s, d);
    case T(tid, t) => NothingFiledTask(cfg, s, tid, t);
    case W(w) => NothingFiledWorld(s, w);
  }

  lemma {:induction false} NothingFiledRun(cfg: Config, s: Lane, es: seq<Event>)
    requires FilesNothing(cfg.retryCap, cfg.maxNits) && NothingFiled(s) && Run(cfg, s, es)
    ensures NothingFiled(Final(cfg, s, es))
    decreases |es|
  {
    if es != [] {
      NothingFiledStep(cfg, s, es[0]);
      NothingFiledRun(cfg, After(cfg, s, es[0]), es[1..]);
    }
  }

  lemma {:induction false} OriginAlone(hub: Hub, origin: nat, k: nat)
    requires Parentless(hub)
    ensures FirstLevels(hub, origin, k) == {origin}
  {
    if k > 0 {
      OriginAlone(hub, origin, k - 1);
      assert Level(hub, origin, k) == {};
    }
  }

  lemma {:induction false} GeometricPositive(b: nat, k: nat)
    ensures Geometric(b, k) >= 1
  {
    if k > 0 { GeometricPositive(b, k - 1); }
  }

  // --- any number of builds of one issue ---

  /** `k` coroutines no drain owns, all building issue 2. */
  ghost function Orphaned(cfg: Config, i: Issue, k: nat): (tasks: map<nat, Task>)
    ensures forall tid :: tid in tasks <==> 1 <= tid <= k
    ensures forall tid | tid in tasks :: tasks[tid] == At(cfg, i, Building, 2)
  {
    if k == 0 then map[] else Orphaned(cfg, i, k - 1)[k := At(cfg, i, Building, 2)]
  }

  /** The lock is free and `k` orphans build issue 2, which nobody has pushed yet. */
  ghost predicate Idling(cfg: Config, i: Issue, s: Lane, k: nat) {
    s.drain.Idle? && s.hub == TwoIssues(i, {}) && s.tasks == Orphaned(cfg, i, k)
  }

  /** The build of issue 1 raises: the lock is free and the sibling goes on. */
  lemma LeaveBehind(cfg: Config, s: Lane, a: nat, s': Lane)
    requires a in s.tasks && a in s.own && s.tasks[a].phase.Building?
    requires s' == s.(drain := Idle, own := {}, tasks := s.tasks - {a})
    ensures Reaches(KeepingBranches, cfg, s, s')
  {
    assert Moves(cfg, s, T(a, Raise), s');
    ReachesSelf(KeepingBranches, cfg, s');
    ReachesBack(KeepingBranches, cfg, s, T(a, Raise), s', s');
  }

  /** A drain hands both issues; the build of issue 1 raises and leaves its sibling behind. */
  lemma OneMoreOrphan(cfg: Config, i: Issue, s: Lane, k: nat) returns (s': Lane)
    requires Unblocked(cfg) && cfg.cap != Some(1) && Eager(i) && Idling(cfg, i, s, k)
    ensures Reaches(KeepingBranches, cfg, s, s') && Idling(cfg, i, s', k + 1)
  {
    var mid := TwoBuilds(cfg, i, s, 0, k + 1);
    BothHanded(KeepingBranches, cfg, i, s, 0, k + 1);
    s' := mid.(drain := Idle, own := {}, tasks := mid.tasks - {0});
    LeaveBehind(cfg, mid, 0, s');
    ReachesThen(KeepingBranches, cfg, s, mid, s');
    assert s'.tasks == Orphaned(cfg, i, k + 1);
  }

  lemma {:induction false} ManyOrphans(cfg: Config, i: Issue, k: nat) returns (s: Lane)
    requires Unblocked(cfg) && cfg.cap != Some(1) && Eager(i)
    ensures Reaches(KeepingBranches, cfg, Rest(TwoIssues(i, {})), s) && Idling(cfg, i, s, k)
  {
    if k == 0 {
      s := Rest(TwoIssues(i, {}));
      assert s.tasks == Orphaned(cfg, i, 0);
      ReachesSelf(KeepingBranches, cfg, s);
    } else {
      var before := ManyOrphans(cfg, i, k - 1);
      s := OneMoreOrphan(cfg, i, before, k - 1);
      ReachesThen(KeepingBranches, cfg, Rest(TwoIssues(i, {})), before, s);
    }
  }

  // --- each of them pushes, files a nit and has its pull request merged before the next one clones ---

  /** The lock is free, `k` orphans still build issue 2, no pull request is open and `next` is above all numbers. */
  ghost predicate Publishing(cfg: Config, i: Issue, s: Lane, k: nat, next: nat) {
    && s.drain.Idle? && s.tasks == Orphaned(cfg, i, k) && s.hub.prs == []
    && 2 in s.hub.issues && s.hub.issues[2].body == i.body
    && forall n | n in s.hub.issues :: n < next
  }

  ghost predicate Files(cfg: Config, i: Issue) {
    cfg.depthOf(i.body) + 1 < cfg.retryCap && cfg.maxNits > 0
  }

  ghost function WithTask(cfg: Config, i: Issue, s: Lane, tid: nat, phase: Phase): Lane {
    s.(tasks := s.tasks[tid := At(cfg, i, phase, 2)])
  }

  /** Push and pass the gate with one nit. */
  lemma ToFiling(cfg: Config, i: Issue, s: Lane, tid: nat) returns (s': Lane)
    requires Files(cfg, i) && tid in s.tasks && s.tasks[tid] == At(cfg, i, Building, 2)
    ensures Reaches(KeepingBranches, cfg, s, s')
    ensures s' == WithTask(cfg, i, s, tid, Filing(1)).(hub := PushBranch(s.hub, 2), held := s'.held)
  {
    var s1 := WithTask(cfg, i, s, tid, Pushed(false)).(hub := PushBranch(s.hub, 2), held := s.held + {2});
    s' := WithTask(cfg, i, s, tid, Filing(1)).(hub := s1.hub, held := s1.held - {2});
    assert Moves(cfg, s, T(tid, Push), s1);
    assert Moves(cfg, s1, T(tid, Gate(false, 1)), s') by {
      assert s1.tasks[tid := At(cfg, i, Filing(1), 2)] == s'.tasks;
    }
    ReachesSelf(KeepingBranches, cfg, s');
    ReachesBack(KeepingBranches, cfg, s1, T(tid, Gate(false, 1)), s', s');
    ReachesBack(KeepingBranches, cfg, s, T(tid, Push), s1, s');
  }

  /** File the nit and go on to the pull request. */
  lemma FileIt(cfg: Config, i: Issue, s: Lane, tid: nat, next: nat) returns (s': Lane)
    requires tid in s.tasks && s.tasks[tid] == At(cfg, i, Filing(1), 2) && next !in s.hub.issues
    ensures Reaches(KeepingBranches, cfg, s, s')
    ensures s' == WithTask(cfg, i, s, tid, Checking).(
                    hub := AddIssue(s.hub, next, Nit(2, cfg.depthOf(i.body) + 1, "", false)))
  {
    var hub := AddIssue(s.hub, next, Nit(2, cfg.depthOf(i.body) + 1, "", false));
    var s1 := WithTask(cfg, i, s, tid, Filing(0)).(hub := hub);
    s' := WithTask(cfg, i, s, tid, Checking).(hub := hub);
    assert Moves(cfg, s, T(tid, FileNit(next, "", false)), s1);
    assert Moves(cfg, s1, T(tid, FiledAll), s') by {
      assert s1.tasks[tid := At(cfg, i, Checking, 2)] == s'.tasks;
    }
    ReachesSelf(KeepingBranches, cfg, s');
    ReachesBack(KeepingBranches, cfg, s1, T(tid, FiledAll), s', s');
    ReachesBack(KeepingBranches, cfg, s, T(tid, FileNit(next, "", false)), s1, s');
  }

  /** Open the pull request, end, and have it merged. */
  lemma OpenAndMerge(cfg: Config, i: Issue, s: Lane, tid: nat) returns (s': Lane)
    requires tid in s.tasks && s.tasks[tid] == At(cfg, i, Checking, 2) && s.hub.prs == [] && 2 in s.hub.branches
    requires s.drain.Idle?
    ensures Reaches(KeepingBranches, cfg, s, s')
    ensures s'.hub == s.hub && s'.drain == s.drain && s'.tasks == s.tasks - {tid}
  {
    var s1 := WithTask(cfg, i, s, tid, Opening);
    var s2 := WithTask(cfg, i, s, tid, Recording).(hub := OpenPr(s.hub, 2, "main"));
    var s3 := s.(hub := s2.hub, tasks := s.tasks - {tid}, own := s.own - {tid});
    s' := s3.(hub := s.hub, merged := s.merged + {2});
    assert Moves(cfg, s, T(tid, SawNoPr), s1);
    assert Moves(cfg, s1, T(tid, Open), s2) by {
      assert s1.tasks[tid := At(cfg, i, Recording, 2)] == s2.tasks;
    }
    assert Moves(cfg, s2, T(tid, Record), s3) by { assert s2.tasks - {tid} == s3.tasks; }
    assert Moves(cfg, s3, W(Merge(0)), s') by { assert ClosePr(s3.hub.prs, 0) == s.hub.prs; }
    ReachesSelf(KeepingBranches, cfg, s');
    ReachesBack(KeepingBranches, cfg, s3, W(Merge(0)), s', s');
    ReachesBack(KeepingBranches, cfg, s2, T(tid, Record), s3, s');
    ReachesBack(KeepingBranches, cfg, s1, T(tid, Open), s2, s');
    ReachesBack(KeepingBranches, cfg, s, T(tid, SawNoPr), s1, s');
  }

  /** One orphan from its build to its merge: issue 2 has one more child. */
  lemma Publish(cfg: Config, i: Issue, s: Lane, k: nat, next: nat) returns (s': Lane)
    requires Files(cfg, i) && k > 0 && Publishing(cfg, i, s, k, next)
    ensures Reaches(KeepingBranches, cfg, s, s') && Publishing(cfg, i, s', k - 1, next + 1)
    ensures |Children(s'.hub, 2)| == |Children(s.hub, 2)| + 1
  {
    var a := ToFiling(cfg, i, s, k);
    var b := FileIt(cfg, i, a, k, next);
    s' := OpenAndMerge(cfg, i, b, k);
    ReachesThen(KeepingBranches, cfg, a, b, s');
    ReachesThen(KeepingBranches, cfg, s, a, s');
    assert s'.tasks == Orphaned(cfg, i, k - 1);
    assert Children(a.hub, 2) == Children(s.hub, 2);
    ChildrenAfterAdd(a.hub, next, Nit(2, cfg.depthOf(i.body) + 1, "", false), 2);
    assert next !in Children(a.hub, 2);
  }

  lemma {:induction false} PublishAll(cfg: Config, i: Issue, s: Lane, k: nat, next: nat) returns (s': Lane)
    requires Files(cfg, i) && Publishing(cfg, i, s, k, next)
    ensures Reaches(KeepingBranches, cfg, s, s') && 2 in s'.hub.issues
    ensures |Children(s'.hub, 2)| == |Children(s.hub, 2)| + k
    decreases k
  {
    if k == 0 {
      s' := s;
      ReachesSelf(KeepingBranches, cfg, s);
    } else {
      var mid := Publish(cfg, i, s, k, next);
      s' := PublishAll(cfg, i, mid, k - 1, next + 1);
      ReachesThen(KeepingBranches, cfg, s, mid, s');
    }
  }

  /**
   With any parallelism but one, a chain that may be filed at all and a single nit per review, one origin gets as
   many children as one likes: that many drains hand it before the first orphan pushes.
   */
  lemma ChainUnbounded(cfg: Config, i: Issue, k: nat) returns (s: Lane)
    requires Unblocked(cfg) && cfg.cap != Some(1) && Eager(i) && Files(cfg, i)
    ensures Reaches(KeepingBranches, cfg, Rest(TwoIssues(i, {})), s)
    ensures 2 in s.hub.issues && |Children(s.hub, 2)| == k && |Family(cfg, s.hub, 2)| >= k
  {
    var mid := ManyOrphans(cfg, i, k);
    assert Children(mid.hub, 2) == {};
    s := PublishAll(cfg, i, mid, k, 3);
    ReachesThen(KeepingBranches, cfg, Rest(TwoIssues(i, {})), mid, s);
    LevelsNest(s.hub, 2, 1, Hops(cfg.retryCap));
    assert Level(s.hub, 2, 0) == {2};
    assert Children(s.hub, 2) == Level(s.hub, 2, 1);
    SubsetSize(Children(s.hub, 2), Family(cfg, s.hub, 2));
  }

  // --- exactly ---

  /** Every family of every run that keeps branches, from a repository without nits, has at most `bound` members. */
  ghost predicate AlwaysBounded(cap: Option<int>, retryCap: nat, maxNits: nat, bound: nat) {
    forall cfg: Config, s: Lane, es: seq<Event>, origin: nat ::
      cfg.cap == cap && cfg.retryCap == retryCap && cfg.maxNits == maxNits && ReadsLastMarker(cfg)
      && Initial(s) && Parentless(s.hub) && Run(cfg, s, es) && Suited(KeepingBranches, cfg, s, es)
      ==> |Family(cfg, Final(cfg, s, es).hub, origin)| <= bound
  }

  lemma BoundedOneAtATime(retryCap: nat, maxNits: nat)
    ensures AlwaysBounded(Some(1), retryCap, maxNits, Geometric(maxNits, Hops(retryCap)))
  {
    forall cfg: Config, s: Lane, es: seq<Event>, origin: nat
      | cfg.cap == Some(1) && cfg.retryCap == retryCap && cfg.maxNits == maxNits && ReadsLastMarker(cfg)
        && Initial(s) && Parentless(s.hub) && Run(cfg, s, es) && Suited(KeepingBranches, cfg, s, es)
      ensures |Family(cfg, Final(cfg, s, es).hub, origin)| <= Geometric(maxNits, Hops(retryCap))
    {
      CapOneIsOrderly(cfg, s, es);
      OrderlyChainIsBounded(cfg, s, es, origin);
    }
  }

  lemma BoundedWithoutNits(cap: Option<int>, retryCap: nat, maxNits: nat)
    requires FilesNothing(retryCap, maxNits)
    ensures AlwaysBounded(cap, retryCap, maxNits, Geometric(maxNits, Hops(retryCap)))
  {
    forall cfg: Config, s: Lane, es: seq<Event>, origin: nat
      | cfg.cap == cap && cfg.retryCap == retryCap && cfg.maxNits == maxNits && ReadsLastMarker(cfg)
        && Initial(s) && Parentless(s.hub) && Run(cfg, s, es) && Suited(KeepingBranches, cfg, s, es)
      ensures |Family(cfg, Final(cfg, s, es).hub, origin)| <= Geometric(maxNits, Hops(retryCap))
    {
      NothingFiledRun(cfg, s, es);
      OriginAlone(Final(cfg, s, es).hub, origin, Hops(retryCap));
      GeometricPositive(maxNits, Hops(retryCap));
    }
  }

  lemma NoBound(cap: Option<int>, retryCap: nat, maxNits: nat, bound: nat)
    requires (cap.Some? ==> cap.value > 0) && cap != Some(1) && !FilesNothing(retryCap, maxNits)
    ensures !AlwaysBounded(cap, retryCap, maxNits, bound)
  {
    var cfg := Config(cap, retryCap, maxNits, false, n => {}, ChainDepth.Parse);
    forall j: nat ensures !ChainDepth.HasMarker("", j) {}
    ChainDepth.ParseWithoutMarker("");
    var start := Rest(TwoIssues(SAMPLE_ISSUE, {}));
    assert Heads(start.hub.prs) == {};
    var s := ChainUnbounded(cfg, SAMPLE_ISSUE, bound + 1);
    var es :| Run(cfg, start, es) && Suited(KeepingBranches, cfg, start, es) && Final(cfg, start, es) == s;
    assert |Family(cfg, Final(cfg, start, es).hub, 2)| > bound;
  }

  /**
   With at most B nits per review and branches kept, 1 + B + ... + B^max(0, retry_cap - 1) bounds every family
   of every run if and only if `max_parallel` is one, or retry_cap or B rules nits out; and otherwise nothing
   bounds them.
   */
  lemma ChainBoundedExactly(cap: Option<int>, retryCap: nat, maxNits: nat)
    requires cap.Some? ==> cap.value > 0
    ensures AlwaysBounded(cap, retryCap, maxNits, Geometric(maxNits, Hops(retryCap)))
       <==> cap == Some(1) || FilesNothing(retryCap, maxNits)
    ensures (exists bound: nat :: AlwaysBounded(cap, retryCap, maxNits, bound))
       <==> cap == Some(1) || FilesNothing(retryCap, maxNits)
  {
    if cap == Some(1) {
      BoundedOneAtATime(retryCap, maxNits);
    } else if FilesNothing(retryCap, maxNits) {
      BoundedWithoutNits(cap, retryCap, maxNits);
    } else {
      forall bound: nat ensures !AlwaysBounded(cap, retryCap, maxNits, bound) {
        NoBound(cap, retryCap, maxNits, bound);
      }
    }
  }
}
