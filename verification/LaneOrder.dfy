/**
 Build order along the blocker graph, over whole runs: with a fixed blocker relation and issues closing only
 when their pull request is merged, whatever else is interleaved (orphaned coroutines included), issues are
 built in a topological order of the relation, so nothing on or behind a blocked-by cycle is ever built.
 A self-reference is dropped by readiness, so the cycles meant have two issues or more.
 */
module LaneOrder {
  import opened GitHub
  import opened Lane
  import opened LaneTask

  /** What a repository brings along: issues closed, merged or pushed before the run. */
  ghost function Settled(s: Lane): set<nat> {
    (set n | n in s.hub.issues && IsClosed(s.hub, n)) + s.merged + s.hub.branches
  }

  /** Every blocker comes before the issue it blocks, or was settled before the order began. */
  ghost predicate Topological(cfg: Config, settled: set<nat>, order: seq<nat>) {
    forall i, b | 0 <= i < |order| && b in Blockers(cfg, order[i]) :: b in order[..i] || b in settled
  }

  ghost predicate Done(s: Lane, settled: set<nat>, n: nat) {
    n in s.handed || n in settled
  }

  /** Every blocker of `n` has been handed to a build, or was settled before. */
  ghost predicate Cleared(cfg: Config, s: Lane, settled: set<nat>, n: nat) {
    forall b | b in Blockers(cfg, n) :: Done(s, settled, b)
  }

  ghost predicate PlanCleared(cfg: Config, s: Lane, settled: set<nat>) {
    match s.drain
    case Resolving(_, _, closed) => forall b | b in closed && closed[b] :: Done(s, settled, b)
    case Ready(_, ready) => forall n | n in ready :: Cleared(cfg, s, settled, n)
    case Classifying(_, ready, _) => forall n | n in ready :: Cleared(cfg, s, settled, n)
    case Recovering(_, stranded, buildable) =>
      (forall n | n in stranded :: Done(s, settled, n))
        && (forall n | n in stranded + buildable :: Cleared(cfg, s, settled, n))
    case _ => true
  }

  ghost predicate Ordered(cfg: Config, s: Lane, settled: set<nat>) {
    && Topological(cfg, settled, s.handed)
    && (forall n | IsClosed(s.hub, n) :: n in s.merged || n in settled)
    && (forall n | n in s.merged || n in s.hub.branches || n in Heads(s.hub.prs) :: Done(s, settled, n))
    && PlanCleared(cfg, s, settled)
    && (forall tid | tid in s.tasks ::
          && Cleared(cfg, s, settled, s.tasks[tid].issue)
          && (!s.tasks[tid].phase.Queued? ==> Done(s, settled, s.tasks[tid].issue)))
  }

  lemma ReadyAreCleared(cfg: Config, settled: set<nat>, s: Lane)
    requires Ordered(cfg, s, settled) && s.drain.Resolving?
    ensures forall n | n in ReadyIssues(cfg, s.drain.admitted, s.drain.closed) :: Cleared(cfg, s, settled, n)
  {
    var closed := s.drain.closed;
    assert forall b | b in closed && closed[b] :: Done(s, settled, b);
    forall n | n in ReadyIssues(cfg, s.drain.admitted, closed) ensures Cleared(cfg, s, settled, n) {
      forall b | b in Blockers(cfg, n) ensures Done(s, settled, b) {
        assert b in closed && closed[b];
      }
    }
  }

  lemma OrderedSelect(cfg: Config, settled: set<nat>, s: Lane, chosen: map<nat, nat>, s': Lane)
    requires Ordered(cfg, s, settled) && s.drain.Recovering? && chosen.Values <= s.drain.buildable
    requires chosen.Values <= s.hub.issues.Keys
    requires s' == s.(drain := BuildingAll, own := chosen.Keys,
      tasks := s.tasks + Spawn(cfg, s.hub, chosen, s.drain.pass.base))
    ensures Ordered(cfg, s', settled)
  {
    forall tid | tid in s'.tasks
      ensures Cleared(cfg, s', settled, s'.tasks[tid].issue)
      ensures !s'.tasks[tid].phase.Queued? ==> Done(s', settled, s'.tasks[tid].issue)
    {
      if tid in chosen {
        assert s'.tasks[tid] == Spawned(cfg, s.hub, chosen[tid], s.drain.pass.base);
        assert chosen[tid] in chosen.Values;
        assert Cleared(cfg, s, settled, chosen[tid]);
      } else {
        assert Cleared(cfg, s, settled, s.tasks[tid].issue);
      }
    }
  }

  lemma OrderedDrain(cfg: Config, settled: set<nat>, s: Lane, e: DrainEvent)
    requires Ordered(cfg, s, settled) && DrainEnabled(cfg, s, e)
    ensures Ordered(cfg, AfterDrain(cfg, s, e), settled)
  {
    match e
    case FinishReadiness => ReadyAreCleared(cfg, settled, s);
    case ReadBranches =>
      var s' := AfterDrain(cfg, s, e);
      forall n | n in s'.drain.stranded ensures Done(s', settled, n) {
        assert n in s.hub.branches;
      }
    case Recover(_, n) => assert n in s.drain.stranded + s.drain.buildable && Cleared(cfg, s, settled, n);
    case ReadBlocker(b) => assert IsClosed(s.hub, b) ==> b in s.merged || b in settled;
    case Select(chosen) => OrderedSelect(cfg, settled, s, chosen, AfterDrain(cfg, s, e));
    case _ =>
  }

  lemma {:induction false} HandKeepsOrder(cfg: Config, settled: set<nat>, order: seq<nat>, n: nat)
    requires Topological(cfg, settled, order) && forall b | b in Blockers(cfg, n) :: b in order || b in settled
    ensures Topological(cfg, settled, order + [n])
  {
    var order' := order + [n];
    forall i, b | 0 <= i < |order'| && b in Blockers(cfg, order'[i]) ensures b in order'[..i] || b in settled {
      if i < |order| {
        assert order'[i] == order[i] && order'[..i] == order[..i];
      } else {
        assert order'[..i] == order;
      }
    }
  }

  lemma HeadsAfter(prs: seq<PullRequest>, p: PullRequest)
    ensures Heads(prs + [p]) <= Heads(prs) + {p.head}
  {
  }

  lemma OrderedTask(cfg: Config, settled: set<nat>, s: Lane, tid: nat, e: TaskEvent)
    requires Ordered(cfg, s, settled) && TaskEnabled(cfg, s, tid, e)
    ensures Ordered(cfg, AfterTask(cfg, s, tid, e), settled)
  {
    var s' := AfterTask(cfg, s, tid, e);
    var t := s.tasks[tid];
    assert Cleared(cfg, s, settled, t.issue);
    assert forall n | Done(s, settled, n) :: Done(s', settled, n);
    if e.Hand? { HandKeepsOrder(cfg, settled, s.handed, t.issue); }
    if e.Open? { HeadsAfter(s.hub.prs, PullRequest(t.issue, t.base)); }
    assert forall n | IsClosed(s'.hub, n) :: IsClosed(s.hub, n);
    assert forall n | Cleared(cfg, s, settled, n) :: Cleared(cfg, s', settled, n);
    assert PlanCleared(cfg, s', settled);
    forall k | k in s'.tasks
      ensures Cleared(cfg, s', settled, s'.tasks[k].issue)
        && (!s'.tasks[k].phase.Queued? ==> Done(s', settled, s'.tasks[k].issue))
    {
      assert Cleared(cfg, s, settled, s.tasks[k].issue);
    }
  }

  lemma OrderedWorld(cfg: Config, settled: set<nat>, s: Lane, e: WorldEvent)
    requires Ordered(cfg, s, settled) && WorldEnabled(s, e) && !e.CloseIssue?
    ensures Ordered(cfg, AfterWorld(s, e), settled)
  {
    var s' := AfterWorld(s, e);
    assert Heads(s'.hub.prs) <= Heads(s.hub.prs);
    if e.Merge? {
      assert s.hub.prs[e.i] in s.hub.prs;
    }
    assert PlanCleared(cfg, s', settled);
    forall k | k in s'.tasks ensures Cleared(cfg, s', settled, s'.tasks[k].issue) {
      assert Cleared(cfg, s, settled, s.tasks[k].issue);
    }
  }

  lemma {:induction false} OrderedRun(cfg: Config, settled: set<nat>, s: Lane, es: seq<Event>)
    requires Ordered(cfg, s, settled) && Run(cfg, s, es) && Suited(ClosingByMerge, cfg, s, es)
    ensures Ordered(cfg, Final(cfg, s, es), settled)
    decreases |es|
  {
    if es != [] {
      match es[0] {
        case D(d) => OrderedDrain(cfg, settled, s, d);
        case T(tid, t) => OrderedTask(cfg, settled, s, tid, t);
        case W(w) => OrderedWorld(cfg, settled, s, w);
      }
      OrderedRun(cfg, settled, After(cfg, s, es[0]), es[1..]);
    }
  }

  /**
   The sequence of builds of any run is a topological order of the blocker relation: each blocker is handed to
   its build before, or was closed, merged or pushed when the run began.
   */
  lemma BuildsAreTopological(cfg: Config, s: Lane, es: seq<Event>)
    requires Initial(s) && Run(cfg, s, es) && Suited(ClosingByMerge, cfg, s, es)
    ensures Topological(cfg, Settled(s), Final(cfg, s, es).handed)
  {
    OrderedRun(cfg, Settled(s), s, es);
  }

  /** Each issue of the trap waits for another issue of the trap: cycles, and everything behind one. */
  ghost predicate Trap(cfg: Config, trap: set<nat>) {
    forall n | n in trap :: exists b :: b in trap && b in Blockers(cfg, n)
  }

  lemma {:induction false} NothingTrappedInOrder(cfg: Config, settled: set<nat>, trap: set<nat>, order: seq<nat>)
    requires Trap(cfg, trap) && trap !! settled && Topological(cfg, settled, order)
    ensures forall n | n in order :: n !in trap
  {
    if order != [] {
      var k := |order| - 1;
      forall i, b | 0 <= i < k && b in Blockers(cfg, order[..k][i]) ensures b in order[..k][..i] || b in settled {
        assert order[..k][i] == order[i] && order[..k][..i] == order[..i];
      }
      NothingTrappedInOrder(cfg, settled, trap, order[..k]);
      assert order == order[..k] + [order[k]];
      forall b | b in Blockers(cfg, order[k]) ensures b !in trap {
        assert b in order[..k] || b in settled;
      }
    }
  }

  /**
   No issue of a trap that holds nothing settled is ever built, gets a branch, or has a pull request opened for it.
   */
  lemma TrappedNeverBuilt(cfg: Config, s: Lane, es: seq<Event>, trap: set<nat>)
    requires Initial(s) && Run(cfg, s, es) && Suited(ClosingByMerge, cfg, s, es)
    requires Trap(cfg, trap) && trap !! Settled(s)
    ensures forall n | n in trap ::
      n !in Final(cfg, s, es).handed && n !in Final(cfg, s, es).hub.branches && n !in Heads(Final(cfg, s, es).hub.prs)
  {
    OrderedRun(cfg, Settled(s), s, es);
    NothingTrappedInOrder(cfg, Settled(s), trap, Final(cfg, s, es).handed);
  }
}
