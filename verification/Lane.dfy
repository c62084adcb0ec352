/**
 One repository's scheduler lane as a protocol: the drain's phases under the single-run lock, the tasks it
 spawns, the cron promotion and whatever people do on GitHub, interleaved at every GitHub read and write.

 The lock is `drain != Idle`. A drain whose `asyncio.gather` sees an exception ends at once and frees the
 lock; gather does not cancel the other coroutines, so they stay in `tasks` without belonging to `own`.
 */
module Lane {
  import opened GitHub
  import opened LaneTask
  import Scheduler

  /** What a drain carries from its first listing: the PR base and which listed issues were urgent. */
  datatype Pass = Pass(base: string, urgent: set<nat>)

  datatype Drain =
    | Idle
    | Resolving(pass: Pass, admitted: set<nat>, closed: map<nat, bool>)
    | Ready(pass: Pass, ready: set<nat>)
    | Classifying(pass: Pass, ready: set<nat>, heads: set<nat>)
    | Recovering(pass: Pass, stranded: set<nat>, buildable: set<nat>)
    | BuildingAll

  /**
   `own` are the running tasks of the current drain. Three histories nothing in the lane reads: `held`,
   the issues whose branch was pushed and that neither their review gate nor a person (by removing hitl)
   has let through since; `merged`, heads of merged pull requests; `handed`, the issues handed to `build`,
   in order.
   */
  datatype Lane = Lane(
    hub: Hub, drain: Drain, own: set<nat>, tasks: map<nat, Task>,
    held: set<nat>, merged: set<nat>, handed: seq<nat>)

  datatype DrainEvent =
    | Start(base: string)                 // enter the lock, list, admit
    | ReadBlocker(blocker: nat)           // one `is_closed` query into the cache
    | FinishReadiness
    | ReadHeads                           // open PR heads, then
    | ReadBranches                        // the issue branches: classification
    | Recover(tid: nat, issue: nat)       // next stranded issue
    | Select(chosen: map<nat, nat>)       // task id -> issue
    | End
    | Abort                               // a query raised: the drain ends and frees the lock

  datatype WorldEvent =
    | Promote(n: nat)                     // cron lane: backlog -> trigger label
    | FileIssue(n: nat, issue: Issue)
    | Relabel(n: nat, trigger: bool, urgent: bool)
    | AddHitl(n: nat)
    | RemoveHitl(n: nat)
    | Merge(i: nat)                       // the person merges the i-th open PR
    | Reap(n: nat)                        // the merge webhook closes the issue
    | Close(i: nat)                       // a PR closed without merging
    | DeleteBranch(n: nat)
    | CloseIssue(n: nat)
    | Reopen(n: nat)

  datatype Event = D(d: DrainEvent) | T(tid: nat, t: TaskEvent) | W(w: WorldEvent)

  // --- the drain ---

  function Blockers(cfg: Config, n: nat): set<nat> {
    cfg.blockedBy(n) - {n}
  }

  ghost predicate AllQueried(cfg: Config, admitted: set<nat>, closed: map<nat, bool>) {
    forall n, b | n in admitted && b in Blockers(cfg, n) :: b in closed
  }

  ghost function ReadyIssues(cfg: Config, admitted: set<nat>, closed: map<nat, bool>): set<nat> {
    set n | n in admitted && forall b | b in Blockers(cfg, n) :: b in closed && closed[b]
  }

  /** The tasks of one selection: as many as `select_to_build` starts, urgent issues first. */
  ghost predicate Selection(cfg: Config, chosen: map<nat, nat>, buildable: set<nat>, urgent: set<nat>) {
    && chosen.Values <= buildable
    && (forall a, b | a in chosen && b in chosen && a != b :: chosen[a] != chosen[b])
    && |chosen| == Scheduler.SelectCount(|buildable|, cfg.cap, buildable * urgent != {})
    && (chosen.Values <= urgent || buildable * urgent <= chosen.Values)
  }

  /** One coroutine per selected issue, materialized from its listed body. */
  ghost function Spawn(cfg: Config, hub: Hub, chosen: map<nat, nat>, base: string): map<nat, Task>
    requires chosen.Values <= hub.issues.Keys
  {
    map tid | tid in chosen :: Spawned(cfg, hub, chosen[tid], base)
  }

  ghost function Spawned(cfg: Config, hub: Hub, n: nat, base: string): Task
    requires n in hub.issues
  {
    Task(n, cfg.depthOf(hub.issues[n].body), base, Queued)
  }

  ghost predicate DrainEnabled(cfg: Config, s: Lane, e: DrainEvent) {
    match e
    case Start(_) => s.drain.Idle?
    case ReadBlocker(b) =>
      s.drain.Resolving? && b !in s.drain.closed && exists n :: n in s.drain.admitted && b in Blockers(cfg, n)
    case FinishReadiness => s.drain.Resolving? && AllQueried(cfg, s.drain.admitted, s.drain.closed)
    case ReadHeads => s.drain.Ready?
    case ReadBranches => s.drain.Classifying?
    case Recover(tid, n) => s.drain.Recovering? && s.own == {} && n in s.drain.stranded && tid !in s.tasks
      && n in s.hub.issues
    case Select(chosen) =>
      && s.drain.Recovering? && s.own == {} && s.drain.stranded == {}
      && chosen.Keys !! s.tasks.Keys && chosen.Values <= s.hub.issues.Keys
      && Selection(cfg, chosen, s.drain.buildable, s.drain.pass.urgent)
    case End => s.drain.BuildingAll? && s.own == {}
    case Abort => !s.drain.Idle? && !s.drain.BuildingAll? && s.own == {}
  }

  ghost function AdmittedNow(hub: Hub): set<nat> {
    set n | n in hub.issues && Admissible(hub.issues[n])
  }

  ghost function UrgentNow(hub: Hub): set<nat> {
    set n | n in hub.issues && hub.issues[n].urgent
  }

  ghost function AfterDrain(cfg: Config, s: Lane, e: DrainEvent): Lane
    requires DrainEnabled(cfg, s, e)
  {
    match e
    case Start(base) =>
      s.(drain := Resolving(Pass(base, UrgentNow(s.hub)), AdmittedNow(s.hub), map[]), own := {})
    case ReadBlocker(b) => s.(drain := s.drain.(closed := s.drain.closed[b := IsClosed(s.hub, b)]))
    case FinishReadiness => s.(drain := Ready(s.drain.pass, ReadyIssues(cfg, s.drain.admitted, s.drain.closed)))
    case ReadHeads => s.(drain := Classifying(s.drain.pass, s.drain.ready, Heads(s.hub.prs)))
    case ReadBranches =>
      s.(drain := Recovering(
        s.drain.pass,
        set n | n in s.drain.ready && StateFor(s.drain.heads, s.hub.branches, n) == Stranded,
        set n | n in s.drain.ready && StateFor(s.drain.heads, s.hub.branches, n) == Absent))
    case Recover(tid, n) =>
      s.(drain := s.drain.(stranded := s.drain.stranded - {n}), own := {tid},
         tasks := s.tasks[tid := Task(n, cfg.depthOf(s.hub.issues[n].body), s.drain.pass.base, Checking)])
    case Select(chosen) =>
      s.(drain := BuildingAll, own := chosen.Keys,
         tasks := s.tasks + Spawn(cfg, s.hub, chosen, s.drain.pass.base))
    case End => s.(drain := Idle)
    case Abort => s.(drain := Idle)
  }

  // --- tasks ---

  ghost predicate TaskEnabled(cfg: Config, s: Lane, tid: nat, e: TaskEvent) {
    tid in s.tasks && Enabled(cfg, s.tasks[tid], s.hub, e)
  }

  ghost function AfterTask(cfg: Config, s: Lane, tid: nat, e: TaskEvent): Lane
    requires TaskEnabled(cfg, s, tid, e)
  {
    var t := s.tasks[tid];
    var s1 := s.(hub := Effect(t, s.hub, e),
                 held := if e.Push? || e.PushFix? || (e.Gate? && e.blocks) then s.held + {t.issue}
                         else if e.Gate? then s.held - {t.issue} else s.held,
                 handed := if e.Hand? then s.handed + [t.issue] else s.handed);
    match Advance(cfg, t, e)
    case Continues(t') => s1.(tasks := s.tasks[tid := t'])
    case Finished => s1.(tasks := s.tasks - {tid}, own := s.own - {tid})
    case Failed =>
      if tid in s.own then s1.(tasks := s.tasks - {tid}, own := {}, drain := Idle)
      else s1.(tasks := s.tasks - {tid})
  }

  // --- cron and people ---

  predicate WorldEnabled(s: Lane, e: WorldEvent) {
    match e
    case Promote(n) => n in s.hub.issues && s.hub.issues[n].backlog && s.hub.issues[n].open
    case FileIssue(n, issue) => n !in s.hub.issues && issue.open && issue.parent.None?
    case Relabel(n, _, _) => n in s.hub.issues
    case AddHitl(n) => n in s.hub.issues
    case RemoveHitl(n) => n in s.hub.issues && s.hub.issues[n].hitl
    case Merge(i) => i < |s.hub.prs|
    case Reap(n) => n in s.merged && n in s.hub.issues
    case Close(i) => i < |s.hub.prs|
    case DeleteBranch(n) => n in s.hub.branches
    case CloseIssue(n) => n in s.hub.issues
    case Reopen(n) => n in s.hub.issues
  }

  function WithIssue(hub: Hub, n: nat, issue: Issue): Hub {
    hub.(issues := hub.issues[n := issue])
  }

  function AfterWorld(s: Lane, e: WorldEvent): Lane
    requires WorldEnabled(s, e)
  {
    match e
    case Promote(n) => s.(hub := WithIssue(s.hub, n, s.hub.issues[n].(backlog := false, trigger := true)))
    case FileIssue(n, issue) => s.(hub := WithIssue(s.hub, n, issue))
    case Relabel(n, trigger, urgent) => s.(hub := WithIssue(s.hub, n,
      s.hub.issues[n].(trigger := trigger, urgent := urgent)))
    case AddHitl(n) => s.(hub := SetHitl(s.hub, n, true))
    case RemoveHitl(n) => s.(hub := SetHitl(s.hub, n, false), held := s.held - {n})
    case Merge(i) => s.(hub := s.hub.(prs := ClosePr(s.hub.prs, i)), merged := s.merged + {s.hub.prs[i].head})
    case Reap(n) => s.(hub := WithIssue(s.hub, n, s.hub.issues[n].(open := false)))
    case Close(i) => s.(hub := s.hub.(prs := ClosePr(s.hub.prs, i)))
    case DeleteBranch(n) => s.(hub := s.hub.(branches := s.hub.branches - {n}, prs := WithoutHead(s.hub.prs, n)))
    case CloseIssue(n) => s.(hub := WithIssue(s.hub, n, s.hub.issues[n].(open := false)))
    case Reopen(n) => s.(hub := WithIssue(s.hub, n, s.hub.issues[n].(open := true)))
  }

  // --- runs ---

  ghost predicate EventEnabled(cfg: Config, s: Lane, e: Event) {
    match e
    case D(d) => DrainEnabled(cfg, s, d)
    case T(tid, t) => TaskEnabled(cfg, s, tid, t)
    case W(w) => WorldEnabled(s, w)
  }

  ghost function After(cfg: Config, s: Lane, e: Event): Lane
    requires EventEnabled(cfg, s, e)
  {
    match e
    case D(d) => AfterDrain(cfg, s, d)
    case T(tid, t) => AfterTask(cfg, s, tid, t)
    case W(w) => AfterWorld(s, w)
  }

  ghost predicate Run(cfg: Config, s: Lane, es: seq<Event>)
    decreases |es|
  {
    es == [] || (EventEnabled(cfg, s, es[0]) && Run(cfg, After(cfg, s, es[0]), es[1..]))
  }

  ghost function Final(cfg: Config, s: Lane, es: seq<Event>): Lane
    requires Run(cfg, s, es)
    decreases |es|
  {
    if es == [] then s else Final(cfg, After(cfg, s, es[0]), es[1..])
  }

  /** A repository at rest: nothing running, no duplicate pull requests, every open one on an existing branch. */
  ghost predicate Initial(s: Lane) {
    && s.drain.Idle? && s.own == {} && s.tasks == map[] && s.held == {} && s.handed == []
    && OneOpenPrPerHead(s.hub.prs) && Heads(s.hub.prs) <= s.hub.branches
  }

  ghost predicate ValidConfig(cfg: Config) {
    cfg.cap.Some? ==> cfg.cap.value > 0
  }

  /** An exception leaves a coroutine of the current drain while a sibling is still running. */
  predicate Orphans(s: Lane, e: Event) {
    e.T? && e.t.Raise? && e.tid in s.own && s.own != {e.tid}
  }

  /** The kinds of runs the theorems are about. */
  datatype Manner =
    | Any
    | Undisturbed(orderly: bool)   // only the drain and its coroutines act; if `orderly`, as below
    | Orderly            // no exception leaves a coroutine of the current drain while a sibling still runs
    | KeepingBranches    // nobody deletes an issue branch
    | ClosingByMerge     // an issue is closed only by the reap of its merged pull request

  predicate Suits(m: Manner, s: Lane, e: Event) {
    match m
    case Any => true
    case Undisturbed(orderly) => !e.W? && (orderly ==> !Orphans(s, e))
    case Orderly => !Orphans(s, e)
    case KeepingBranches => !(e.W? && e.w.DeleteBranch?)
    case ClosingByMerge => !(e.W? && e.w.CloseIssue?)
  }

  ghost predicate Suited(m: Manner, cfg: Config, s: Lane, es: seq<Event>)
    requires Run(cfg, s, es)
    decreases |es|
  {
    es == [] || (Suits(m, s, es[0]) && Suited(m, cfg, After(cfg, s, es[0]), es[1..]))
  }

  /** Whatever is run in the first manner is run in the second. */
  ghost predicate Stricter(m: Manner, n: Manner) {
    forall s, e :: Suits(m, s, e) ==> Suits(n, s, e)
  }

  lemma {:induction false} SuitedToo(m: Manner, n: Manner, cfg: Config, s: Lane, es: seq<Event>)
    requires Run(cfg, s, es) && Suited(m, cfg, s, es) && Stricter(m, n)
    ensures Suited(n, cfg, s, es)
    decreases |es|
  {
    if es != [] { SuitedToo(m, n, cfg, After(cfg, s, es[0]), es[1..]); }
  }

  // --- reaching one state from another ---

  ghost predicate Reaches(m: Manner, cfg: Config, a: Lane, b: Lane) {
    exists es :: Run(cfg, a, es) && Suited(m, cfg, a, es) && Final(cfg, a, es) == b
  }

  lemma ReachesSelf(m: Manner, cfg: Config, a: Lane)
    ensures Reaches(m, cfg, a, a)
  {
    assert Run(cfg, a, []) && Suited(m, cfg, a, []) && Final(cfg, a, []) == a;
  }

  ghost predicate Moves(cfg: Config, s: Lane, e: Event, s': Lane) {
    EventEnabled(cfg, s, e) && After(cfg, s, e) == s'
  }

  lemma ReachesBack(m: Manner, cfg: Config, a: Lane, e: Event, mid: Lane, b: Lane)
    requires Moves(cfg, a, e, mid) && Suits(m, a, e) && Reaches(m, cfg, mid, b)
    ensures Reaches(m, cfg, a, b)
  {
    var es :| Run(cfg, mid, es) && Suited(m, cfg, mid, es) && Final(cfg, mid, es) == b;
    var all := [e] + es;
    assert all[0] == e && all[1..] == es;
    assert Run(cfg, a, all) && Suited(m, cfg, a, all) && Final(cfg, a, all) == b;
  }

  lemma {:induction false} RunThen(m: Manner, cfg: Config, a: Lane, es: seq<Event>, b: Lane, c: Lane)
    requires Run(cfg, a, es) && Suited(m, cfg, a, es) && Final(cfg, a, es) == b && Reaches(m, cfg, b, c)
    ensures Reaches(m, cfg, a, c)
    decreases |es|
  {
    if es != [] {
      RunThen(m, cfg, After(cfg, a, es[0]), es[1..], b, c);
      ReachesBack(m, cfg, a, es[0], After(cfg, a, es[0]), c);
    }
  }

  lemma ReachesThen(m: Manner, cfg: Config, a: Lane, b: Lane, c: Lane)
    requires Reaches(m, cfg, a, b) && Reaches(m, cfg, b, c)
    ensures Reaches(m, cfg, a, c)
  {
    var es :| Run(cfg, a, es) && Suited(m, cfg, a, es) && Final(cfg, a, es) == b;
    RunThen(m, cfg, a, es, b, c);
  }

  lemma ReachesToo(m: Manner, n: Manner, cfg: Config, a: Lane, b: Lane)
    requires Reaches(m, cfg, a, b) && Stricter(m, n)
    ensures Reaches(n, cfg, a, b)
  {
    var es :| Run(cfg, a, es) && Suited(m, cfg, a, es) && Final(cfg, a, es) == b;
    SuitedToo(m, n, cfg, a, es);
  }
}
