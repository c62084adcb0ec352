/**
 What the build of one issue in one disposable container may do, in which order: clone, plan, implement,
 hollow-implement guard, done-check, push on green, report, review gate, teardown. A monitor says what each log of
 steps allows next; what it accepts is proved to be disciplined as a whole.
 */
module ContainerBuild {
  import opened Collections
  import Decimal
  import opened Text
  import opened Vocab
  import opened Wrappers

  datatype Finding = Finding(title: string, body: string, severity: Severity)

  datatype Step = Clone | Fetch | Checkout | RunPlanner | WritePlan | Report | Diff

  datatype Verdict = Green | Red | Broke

  /** What the commit count answered: whether it exited 0, and its output. */
  datatype Probe = Probe(exitOk: bool, stdout: string)

  datatype Event =
    | Started
    | Ran(step: Step, ok: bool)
    | Implemented(ok: bool)
    | Counted(probe: Option<Probe>)
    | Checked(verdict: Verdict)
    | Pushed(ok: bool)
    | Reviewed(findings: Option<seq<Finding>>)
    | Destroyed

  datatype Outcome = Outcome(blocking: seq<Finding>, backlog: seq<Finding>, regressed: bool)

  // --- severity partition ---

  predicate IsBlocking(f: Finding) {
    f.severity.Level() >= High.Level()
  }

  function Blocking(fs: seq<Finding>): seq<Finding> {
    if fs == [] then []
    else if IsBlocking(fs[|fs| - 1]) then Blocking(fs[..|fs| - 1]) + [fs[|fs| - 1]]
    else Blocking(fs[..|fs| - 1])
  }

  function Backlog(fs: seq<Finding>): seq<Finding> {
    if fs == [] then []
    else if IsBlocking(fs[|fs| - 1]) then Backlog(fs[..|fs| - 1])
    else Backlog(fs[..|fs| - 1]) + [fs[|fs| - 1]]
  }

  /** Nothing is lost or invented, and the threshold splits: no finding is on the wrong side. */
  lemma PartitionSplits(fs: seq<Finding>)
    ensures multiset(Blocking(fs)) + multiset(Backlog(fs)) == multiset(fs)
    ensures forall f | f in Blocking(fs) :: f.severity in {High, Critical}
    ensures forall f | f in Backlog(fs) :: f.severity in {Low, Medium}
    ensures Blocking(fs) == [] ==> Backlog(fs) == fs
  {
    PartitionKeepsAll(fs);
    PartitionSeparates(fs);
    NothingBlocking(fs);
  }

  lemma OneMore(fs: seq<Finding>, f: Finding)
    ensures multiset(fs + [f]) == multiset(fs) + multiset{f}
  {
  }

  lemma {:induction false} PartitionKeepsAll(fs: seq<Finding>)
    ensures multiset(Blocking(fs)) + multiset(Backlog(fs)) == multiset(fs)
  {
    if fs != [] {
      var front, last := fs[..|fs| - 1], fs[|fs| - 1];
      PartitionKeepsAll(front);
      OneMore(front, last);
      assert fs == front + [last];
      if IsBlocking(last) { OneMore(Blocking(front), last); } else { OneMore(Backlog(front), last); }
    }
  }

  lemma {:induction false} NothingBlocking(fs: seq<Finding>)
    ensures |Backlog(fs)| <= |fs|
    ensures Blocking(fs) == [] ==> Backlog(fs) == fs
  {
    if fs != [] {
      var front, last := fs[..|fs| - 1], fs[|fs| - 1];
      NothingBlocking(front);
      if !IsBlocking(last) { assert fs == front + [last]; }
    }
  }

  lemma {:induction false} PartitionSeparates(fs: seq<Finding>)
    ensures forall f | f in Blocking(fs) :: f.severity in {High, Critical}
    ensures forall f | f in Backlog(fs) :: f.severity in {Low, Medium}
  {
    if fs != [] { PartitionSeparates(fs[..|fs| - 1]); }
  }

  /** All the blocking findings and the first `n` of the others. */
  function Limited(fs: seq<Finding>, n: nat): seq<Finding> {
    if fs == [] then []
    else
      var front, last := Limited(fs[..|fs| - 1], n), fs[|fs| - 1];
      if IsBlocking(last) || |Backlog(front)| < n then front + [last] else front
  }

  /** Any findings with at most `n` nits are such a list, and no other are. */
  lemma {:induction false} LimitedIsAny(fs: seq<Finding>, n: nat)
    ensures Blocking(Limited(fs, n)) == Blocking(fs) && |Backlog(Limited(fs, n))| <= n
    ensures |Backlog(fs)| <= n ==> Limited(fs, n) == fs
  {
    if fs != [] {
      var front, last := fs[..|fs| - 1], fs[|fs| - 1];
      LimitedIsAny(front, n);
      assert fs == front + [last];
      assert (Limited(front, n) + [last])[..|Limited(front, n)|] == Limited(front, n);
    }
  }

  // --- the hollow-implement guard ---

  /** `git rev-list --count` as `ensure_commits_landed` reads it. */
  predicate CommitsLanded(exitOk: bool, stdout: string) {
    exitOk && Strip(stdout) != "" && Strip(stdout) != "0"
  }

  /**
   For every exit and output: the guard fails on a bad exit, on output that is nothing but white space and on a "0"
   with only white space around it, and on nothing else.
   */
  lemma GuardExactly(exitOk: bool, stdout: string)
    ensures CommitsLanded(exitOk, stdout) <==>
            exitOk && !Blank(stdout) && !(exists lead, trail :: Around(stdout, lead, "0", trail))
  {
    var lead, trail := StripSplits(stdout);
    if Strip(stdout) == "0" { assert Around(stdout, lead, "0", trail); }
    if a, b :| Around(stdout, a, "0", b) { StripIs(a, "0", b); }
    if Strip(stdout) == "" {
      assert stdout == lead + trail;
    } else {
      StripEnds(stdout);
      assert stdout[|lead|] == Strip(stdout)[0];
    }
  }

  /** `text` is `s` with white space on both sides. */
  ghost predicate Around(text: string, lead: string, s: string, trail: string) {
    Blank(lead) && Blank(trail) && text == lead + s + trail
  }

  /** On git's own output the guard passes exactly when there is a commit. */
  lemma GuardCountsCommits(commits: nat)
    ensures CommitsLanded(true, Decimal.Show(commits) + "\n") <==> commits > 0
  {
    var text := Decimal.Show(commits);
    forall i | 0 <= i < |text| ensures !IsSpace(text[i]) {
      assert Decimal.IsDigit(text[i]);
    }
    StripLine(text);
    Decimal.ReadShow(commits);
    assert Decimal.Show(0) == "0";
  }

  // --- what a log may contain ---

  /** What a log so far allows next: its counts, whether a check was red, its last three events. */
  datatype Monitor = Monitor(
    implements: nat, pushes: nat, reviews: nat, red: bool, destroyed: bool,
    last: Option<Event>, second: Option<Event>, third: Option<Event>)

  const FRESH := Monitor(0, 0, 0, false, false, None, None, None)

  predicate Landed(e: Option<Event>) {
    e.Some? && e.value.Counted? && e.value.probe.Some?
      && CommitsLanded(e.value.probe.value.exitOk, e.value.probe.value.stdout)
  }

  predicate FoundBlocking(e: Option<Event>) {
    e.Some? && e.value.Reviewed? && e.value.findings.Some? && Blocking(e.value.findings.value) != []
  }

  predicate Allowed(m: Monitor, e: Event) {
    && (e.Started? <==> m.last.None?)
    && !m.destroyed
    && match e
       case Implemented(_) =>
         && !m.red && m.implements < 2 && m.last == Some(Ran(WritePlan, true))
         && (if m.implements == 0 then m.second == Some(Ran(RunPlanner, true)) else FoundBlocking(m.second))
       case Counted(_) => m.implements == 1 && m.last == Some(Implemented(true))
       case Checked(_) => Landed(m.last) || (m.implements == 2 && m.last == Some(Implemented(true)))
       case Pushed(_) =>
         && !m.red && m.pushes < 2 && m.last == Some(Checked(Green))
         && (if m.pushes == 0 then Landed(m.second) && m.third == Some(Implemented(true))
             else m.second == Some(Implemented(true)))
       case Reviewed(_) =>
         && m.reviews < 2 && m.last == Some(Ran(Diff, true))
         && (if m.reviews == 0 then m.second == Some(Ran(Report, true)) && m.third == Some(Pushed(true))
             else m.second == Some(Pushed(true)))
       case Ran(step, _) =>
         && (Predecessor(step).Some? ==> m.last == Predecessor(step))
         && (step == WritePlan ==> m.last == Some(Ran(RunPlanner, true)) || FoundBlocking(m.last))
         && (step == Report ==> m.last == Some(Pushed(true)) || m.last == Some(Checked(Red)))
       case _ => true
  }

  /** The setup steps, each right after the one before it succeeded. */
  function Predecessor(step: Step): Option<Event> {
    match step
    case Clone => Some(Started)
    case Fetch => Some(Ran(Clone, true))
    case Checkout => Some(Ran(Fetch, true))
    case RunPlanner => Some(Ran(Checkout, true))
    case _ => None
  }

  function Next(m: Monitor, e: Event): Monitor {
    Monitor(
      m.implements + (if e.Implemented? then 1 else 0),
      m.pushes + (if e.Pushed? then 1 else 0),
      m.reviews + (if e.Reviewed? then 1 else 0),
      m.red || e == Checked(Red), m.destroyed || e.Destroyed?,
      Some(e), m.last, m.second)
  }

  /** The monitor's state after a log, or none when some event was not allowed. */
  function MonitorOf(log: seq<Event>): Option<Monitor> {
    if log == [] then Some(FRESH)
    else match MonitorOf(log[..|log| - 1])
         case Some(m) => if Allowed(m, log[|log| - 1]) then Some(Next(m, log[|log| - 1])) else None
         case None => None
  }

  lemma MonitorSnoc(log: seq<Event>, m: Monitor, e: Event)
    requires MonitorOf(log) == Some(m) && Allowed(m, e)
    ensures MonitorOf(log + [e]) == Some(Next(m, e))
  {
    assert (log + [e])[..|log|] == log;
  }

  const IMPLEMENTS: Event -> bool := (e: Event) => e.Implemented?
  const PUSHES: Event -> bool := (e: Event) => e.Pushed?
  const REVIEWS: Event -> bool := (e: Event) => e.Reviewed?
  const RED: Event -> bool := (e: Event) => e == Checked(Red)
  const DESTROYS: Event -> bool := (e: Event) => e.Destroyed?

  /**
   Every push comes straight after a green done-check, which came straight after an implement run or after the
   count of that run's commits; the first push always after a count that found some.
   */
  ghost predicate PushesChecked(log: seq<Event>) {
    forall i | 0 <= i < |log| && log[i].Pushed? :: PushChecked(log, i)
  }

  ghost predicate PushChecked(log: seq<Event>, i: int)
    requires i < |log|
  {
    && i >= 3 && log[i - 1] == Checked(Green)
    && (log[i - 2] == Implemented(true) || (Landed(Some(log[i - 2])) && log[i - 3] == Implemented(true)))
    && (log[i - 2] == Implemented(true) ==> PushedBefore(log, i))
  }

  ghost predicate PushedBefore(log: seq<Event>, i: int)
    requires i <= |log|
  {
    exists j :: 0 <= j < i && log[j].Pushed?
  }

  /** After a red done-check nothing is pushed or implemented any more. */
  ghost predicate RedStops(log: seq<Event>) {
    forall i, j | 0 <= i < j < |log| && log[i] == Checked(Red) :: !log[j].Pushed? && !log[j].Implemented?
  }

  /** Every review reads a diff taken just before it, of the tip just pushed (and, the first time, reported). */
  ghost predicate ReviewsFresh(log: seq<Event>) {
    forall i | 0 <= i < |log| && log[i].Reviewed? :: ReviewFresh(log, i)
  }

  ghost predicate ReviewFresh(log: seq<Event>, i: int)
    requires i < |log|
  {
    && i >= 3 && log[i - 1] == Ran(Diff, true)
    && (log[i - 2] == Pushed(true) || (log[i - 2] == Ran(Report, true) && log[i - 3] == Pushed(true)))
  }

  /** Every implement run follows the step that writes its plan: the planner's, or one answering a blocking review. */
  ghost predicate ImplementsPlanned(log: seq<Event>) {
    forall i | 0 <= i < |log| && log[i].Implemented? :: ImplementPlanned(log, i)
  }

  ghost predicate ImplementPlanned(log: seq<Event>, i: int)
    requires i < |log|
  {
    i >= 2 && log[i - 1] == Ran(WritePlan, true)
      && (log[i - 2] == Ran(RunPlanner, true) || FoundBlocking(Some(log[i - 2])))
  }

  /**
   Commits are counted right after the first implement run, and a check comes right after that count found some;
   after the second run it comes at once.
   */
  ghost predicate ChecksInPlace(log: seq<Event>) {
    forall i | 0 <= i < |log| :: CheckInPlace(log, i)
  }

  ghost predicate CheckInPlace(log: seq<Event>, i: int)
    requires 0 <= i < |log|
  {
    var runs := Count(log[..i], IMPLEMENTS);
    && (log[i].Counted? ==> runs == 1 && i >= 1 && log[i - 1] == Implemented(true))
    && (log[i].Checked? ==>
          || (runs == 1 && i >= 2 && Landed(Some(log[i - 1])) && log[i - 2] == Implemented(true))
          || (runs == 2 && i >= 1 && log[i - 1] == Implemented(true)))
  }

  /** Clone, fetch, checkout, planner: in this order, each straight after the one before. */
  ghost predicate SetUpInOrder(log: seq<Event>) {
    forall i | 0 <= i < |log| && log[i].Ran? && Predecessor(log[i].step).Some? ::
      i >= 1 && Some(log[i - 1]) == Predecessor(log[i].step)
  }

  predicate Bounded(log: seq<Event>) {
    Count(log, IMPLEMENTS) <= 2 && Count(log, PUSHES) <= 2 && Count(log, REVIEWS) <= 2
  }

  /** One container: started first, destroyed at most once and last. */
  ghost predicate OneLife(log: seq<Event>) {
    && (forall i | 0 <= i < |log| :: log[i].Started? <==> i == 0)
    && (forall i | 0 <= i < |log| && log[i].Destroyed? :: i == |log| - 1)
  }

  ghost predicate Disciplined(log: seq<Event>) {
    && PushesChecked(log) && RedStops(log) && ReviewsFresh(log) && ImplementsPlanned(log) && SetUpInOrder(log)
    && ChecksInPlace(log) && Bounded(log) && OneLife(log)
  }

  /** What the monitor knows about the log it watched. */
  ghost predicate Watched(log: seq<Event>, m: Monitor) {
    && m.implements == Count(log, IMPLEMENTS) && m.pushes == Count(log, PUSHES) && m.reviews == Count(log, REVIEWS)
    && (m.red <==> exists i :: 0 <= i < |log| && RED(log[i]))
    && (m.destroyed <==> exists i :: 0 <= i < |log| && DESTROYS(log[i]))
    && (m.pushes > 0 <==> exists i :: 0 <= i < |log| && PUSHES(log[i]))
    && m.last == EventAt(log, 1) && m.second == EventAt(log, 2) && m.third == EventAt(log, 3)
  }

  function EventAt(log: seq<Event>, back: nat): Option<Event> {
    if 0 < back <= |log| then Some(log[|log| - back]) else None
  }

  lemma SeenSnoc(log: seq<Event>, e: Event, p: Event -> bool)
    ensures (exists i :: 0 <= i < |log + [e]| && p((log + [e])[i])) <==> p(e) || exists i :: 0 <= i < |log| && p(log[i])
  {
    var after := log + [e];
    if i :| 0 <= i < |after| && p(after[i]) { assert i < |log| ==> after[i] == log[i]; }
    if i :| 0 <= i < |log| && p(log[i]) { assert after[i] == log[i]; }
    assert after[|log|] == e;
  }

  lemma LastSnoc(log: seq<Event>, e: Event)
    ensures EventAt(log + [e], 1) == Some(e)
    ensures EventAt(log + [e], 2) == EventAt(log, 1) && EventAt(log + [e], 3) == EventAt(log, 2)
  {
  }

  lemma WatchedSnoc(log: seq<Event>, m: Monitor, e: Event)
    requires Watched(log, m)
    ensures Watched(log + [e], Next(m, e))
  {
    CountSnoc(log, e, IMPLEMENTS);
    CountSnoc(log, e, PUSHES);
    CountSnoc(log, e, REVIEWS);
    SeenSnoc(log, e, RED);
    SeenSnoc(log, e, DESTROYS);
    SeenSnoc(log, e, PUSHES);
    LastSnoc(log, e);
  }

  lemma {:induction false} MonitorWatches(log: seq<Event>)
    requires MonitorOf(log).Some?
    ensures Watched(log, MonitorOf(log).value)
    ensures MonitorOf(log).value.implements <= 2 && MonitorOf(log).value.pushes <= 2
      && MonitorOf(log).value.reviews <= 2
  {
    if log != [] {
      var front := log[..|log| - 1];
      MonitorWatches(front);
      WatchedSnoc(front, MonitorOf(front).value, log[|log| - 1]);
      assert front + [log[|log| - 1]] == log;
    }
  }

  /** Every event of an accepted log was allowed by what came before it. */
  lemma {:induction false} EachAllowed(log: seq<Event>, i: nat)
    requires MonitorOf(log).Some? && i < |log|
    ensures MonitorOf(log[..i]).Some? && Allowed(MonitorOf(log[..i]).value, log[i])
    ensures Watched(log[..i], MonitorOf(log[..i]).value)
  {
    if i == |log| - 1 {
      MonitorWatches(log[..i]);
    } else {
      EachAllowed(log[..|log| - 1], i);
      assert log[..|log| - 1][..i] == log[..i];
    }
  }

  lemma PushAllowed(log: seq<Event>, i: nat)
    requires MonitorOf(log).Some? && i < |log| && log[i].Pushed?
    ensures PushChecked(log, i)
  {
    EachAllowed(log, i);
    var before := log[..i];
    assert EventAt(before, 1).Some? && EventAt(before, 2).Some? && before[i - 1] == log[i - 1]
      && before[i - 2] == log[i - 2];
    if log[i - 2] == Implemented(true) {
      var j :| 0 <= j < |before| && before[j].Pushed?;
      assert log[j].Pushed?;
    } else {
      assert EventAt(before, 3).Some? && before[i - 3] == log[i - 3];
    }
  }

  lemma AcceptedPushes(log: seq<Event>)
    requires MonitorOf(log).Some?
    ensures PushesChecked(log)
  {
    forall i | 0 <= i < |log| && log[i].Pushed? ensures PushChecked(log, i) { PushAllowed(log, i); }
  }

  lemma AcceptedRed(log: seq<Event>)
    requires MonitorOf(log).Some?
    ensures RedStops(log)
  {
    forall i, j | 0 <= i < j < |log| && log[i] == Checked(Red) ensures !log[j].Pushed? && !log[j].Implemented? {
      EachAllowed(log, j);
      assert log[..j][i] == log[i];
    }
  }

  lemma StepAllowed(log: seq<Event>, i: nat)
    requires MonitorOf(log).Some? && i < |log|
    ensures log[i].Reviewed? ==> ReviewFresh(log, i)
    ensures log[i].Implemented? ==> ImplementPlanned(log, i)
    ensures log[i].Ran? && Predecessor(log[i].step).Some? ==> i >= 1 && Some(log[i - 1]) == Predecessor(log[i].step)
  {
    EachAllowed(log, i);
    var before := log[..i];
    assert EventAt(before, 1).Some? ==> before[i - 1] == log[i - 1];
    assert EventAt(before, 2).Some? ==> before[i - 1] == log[i - 1] && before[i - 2] == log[i - 2];
    assert EventAt(before, 3).Some? ==> before[i - 3] == log[i - 3];
  }

  lemma AcceptedSteps(log: seq<Event>)
    requires MonitorOf(log).Some?
    ensures ReviewsFresh(log) && ImplementsPlanned(log) && SetUpInOrder(log)
  {
    forall i | 0 <= i < |log|
      ensures log[i].Reviewed? ==> ReviewFresh(log, i)
      ensures log[i].Implemented? ==> ImplementPlanned(log, i)
      ensures log[i].Ran? && Predecessor(log[i].step).Some? ==> i >= 1 && Some(log[i - 1]) == Predecessor(log[i].step)
    {
      StepAllowed(log, i);
    }
  }

  lemma CountedAllowed(log: seq<Event>, i: nat)
    requires MonitorOf(log).Some? && i < |log| && log[i].Counted?
    ensures Count(log[..i], IMPLEMENTS) == 1 && i >= 1 && log[i - 1] == Implemented(true)
  {
    EachAllowed(log, i);
    assert EventAt(log[..i], 1).Some? && log[..i][i - 1] == log[i - 1];
  }

  lemma CheckAllowed(log: seq<Event>, i: nat)
    requires MonitorOf(log).Some? && i < |log| && log[i].Checked?
    ensures CheckInPlace(log, i)
  {
    EachAllowed(log, i);
    assert EventAt(log[..i], 1).Some? && log[..i][i - 1] == log[i - 1];
    if Landed(Some(log[i - 1])) { LandedAllowed(log, i); }
  }

  lemma LandedAllowed(log: seq<Event>, i: nat)
    requires MonitorOf(log).Some? && 0 < i < |log| && log[i - 1].Counted?
    ensures Count(log[..i], IMPLEMENTS) == 1 && i >= 2 && log[i - 2] == Implemented(true)
  {
    CountedAllowed(log, i - 1);
    CountSnoc(log[..i - 1], log[i - 1], IMPLEMENTS);
    assert log[..i - 1] + [log[i - 1]] == log[..i];
  }

  lemma AcceptedChecks(log: seq<Event>)
    requires MonitorOf(log).Some?
    ensures ChecksInPlace(log)
  {
    forall i | 0 <= i < |log| ensures CheckInPlace(log, i) {
      if log[i].Counted? { CountedAllowed(log, i); }
      if log[i].Checked? { CheckAllowed(log, i); }
    }
  }

  lemma AcceptedLife(log: seq<Event>)
    requires MonitorOf(log).Some?
    ensures OneLife(log)
  {
    forall i | 0 <= i < |log| ensures log[i].Started? <==> i == 0 { EachAllowed(log, i); }
    if log != [] {
      var n := |log| - 1;
      EachAllowed(log, n);
      forall i | 0 <= i < n ensures !log[i].Destroyed? { assert log[..n][i] == log[i]; }
    }
  }

  /** What the step-by-step rule means for a whole log. */
  lemma AcceptedIsDisciplined(log: seq<Event>)
    requires MonitorOf(log).Some?
    ensures Disciplined(log)
  {
    AcceptedPushes(log);
    AcceptedRed(log);
    AcceptedSteps(log);
    AcceptedChecks(log);
    AcceptedLife(log);
    MonitorWatches(log);
  }

  lemma Finished(log: seq<Event>, m: Monitor)
    requires MonitorOf(log) == Some(m)
    ensures Disciplined(log) && Count(log, PUSHES) == m.pushes && Count(log, REVIEWS) == m.reviews
    ensures m.last.Some? ==> log != [] && log[|log| - 1] == m.last.value
    ensures m.second.Some? ==> |log| >= 2 && log[|log| - 2] == m.second.value
    ensures m.third.Some? ==> |log| >= 3 && log[|log| - 3] == m.third.value
  {
    AcceptedIsDisciplined(log);
    MonitorWatches(log);
  }
}
