/**
 The backlog cron lane: which issue a tick promotes, that the quota floor bounds how long a low-priority issue
 can wait, and the tick itself under the single-run lock and the shared budget.
 */
module Cron {
  import opened Arith
  import Budget
  import opened Collections
  import SingleRun
  import opened Vocab
  import Window
  import opened Wrappers

  /** `createdAt` in microseconds; the severity read from the labels, Low when there is none. */
  datatype BacklogIssue = BacklogIssue(number: nat, severity: Severity, createdAt: int)

  const PRIORITY_WEIGHT := 10_000.0

  function AgeDays(i: BacklogIssue, now: int): (age: real)
    ensures age >= 0.0
  {
    if now <= i.createdAt then 0.0 else (now - i.createdAt) as real / Window.DAY as real
  }

  function WeightedScore(i: BacklogIssue, now: int): real {
    i.severity.Level() as real * PRIORITY_WEIGHT + AgeDays(i, now)
  }

  predicate IsLow(i: BacklogIssue)
    ensures IsLow(i) <==> i.severity == Low
  {
    i.severity.Level() < Medium.Level()
  }

  /** `max(issues, key=...)`: the first among the largest. */
  function FirstMax(issues: seq<BacklogIssue>, key: BacklogIssue -> real): (best: BacklogIssue)
    requires issues != []
    ensures best in issues
  {
    var last := issues[|issues| - 1];
    if |issues| == 1 then last
    else
      var best := FirstMax(issues[..|issues| - 1], key);
      if key(last) > key(best) then last else best
  }

  function LowIssues(issues: seq<BacklogIssue>): (low: seq<BacklogIssue>)
    ensures forall i :: i in low <==> i in issues && IsLow(i)
  {
    if issues == [] then []
    else
      var front, last := LowIssues(issues[..|issues| - 1]), issues[|issues| - 1];
      assert issues == issues[..|issues| - 1] + [last];
      if IsLow(last) then front + [last] else front
  }

  function OldestLowPriority(issues: seq<BacklogIssue>): Option<BacklogIssue> {
    var low := LowIssues(issues);
    if low == [] then None else Some(FirstMax(low, (i: BacklogIssue) => -(i.createdAt as real)))
  }

  predicate QuotaTick(tick: int, quotaEvery: int) {
    quotaEvery > 0 && tick > 0 && tick % quotaEvery == 0
  }

  function PickIssue(issues: seq<BacklogIssue>, now: int, tick: int, quotaEvery: int): (picked: BacklogIssue)
    requires issues != []
    ensures picked in issues
  {
    if QuotaTick(tick, quotaEvery) && OldestLowPriority(issues).Some? then OldestLowPriority(issues).value
    else FirstMax(issues, (i: BacklogIssue) => WeightedScore(i, now))
  }

  // --- the score, in whole microseconds ---

  /** How long ago the issue was filed; not negative. */
  function Age(i: BacklogIssue, now: int): int {
    if i.createdAt < now then now - i.createdAt else 0
  }

  /** 10,000 days per severity step, and the age. */
  function Points(i: BacklogIssue, now: int): int {
    i.severity.Level() * (10_000 * 86_400_000_000) + Age(i, now)
  }

  /** More severe, or as severe and older. */
  predicate RanksAbove(a: BacklogIssue, b: BacklogIssue, now: int) {
    || a.severity.Level() > b.severity.Level()
    || (a.severity == b.severity && Age(a, now) > Age(b, now))
  }

  lemma ScoreIsPoints(i: BacklogIssue, now: int)
    ensures WeightedScore(i, now) * 86_400_000_000.0 == Points(i, now) as real
  {
    assert AgeDays(i, now) * 86_400_000_000.0 == Age(i, now) as real;
    var step := 10_000 * 86_400_000_000;
    assert PRIORITY_WEIGHT * 86_400_000_000.0 == step as real;
    assert (i.severity.Level() * step) as real == i.severity.Level() as real * step as real;
  }

  lemma ScoresAsPoints(a: BacklogIssue, b: BacklogIssue, now: int)
    ensures WeightedScore(a, now) > WeightedScore(b, now) <==> Points(a, now) > Points(b, now)
    ensures WeightedScore(a, now) == WeightedScore(b, now) <==> Points(a, now) == Points(b, now)
  {
    ScoreIsPoints(a, now);
    ScoreIsPoints(b, now);
  }

  /**
   Severity decides exactly while the less severe issue is not older by 10,000 days per step; the claim that it
   always does is false beyond that.
   */
  lemma SeverityDecidesExactly(a: BacklogIssue, b: BacklogIssue, now: int)
    requires a.severity.Level() > b.severity.Level()
    ensures WeightedScore(a, now) > WeightedScore(b, now)
       <==> Age(b, now) - Age(a, now) < (a.severity.Level() - b.severity.Level()) * (10_000 * 86_400_000_000)
  {
    ScoresAsPoints(a, b, now);
  }

  lemma {:induction false} FirstMaxIsFirstAndMax(issues: seq<BacklogIssue>, key: BacklogIssue -> real, k: nat)
    requires k < |issues|
    ensures key(issues[k]) <= key(FirstMax(issues, key))
    ensures key(issues[k]) == key(FirstMax(issues, key)) ==> FirstMax(issues, key) in issues[..k + 1]
  {
    var n := |issues| - 1;
    if n > 0 {
      var front := issues[..n];
      if k < n {
        FirstMaxIsFirstAndMax(front, key, k);
        assert front[..k + 1] == issues[..k + 1];
      } else {
        assert issues[..n + 1] == issues;
      }
    }
  }

  /** No positive multiple of a positive quota. */
  predicate OrdinaryTick(tick: int, quotaEvery: int) {
    quotaEvery <= 0 || tick <= 0 || tick % quotaEvery != 0
  }

  /**
   A tick that is no positive multiple of the quota, or finds no low-priority issue, takes an issue with the most
   points, the first listed of its equals.
   */
  lemma ScorePickIsMax(issues: seq<BacklogIssue>, now: int, tick: int, quotaEvery: int, k: nat)
    requires k < |issues|
    requires OrdinaryTick(tick, quotaEvery) || forall i | i in issues :: i.severity != Low
    ensures var picked := PickIssue(issues, now, tick, quotaEvery);
      && Points(issues[k], now) <= Points(picked, now)
      && (Points(issues[k], now) == Points(picked, now) ==> picked in issues[..k + 1])
  {
    var key := (i: BacklogIssue) => WeightedScore(i, now);
    if !OrdinaryTick(tick, quotaEvery) {
      var low := LowIssues(issues);
      if low != [] { assert low[0] in low; }
    }
    FirstMaxIsFirstAndMax(issues, key, k);
    ScoresAsPoints(issues[k], FirstMax(issues, key), now);
  }

  /** With all ages under 10,000 days, that is the first listed of the issues nothing ranks above. */
  lemma ScorePickIsLexicographic(issues: seq<BacklogIssue>, now: int, tick: int, quotaEvery: int, k: nat)
    requires k < |issues|
    requires OrdinaryTick(tick, quotaEvery) || forall i | i in issues :: i.severity != Low
    requires forall i | i in issues :: Age(i, now) < 10_000 * 86_400_000_000
    ensures var picked := PickIssue(issues, now, tick, quotaEvery);
      && !RanksAbove(issues[k], picked, now)
      && (RanksAbove(picked, issues[k], now) || picked in issues[..k + 1])
  {
    var picked := PickIssue(issues, now, tick, quotaEvery);
    ScorePickIsMax(issues, now, tick, quotaEvery, k);
    assert issues[k] in issues && picked in issues;
    PointsFollowRank(issues[k], picked, now);
    PointsFollowRank(picked, issues[k], now);
  }

  lemma PointsFollowRank(a: BacklogIssue, b: BacklogIssue, now: int)
    requires Age(a, now) < 10_000 * 86_400_000_000 && Age(b, now) < 10_000 * 86_400_000_000
    ensures RanksAbove(a, b, now) ==> Points(a, now) > Points(b, now)
    ensures !RanksAbove(a, b, now) && !RanksAbove(b, a, now) ==> Points(a, now) == Points(b, now)
  {
    SameLevel(a.severity, b.severity);
  }

  lemma SameLevel(a: Severity, b: Severity)
    ensures a.Level() == b.Level() <==> a == b
  {
  }

  // --- the quota floor ---

  /** The low issues of a prefix are a prefix of the low issues. */
  lemma {:induction false} LowPrefix(issues: seq<BacklogIssue>, n: nat)
    requires n <= |issues|
    ensures LowIssues(issues[..n]) <= LowIssues(issues)
  {
    if n == |issues| {
      assert issues[..n] == issues;
    } else {
      LowPrefix(issues[..|issues| - 1], n);
      assert issues[..|issues| - 1][..n] == issues[..n];
    }
  }

  /** A positive multiple of the quota takes the first listed of the oldest low-priority issues, if there is one. */
  lemma QuotaTakesOldestLow(issues: seq<BacklogIssue>, now: int, tick: int, quotaEvery: int, k: nat)
    requires k < |issues| && issues[k].severity == Low && quotaEvery > 0 && tick > 0 && tick % quotaEvery == 0
    ensures var picked := PickIssue(issues, now, tick, quotaEvery);
      && picked.severity == Low && picked.createdAt <= issues[k].createdAt
      && (picked.createdAt == issues[k].createdAt ==> picked in issues[..k + 1])
  {
    var low, upTo := LowIssues(issues), LowIssues(issues[..k + 1]);
    var key := (i: BacklogIssue) => -(i.createdAt as real);
    LowPrefix(issues, k + 1);
    assert issues[..k + 1][..k] == issues[..k] && issues[..k + 1][k] == issues[k];
    var m := |upTo| - 1;
    assert upTo[m] == issues[k] && low[m] == upTo[m] && low[..m + 1] == upTo;
    FirstMaxIsFirstAndMax(low, key, m);
    assert FirstMax(low, key) in low;
  }

  lemma QuotaPicksOldestLow(issues: seq<BacklogIssue>, now: int, tick: int, quotaEvery: int, x: BacklogIssue)
    requires x in issues && IsLow(x) && QuotaTick(tick, quotaEvery)
    ensures var picked := PickIssue(issues, now, tick, quotaEvery); IsLow(picked) && picked.createdAt <= x.createdAt
  {
    var k :| 0 <= k < |issues| && issues[k] == x;
    QuotaTakesOldestLow(issues, now, tick, quotaEvery, k);
  }

  /** The other low issues at least as old as `x`. */
  function Elders(issues: seq<BacklogIssue>, x: BacklogIssue): set<BacklogIssue> {
    set i | i in issues && i != x && IsLow(i) && i.createdAt <= x.createdAt
  }

  /** From the backlog a tick left behind to the next tick's: `x` stays, and no low issue as old as it arrives. */
  ghost predicate Between(left: seq<BacklogIssue>, next: seq<BacklogIssue>, x: BacklogIssue) {
    && (x in left ==> x in next)
    && forall i | i in next :: i in left || !IsLow(i) || i.createdAt > x.createdAt
  }

  function Without(issues: seq<BacklogIssue>, number: nat): (r: seq<BacklogIssue>)
    ensures forall i :: i in r <==> i in issues && i.number != number
  {
    if issues == [] then []
    else
      var front, last := Without(issues[..|issues| - 1], number), issues[|issues| - 1];
      assert issues == issues[..|issues| - 1] + [last];
      if last.number == number then front else front + [last]
  }

  /** What a tick leaves of the backlog it saw. */
  function Left(issues: seq<BacklogIssue>, now: int, tick: int, quotaEvery: int): seq<BacklogIssue>
    requires issues != []
  {
    Without(issues, PickIssue(issues, now, tick, quotaEvery).number)
  }

  /**
   One tick of the lane under some tick number: it sees a backlog and either is admitted and promotes its pick
   (`ran`) or leaves the backlog alone, because it was deferred, idle or raised.
   */
  datatype Tick = Tick(backlog: seq<BacklogIssue>, now: int, number: int, ran: bool)

  function LeftBy(t: Tick, quotaEvery: int): seq<BacklogIssue>
    requires t.ran ==> t.backlog != []
  {
    if t.ran then Left(t.backlog, t.now, t.number, quotaEvery) else t.backlog
  }

  /**
   Any number of ticks, as an issue `x` sees them: after each one issues may arrive and leave, except that `x`
   does not leave and no low issue as old as `x` arrives. Tick numbers may skip, and start over with a worker.
   */
  ghost predicate Ticks(ts: seq<Tick>, quotaEvery: int, x: BacklogIssue) {
    ts != [] ==>
      && (ts[0].ran ==> ts[0].backlog != [])
      && (|ts| > 1 ==> Between(LeftBy(ts[0], quotaEvery), ts[1].backlog, x))
      && Ticks(ts[1..], quotaEvery, x)
  }

  predicate Takes(t: Tick, quotaEvery: int, x: BacklogIssue) {
    t.ran && t.backlog != [] && PickIssue(t.backlog, t.now, t.number, quotaEvery).number == x.number
  }

  /** Admitted under a quota number. */
  predicate QuotaRun(t: Tick, quotaEvery: int) {
    t.ran && QuotaTick(t.number, quotaEvery)
  }

  function QuotaRuns(ts: seq<Tick>, quotaEvery: int): (n: nat)
    ensures n <= |ts|
  {
    if ts == [] then 0 else (if QuotaRun(ts[0], quotaEvery) then 1 else 0) + QuotaRuns(ts[1..], quotaEvery)
  }

  /** A tick that does not take `x`: it is still there with no more elders, and with fewer after a quota run. */
  lemma TickPassesOver(t: Tick, next: seq<BacklogIssue>, quotaEvery: int, x: BacklogIssue)
    requires (t.ran ==> t.backlog != []) && Between(LeftBy(t, quotaEvery), next, x)
    requires x in t.backlog && IsLow(x) && !Takes(t, quotaEvery, x)
    ensures x in next && |Elders(next, x)| <= |Elders(t.backlog, x)|
    ensures QuotaRun(t, quotaEvery) ==> |Elders(next, x)| < |Elders(t.backlog, x)|
  {
    var b := t.backlog;
    if t.ran {
      assert x in Left(b, t.now, t.number, quotaEvery);
      assert Elders(next, x) <= Elders(b, x) - {PickIssue(b, t.now, t.number, quotaEvery)};
    }
    SubsetSize(Elders(next, x), Elders(b, x));
    if QuotaRun(t, quotaEvery) {
      var picked := PickIssue(b, t.now, t.number, quotaEvery);
      QuotaPicksOldestLow(b, t.now, t.number, quotaEvery, x);
      SubsetSize(Elders(next, x), Elders(b, x) - {picked});
      Fewer(Elders(b, x) - {picked}, Elders(b, x), picked);
    }
  }

  /** A quota run without elders takes `x` itself. */
  lemma QuotaRunTakes(t: Tick, quotaEvery: int, x: BacklogIssue)
    requires t.backlog != [] && x in t.backlog && IsLow(x) && QuotaRun(t, quotaEvery) && Elders(t.backlog, x) == {}
    ensures Takes(t, quotaEvery, x)
  {
    QuotaPicksOldestLow(t.backlog, t.now, t.number, quotaEvery, x);
    assert PickIssue(t.backlog, t.now, t.number, quotaEvery) !in Elders(t.backlog, x);
  }

  /** A first tick that does not take `x` leaves a quota run for each elder and one more. */
  lemma FirstTick(ts: seq<Tick>, quotaEvery: int, x: BacklogIssue)
    requires ts != [] && Ticks(ts, quotaEvery, x) && x in ts[0].backlog && IsLow(x)
    requires QuotaRuns(ts, quotaEvery) > |Elders(ts[0].backlog, x)| && !Takes(ts[0], quotaEvery, x)
    ensures |ts| > 1 && x in ts[1].backlog && Ticks(ts[1..], quotaEvery, x)
    ensures QuotaRuns(ts[1..], quotaEvery) > |Elders(ts[1].backlog, x)|
    ensures (if QuotaRun(ts[0], quotaEvery) then 1 else 0) + |Elders(ts[1].backlog, x)| <= |Elders(ts[0].backlog, x)|
  {
    if |ts| == 1 {
      assert QuotaRuns(ts[1..], quotaEvery) == 0;
      QuotaRunTakes(ts[0], quotaEvery, x);
    } else {
      TickPassesOver(ts[0], ts[1].backlog, quotaEvery, x);
    }
  }

  /**
   Starvation bound: whatever higher-priority work and younger low work keeps arriving, and however ticks are
   deferred, idle or raise, a low-priority issue with `m` elders is promoted at the latest by the (m + 1)-th tick
   that is admitted under a quota number.
   */
  lemma {:induction false} TakenByQuotaRuns(ts: seq<Tick>, quotaEvery: int, x: BacklogIssue) returns (k: nat)
    requires ts != [] && Ticks(ts, quotaEvery, x) && x in ts[0].backlog && IsLow(x)
    requires QuotaRuns(ts, quotaEvery) > |Elders(ts[0].backlog, x)|
    ensures k < |ts| && Takes(ts[k], quotaEvery, x)
    ensures QuotaRuns(ts[..k], quotaEvery) <= |Elders(ts[0].backlog, x)|
    decreases |ts|
  {
    if Takes(ts[0], quotaEvery, x) {
      k := 0;
    } else {
      FirstTick(ts, quotaEvery, x);
      k := TakenByQuotaRuns(ts[1..], quotaEvery, x);
      assert ts[..k + 1][0] == ts[0] && ts[..k + 1][1..] == ts[1..][..k];
      k := k + 1;
    }
  }

  // --- in ticks, when every tick is admitted ---

  /** Ticks to go until the next quota tick. */
  function Wait(tick: nat, quotaEvery: nat): nat
    requires quotaEvery > 0
  {
    if tick % quotaEvery == 0 then 0 else quotaEvery - tick % quotaEvery
  }

  lemma WaitStep(tick: nat, quotaEvery: nat)
    requires quotaEvery > 0
    ensures Wait(tick + 1, quotaEvery) == if Wait(tick, quotaEvery) == 0 then quotaEvery - 1
      else Wait(tick, quotaEvery) - 1
  {
    var q, r := tick / quotaEvery, tick % quotaEvery;
    assert tick == q * quotaEvery + r;
    if r == quotaEvery - 1 {
      assert tick + 1 == (q + 1) * quotaEvery;
      QuotientIs(tick + 1, quotaEvery, q + 1, 0);
    } else {
      QuotientIs(tick + 1, quotaEvery, q, r + 1);
    }
  }

  /** The tick numbers go up one by one from `first`. */
  ghost predicate Consecutive(ts: seq<Tick>, first: int) {
    forall k | 0 <= k < |ts| :: ts[k].number == first + k
  }

  ghost predicate AllRan(ts: seq<Tick>) {
    forall k | 0 <= k < |ts| :: ts[k].ran
  }

  lemma {:induction false} EnoughQuotaRuns(ts: seq<Tick>, first: nat, quotaEvery: nat, m: nat)
    requires first > 0 && quotaEvery > 0 && Consecutive(ts, first) && AllRan(ts)
    requires |ts| > Wait(first, quotaEvery) + quotaEvery * m
    ensures QuotaRuns(ts, quotaEvery) > m
    decreases |ts|
  {
    WaitStep(first, quotaEvery);
    if Wait(first, quotaEvery) > 0 {
      EnoughQuotaRuns(ts[1..], first + 1, quotaEvery, m);
    } else if m > 0 {
      assert quotaEvery * m == quotaEvery * (m - 1) + quotaEvery;
      EnoughQuotaRuns(ts[1..], first + 1, quotaEvery, m - 1);
    }
  }

  /** When every tick is admitted and promotes: within quota_every * (m + 1) ticks. */
  lemma LowIssuesAreNotStarved(ts: seq<Tick>, first: nat, quotaEvery: nat, x: BacklogIssue) returns (k: nat)
    requires ts != [] && Ticks(ts, quotaEvery, x) && x in ts[0].backlog && IsLow(x)
    requires first > 0 && quotaEvery > 0 && Consecutive(ts, first) && AllRan(ts)
    requires |ts| >= quotaEvery * (|Elders(ts[0].backlog, x)| + 1)
    ensures k < quotaEvery * (|Elders(ts[0].backlog, x)| + 1) && k < |ts| && Takes(ts[k], quotaEvery, x)
  {
    var m := |Elders(ts[0].backlog, x)|;
    assert quotaEvery * (m + 1) == quotaEvery * m + quotaEvery;
    EnoughQuotaRuns(ts, first, quotaEvery, m);
    k := TakenByQuotaRuns(ts, quotaEvery, x);
    if k >= quotaEvery * (m + 1) {
      EnoughQuotaRuns(ts[..k], first, quotaEvery, m);
    }
  }

  // --- in admitted ticks, when others are not ---

  function Runs(ts: seq<Tick>): nat {
    if ts == [] then 0 else (if ts[0].ran then 1 else 0) + Runs(ts[1..])
  }

  /** quota_every * (m + 1) admitted ticks suffice, whichever ticks of a consecutive run are admitted. */
  ghost predicate AdmittedTicksSuffice(quotaEvery: nat) {
    forall ts: seq<Tick>, first: nat, x: BacklogIssue ::
      ts != [] && Ticks(ts, quotaEvery, x) && x in ts[0].backlog && IsLow(x) && first > 0 && Consecutive(ts, first)
      && Runs(ts) >= quotaEvery * (|Elders(ts[0].backlog, x)| + 1)
      ==> exists k :: 0 <= k < |ts| && Takes(ts[k], quotaEvery, x)
  }

  const WAITING := BacklogIssue(1, Low, 0)

  /** Work as old and more severe, another issue for every tick. */
  function Pressing(tick: nat): BacklogIssue {
    BacklogIssue(2 + tick, Critical, 0)
  }

  /** Every quota tick is deferred; every other, a moment later, is admitted and finds new higher-priority work. */
  function Starving(first: nat, quotaEvery: int, n: nat): (ts: seq<Tick>)
    ensures |ts| == n
    decreases n
  {
    if n == 0 then []
    else
      var t := Tick([WAITING, Pressing(first)], first, first, !QuotaTick(first, quotaEvery));
      [t] + Starving(first + 1, quotaEvery, n - 1)
  }

  lemma PressingFirst(tick: nat, quotaEvery: int)
    requires !QuotaTick(tick, quotaEvery)
    ensures PickIssue([WAITING, Pressing(tick)], tick, tick, quotaEvery) == Pressing(tick)
  {
    var b := [WAITING, Pressing(tick)];
    assert b[..1] == [WAITING];
    assert FirstMax([WAITING], (i: BacklogIssue) => WeightedScore(i, tick)) == WAITING;
    assert AgeDays(Pressing(tick), tick) == AgeDays(WAITING, tick);
  }

  lemma {:induction false} StarvingStarves(first: nat, quotaEvery: int, n: nat)
    ensures var ts := Starving(first, quotaEvery, n);
      && Ticks(ts, quotaEvery, WAITING) && Consecutive(ts, first)
      && (n > 0 ==> ts[0].backlog == [WAITING, Pressing(first)])
      && forall k | 0 <= k < n :: ts[k].now == first + k && !Takes(ts[k], quotaEvery, WAITING)
    decreases n
  {
    if n > 0 {
      StarvingStarves(first + 1, quotaEvery, n - 1);
      var ts := Starving(first, quotaEvery, n);
      if ts[0].ran { PressingFirst(first, quotaEvery); }
      assert ts[1..] == Starving(first + 1, quotaEvery, n - 1);
      if n > 1 { StarvingHandover(first, quotaEvery); }
      forall k | 0 <= k < n
        ensures ts[k].number == first + k && ts[k].now == first + k && !Takes(ts[k], quotaEvery, WAITING)
      {
        if k > 0 { assert ts[k] == ts[1..][k - 1]; }
      }
    }
  }

  /** From one of these ticks to the next: the waiting issue stays, and what arrives is not low. */
  lemma StarvingHandover(first: nat, quotaEvery: int)
    ensures Between(LeftBy(Starving(first, quotaEvery, 1)[0], quotaEvery), [WAITING, Pressing(first + 1)], WAITING)
  {
    if !QuotaTick(first, quotaEvery) { PressingFirst(first, quotaEvery); }
    var left := LeftBy(Starving(first, quotaEvery, 1)[0], quotaEvery);
    assert WAITING in [WAITING, Pressing(first)] && WAITING in left;
  }

  /** Of two successive ticks at least one is admitted. */
  lemma {:induction false} StarvingRuns(first: nat, quotaEvery: nat, n: nat)
    requires first > 0 && quotaEvery >= 2
    ensures Runs(Starving(first, quotaEvery, 2 * n)) >= n
    decreases n
  {
    if n > 0 {
      var ts := Starving(first, quotaEvery, 2 * n);
      WaitStep(first, quotaEvery);
      StarvingRuns(first + 2, quotaEvery, n - 1);
      assert ts[1..] == Starving(first + 1, quotaEvery, 2 * n - 1);
      assert ts[1..][1..] == Starving(first + 2, quotaEvery, 2 * n - 2);
      assert Runs(ts) >= 1 + Runs(ts[1..][1..]);
    }
  }

  /**
   Deferring every quota tick starves: for any quota but one in one, a low issue without elders is not taken in
   any number of admitted ticks.
   */
  lemma QuotaTicksDeferred(quotaEvery: nat, n: nat) returns (ts: seq<Tick>)
    requires quotaEvery >= 2 && n > 0
    ensures ts != [] && Ticks(ts, quotaEvery, WAITING) && Consecutive(ts, 1) && Runs(ts) >= n
    ensures WAITING in ts[0].backlog && IsLow(WAITING) && Elders(ts[0].backlog, WAITING) == {}
    ensures forall k | 0 <= k < |ts| :: ts[k].now == 1 + k && !Takes(ts[k], quotaEvery, WAITING)
  {
    ts := Starving(1, quotaEvery, 2 * n);
    StarvingStarves(1, quotaEvery, 2 * n);
    StarvingRuns(1, quotaEvery, n);
  }

  lemma {:induction false} EveryRunIsQuota(ts: seq<Tick>, first: nat)
    requires first > 0 && Consecutive(ts, first)
    ensures QuotaRuns(ts, 1) == Runs(ts)
    decreases |ts|
  {
    if ts != [] { EveryRunIsQuota(ts[1..], first + 1); }
  }

  /** Counting admitted ticks bounds the wait if and only if every tick is a quota tick. */
  lemma AdmittedTicksSufficeExactly(quotaEvery: nat)
    requires quotaEvery > 0
    ensures AdmittedTicksSuffice(quotaEvery) <==> quotaEvery == 1
  {
    if quotaEvery == 1 {
      forall ts: seq<Tick>, first: nat, x: BacklogIssue
        | ts != [] && Ticks(ts, 1, x) && x in ts[0].backlog && IsLow(x) && first > 0 && Consecutive(ts, first)
          && Runs(ts) >= 1 * (|Elders(ts[0].backlog, x)| + 1)
        ensures exists k :: 0 <= k < |ts| && Takes(ts[k], 1, x)
      {
        EveryRunIsQuota(ts, first);
        var k := TakenByQuotaRuns(ts, 1, x);
      }
    } else {
      var ts := QuotaTicksDeferred(quotaEvery, quotaEvery);
      assert quotaEvery * (|Elders(ts[0].backlog, WAITING)| + 1) == quotaEvery;
    }
  }

  lemma Fewer<T>(a: set<T>, b: set<T>, x: T)
    requires a == b - {x} && x in b
    ensures |a| + 1 == |b|
  {
    assert b == a + {x};
  }

  // --- the tick ---

  datatype TickResult = Ran(number: nat) | Deferred(until: Option<int>) | Idle

  /** The repo's open backlog as the listing returns it; promoting takes the issue out. */
  class Backlog {
    var issues: seq<BacklogIssue>
    ghost var raised: nat       // the calls that raised

    constructor (issues: seq<BacklogIssue>)
      ensures this.issues == issues
    {
      this.issues, raised := issues, 0;
    }

    method List() returns (r: Result<seq<BacklogIssue>>)
      modifies `raised
      ensures r.Ok? ==> r.value == issues
      ensures raised == old(raised) + if r.Raised? then 1 else 0
    {
      var fails: bool := *;
      if fails {
        raised := raised + 1;
        return Raised;
      }
      r := Ok(issues);
    }

    method Promote(number: nat) returns (r: Result<()>)
      modifies this
      ensures issues == if r.Ok? then Without(old(issues), number) else old(issues)
      ensures raised == old(raised) + if r.Raised? then 1 else 0
    {
      var fails: bool := *;
      if fails {
        raised := raised + 1;
        return Raised;
      }
      issues := Without(issues, number);
      r := Ok(());
    }
  }

  /**
   One tick: turned away while another holds the lock, and the lock is free again on every other path. An
   empty backlog is idle and never touches the budget; a deferred tick promotes nothing and charges nothing;
   an admitted one charges the estimate once and promotes exactly the issue the pick rule names.
   */
  method RunCronTick(
      lock: SingleRun.SingleRunLock, backlog: Backlog, governor: Budget.BudgetGovernor,
      tick: int, estimate: real, quotaEvery: int)
    returns (r: Result<TickResult>, ghost stamp: int, ghost check: int, ghost now: int)
    modifies lock, backlog, governor.ledger.table, governor.ledger.clock, governor.ledger`connected
    ensures old(lock.held) ==>
      r.Raised? && lock.held && backlog.issues == old(backlog.issues)
        && governor.ledger.table.Admitted(false, Window.Charge(stamp, estimate))
    ensures !old(lock.held) ==> !lock.held
    ensures !old(lock.held) && r.Raised? ==>
      backlog.raised > old(backlog.raised) || governor.ledger.table.raised > old(governor.ledger.table.raised)
    ensures r.Ok? && r.value.Deferred? ==>
      old(governor.ledger.clock.instant) <= stamp <= check <= governor.ledger.clock.instant
    ensures r.Ok? && r.value.Ran? ==>
      old(governor.ledger.clock.instant) <= stamp <= check <= now == governor.ledger.clock.instant
    ensures r.Ok? ==> (r.value == Idle <==> old(backlog.issues) == [])
    ensures r == Ok(Idle) ==> governor.ledger.clock.instant == old(governor.ledger.clock.instant)
    ensures r.Ok? && !r.value.Ran? ==>
      backlog.issues == old(backlog.issues) && governor.ledger.table.Admitted(false, Window.Charge(stamp, estimate))
    ensures r.Ok? && r.value.Deferred? ==>
      && governor.ledger.weeklyBudget != 0.0
      && !Window.Fits(governor.ledger.table.rows, estimate, governor.ledger.Cap(), check)
      && (Window.NonNegative(governor.ledger.table.rows) ==>
            Budget.Defers(governor.ledger.table.rows, estimate, governor.ledger.Cap(), check,
              governor.ledger.clock.instant, r.value.until))
    ensures r.Ok? && r.value.Ran? ==>
      && (governor.ledger.weeklyBudget == 0.0
          || Window.Fits(old(governor.ledger.table.rows), estimate, governor.ledger.Cap(), check))
      && r.value.number == PickIssue(old(backlog.issues), now, tick, quotaEvery).number
      && backlog.issues == Without(old(backlog.issues), r.value.number)
      && governor.ledger.table.Admitted(governor.ledger.weeklyBudget != 0.0, Window.Charge(stamp, estimate))
    ensures r.Raised? ==>
      && backlog.issues == old(backlog.issues)
      && (governor.ledger.table.Admitted(false, Window.Charge(stamp, estimate))
          || (governor.ledger.table.Admitted(true, Window.Charge(stamp, estimate))
              && old(governor.ledger.clock.instant) <= stamp <= check <= governor.ledger.clock.instant
              && Window.Fits(old(governor.ledger.table.rows), estimate, governor.ledger.Cap(), check)))
  {
    stamp, check, now := 0, 0, 0;
    var entered := lock.Enter();
    if !entered { return Raised, stamp, check, now; }
    var listed := backlog.List();
    if listed.Raised? {
      lock.Exit();
      return Raised, stamp, check, now;
    }
    if |listed.value| == 0 {
      lock.Exit();
      return Ok(Idle), stamp, check, now;
    }
    var gate;
    gate, stamp, check := governor.Gate(estimate);
    if gate.Raised? || gate.value.deferred {
      lock.Exit();
      return if gate.Raised? then Raised else Ok(Deferred(gate.value.deferUntil)), stamp, check, now;
    }
    var at := governor.ledger.clock.Now();
    now := at;
    var picked := PickIssue(listed.value, at, tick, quotaEvery);
    var promoted := backlog.Promote(picked.number);
    lock.Exit();
    r := if promoted.Raised? then Raised else Ok(Ran(picked.number));
  }
}
