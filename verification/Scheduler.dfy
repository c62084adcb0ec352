/** The two-queue, reserved-slot selection of retinue/scheduler.py. */
module Scheduler {
  import opened RepoConfig
  import opened Wrappers

  datatype Candidate = Candidate(number: int, labels: seq<string>)

  /** The first component of `_rank_key`; the candidate's number is the second. */
  function TierRankOf(config: RepoConfig): Candidate -> nat {
    (c: Candidate) => TierRank(config, TierOf(config, c.labels))
  }

  function UrgentIn(config: RepoConfig): Candidate -> bool {
    (c: Candidate) => IsPriorityTier(config, TierOf(config, c.labels))
  }

  predicate KeyLess(rank: Candidate -> nat, c: Candidate, d: Candidate) {
    rank(c) < rank(d) || (rank(c) == rank(d) && c.number < d.number)
  }

  // --- `sorted(candidates, key=_rank_key)`: a stable sort ---

  function Insert(rank: Candidate -> nat, c: Candidate, ranked: seq<Candidate>): seq<Candidate> {
    if ranked == [] || !KeyLess(rank, ranked[0], c) then [c] + ranked
    else [ranked[0]] + Insert(rank, c, ranked[1..])
  }

  function Sorted(rank: Candidate -> nat, candidates: seq<Candidate>): seq<Candidate> {
    if candidates == [] then [] else Insert(rank, candidates[0], Sorted(rank, candidates[1..]))
  }

  function Keep(test: Candidate -> bool, cs: seq<Candidate>, want: bool): seq<Candidate> {
    if cs == [] then []
    else (if test(cs[0]) == want then [cs[0]] else []) + Keep(test, cs[1..], want)
  }

  function Rank(config: RepoConfig, candidates: seq<Candidate>): seq<Candidate> {
    Sorted(TierRankOf(config), candidates)
  }

  function PartitionQueues(config: RepoConfig, candidates: seq<Candidate>): (seq<Candidate>, seq<Candidate>) {
    var ranked := Rank(config, candidates);
    (Keep(UrgentIn(config), ranked, true), Keep(UrgentIn(config), ranked, false))
  }

  function Min(a: int, b: int): int { if a <= b then a else b }

  /** Python's `queue[:n]` for a non-negative `n`. */
  function Take(queue: seq<Candidate>, n: nat): seq<Candidate> { queue[..Min(n, |queue|)] }

  /** The slot arithmetic of `select_to_build`, over the two ranked queues. */
  function FillSlots(priority: seq<Candidate>, main: seq<Candidate>, cap: Option<int>): seq<Candidate> {
    match cap
    case None => priority + main
    case Some(n) =>
      if n <= 1 then Take(priority + main, if n < 0 then 0 else n)
      else
        var pTake := Take(priority, n);
        var remaining := n - |pTake|;
        pTake + Take(main, Min(n - 1, remaining))
  }

  function SelectToBuild(config: RepoConfig, candidates: seq<Candidate>, cap: Option<int>): seq<Candidate> {
    var (priority, main) := PartitionQueues(config, candidates);
    FillSlots(priority, main, cap)
  }

  // --- what the selection is, without naming queues ---

  ghost predicate Ranked(rank: Candidate -> nat, cs: seq<Candidate>) {
    forall i, j | 0 <= i < j < |cs| :: !KeyLess(rank, cs[j], cs[i])
  }

  /** How many candidates a pass starts. */
  function SelectCount(n: nat, cap: Option<int>, anyUrgent: bool): (k: nat)
    ensures k <= n
  {
    match cap
    case None => n
    case Some(c) =>
      if c <= 0 then 0
      else if c == 1 || anyUrgent then Min(n, c)
      else Min(n, c - 1)
  }

  lemma {:induction false} InsertRanked(rank: Candidate -> nat, c: Candidate, ranked: seq<Candidate>)
    requires Ranked(rank, ranked)
    ensures Ranked(rank, Insert(rank, c, ranked))
    ensures multiset(Insert(rank, c, ranked)) == multiset(ranked) + multiset{c}
  {
    if ranked != [] && KeyLess(rank, ranked[0], c) {
      InsertRanked(rank, c, ranked[1..]);
      var rest := Insert(rank, c, ranked[1..]);
      assert ranked == [ranked[0]] + ranked[1..];
      forall j | 0 <= j < |rest| ensures !KeyLess(rank, rest[j], ranked[0]) {
        assert rest[j] in multiset(rest);
        assert rest[j] == c || rest[j] in ranked[1..];
      }
    }
  }

  lemma SameElements<T>(a: seq<T>, b: seq<T>)
    requires multiset(a) == multiset(b)
    ensures |a| == |b| && forall x :: x in a <==> x in b
  {
    assert |multiset(a)| == |multiset(b)|;
    forall x ensures x in a <==> x in b {
      assert x in a <==> x in multiset(a);
    }
  }

  lemma {:induction false} SortedIsPermutation(rank: Candidate -> nat, cs: seq<Candidate>)
    ensures Ranked(rank, Sorted(rank, cs)) && multiset(Sorted(rank, cs)) == multiset(cs)
  {
    if cs != [] {
      SortedIsPermutation(rank, cs[1..]);
      InsertRanked(rank, cs[0], Sorted(rank, cs[1..]));
      assert cs == [cs[0]] + cs[1..];
    }
  }

  lemma SortedSorts(rank: Candidate -> nat, cs: seq<Candidate>)
    ensures Ranked(rank, Sorted(rank, cs)) && multiset(Sorted(rank, cs)) == multiset(cs)
    ensures |Sorted(rank, cs)| == |cs|
    ensures forall c :: c in Sorted(rank, cs) <==> c in cs
  {
    SortedIsPermutation(rank, cs);
    SameElements(Sorted(rank, cs), cs);
  }

  lemma {:induction false} KeepNone(test: Candidate -> bool, cs: seq<Candidate>)
    requires forall i | 0 <= i < |cs| :: !test(cs[i])
    ensures Keep(test, cs, true) == [] && Keep(test, cs, false) == cs
  {
    if cs != [] { KeepNone(test, cs[1..]); }
  }

  /** In rank order the urgent candidates lead, so the two queues concatenate to the order itself. */
  lemma {:induction false} QueuesConcatenate(rank: Candidate -> nat, test: Candidate -> bool, k: nat,
      cs: seq<Candidate>)
    requires Ranked(rank, cs) && forall c :: test(c) <==> rank(c) < k
    ensures Keep(test, cs, true) + Keep(test, cs, false) == cs
    ensures Keep(test, cs, true) != [] <==> exists c :: c in cs && test(c)
  {
    if cs != [] {
      QueuesConcatenate(rank, test, k, cs[1..]);
      if test(cs[0]) {
        assert Keep(test, cs, true) == [cs[0]] + Keep(test, cs[1..], true);
        assert cs[0] in cs;
      } else {
        forall i | 0 <= i < |cs| ensures !test(cs[i]) {
          assert i > 0 ==> !KeyLess(rank, cs[i], cs[0]);
        }
        KeepNone(test, cs);
      }
    }
  }

  /** Filling the slots from two queues takes a prefix of their concatenation. */
  lemma FillSlotsIsPrefix(priority: seq<Candidate>, main: seq<Candidate>, cap: Option<int>)
    ensures FillSlots(priority, main, cap) == (priority + main)[..SelectCount(|priority + main|, cap, priority != [])]
  {
    if cap.Some? && cap.value >= 2 {
      var n := cap.value;
      var k := Min(n - 1, n - |Take(priority, n)|);
      assert k >= 0;
      assert Take(priority, n) + Take(main, k) == (priority + main)[..|Take(priority, n)| + |Take(main, k)|];
    }
  }

  lemma UrgentIsTop(config: RepoConfig)
    requires Validated(config)
    ensures forall c :: UrgentIn(config)(c) <==> TierRankOf(config)(c) < |config.priorityTiers|
  {
    forall c: Candidate ensures UrgentIn(config)(c) <==> TierRankOf(config)(c) < |config.priorityTiers| {
      PriorityIsTopRanks(config, TierOf(config, c.labels));
    }
  }

  ghost predicate AnyUrgent(config: RepoConfig, cs: seq<Candidate>) {
    exists c :: c in cs && UrgentIn(config)(c)
  }

  /** The selection is a prefix of the one global rank order, of a length fixed by the cap and the urgency. */
  lemma SelectIsRankPrefix(config: RepoConfig, cs: seq<Candidate>, cap: Option<int>)
    requires Validated(config)
    ensures |Rank(config, cs)| == |cs|
    ensures SelectToBuild(config, cs, cap) == Rank(config, cs)[..SelectCount(|cs|, cap, AnyUrgent(config, cs))]
  {
    SortedSorts(TierRankOf(config), cs);
    UrgentIsTop(config);
    QueuesConcatenate(TierRankOf(config), UrgentIn(config), |config.priorityTiers|, Rank(config, cs));
    var (priority, main) := PartitionQueues(config, cs);
    FillSlotsIsPrefix(priority, main, cap);
  }

  lemma LeastIsFirst(rank: Candidate -> nat, a: seq<Candidate>, c: Candidate)
    requires Ranked(rank, a) && c in a
    ensures !KeyLess(rank, c, a[0])
  {
    var i :| 0 <= i < |a| && a[i] == c;
    assert i > 0 ==> !KeyLess(rank, a[i], a[0]);
  }

  lemma TailsMatch(a: seq<Candidate>, b: seq<Candidate>)
    requires a != [] && b != [] && multiset(a) == multiset(b) && a[0] == b[0]
    ensures multiset(a[1..]) == multiset(b[1..])
  {
    assert a == [a[0]] + a[1..] && b == [b[0]] + b[1..];
    assert multiset(a[1..]) == multiset(a) - multiset{a[0]};
    assert multiset(b[1..]) == multiset(b) - multiset{b[0]};
  }

  lemma {:induction false} StrictOrderUnique(rank: Candidate -> nat, a: seq<Candidate>, b: seq<Candidate>)
    requires Ranked(rank, a) && Ranked(rank, b) && multiset(a) == multiset(b)
    requires forall c, d | c in b && d in b && c.number == d.number :: c == d
    ensures a == b
  {
    SameElements(a, b);
    if a != [] {
      LeastIsFirst(rank, a, b[0]);
      LeastIsFirst(rank, b, a[0]);
      assert a[0] == b[0];
      TailsMatch(a, b);
      assert forall c | c in b[1..] :: c in b;
      StrictOrderUnique(rank, a[1..], b[1..]);
      assert a == [a[0]] + a[1..] && b == [b[0]] + b[1..];
    }
  }

  /** With distinct issue numbers the selection does not depend on the order the candidates were listed in. */
  lemma SelectIgnoresInputOrder(config: RepoConfig, a: seq<Candidate>, b: seq<Candidate>, cap: Option<int>)
    requires multiset(a) == multiset(b)
    requires forall i, j | 0 <= i < |a| && 0 <= j < |a| && a[i].number == a[j].number :: i == j
    ensures SelectToBuild(config, a, cap) == SelectToBuild(config, b, cap)
  {
    var rank := TierRankOf(config);
    SortedSorts(rank, a);
    SortedSorts(rank, b);
    forall c, d | c in Sorted(rank, b) && d in Sorted(rank, b) && c.number == d.number ensures c == d {
      assert c in multiset(b) && d in multiset(b);
      assert c in a && d in a;
    }
    StrictOrderUnique(rank, Sorted(rank, a), Sorted(rank, b));
  }

  /** The two facts the lane relies on: how many are started, and that urgent candidates are started first. */
  ghost predicate UrgentFirst(config: RepoConfig, started: seq<Candidate>, cs: seq<Candidate>) {
    forall c, d | c in cs && d in started && UrgentIn(config)(c) && !UrgentIn(config)(d) :: c in started
  }

  /** In a prefix of the rank order nobody urgent is left out for somebody who is not. */
  lemma UrgentLead(rank: Candidate -> nat, urgent: Candidate -> bool, top: nat, ranked: seq<Candidate>, n: nat,
      c: Candidate, d: Candidate)
    requires Ranked(rank, ranked) && n <= |ranked| && forall x :: urgent(x) <==> rank(x) < top
    requires c in ranked && d in ranked[..n] && urgent(c) && !urgent(d)
    ensures c in ranked[..n]
  {
    var i :| 0 <= i < |ranked| && ranked[i] == c;
    var j :| 0 <= j < n && ranked[..n][j] == d;
    assert ranked[j] == d && KeyLess(rank, c, d);
    assert i <= j;
    assert ranked[..n][i] == c;
  }

  lemma SelectionIsLaneChoice(config: RepoConfig, cs: seq<Candidate>, cap: Option<int>)
    requires Validated(config)
    ensures var started := SelectToBuild(config, cs, cap);
      && |started| == SelectCount(|cs|, cap, AnyUrgent(config, cs))
      && (forall c | c in started :: c in cs)
      && UrgentFirst(config, started, cs)
  {
    var rank, urgent, ranked := TierRankOf(config), UrgentIn(config), Rank(config, cs);
    var n := SelectCount(|cs|, cap, AnyUrgent(config, cs));
    SelectIsRankPrefix(config, cs, cap);
    SortedSorts(rank, cs);
    UrgentIsTop(config);
    var started := ranked[..n];
    assert SelectToBuild(config, cs, cap) == started;
    forall c, d | c in cs && d in started && urgent(c) && !urgent(d) ensures c in started {
      UrgentLead(rank, urgent, |config.priorityTiers|, ranked, n, c, d);
    }
  }

  lemma {:induction false} DistinctCounts<T>(s: seq<T>)
    requires forall i, j | 0 <= i < j < |s| :: s[i] != s[j]
    ensures forall x :: multiset(s)[x] <= 1
  {
    if s != [] {
      var front, last := s[..|s| - 1], s[|s| - 1];
      DistinctCounts(front);
      assert s == front + [last];
      assert last !in front;
      assert last !in multiset(front);
    }
  }

  lemma CountsDistinct<T>(s: seq<T>, i: nat, j: nat)
    requires (forall x :: multiset(s)[x] <= 1) && i < j < |s|
    ensures s[i] != s[j]
  {
    assert s == s[..j] + s[j..];
    assert s[i] in s[..j] && s[j] in s[j..];
    assert multiset(s)[s[j]] == multiset(s[..j])[s[j]] + multiset(s[j..])[s[j]];
    assert s[i] in multiset(s[..j]) && s[j] in multiset(s[j..]);
  }

  /** Not after: a smaller tier rank, or the same and not a larger number. */
  predicate NotAfter(config: RepoConfig, c: Candidate, d: Candidate) {
    var a, b := TierRank(config, TierOf(config, c.labels)), TierRank(config, TierOf(config, d.labels));
    a < b || (a == b && c.number <= d.number)
  }

  /** Builds are started by tier rank, ties by ascending number. */
  lemma SelectionIsOrdered(config: RepoConfig, cs: seq<Candidate>, cap: Option<int>, i: nat, j: nat)
    requires Validated(config) && i < j < |SelectToBuild(config, cs, cap)|
    ensures NotAfter(config, SelectToBuild(config, cs, cap)[i], SelectToBuild(config, cs, cap)[j])
  {
    SelectIsRankPrefix(config, cs, cap);
    SortedSorts(TierRankOf(config), cs);
    var ranked := Rank(config, cs);
    assert !KeyLess(TierRankOf(config), ranked[j], ranked[i]);
  }

  /** Nobody left out comes before anybody started. */
  lemma NobodyJumped(config: RepoConfig, cs: seq<Candidate>, cap: Option<int>, c: Candidate, d: Candidate)
    requires Validated(config) && c in cs && c !in SelectToBuild(config, cs, cap) && d in SelectToBuild(config, cs, cap)
    ensures NotAfter(config, d, c)
  {
    var rank, ranked := TierRankOf(config), Rank(config, cs);
    var started := SelectToBuild(config, cs, cap);
    SelectIsRankPrefix(config, cs, cap);
    SortedSorts(rank, cs);
    var i :| 0 <= i < |ranked| && ranked[i] == c;
    var j :| 0 <= j < |started| && started[j] == d;
    assert ranked[j] == d;
    assert !KeyLess(rank, ranked[i], ranked[j]);
  }

  /** No candidate is started twice. */
  lemma StartedOnce(config: RepoConfig, cs: seq<Candidate>, cap: Option<int>, i: nat, j: nat)
    requires Validated(config) && (forall a, b | 0 <= a < b < |cs| :: cs[a] != cs[b])
    requires i < j < |SelectToBuild(config, cs, cap)|
    ensures SelectToBuild(config, cs, cap)[i] != SelectToBuild(config, cs, cap)[j]
  {
    SelectIsRankPrefix(config, cs, cap);
    SortedSorts(TierRankOf(config), cs);
    DistinctCounts(cs);
    CountsDistinct(Rank(config, cs), i, j);
  }

  /** A prefix of the rank order that holds anybody at all holds somebody urgent, if there is one. */
  lemma UrgentIsFirst(rank: Candidate -> nat, urgent: Candidate -> bool, top: nat, ranked: seq<Candidate>, u: Candidate)
    requires Ranked(rank, ranked) && (forall x :: urgent(x) <==> rank(x) < top) && u in ranked && urgent(u)
    ensures urgent(ranked[0])
  {
    var i :| 0 <= i < |ranked| && ranked[i] == u;
    assert i > 0 ==> !KeyLess(rank, ranked[i], ranked[0]);
  }

  lemma {:induction false} NonUrgentFewer(test: Candidate -> bool, cs: seq<Candidate>)
    requires cs != [] && test(cs[0])
    ensures |Keep(test, cs, false)| < |cs|
  {
    KeepPartitions(test, cs);
  }

  /** The reserved slot: with a cap of two or more, the non-urgent candidates started leave one slot free. */
  lemma ReservedSlot(config: RepoConfig, cs: seq<Candidate>, cap: nat)
    requires Validated(config) && cap >= 2
    ensures |Keep(UrgentIn(config), SelectToBuild(config, cs, Some(cap)), false)| <= cap - 1
  {
    var rank, urgent, ranked := TierRankOf(config), UrgentIn(config), Rank(config, cs);
    var n := SelectCount(|cs|, Some(cap), AnyUrgent(config, cs));
    SelectIsRankPrefix(config, cs, Some(cap));
    SortedSorts(rank, cs);
    UrgentIsTop(config);
    KeepPartitions(urgent, ranked[..n]);
    if AnyUrgent(config, cs) && n > 0 {
      var u: Candidate :| u in cs && urgent(u);
      UrgentIsFirst(rank, urgent, |config.priorityTiers|, ranked, u);
      NonUrgentFewer(urgent, ranked[..n]);
    }
  }

  lemma {:induction false} KeepPartitions(test: Candidate -> bool, cs: seq<Candidate>)
    ensures |Keep(test, cs, true)| + |Keep(test, cs, false)| == |cs|
  {
    if cs != [] { KeepPartitions(test, cs[1..]); }
  }

  /**
   The validator's prefix rule is needed, not just enough: with unique slug tiers, as soon as some tier is
   urgent while a more severe one is not, two candidates are started against the rank order.
   */
  lemma PrefixRuleNeeded(config: RepoConfig, i: nat, j: nat)
    requires ValidSeverityTiers(config.severityTiers) && i < j < |config.severityTiers|
    requires config.severityTiers[j] in config.priorityTiers && config.severityTiers[i] !in config.priorityTiers
    ensures exists cs: seq<Candidate> :: SelectToBuild(config, cs, None) != Rank(config, cs)
  {
    var rank, urgent := TierRankOf(config), UrgentIn(config);
    var c := Candidate(1, [PRIORITY_LABEL_PREFIX + config.severityTiers[i]]);
    var d := Candidate(2, [PRIORITY_LABEL_PREFIX + config.severityTiers[j]]);
    OneLabelTier(config, i);
    OneLabelTier(config, j);
    TwoCandidates(rank, urgent, c, d);
    assert SelectToBuild(config, [c, d], None) == [d, c];
    assert [d, c][0] != [c, d][0];
  }

  lemma OneLabelTier(config: RepoConfig, i: nat)
    requires ValidSeverityTiers(config.severityTiers) && i < |config.severityTiers|
    ensures TierOf(config, [PRIORITY_LABEL_PREFIX + config.severityTiers[i]]) == Some(config.severityTiers[i])
    ensures TierRank(config, Some(config.severityTiers[i])) == i
  {
    var text := PRIORITY_LABEL_PREFIX + config.severityTiers[i];
    assert text[|PRIORITY_LABEL_PREFIX|..] == config.severityTiers[i];
    assert [text][0] == text;
  }

  lemma TwoCandidates(rank: Candidate -> nat, urgent: Candidate -> bool, c: Candidate, d: Candidate)
    requires rank(c) < rank(d) && !urgent(c) && urgent(d)
    ensures Sorted(rank, [c, d]) == [c, d]
    ensures Keep(urgent, [c, d], true) == [d] && Keep(urgent, [c, d], false) == [c]
  {
    var none: seq<Candidate> := [];
    assert [c, d][1..] == [d] && [d][1..] == none;
    assert Sorted(rank, [d]) == Insert(rank, d, none) == [d];
    assert Keep(urgent, none, true) == none && Keep(urgent, none, false) == none;
    assert Keep(urgent, [d], true) == [d] + none && Keep(urgent, [d], false) == none + none;
  }
}
