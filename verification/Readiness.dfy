/**
 Blocked-by readiness with its shared closed-state cache, against the definition without one. The body's
 `#N` references come parsed; issues may be closed and reopened between any two queries, and any query may raise.
 */
module Readiness {
  import opened Wrappers

  datatype BlockableIssue = BlockableIssue(number: nat, bodyRefs: seq<nat>)

  /** A closed-state query and the state GitHub was in when it was asked; None when it raised. */
  datatype Query = Query(issue: nat, closed: Option<bool>)

  /** The readiness queries; `asked` logs every closed-state query made. */
  class ReadinessGh {
    const native: nat -> seq<nat>
    var asked: seq<Query>
    ghost var raised: nat         // how many queries of either kind raised

    constructor (native: nat -> seq<nat>)
      ensures this.native == native && asked == []
    {
      this.native, asked, raised := native, [], 0;
    }

    method NativeBlockers(issue: nat) returns (r: Result<seq<nat>>)
      modifies `raised
      ensures r.Ok? ==> r.value == native(issue)
      ensures raised == old(raised) + if r.Raised? then 1 else 0
    {
      var fails: bool := *;
      if fails { raised := raised + 1; }
      r := if fails then Raised else Ok(native(issue));
    }

    /** Any answer: the issue's state now, whatever it was before. */
    method IsClosed(issue: nat) returns (r: Result<bool>)
      modifies this
      ensures asked == old(asked) + [Query(issue, if r.Ok? then Some(r.value) else None)]
      ensures raised == old(raised) + if r.Raised? then 1 else 0
    {
      var fails: bool, closed: bool := *, *;
      if fails { raised := raised + 1; }
      r := if fails then Raised else Ok(closed);
      asked := asked + [Query(issue, if r.Ok? then Some(r.value) else None)];
    }
  }

  // --- the definition, without a cache ---

  /** Who the body or GitHub names, but for the issue itself. */
  function Blockers(native: nat -> seq<nat>, c: BlockableIssue): (bs: set<nat>)
    ensures forall b :: b in bs <==> (b in c.bodyRefs || b in native(c.number)) && b != c.number
  {
    (set b | b in c.bodyRefs) + (set b | b in native(c.number)) - {c.number}
  }

  /** Whether candidate `i` speaks for its number: a later one with the same number replaces it. */
  predicate IsLast(cs: seq<BlockableIssue>, i: nat) {
    i < |cs| && forall j | i < j < |cs| :: cs[j].number != cs[i].number
  }

  /** `n` is ready: the candidate that speaks for it has only closed blockers. */
  ghost predicate IsReady(native: nat -> seq<nat>, closed: set<nat>, cs: seq<BlockableIssue>, n: nat) {
    exists i: nat :: IsLast(cs, i) && cs[i].number == n && Blockers(native, cs[i]) <= closed
  }

  ghost predicate IsBlockerOfSome(native: nat -> seq<nat>, cs: seq<BlockableIssue>, b: nat) {
    exists i: nat :: IsLast(cs, i) && b in Blockers(native, cs[i])
  }

  // --- the computation ---

  /** `blockers_by_issue` after the candidates so far. */
  ghost predicate Collected(native: nat -> seq<nat>, cs: seq<BlockableIssue>, dict: map<nat, set<nat>>) {
    && (forall n | n in dict ::
          exists i: nat :: IsLast(cs, i) && cs[i].number == n && dict[n] == Blockers(native, cs[i]))
    && (forall i | 0 <= i < |cs| :: cs[i].number in dict)
  }

  lemma CollectedSnoc(native: nat -> seq<nat>, cs: seq<BlockableIssue>, dict: map<nat, set<nat>>, c: BlockableIssue)
    requires Collected(native, cs, dict)
    ensures Collected(native, cs + [c], dict[c.number := Blockers(native, c)])
  {
    var all, dict' := cs + [c], dict[c.number := Blockers(native, c)];
    forall n | n in dict'
      ensures exists i: nat :: IsLast(all, i) && all[i].number == n && dict'[n] == Blockers(native, all[i])
    {
      if n == c.number {
        assert IsLast(all, |cs|) && all[|cs|] == c;
      } else {
        var i: nat :| IsLast(cs, i) && cs[i].number == n && dict[n] == Blockers(native, cs[i]);
        assert all[i] == cs[i];
        assert IsLast(all, i);
      }
    }
  }

  lemma LastHasEntry(native: nat -> seq<nat>, cs: seq<BlockableIssue>, dict: map<nat, set<nat>>, i: nat)
    requires Collected(native, cs, dict) && IsLast(cs, i)
    ensures cs[i].number in dict && dict[cs[i].number] == Blockers(native, cs[i])
  {
    assert cs[i].number in dict;
    var j: nat :| IsLast(cs, j) && cs[j].number == cs[i].number && dict[cs[i].number] == Blockers(native, cs[j]);
  }

  method CollectBlockers(gh: ReadinessGh, candidates: seq<BlockableIssue>) returns (r: Result<map<nat, set<nat>>>)
    modifies gh`raised
    ensures r.Ok? ==> Collected(gh.native, candidates, r.value)
    ensures gh.raised == old(gh.raised) + if r.Raised? then 1 else 0
  {
    var dict: map<nat, set<nat>> := map[];
    for i := 0 to |candidates|
      invariant Collected(gh.native, candidates[..i], dict) && gh.raised == old(gh.raised)
    {
      var c := candidates[i];
      var native :- gh.NativeBlockers(c.number);
      var union := (set b | b in c.bodyRefs) + (set b | b in native) - {c.number};
      CollectedSnoc(gh.native, candidates[..i], dict, c);
      assert candidates[..i + 1] == candidates[..i] + [c];
      dict := dict[c.number := union];
    }
    assert candidates[..|candidates|] == candidates;
    r := Ok(dict);
  }

  /** No issue is asked about twice. */
  ghost predicate AskedOnce(log: seq<Query>) {
    forall i, j | 0 <= i < j < |log| :: log[i].issue != log[j].issue
  }

  /** The issues that were closed when they were asked about. */
  ghost function ClosedWhenAsked(log: seq<Query>): set<nat> {
    set q | q in log && q.closed == Some(true) :: q.issue
  }

  ghost predicate CacheIs(cache: map<nat, bool>, log: seq<Query>) {
    && AskedOnce(log)
    && (forall q | q in log :: q.issue in cache && q.closed == Some(cache[q.issue]))
    && (forall b | b in cache :: Query(b, Some(cache[b])) in log)
  }

  lemma CacheSnoc(cache: map<nat, bool>, log: seq<Query>, q: Query)
    requires CacheIs(cache, log) && q.issue !in cache
    ensures AskedOnce(log + [q])
    ensures q.closed.Some? ==> CacheIs(cache[q.issue := q.closed.value], log + [q])
  {
    forall i, j | 0 <= i < j < |log + [q]| ensures (log + [q])[i].issue != (log + [q])[j].issue {
      assert (log + [q])[i] in log;
    }
  }

  /** Ask for one issue's blockers, skipping those already in the cache. */
  method FillCache(gh: ReadinessGh, blockers: set<nat>, cache0: map<nat, bool>, ghost log0: seq<Query>)
    returns (r: Result<map<nat, bool>>, ghost log: seq<Query>)
    requires CacheIs(cache0, log0)
    modifies gh
    ensures exists more :: log == log0 + more && gh.asked == old(gh.asked) + more
    ensures AskedOnce(log) && forall q | q in log :: q in log0 || q.issue in blockers
    ensures r.Ok? ==> CacheIs(r.value, log) && forall b | b in blockers || b in cache0 :: b in r.value
    ensures gh.raised == old(gh.raised) + if r.Raised? then 1 else 0
  {
    var cache, left := cache0, blockers;
    ghost var more := [];
    log := log0 + more;
    while left != {}
      invariant left <= blockers && log == log0 + more && gh.asked == old(gh.asked) + more
      invariant gh.raised == old(gh.raised)
      invariant CacheIs(cache, log)
      invariant forall q | q in log :: q in log0 || q.issue in blockers
      invariant forall b | b in cache0 || (b in blockers && b !in left) :: b in cache
      decreases left
    {
      var b :| b in left;
      left := left - {b};
      if b !in cache {
        ghost var before := log;
        var closed := gh.IsClosed(b);
        ghost var q := Query(b, if closed.Ok? then Some(closed.value) else None);
        more := more + [q];
        log := log0 + more;
        assert log == before + [q];
        CacheSnoc(cache, before, q);
        if closed.Raised? { return Raised, log; }
        cache := cache[b := closed.value];
      }
    }
    r := Ok(cache);
  }

  ghost predicate InDict(dict: map<nat, set<nat>>, b: nat) {
    exists n :: n in dict && b in dict[n]
  }

  /** The second loop: every blocker of every candidate into the cache, each asked once. */
  method QueryAll(gh: ReadinessGh, dict: map<nat, set<nat>>) returns (r: Result<map<nat, bool>>, ghost log: seq<Query>)
    modifies gh
    ensures gh.asked == old(gh.asked) + log && AskedOnce(log) && forall q | q in log :: InDict(dict, q.issue)
    ensures r.Ok? ==> CacheIs(r.value, log) && forall b | InDict(dict, b) :: b in r.value
    ensures gh.raised == old(gh.raised) + if r.Raised? then 1 else 0
  {
    log := [];
    var cache: map<nat, bool> := map[];
    var left := dict.Keys;
    while left != {}
      invariant left <= dict.Keys && gh.asked == old(gh.asked) + log && gh.raised == old(gh.raised)
      invariant CacheIs(cache, log) && forall q | q in log :: InDict(dict, q.issue)
      invariant forall n, b | n in dict && n !in left && b in dict[n] :: b in cache
      decreases left
    {
      var n :| n in left;
      left := left - {n};
      r, log := FillCache(gh, dict[n], cache, log);
      if r.Raised? { return; }
      cache := r.value;
    }
    r := Ok(cache);
  }

  /** The third loop's answer, from the cache, is the definition's. */
  lemma CacheAnswers(native: nat -> seq<nat>, log: seq<Query>, cs: seq<BlockableIssue>,
      dict: map<nat, set<nat>>, cache: map<nat, bool>, n: nat)
    requires Collected(native, cs, dict) && (forall b | InDict(dict, b) :: b in cache) && CacheIs(cache, log)
    ensures (n in dict && forall b | b in dict[n] :: b in cache && cache[b])
       <==> IsReady(native, ClosedWhenAsked(log), cs, n)
  {
    CachedIsClosed(cache, log);
    if n in dict {
      forall b | b in dict[n] ensures b in cache { assert InDict(dict, b); }
      var i: nat :| IsLast(cs, i) && cs[i].number == n && dict[n] == Blockers(native, cs[i]);
    }
    if IsReady(native, ClosedWhenAsked(log), cs, n) {
      var i: nat :| IsLast(cs, i) && cs[i].number == n && Blockers(native, cs[i]) <= ClosedWhenAsked(log);
      LastHasEntry(native, cs, dict, i);
    }
  }

  lemma CachedIsClosed(cache: map<nat, bool>, log: seq<Query>)
    requires CacheIs(cache, log)
    ensures forall b :: b in ClosedWhenAsked(log) <==> b in cache && cache[b]
  {
    forall b | b in cache && cache[b] ensures b in ClosedWhenAsked(log) {
      assert Query(b, Some(true)) in log;
    }
  }

  lemma DictHoldsBlockers(native: nat -> seq<nat>, cs: seq<BlockableIssue>, dict: map<nat, set<nat>>, b: nat)
    requires Collected(native, cs, dict)
    ensures InDict(dict, b) <==> IsBlockerOfSome(native, cs, b)
  {
    if InDict(dict, b) {
      var n :| n in dict && b in dict[n];
      var i: nat :| IsLast(cs, i) && cs[i].number == n && dict[n] == Blockers(native, cs[i]);
    }
    if IsBlockerOfSome(native, cs, b) {
      var i: nat :| IsLast(cs, i) && b in Blockers(native, cs[i]);
      LastHasEntry(native, cs, dict, i);
    }
  }

  /**
   The cached resolution equals the definition: it asks about each distinct blocker at most once and about nothing
   else, when it succeeds about every one of them, and an issue is ready exactly when each of its blockers was
   closed when it was asked about, whatever changed in between.
   */
  method ResolveReady(gh: ReadinessGh, candidates: seq<BlockableIssue>)
      returns (r: Result<set<nat>>, ghost log: seq<Query>)
    modifies gh
    ensures gh.asked == old(gh.asked) + log && AskedOnce(log)
    ensures forall q | q in log :: IsBlockerOfSome(gh.native, candidates, q.issue)
    ensures r.Ok? ==> forall n :: n in r.value <==> IsReady(gh.native, ClosedWhenAsked(log), candidates, n)
    ensures gh.raised == old(gh.raised) + if r.Raised? then 1 else 0
    ensures r.Ok? ==>
      forall b | IsBlockerOfSome(gh.native, candidates, b) :: exists q :: q in log && q.issue == b && q.closed.Some?
  {
    log := [];
    var dict :- CollectBlockers(gh, candidates);
    forall b ensures InDict(dict, b) <==> IsBlockerOfSome(gh.native, candidates, b) {
      DictHoldsBlockers(gh.native, candidates, dict, b);
    }
    var queried;
    queried, log := QueryAll(gh, dict);
    if queried.Raised? { return Raised, log; }
    var cache := queried.value;
    var ready := set n | n in dict && forall b | b in dict[n] :: b in cache && cache[b];
    forall n ensures n in ready <==> IsReady(gh.native, ClosedWhenAsked(log), candidates, n) {
      CacheAnswers(gh.native, log, candidates, dict, cache, n);
    }
    forall b | IsBlockerOfSome(gh.native, candidates, b)
      ensures exists q :: q in log && q.issue == b && q.closed.Some?
    {
      assert Query(b, Some(cache[b])) in log;
    }
    r := Ok(ready);
  }
}
