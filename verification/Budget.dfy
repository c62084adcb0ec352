/**
 The budget ledger and governor as the objects the lanes hold: a shared spend table, an injected clock that
 never goes back, and the two clock reads of an admission kept apart. Each ledger call is proved to be a run
 of the interleaved protocol; the search for the instant the window frees is proved against a definition
 that does not mention the search.
 */
module Budget {
  import P = BudgetProtocol
  import opened Window
  import opened Wrappers

  class Clock {
    var instant: int

    /** The current instant: never before an earlier reading, otherwise arbitrary. */
    method Now() returns (t: int)
      modifies this
      ensures t == instant && old(instant) <= t
    {
      var reading: int := *;
      if instant < reading { instant := reading; }
      t := instant;
    }
  }

  /**
   The SQLite table every ledger instance writes. The ghost fields split its rows by the call that wrote them and
   count the statements that raised.
   */
  class SpendTable {
    var rows: seq<Charge>
    ghost var gated: seq<Charge>
    ghost var side: seq<Charge>
    ghost var raised: nat

    /** The database driver may raise at any statement. */
    method Execute() returns (fault: bool)
      modifies `raised
      ensures raised == old(raised) + if fault then 1 else 0
    {
      fault := *;
      if fault { raised := raised + 1; }
    }

    /** One more statement raised, or none did. */
    twostate predicate Counts(fault: bool)
      reads this
    {
      raised == old(raised) + if fault then 1 else 0
    }

    /** `charge` was written by a gated admission, or nothing was written. */
    twostate predicate Admitted(wrote: bool, charge: Charge)
      reads this
    {
      && rows == (if wrote then old(rows) + [charge] else old(rows))
      && gated == (if wrote then old(gated) + [charge] else old(gated))
      && side == old(side)
    }

    /** `charge` was written without a gate, or nothing was written. */
    twostate predicate Appended(wrote: bool, charge: Charge)
      reads this
    {
      && rows == (if wrote then old(rows) + [charge] else old(rows))
      && side == (if wrote then old(side) + [charge] else old(side))
      && gated == old(gated)
    }
  }

  ghost function StateOf(clock: Clock, table: SpendTable): P.Ledger
    reads clock, table
  {
    P.Ledger(clock.instant, table.rows, table.gated, table.side, None, map[])
  }

  // --- when the window frees ---

  ghost predicate Rejects(rows: seq<Charge>, amount: real, cap: real, from: int, to: int) {
    forall u | from <= u < to :: !Fits(rows, amount, cap, u)
  }

  /**
   What `window_frees_at` promises at instant `now`. Empty window: nothing to wait for. Amount that could
   fit but does not: the least instant at which it does. Amount above the cap: the instant the window
   empties. Amount that already fits: the oldest expiry.
   */
  ghost predicate FreesAt(rows: seq<Charge>, amount: real, cap: real, now: int, r: Option<int>) {
    var window := InWindow(rows, now - DAY);
    match r
    case None => window == []
    case Some(t) =>
      && window != [] && now < t
      && (amount <= cap && !Fits(rows, amount, cap, now) ==>
            Fits(rows, amount, cap, t) && Rejects(rows, amount, cap, now, t))
      && (amount > cap ==>
            && (forall c | c in window :: c.at + DAY <= t) && (exists c :: c in window && c.at + DAY == t))
      && (Fits(rows, amount, cap, now) ==>
            && (forall c | c in window :: t <= c.at + DAY) && (exists c :: c in window && c.at + DAY == t))
  }

  /** `ORDER BY spent_at ASC`; the order among equal stamps is the storage order here and never matters. */
  function Ordered(rows: seq<Charge>): (r: seq<Charge>)
    ensures Chronological(r) && multiset(r) == multiset(rows)
  {
    if rows == [] then []
    else
      assert rows == rows[..|rows| - 1] + [rows[|rows| - 1]];
      Placed(Ordered(rows[..|rows| - 1]), rows[|rows| - 1])
  }

  function Placed(rows: seq<Charge>, c: Charge): (r: seq<Charge>)
    requires Chronological(rows)
    ensures Chronological(r) && multiset(r) == multiset(rows) + multiset{c}
  {
    if rows == [] || rows[|rows| - 1].at <= c.at then rows + [c]
    else
      var front := rows[..|rows| - 1];
      assert rows == front + [rows[|rows| - 1]];
      var placed := Placed(front, c);
      assert forall x | x in placed :: x.at <= rows[|rows| - 1].at by {
        forall x | x in placed ensures x.at <= rows[|rows| - 1].at {
          assert x in multiset(placed);
          assert x in front || x == c;
        }
      }
      placed + [rows[|rows| - 1]]
  }

  ghost predicate IsWindow(rows: seq<Charge>, charges: seq<Charge>, now: int) {
    Chronological(charges) && multiset(charges) == multiset(InWindow(rows, now - DAY))
  }

  lemma SameTotals(rows: seq<Charge>, charges: seq<Charge>, now: int, u: int)
    requires IsWindow(rows, charges, now) && now <= u
    ensures Total(rows, u - DAY) == Total(charges, u - DAY)
  {
    TotalInWindow(rows, now - DAY, u - DAY);
    TotalOfPermutation(charges, InWindow(rows, now - DAY), u - DAY);
  }

  lemma SameMembers(rows: seq<Charge>, charges: seq<Charge>, now: int)
    requires IsWindow(rows, charges, now) && NonNegative(rows)
    ensures NonNegative(charges)
    ensures forall c :: c in charges <==> c in InWindow(rows, now - DAY)
    ensures forall c | c in charges :: c.at + DAY > now
    ensures charges != [] <==> InWindow(rows, now - DAY) != []
  {
    forall c ensures c in charges <==> c in InWindow(rows, now - DAY) {
      assert c in charges <==> c in multiset(charges);
    }
    assert |charges| == |multiset(charges)| == |InWindow(rows, now - DAY)|;
  }

  lemma {:induction false} SumOfSuffix(charges: seq<Charge>, k: nat)
    requires NonNegative(charges) && k <= |charges|
    ensures 0.0 <= Sum(charges[k..]) <= Sum(charges)
    decreases |charges|
  {
    if charges != [] {
      assert charges[0] in charges;
      if k == 0 {
        SumOfSuffix(charges[1..], 0);
        assert charges[1..][0..] == charges[1..];
        assert charges[0..] == charges;
      } else {
        SumOfSuffix(charges[1..], k - 1);
        assert charges[1..][k - 1..] == charges[k..];
      }
    }
  }

  /** Before the i-th oldest charge expires, it and everything younger still counts. */
  lemma StillFull(rows: seq<Charge>, amount: real, cap: real, now: int, charges: seq<Charge>, i: nat, u: int)
    requires NonNegative(rows) && IsWindow(rows, charges, now) && i < |charges|
    requires now <= u < charges[i].at + DAY
    requires if i == 0 then !Fits(rows, amount, cap, now) else Sum(charges[i..]) + amount > cap
    ensures !Fits(rows, amount, cap, u)
  {
    SameMembers(rows, charges, now);
    SameTotals(rows, charges, now, u);
    TotalFrom(charges, i, u - DAY);
    if i == 0 {
      SameTotals(rows, charges, now, now);
      SumBounds(charges, now - DAY);
      assert charges[0..] == charges;
    }
  }

  /** When the i-th oldest charge expires, it and everything older is gone. */
  lemma EmptyEnough(rows: seq<Charge>, amount: real, cap: real, now: int, charges: seq<Charge>, i: nat)
    requires NonNegative(rows) && IsWindow(rows, charges, now) && i < |charges|
    requires Sum(charges[i + 1..]) + amount <= cap
    ensures Fits(rows, amount, cap, charges[i].at + DAY) && amount <= cap && now < charges[i].at + DAY
  {
    SameMembers(rows, charges, now);
    assert charges[i] in charges;
    SumOfSuffix(charges, i + 1);
    SameTotals(rows, charges, now, charges[i].at + DAY);
    TotalFrom(charges, i + 1, charges[i].at);
  }

  /** If the amount fits already, the first charge's expiry is returned. */
  lemma FitsAtOnce(rows: seq<Charge>, amount: real, cap: real, now: int, charges: seq<Charge>, i: nat)
    requires NonNegative(rows) && IsWindow(rows, charges, now) && i < |charges|
    requires Fits(rows, amount, cap, now) && (i > 0 ==> Sum(charges[i..]) + amount > cap)
    ensures i == 0
  {
    SameMembers(rows, charges, now);
    SumOfSuffix(charges, i);
    SameTotals(rows, charges, now, now);
    assert charges[0] in charges;
    SumBounds(charges, now - DAY);
    assert Sum(charges[i..]) + amount <= Sum(charges) + amount == Total(charges, now - DAY) + amount <= cap;
  }

  /** The search stops at the first charge whose expiry makes room. */
  lemma StopsAtLeast(rows: seq<Charge>, amount: real, cap: real, now: int, charges: seq<Charge>, i: nat)
    requires NonNegative(rows) && IsWindow(rows, charges, now) && i < |charges|
    requires Sum(charges[i + 1..]) + amount <= cap && (i > 0 ==> Sum(charges[i..]) + amount > cap)
    ensures FreesAt(rows, amount, cap, now, Some(charges[i].at + DAY))
  {
    var t := charges[i].at + DAY;
    SameMembers(rows, charges, now);
    EmptyEnough(rows, amount, cap, now, charges, i);
    if Fits(rows, amount, cap, now) {
      FitsAtOnce(rows, amount, cap, now, charges, i);
      assert charges[0] in charges;
      forall c | c in InWindow(rows, now - DAY) ensures t <= c.at + DAY {
        assert c in charges;
        var k :| 0 <= k < |charges| && charges[k] == c;
      }
    } else {
      forall u | now <= u < t ensures !Fits(rows, amount, cap, u) {
        StillFull(rows, amount, cap, now, charges, i, u);
      }
    }
  }

  lemma NeverEnough(rows: seq<Charge>, amount: real, cap: real, now: int, charges: seq<Charge>)
    requires NonNegative(rows) && IsWindow(rows, charges, now) && charges != [] && amount > cap
    ensures FreesAt(rows, amount, cap, now, Some(charges[|charges| - 1].at + DAY))
  {
    SameMembers(rows, charges, now);
    var last := charges[|charges| - 1];
    assert last in charges;
    forall c | c in InWindow(rows, now - DAY) ensures c.at <= last.at {
      assert c in charges;
      var k :| 0 <= k < |charges| && charges[k] == c;
    }
    TotalAntitone(rows, now - DAY, now - DAY);
  }

  lemma NothingToWaitFor(rows: seq<Charge>, amount: real, cap: real, now: int, charges: seq<Charge>)
    requires IsWindow(rows, charges, now) && charges == []
    ensures FreesAt(rows, amount, cap, now, None)
  {
    assert |multiset(charges)| == |InWindow(rows, now - DAY)|;
  }

  lemma FitsLater(rows: seq<Charge>, amount: real, cap: real, a: int, b: int)
    requires NonNegative(rows) && a <= b && Fits(rows, amount, cap, a)
    ensures Fits(rows, amount, cap, b)
  {
    TotalAntitone(rows, a - DAY, b - DAY);
  }

  /** `FreesAt` leaves no choice: equal stamps and storage order cannot change the answer. */
  lemma FreesAtIsUnique(rows: seq<Charge>, amount: real, cap: real, now: int, a: Option<int>, b: Option<int>)
    requires NonNegative(rows) && FreesAt(rows, amount, cap, now, a) && FreesAt(rows, amount, cap, now, b)
    ensures a == b
  {
  }

  /** From `check` on, the amount fits at exactly the instants the deferral has passed. */
  ghost predicate ExactDeferral(rows: seq<Charge>, amount: real, cap: real, check: int, r: Option<int>) {
    r.Some? && forall u | check <= u :: Fits(rows, amount, cap, u) <==> r.value <= u
  }

  /**
   A charge that could fit is declined at `check`; the search reads the clock again, at `now`, with no charge in
   between. Its answer is exact if and only if the window has not freed in the meantime.
   */
  lemma DeferralIsExact(rows: seq<Charge>, amount: real, cap: real, check: int, now: int, r: Option<int>)
    requires NonNegative(rows) && check <= now && amount <= cap
    requires !Fits(rows, amount, cap, check) && FreesAt(rows, amount, cap, now, r)
    ensures ExactDeferral(rows, amount, cap, check, r) <==> !Fits(rows, amount, cap, now)
  {
    if Fits(rows, amount, cap, now) {
      assert r.Some? ==> now < r.value;
    } else {
      if r.None? { EmptyFits(rows, amount, cap, now); }
      forall u | check <= u ensures Fits(rows, amount, cap, u) <==> r.value <= u {
        FitsFrom(rows, amount, cap, now, r.value, u);
      }
    }
  }

  ghost predicate Emptied(rows: seq<Charge>, t: int) {
    InWindow(rows, t - DAY) == []
  }

  lemma EmptyFits(rows: seq<Charge>, amount: real, cap: real, now: int)
    requires Emptied(rows, now) && amount <= cap
    ensures Fits(rows, amount, cap, now)
  {
    TotalInWindow(rows, now - DAY, now - DAY);
  }

  lemma FitsFrom(rows: seq<Charge>, amount: real, cap: real, now: int, t: int, u: int)
    requires NonNegative(rows) && FreesAt(rows, amount, cap, now, Some(t))
    requires amount <= cap && !Fits(rows, amount, cap, now)
    ensures Fits(rows, amount, cap, u) <==> t <= u
  {
    if t <= u {
      FitsLater(rows, amount, cap, t, u);
    } else if u < now {
      if Fits(rows, amount, cap, u) { FitsLater(rows, amount, cap, u, now); }
    } else {
      assert Rejects(rows, amount, cap, now, t);
    }
  }

  /** What a decline at `check` comes with: the search's answer at `now`, exact unless the window freed in between. */
  ghost predicate Defers(rows: seq<Charge>, amount: real, cap: real, check: int, now: int, r: Option<int>) {
    && FreesAt(rows, amount, cap, now, r)
    && (amount <= cap ==> (ExactDeferral(rows, amount, cap, check, r) <==> !Fits(rows, amount, cap, now)))
  }

  /**
   A charge expires between the two readings: 9 next to 9 and 1 under 10 is declined at DAY - 1; from DAY on it fits,
   but the search at DAY waits for the 1 to expire too.
   */
  lemma DeferralTooLate()
    ensures var rows := [Charge(0, 9.0), Charge(5, 1.0)];
      && !Fits(rows, 9.0, 10.0, DAY - 1)
      && (forall u | DAY <= u :: Fits(rows, 9.0, 10.0, u))
      && (forall r :: FreesAt(rows, 9.0, 10.0, DAY, r) <==> r == Some(DAY + 5))
  {
    var a, b := Charge(0, 9.0), Charge(5, 1.0);
    var rows := [a, b];
    assert rows == [a] + [b];
    forall after: int ensures Total(rows, after) == Part(a, after) + Part(b, after) {
      TotalConcat([a], [b], after);
      TotalOne(a, after);
      TotalOne(b, after);
    }
    assert rows[..1] == [a] && [a][..0] == [];
    assert InWindow([a], DAY - DAY) == InWindow([], DAY - DAY) == [];
    assert InWindow(rows, DAY - DAY) == [] + [b] == [b];
    assert FreesAt(rows, 9.0, 10.0, DAY, Some(DAY + 5)) by { assert b in [b] && b.at + DAY == DAY + 5; }
    forall r | FreesAt(rows, 9.0, 10.0, DAY, r) ensures r == Some(DAY + 5) {
      FreesAtIsUnique(rows, 9.0, 10.0, DAY, r, Some(DAY + 5));
    }
  }

  /** The whole window expires between the readings: declined, and yet the search has no instant to name. */
  lemma DeferralMissing(amount: real, cap: real)
    requires 0.0 < amount <= cap
    ensures var rows := [Charge(0, cap)];
      NonNegative(rows) && !Fits(rows, amount, cap, DAY - 1) && FreesAt(rows, amount, cap, DAY, None)
  {
    var c := Charge(0, cap);
    TotalOne(c, DAY - 1 - DAY);
    assert [c][..0] == [] && InWindow([c], DAY - DAY) == [];
  }

  ghost predicate DeferralsExact(cap: real, gap: nat) {
    forall rows: seq<Charge>, amount: real, check: int, now: int, r: Option<int> ::
      NonNegative(rows) && check <= now <= check + gap && amount <= cap
      && !Fits(rows, amount, cap, check) && FreesAt(rows, amount, cap, now, r)
      ==> ExactDeferral(rows, amount, cap, check, r)
  }

  /** With the two readings at most `gap` apart every deferral is exact if and only if they coincide. */
  lemma DeferralsExactly(cap: real, gap: nat)
    requires cap > 0.0
    ensures DeferralsExact(cap, gap) <==> gap == 0
  {
    if gap == 0 {
      forall rows: seq<Charge>, amount: real, check: int, now: int, r: Option<int>
        | NonNegative(rows) && check <= now <= check + gap && amount <= cap
          && !Fits(rows, amount, cap, check) && FreesAt(rows, amount, cap, now, r)
        ensures ExactDeferral(rows, amount, cap, check, r)
      {
        DeferralIsExact(rows, amount, cap, check, now, r);
      }
    } else {
      DeferralMissing(cap, cap);
      assert !ExactDeferral([Charge(0, cap)], cap, cap, DAY - 1, None);
    }
  }

  /**
   A charge above the cap: the search names the first instant, from the decline on, at which the window is empty, if
   and only if the window is not empty when the search reads the clock.
   */
  lemma OversizedDeferralIsExact(rows: seq<Charge>, amount: real, cap: real, check: int, now: int, r: Option<int>)
    requires NonNegative(rows) && check <= now && amount > cap && FreesAt(rows, amount, cap, now, r)
    ensures (r.Some? && forall u | check <= u :: Emptied(rows, u) <==> r.value <= u) <==> !Emptied(rows, now)
  {
    if r.Some? {
      forall u | check <= u ensures Emptied(rows, u) <==> r.value <= u {
        if now <= u {
          OversizedWaitsForEmptyWindow(rows, amount, cap, now, r.value, u);
        } else {
          var c :| c in InWindow(rows, now - DAY) && c.at + DAY == r.value;
          assert c in InWindow(rows, u - DAY);
        }
      }
    }
  }

  /** A charge above the cap never fits; its deferral is the first instant with an empty window. */
  lemma OversizedWaitsForEmptyWindow(rows: seq<Charge>, amount: real, cap: real, now: int, t: int, u: int)
    requires NonNegative(rows) && FreesAt(rows, amount, cap, now, Some(t)) && amount > cap && now <= u
    ensures !Fits(rows, amount, cap, u)
    ensures Emptied(rows, u) <==> t <= u
  {
    TotalAntitone(rows, u - DAY, u - DAY);
    var last :| last in InWindow(rows, now - DAY) && last.at + DAY == t;
    if u < t {
      assert last in InWindow(rows, u - DAY);
    } else {
      forall c | c in rows ensures c.at <= u - DAY {
        if c.at > now - DAY { assert c in InWindow(rows, now - DAY); }
      }
      AllOut(rows, u - DAY);
    }
  }

  // --- the ledger ---

  class BudgetLedger {
    const table: SpendTable
    const clock: Clock
    const weeklyBudget: real
    const dailyCapFraction: real
    var connected: bool

    constructor (table: SpendTable, clock: Clock, weeklyBudget: real, dailyCapFraction: real)
      ensures this.table == table && this.clock == clock && !connected
      ensures this.weeklyBudget == weeklyBudget && this.dailyCapFraction == dailyCapFraction
    {
      this.table, this.clock := table, clock;
      this.weeklyBudget, this.dailyCapFraction := weeklyBudget, dailyCapFraction;
      connected := false;
    }

    function Cap(): (cap: real)
      ensures cap == weeklyBudget * dailyCapFraction
    {
      weeklyBudget * dailyCapFraction
    }

    /** Only the exact zero budget switches metering off. */
    predicate MeteringDisabled() {
      weeklyBudget == 0.0
    }

    /** The table and the clock are in a state the protocol's invariant allows. */
    ghost predicate Valid()
      reads table, clock
    {
      P.Inv(Cap(), StateOf(clock, table))
    }

    method Connect()
      modifies `connected
      ensures connected
    {
      if !connected { connected := true; }
    }

    method Close()
      modifies `connected
      ensures !connected
    {
      if connected { connected := false; }
    }

    /** Stamp first, then append under the lock: one ungated row, or none when the driver raises. */
    method RecordSpend(amount: real) returns (r: Result<()>, ghost stamp: int)
      modifies table, clock, `connected
      ensures old(clock.instant) <= stamp <= clock.instant
      ensures table.Appended(r.Ok?, Charge(stamp, amount)) && table.Counts(r.Raised?)
      ensures amount >= 0.0 ==> P.Reaches(Cap(), 0, old(StateOf(clock, table)), StateOf(clock, table))
      ensures amount >= 0.0 && old(Valid()) ==> Valid()
    {
      var at := clock.Now();
      stamp := at;
      Connect();
      var fault := table.Execute();
      if fault {
        r := Raised;
      } else {
        table.rows := table.rows + [Charge(at, amount)];
        table.side := table.side + [Charge(at, amount)];
        r := Ok(());
      }
      if amount >= 0.0 {
        AppendReaches(Cap(), old(StateOf(clock, table)), StateOf(clock, table), amount, at, r.Ok?);
        if old(Valid()) { ReachesKeepsInv(Cap(), 0, old(StateOf(clock, table)), StateOf(clock, table)); }
      }
    }

    method Trailing24hSpend() returns (total: real, ghost now: int)
      modifies clock, `connected
      ensures old(clock.instant) <= now == clock.instant
      ensures total == Total(table.rows, now - DAY)
    {
      Connect();
      var at := clock.Now();
      now := at;
      total := Total(table.rows, at - DAY);
    }

    /**
     Stamp, take the write lock, measure the window with a second clock read, then insert and commit or roll
     back. Admitted exactly when the amount fits at the second reading; recorded exactly when admitted.
     */
    method TryRecordIfWithinCap(amount: real) returns (r: Result<bool>, ghost stamp: int, ghost check: int)
      modifies table, clock, `connected
      ensures old(clock.instant) <= stamp <= check == clock.instant
      ensures r.Ok? ==> (r.value <==> Fits(old(table.rows), amount, Cap(), check))
      ensures table.Admitted(r == Ok(true), Charge(stamp, amount)) && table.Counts(r.Raised?)
      ensures amount >= 0.0 ==> P.Reaches(Cap(), check - stamp, old(StateOf(clock, table)), StateOf(clock, table))
      ensures amount >= 0.0 && old(Valid()) ==> Valid()
    {
      var at := clock.Now();
      stamp := at;
      Connect();
      var fault := table.Execute();
      var total, now := Trailing24hSpend();
      check := now;
      if fault {
        r := Raised;
      } else if total + amount > Cap() {
        r := Ok(false);
      } else {
        var pending := table.rows + [Charge(at, amount)];
        fault := table.Execute();
        if fault {
          r := Raised;
        } else {
          table.rows := pending;
          table.gated := table.gated + [Charge(at, amount)];
          r := Ok(true);
        }
      }
      if amount >= 0.0 {
        AdmitReaches(Cap(), old(StateOf(clock, table)), StateOf(clock, table), amount, at, r == Ok(true));
        if old(Valid()) { ReachesKeepsInv(Cap(), check - stamp, old(StateOf(clock, table)), StateOf(clock, table)); }
      }
    }

    method WouldExceed(amount: real) returns (exceeds: bool, ghost now: int)
      modifies clock, `connected
      ensures old(clock.instant) <= now == clock.instant
      ensures exceeds <==> !Fits(table.rows, amount, Cap(), now)
    {
      var total;
      total, now := Trailing24hSpend();
      exceeds := total + amount > Cap();
    }

    /** The oldest-first search; `FreesAt` states its answer without the search. */
    method WindowFreesAt(amount: real) returns (r: Option<int>, ghost now: int)
      modifies clock, `connected
      ensures old(clock.instant) <= now == clock.instant
      ensures NonNegative(table.rows) ==> FreesAt(table.rows, amount, Cap(), now, r)
    {
      var at := clock.Now();
      now := at;
      Connect();
      ghost var rows, cap := table.rows, Cap();
      var charges := Ordered(InWindow(table.rows, at - DAY));
      assert IsWindow(rows, charges, at);
      if |charges| == 0 {
        NothingToWaitFor(rows, amount, cap, at, charges);
        return None, now;
      }
      var trailing := Sum(charges);
      var freed := 0.0;
      var lastSpentAt := 0;
      assert charges[0..] == charges;
      for i := 0 to |charges|
        invariant trailing - freed == Sum(charges[i..])
        invariant i > 0 ==> Sum(charges[i..]) + amount > cap
        invariant i > 0 ==> lastSpentAt == charges[i - 1].at
      {
        lastSpentAt := charges[i].at;
        freed := freed + charges[i].amount;
        assert charges[i..][1..] == charges[i + 1..];
        if trailing - freed + amount <= Cap() {
          if NonNegative(rows) { StopsAtLeast(rows, amount, cap, at, charges, i); }
          return Some(charges[i].at + DAY), now;
        }
      }
      assert charges[|charges|..] == [];
      if NonNegative(rows) { NeverEnough(rows, amount, cap, at, charges); }
      return Some(lastSpentAt + DAY), now;
    }
  }

  // --- each call is a run of the protocol ---

  lemma ReachesKeepsInv(cap: real, gap: nat, s: P.Ledger, s': P.Ledger)
    requires P.Inv(cap, s) && P.Reaches(cap, gap, s, s')
    ensures P.Inv(cap, s')
  {
    var es :| P.Run(cap, s, es) && P.GapAtMost(gap, cap, s, es) && P.Final(cap, s, es) == s';
    P.InvRun(cap, s, es);
  }

  lemma TickReaches(cap: real, gap: nat, s: P.Ledger, now: int, s': P.Ledger)
    requires s.clock <= now && P.Reaches(cap, gap, s.(clock := now), s')
    ensures P.Reaches(cap, gap, s, s')
  {
    P.ReachBack(cap, gap, s, P.Tick(now), s');
  }

  lemma AdmitReaches(cap: real, s: P.Ledger, s': P.Ledger, amount: real, stamp: int, recorded: bool)
    requires s.calls == map[] && s.writer.None? && amount >= 0.0 && s.clock <= stamp <= s'.clock
    requires recorded ==> Total(s.rows, s'.clock - DAY) + amount <= cap
    requires var c := Charge(stamp, amount);
      s' == if recorded then P.Ledger(s'.clock, s.rows + [c], s.gated + [c], s.side, None, map[])
        else s.(clock := s'.clock)
    ensures P.Reaches(cap, s'.clock - stamp, s, s')
  {
    var gap := s'.clock - stamp;
    P.Reached(cap, gap, s');
    if recorded {
      P.Admit(cap, gap, s.(clock := stamp), amount, s'.clock, s');
      TickReaches(cap, gap, s, stamp, s');
    } else {
      TickReaches(cap, gap, s, s'.clock, s');
    }
  }

  lemma AppendReaches(cap: real, s: P.Ledger, s': P.Ledger, amount: real, stamp: int, recorded: bool)
    requires s.calls == map[] && s.writer.None? && amount >= 0.0 && s.clock <= stamp == s'.clock
    requires var c := Charge(stamp, amount);
      s' == if recorded then P.Ledger(stamp, s.rows + [c], s.gated, s.side + [c], None, map[]) else s.(clock := stamp)
    ensures P.Reaches(cap, 0, s, s')
  {
    P.Reached(cap, 0, s');
    var s1 := s.(clock := stamp);
    if recorded {
      var s2 := s1.(calls := map[0 := P.Stamped(stamp, amount, false)]);
      assert P.After(cap, s2, P.Append(0)) == s';
      P.ReachBack(cap, 0, s2, P.Append(0), s');
      assert P.After(cap, s1, P.Stamp(0, amount, false)) == s2;
      P.ReachBack(cap, 0, s1, P.Stamp(0, amount, false), s');
    }
    TickReaches(cap, 0, s, stamp, s');
  }

  // --- the governor ---

  datatype GateDecision = GateDecision(deferred: bool, deferUntil: Option<int>)

  class BudgetGovernor {
    const ledger: BudgetLedger

    constructor (ledger: BudgetLedger)
      ensures this.ledger == ledger
    {
      this.ledger := ledger;
    }

    /** Admit and charge, or defer with the instant the window frees; a disabled budget admits uncharged. */
    method Gate(estimate: real) returns (r: Result<GateDecision>, ghost stamp: int, ghost check: int)
      modifies ledger.table, ledger.clock, ledger`connected
      ensures ledger.weeklyBudget == 0.0 ==> r == Ok(GateDecision(false, None))
      ensures ledger.table.Admitted(
                ledger.weeklyBudget != 0.0 && r.Ok? && !r.value.deferred, Charge(stamp, estimate))
      ensures ledger.table.Counts(r.Raised?)
      ensures old(ledger.clock.instant) <= stamp <= check <= ledger.clock.instant
      ensures ledger.weeklyBudget != 0.0 ==>
        && (r.Ok? ==> (r.value.deferred <==> !Fits(old(ledger.table.rows), estimate, ledger.Cap(), check)))
        && (r.Ok? && !r.value.deferred ==> r.value.deferUntil == None)
        && (r.Ok? && r.value.deferred && NonNegative(ledger.table.rows) ==>
              Defers(ledger.table.rows, estimate, ledger.Cap(), check, ledger.clock.instant, r.value.deferUntil))
      ensures estimate >= 0.0 && old(ledger.Valid()) ==> ledger.Valid()
    {
      stamp, check := ledger.clock.instant, ledger.clock.instant;
      if ledger.MeteringDisabled() { return Ok(GateDecision(false, None)), stamp, check; }
      var admitted;
      admitted, stamp, check := ledger.TryRecordIfWithinCap(estimate);
      match admitted
      case Raised => r := Raised;
      case Ok(true) => r := Ok(GateDecision(false, None));
      case Ok(false) =>
        ghost var before := StateOf(ledger.clock, ledger.table);
        var until;
        ghost var now;
        until, now := ledger.WindowFreesAt(estimate);
        if NonNegative(ledger.table.rows) && estimate <= ledger.Cap() {
          DeferralIsExact(ledger.table.rows, estimate, ledger.Cap(), check, now, until);
        }
        ghost var after := StateOf(ledger.clock, ledger.table);
        P.Reached(ledger.Cap(), 0, after);
        TickReaches(ledger.Cap(), 0, before, after.clock, after);
        if P.Inv(ledger.Cap(), before) { ReachesKeepsInv(ledger.Cap(), 0, before, after); }
        r := Ok(GateDecision(true, until));
    }

    /** One ad-hoc build's flat charge: true exactly when it was recorded, or when metering is off. */
    method MeterAdhoc(amount: real) returns (r: Result<bool>, ghost stamp: int, ghost check: int)
      modifies ledger.table, ledger.clock, ledger`connected
      ensures ledger.weeklyBudget == 0.0 ==> r == Ok(true)
      ensures old(ledger.clock.instant) <= stamp <= check <= ledger.clock.instant
      ensures ledger.weeklyBudget != 0.0 ==>
        && check == ledger.clock.instant
        && (r.Ok? ==> (r.value <==> Fits(old(ledger.table.rows), amount, ledger.Cap(), check)))
      ensures ledger.table.Admitted(ledger.weeklyBudget != 0.0 && r == Ok(true), Charge(stamp, amount))
      ensures ledger.table.Counts(r.Raised?)
      ensures amount >= 0.0 && old(ledger.Valid()) ==> ledger.Valid()
    {
      stamp, check := ledger.clock.instant, ledger.clock.instant;
      if ledger.MeteringDisabled() { return Ok(true), stamp, check; }
      r, stamp, check := ledger.TryRecordIfWithinCap(amount);
    }

    /** A side charge is recorded whatever the window holds, unless metering is off. */
    method RecordCharge(amount: real) returns (r: Result<()>, ghost stamp: int)
      modifies ledger.table, ledger.clock, ledger`connected
      ensures ledger.weeklyBudget == 0.0 ==> r == Ok(())
      ensures old(ledger.clock.instant) <= stamp <= ledger.clock.instant
      ensures ledger.table.Appended(ledger.weeklyBudget != 0.0 && r.Ok?, Charge(stamp, amount))
      ensures ledger.table.Counts(r.Raised?)
      ensures amount >= 0.0 && old(ledger.Valid()) ==> ledger.Valid()
    {
      stamp := ledger.clock.instant;
      if ledger.MeteringDisabled() { return Ok(()), stamp; }
      r, stamp := ledger.RecordSpend(amount);
    }
  }
}
