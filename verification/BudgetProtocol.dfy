/**
 The spend table under concurrency: any number of ledger instances and calls, interleaved at the stamp read,
 the write lock, the cutoff read, the insert and the commit or rollback, under any non-decreasing clock.
 An instance's own asyncio lock only removes interleavings, so it is not modelled.
 */
module BudgetProtocol {
  import opened Window
  import opened Wrappers

  datatype Call =
    | Stamped(stamp: int, amount: real, gated: bool)             // clock read, waiting for the write lock
    | Locked(stamp: int, amount: real)                           // BEGIN IMMEDIATE returned
    | Measured(stamp: int, amount: real, cutoff: int)            // the second clock read
    | Inserted(stamp: int, amount: real, cutoff: int)            // fits; the insert is not committed yet

  /**
   `rows` are the committed rows. Two histories no statement reads: `gated` and `side` are those rows again,
   split by the call that wrote them (`try_record_if_within_cap` or `record_spend`).
   */
  datatype Ledger = Ledger(
    clock: int, rows: seq<Charge>, gated: seq<Charge>, side: seq<Charge>,
    writer: Option<nat>, calls: map<nat, Call>)

  datatype Event =
    | Tick(now: int)
    | Stamp(id: nat, amount: real, gated: bool)
    | Begin(id: nat)
    | Measure(id: nat)
    | Insert(id: nat)
    | Commit(id: nat)
    | Rollback(id: nat)        // over the cap, or any exception under the lock
    | Append(id: nat)          // `record_spend`: one autocommitted insert
    | Abandon(id: nat)         // busy timeout or cancellation before the lock

  predicate Enabled(cap: real, s: Ledger, e: Event) {
    match e
    case Tick(now) => now >= s.clock
    case Stamp(id, amount, _) => id !in s.calls && amount >= 0.0
    case Begin(id) => id in s.calls && s.calls[id].Stamped? && s.calls[id].gated && s.writer.None?
    case Measure(id) => id in s.calls && s.calls[id].Locked?
    case Insert(id) => id in s.calls && s.calls[id].Measured?
                       && Total(s.rows, s.calls[id].cutoff) + s.calls[id].amount <= cap
    case Commit(id) => id in s.calls && s.calls[id].Inserted?
    case Rollback(id) => id in s.calls && !s.calls[id].Stamped?
    case Append(id) => id in s.calls && s.calls[id].Stamped? && !s.calls[id].gated && s.writer.None?
    case Abandon(id) => id in s.calls && s.calls[id].Stamped?
  }

  function Row(c: Call): Charge {
    Charge(c.stamp, c.amount)
  }

  function Committed(s: Ledger, id: nat): Ledger
    requires id in s.calls
  {
    s.(rows := s.rows + [Row(s.calls[id])], gated := s.gated + [Row(s.calls[id])],
       calls := s.calls - {id}, writer := None)
  }

  function After(cap: real, s: Ledger, e: Event): Ledger
    requires Enabled(cap, s, e)
  {
    match e
    case Tick(now) => s.(clock := now)
    case Stamp(id, amount, gated) => s.(calls := s.calls[id := Stamped(s.clock, amount, gated)])
    case Begin(id) =>
      s.(calls := s.calls[id := Locked(s.calls[id].stamp, s.calls[id].amount)], writer := Some(id))
    case Measure(id) =>
      s.(calls := s.calls[id := Measured(s.calls[id].stamp, s.calls[id].amount, s.clock - DAY)])
    case Insert(id) =>
      s.(calls := s.calls[id := Inserted(s.calls[id].stamp, s.calls[id].amount, s.calls[id].cutoff)])
    case Commit(id) => Committed(s, id)
    case Rollback(id) => s.(calls := s.calls - {id}, writer := None)
    case Append(id) =>
      s.(rows := s.rows + [Row(s.calls[id])], side := s.side + [Row(s.calls[id])], calls := s.calls - {id})
    case Abandon(id) => s.(calls := s.calls - {id})
  }

  ghost predicate Run(cap: real, s: Ledger, es: seq<Event>)
    decreases |es|
  {
    es == [] || (Enabled(cap, s, es[0]) && Run(cap, After(cap, s, es[0]), es[1..]))
  }

  ghost function Final(cap: real, s: Ledger, es: seq<Event>): Ledger
    requires Run(cap, s, es)
    decreases |es|
  {
    if es == [] then s else Final(cap, After(cap, s, es[0]), es[1..])
  }

  predicate Fresh(s: Ledger) {
    s.rows == [] && s.gated == [] && s.side == [] && s.writer.None? && s.calls == map[]
  }

  /** A negative cap admits nothing, and an empty ledger is not below zero. */
  function Ceiling(cap: real): real {
    if cap < 0.0 then 0.0 else cap
  }

  // --- the trailing window at every reachable instant ---

  ghost predicate CallInv(cap: real, s: Ledger, id: nat, c: Call) {
    && c.amount >= 0.0
    && (c.Stamped? || s.writer == Some(id))
    && (c.Measured? || c.Inserted? ==> c.cutoff + DAY <= s.clock)
    && (c.Inserted? ==> Total(s.rows, c.cutoff) + c.amount <= cap)
  }

  ghost predicate TableInv(s: Ledger) {
    && NonNegative(s.gated) && NonNegative(s.side)
    && forall after: int :: Total(s.rows, after) == Total(s.gated, after) + Total(s.side, after)
  }

  ghost predicate Inv(cap: real, s: Ledger) {
    && TableInv(s)
    && (forall id | id in s.calls :: CallInv(cap, s, id, s.calls[id]))
    && Total(s.gated, s.clock - DAY) <= Ceiling(cap)
  }

  lemma TableAfterAppend(s: Ledger, s': Ledger, c: Charge, gated: bool)
    requires TableInv(s) && c.amount >= 0.0 && s'.rows == s.rows + [c]
    requires s'.gated == (if gated then s.gated + [c] else s.gated)
    requires s'.side == (if gated then s.side else s.side + [c])
    ensures TableInv(s')
  {
    forall after: int ensures Total(s'.rows, after) == Total(s'.gated, after) + Total(s'.side, after) {
      TotalSnoc(s.rows, c, after);
      TotalSnoc(s.gated, c, after);
      TotalSnoc(s.side, c, after);
    }
  }

  /** What a committing call knows: every gated charge still in its window leaves room for its own. */
  lemma RoomAtCommit(cap: real, s: Ledger, id: nat, after: int)
    requires TableInv(s) && id in s.calls && CallInv(cap, s, id, s.calls[id]) && s.calls[id].Inserted?
    requires s.calls[id].cutoff <= after
    ensures 0.0 <= Total(s.gated, after) <= cap - s.calls[id].amount
  {
    TotalAntitone(s.gated, s.calls[id].cutoff, after);
    TotalAntitone(s.side, s.calls[id].cutoff, s.calls[id].cutoff);
  }

  lemma CommitStaysWithin(cap: real, s: Ledger, id: nat)
    requires TableInv(s) && id in s.calls && CallInv(cap, s, id, s.calls[id]) && s.calls[id].Inserted?
    ensures Total(s.gated + [Row(s.calls[id])], s.clock - DAY) <= Ceiling(cap)
  {
    RoomAtCommit(cap, s, id, s.clock - DAY);
    TotalSnoc(s.gated, Row(s.calls[id]), s.clock - DAY);
  }

  /** One row appended by call `id`, gated or not, with the gated total still within the cap. */
  lemma AppendKeeps(cap: real, s: Ledger, s': Ledger, id: nat, gated: bool)
    requires Inv(cap, s) && id in s.calls && (s.writer.None? || s.writer == Some(id))
    requires s'.clock == s.clock && s'.calls == s.calls - {id} && s'.rows == s.rows + [Row(s.calls[id])]
    requires s'.gated == if gated then s.gated + [Row(s.calls[id])] else s.gated
    requires s'.side == if gated then s.side else s.side + [Row(s.calls[id])]
    requires Total(s'.gated, s'.clock - DAY) <= Ceiling(cap)
    ensures Inv(cap, s')
  {
    assert CallInv(cap, s, id, s.calls[id]);
    assert TableInv(s') by { TableAfterAppend(s, s', Row(s.calls[id]), gated); }
    OthersWait(cap, s, id, s');
  }

  /** While a call appends, no other call is past the lock. */
  lemma OthersWait(cap: real, s: Ledger, id: nat, s': Ledger)
    requires forall k | k in s.calls :: CallInv(cap, s, k, s.calls[k])
    requires id in s.calls && (s.writer.None? || s.writer == Some(id)) && s'.calls == s.calls - {id}
    ensures forall k | k in s'.calls :: CallInv(cap, s', k, s'.calls[k])
  {
    forall k | k in s'.calls ensures CallInv(cap, s', k, s'.calls[k]) {
      assert k != id && s'.calls[k] == s.calls[k];
      assert CallInv(cap, s, k, s.calls[k]);
      assert s.calls[k].Stamped?;
    }
  }

  /** Steps that leave the table alone: one call moves on or goes away. */
  lemma CallKeeps(cap: real, s: Ledger, s': Ledger, id: nat)
    requires Inv(cap, s) && s'.rows == s.rows && s'.gated == s.gated && s'.side == s.side && s'.clock == s.clock
    requires s'.calls - {id} == s.calls - {id}
    requires s'.writer == s.writer || s.writer == Some(id) || (s.writer.None? && s'.writer == Some(id))
    requires id in s'.calls ==> CallInv(cap, s', id, s'.calls[id])
    ensures Inv(cap, s')
  {
    forall k | k in s'.calls ensures CallInv(cap, s', k, s'.calls[k]) {
      if k != id {
        assert k in (s'.calls - {id}).Keys && s'.calls[k] == (s'.calls - {id})[k] == s.calls[k];
        assert CallInv(cap, s, k, s.calls[k]);
      }
    }
  }

  lemma CommitKeeps(cap: real, s: Ledger, id: nat)
    requires Inv(cap, s) && id in s.calls && s.calls[id].Inserted?
    ensures Inv(cap, Committed(s, id))
  {
    assert CallInv(cap, s, id, s.calls[id]);
    CommitStaysWithin(cap, s, id);
    AppendKeeps(cap, s, Committed(s, id), id, true);
  }

  lemma InvStep(cap: real, s: Ledger, e: Event)
    requires Inv(cap, s) && Enabled(cap, s, e)
    ensures Inv(cap, After(cap, s, e))
  {
    match e
    case Tick(now) => TotalAntitone(s.gated, s.clock - DAY, now - DAY);
    case Commit(id) => CommitKeeps(cap, s, id);
    case Append(id) => AppendKeeps(cap, s, After(cap, s, e), id, false);
    case Stamp(id, _, _) => CallKeeps(cap, s, After(cap, s, e), id);
    case Begin(id) => CallKeeps(cap, s, After(cap, s, e), id);
    case Measure(id) => CallKeeps(cap, s, After(cap, s, e), id);
    case Insert(id) => CallKeeps(cap, s, After(cap, s, e), id);
    case Rollback(id) => CallKeeps(cap, s, After(cap, s, e), id);
    case Abandon(id) => CallKeeps(cap, s, After(cap, s, e), id);
  }

  lemma {:induction false} InvRun(cap: real, s: Ledger, es: seq<Event>)
    requires Inv(cap, s) && Run(cap, s, es)
    ensures Inv(cap, Final(cap, s, es))
    decreases |es|
  {
    if es != [] {
      InvStep(cap, s, es[0]);
      InvRun(cap, After(cap, s, es[0]), es[1..]);
    }
  }

  /**
   At every reachable instant the gated charges of the trailing 24 hours are within the cap, and the whole
   table exceeds it by no more than the ungated charges still in that window.
   */
  lemma TrailingStaysWithinCap(cap: real, s: Ledger, es: seq<Event>)
    requires Fresh(s) && Run(cap, s, es)
    ensures var s' := Final(cap, s, es);
      && Total(s'.gated, s'.clock - DAY) <= Ceiling(cap)
      && Total(s'.rows, s'.clock - DAY) <= Ceiling(cap) + Total(s'.side, s'.clock - DAY)
  {
    InvRun(cap, s, es);
  }

  // --- every past window ---

  /** The two clock reads of every admitted call are at most `gap` apart. */
  ghost predicate GapAtMost(gap: nat, cap: real, s: Ledger, es: seq<Event>)
    requires Run(cap, s, es)
    decreases |es|
  {
    es == [] || (SmallGap(gap, cap, s, es[0]) && GapAtMost(gap, cap, After(cap, s, es[0]), es[1..]))
  }

  predicate SmallGap(gap: nat, cap: real, s: Ledger, e: Event)
    requires Enabled(cap, s, e)
  {
    e.Measure? ==> s.clock - s.calls[e.id].stamp <= gap
  }

  ghost predicate WindowsObey(charges: seq<Charge>, length: nat, cap: real) {
    forall lo, hi | hi == lo + length :: Between(charges, lo, hi) <= Ceiling(cap)
  }

  ghost predicate GapInv(gap: nat, s: Ledger) {
    forall id | id in s.calls && (s.calls[id].Measured? || s.calls[id].Inserted?) ::
      s.calls[id].cutoff + DAY - s.calls[id].stamp <= gap
  }

  lemma WindowStep(cap: real, gap: nat, length: nat, s: Ledger, e: Event)
    requires Inv(cap, s) && GapInv(gap, s) && WindowsObey(s.gated, length, cap) && length + gap <= DAY
    requires Enabled(cap, s, e) && SmallGap(gap, cap, s, e)
    ensures GapInv(gap, After(cap, s, e)) && WindowsObey(After(cap, s, e).gated, length, cap)
  {
    if e.Commit? {
      var c := s.calls[e.id];
      assert CallInv(cap, s, e.id, c);
      forall lo, hi | hi == lo + length ensures Between(s.gated + [Row(c)], lo, hi) <= Ceiling(cap) {
        BetweenSnoc(s.gated, Row(c), lo, hi);
        if lo < c.stamp <= hi {
          RoomAtCommit(cap, s, e.id, c.cutoff);
          BetweenAtMostTotal(s.gated, c.cutoff, lo, hi);
        }
      }
    }
  }

  lemma {:induction false} WindowRun(cap: real, gap: nat, length: nat, s: Ledger, es: seq<Event>)
    requires Inv(cap, s) && GapInv(gap, s) && WindowsObey(s.gated, length, cap) && length + gap <= DAY
    requires Run(cap, s, es) && GapAtMost(gap, cap, s, es)
    ensures WindowsObey(Final(cap, s, es).gated, length, cap)
    decreases |es|
  {
    if es != [] {
      InvStep(cap, s, es[0]);
      WindowStep(cap, gap, length, s, es[0]);
      WindowRun(cap, gap, length, After(cap, s, es[0]), es[1..]);
    }
  }

  ghost predicate Reaches(cap: real, gap: nat, s: Ledger, s': Ledger) {
    exists es :: Run(cap, s, es) && GapAtMost(gap, cap, s, es) && Final(cap, s, es) == s'
  }

  lemma Reached(cap: real, gap: nat, s: Ledger)
    ensures Reaches(cap, gap, s, s)
  {
    assert Run(cap, s, []) && GapAtMost(gap, cap, s, []) && Final(cap, s, []) == s;
  }

  lemma ReachBack(cap: real, gap: nat, s: Ledger, e: Event, s': Ledger)
    requires Enabled(cap, s, e) && SmallGap(gap, cap, s, e) && Reaches(cap, gap, After(cap, s, e), s')
    ensures Reaches(cap, gap, s, s')
  {
    var es :| Run(cap, After(cap, s, e), es) && GapAtMost(gap, cap, After(cap, s, e), es)
              && Final(cap, After(cap, s, e), es) == s';
    var all := [e] + es;
    assert all[0] == e && all[1..] == es;
    assert Run(cap, s, all) && GapAtMost(gap, cap, s, all) && Final(cap, s, all) == s';
  }

  lemma {:induction false} RunOn(cap: real, gap: nat, wider: nat, a: Ledger, es: seq<Event>, b: Ledger, c: Ledger)
    requires Run(cap, a, es) && GapAtMost(gap, cap, a, es) && Final(cap, a, es) == b
    requires gap <= wider && Reaches(cap, wider, b, c)
    ensures Reaches(cap, wider, a, c)
    decreases |es|
  {
    if es != [] {
      RunOn(cap, gap, wider, After(cap, a, es[0]), es[1..], b, c);
      ReachBack(cap, wider, a, es[0], c);
    }
  }

  lemma ReachThen(cap: real, gap: nat, wider: nat, a: Ledger, b: Ledger, c: Ledger)
    requires Reaches(cap, gap, a, b) && Reaches(cap, wider, b, c) && gap <= wider
    ensures Reaches(cap, wider, a, c)
  {
    var es :| Run(cap, a, es) && GapAtMost(gap, cap, a, es) && Final(cap, a, es) == b;
    RunOn(cap, gap, wider, a, es, b, c);
  }

  function Empty(clock: int): Ledger {
    Ledger(clock, [], [], [], None, map[])
  }

  /** One admitted call from stamp to commit, the clock moving to `now` before it gets the lock. */
  lemma Admit(cap: real, gap: nat, s: Ledger, amount: real, now: int, s': Ledger)
    requires s.calls == map[] && s.writer.None? && amount >= 0.0 && s.clock <= now <= s.clock + gap
    requires Total(s.rows, now - DAY) + amount <= cap
    requires var c := Charge(s.clock, amount);
      Reaches(cap, gap, Ledger(now, s.rows + [c], s.gated + [c], s.side, None, map[]), s')
    ensures Reaches(cap, gap, s, s')
  {
    var c := Charge(s.clock, amount);
    var s1 := s.(calls := map[0 := Stamped(s.clock, amount, true)]);
    var s2 := s1.(clock := now);
    var s3 := s2.(calls := map[0 := Locked(s.clock, amount)], writer := Some(0));
    var s4 := s3.(calls := map[0 := Measured(s.clock, amount, now - DAY)]);
    var s5 := s4.(calls := map[0 := Inserted(s.clock, amount, now - DAY)]);
    var s6 := Ledger(now, s.rows + [c], s.gated + [c], s.side, None, map[]);
    assert After(cap, s5, Commit(0)) == s6;
    ReachBack(cap, gap, s5, Commit(0), s');
    assert After(cap, s4, Insert(0)) == s5;
    ReachBack(cap, gap, s4, Insert(0), s');
    assert After(cap, s3, Measure(0)) == s4;
    ReachBack(cap, gap, s3, Measure(0), s');
    assert After(cap, s2, Begin(0)) == s3;
    ReachBack(cap, gap, s2, Begin(0), s');
    assert After(cap, s1, Tick(now)) == s2;
    ReachBack(cap, gap, s1, Tick(now), s');
    assert After(cap, s, Stamp(0, amount, true)) == s1;
    ReachBack(cap, gap, s, Stamp(0, amount, true), s');
  }

  /** The charge at 0 has just left the window measured at DAY, but lies within `length` of the late stamp. */
  lemma GapOvershoots(cap: real, gap: nat, length: nat)
    requires cap > 0.0 && length > 0 && length + gap > DAY
    ensures exists s' :: Reaches(cap, gap, Empty(0), s') && !WindowsObey(s'.gated, length, cap)
  {
    var late := if gap > DAY then 0 else DAY - gap;
    var a, b := Charge(0, cap), Charge(late, cap);
    var s1 := Ledger(0, [a], [a], [], None, map[]);
    var s2 := s1.(clock := late);
    var s3 := Ledger(DAY, [a, b], [a, b], [], None, map[]);
    assert [] + [a] == [a] && [a] + [b] == [a, b];
    Reached(cap, gap, s3);
    TotalOne(a, DAY - DAY);
    Admit(cap, gap, s2, cap, DAY, s3);
    assert After(cap, s1, Tick(late)) == s2;
    ReachBack(cap, gap, s1, Tick(late), s3);
    assert Empty(0).rows == [] && Total([], 0 - DAY) == 0.0;
    assert Empty(0).rows + [a] == [a];
    Admit(cap, gap, Empty(0), cap, 0, s3);
    BetweenSnoc([], a, late - length, late);
    BetweenSnoc([a], b, late - length, late);
    assert Between([a, b], late - length, late) == cap + cap;
  }

  /**
   The 24h promise about the past, exactly: with stamp and check at most `gap` apart, every window of `length`
   obeys the cap on every run if and only if `length + gap` is within 24 hours. A gap of zero gives the full
   window; a single microsecond of lock wait already breaks it.
   */
  lemma PastWindowsObeyExactly(cap: real, gap: nat, length: nat)
    requires cap > 0.0 && length > 0
    ensures (forall s, s' | Fresh(s) && Reaches(cap, gap, s, s') :: WindowsObey(s'.gated, length, cap))
            <==> length + gap <= DAY
  {
    if length + gap <= DAY {
      forall s, s' | Fresh(s) && Reaches(cap, gap, s, s') ensures WindowsObey(s'.gated, length, cap) {
        var es :| Run(cap, s, es) && GapAtMost(gap, cap, s, es) && Final(cap, s, es) == s';
        WindowRun(cap, gap, length, s, es);
      }
    } else {
      GapOvershoots(cap, gap, length);
      assert Fresh(Empty(0));
    }
  }
}
