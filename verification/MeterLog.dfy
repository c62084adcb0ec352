/**
 The drain's metering, build by build: what each coroutine asked the shared budget, what it was answered, and what
 the answers amount to in the spend table.
 */
module MeterLog {
  import Budget
  import P = BudgetProtocol
  import opened Window
  import opened Wrappers

  /** `off` says that metering is switched off. */
  datatype Meter = Meter(off: bool, cap: real, amount: real)

  /** One coroutine: its two clock readings, whether its issue was handed to `build`, whether it raised. */
  datatype Ask = Ask(number: nat, stamp: int, check: int, handed: bool, raised: bool)

  function Asked(asks: seq<Ask>): seq<nat> {
    if asks == [] then [] else Asked(asks[..|asks| - 1]) + [asks[|asks| - 1].number]
  }

  /** The issues handed to `build`, in the order they were asked for. */
  function Handed(asks: seq<Ask>): seq<nat> {
    if asks == [] then []
    else Handed(asks[..|asks| - 1]) + if asks[|asks| - 1].handed then [asks[|asks| - 1].number] else []
  }

  /** One of the first `n` coroutines raised. */
  ghost predicate RaisedBefore(asks: seq<Ask>, n: int) {
    exists i :: 0 <= i < |asks| && i < n && asks[i].raised
  }

  lemma RaisedSnoc(asks: seq<Ask>, a: Ask, n: int)
    ensures RaisedBefore(asks + [a], n) <==> RaisedBefore(asks, n) || (a.raised && |asks| < n)
  {
    var all := asks + [a];
    assert forall i | 0 <= i < |asks| :: all[i] == asks[i];
    assert all[|asks|] == a;
  }

  /** One row of the amount per handed issue, stamped at its first reading; none when metering is off. */
  function Charges(m: Meter, asks: seq<Ask>): seq<Charge> {
    if asks == [] then []
    else Charges(m, asks[..|asks| - 1])
         + if asks[|asks| - 1].handed && !m.off then [Charge(asks[|asks| - 1].stamp, m.amount)] else []
  }

  /** Handed exactly when the amount fit next to `rows` at the second reading, or always when metering is off. */
  predicate Answered(m: Meter, rows: seq<Charge>, a: Ask) {
    if m.off then a.handed
    else
      && (a.handed ==> Fits(rows, m.amount, m.cap, a.check))
      && (!a.handed && !a.raised ==> !Fits(rows, m.amount, m.cap, a.check))
  }

  /** The asks followed one another between `from` and `to`, each answered by the rows of its time. */
  predicate Metered(m: Meter, rows: seq<Charge>, from: int, asks: seq<Ask>, to: int)
    decreases |asks|
  {
    if asks == [] then from <= to
    else
      var front, a := asks[..|asks| - 1], asks[|asks| - 1];
      Metered(m, rows, from, front, a.stamp) && a.stamp <= a.check <= to && Answered(m, rows + Charges(m, front), a)
  }

  /** The shared table went from `s` to `s'` by these asks alone: every charge gated, none on the side. */
  ghost predicate Spends(m: Meter, s: P.Ledger, asks: seq<Ask>, s': P.Ledger) {
    && Metered(m, s.rows, s.clock, asks, s'.clock)
    && s' == s.(clock := s'.clock, rows := s.rows + Charges(m, asks), gated := s.gated + Charges(m, asks))
  }

  lemma SpendsNothing(m: Meter, s: P.Ledger)
    ensures Spends(m, s, [], s)
  {
    assert s.rows + [] == s.rows && s.gated + [] == s.gated;
  }

  lemma Snoc(m: Meter, asks: seq<Ask>, a: Ask)
    ensures Asked(asks + [a]) == Asked(asks) + [a.number]
    ensures Handed(asks + [a]) == Handed(asks) + if a.handed then [a.number] else []
    ensures Charges(m, asks + [a]) == Charges(m, asks) + Charges(m, [a])
  {
    assert (asks + [a])[..|asks|] == asks;
    assert [a][..0] == [];
  }

  lemma SpendsThen(m: Meter, s: P.Ledger, asks: seq<Ask>, mid: P.Ledger, a: Ask, s': P.Ledger)
    requires Spends(m, s, asks, mid) && Spends(m, mid, [a], s')
    ensures Spends(m, s, asks + [a], s')
  {
    Snoc(m, asks, a);
    assert (asks + [a])[..|asks|] == asks;
    assert [a][..0] == [];
    assert mid.rows + Charges(m, []) == mid.rows;
    assert Metered(m, mid.rows, mid.clock, [], a.stamp);
    LaterMetered(m, s.rows, s.clock, asks, mid.clock, a.stamp);
    assert s.rows + (Charges(m, asks) + Charges(m, [a])) == s.rows + Charges(m, asks) + Charges(m, [a]);
    assert s.gated + (Charges(m, asks) + Charges(m, [a])) == s.gated + Charges(m, asks) + Charges(m, [a]);
  }

  lemma LaterMetered(m: Meter, rows: seq<Charge>, from: int, asks: seq<Ask>, to: int, later: int)
    requires Metered(m, rows, from, asks, to) && to <= later
    ensures Metered(m, rows, from, asks, later)
  {
  }

  /** `some` is `all` with elements left out: the same order. */
  ghost predicate InOrder(some: seq<nat>, all: seq<nat>) {
    if all == [] then some == []
    else
      || InOrder(some, all[..|all| - 1])
      || (some != [] && some[|some| - 1] == all[|all| - 1] && InOrder(some[..|some| - 1], all[..|all| - 1]))
  }

  /** What is handed keeps the rank order of what was asked for. */
  lemma {:induction false} HandedInOrder(asks: seq<Ask>)
    ensures InOrder(Handed(asks), Asked(asks))
  {
    if asks != [] {
      var front, a := asks[..|asks| - 1], asks[|asks| - 1];
      HandedInOrder(front);
      assert (Asked(front) + [a.number])[..|Asked(front)|] == Asked(front);
      if a.handed {
        assert (Handed(front) + [a.number])[..|Handed(front)|] == Handed(front);
      } else {
        assert Handed(front) + [] == Handed(front);
      }
    }
  }

  /** Nobody who could not be afforded is charged: as many rows as builds, each of the amount. */
  lemma {:induction false} ChargedPerHanded(m: Meter, asks: seq<Ask>)
    ensures |Charges(m, asks)| == if m.off then 0 else |Handed(asks)|
    ensures forall c | c in Charges(m, asks) :: c.amount == m.amount
  {
    if asks != [] { ChargedPerHanded(m, asks[..|asks| - 1]); }
  }

  lemma {:induction false} MeteredForward(m: Meter, rows: seq<Charge>, from: int, asks: seq<Ask>, to: int)
    requires Metered(m, rows, from, asks, to)
    ensures from <= to
    decreases |asks|
  {
    if asks != [] { MeteredForward(m, rows, from, asks[..|asks| - 1], asks[|asks| - 1].stamp); }
  }

  /**
   The whole of it is a run of the budget protocol in which both readings of every call are no further apart than
   the drain took: what holds of all its runs holds of the drain's charges.
   */
  lemma {:induction false} SpendsReaches(m: Meter, s: P.Ledger, asks: seq<Ask>, s': P.Ledger)
    requires Spends(m, s, asks, s') && m.amount >= 0.0 && s.calls == map[] && s.writer.None?
    ensures s.clock <= s'.clock && P.Reaches(m.cap, s'.clock - s.clock, s, s')
    decreases |asks|
  {
    MeteredForward(m, s.rows, s.clock, asks, s'.clock);
    var gap := s'.clock - s.clock;
    if asks == [] {
      assert s.rows + [] == s.rows && s.gated + [] == s.gated;
      assert s' == s.(clock := s'.clock);
      P.Reached(m.cap, gap, s');
      Budget.TickReaches(m.cap, gap, s, s'.clock, s');
    } else {
      var front, a := asks[..|asks| - 1], asks[|asks| - 1];
      assert asks == front + [a];
      var mid := s.(clock := a.stamp, rows := s.rows + Charges(m, front), gated := s.gated + Charges(m, front));
      SpendsReaches(m, s, front, mid);
      LastAsk(m, s, mid, front, a, s');
      P.Reached(m.cap, gap, s');
      P.ReachThen(m.cap, s'.clock - mid.clock, gap, mid, s', s');
      P.ReachThen(m.cap, mid.clock - s.clock, gap, s, mid, s');
    }
  }

  lemma LastAsk(m: Meter, s: P.Ledger, mid: P.Ledger, front: seq<Ask>, a: Ask, s': P.Ledger)
    requires Spends(m, s, front + [a], s') && m.amount >= 0.0 && s.calls == map[] && s.writer.None?
    requires mid == s.(clock := a.stamp, rows := s.rows + Charges(m, front), gated := s.gated + Charges(m, front))
    ensures a.stamp <= s'.clock && P.Reaches(m.cap, s'.clock - a.stamp, mid, s')
  {
    assert (front + [a])[..|front|] == front;
    Snoc(m, front, a);
    assert [a][..0] == [];
    var recorded := a.handed && !m.off;
    var c := Charge(a.stamp, m.amount);
    assert Charges(m, [a]) == if recorded then [c] else [];
    assert s.rows + (Charges(m, front) + Charges(m, [a])) == mid.rows + Charges(m, [a]);
    assert s.gated + (Charges(m, front) + Charges(m, [a])) == mid.gated + Charges(m, [a]);
    if recorded {
      P.Reached(m.cap, s'.clock - a.check, s');
      RecordedAsk(m, mid, a, s');
    } else {
      assert mid.rows + [] == mid.rows && mid.gated + [] == mid.gated;
      Budget.AdmitReaches(m.cap, mid, s', m.amount, a.stamp, false);
    }
  }

  /** An admitted charge is committed at its second reading; the clock may have gone on since. */
  lemma RecordedAsk(m: Meter, mid: P.Ledger, a: Ask, s': P.Ledger)
    requires mid.calls == map[] && mid.writer.None? && m.amount >= 0.0 && mid.clock == a.stamp <= a.check <= s'.clock
    requires Fits(mid.rows, m.amount, m.cap, a.check)
    requires var c := Charge(a.stamp, m.amount);
      s' == P.Ledger(s'.clock, mid.rows + [c], mid.gated + [c], mid.side, None, map[])
    ensures P.Reaches(m.cap, s'.clock - a.stamp, mid, s')
  {
    var gap := s'.clock - a.stamp;
    P.Reached(m.cap, gap, s');
    Budget.TickReaches(m.cap, gap, s'.(clock := a.check), s'.clock, s');
    P.Admit(m.cap, gap, mid, m.amount, a.check, s');
  }
}
