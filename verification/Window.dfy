/** Charges in the spend table and their trailing-24h totals. Instants are microseconds, amounts exact. */
module Window {
  datatype Charge = Charge(at: int, amount: real)

  /** 24 hours. */
  const DAY := 24 * 60 * 60 * 1_000_000

  predicate NonNegative(rows: seq<Charge>) {
    forall c | c in rows :: c.amount >= 0.0
  }

  predicate Chronological(rows: seq<Charge>) {
    forall i, j | 0 <= i < j < |rows| :: rows[i].at <= rows[j].at
  }

  function Part(c: Charge, after: int): real {
    if c.at > after then c.amount else 0.0
  }

  /** `SELECT COALESCE(SUM(amount), 0) ... WHERE spent_at > after`. */
  function Total(rows: seq<Charge>, after: int): real {
    if rows == [] then 0.0 else Total(rows[..|rows| - 1], after) + Part(rows[|rows| - 1], after)
  }

  /** What was charged in the half-open window from `lo` (excluded) to `hi`. */
  function Between(rows: seq<Charge>, lo: int, hi: int): real {
    if rows == [] then 0.0
    else Between(rows[..|rows| - 1], lo, hi) + (if rows[|rows| - 1].at <= hi then Part(rows[|rows| - 1], lo) else 0.0)
  }

  /** Whether `amount` fits under `cap` next to what is still in the window at instant `t`. */
  predicate Fits(rows: seq<Charge>, amount: real, cap: real, t: int) {
    Total(rows, t - DAY) + amount <= cap
  }

  lemma TotalSnoc(rows: seq<Charge>, c: Charge, after: int)
    ensures Total(rows + [c], after) == Total(rows, after) + Part(c, after)
  {
    assert (rows + [c])[..|rows|] == rows;
  }

  lemma BetweenSnoc(rows: seq<Charge>, c: Charge, lo: int, hi: int)
    ensures Between(rows + [c], lo, hi) == Between(rows, lo, hi) + (if c.at <= hi then Part(c, lo) else 0.0)
  {
    assert (rows + [c])[..|rows|] == rows;
  }

  lemma {:induction false} TotalAntitone(rows: seq<Charge>, a: int, b: int)
    requires NonNegative(rows) && a <= b
    ensures 0.0 <= Total(rows, b) <= Total(rows, a)
  {
    if rows != [] {
      assert rows[|rows| - 1] in rows;
      TotalAntitone(rows[..|rows| - 1], a, b);
    }
  }

  lemma {:induction false} BetweenAtMostTotal(rows: seq<Charge>, after: int, lo: int, hi: int)
    requires NonNegative(rows) && after <= lo
    ensures 0.0 <= Between(rows, lo, hi) <= Total(rows, after)
  {
    if rows != [] {
      assert rows[|rows| - 1] in rows;
      BetweenAtMostTotal(rows[..|rows| - 1], after, lo, hi);
    }
  }

  lemma {:induction false} TotalConcat(a: seq<Charge>, b: seq<Charge>, after: int)
    ensures Total(a + b, after) == Total(a, after) + Total(b, after)
  {
    if b == [] {
      assert a + b == a;
    } else {
      assert (a + b)[..|a + b| - 1] == a + b[..|b| - 1];
      TotalConcat(a, b[..|b| - 1], after);
    }
  }

  lemma TotalOne(c: Charge, after: int)
    ensures Total([c], after) == Part(c, after)
  {
    assert [c][..0] == [];
  }

  /** The sum does not depend on the order the rows come back in. */
  lemma {:induction false} TotalOfPermutation(a: seq<Charge>, b: seq<Charge>, after: int)
    requires multiset(a) == multiset(b)
    ensures Total(a, after) == Total(b, after)
    decreases |a|
  {
    if a == [] {
      assert b == [] by { assert |multiset(b)| == |b|; }
    } else {
      var n := |a| - 1;
      var x := a[n];
      assert x in multiset(b);
      var i :| 0 <= i < |b| && b[i] == x;
      assert a == a[..n] + [x];
      assert b == b[..i] + [x] + b[i + 1..];
      assert multiset(a[..n]) == multiset(a) - multiset{x};
      assert multiset(b[..i] + b[i + 1..]) == multiset(b) - multiset{x};
      TotalOfPermutation(a[..n], b[..i] + b[i + 1..], after);
      TotalConcat(b[..i], b[i + 1..], after);
      TotalConcat(b[..i] + [x], b[i + 1..], after);
      TotalConcat(b[..i], [x], after);
      TotalOne(x, after);
    }
  }

  /** The rows a window query selects. */
  function InWindow(rows: seq<Charge>, after: int): (r: seq<Charge>)
    ensures forall c :: c in r <==> c in rows && c.at > after
  {
    if rows == [] then []
    else
      var rest := InWindow(rows[..|rows| - 1], after);
      assert rows == rows[..|rows| - 1] + [rows[|rows| - 1]];
      if rows[|rows| - 1].at > after then rest + [rows[|rows| - 1]] else rest
  }

  lemma {:induction false} TotalInWindow(rows: seq<Charge>, cutoff: int, after: int)
    requires cutoff <= after
    ensures Total(InWindow(rows, cutoff), after) == Total(rows, after)
  {
    if rows != [] {
      var front, last := rows[..|rows| - 1], rows[|rows| - 1];
      TotalInWindow(front, cutoff, after);
      TotalSnoc(InWindow(front, cutoff), last, after);
    }
  }

  lemma SplitTotal(rows: seq<Charge>, k: nat, after: int)
    requires NonNegative(rows) && k <= |rows|
    ensures Total(rows, after) == Total(rows[..k], after) + Total(rows[k..], after)
    ensures NonNegative(rows[..k]) && NonNegative(rows[k..]) && Total(rows[..k], after) >= 0.0
  {
    assert rows == rows[..k] + rows[k..];
    TotalConcat(rows[..k], rows[k..], after);
    assert NonNegative(rows[..k]) by { assert forall c | c in rows[..k] :: c in rows; }
    assert NonNegative(rows[k..]) by { assert forall c | c in rows[k..] :: c in rows; }
    TotalAntitone(rows[..k], after, after);
  }

  /** Splitting chronological rows at an instant: nothing before `k` counts, everything from `k` on may. */
  lemma {:induction false} TotalFrom(rows: seq<Charge>, k: nat, after: int)
    requires NonNegative(rows) && Chronological(rows) && k <= |rows|
    ensures k < |rows| && after < rows[k].at ==> Total(rows, after) >= Sum(rows[k..])
    ensures k > 0 && rows[k - 1].at <= after ==> Total(rows, after) <= Sum(rows[k..])
  {
    SplitTotal(rows, k, after);
    SumBounds(rows[k..], after);
    if k > 0 && rows[k - 1].at <= after {
      forall c | c in rows[..k] ensures c.at <= after {
        var i :| 0 <= i < k && rows[..k][i] == c;
        assert rows[i] == c;
      }
      AllExpired(rows[..k], after);
    }
  }

  function Sum(rows: seq<Charge>): real {
    if rows == [] then 0.0 else rows[0].amount + Sum(rows[1..])
  }

  lemma {:induction false} SumBounds(rows: seq<Charge>, after: int)
    requires NonNegative(rows) && Chronological(rows)
    ensures Total(rows, after) <= Sum(rows)
    ensures rows != [] && after < rows[0].at ==> Total(rows, after) == Sum(rows)
    decreases |rows|
  {
    if rows != [] {
      assert rows == [rows[0]] + rows[1..];
      TotalConcat([rows[0]], rows[1..], after);
      TotalOne(rows[0], after);
      assert rows[0] in rows;
      SumBounds(rows[1..], after);
    }
  }

  lemma {:induction false} AllExpired(rows: seq<Charge>, after: int)
    requires forall c | c in rows :: c.at <= after
    ensures Total(rows, after) == 0.0
  {
    if rows != [] {
      assert rows[|rows| - 1] in rows;
      AllExpired(rows[..|rows| - 1], after);
    }
  }

  lemma {:induction false} AllOut(rows: seq<Charge>, after: int)
    requires forall c | c in rows :: c.at <= after
    ensures InWindow(rows, after) == []
  {
    if rows != [] {
      assert rows[|rows| - 1] in rows;
      AllOut(rows[..|rows| - 1], after);
    }
  }
}
