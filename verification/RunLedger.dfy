/**
 The cross-process run ledger: one row per (repo, issue), upserted under a lifecycle rank that refuses to
 move a row backward.
 */
module RunLedger {
  import opened Wrappers

  datatype RunState = Queued | Building | Escalated | PrOpened | Failed | Merged {
    /** The terminal states share one rank, so they overwrite each other. */
    function Rank(): nat {
      match this
      case Queued => 0
      case Building => 1
      case _ => 2
    }
  }

  /** Queued, then Building, then every terminal state: the only ways one state is short of another. */
  lemma RankOrder(a: RunState, b: RunState)
    ensures a.Rank() < b.Rank() <==> (a.Queued? && !b.Queued?) || (a.Building? && !b.Queued? && !b.Building?)
  {
  }

  datatype Key = Key(repo: string, issue: nat)

  datatype Row = Row(state: RunState, url: Option<string>, updatedAt: int)

  datatype Write = Write(key: Key, row: Row)

  /** `INSERT ... ON CONFLICT DO UPDATE ... WHERE new rank >= existing rank`. */
  function Upsert(rows: map<Key, Row>, w: Write): map<Key, Row> {
    if w.key in rows && w.row.state.Rank() < rows[w.key].state.Rank() then rows else rows[w.key := w.row]
  }

  /** The table's rows, and the writes committed to it so far, oldest first. */
  datatype Table = Table(rows: map<Key, Row>, writes: seq<Write>)

  function AfterWrite(t: Table, w: Write): Table {
    Table(Upsert(t.rows, w), t.writes + [w])
  }

  class RunLedgerStore {
    var rows: map<Key, Row>
    ghost var writes: seq<Write>
    ghost var raised: nat         // how many statements the driver refused

    constructor ()
      ensures rows == map[] && Valid()
    {
      rows, writes, raised := map[], [], 0;
    }

    ghost function Contents(): Table
      reads this
    {
      Table(rows, writes)
    }

    /** The rows are what the committed writes leave. */
    ghost predicate Valid()
      reads this
    {
      rows == Replay(writes)
    }

    /** One upsert and one commit; a driver error leaves the table as it was. */
    method Record(repo: string, issue: nat, state: RunState, url: Option<string>, now: int) returns (r: Result<()>)
      modifies this
      ensures Contents() == if r.Ok? then AfterWrite(old(Contents()), Write(Key(repo, issue), Row(state, url, now)))
                           else old(Contents())
      ensures old(Valid()) ==> Valid()
      ensures raised == old(raised) + if r.Raised? then 1 else 0
    {
      var fault: bool := *;
      if fault {
        raised := raised + 1;
        return Raised;
      }
      var key := Key(repo, issue);
      if key !in rows || state.Rank() >= rows[key].state.Rank() {
        rows := rows[key := Row(state, url, now)];
      }
      writes := writes + [Write(key, Row(state, url, now))];
      assert writes[..|writes| - 1] == old(writes);
      r := Ok(());
    }
  }

  /** The table after a history of committed writes, oldest first. */
  function Replay(writes: seq<Write>): map<Key, Row> {
    if writes == [] then map[] else Upsert(Replay(writes[..|writes| - 1]), writes[|writes| - 1])
  }

  /** Write `i` is the last of those to its key that reached the highest rank. */
  ghost predicate LastOfHighest(writes: seq<Write>, i: int) {
    && 0 <= i < |writes|
    && forall j | 0 <= j < |writes| && writes[j].key == writes[i].key ::
         && writes[j].row.state.Rank() <= writes[i].row.state.Rank()
         && (j > i ==> writes[j].row.state.Rank() < writes[i].row.state.Rank())
  }

  ghost predicate Holds(writes: seq<Write>, key: Key, row: Row) {
    exists i :: LastOfHighest(writes, i) && writes[i].key == key && writes[i].row == row
  }

  ghost predicate Written(writes: seq<Write>, key: Key) {
    exists i :: 0 <= i < |writes| && writes[i].key == key
  }

  /** One more write: to another key, below the row's rank, or in its place. */
  lemma HoldsAfter(writes: seq<Write>, key: Key, row: Row, w: Write)
    requires Holds(writes, key, row)
    ensures Holds(writes + [w], key, if w.key == key && w.row.state.Rank() >= row.state.Rank() then w.row else row)
  {
    var all := writes + [w];
    var i :| LastOfHighest(writes, i) && writes[i].key == key && writes[i].row == row;
    assert forall j | 0 <= j < |writes| :: all[j] == writes[j];
    if w.key == key && w.row.state.Rank() >= row.state.Rank() {
      assert LastOfHighest(all, |writes|) && all[|writes|] == w;
    } else {
      assert LastOfHighest(all, i) && all[i] == writes[i];
    }
  }

  lemma FirstWriteHolds(writes: seq<Write>, w: Write)
    requires !Written(writes, w.key)
    ensures Holds(writes + [w], w.key, w.row)
  {
    var all := writes + [w];
    forall j | 0 <= j < |writes| ensures all[j].key != w.key { assert writes[j].key != w.key; }
    assert LastOfHighest(all, |writes|) && all[|writes|] == w;
  }

  /**
   What the table says about a key, from the whole history: the row is the last write of the highest rank
   that key ever reached, and there is one exactly when the key was ever written.
   */
  lemma {:induction false} LedgerKeepsFurthestState(writes: seq<Write>, key: Key)
    ensures key in Replay(writes) <==> Written(writes, key)
    ensures key in Replay(writes) ==> Holds(writes, key, Replay(writes)[key])
  {
    if writes != [] {
      var front, w := writes[..|writes| - 1], writes[|writes| - 1];
      LedgerKeepsFurthestState(front, key);
      assert writes == front + [w] && writes[|front|] == w;
      assert forall i | 0 <= i < |front| :: front[i] == writes[i];
      if key in Replay(front) {
        HoldsAfter(front, key, Replay(front)[key], w);
      } else if w.key == key {
        FirstWriteHolds(front, w);
      }
    }
  }

  /** An issue that got as far as a terminal state is never shown as queued or building again. */
  lemma TerminalStays(before: seq<Write>, after: seq<Write>, key: Key)
    requires key in Replay(before)
    ensures key in Replay(before + after)
    ensures Replay(before)[key].state.Rank() <= Replay(before + after)[key].state.Rank()
    decreases |after|
  {
    if after == [] {
      assert before + after == before;
    } else {
      var n := |after| - 1;
      TerminalStays(before, after[..n], key);
      assert (before + after)[..|before + after| - 1] == before + after[..n];
    }
  }
}
