/** The event indexer: a cursor, a table with a unique key, and ranges committed whole or not at all. */
module Indexer {
  import opened Hashing

  /** One watched log as it is stored. */
  datatype LogRow = LogRow(blockNumber: nat, blockHash: Hash, txHash: Hash, logIndex: nat)

  /** The watched logs of every block. Blocks are final, so this never changes. */
  type Chain = nat -> seq<LogRow>

  /** ON CONFLICT (block_hash, tx_hash, log_index) */
  predicate SameKey(a: LogRow, b: LogRow) {
    a.blockHash == b.blockHash && a.txHash == b.txHash && a.logIndex == b.logIndex
  }

  /** Logs carry their own block's number and no two have the same key. */
  ghost predicate ValidChain(chain: Chain) {
    && (forall b, i | 0 <= i < |chain(b)| :: chain(b)[i].blockNumber == b)
    && (forall b, c, i, j | 0 <= i < |chain(b)| && 0 <= j < |chain(c)| ::
          SameKey(chain(b)[i], chain(c)[j]) ==> b == c && i == j)
  }

  /** The logs of the blocks from..to, as getLogs returns them. */
  function RangeLogs(chain: Chain, first: int, last: int): seq<LogRow>
    decreases last - first
  {
    if last < first then [] else RangeLogs(chain, first, last - 1) + (if last < 0 then [] else chain(last))
  }

  /** A row with a key already in the table is not inserted. */
  function Insert(table: seq<LogRow>, row: LogRow): seq<LogRow> {
    if exists i | 0 <= i < |table| :: SameKey(table[i], row) then table else table + [row]
  }

  function InsertAll(table: seq<LogRow>, rows: seq<LogRow>): seq<LogRow> {
    if rows == [] then table
    else Insert(InsertAll(table, rows[..|rows| - 1]), rows[|rows| - 1])
  }

  datatype Db = Db(events: seq<LogRow>, cursor: int)

  /** How a tick goes: the node or the database may fail at any point, and a commit may take effect while its
      answer is lost. */
  datatype Fate = Succeeds | NodeFails | WriteFails(row: nat) | CommittedButErrorSeen

  predicate Commits(fate: Fate) {
    fate == Succeeds || fate == CommittedButErrorSeen
  }

  /** The last block of the next range. */
  function RangeEnd(cursor: int, target: int, batchSize: nat): int {
    if cursor + batchSize > target then target else cursor + batchSize
  }

  /** What one tick does to the database. */
  function Tick(db: Db, chain: Chain, target: int, batchSize: nat, fate: Fate): Db {
    if target <= db.cursor || !Commits(fate) then db
    else
      var last := RangeEnd(db.cursor, target, batchSize);
      Db(InsertAll(db.events, RangeLogs(chain, db.cursor + 1, last)), last)
  }

  /** The database rows and the tick of the running service. */
  class Service {
    const chain: Chain
    const watching: bool
    var events: seq<LogRow>
    var cursor: int

    ghost function View(): Db
      reads this
    {
      Db(events, cursor)
    }

    constructor (chain: Chain, watching: bool, cursor: int)
      ensures this.chain == chain && this.watching == watching && View() == Db([], cursor)
    {
      this.chain, this.watching, this.cursor := chain, watching, cursor;
      events := [];
    }

    /** Inserts the logs and moves the cursor in one transaction: unless it is committed nothing has
        changed, and an error after the commit takes nothing back. */
    method IndexRange(first: int, last: int, fate: Fate) returns (ok: bool)
      requires !watching ==> forall b :: chain(b) == []
      modifies this
      ensures fate == Succeeds ==> ok
      ensures fate == CommittedButErrorSeen ==> !ok
      ensures ok || fate == CommittedButErrorSeen ==>
                events == InsertAll(old(events), RangeLogs(chain, first, last)) && cursor == last
      ensures !ok && fate != CommittedButErrorSeen ==> View() == old(View())
      ensures fate == NodeFails && watching ==> !ok
    {
      if !watching {
        if fate.WriteFails? {
          return false;
        }
        NothingWatched(chain, first, last);
        cursor := last;
        return fate != CommittedButErrorSeen;
      }
      if fate == NodeFails {
        return false;
      }
      var logs := RangeLogs(chain, first, last);
      var before := events;
      for i := 0 to |logs|
        invariant cursor == old(cursor) && events == InsertAll(old(events), logs[..i])
      {
        if fate == WriteFails(i) {
          events := before;
          return false;
        }
        assert logs[..i + 1][..i] == logs[..i];
        events := Insert(events, logs[i]);
      }
      assert logs[..|logs|] == logs;
      if fate.WriteFails? && fate.row == |logs| {
        events := before;
        return false;
      }
      cursor := last;
      return fate != CommittedButErrorSeen;
    }

    /** One tick: nothing to do, a committed range above the cursor, or a failure that changes nothing. */
    method TickOnce(head: int, confirmations: nat, batchSize: nat, fate: Fate) returns (ok: bool)
      requires !watching ==> forall b :: chain(b) == []
      modifies this
      ensures ok || fate == CommittedButErrorSeen ==>
                View() == Tick(old(View()), chain, head - confirmations, batchSize, Succeeds)
      ensures !ok && fate != CommittedButErrorSeen ==> View() == old(View())
      ensures !ok ==> fate != Succeeds && head - confirmations > old(cursor)
    {
      var target := head - confirmations;
      if target <= cursor {
        return true;
      }
      var first := cursor + 1;
      var last := if first + batchSize - 1 > target then target else first + batchSize - 1;
      ok := IndexRange(first, last, fate);
    }
  }

  lemma {:induction false} NothingWatched(chain: Chain, first: int, last: int)
    requires forall b :: chain(b) == []
    ensures RangeLogs(chain, first, last) == []
    decreases last - first
  {
    if first <= last {
      NothingWatched(chain, first, last - 1);
    }
  }

  // ---------- the table is the chain ----------

  lemma {:induction false} RangeLogsMembers(chain: Chain, first: int, last: int, r: LogRow)
    requires ValidChain(chain)
    ensures r in RangeLogs(chain, first, last)
       <==> first <= r.blockNumber <= last && r in chain(r.blockNumber)
    decreases last - first
  {
    if first <= last {
      RangeLogsMembers(chain, first, last - 1, r);
    }
  }

  lemma {:induction false} RangeLogsSplit(chain: Chain, first: int, middle: int, last: int)
    requires first - 1 <= middle <= last
    ensures RangeLogs(chain, first, last) == RangeLogs(chain, first, middle) + RangeLogs(chain, middle + 1, last)
    decreases last - middle
  {
    if middle < last {
      RangeLogsSplit(chain, first, middle, last - 1);
    } else {
      assert RangeLogs(chain, middle + 1, last) == [];
    }
  }

  ghost predicate DistinctKeys(rows: seq<LogRow>) {
    forall i, j | 0 <= i < j < |rows| :: !SameKey(rows[i], rows[j])
  }

  lemma {:induction false} RangeLogsDistinct(chain: Chain, first: int, last: int)
    requires ValidChain(chain)
    ensures DistinctKeys(RangeLogs(chain, first, last))
    decreases last - first
  {
    if first <= last {
      RangeLogsDistinct(chain, first, last - 1);
      var front, rows := RangeLogs(chain, first, last - 1), RangeLogs(chain, first, last);
      forall i, j | 0 <= i < j < |rows|
        ensures !SameKey(rows[i], rows[j])
      {
        if i < |front| <= j {
          RangeLogsMembers(chain, first, last - 1, rows[i]);
          assert rows[i] == front[i] && rows[i] in front;
          assert rows[j] == chain(last)[j - |front|];
        }
      }
    }
  }

  /** Rows with new keys are all appended. */
  lemma {:induction false} InsertAllAppends(table: seq<LogRow>, rows: seq<LogRow>)
    requires DistinctKeys(table + rows)
    ensures InsertAll(table, rows) == table + rows
  {
    if rows == [] {
      assert table + rows == table;
    } else {
      var front, last := rows[..|rows| - 1], rows[|rows| - 1];
      var all := table + rows;
      assert all[..|all| - 1] == table + front && all[|all| - 1] == last;
      InsertAllAppends(table, front);
      assert forall i | 0 <= i < |table + front| :: (table + front)[i] == all[i] && !SameKey(all[i], last);
      assert all == (table + front) + [last];
    }
  }

  /** The table holds exactly the watched logs above the starting cursor up to the current one. */
  ghost predicate Exact(db: Db, chain: Chain, start: int) {
    start <= db.cursor && db.events == RangeLogs(chain, start + 1, db.cursor)
  }

  /** Every tick keeps that, whatever its fate. */
  lemma TickKeepsExact(db: Db, chain: Chain, start: int, target: int, batchSize: nat, fate: Fate)
    requires ValidChain(chain) && Exact(db, chain, start)
    ensures Exact(Tick(db, chain, target, batchSize, fate), chain, start)
  {
    if target > db.cursor && Commits(fate) {
      var last := RangeEnd(db.cursor, target, batchSize);
      RangeLogsSplit(chain, start + 1, db.cursor, last);
      RangeLogsDistinct(chain, start + 1, last);
      InsertAllAppends(db.events, RangeLogs(chain, db.cursor + 1, last));
    }
  }

  /** What the tick was asked for and how it went. */
  datatype TickStep = TickStep(target: int, batchSize: nat, fate: Fate)

  function Run(db: Db, chain: Chain, steps: seq<TickStep>): Db {
    if steps == [] then db
    else
      var s := steps[|steps| - 1];
      Tick(Run(db, chain, steps[..|steps| - 1]), chain, s.target, s.batchSize, s.fate)
  }

  /** After any run of ticks, failures and rollbacks the table holds every watched log between the
      starting cursor and the current one, each once, and nothing else. */
  lemma {:induction false} TableIsChain(chain: Chain, start: int, steps: seq<TickStep>)
    requires ValidChain(chain)
    ensures var db := Run(Db([], start), chain, steps);
            && Exact(db, chain, start) && DistinctKeys(db.events)
            && (forall r :: r in db.events <==> start < r.blockNumber <= db.cursor && r in chain(r.blockNumber))
  {
    var db := Run(Db([], start), chain, steps);
    if steps != [] {
      var s := steps[|steps| - 1];
      TableIsChain(chain, start, steps[..|steps| - 1]);
      TickKeepsExact(Run(Db([], start), chain, steps[..|steps| - 1]), chain, start, s.target, s.batchSize, s.fate);
    }
    RangeLogsDistinct(chain, start + 1, db.cursor);
    forall r {
      RangeLogsMembers(chain, start + 1, db.cursor, r);
    }
  }

  function Committed(steps: seq<TickStep>): nat {
    if steps == [] then 0
    else Committed(steps[..|steps| - 1]) + if Commits(steps[|steps| - 1].fate) then 1 else 0
  }

  predicate OneTarget(steps: seq<TickStep>, target: int, batchSize: nat) {
    forall s | s in steps :: s.target == target && s.batchSize == batchSize
  }

  function Capped(start: int, k: nat, batchSize: nat, target: int): int {
    if start + k * batchSize < target then start + k * batchSize else target
  }

  lemma {:induction false} CursorOfRun(db: Db, chain: Chain, steps: seq<TickStep>, target: int, batchSize: nat)
    requires db.cursor <= target && OneTarget(steps, target, batchSize)
    ensures Run(db, chain, steps).cursor == Capped(db.cursor, Committed(steps), batchSize, target)
  {
    hide InsertAll, RangeLogs, Capped;
    if steps == [] {
      NoTickYet(db.cursor, batchSize, target);
    } else {
      var front, s := steps[..|steps| - 1], steps[|steps| - 1];
      assert s in steps;
      CursorOfRun(db, chain, front, target, batchSize);
      OneTickMore(db.cursor, Committed(front), batchSize, target);
    }
  }

  lemma NoTickYet(start: int, batchSize: nat, target: int)
    requires start <= target
    ensures Capped(start, 0, batchSize, target) == start
  {
  }

  lemma OneTickMore(start: int, k: nat, batchSize: nat, target: int)
    ensures var c := Capped(start, k, batchSize, target);
            Capped(start, k + 1, batchSize, target) == if target <= c then c else RangeEnd(c, target, batchSize)
  {
    assert (k + 1) * batchSize == k * batchSize + batchSize;
  }

  /** A run of ticks towards one target, with any failures in between, has reached it exactly if at least
      ceil((target - cursor) / batchSize) of them were committed. */
  lemma TargetReached(db: Db, chain: Chain, steps: seq<TickStep>, target: int, batchSize: nat)
    requires batchSize > 0 && db.cursor <= target && OneTarget(steps, target, batchSize)
    ensures Run(db, chain, steps).cursor == target
       <==> Committed(steps) >= (target - db.cursor + batchSize - 1) / batchSize
  {
    CursorOfRun(db, chain, steps, target, batchSize);
    CeilingBound(target - db.cursor, batchSize, Committed(steps));
  }

  lemma CeilingBound(d: nat, b: nat, k: nat)
    requires b > 0
    ensures k * b >= d <==> k >= (d + b - 1) / b
  {
    var q := (d + b - 1) / b;
    assert q * b <= d + b - 1 < q * b + b;
    if k >= q {
      assert k * b >= q * b;
    } else {
      assert (k + 1) * b <= q * b;
      assert (k + 1) * b == k * b + b;
    }
  }
}
