/** Indexer and anchor worker side by side: two cursors, one table, any interleaving of their steps,
    rollbacks of the indexer, and a worker that may fail or crash between any two of its own. */
module AnchorPipeline {
  import opened Hashing
  import opened Indexer
  import opened AnchorMessage
  import AnchorTree

  /** What is on the chain for one slice, with the slice it was made from. */
  datatype Anchor = Anchor(events: seq<LogRow>, root: Hash, blockFrom: nat, blockTo: nat, eventCount: nat)

  /** How far the running worker cycle has come. It holds its slice in memory only. */
  datatype Phase = Idle | Fetched(events: seq<LogRow>) | Recorded(events: seq<LogRow>) | Persisted(events: seq<LogRow>)

  datatype State = State(db: Db, cursor: int, anchors: seq<Anchor>, phase: Phase)

  datatype Config = Config(chain: Chain, keccak: AnchorTree.Keccak, indexerStart: int, workerStart: int,
                           confirmations: nat, batchSize: nat, minEvents: nat, maxEvents: nat)

  /** The transaction fails cleanly, or is mined although the worker sees an error. */
  datatype RecordFate = Mined | Refused | MinedButErrorSeen

  datatype Step =
    | IndexerTick(head: int, fate: Fate)
    | WorkerFetch(latest: int, rows: seq<LogRow>)
    | WorkerRecord(recordFate: RecordFate)
    | WorkerPersist(ok: bool)
    | WorkerAdvance(ok: bool)
    | WorkerCrash

  // ---------- the worker's query ----------

  /** ORDER BY block_number, log_index */
  predicate Before(a: LogRow, b: LogRow) {
    a.blockNumber < b.blockNumber || (a.blockNumber == b.blockNumber && a.logIndex < b.logIndex)
  }

  predicate InSlice(r: LogRow, above: int, upTo: int) {
    above < r.blockNumber <= upTo
  }

  /** `rows` is the answer of the query over the table: rows of the slice in order, at most `cap`, and
      nothing left out unless the cap is reached and it comes after every row of the answer. */
  ghost predicate IsFetch(table: seq<LogRow>, above: int, upTo: int, cap: nat, rows: seq<LogRow>) {
    && |rows| <= cap
    && (forall i, j | 0 <= i < j < |rows| :: Before(rows[i], rows[j]))
    && (forall r | r in rows :: r in table && InSlice(r, above, upTo))
    && (forall r | r in table && InSlice(r, above, upTo) && r !in rows ::
          |rows| == cap && forall q | q in rows :: Before(q, r))
  }

  // ---------- steps ----------

  function Rows(events: seq<LogRow>): (rows: seq<EventRow>)
    ensures |rows| == |events|
  {
    seq(|events|, (i: nat) requires i < |events| =>
          EventRow(events[i].blockNumber, events[i].txHash, events[i].logIndex))
  }

  function AnchorOf(cfg: Config, events: seq<LogRow>): Anchor
    requires events != []
  {
    Anchor(events, AnchorTree.Root(cfg.keccak, EventNodes(cfg.keccak, Rows(events))),
           events[0].blockNumber, events[|events| - 1].blockNumber, |events|)
  }

  /** The slice is taken when there is something above the cursor and it is large enough. An empty
      slice with minEvents zero makes the cycle throw. */
  ghost predicate Takes(cfg: Config, s: State, latest: int, rows: seq<LogRow>) {
    && s.phase == Idle
    && latest - 1 > s.cursor
    && IsFetch(s.db.events, s.cursor, latest - 1, cfg.maxEvents, rows)
    && |rows| >= cfg.minEvents
    && rows != []
  }

  ghost function Next(cfg: Config, s: State, step: Step): State {
    match step
    case IndexerTick(head, fate) =>
      s.(db := Tick(s.db, cfg.chain, head - cfg.confirmations, cfg.batchSize, fate))
    case WorkerFetch(latest, rows) =>
      if Takes(cfg, s, latest, rows) then s.(phase := Fetched(rows)) else s
    case WorkerRecord(fate) =>
      if !s.phase.Fetched? || s.phase.events == [] then s
      else
        var mined := s.(anchors := s.anchors + [AnchorOf(cfg, s.phase.events)]);
        match fate {
          case Mined => mined.(phase := Recorded(s.phase.events))
          case Refused => s.(phase := Idle)
          case MinedButErrorSeen => mined.(phase := Idle)
        }
    case WorkerPersist(ok) =>
      if !s.phase.Recorded? then s
      else s.(phase := if ok then Persisted(s.phase.events) else Idle)
    case WorkerAdvance(ok) =>
      if !s.phase.Persisted? || s.phase.events == [] then s
      else if ok then s.(phase := Idle, cursor := s.phase.events[|s.phase.events| - 1].blockNumber)
      else s.(phase := Idle)
    case WorkerCrash =>
      s.(phase := Idle)
  }

  function Init(cfg: Config): State {
    State(Db([], cfg.indexerStart), cfg.workerStart, [], Idle)
  }

  ghost function Run(cfg: Config, steps: seq<Step>): State {
    if steps == [] then Init(cfg)
    else Next(cfg, Run(cfg, steps[..|steps| - 1]), steps[|steps| - 1])
  }

  // ---------- coverage ----------

  /** Is one of the logs both processes were started to cover, in a block up to `upTo`. */
  ghost predicate Due(cfg: Config, r: LogRow, upTo: int) {
    && r in cfg.chain(r.blockNumber)
    && cfg.indexerStart < r.blockNumber && cfg.workerStart < r.blockNumber <= upTo
  }

  ghost predicate Covered(anchors: seq<Anchor>, r: LogRow) {
    exists i :: 0 <= i < |anchors| && r in anchors[i].events
  }

  /** Each log the worker's cursor has passed is in an anchor. */
  ghost predicate AllCovered(cfg: Config, s: State) {
    forall r | Due(cfg, r, s.cursor) :: Covered(s.anchors, r)
  }

  /** A slice in flight has every log between the cursor and its last block, and of that block too if it
      is below the limit. */
  ghost predicate SliceSound(cfg: Config, s: State, events: seq<LogRow>) {
    && events != [] && |events| <= cfg.maxEvents
    && s.cursor < events[|events| - 1].blockNumber <= s.db.cursor
    && (forall r | r in events :: r.blockNumber > s.cursor)
    && (forall r | Due(cfg, r, events[|events| - 1].blockNumber) && r.blockNumber > s.cursor && r !in events ::
          r.blockNumber == events[|events| - 1].blockNumber && |events| == cfg.maxEvents)
  }

  /** What every step keeps. */
  ghost predicate Inv(cfg: Config, s: State) {
    && Exact(s.db, cfg.chain, cfg.indexerStart)
    && (forall i | 0 <= i < |s.anchors| ::
          s.anchors[i].events != [] && s.anchors[i] == AnchorOf(cfg, s.anchors[i].events))
    && (s.phase != Idle ==> SliceSound(cfg, s, s.phase.events))
    && (s.phase.Recorded? || s.phase.Persisted? ==>
          exists i :: 0 <= i < |s.anchors| && s.anchors[i].events == s.phase.events)
  }

  lemma TableMembers(cfg: Config, db: Db, r: LogRow)
    requires ValidChain(cfg.chain) && Exact(db, cfg.chain, cfg.indexerStart)
    ensures r in db.events <==> cfg.indexerStart < r.blockNumber <= db.cursor && r in cfg.chain(r.blockNumber)
  {
    RangeLogsMembers(cfg.chain, cfg.indexerStart + 1, db.cursor, r);
  }

  lemma FetchIsSound(cfg: Config, s: State, latest: int, rows: seq<LogRow>)
    requires ValidChain(cfg.chain) && Inv(cfg, s) && Takes(cfg, s, latest, rows)
    ensures SliceSound(cfg, s, rows)
  {
    var last := rows[|rows| - 1];
    assert last in rows;
    TableMembers(cfg, s.db, last);
    forall r | Due(cfg, r, last.blockNumber) && r.blockNumber > s.cursor && r !in rows
      ensures r.blockNumber == last.blockNumber && |rows| == cfg.maxEvents
    {
      TableMembers(cfg, s.db, r);
      assert InSlice(r, s.cursor, latest - 1) && Before(last, r);
    }
  }

  lemma EventsOfAnchor(cfg: Config, events: seq<LogRow>)
    requires events != []
    ensures AnchorOf(cfg, events).events == events
  {
  }

  lemma CoveredByMore(anchors: seq<Anchor>, more: Anchor, r: LogRow)
    ensures Covered(anchors + [more], r) <==> Covered(anchors, r) || r in more.events
  {
    var all := anchors + [more];
    assert all[|anchors|] == more;
    assert forall i | 0 <= i < |anchors| :: all[i] == anchors[i];
  }

  lemma TickKeepsInv(cfg: Config, s: State, head: int, fate: Fate)
    requires ValidChain(cfg.chain) && Inv(cfg, s)
    ensures Inv(cfg, Next(cfg, s, IndexerTick(head, fate)))
  {
    TickKeepsExact(s.db, cfg.chain, cfg.indexerStart, head - cfg.confirmations, cfg.batchSize, fate);
  }

  lemma StepKeepsInv(cfg: Config, s: State, step: Step)
    requires ValidChain(cfg.chain) && Inv(cfg, s)
    ensures Inv(cfg, Next(cfg, s, step))
  {
    hide AnchorOf, Exact, RangeLogs;
    match step
    case IndexerTick(head, fate) => TickKeepsInv(cfg, s, head, fate);
    case WorkerFetch(latest, rows) =>
      if Takes(cfg, s, latest, rows) {
        FetchIsSound(cfg, s, latest, rows);
      }
    case WorkerRecord(fate) =>
      if s.phase.Fetched? {
        RecordKeepsInv(cfg, s, fate);
      }
    case _ =>
  }

  lemma RecordKeepsInv(cfg: Config, s: State, fate: RecordFate)
    requires Inv(cfg, s) && s.phase.Fetched?
    ensures Inv(cfg, Next(cfg, s, WorkerRecord(fate)))
  {
    hide Exact;
    var a := AnchorOf(cfg, s.phase.events);
    assert (s.anchors + [a])[|s.anchors|].events == s.phase.events;
  }

  lemma {:induction false} RunKeepsInv(cfg: Config, steps: seq<Step>)
    requires ValidChain(cfg.chain)
    ensures Inv(cfg, Run(cfg, steps))
  {
    if steps == [] {
      assert RangeLogs(cfg.chain, cfg.indexerStart + 1, cfg.indexerStart) == [];
    } else {
      hide Next, Inv;
      RunKeepsInv(cfg, steps[..|steps| - 1]);
      StepKeepsInv(cfg, Run(cfg, steps[..|steps| - 1]), steps[|steps| - 1]);
    }
  }

  // ---------- what is indexed and anchored ----------

  /** The indexer stays behind the head by its confirmations: a log in the table was that deep when it was read. */
  lemma {:induction false} IndexedLogsAreConfirmed(cfg: Config, steps: seq<Step>, r: LogRow) returns (i: nat)
    requires ValidChain(cfg.chain) && r in Run(cfg, steps).db.events
    ensures i < |steps| && steps[i].IndexerTick? && r.blockNumber + cfg.confirmations <= steps[i].head
    ensures r.blockNumber > cfg.indexerStart && r in cfg.chain(r.blockNumber)
  {
    hide Inv, Exact;
    RunKeepsInv(cfg, steps);
    InTable(cfg, Run(cfg, steps), r);
    i := CursorIsConfirmed(cfg, steps);
  }

  lemma InTable(cfg: Config, s: State, r: LogRow)
    requires ValidChain(cfg.chain) && Inv(cfg, s) && r in s.db.events
    ensures cfg.indexerStart < r.blockNumber <= s.db.cursor && r in cfg.chain(r.blockNumber)
  {
    TableMembers(cfg, s.db, r);
  }

  lemma {:induction false} CursorIsConfirmed(cfg: Config, steps: seq<Step>) returns (i: nat)
    requires Run(cfg, steps).db.cursor > cfg.indexerStart
    ensures i < |steps| && steps[i].IndexerTick?
    ensures Run(cfg, steps).db.cursor + cfg.confirmations <= steps[i].head
  {
    hide InsertAll, RangeLogs, AnchorOf;
    var front, step := steps[..|steps| - 1], steps[|steps| - 1];
    if Run(cfg, front).db.cursor == Run(cfg, steps).db.cursor {
      i := CursorIsConfirmed(cfg, front);
    } else {
      i := |front|;
    }
  }

  /** What the worker may take for one slice when the chain is at block `latest`. */
  ghost predicate FitsSlice(cfg: Config, events: seq<LogRow>, latest: int) {
    && events != [] && cfg.minEvents <= |events| <= cfg.maxEvents && Ordered(events)
    && forall r | r in events ::
         cfg.workerStart < r.blockNumber < latest && cfg.indexerStart < r.blockNumber && r in cfg.chain(r.blockNumber)
  }

  ghost predicate FromFetch(cfg: Config, steps: seq<Step>, events: seq<LogRow>) {
    exists k :: 0 <= k < |steps| && steps[k].WorkerFetch? && steps[k].rows == events
                && FitsSlice(cfg, events, steps[k].latest)
  }

  ghost predicate Traced(cfg: Config, steps: seq<Step>, s: State) {
    && s.cursor >= cfg.workerStart
    && (forall i | 0 <= i < |s.anchors| :: FromFetch(cfg, steps, s.anchors[i].events))
    && (s.phase != Idle ==> FromFetch(cfg, steps, s.phase.events))
  }

  lemma FetchedLater(cfg: Config, steps: seq<Step>, step: Step, events: seq<LogRow>)
    requires FromFetch(cfg, steps, events)
    ensures FromFetch(cfg, steps + [step], events)
  {
    hide FitsSlice;
    var k :| 0 <= k < |steps| && steps[k].WorkerFetch? && steps[k].rows == events
             && FitsSlice(cfg, events, steps[k].latest);
    assert (steps + [step])[k] == steps[k];
  }

  lemma JustFetched(cfg: Config, steps: seq<Step>, s: State, step: Step)
    requires ValidChain(cfg.chain) && Inv(cfg, s) && s.cursor >= cfg.workerStart
    requires step.WorkerFetch? && Takes(cfg, s, step.latest, step.rows)
    ensures FromFetch(cfg, steps + [step], step.rows)
  {
    forall r | r in step.rows
      ensures cfg.indexerStart < r.blockNumber && r in cfg.chain(r.blockNumber)
    {
      TableMembers(cfg, s.db, r);
    }
    assert FitsSlice(cfg, step.rows, step.latest);
    assert (steps + [step])[|steps|] == step;
  }

  lemma StepKeepsTraced(cfg: Config, steps: seq<Step>, s: State, step: Step)
    requires ValidChain(cfg.chain) && Inv(cfg, s) && Traced(cfg, steps, s)
    ensures Traced(cfg, steps + [step], Next(cfg, s, step))
  {
    hide AnchorOf, Exact, FromFetch, LastBlockCovered;
    var t := Next(cfg, s, step);
    forall events | FromFetch(cfg, steps, events)
      ensures FromFetch(cfg, steps + [step], events)
    {
      FetchedLater(cfg, steps, step, events);
    }
    if step.WorkerFetch? && Takes(cfg, s, step.latest, step.rows) {
      JustFetched(cfg, steps, s, step);
    }
    if t.anchors != s.anchors {
      EventsOfAnchor(cfg, s.phase.events);
    }
  }

  lemma {:induction false} RunKeepsTraced(cfg: Config, steps: seq<Step>)
    requires ValidChain(cfg.chain)
    ensures Traced(cfg, steps, Run(cfg, steps))
  {
    if steps != [] {
      hide Next, Inv, Traced;
      var front := steps[..|steps| - 1];
      RunKeepsTraced(cfg, front);
      RunKeepsInv(cfg, front);
      StepKeepsTraced(cfg, front, Run(cfg, front), steps[|steps| - 1]);
      assert steps == front + [steps[|steps| - 1]];
    }
  }

  /** Every anchor on the chain is a slice the worker fetched: of allowed length, in order, of watched logs in blocks
      before the one the chain was at; and it names its first and last block, its count and the root of its events. */
  lemma AnchorsAreSlices(cfg: Config, steps: seq<Step>, i: nat) returns (k: nat)
    requires ValidChain(cfg.chain) && i < |Run(cfg, steps).anchors|
    ensures var a := Run(cfg, steps).anchors[i];
            && k < |steps| && steps[k].WorkerFetch? && steps[k].rows == a.events
            && FitsSlice(cfg, a.events, steps[k].latest)
            && a.blockFrom == a.events[0].blockNumber && a.blockTo == a.events[|a.events| - 1].blockNumber
            && a.eventCount == |a.events|
            && a.root == AnchorTree.Root(cfg.keccak, EventNodes(cfg.keccak, Rows(a.events)))
  {
    hide FitsSlice, SliceSound;
    RunKeepsInv(cfg, steps);
    RunKeepsTraced(cfg, steps);
    var a := Run(cfg, steps).anchors[i];
    assert FromFetch(cfg, steps, a.events);
    k :| 0 <= k < |steps| && steps[k].WorkerFetch? && steps[k].rows == a.events
         && FitsSlice(cfg, a.events, steps[k].latest);
  }

  // ---------- exactly when everything is covered ----------

  /** Each due log of the last block of the slice that the slice left out is in some anchor. */
  ghost predicate LastBlockCovered(cfg: Config, s: State, events: seq<LogRow>)
    requires events != []
  {
    var last := events[|events| - 1].blockNumber;
    forall r | Due(cfg, r, last) && r.blockNumber == last && r !in events :: Covered(s.anchors, r)
  }

  /** Asked only of the steps that move the cursor. */
  ghost predicate Clean(cfg: Config, s: State, step: Step) {
    step == WorkerAdvance(true) && s.phase.Persisted? && s.phase.events != [] ==>
      LastBlockCovered(cfg, s, s.phase.events)
  }

  ghost predicate CleanRun(cfg: Config, steps: seq<Step>) {
    steps != [] ==>
      && CleanRun(cfg, steps[..|steps| - 1])
      && Clean(cfg, Run(cfg, steps[..|steps| - 1]), steps[|steps| - 1])
  }

  /** A cycle that completes keeps everything covered exactly if its last block is. */
  lemma AdvanceCoversExactly(cfg: Config, s: State)
    requires Inv(cfg, s) && AllCovered(cfg, s) && s.phase.Persisted?
    ensures AllCovered(cfg, Next(cfg, s, WorkerAdvance(true))) <==> LastBlockCovered(cfg, s, s.phase.events)
  {
    hide AnchorOf, Exact, RangeLogs;
    var events := s.phase.events;
    var last := events[|events| - 1].blockNumber;
    var i :| 0 <= i < |s.anchors| && s.anchors[i].events == events;
    forall r | Due(cfg, r, last) && (r.blockNumber < last || r in events)
      ensures Covered(s.anchors, r)
    {
      if r.blockNumber <= s.cursor {
        assert Due(cfg, r, s.cursor);
      } else {
        assert r in s.anchors[i].events;
      }
    }
  }

  lemma OtherStepsKeepCovered(cfg: Config, s: State, step: Step)
    requires AllCovered(cfg, s) && (step == WorkerAdvance(true) ==> !s.phase.Persisted? || s.phase.events == [])
    ensures AllCovered(cfg, Next(cfg, s, step))
  {
    hide AnchorOf;
    var t := Next(cfg, s, step);
    assert t.cursor == s.cursor;
    forall r | Due(cfg, r, t.cursor)
      ensures Covered(t.anchors, r)
    {
      if t.anchors != s.anchors {
        CoveredByMore(s.anchors, AnchorOf(cfg, s.phase.events), r);
      }
    }
  }

  /** A due log that the cursor has passed without an anchor stays without one. */
  lemma LostStaysLost(cfg: Config, s: State, step: Step, r: LogRow)
    requires Inv(cfg, s) && Due(cfg, r, s.cursor) && !Covered(s.anchors, r)
    ensures Due(cfg, r, Next(cfg, s, step).cursor) && !Covered(Next(cfg, s, step).anchors, r)
  {
    hide AnchorOf, Exact;
    var t := Next(cfg, s, step);
    if t.anchors != s.anchors {
      EventsOfAnchor(cfg, s.phase.events);
      CoveredByMore(s.anchors, AnchorOf(cfg, s.phase.events), r);
    }
  }

  /** In every interleaving, with any rollbacks, failures and crashes: each watched log at or below the
      worker's cursor is in an anchor if and only if every cycle that moved the cursor left out no log of
      its last block that was not anchored before. */
  lemma {:induction false} CoveredExactlyIfClean(cfg: Config, steps: seq<Step>)
    requires ValidChain(cfg.chain)
    ensures AllCovered(cfg, Run(cfg, steps)) <==> CleanRun(cfg, steps)
  {
    hide Next, Inv, LastBlockCovered;
    if steps == [] {
      NothingPassed(cfg);
    } else {
      var front, step := steps[..|steps| - 1], steps[|steps| - 1];
      var s := Run(cfg, front);
      CoveredExactlyIfClean(cfg, front);
      RunKeepsInv(cfg, front);
      if !AllCovered(cfg, s) {
        var r :| Due(cfg, r, s.cursor) && !Covered(s.anchors, r);
        LostStaysLost(cfg, s, step, r);
      } else if step == WorkerAdvance(true) && s.phase.Persisted? && s.phase.events != [] {
        AdvanceCoversExactly(cfg, s);
      } else {
        OtherStepsKeepCovered(cfg, s, step);
      }
    }
  }

  lemma NothingPassed(cfg: Config)
    ensures AllCovered(cfg, Init(cfg))
  {
  }

  /** What a caller can see: a slice below the limit never cuts a block. */
  predicate SmallFetches(cfg: Config, steps: seq<Step>) {
    forall step | step in steps && step.WorkerFetch? :: |step.rows| < cfg.maxEvents
  }

  lemma {:induction false} SmallFetchesAreClean(cfg: Config, steps: seq<Step>)
    requires ValidChain(cfg.chain) && SmallFetches(cfg, steps)
    ensures CleanRun(cfg, steps)
    ensures Run(cfg, steps).phase != Idle ==> |Run(cfg, steps).phase.events| < cfg.maxEvents
  {
    if steps != [] {
      var front, step := steps[..|steps| - 1], steps[|steps| - 1];
      SmallFetchesAreClean(cfg, front);
      RunKeepsInv(cfg, front);
      assert step in steps;
      var s := Run(cfg, front);
      if step == WorkerAdvance(true) && s.phase.Persisted? {
        SmallSliceIsWhole(cfg, s);
      }
    }
  }

  lemma SmallSliceIsWhole(cfg: Config, s: State)
    requires Inv(cfg, s) && s.phase != Idle && |s.phase.events| < cfg.maxEvents
    ensures LastBlockCovered(cfg, s, s.phase.events)
  {
    hide Exact, AnchorOf;
    assert forall r | r in s.phase.events :: r.blockNumber > s.cursor;
  }

  /** Then each watched log the cursor has passed is in an anchor on the chain whose root is the root of
      its events. */
  lemma EveryDueLogIsAnchored(cfg: Config, steps: seq<Step>, r: LogRow)
    requires ValidChain(cfg.chain) && CleanRun(cfg, steps)
    requires Due(cfg, r, Run(cfg, steps).cursor)
    ensures exists i :: 0 <= i < |Run(cfg, steps).anchors|
              && r in Run(cfg, steps).anchors[i].events
              && Run(cfg, steps).anchors[i] == AnchorOf(cfg, Run(cfg, steps).anchors[i].events)
  {
    RunKeepsInv(cfg, steps);
    CoveredExactlyIfClean(cfg, steps);
    var s := Run(cfg, steps);
    assert Covered(s.anchors, r);
    var i :| 0 <= i < |s.anchors| && r in s.anchors[i].events;
    assert s.anchors[i] == AnchorOf(cfg, s.anchors[i].events);
  }

  // ---------- at most once ----------

  /** No step of the worker fails and it never crashes; the indexer may do what it likes. */
  predicate WorkerSucceeds(step: Step) {
    match step
    case WorkerRecord(fate) => fate == Mined
    case WorkerPersist(ok) => ok
    case WorkerAdvance(ok) => ok
    case WorkerCrash => false
    case _ => true
  }

  ghost predicate SmoothRun(steps: seq<Step>) {
    forall i | 0 <= i < |steps| :: WorkerSucceeds(steps[i])
  }

  /** Everything anchored lies at or below the cursor, except the slice of the running cycle, and
      anchors follow each other without overlap. */
  ghost predicate Once(cfg: Config, s: State) {
    var done := if s.phase.Recorded? || s.phase.Persisted? then |s.anchors| - 1 else |s.anchors|;
    && done >= 0
    && (forall i, r | 0 <= i < done && r in s.anchors[i].events :: r.blockNumber <= s.cursor)
    && (done < |s.anchors| ==> s.anchors[done].events == s.phase.events)
    && (s.phase != Idle ==> s.phase.events != [] && (forall r | r in s.phase.events :: r.blockNumber > s.cursor))
    && (s.phase != Idle ==> Ordered(s.phase.events))
    && (forall i | 0 <= i < |s.anchors| :: Ordered(s.anchors[i].events))
    && (forall i, j, r | 0 <= i < j < |s.anchors| && r in s.anchors[i].events :: r !in s.anchors[j].events)
  }

  ghost predicate Ordered(rows: seq<LogRow>) {
    forall i, j | 0 <= i < j < |rows| :: Before(rows[i], rows[j])
  }

  lemma LastIsHighest(rows: seq<LogRow>, r: LogRow)
    requires Ordered(rows) && r in rows
    ensures r.blockNumber <= rows[|rows| - 1].blockNumber
  {
    var i :| 0 <= i < |rows| && rows[i] == r;
    if i < |rows| - 1 {
      assert Before(rows[i], rows[|rows| - 1]);
    }
  }

  lemma OnePlaceOnly(rows: seq<LogRow>, k: nat, k': nat)
    requires Ordered(rows) && k < |rows| && k' < |rows| && rows[k] == rows[k']
    ensures k == k'
  {
  }

  lemma SmoothStepKeepsOnce(cfg: Config, s: State, step: Step)
    requires Once(cfg, s) && WorkerSucceeds(step)
    ensures Once(cfg, Next(cfg, s, step))
  {
    var t := Next(cfg, s, step);
    if step.WorkerAdvance? && s.phase.Persisted? {
      var done := |s.anchors| - 1;
      forall i, r | 0 <= i < |s.anchors| && r in s.anchors[i].events
        ensures r.blockNumber <= t.cursor
      {
        if i == done {
          LastIsHighest(s.phase.events, r);
        } else {
          assert r.blockNumber <= s.cursor;
          assert s.phase.events[|s.phase.events| - 1] in s.phase.events;
        }
      }
    } else if step.WorkerRecord? && s.phase.Fetched? {
      forall i, j, r | 0 <= i < j < |t.anchors| && r in t.anchors[i].events
        ensures r !in t.anchors[j].events
      {
        if j == |s.anchors| {
          assert r.blockNumber <= s.cursor;
        }
      }
    }
  }

  lemma {:induction false} SmoothRunKeepsOnce(cfg: Config, steps: seq<Step>)
    requires SmoothRun(steps)
    ensures Once(cfg, Run(cfg, steps))
  {
    if steps != [] {
      var front := steps[..|steps| - 1];
      assert forall i | 0 <= i < |front| :: front[i] == steps[i];
      SmoothRunKeepsOnce(cfg, front);
      SmoothStepKeepsOnce(cfg, Run(cfg, front), steps[|steps| - 1]);
    }
  }

  /** Without failures and crashes of the worker, each due log is in exactly one anchor, and there
      exactly once. */
  lemma EveryDueLogIsAnchoredOnce(cfg: Config, steps: seq<Step>, r: LogRow)
    requires ValidChain(cfg.chain) && CleanRun(cfg, steps) && SmoothRun(steps)
    requires Due(cfg, r, Run(cfg, steps).cursor)
    ensures exists i, k :: 0 <= i < |Run(cfg, steps).anchors| && 0 <= k < |Run(cfg, steps).anchors[i].events|
              && Run(cfg, steps).anchors[i].events[k] == r
              && forall i', k' | && 0 <= i' < |Run(cfg, steps).anchors|
                                 && 0 <= k' < |Run(cfg, steps).anchors[i'].events| ::
                   Run(cfg, steps).anchors[i'].events[k'] == r ==> i' == i && k' == k
  {
    hide Next, Run, AnchorOf;
    EveryDueLogIsAnchored(cfg, steps, r);
    SmoothRunKeepsOnce(cfg, steps);
    var anchors := Run(cfg, steps).anchors;
    var i :| 0 <= i < |anchors| && r in anchors[i].events;
    var k :| 0 <= k < |anchors[i].events| && anchors[i].events[k] == r;
    forall i', k' | 0 <= i' < |anchors| && 0 <= k' < |anchors[i'].events| && anchors[i'].events[k'] == r
      ensures i' == i && k' == k
    {
      assert r in anchors[i'].events;
      if i' == i {
        OnePlaceOnly(anchors[i].events, k, k');
      }
    }
  }

  // ---------- a slice cut inside a block ----------

  ghost function RunFrom(cfg: Config, s: State, steps: seq<Step>): State {
    if steps == [] then s else Next(cfg, RunFrom(cfg, s, steps[..|steps| - 1]), steps[|steps| - 1])
  }

  lemma RunFromSnoc(cfg: Config, s: State, steps: seq<Step>, step: Step)
    ensures RunFrom(cfg, s, steps + [step]) == Next(cfg, RunFrom(cfg, s, steps), step)
  {
    assert (steps + [step])[..|steps|] == steps;
  }

  lemma RunFromNothing(cfg: Config, s: State)
    ensures RunFrom(cfg, s, []) == s
  {
  }

  /** A log lost at some moment of a run is lost at every later one. */
  lemma {:induction false} LostForever(cfg: Config, steps: seq<Step>, more: seq<Step>, r: LogRow)
    requires ValidChain(cfg.chain)
    requires Due(cfg, r, Run(cfg, steps).cursor) && !Covered(Run(cfg, steps).anchors, r)
    ensures Due(cfg, r, Run(cfg, steps + more).cursor) && !Covered(Run(cfg, steps + more).anchors, r)
  {
    hide Next, Inv, Due, Covered;
    if more == [] {
      assert steps + more == steps;
    } else {
      var front := more[..|more| - 1];
      assert (steps + more)[..|steps + more| - 1] == steps + front;
      LostForever(cfg, steps, front, r);
      RunKeepsInv(cfg, steps + front);
      LostStaysLost(cfg, Run(cfg, steps + front), more[|more| - 1], r);
    }
  }

  /** One block with two logs, and a limit of one event for a slice. */
  function TwoLogs(keccak: AnchorTree.Keccak, a: LogRow, b: LogRow): Config {
    Config((n: nat) => if n == 1 then [a, b] else [], keccak, 0, 0, 0, 1, 1, 1)
  }

  /** A tick and one completed cycle that takes the first log only. */
  function CutRun(a: LogRow): seq<Step> {
    [IndexerTick(1, Succeeds), WorkerFetch(2, [a]), WorkerRecord(Mined), WorkerPersist(true), WorkerAdvance(true)]
  }

  /** A run with a cut: the second log of the block is never anchored, in any continuation. */
  lemma CutLogIsLostForever(keccak: AnchorTree.Keccak, a: LogRow, b: LogRow, more: seq<Step>)
    requires a.blockNumber == 1 == b.blockNumber && a.logIndex == 0 && b.logIndex == 1
    ensures var cfg := TwoLogs(keccak, a, b);
            && ValidChain(cfg.chain)
            && Due(cfg, b, Run(cfg, CutRun(a) + more).cursor) && !Covered(Run(cfg, CutRun(a) + more).anchors, b)
  {
    var cfg := TwoLogs(keccak, a, b);
    CutLogIsLost(keccak, a, b);
    LostForever(cfg, CutRun(a), more, b);
  }

  lemma RunSnoc(cfg: Config, steps: seq<Step>, step: Step)
    ensures Run(cfg, steps + [step]) == Next(cfg, Run(cfg, steps), step)
  {
    assert (steps + [step])[..|steps|] == steps;
  }

  lemma CutLogIsLost(keccak: AnchorTree.Keccak, a: LogRow, b: LogRow)
    requires a.blockNumber == 1 == b.blockNumber && a.logIndex == 0 && b.logIndex == 1
    ensures var cfg := TwoLogs(keccak, a, b);
            && ValidChain(cfg.chain)
            && Due(cfg, b, Run(cfg, CutRun(a)).cursor) && !Covered(Run(cfg, CutRun(a)).anchors, b)
  {
    hide AnchorOf, ValidChain, Next, TwoLogs;
    var cfg := TwoLogs(keccak, a, b);
    var s0: seq<Step> := [];
    var s1 := s0 + [IndexerTick(1, Succeeds)];
    var s2 := s1 + [WorkerFetch(2, [a])];
    var s3 := s2 + [WorkerRecord(Mined)];
    var s4 := s3 + [WorkerPersist(true)];
    assert s4 + [WorkerAdvance(true)] == CutRun(a);
    RunSnoc(cfg, s0, IndexerTick(1, Succeeds));
    RunSnoc(cfg, s1, WorkerFetch(2, [a]));
    RunSnoc(cfg, s2, WorkerRecord(Mined));
    RunSnoc(cfg, s3, WorkerPersist(true));
    RunSnoc(cfg, s4, WorkerAdvance(true));
    FirstTick(keccak, a, b);
    CycleOfOne(keccak, a, b);
  }

  /** The cycle moves the cursor past the second log and covers the first only. */
  lemma CycleOfOne(keccak: AnchorTree.Keccak, a: LogRow, b: LogRow)
    requires a.blockNumber == 1 == b.blockNumber && a.logIndex == 0 && b.logIndex == 1
    ensures var cfg := TwoLogs(keccak, a, b);
            var fetched := Next(cfg, State(Db([a, b], 1), 0, [], Idle), WorkerFetch(2, [a]));
            var persisted := Next(cfg, Next(cfg, fetched, WorkerRecord(Mined)), WorkerPersist(true));
            var done := Next(cfg, persisted, WorkerAdvance(true));
            Due(cfg, b, done.cursor) && !Covered(done.anchors, b)
  {
    hide AnchorOf, ValidChain;
    var cfg := TwoLogs(keccak, a, b);
    FetchOfOne(keccak, a, b);
    CoveredByMore([], AnchorOf(cfg, [a]), b);
    EventsOfAnchor(cfg, [a]);
    assert [] + [AnchorOf(cfg, [a])] == [AnchorOf(cfg, [a])];
  }

  lemma FirstTick(keccak: AnchorTree.Keccak, a: LogRow, b: LogRow)
    requires a.blockNumber == 1 == b.blockNumber && a.logIndex == 0 && b.logIndex == 1
    ensures var cfg := TwoLogs(keccak, a, b);
            && ValidChain(cfg.chain)
            && Next(cfg, Init(cfg), IndexerTick(1, Succeeds)) == State(Db([a, b], 1), 0, [], Idle)
  {
    hide InsertAll, RangeLogs;
    FirstRange(keccak, a, b);
    NewTable(a, b);
  }

  lemma FirstRange(keccak: AnchorTree.Keccak, a: LogRow, b: LogRow)
    ensures RangeLogs(TwoLogs(keccak, a, b).chain, 1, 1) == [a, b]
  {
    var none: seq<LogRow> := [];
    assert RangeLogs(TwoLogs(keccak, a, b).chain, 1, 0) == none;
    assert none + [a, b] == [a, b];
  }

  lemma NewTable(a: LogRow, b: LogRow)
    requires a.logIndex == 0 && b.logIndex == 1
    ensures InsertAll([], [a, b]) == [a, b]
  {
    hide InsertAll;
    var none: seq<LogRow> := [];
    assert none + [a, b] == [a, b];
    assert DistinctKeys(none + [a, b]);
    InsertAllAppends(none, [a, b]);
  }

  lemma FetchOfOne(keccak: AnchorTree.Keccak, a: LogRow, b: LogRow)
    requires a.blockNumber == 1 == b.blockNumber && a.logIndex == 0 && b.logIndex == 1
    ensures Takes(TwoLogs(keccak, a, b), State(Db([a, b], 1), 0, [], Idle), 2, [a])
  {
    assert forall r | r in [a, b] && r !in [a] :: r == b;
  }
}
