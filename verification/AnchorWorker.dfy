/** One uninterrupted cycle of the anchor worker, as its code runs it. */
module AnchorWorker {
  import opened Hashing
  import opened Texts
  import opened Indexer
  import opened AnchorMessage
  import opened AnchorPipeline
  import AnchorTree

  /** Throws: an empty slice, a field that does not fit the message, or a store that fails. */
  datatype Status = Anchored | Noop | RecordError | Throws

  class Worker {
    const cfg: Config
    const algorithm: Text
    const anchorChain: Hash
    var cursor: int
    var anchors: seq<Anchor>

    /** The pipeline between two cycles of this worker, with the indexer's database as it stands. */
    ghost function View(db: Db): State
      reads this
    {
      State(db, cursor, anchors, Idle)
    }

    constructor (cfg: Config, algorithm: Text, anchorChain: Hash)
      ensures this.cfg == cfg && this.algorithm == algorithm && this.anchorChain == anchorChain
      ensures View(Db([], cfg.indexerStart)) == Init(cfg)
    {
      this.cfg, this.algorithm, this.anchorChain := cfg, algorithm, anchorChain;
      cursor, anchors := cfg.workerStart, [];
    }

    /** The cycle is the four worker steps of the pipeline one after the other, and the message it
        signs is the canonical message of its slice. `rows` is the answer of its query. */
    method RunOnce(latestBlock: int, ghost db: Db, rows: seq<LogRow>, recordFate: RecordFate, persistOk: bool,
                   advanceOk: bool)
      returns (status: Status, message: Option<Bytes>)
      requires IsFetch(db.events, cursor, latestBlock - 1, cfg.maxEvents, rows)
      modifies this
      ensures status != Noop && rows != [] ==>
                message == SliceMessage(cfg.keccak, algorithm, Rows(rows), anchorChain)
      ensures status == Throws && (rows == [] || message == None) ==> View(db) == old(View(db))
      ensures message.Some? ==>
                View(db) == RunFrom(cfg, old(View(db)), [WorkerFetch(latestBlock, rows), WorkerRecord(recordFate),
                                                         WorkerPersist(persistOk), WorkerAdvance(advanceOk)])
      ensures status == Noop ==> View(db) == old(View(db)) && message == None
      ensures status == Noop <==> latestBlock - 1 <= old(cursor) || |rows| < cfg.minEvents
      ensures status == Anchored ==>
                rows != [] && anchors == old(anchors) + [AnchorOf(cfg, rows)] && cursor == rows[|rows| - 1].blockNumber
      ensures status != Anchored ==> cursor == old(cursor)
    {
      hide RunFrom, Next, CanonicalMessage, AnchorTree.Root, AnchorTree.LeafNodes, IsFetch;
      ghost var before := View(db);
      message := None;
      var safeTo := latestBlock - 1;
      if safeTo <= cursor {
        return Noop, None;
      }
      if |rows| < cfg.minEvents {
        return Noop, None;
      }
      if |rows| == 0 {
        return Throws, None;
      }
      var blockFrom, blockTo := rows[0].blockNumber, rows[|rows| - 1].blockNumber;
      var leaves := EventLeaves(cfg.keccak, Rows(rows));
      var result := AnchorTree.MerkleRoot(cfg.keccak, leaves);
      var root := result.root;
      message := CanonicalMessage(algorithm, root, blockFrom, blockTo, |rows|, anchorChain);
      if message == None {
        return Throws, None;
      }
      CycleSteps(cfg, before, latestBlock, rows, recordFate, persistOk, advanceOk);
      if recordFate == Refused {
        return RecordError, message;
      }
      anchors := anchors + [Anchor(rows, root, blockFrom, blockTo, |rows|)];
      if recordFate == MinedButErrorSeen {
        return RecordError, message;
      }
      if !persistOk || !advanceOk {
        return Throws, message;
      }
      cursor := blockTo;
      return Anchored, message;
    }
  }

  lemma CycleSteps(cfg: Config, s: State, latest: int, rows: seq<LogRow>, recordFate: RecordFate, persistOk: bool,
                   advanceOk: bool)
    requires Takes(cfg, s, latest, rows)
    ensures RunFrom(cfg, s, [WorkerFetch(latest, rows), WorkerRecord(recordFate), WorkerPersist(persistOk),
                             WorkerAdvance(advanceOk)])
         == if recordFate == Refused then s
            else if recordFate == Mined && persistOk && advanceOk then
              s.(anchors := s.anchors + [AnchorOf(cfg, rows)], cursor := rows[|rows| - 1].blockNumber)
            else s.(anchors := s.anchors + [AnchorOf(cfg, rows)])
  {
    hide AnchorOf, IsFetch;
    var fetch, record, persist, advance :=
      WorkerFetch(latest, rows), WorkerRecord(recordFate), WorkerPersist(persistOk), WorkerAdvance(advanceOk);
    RunFromSnoc(cfg, s, [], fetch);
    RunFromSnoc(cfg, s, [fetch], record);
    RunFromSnoc(cfg, s, [fetch, record], persist);
    RunFromSnoc(cfg, s, [fetch, record, persist], advance);
    RunFromNothing(cfg, s);
    assert [] + [fetch] == [fetch];
    assert [fetch] + [record] == [fetch, record];
    assert [fetch, record] + [persist] == [fetch, record, persist];
    assert [fetch, record, persist] + [advance] == [fetch, record, persist, advance];
  }
}
