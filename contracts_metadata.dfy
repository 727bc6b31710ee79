/** Contract discovery and enrichment (contractsMetadata.ts).

    Discovery (`loadContractsFromGql`) fetches contract-creation transactions
    in a block window that starts an hour's worth of blocks below the highest
    stored `block_height`, keeps the first edge per contract id, and flushes
    stub rows in chunks with insert-ignore.

    Enrichment (`loadContractsMetadata`) resolves every unresolved stub, writes
    the resolved columns and upserts its source row; a stub that fails is
    marked with the terminal type `'error'`. */
module ContractsMetadata {
  import opened Wrappers
  import opened Json
  import opened Tags
  import opened GatewayDb
  import opened NetworkInfoCache
  import opened JsString

  /** The tuning constants of syncTransactions.ts, which is not part of this model. */
  datatype SyncConfig = SyncConfig(avgBlocksPerHour: int, firstSwTxBlockHeight: int, maxBatchInsert: nat)

  // ---------------------------------------------------------------------------
  // Classification
  // ---------------------------------------------------------------------------

  /** What `evalType` throws when the initial state is `null`. */
  const NullStateMessage: string := "Cannot read properties of null (reading 'ticker')"

  /** The source content types the enrichment stores. */
  const JsContentType: string := "application/javascript"
  const WasmContentType: string := "application/wasm"

  /** `evalType`: `'pst'` iff the initial state has a truthy `ticker` and a
      truthy `balances`, `'other'` otherwise; reading a member of `null`
      throws. */
  function EvalType(initState: Json): (r: Result<ContractType>)
    ensures r.Err? <==> initState.JNull?
    ensures r.Ok? ==> r.value != Error
    ensures r.Ok? ==> (r.value == Pst <==>
      TruthyOpt(Member(initState, "ticker")) && TruthyOpt(Member(initState, "balances")))
  {
    if initState.JNull? then Err(NullStateMessage)
    else if TruthyOpt(Member(initState, "ticker")) && TruthyOpt(Member(initState, "balances")) then Ok(Pst)
    else Ok(Other)
  }

  /** `type == 'pst' ? initState?.[key] : null` */
  function PstField(initState: Json, ctype: ContractType, key: string): Option<Json> {
    if ctype == Pst then Member(initState, key) else None
  }

  // ---------------------------------------------------------------------------
  // Discovery
  // ---------------------------------------------------------------------------

  datatype Block = Block(height: int, timestamp: int)
  datatype GqlNode = GqlNode(id: string, tags: seq<Tag>, block: Block)
  datatype Edge = Edge(node: GqlNode, cursor: string)

  /** The block range `[from, to]` passed to the ledger query. */
  datatype Window = Window(from: int, to: int)

  /** `getContentTypeTag`: the first Content-Type tag's value, if any. */
  function GetContentTypeTag(edge: Edge): Option<string> {
    TagValue(ContentType, edge.node.tags)
  }

  /** The stub row queued for an edge: id, block and `contentType || 'unknown'`. */
  function Stub(edge: Edge): ContractRow {
    var ct := GetContentTypeTag(edge);
    ContractRow(
      edge.node.id, None, None, None, None, None, None,
      Some(edge.node.block.height), Some(edge.node.block.timestamp),
      Some(if ct.Some? && ct.value != "" then ct.value else "unknown"),
      None, None, None, None)
  }

  /** A stub carries the edge's id and block, nothing resolved yet, and the
      value of the first Content-Type tag, or `'unknown'` when there is no
      such tag or its value is empty. */
  lemma StubSpec(edge: Edge)
    ensures var r := Stub(edge);
      && r.contractId == edge.node.id
      && r.blockHeight == Some(edge.node.block.height) && r.blockTimestamp == Some(edge.node.block.timestamp)
      && r.srcTxId.None? && r.contractType.None? && r.initState.None? && r.owner.None?
      && ((forall i :: 0 <= i < |edge.node.tags| ==> edge.node.tags[i].name != ContentType) ==>
            r.contentType == Some("unknown"))
      && (forall i :: IsFirstWithName(edge.node.tags, ContentType, i) && edge.node.tags[i].value != "" ==>
            r.contentType == Some(edge.node.tags[i].value))
      && (forall i :: IsFirstWithName(edge.node.tags, ContentType, i) && edge.node.tags[i].value == "" ==>
            r.contentType == Some("unknown"))
  {
    TagValueSpec(ContentType, edge.node.tags);
  }

  function Stubs(edges: seq<Edge>): seq<ContractRow> {
    seq(|edges|, k requires 0 <= k < |edges| => Stub(edges[k]))
  }

  function EdgeIds(edges: seq<Edge>): set<string> {
    set i | 0 <= i < |edges| :: edges[i].node.id
  }

  /** The position of the first edge carrying `id`. */
  function FirstIndex(edges: seq<Edge>, id: string): (r: nat)
    requires id in EdgeIds(edges)
    ensures r < |edges| && edges[r].node.id == id
    ensures forall j :: 0 <= j < r ==> edges[j].node.id != id
  {
    if edges[0].node.id == id then 0
    else
      assert id in EdgeIds(edges[1..]) by {
        var i :| 0 <= i < |edges| && edges[i].node.id == id;
        assert edges[1..][i - 1] == edges[i];
      }
      1 + FirstIndex(edges[1..], id)
  }

  lemma FirstIndexUnique(edges: seq<Edge>, id: string, i: nat)
    requires i < |edges| && edges[i].node.id == id
    requires forall j :: 0 <= j < i ==> edges[j].node.id != id
    ensures id in EdgeIds(edges) && FirstIndex(edges, id) == i
  {
    assert id in EdgeIds(edges);
  }

  /** The edges that discovery queues, in fetch order: the first edge of every
      contract id (the `contractsInsertsIds` check). */
  function FirstOccurrences(edges: seq<Edge>): seq<Edge>
    decreases |edges|
  {
    if edges == [] then []
    else
      var init := edges[..|edges| - 1];
      var last := edges[|edges| - 1];
      if last.node.id in EdgeIds(init) then FirstOccurrences(init) else FirstOccurrences(init) + [last]
  }

  /** Each contract id is queued at most once, each queued edge is the first
      one fetched with its id, every fetched id is queued, and queued edges
      keep the order of their first occurrences. */
  lemma {:induction false} FirstOccurrencesSpec(edges: seq<Edge>)
    ensures var r := FirstOccurrences(edges);
      && EdgeIds(r) == EdgeIds(edges)
      && (forall k :: 0 <= k < |r| ==> r[k] == edges[FirstIndex(edges, r[k].node.id)])
      && (forall k, l :: 0 <= k < l < |r| ==>
            FirstIndex(edges, r[k].node.id) < FirstIndex(edges, r[l].node.id))
    decreases |edges|
  {
    if edges != [] {
      var init := edges[..|edges| - 1];
      var last := edges[|edges| - 1];
      assert edges == init + [last];
      FirstOccurrencesSpec(init);
      if last.node.id in EdgeIds(init) {
        FirstOccurrencesSnocSeen(init, last, FirstOccurrences(init));
      } else {
        FirstOccurrencesSnocNew(init, last, FirstOccurrences(init));
      }
    }
  }

  /** A step of FirstOccurrences whose last edge repeats an id: the queue is unchanged. */
  lemma FirstOccurrencesSnocSeen(init: seq<Edge>, last: Edge, p: seq<Edge>)
    requires last.node.id in EdgeIds(init)
    requires EdgeIds(p) == EdgeIds(init)
    requires forall k :: 0 <= k < |p| ==> p[k] == init[FirstIndex(init, p[k].node.id)]
    requires forall k, l :: 0 <= k < l < |p| ==>
      FirstIndex(init, p[k].node.id) < FirstIndex(init, p[l].node.id)
    ensures EdgeIds(p) == EdgeIds(init + [last])
    ensures forall k :: 0 <= k < |p| ==> p[k] == (init + [last])[FirstIndex(init + [last], p[k].node.id)]
    ensures forall k, l :: 0 <= k < l < |p| ==>
      FirstIndex(init + [last], p[k].node.id) < FirstIndex(init + [last], p[l].node.id)
  {
    EdgeIdsSnoc(init, last);
    KeptPositions(init, last, p);
  }

  /** A step of FirstOccurrences whose last edge has a new id: it is queued last. */
  lemma FirstOccurrencesSnocNew(init: seq<Edge>, last: Edge, p: seq<Edge>)
    requires last.node.id !in EdgeIds(init)
    requires EdgeIds(p) == EdgeIds(init)
    requires forall k :: 0 <= k < |p| ==> p[k] == init[FirstIndex(init, p[k].node.id)]
    requires forall k, l :: 0 <= k < l < |p| ==>
      FirstIndex(init, p[k].node.id) < FirstIndex(init, p[l].node.id)
    ensures EdgeIds(p + [last]) == EdgeIds(init + [last])
    ensures forall k :: 0 <= k < |p| + 1 ==>
      (p + [last])[k] == (init + [last])[FirstIndex(init + [last], (p + [last])[k].node.id)]
    ensures forall k, l :: 0 <= k < l < |p| + 1 ==>
      FirstIndex(init + [last], (p + [last])[k].node.id) < FirstIndex(init + [last], (p + [last])[l].node.id)
  {
    EdgeIdsSnoc(init, last);
    KeptPositions(init, last, p);
    NewLastPosition(init, last, p);
  }

  /** Extending the fetched edges keeps the first position of every queued id. */
  lemma KeptPositions(init: seq<Edge>, last: Edge, p: seq<Edge>)
    requires EdgeIds(p) == EdgeIds(init)
    requires forall k :: 0 <= k < |p| ==> p[k] == init[FirstIndex(init, p[k].node.id)]
    ensures forall k :: 0 <= k < |p| ==>
      && p[k].node.id in EdgeIds(init + [last])
      && FirstIndex(init + [last], p[k].node.id) == FirstIndex(init, p[k].node.id)
      && p[k] == (init + [last])[FirstIndex(init + [last], p[k].node.id)]
  {
    FirstIndexExtend(init, last);
    forall k | 0 <= k < |p| ensures p[k].node.id in EdgeIds(init) {
      assert p[k].node.id in EdgeIds(p);
    }
  }

  /** A new id at the end is queued last, after every earlier first position. */
  lemma NewLastPosition(init: seq<Edge>, last: Edge, p: seq<Edge>)
    requires EdgeIds(p) == EdgeIds(init)
    requires last.node.id !in EdgeIds(init)
    requires forall k :: 0 <= k < |p| ==>
      && p[k].node.id in EdgeIds(init + [last])
      && FirstIndex(init + [last], p[k].node.id) == FirstIndex(init, p[k].node.id)
    ensures last.node.id in EdgeIds(init + [last])
    ensures FirstIndex(init + [last], last.node.id) == |init|
    ensures EdgeIds(p + [last]) == EdgeIds(init) + {last.node.id}
    ensures forall k :: 0 <= k < |p| ==> FirstIndex(init + [last], p[k].node.id) < |init|
  {
    EdgeIdsSnoc(p, last);
    forall j | 0 <= j < |init| ensures (init + [last])[j].node.id != last.node.id {
      assert init[j].node.id in EdgeIds(init);
    }
    FirstIndexUnique(init + [last], last.node.id, |init|);
  }

  lemma EdgeIdsSnoc(edges: seq<Edge>, e: Edge)
    ensures EdgeIds(edges + [e]) == EdgeIds(edges) + {e.node.id}
  {
    var s := edges + [e];
    forall id | id in EdgeIds(s) ensures id in EdgeIds(edges) + {e.node.id} {
      var i :| 0 <= i < |s| && s[i].node.id == id;
      if i < |edges| { assert s[i] == edges[i]; }
    }
    forall id | id in EdgeIds(edges) ensures id in EdgeIds(s) {
      var i :| 0 <= i < |edges| && edges[i].node.id == id;
      assert s[i] == edges[i];
    }
    assert s[|edges|] == e;
  }

  /** Appending an edge does not move the first occurrence of an id already present. */
  lemma FirstIndexExtend(init: seq<Edge>, last: Edge)
    ensures forall id :: id in EdgeIds(init) ==>
      id in EdgeIds(init + [last]) && FirstIndex(init + [last], id) == FirstIndex(init, id)
  {
    EdgeIdsSnoc(init, last);
    forall id | id in EdgeIds(init)
      ensures FirstIndex(init + [last], id) == FirstIndex(init, id)
    {
      var f := FirstIndex(init, id);
      FirstIndexUnique(init + [last], id, f);
    }
  }

  lemma {:induction false} FirstOccurrencesPrefix(edges: seq<Edge>, i: nat)
    requires i <= |edges|
    ensures FirstOccurrences(edges[..i]) <= FirstOccurrences(edges)
    decreases |edges| - i
  {
    if i < |edges| {
      var init := edges[..|edges| - 1];
      assert edges[..i] == init[..i];
      FirstOccurrencesPrefix(init, i);
    } else {
      assert edges[..i] == edges;
    }
  }

  function Flatten<T>(chunks: seq<seq<T>>): seq<T>
    decreases |chunks|
  {
    if chunks == [] then [] else chunks[0] + Flatten(chunks[1..])
  }

  lemma {:induction false} FlattenSnoc<T>(chunks: seq<seq<T>>, c: seq<T>)
    ensures Flatten(chunks + [c]) == Flatten(chunks) + c
    decreases |chunks|
  {
    if chunks == [] {
      assert Flatten([c]) == c + Flatten([c][1..]);
    } else {
      assert (chunks + [c])[1..] == chunks[1..] + [c];
      FlattenSnoc(chunks[1..], c);
    }
  }

  /** How the queue is flushed: chunks of exactly `n` rows in order, then one
      non-empty remainder of at most `n` rows; with `n == 0` the size check
      never fires and everything goes out in the final flush. */
  function Chunks<T>(s: seq<T>, n: nat): seq<seq<T>>
    decreases |s|
  {
    if s == [] then []
    else if n == 0 || |s| <= n then [s]
    else [s[..n]] + Chunks(s[n..], n)
  }

  /** The chunks cover the queue in order, none is empty, all but the last
      hold exactly `n` rows and the last at most `n`; with `n == 0` there is
      at most one chunk. */
  lemma {:induction false} ChunksShape<T>(s: seq<T>, n: nat)
    ensures Flatten(Chunks(s, n)) == s
    ensures forall k :: 0 <= k < |Chunks(s, n)| ==> Chunks(s, n)[k] != []
    ensures n > 0 ==> forall k :: 0 <= k < |Chunks(s, n)| ==> |Chunks(s, n)[k]| <= n
    ensures n > 0 ==> forall k :: 0 <= k < |Chunks(s, n)| - 1 ==> |Chunks(s, n)[k]| == n
    ensures n == 0 ==> |Chunks(s, n)| <= 1
    decreases |s|
  {
    var r := Chunks(s, n);
    if s == [] {
    } else if n == 0 || |s| <= n {
      assert r == [s];
      FlattenHead(r);
      assert r[1..] == [];
    } else {
      var rest := Chunks(s[n..], n);
      ChunksShape(s[n..], n);
      assert r == [s[..n]] + rest;
      FlattenHead(r);
      assert r[1..] == rest;
      assert s == s[..n] + s[n..];
      forall k | 0 <= k < |r| ensures r[k] != [] && |r[k]| <= n && (k < |r| - 1 ==> |r[k]| == n) {
        if k > 0 { assert r[k] == rest[k - 1]; }
      }
    }
  }

  lemma FlattenHead<T>(chunks: seq<seq<T>>)
    requires chunks != []
    ensures Flatten(chunks) == chunks[0] + Flatten(chunks[1..])
  {
  }

  /** Full chunks already flushed are exactly the leading chunks of the whole queue. */
  lemma {:induction false} ChunksAfterFull<T>(full: seq<seq<T>>, rest: seq<T>, n: nat)
    requires n > 0
    requires forall k :: 0 <= k < |full| ==> |full[k]| == n
    ensures Chunks(Flatten(full) + rest, n) == full + Chunks(rest, n)
    decreases |full|
  {
    if full == [] {
      assert Flatten(full) + rest == rest;
    } else {
      var tail := full[1..];
      ChunkLengthsTail(full, n);
      ChunksAfterFull(tail, rest, n);
      FlattenHead(full);
      ChunksAfterFullStep(full[0], tail, Flatten(full), Flatten(tail), rest, n);
    }
  }
  /** Dropping the first chunk keeps every chunk full. */
  lemma ChunkLengthsTail<T>(full: seq<seq<T>>, n: nat)
    requires full != []
    requires forall k :: 0 <= k < |full| ==> |full[k]| == n
    ensures forall k :: 0 <= k < |full[1..]| ==> |full[1..][k]| == n
  {
    forall k | 0 <= k < |full[1..]| ensures |full[1..][k]| == n {
      assert full[1..][k] == full[k + 1];
    }
  }
  /** One full chunk in front of a queue whose chunks are known. */
  lemma ChunksAfterFullStep<T>(head: seq<T>, tail: seq<seq<T>>, flat: seq<T>, flatTail: seq<T>, rest: seq<T>, n: nat)
    requires n > 0 && |head| == n
    requires flat == head + flatTail
    requires Chunks(flatTail + rest, n) == tail + Chunks(rest, n)
    ensures Chunks(flat + rest, n) == [head] + tail + Chunks(rest, n)
  {
    assert flat + rest == head + (flatTail + rest);
    ChunksFullHead(head, flatTail + rest, n);
  }

  /** A full chunk at the front of the queue is the first chunk. */
  lemma ChunksFullHead<T>(head: seq<T>, tail: seq<T>, n: nat)
    requires n > 0 && |head| == n
    ensures Chunks(head + tail, n) == [head] + Chunks(tail, n)
  {
    var s := head + tail;
    if tail == [] {
      assert s == head;
    } else {
      assert s[..n] == head && s[n..] == tail;
    }
  }
  /** The rows discovery queues for a fetched batch. */
  function DiscoveredStubs(edges: seq<Edge>): seq<ContractRow> {
    Stubs(FirstOccurrences(edges))
  }

  /** The checkpoint: the given rows' maximum non-null `block_height`, or None. */
  ghost predicate IsMaxBlockHeight(t: ContractsTable, h: Option<int>) {
    && (h.None? <==> forall k :: k in t ==> t[k].blockHeight.None?)
    && (h.Some? ==> exists k :: k in t && t[k].blockHeight == h)
    && (h.Some? ==> forall k :: k in t && t[k].blockHeight.Some? ==> t[k].blockHeight.value <= h.value)
  }

  /** `lastProcessedBlockHeight = result?.block_height || FIRST_SW_TX_BLOCK_HEIGHT`
      (a falsy 0 also falls back) and `from = last - AVG_BLOCKS_PER_HOUR`. */
  function FetchWindow(last: Option<int>, networkHeight: int, cfg: SyncConfig): (w: Window)
    ensures w.to == networkHeight
    ensures last.None? || last == Some(0) ==> w.from == cfg.firstSwTxBlockHeight - cfg.avgBlocksPerHour
    ensures last.Some? && last != Some(0) ==> w.from == last.value - cfg.avgBlocksPerHour
  {
    var lastProcessed := if last.Some? && last.value != 0 then last.value else cfg.firstSwTxBlockHeight;
    Window(lastProcessed - cfg.avgBlocksPerHour, networkHeight)
  }

  datatype DiscoveryOutcome =
    | CheckpointFailed                                         // the checkpoint query threw
    | NoNetworkInfo                                            // no cached network info: the cycle throws
    | FetchFailed(window: Window)                              // the ledger query threw
    | Inserted(window: Window, flushed: seq<seq<ContractRow>>)  // every queued stub was flushed
    | FlushFailed(window: Window, flushed: seq<seq<ContractRow>>) // a flush threw; earlier chunks stay

  /** `loadContractsFromGql`: one discovery cycle. `fetch` answers the ledger
      query for a window; `failingFlush`, when present, is the (0-based) flush
      whose insert throws. */
  method LoadContractsFromGql(
    db: GatewayDb, cache: Cache, cfg: SyncConfig, checkpointFails: bool,
    fetch: Window -> Result<seq<Edge>>, failingFlush: Option<nat>)
    returns (outcome: DiscoveryOutcome)
    requires db.Valid()
    modifies db`contracts
    ensures db.Valid()
    ensures checkpointFails ==> outcome == CheckpointFailed
    ensures !checkpointFails && cache.cachedNetworkInfo.None? ==> outcome == NoNetworkInfo
    ensures outcome.CheckpointFailed? || outcome.NoNetworkInfo? || outcome.FetchFailed? ==>
      db.contracts == old(db.contracts)
    ensures !checkpointFails && cache.cachedNetworkInfo.Some? ==>
      && !outcome.CheckpointFailed? && !outcome.NoNetworkInfo?
      && (exists h :: IsMaxBlockHeight(old(db.contracts), h) &&
                      outcome.window == FetchWindow(h, cache.cachedNetworkInfo.value.height, cfg))
      && (outcome.FetchFailed? <==> fetch(outcome.window).Err?)
    ensures outcome.Inserted? || outcome.FlushFailed? ==>
      var chunks := Chunks(DiscoveredStubs(fetch(outcome.window).value), cfg.maxBatchInsert);
      && fetch(outcome.window).Ok?
      && (if failingFlush.Some? && failingFlush.value < |chunks|
          then outcome == FlushFailed(outcome.window, chunks[..failingFlush.value])
          else outcome == Inserted(outcome.window, chunks))
      && db.contracts == InsertIgnore(old(db.contracts), Flatten(outcome.flushed))
  {
    if checkpointFails {
      return CheckpointFailed;
    }
    var last := db.MaxBlockHeight();
    if cache.cachedNetworkInfo.None? {
      return NoNetworkInfo;
    }
    var window := FetchWindow(last, cache.cachedNetworkInfo.value.height, cfg);
    var fetched := fetch(window);
    if fetched.Err? {
      return FetchFailed(window);
    }
    var transactions := fetched.value;
    if |transactions| == 0 {
      // "No new contracts": nothing is queued
      assert DiscoveredStubs(transactions) == [];
      return Inserted(window, []);
    }
    var flushed, failed := QueueAndFlush(db, transactions, cfg.maxBatchInsert, failingFlush);
    if failed {
      return FlushFailed(window, flushed);
    }
    return Inserted(window, flushed);
  }

  /** The queueing loop of `loadContractsFromGql`: walk the fetched edges,
      queue a stub for each id not seen before, flush the queue whenever it
      holds exactly `n` stubs and flush the remainder at the end. The flush
      numbered `failingFlush` throws, which ends the cycle with every earlier
      chunk committed. */
  method QueueAndFlush(db: GatewayDb, transactions: seq<Edge>, n: nat, failingFlush: Option<nat>)
    returns (flushed: seq<seq<ContractRow>>, failed: bool)
    requires db.Valid()
    modifies db`contracts
    ensures db.Valid()
    ensures var chunks := Chunks(DiscoveredStubs(transactions), n);
      if failingFlush.Some? && failingFlush.value < |chunks|
      then failed && flushed == chunks[..failingFlush.value]
      else !failed && flushed == chunks
    ensures db.contracts == InsertIgnore(old(db.contracts), Flatten(flushed))
  {
    ghost var all := DiscoveredStubs(transactions);
    ghost var t0 := db.contracts;
    var contractsInserts: seq<ContractRow> := [];
    var contractsInsertsIds: set<string> := {};
    flushed := [];
    var i := 0;
    while i < |transactions|
      invariant 0 <= i <= |transactions|
      invariant db.Valid()
      invariant Queued(transactions, i, contractsInsertsIds, flushed, contractsInserts, n, failingFlush)
      invariant db.contracts == InsertIgnore(t0, Flatten(flushed))
    {
      contractsInsertsIds, flushed, contractsInserts, failed :=
        QueueEdge(db, t0, transactions, i, n, failingFlush, contractsInsertsIds, flushed, contractsInserts);
      if failed {
        return;
      }
      i := i + 1;
    }
    assert transactions[..i] == transactions;
    ChunksAtEnd(flushed, contractsInserts, n);
    failed := false;
    if |contractsInserts| > 0 {
      if failingFlush.Some? && failingFlush.value == |flushed| {
        assert Chunks(all, n)[..|flushed|] == flushed;
        failed := true;
        return;
      }
      db.InsertContracts(contractsInserts);
      InsertIgnoreAppend(t0, Flatten(flushed), contractsInserts);
      FlattenSnoc(flushed, contractsInserts);
      flushed := flushed + [contractsInserts];
    } else {
      assert Flatten(flushed) == all;
    }
  }

  /** The state of the queueing loop after the first `i` edges: `ids` are the
      ids seen, the flushed chunks followed by the pending queue are the stubs
      discovered so far, every flushed chunk is full, the queue is never full
      between edges, and no flush so far was the failing one. */
  ghost predicate Queued(
    edges: seq<Edge>, i: nat, ids: set<string>, flushed: seq<seq<ContractRow>>,
    pending: seq<ContractRow>, n: nat, failingFlush: Option<nat>)
  {
    && i <= |edges|
    && ids == EdgeIds(edges[..i])
    && Batched(flushed, pending, DiscoveredStubs(edges[..i]), n, failingFlush)
  }

  /** `queued` split into full chunks already flushed and a pending queue that
      is not full, none of the flushes so far being the failing one. */
  ghost predicate Batched<T>(flushed: seq<seq<T>>, pending: seq<T>, queued: seq<T>, n: nat, failingFlush: Option<nat>) {
    && Flatten(flushed) + pending == queued
    && (forall k :: 0 <= k < |flushed| ==> |flushed[k]| == n)
    && (n > 0 ==> |pending| < n)
    && (n == 0 ==> flushed == [])
    && (failingFlush.None? || failingFlush.value >= |flushed|)
  }

  lemma BatchedPush<T>(flushed: seq<seq<T>>, pending: seq<T>, queued: seq<T>, x: T, n: nat, failingFlush: Option<nat>)
    requires Batched(flushed, pending, queued, n, failingFlush) && |pending| + 1 != n
    ensures Batched(flushed, pending + [x], queued + [x], n, failingFlush)
  {
  }

  lemma BatchedFlush<T>(flushed: seq<seq<T>>, pending: seq<T>, queued: seq<T>, x: T, n: nat, failingFlush: Option<nat>)
    requires Batched(flushed, pending, queued, n, failingFlush) && |pending| + 1 == n
    requires failingFlush.None? || failingFlush.value != |flushed|
    ensures Flatten(flushed + [pending + [x]]) == Flatten(flushed) + (pending + [x])
    ensures Batched(flushed + [pending + [x]], [], queued + [x], n, failingFlush)
  {
    var chunk := pending + [x];
    var flushed' := flushed + [chunk];
    assert failingFlush.None? || failingFlush.value >= |flushed'|;
    SnocChunkLengths(flushed, chunk, n);
    FlattenSnoc(flushed, chunk);
    assert Flatten(flushed') + [] == queued + [x];
  }

  lemma SnocChunkLengths<T>(flushed: seq<seq<T>>, chunk: seq<T>, n: nat)
    requires forall k :: 0 <= k < |flushed| ==> |flushed[k]| == n
    requires |chunk| == n
    ensures forall k :: 0 <= k < |flushed + [chunk]| ==> |(flushed + [chunk])[k]| == n
  {
    forall k | 0 <= k < |flushed + [chunk]| ensures |(flushed + [chunk])[k]| == n {
      if k < |flushed| {
        assert (flushed + [chunk])[k] == flushed[k];
      }
    }
  }

  /** One iteration of the queueing loop: queue the stub of edge `i` unless its
      id was seen, and flush the queue when it reaches `n` stubs. `failed`
      reports that this flush was the failing one. */
  method QueueEdge(
    db: GatewayDb, ghost t0: ContractsTable, transactions: seq<Edge>, i: nat, n: nat,
    failingFlush: Option<nat>, ids: set<string>, flushed: seq<seq<ContractRow>>,
    pending: seq<ContractRow>)
    returns (ids': set<string>, flushed': seq<seq<ContractRow>>, pending': seq<ContractRow>, failed: bool)
    requires i < |transactions|
    requires db.Valid()
    requires Queued(transactions, i, ids, flushed, pending, n, failingFlush)
    requires db.contracts == InsertIgnore(t0, Flatten(flushed))
    modifies db`contracts
    ensures db.Valid()
    ensures db.contracts == InsertIgnore(t0, Flatten(flushed'))
    ensures failed ==>
      var chunks := Chunks(DiscoveredStubs(transactions), n);
      failingFlush == Some(|flushed'|) && |flushed'| < |chunks| && flushed' == chunks[..|flushed'|]
    ensures !failed ==> Queued(transactions, i + 1, ids', flushed', pending', n, failingFlush)
  {
    var transaction := transactions[i];
    ids', flushed', pending', failed := ids, flushed, pending, false;
    if transaction.node.id !in ids {
      pending' := pending + [Stub(transaction)];
      ids' := ids + {transaction.node.id};
      if |pending'| == n {
        if failingFlush.Some? && failingFlush.value == |flushed| {
          QueuedFlushFails(transactions, i, ids, flushed, pending, n, failingFlush);
          failed := true;
          return;
        }
        db.InsertContracts(pending');
        InsertIgnoreAppend(t0, Flatten(flushed), pending');
        QueuedFlush(transactions, i, ids, flushed, pending, n, failingFlush);
        flushed' := flushed + [pending'];
        pending' := [];
      } else {
        QueuedPush(transactions, i, ids, flushed, pending, n, failingFlush);
      }
    } else {
      QueuedSkip(transactions, i, ids, flushed, pending, n, failingFlush);
    }
  }

  /** An edge whose id was seen leaves the queue as it is. */
  lemma QueuedSkip(
    edges: seq<Edge>, i: nat, ids: set<string>, flushed: seq<seq<ContractRow>>,
    pending: seq<ContractRow>, n: nat, failingFlush: Option<nat>)
    requires i < |edges| && edges[i].node.id in ids
    requires Queued(edges, i, ids, flushed, pending, n, failingFlush)
    ensures Queued(edges, i + 1, ids, flushed, pending, n, failingFlush)
  {
    QueueStep(edges, i);
  }

  /** A new id below the batch size is queued. */
  lemma QueuedPush(
    edges: seq<Edge>, i: nat, ids: set<string>, flushed: seq<seq<ContractRow>>,
    pending: seq<ContractRow>, n: nat, failingFlush: Option<nat>)
    requires i < |edges| && edges[i].node.id !in ids && |pending| + 1 != n
    requires Queued(edges, i, ids, flushed, pending, n, failingFlush)
    ensures Queued(edges, i + 1, ids + {edges[i].node.id}, flushed, pending + [Stub(edges[i])], n, failingFlush)
  {
    QueueStep(edges, i);
    BatchedPush(flushed, pending, DiscoveredStubs(edges[..i]), Stub(edges[i]), n, failingFlush);
  }

  /** A new id that fills the queue: the full queue becomes the next flushed chunk. */
  lemma QueuedFlush(
    edges: seq<Edge>, i: nat, ids: set<string>, flushed: seq<seq<ContractRow>>,
    pending: seq<ContractRow>, n: nat, failingFlush: Option<nat>)
    requires i < |edges| && edges[i].node.id !in ids && |pending| + 1 == n
    requires failingFlush.None? || failingFlush.value != |flushed|
    requires Queued(edges, i, ids, flushed, pending, n, failingFlush)
    ensures Flatten(flushed + [pending + [Stub(edges[i])]]) == Flatten(flushed) + (pending + [Stub(edges[i])])
    ensures Queued(edges, i + 1, ids + {edges[i].node.id}, flushed + [pending + [Stub(edges[i])]], [], n, failingFlush)
  {
    QueueStep(edges, i);
    BatchedFlush(flushed, pending, DiscoveredStubs(edges[..i]), Stub(edges[i]), n, failingFlush);
  }

  /** The flush that fails: what was flushed before it is a proper prefix of the chunks of the whole queue. */
  lemma QueuedFlushFails(
    edges: seq<Edge>, i: nat, ids: set<string>, flushed: seq<seq<ContractRow>>,
    pending: seq<ContractRow>, n: nat, failingFlush: Option<nat>)
    requires i < |edges| && edges[i].node.id !in ids && |pending| + 1 == n
    requires Queued(edges, i, ids, flushed, pending, n, failingFlush)
    ensures |flushed| < |Chunks(DiscoveredStubs(edges), n)|
    ensures Chunks(DiscoveredStubs(edges), n)[..|flushed|] == flushed
  {
    QueueStep(edges, i);
    FirstOccurrencesPrefix(edges, i + 1);
    ChunksPrefixOnFailure(flushed, pending + [Stub(edges[i])], edges, i + 1, n);
  }

  /** After the loop, the chunks of the whole queue are the full chunks
      flushed so far followed by the non-empty remainder. */
  lemma ChunksAtEnd<T>(flushed: seq<seq<T>>, pending: seq<T>, n: nat)
    requires forall k :: 0 <= k < |flushed| ==> |flushed[k]| == n
    requires n > 0 ==> |pending| < n
    requires n == 0 ==> flushed == []
    ensures Chunks(Flatten(flushed) + pending, n) == flushed + if pending == [] then [] else [pending]
  {
    if n > 0 {
      ChunksAfterFull(flushed, pending, n);
    } else {
      assert Flatten(flushed) + pending == pending;
    }
  }

  /** How the queue grows when the loop reaches edge `i`. */
  lemma QueueStep(edges: seq<Edge>, i: nat)
    requires i < |edges|
    ensures EdgeIds(edges[..i + 1]) == EdgeIds(edges[..i]) + {edges[i].node.id}
    ensures DiscoveredStubs(edges[..i + 1]) ==
      if edges[i].node.id in EdgeIds(edges[..i]) then DiscoveredStubs(edges[..i])
      else DiscoveredStubs(edges[..i]) + [Stub(edges[i])]
  {
    assert edges[..i + 1] == edges[..i] + [edges[i]];
    assert edges[..i + 1][..i] == edges[..i];
    EdgeIdsSnoc(edges[..i], edges[i]);
  }

  /** When a flush fails mid-batch, what was flushed is a prefix of the chunks of the whole queue. */
  lemma ChunksPrefixOnFailure(flushed: seq<seq<ContractRow>>, pending: seq<ContractRow>,
                              edges: seq<Edge>, i: nat, n: nat)
    requires i <= |edges| && n > 0 && |pending| == n
    requires forall k :: 0 <= k < |flushed| ==> |flushed[k]| == n
    requires Flatten(flushed) + pending == DiscoveredStubs(edges[..i])
    requires FirstOccurrences(edges[..i]) <= FirstOccurrences(edges)
    ensures |flushed| < |Chunks(DiscoveredStubs(edges), n)|
    ensures Chunks(DiscoveredStubs(edges), n)[..|flushed|] == flushed
  {
    StubsPrefix(FirstOccurrences(edges[..i]), FirstOccurrences(edges));
    ChunksOfExtension(flushed, pending, DiscoveredStubs(edges), n);
  }

  lemma StubsPrefix(p: seq<Edge>, q: seq<Edge>)
    requires p <= q
    ensures Stubs(p) <= Stubs(q)
  {
    assert Stubs(q)[..|p|] == Stubs(p);
  }

  /** Full chunks followed by a full pending chunk, all a prefix of `all`:
      the full chunks are a proper prefix of the chunks of `all`. */
  lemma ChunksOfExtension<T>(flushed: seq<seq<T>>, pending: seq<T>, all: seq<T>, n: nat)
    requires n > 0 && |pending| == n
    requires forall k :: 0 <= k < |flushed| ==> |flushed[k]| == n
    requires Flatten(flushed) + pending <= all
    ensures |flushed| < |Chunks(all, n)|
    ensures Chunks(all, n)[..|flushed|] == flushed
  {
    var rest := all[|Flatten(flushed)|..];
    assert all == Flatten(flushed) + rest;
    assert |rest| >= n;
    ChunksAfterFull(flushed, rest, n);
    assert Chunks(rest, n) != [];
  }

  // ---------------------------------------------------------------------------
  // Enrichment
  // ---------------------------------------------------------------------------

  /** `definition.contractType`: a JavaScript or a WebAssembly contract. */
  datatype SourceKind = Js | Wasm

  /** What the contract-definition loader returns for a contract id. */
  datatype ContractDefinition = ContractDefinition(
    txId: string,
    srcTxId: string,
    srcTx: StoredTx,
    contractTx: StoredTx,
    initState: Json,
    owner: string,
    contractType: SourceKind,
    src: Option<string>,
    srcWasmLang: Option<string>)

  /** The answers of the collaborators for one contract, in the order the
      enrichment asks them: the definition loader, `ownerToAddress` of the
      source owner, the source bytes (asked only for WebAssembly), whether
      the contract update or the source upsert throws, and whether the
      `catch` block's own `type = 'error'` update throws. */
  datatype Resolution = Resolution(
    definition: Result<ContractDefinition>,
    srcTxOwner: Result<string>,
    srcBinary: Result<seq<Byte>>,
    updateFails: bool,
    upsertFails: bool,
    markFails: bool)

  /** Something throws before the contract row is updated: a collaborator,
      `evalType` on a `null` state, or the update itself. */
  predicate FailsBeforeUpdate(res: Resolution) {
    PrepareFails(res) || res.updateFails
  }

  /** The preparation of the writes throws; `PrepareSpec` shows this is
      exactly when `Prepare` fails. */
  predicate PrepareFails(res: Resolution) {
    || res.definition.Err?
    || res.definition.value.initState.JNull?
    || res.srcTxOwner.Err?
    || (res.definition.value.contractType.Wasm? && res.srcBinary.Err?)
  }

  /** Something in the `try` block throws, so the `catch` block marks the row. */
  predicate NeedsMark(res: Resolution) {
    FailsBeforeUpdate(res) || res.upsertFails
  }

  /** The `catch` block's update throws as well: the exception leaves the
      loop and ends the run. */
  predicate Aborts(res: Resolution) {
    NeedsMark(res) && res.markFails
  }

  /** The row keeps its unresolved state: nothing was written to it. */
  predicate Stalls(res: Resolution) {
    FailsBeforeUpdate(res) && res.markFails
  }

  /** The enrichment's selection: a non-empty id not starting with `()`
      (the `ILIKE` pattern has no letters, so case does not matter), no
      source yet and no type yet. */
  predicate Selectable(row: ContractRow) {
    row.contractId != "" && !ParensPrefixed(row.contractId) &&
    row.srcTxId.None? && row.contractType.None?
  }

  /** `contract_id ILIKE '()%'` */
  predicate ParensPrefixed(id: string) {
    |id| >= 2 && id[0] == '(' && id[1] == ')'
  }

  function SelectUnresolved(t: ContractsTable): set<string> {
    set k | k in t && Selectable(t[k])
  }

  /** The two writes one enrichment prepares: the contract update and the
      source row to upsert. */
  datatype Prepared = Prepared(patch: ContractPatch, source: SourceRow)

  /** The source row: `src` with `application/javascript` for JavaScript,
      otherwise `src_binary` and `src_wasm_lang` with `application/wasm`;
      the bundler columns are left out of the insert. */
  function SourceInsert(def: ContractDefinition, srcTxOwner: string, binary: seq<Byte>): SourceRow {
    SourceRow(
      def.srcTxId, Some(srcTxOwner),
      if def.contractType.Js? then def.src else None,
      Some(if def.contractType.Js? then JsContentType else WasmContentType),
      if def.contractType.Js? then None else Some(binary),
      if def.contractType.Js? then None else def.srcWasmLang,
      None, None, Some(def.srcTx))
  }

  /** The part of the `try` block before the first write: every collaborator
      call that can throw, then the update and the source row. An error here
      means no write happened. */
  function Prepare(res: Resolution): Result<Prepared> {
    if res.definition.Err? then Err(res.definition.message)
    else
      var def := res.definition.value;
      var ty := EvalType(def.initState);
      if ty.Err? then Err(ty.message)
      else if res.srcTxOwner.Err? then Err(res.srcTxOwner.message)
      else if def.contractType.Wasm? && res.srcBinary.Err? then Err(res.srcBinary.message)
      else
        var binary := if def.contractType.Js? then [] else res.srcBinary.value;
        Ok(Prepared(
          Resolved(def.srcTxId, def.initState, def.owner, ty.value,
                   PstField(def.initState, ty.value, "ticker"), PstField(def.initState, ty.value, "name"),
                   def.contractTx),
          SourceInsert(def, res.srcTxOwner.value, binary)))
  }

  /** Preparation fails exactly when a collaborator throws (the source bytes
      only matter for WebAssembly) or the initial state is `null`. The update
      carries the definition and its type, with PST columns only for a PST;
      the source row holds either `src` or `src_binary`, never both. */
  lemma PrepareSpec(res: Resolution)
    ensures var r := Prepare(res);
      && (r.Ok? <==>
            && res.definition.Ok? && !res.definition.value.initState.JNull? && res.srcTxOwner.Ok?
            && (res.definition.value.contractType.Wasm? ==> res.srcBinary.Ok?))
      && (r.Err? <==> PrepareFails(res))
      && (r.Ok? ==>
            var def := res.definition.value;
            var p := r.value.patch;
            var src := r.value.source;
            && p.Resolved? && p.srcTxId == def.srcTxId && p.initState == def.initState && p.owner == def.owner
            && p.contractTx == def.contractTx
            && p.contractType == (if TruthyOpt(Member(def.initState, "ticker")) &&
                                     TruthyOpt(Member(def.initState, "balances")) then Pst else Other)
            && (p.contractType == Pst ==> p.pstTicker == Member(def.initState, "ticker") &&
                                           p.pstName == Member(def.initState, "name"))
            && (p.contractType != Pst ==> p.pstTicker.None? && p.pstName.None?)
            && src.srcTxId == def.srcTxId && src.owner == Some(res.srcTxOwner.value)
            && src.bundlerSrcTxId.None? && src.bundlerSrcNode.None? && src.srcTx == Some(def.srcTx)
            && (def.contractType.Js? ==>
                  src.src == def.src && src.srcBinary.None? && src.srcWasmLang.None? &&
                  src.srcContentType == Some(JsContentType))
            && (def.contractType.Wasm? ==>
                  src.src.None? && src.srcBinary == Some(res.srcBinary.value) &&
                  src.srcWasmLang == def.srcWasmLang && src.srcContentType == Some(WasmContentType)))
  {
  }

  /** One iteration of the enrichment loop, keyed by the selected id: on any
      error before the writes the row is marked `'error'`; otherwise the row
      is updated, and the source upserted, and a failing upsert marks the
      already updated row `'error'`. A mark that throws writes nothing. */
  function EnrichRow(t: Tables, id: string, res: Resolution): Tables {
    var p := Prepare(res);
    if p.Err? || res.updateFails then
      if res.markFails then t else Tables(UpdateWhere(t.contracts, id, MarkError), t.sources)
    else
      var updated := UpdateWhere(t.contracts, id, p.value.patch);
      if res.upsertFails then
        Tables(if res.markFails then updated else UpdateWhere(updated, id, MarkError), t.sources)
      else Tables(updated, UpsertSourceMerge(t.sources, p.value.source))
  }

  /** The same iteration as the source writes it: the success update is keyed
      by the loader's `definition.txId` and the error update by the trimmed
      selected id. */
  function EnrichRowAsWritten(t: Tables, id: string, res: Resolution): Tables {
    var p := Prepare(res);
    if p.Err? || res.updateFails then
      if res.markFails then t else Tables(UpdateWhere(t.contracts, Trim(id), MarkError), t.sources)
    else
      var updated := UpdateWhere(t.contracts, res.definition.value.txId, p.value.patch);
      if res.upsertFails then
        Tables(if res.markFails then updated else UpdateWhere(updated, Trim(id), MarkError), t.sources)
      else Tables(updated, UpsertSourceMerge(t.sources, p.value.source))
  }

  /** For an id that is its own trim, and a loader that answers with the
      id it was asked for, the step as written is the keyed step. */
  lemma EnrichRowAsWrittenAgrees(t: Tables, id: string, res: Resolution)
    requires Trim(id) == id
    requires res.definition.Ok? ==> res.definition.value.txId == id
    ensures EnrichRowAsWritten(t, id, res) == EnrichRow(t, id, res)
  {
    var p := Prepare(res);
    if !(p.Err? || res.updateFails) {
      assert res.definition.Ok? && res.definition.value.txId == id;
    }
  }

  /** The part of EnrichRowProgress the loop needs: the frame and the selection. */
  lemma EnrichRowSelection(t: Tables, id: string, res: Resolution)
    requires id in SelectUnresolved(t.contracts)
    ensures var r := EnrichRow(t, id, res);
      && r.contracts.Keys == t.contracts.Keys
      && (forall k :: k in t.contracts && k != id ==> r.contracts[k] == t.contracts[k])
      && SelectUnresolved(r.contracts) == SelectUnresolved(t.contracts) - (if Stalls(res) then {} else {id})
  {
    EnrichRowProgress(t, id, res);
  }

  /** A selected row leaves the selection unless nothing could be written to
      it: it either gets a source or the terminal type `'error'`. It is
      marked `'error'` exactly when something threw and the mark itself did
      not; on an early failure it is then the old row marked `'error'`, and
      when that mark throws too, nothing changes. Every other row stays as
      it was. */
  lemma EnrichRowProgress(t: Tables, id: string, res: Resolution)
    requires id in SelectUnresolved(t.contracts)
    ensures var r := EnrichRow(t, id, res);
      && r.contracts.Keys == t.contracts.Keys
      && (forall k :: k in t.contracts && k != id ==> r.contracts[k] == t.contracts[k])
      && (r.contracts[id].contractType == Some(Error) <==> NeedsMark(res) && !res.markFails)
      && (FailsBeforeUpdate(res) && !res.markFails ==>
            r.contracts[id] == t.contracts[id].(contractType := Some(Error)) && r.sources == t.sources)
      && (Stalls(res) ==> r == t)
      && (!Stalls(res) ==> SelectUnresolved(r.contracts) == SelectUnresolved(t.contracts) - {id})
  {
    EnrichRowFrame(t, id, res);
    if !Stalls(res) {
      SelectAfterUpdate(t.contracts, EnrichRow(t, id, res).contracts, id);
    }
  }

  /** What one iteration does to the row it works on, and that it leaves
      every other row as it was. */
  lemma EnrichRowFrame(t: Tables, id: string, res: Resolution)
    requires id in t.contracts
    ensures var r := EnrichRow(t, id, res);
      && r.contracts.Keys == t.contracts.Keys
      && (forall k :: k in t.contracts && k != id ==> r.contracts[k] == t.contracts[k])
      && (!Stalls(res) ==> r.contracts[id].contractType.Some?)
      && (!Stalls(res) ==> (r.contracts[id].contractType == Some(Error) <==> NeedsMark(res) && !res.markFails))
      && (FailsBeforeUpdate(res) && !res.markFails ==>
            r.contracts[id] == t.contracts[id].(contractType := Some(Error)) && r.sources == t.sources)
      && (Stalls(res) ==> r == t)
  {
    PrepareSpec(res);
  }

  /** Changing only the row under `id`, and giving it a type, takes exactly
      `id` out of the selection. */
  lemma SelectAfterUpdate(t: ContractsTable, u: ContractsTable, id: string)
    requires id in t && u.Keys == t.Keys
    requires forall k :: k in t && k != id ==> u[k] == t[k]
    requires u[id].contractType.Some?
    ensures SelectUnresolved(u) == SelectUnresolved(t) - {id}
  {
  }

  /** On success the contract row carries the definition's source id,
      initial state, owner and stored transaction, and the type of the
      initial state; the PST columns hold the state's `ticker` and `name`
      for a PST and are empty otherwise; the bundler columns are the ones
      the row already had. The source row is the one prepared, merged into
      any existing row with the same `src_tx_id`. */
  lemma EnrichRowSuccess(t: Tables, id: string, res: Resolution)
    requires id in t.contracts
    requires Prepare(res).Ok? && !res.updateFails && !res.upsertFails
    ensures var r := EnrichRow(t, id, res);
      var def := res.definition.value;
      && r.contracts[id].srcTxId == Some(def.srcTxId)
      && r.contracts[id].initState == Some(def.initState)
      && r.contracts[id].owner == Some(def.owner)
      && r.contracts[id].contractTx == Some(def.contractTx)
      && r.contracts[id].contractType == Some(EvalType(def.initState).value)
      && (r.contracts[id].contractType == Some(Pst) ==>
            r.contracts[id].pstTicker == Member(def.initState, "ticker")
            && r.contracts[id].pstName == Member(def.initState, "name"))
      && (r.contracts[id].contractType != Some(Pst) ==>
            r.contracts[id].pstTicker.None? && r.contracts[id].pstName.None?)
      && r.contracts[id].bundlerContractTxId == t.contracts[id].bundlerContractTxId
      && r.contracts[id].bundlerContractNode == t.contracts[id].bundlerContractNode
      && r.contracts[id].bundlerContractTags == t.contracts[id].bundlerContractTags
      && r.sources == UpsertSourceMerge(t.sources, Prepare(res).value.source)
      && def.srcTxId in r.sources
      && (r.sources[def.srcTxId].src.Some? ==> r.sources[def.srcTxId].srcBinary.None?)
  {
    PrepareSpec(res);
  }

  /** On the error path the as-written step updates the row keyed by the
      trimmed id; when no row has that key, nothing is written at all. */
  lemma AsWrittenErrorMissesRow(t: Tables, id: string, res: Resolution)
    requires Prepare(res).Err? && Trim(id) !in t.contracts
    ensures EnrichRowAsWritten(t, id, res) == t
  {
    var u := UpdateWhere(t.contracts, Trim(id), MarkError);
    assert u == t.contracts;
  }

  /** A selected id with white space around it, whose resolution fails: the
      trimmed id matches no row, so the error mark is lost and the row is
      selected again on every later run. */
  lemma TrimmedIdLosesErrorMark()
    ensures var row := ContractRow(" cAAA", None, None, None, None, None, None, Some(1), Some(2),
                                   Some("unknown"), None, None, None, None);
      var t := Tables(map[" cAAA" := row], map[]);
      var res := Resolution(Err("not found"), Err("not found"), Err("not found"), false, false, false);
      && " cAAA" in SelectUnresolved(t.contracts)
      && EnrichRowAsWritten(t, " cAAA", res) == t
      && " cAAA" in SelectUnresolved(EnrichRowAsWritten(t, " cAAA", res).contracts)
      && " cAAA" !in SelectUnresolved(EnrichRow(t, " cAAA", res).contracts)
  {
    var row := ContractRow(" cAAA", None, None, None, None, None, None, Some(1), Some(2),
                           Some("unknown"), None, None, None, None);
    var t := Tables(map[" cAAA" := row], map[]);
    var res := Resolution(Err("not found"), Err("not found"), Err("not found"), false, false, false);
    assert !ParensPrefixed(" cAAA");
    assert Selectable(t.contracts[" cAAA"]);
    SelectedRow(t.contracts, " cAAA");
    TrimLeadingSpace();
    assert "cAAA" != " cAAA";
    PrepareSpec(res);
    AsWrittenErrorMissesRow(t, " cAAA", res);
    EnrichRowProgress(t, " cAAA", res);
  }

  lemma SelectedRow(t: ContractsTable, id: string)
    requires id in t && Selectable(t[id])
    ensures id in SelectUnresolved(t)
  {
  }

  lemma TrimLeadingSpace()
    ensures Trim(" cAAA") == "cAAA"
  {
    assert IsJsWhitespace(' ');
    assert !IsJsWhitespace('c') && !IsJsWhitespace('A');
    assert " cAAA"[1..] == "cAAA";
    assert TrimStart(" cAAA") == "cAAA";
  }

  function Elems(ids: seq<string>): set<string> {
    set i | 0 <= i < |ids| :: ids[i]
  }

  predicate Distinct(ids: seq<string>) {
    forall i, j :: 0 <= i < j < |ids| ==> ids[i] != ids[j]
  }

  lemma ElemsSnoc(ids: seq<string>, id: string)
    ensures Elems(ids + [id]) == Elems(ids) + {id}
    ensures (ids + [id])[..|ids|] == ids
    ensures Distinct(ids) && id !in Elems(ids) ==> Distinct(ids + [id])
  {
    assert forall i :: 0 <= i < |ids| ==> (ids + [id])[i] == ids[i];
    assert (ids + [id])[|ids|] == id;
  }

  lemma ElemsSnocDistinct(ids: seq<string>, id: string)
    requires Distinct(ids + [id])
    ensures Distinct(ids) && id !in Elems(ids)
    ensures Elems(ids + [id]) == Elems(ids) + {id}
  {
    ElemsSnoc(ids, id);
    forall i | 0 <= i < |ids| ensures ids[i] != id {
      assert (ids + [id])[i] == ids[i] && (ids + [id])[|ids|] == id;
    }
  }

  /** The enrichment loop over the ids in the order they are processed.
      `resolve(id)` is what the collaborators answer for the selected row
      `id`; the loader is asked for its trimmed form. */
  function EnrichAll(t: Tables, ids: seq<string>, resolve: string -> Resolution): Tables
    decreases |ids|
  {
    if ids == [] then t
    else
      var last := ids[|ids| - 1];
      EnrichRow(EnrichAll(t, ids[..|ids| - 1], resolve), last, resolve(last))
  }

  /** The same loop with the step as the source writes it. */
  function EnrichAllAsWritten(t: Tables, ids: seq<string>, resolve: string -> Resolution): Tables
    decreases |ids|
  {
    if ids == [] then t
    else
      var last := ids[|ids| - 1];
      EnrichRowAsWritten(EnrichAllAsWritten(t, ids[..|ids| - 1], resolve), last, resolve(last))
  }

  /** No id of `ids` ends the run: no error mark throws. */
  predicate Completes(ids: seq<string>, resolve: string -> Resolution)
    decreases |ids|
  {
    ids == [] || (Completes(ids[..|ids| - 1], resolve) && !Aborts(resolve(ids[|ids| - 1])))
  }

  /** Every id is its own trim and the loader answers with the id it was asked for. */
  predicate LoaderEchoes(ids: seq<string>, resolve: string -> Resolution) {
    forall i :: 0 <= i < |ids| ==>
      Trim(ids[i]) == ids[i] &&
      (resolve(ids[i]).definition.Ok? ==> resolve(ids[i]).definition.value.txId == ids[i])
  }

  /** Where ids carry no white space and the loader echoes them, the loop as
      written has the effect of the keyed loop, so what is proved about the
      keyed loop holds for the source's loop. */
  lemma {:induction false} EnrichAllAsWrittenAgrees(t: Tables, ids: seq<string>, resolve: string -> Resolution)
    requires LoaderEchoes(ids, resolve)
    ensures EnrichAllAsWritten(t, ids, resolve) == EnrichAll(t, ids, resolve)
    decreases |ids|
  {
    if ids != [] {
      var init := ids[..|ids| - 1];
      var last := ids[|ids| - 1];
      assert LoaderEchoes(init, resolve) by {
        forall i | 0 <= i < |init| ensures init[i] == ids[i] { }
      }
      EnrichAllAsWrittenAgrees(t, init, resolve);
      EnrichRowAsWrittenAgrees(EnrichAll(t, init, resolve), last, resolve(last));
    }
  }

  /** Enriching distinct selected ids, none of which ends the run, removes
      exactly those ids from the selection and touches no other contract
      row. */
  lemma {:induction false} EnrichAllSelection(t: Tables, ids: seq<string>, resolve: string -> Resolution)
    requires Distinct(ids) && Elems(ids) <= SelectUnresolved(t.contracts)
    requires Completes(ids, resolve)
    ensures var r := EnrichAll(t, ids, resolve);
      && r.contracts.Keys == t.contracts.Keys
      && (forall k :: k in t.contracts && k !in Elems(ids) ==> r.contracts[k] == t.contracts[k])
      && SelectUnresolved(r.contracts) == SelectUnresolved(t.contracts) - Elems(ids)
    decreases |ids|
  {
    if ids != [] {
      var init := ids[..|ids| - 1];
      var last := ids[|ids| - 1];
      LastSplit(ids);
      ElemsSnocDistinct(init, last);
      EnrichAllSelection(t, init, resolve);
      EnrichRowSelection(EnrichAll(t, init, resolve), last, resolve(last));
    }
  }

  /** A run that ends at its last id: the ids before it are enriched as
      usual, and the last one leaves the selection unless nothing could be
      written to it. */
  lemma EnrichAllAborted(t: Tables, ids: seq<string>, resolve: string -> Resolution)
    requires ids != [] && Distinct(ids) && Elems(ids) <= SelectUnresolved(t.contracts)
    requires Completes(ids[..|ids| - 1], resolve)
    ensures var last := ids[|ids| - 1];
      SelectUnresolved(EnrichAll(t, ids, resolve).contracts) ==
        SelectUnresolved(t.contracts) - Elems(ids[..|ids| - 1]) -
        (if Stalls(resolve(last)) then {} else {last})
  {
    var init := ids[..|ids| - 1];
    var last := ids[|ids| - 1];
    LastSplit(ids);
    ElemsSnocDistinct(init, last);
    EnrichAllSelection(t, init, resolve);
    EnrichRowSelection(EnrichAll(t, init, resolve), last, resolve(last));
  }

  lemma LastSplit<T>(s: seq<T>)
    requires s != []
    ensures s == s[..|s| - 1] + [s[|s| - 1]]
  {
  }

  /** How one run of `loadContractsMetadata` ends: the selection query threw
      (it is outside any `try`), every selected row was processed, or the
      `catch` block's update threw on the last row processed. */
  datatype EnrichRun =
    | SelectFailed
    | Completed(processed: seq<string>)
    | Aborted(processed: seq<string>)

  /** What one run of `loadContractsMetadata` did to the tables, by how it
      ended. A failed selection writes nothing. Otherwise the processed ids
      are distinct selected ids and the tables are the enrichment of those
      ids in that order. A completed run processed the whole selection, no
      step aborted, and nothing is left to select. An aborted run stopped at
      the first step whose mark threw, and the rows still selected are the
      initial selection minus the completed steps, minus the aborted row
      unless it stalled. */
  predicate EnrichOutcome(before: Tables, after: Tables, run: EnrichRun, resolve: string -> Resolution) {
    match run
    case SelectFailed => after == before
    case Completed(p) =>
      && Distinct(p) && Elems(p) == SelectUnresolved(before.contracts)
      && after == EnrichAll(before, p, resolve)
      && Completes(p, resolve)
      && SelectUnresolved(after.contracts) == {}
    case Aborted(p) =>
      && Distinct(p) && Elems(p) <= SelectUnresolved(before.contracts)
      && after == EnrichAll(before, p, resolve)
      && p != [] && Completes(p[..|p| - 1], resolve) && Aborts(resolve(p[|p| - 1]))
      && SelectUnresolved(after.contracts) ==
           SelectUnresolved(before.contracts) - Elems(p[..|p| - 1]) -
           (if Stalls(resolve(p[|p| - 1])) then {} else {p[|p| - 1]})
  }

  /** `loadContractsMetadata`: select the unresolved stubs, then enrich them
      one by one, in the order the query returns them (unspecified, hence
      any order). A failure marks only that row and the loop goes on, unless
      the mark itself throws, which ends the run. */
  method LoadContractsMetadata(db: GatewayDb, selectFails: bool, resolve: string -> Resolution)
    returns (run: EnrichRun)
    requires db.Valid()
    modifies db
    ensures db.Valid()
    ensures run.SelectFailed? <==> selectFails
    ensures EnrichOutcome(old(db.State()), db.State(), run, resolve)
  {
    if selectFails {
      return SelectFailed;
    }
    var result := SelectUnresolved(db.contracts);
    if |result| == 0 {
      return Completed([]);
    }
    var processed, aborted := EnrichEach(db, result, resolve);
    run := if aborted then Aborted(processed) else Completed(processed);
    EnrichEachOutcome(old(db.State()), db.State(), processed, aborted, resolve);
  }

  /** The loop's guarantees, over the selection, give the run's outcome. */
  lemma EnrichEachOutcome(before: Tables, after: Tables, processed: seq<string>, aborted: bool,
                          resolve: string -> Resolution)
    requires Distinct(processed) && Elems(processed) <= SelectUnresolved(before.contracts)
    requires after == EnrichAll(before, processed, resolve)
    requires !aborted ==> Elems(processed) == SelectUnresolved(before.contracts) && Completes(processed, resolve)
    requires aborted ==>
      && processed != [] && Completes(processed[..|processed| - 1], resolve)
      && Aborts(resolve(processed[|processed| - 1]))
    ensures EnrichOutcome(before, after, if aborted then Aborted(processed) else Completed(processed), resolve)
  {
    if aborted {
      EnrichAllAborted(before, processed, resolve);
    } else {
      EnrichAllSelection(before, processed, resolve);
    }
  }

  /** The `for` loop over the selected rows, in any order, until a mark throws. */
  method EnrichEach(db: GatewayDb, result: set<string>, resolve: string -> Resolution)
    returns (processed: seq<string>, aborted: bool)
    requires db.Valid()
    modifies db
    ensures db.Valid()
    ensures Distinct(processed) && Elems(processed) <= result
    ensures db.State() == EnrichAll(old(db.State()), processed, resolve)
    ensures !aborted ==> Elems(processed) == result && Completes(processed, resolve)
    ensures aborted ==>
      && processed != [] && Completes(processed[..|processed| - 1], resolve)
      && Aborts(resolve(processed[|processed| - 1]))
  {
    processed := [];
    aborted := false;
    var todo := result;
    while todo != {} && !aborted
      invariant db.Valid()
      invariant Worklist(processed, todo, result)
      invariant db.State() == EnrichAll(old(db.State()), processed, resolve)
      invariant Ended(processed, aborted, resolve)
      decreases |todo|
    {
      var id :| id in todo;
      var ok := EnrichNext(db, old(db.State()), resolve, processed, id);
      WorklistStep(processed, todo, result, id);
      EndedStep(processed, id, ok, resolve);
      processed := processed + [id];
      todo := todo - {id};
      aborted := !ok;
    }
  }

  /** The enrichment loop's bookkeeping: the ids processed so far, each once,
      and the ids still to do make up the selection. */
  ghost predicate Worklist(processed: seq<string>, todo: set<string>, result: set<string>) {
    Distinct(processed) && Elems(processed) + todo == result && Elems(processed) !! todo
  }

  lemma WorklistStep(processed: seq<string>, todo: set<string>, result: set<string>, id: string)
    requires Worklist(processed, todo, result) && id in todo
    ensures Worklist(processed + [id], todo - {id}, result)
  {
    ElemsSnoc(processed, id);
  }

  /** The loop's exit flag: set exactly when the last id processed ended
      the run, and no earlier id did. */
  ghost predicate Ended(processed: seq<string>, aborted: bool, resolve: string -> Resolution) {
    && (!aborted ==> Completes(processed, resolve))
    && (aborted ==> processed != [] && Completes(processed[..|processed| - 1], resolve) &&
                    Aborts(resolve(processed[|processed| - 1])))
  }

  lemma EndedStep(processed: seq<string>, id: string, ok: bool, resolve: string -> Resolution)
    requires Ended(processed, false, resolve)
    requires ok <==> !Aborts(resolve(id))
    ensures Ended(processed + [id], !ok, resolve)
  {
    assert (processed + [id])[..|processed|] == processed;
  }

  /** The body of the enrichment loop for the row `id`; `ok` is false when
      the run ends here. */
  method EnrichNext(db: GatewayDb, ghost t0: Tables, resolve: string -> Resolution, ghost processed: seq<string>, id: string)
    returns (ok: bool)
    requires db.Valid()
    requires db.State() == EnrichAll(t0, processed, resolve)
    modifies db
    ensures db.Valid()
    ensures ok <==> !Aborts(resolve(id))
    ensures db.State() == EnrichAll(t0, processed + [id], resolve)
  {
    ok := EnrichContract(db, id, resolve(id));
    assert (processed + [id])[..|processed|] == processed;
  }

  /** One iteration of the enrichment loop, in the source's order of writes;
      `ok` is false when the `catch` block's update throws. */
  method EnrichContract(db: GatewayDb, id: string, res: Resolution) returns (ok: bool)
    requires db.Valid()
    modifies db
    ensures db.Valid()
    ensures ok <==> !Aborts(res)
    ensures db.State() == EnrichRow(old(db.State()), id, res)
  {
    var prepared := Prepare(res);
    if prepared.Err? || res.updateFails {
      if res.markFails {
        return false;
      }
      db.UpdateContract(id, MarkError);
      return true;
    }
    db.UpdateContract(id, prepared.value.patch);
    if res.upsertFails {
      if res.markFails {
        return false;
      }
      db.UpdateContract(id, MarkError);
      return true;
    }
    db.UpsertSource(prepared.value.source);
    return true;
  }
}
