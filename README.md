# Gateway sync and indexing core, modelled in Dafny

This project models the indexing core of a SmartWeave contract gateway. The
gateway keeps two Postgres tables. `contracts` holds one row per contract and
`contracts_src` holds one row per contract source. Background tasks and HTTP
routes keep these tables in step with the ledger:

- **Contract discovery** (`loadContractsFromGql`). It reads the highest
  stored `block_height` and fetches contract-creation transactions from an
  hour's worth of blocks below it up to the cached network height. It keeps
  the first edge per contract id and flushes stub rows in fixed-size chunks,
  ignoring rows whose key already exists.
- **Contract enrichment** (`loadContractsMetadata`). It selects the stubs
  that are still unresolved and resolves each one. It classifies the initial
  state as PST or other, writes the resolved columns and upserts the source
  row. A stub that fails gets the terminal type `'error'`; when that update
  throws as well, the run ends there.
- **Network-height cache** (`updateNetworkInfo` and its task). This is a
  pair of process-wide cells. The latest network info and its block are
  refreshed under a guard that refuses a strictly lower height.
- **Interactions route**. It parses the page, limit and status parameters,
  builds the positional bindings of the SQL statement, and evaluates the
  statement over a table of interactions. The response carries a paging
  summary and optional per-status totals.
- **Deploy route**. It prepares the uploader tags, builds the contract and
  source records, inserts the contract row and inserts the source row with
  ignore-on-conflict.

## How the pieces are modelled

- **Tables.** A table is a Dafny `map` from primary key to row
  (`GatewayDb`). `GatewayDb.GatewayDb` is a class whose two fields are
  reassigned by methods. Each of those methods is proved against a pure
  function that states the SQL conflict policy: insert-ignore, insert-merge,
  plain insert, update by key.
- **Task cycles and handlers.** Each is a `method` over that class. Its
  loops carry invariants, and its `ensures` ties the new state to a
  specification function (`EnrichAll`, `Chunks`, `Deploy`, `Respond`). The
  properties of those functions are proved as lemmas.
- **The network cache.** It is a class with the two cells. The order of its
  writes is the source's: the info cell is written before the block is
  fetched.
- **Remote collaborators.** These are the ledger GraphQL query, the
  contract-definition loader, `ownerToAddress`, the Bundlr upload and
  `JSON.parse`. Each is an input: a `Result` per call, or a function from
  the request to a `Result`. The tuning constants of
  `syncTransactions.ts` and `constants.ts` are parameters
  (`ContractsMetadata.SyncConfig`, `bundlerNode`), because those files are
  not part of this model.
- **Failing statements.** Whether a database statement throws for a
  reason its text and values do not decide (a lost connection, say) is an
  input. This covers:
  - the enrichment's selection query, its update, its upsert and its
    `'error'` mark;
  - the interactions route's main statement and its per-status totals
    statement (`InteractionsRoute.EngineFaults`);
  - the deploy route's `contracts` insert and `contracts_src` insert.

### Where the code is followed over the description

- **Checkpoint fallback.** A stored checkpoint of `0` falls back to
  `FIRST_SW_TX_BLOCK_HEIGHT`, exactly as when no row exists, because the code
  uses `||` (`src/gateway/tasks/contractsMetadata.ts:64`).
- **Empty JavaScript source.** Its `src` is stored as null, because of
  `src || null` (`src/gateway/router/routes/deployContractRoute.ts:85`).
- **Empty Init-State tag.** The initial state is then read from the
  transaction data, because of `!initStateRaw`
  (`src/gateway/router/routes/deployContractRoute.ts:56`).

## Model

| member | source | states |
|---|---|---|
| Json.Member | src/gateway/tasks/contractsMetadata.ts:248 | `v?.key` yields a value exactly when `v` is an object with that key, and then it is that member |
| Tags.TagValueSpec | src/gateway/router/routes/deployContractRoute.ts:113-116 | a tag lookup finds nothing exactly when no tag has the name; otherwise it yields the value of the first tag with that name |
| Tags.TagValueSkipsPrefix | src/gateway/router/routes/deployContractRoute.ts:130-136 | tags placed in front of a list do not change the lookup of a name they do not carry |
| Tags.FirstWithNameUnique | src/gateway/router/routes/deployContractRoute.ts:114 | the first tag with a given name is unique |
| JsString.Trim | src/gateway/tasks/contractsMetadata.ts:186 | `trim()` neither starts nor ends with white space, is no longer than its input, and changes any string that starts with white space |
| JsString.TrimInfix | src/gateway/tasks/contractsMetadata.ts:186 | the trim is an infix of the input with only white space before it and only white space after it |
| JsString.TrimNoOp | src/gateway/tasks/contractsMetadata.ts:240 | a string without white space at either end is its own trim |
| JsString.TrimIdempotent | src/gateway/tasks/contractsMetadata.ts:186 | trimming twice is trimming once |
| GatewayDb.InsertIgnoreSpec | src/gateway/tasks/contractsMetadata.ts:132-134 | insert-ignore never changes an existing row, adds exactly the keys of the new rows, and stores under a new key the first row that carries it |
| GatewayDb.InsertIgnoreAppend | src/gateway/tasks/contractsMetadata.ts:105-127 | flushing rows in consecutive chunks has the same effect as inserting them all at once |
| GatewayDb.InsertIgnoreIdempotent | src/gateway/tasks/contractsMetadata.ts:133 | inserting the same stubs twice has the same effect as inserting them once, so an overlapping window changes nothing |
| GatewayDb.InsertContract | src/gateway/router/routes/deployContractRoute.ts:79 | a plain insert fails exactly on a duplicate `contract_id`; otherwise it adds that one row and keeps every other row |
| GatewayDb.InsertSourceIgnore | src/gateway/router/routes/deployContractRoute.ts:94 | a source insert with ignore-on-conflict never overwrites an existing source row and adds a new key with the proposed row |
| GatewayDb.UpsertSourceMerge | src/gateway/tasks/contractsMetadata.ts:224-235 | on a conflict, exactly the seven merge columns take the proposed values and `owner` keeps the stored one; other rows are unchanged |
| GatewayDb.Patch | src/gateway/tasks/contractsMetadata.ts:190-198 | an update keeps id, block and content type; the error patch sets only `type = 'error'`; a resolved patch sets the source id, initial state, owner, type, PST ticker and name, and contract transaction it carries, and keeps the bundler columns |
| GatewayDb.UpdateWhere | src/gateway/tasks/contractsMetadata.ts:222 | an update by key changes only the row with that key, and only if it exists; the key set is unchanged |
| GatewayDb.GatewayDb.MaxBlockHeight | src/gateway/tasks/contractsMetadata.ts:52-57 | the checkpoint is None exactly when no row has a height; otherwise it is the height of some row and no row's height exceeds it |
| GatewayDb.GatewayDb.InsertContracts | src/gateway/tasks/contractsMetadata.ts:132-134 | the contracts table becomes the insert-ignore of the chunk, and rows stay stored under their own keys |
| GatewayDb.GatewayDb.UpdateContract | src/gateway/tasks/contractsMetadata.ts:222 | the contracts table becomes the update-by-key of the old table |
| GatewayDb.GatewayDb.UpsertSource | src/gateway/tasks/contractsMetadata.ts:224-235 | the sources table becomes the merge-upsert of the old table |
| GatewayDb.GatewayDb.InsertSource | src/gateway/router/routes/deployContractRoute.ts:94 | the sources table becomes the insert-ignore of the old table |
| GatewayDb.GatewayDb.InsertContractRow | src/gateway/router/routes/deployContractRoute.ts:79 | it succeeds exactly when the key is new, adds the row when it succeeds, and leaves the table as it was on a duplicate |
| NetworkInfoCache.Refresh | src/gateway/tasks/networkInfoCache.ts:13-29 | a failed info fetch changes nothing; a strictly lower height is refused and both cells keep their values; an empty cache or an equal or higher height is taken; the block is the one for the new `current` id, or the old block if that fetch fails |
| NetworkInfoCache.HeightNeverDecreases | src/gateway/tasks/networkInfoCache.ts:16-23 | across any sequence of refreshes (none resolving to no info), once a height is cached the cached height never decreases |
| NetworkInfoCache.Cache.constructor | src/gateway/tasks/networkInfoCache.ts:7-8 | both cells start out null |
| NetworkInfoCache.Cache.UpdateNetworkInfo | src/gateway/tasks/networkInfoCache.ts:13-29 | one call leaves the cells as `Refresh` of the old cells, writing the info before the block fetch and never raising |
| NetworkInfoCache.Cache.RunTick | src/gateway/tasks/networkInfoCache.ts:32-41 | with both cells set, a tick refreshes once; otherwise it refreshes until both cells are set or the answers run out, and no earlier attempt had completed them |
| ContractsMetadata.EvalType | src/gateway/tasks/contractsMetadata.ts:247-253 | `'pst'` exactly when `ticker` and `balances` are both truthy, otherwise `'other'`; never `'error'`; a null state throws |
| ContractsMetadata.StubSpec | src/gateway/tasks/contractsMetadata.ts:93-102 | a stub carries the edge's id and block and nothing resolved; its content type is the first Content-Type tag's value, or `'unknown'` when there is no such tag or its value is empty |
| ContractsMetadata.FirstIndex | src/gateway/tasks/contractsMetadata.ts:89-92 | the position of the first fetched edge with a given id |
| ContractsMetadata.FirstOccurrencesSpec | src/gateway/tasks/contractsMetadata.ts:89-103 | each fetched id is queued once, from its first edge, and queued edges keep the order of their first occurrences |
| ContractsMetadata.ChunksShape | src/gateway/tasks/contractsMetadata.ts:105-127 | the chunks cover the queue in order and none is empty; all but the last hold exactly `MAX_BATCH_INSERT` rows and the last holds at most that many |
| ContractsMetadata.ChunksAfterFull | src/gateway/tasks/contractsMetadata.ts:105-114 | full chunks already flushed are exactly the leading chunks of the whole queue |
| ContractsMetadata.ChunksAtEnd | src/gateway/tasks/contractsMetadata.ts:118-127 | after the loop, the chunks of the queue are the flushed chunks plus the non-empty remainder |
| ContractsMetadata.FetchWindow | src/gateway/tasks/contractsMetadata.ts:63-65 | the window ends at the cached height and starts `AVG_BLOCKS_PER_HOUR` below the checkpoint, or below `FIRST_SW_TX_BLOCK_HEIGHT` when the checkpoint is missing or 0 |
| ContractsMetadata.LoadContractsFromGql | src/gateway/tasks/contractsMetadata.ts:47-130 | one discovery cycle: a failed checkpoint, missing network info or a failed fetch writes nothing; otherwise the window comes from the true checkpoint, the flushes are the chunks of the deduplicated stubs (cut at the failing flush), and the table is their insert-ignore |
| ContractsMetadata.QueueAndFlush | src/gateway/tasks/contractsMetadata.ts:87-127 | the flushed chunks are the chunks of the discovered stubs, or their prefix before the failing flush, and the table holds exactly those chunks inserted with ignore |
| ContractsMetadata.QueueEdge | src/gateway/tasks/contractsMetadata.ts:90-116 | one edge either keeps the loop state or fails exactly at the failing flush, with a proper prefix of the chunks committed |
| ContractsMetadata.QueuedFlushFails | src/gateway/tasks/contractsMetadata.ts:105-113 | when a mid-batch flush throws, what was committed is a proper prefix of the chunks of the whole queue |
| ContractsMetadata.PrepareSpec | src/gateway/tasks/contractsMetadata.ts:186-219 | preparation fails exactly when a collaborator throws or the state is null (the `PrepareFails` test); the update carries the definition and its type, with PST columns only for a PST; the source row holds `src` with JavaScript or `src_binary` and `src_wasm_lang` with wasm, never both |
| ContractsMetadata.EnrichRowProgress | src/gateway/tasks/contractsMetadata.ts:183-243 | a selected row leaves the selection unless something threw before the update and the `catch` mark threw too, in which case nothing changes; it ends `'error'` exactly when something threw and the mark did not; after an early failure with a working mark it is the old row marked `'error'` and no source row is written; every other row is unchanged |
| ContractsMetadata.EnrichRowSelection | src/gateway/tasks/contractsMetadata.ts:163-174 | one enrichment step removes exactly its own id from the selection, or nothing when the row stalls, and touches no other row |
| ContractsMetadata.EnrichRowFrame | src/gateway/tasks/contractsMetadata.ts:222-242 | unless the row stalls it ends with a type, `'error'` exactly when something threw and the mark did not; a stalled step changes nothing; every other row is unchanged |
| ContractsMetadata.SelectAfterUpdate | src/gateway/tasks/contractsMetadata.ts:163-174 | giving one row a type and touching no other removes exactly that id from the selection |
| ContractsMetadata.EnrichRowSuccess | src/gateway/tasks/contractsMetadata.ts:190-235 | on success the row carries the definition's source id, initial state, owner and contract transaction, and the state's type; for a PST the PST columns are the state's `ticker` and `name`, otherwise they are empty; the bundler columns are unchanged; the source row is merge-upserted |
| ContractsMetadata.EnrichRowAsWrittenAgrees | src/gateway/tasks/contractsMetadata.ts:186-242 | for an id that is its own trim and a loader that answers with the id it was asked for, the step as written equals the keyed step |
| ContractsMetadata.AsWrittenErrorMissesRow | src/gateway/tasks/contractsMetadata.ts:240-242 | on the error path, when no row has the trimmed id, the as-written step writes nothing |
| ContractsMetadata.TrimmedIdLosesErrorMark | src/gateway/tasks/contractsMetadata.ts:186-242 | a selected id `" cAAA"` whose resolution fails stays selected under the as-written step, but leaves the selection under the keyed-by-selection step |
| ContractsMetadata.EnrichAllSelection | src/gateway/tasks/contractsMetadata.ts:183-244 | enriching distinct selected ids removes exactly those ids from the selection and touches no other row |
| ContractsMetadata.EnrichAllAborted | src/gateway/tasks/contractsMetadata.ts:183-244 | when a run stops at its last id, the selection loses the completed ids, and the last id too unless it stalled |
| ContractsMetadata.EnrichAllAsWrittenAgrees | src/gateway/tasks/contractsMetadata.ts:183-244 | over ids that are their own trim, with a loader that echoes the id, the loop with the step as written leaves the same tables as the keyed loop |
| ContractsMetadata.LoadContractsMetadata | src/gateway/tasks/contractsMetadata.ts:159-245 | a throwing selection query ends the run with no write; otherwise the selected ids are processed once each, in some order, and the tables are their enrichment in that order (`EnrichOutcome`); a completed run processed the whole selection and leaves nothing to select; a run whose `catch` update threw stopped at that id, and the selection lost the completed ids and that id unless it stalled |
| ContractsMetadata.EnrichEachOutcome | src/gateway/tasks/contractsMetadata.ts:159-245 | the loop's guarantees, over the selection, give the run's outcome: completed with an empty selection, or aborted with the selection reduced as above |
| ContractsMetadata.EnrichEach | src/gateway/tasks/contractsMetadata.ts:183-244 | the loop processes distinct selected ids, the tables are their enrichment in processing order, and it either processes the whole selection with no step aborting or stops right after the first step whose mark threw |
| ContractsMetadata.EnrichNext | src/gateway/tasks/contractsMetadata.ts:183-244 | one loop iteration extends the processed prefix by one id, and reports that the run goes on exactly when that step did not abort |
| ContractsMetadata.EnrichContract | src/gateway/tasks/contractsMetadata.ts:185-243 | the writes of one iteration, in the source's order, leave the tables as `EnrichRow`, and the iteration reports an abort exactly when the `catch` update throws |
| InteractionsRoute.ParsedPage | src/gateway/router/routes/interactionsRoute.ts:21 | the page defaults to 1 and is otherwise the given number |
| InteractionsRoute.ParsedLimit | src/gateway/router/routes/interactionsRoute.ts:4-23 | the limit never exceeds 5000, defaults to 5000, and is otherwise the given number capped at 5000 |
| InteractionsRoute.Offset | src/gateway/router/routes/interactionsRoute.ts:24 | the offset is 0 when the page is 0 (falsy) or absent, and otherwise `(page - 1) * limit`, never negative for a page of at least 1 and a non-negative limit |
| InteractionsRoute.StatusFilter | src/gateway/router/routes/interactionsRoute.ts:26-29 | there is no filter exactly when the status is absent or empty, and a filter is never empty |
| InteractionsRoute.StatusFilterSpec | src/gateway/router/routes/interactionsRoute.ts:26-29 | `'not_corrupted'` admits exactly `confirmed` and `not_processed`; any other non-empty status admits only itself; an absent status admits every status |
| InteractionsRoute.SqlSlotsDistinct | src/gateway/router/routes/interactionsRoute.ts:50-51 | each placeholder of the statement appears once |
| InteractionsRoute.BuildBindings | src/gateway/router/routes/interactionsRoute.ts:31-38 | the bindings line up one for one with the placeholders of the statement: contract id, `from` if given, `to` if given, then limit and offset when paged |
| InteractionsRoute.BoundLinedUp | src/gateway/router/routes/interactionsRoute.ts:42-53 | with the bindings lined up, each placeholder present in the statement receives its parameter's value |
| InteractionsRoute.FilterSpec | src/gateway/router/routes/interactionsRoute.ts:50 | the `WHERE` clause keeps exactly the matching rows, with their multiplicities |
| InteractionsRoute.LexLeTotal | src/gateway/router/routes/interactionsRoute.ts:51 | the order on interaction ids is total |
| InteractionsRoute.InsertByRecencySpec | src/gateway/router/routes/interactionsRoute.ts:51 | inserting into an ordered list keeps it ordered and adds exactly that row |
| InteractionsRoute.SortByRecencySpec | src/gateway/router/routes/interactionsRoute.ts:51 | the result is ordered by `block_height` descending, then `interaction_id` descending, and is a permutation of the input |
| InteractionsRoute.OrderedHeights | src/gateway/router/routes/interactionsRoute.ts:51 | in an ordered result, heights never increase |
| InteractionsRoute.Window | src/gateway/router/routes/interactionsRoute.ts:51 | `LIMIT`/`OFFSET` returns at most `limit` rows, and none past the end |
| InteractionsRoute.PagesCover | src/gateway/router/routes/interactionsRoute.ts:24-51 | pages 1 to k, read in order, list the first k × limit rows without gap or repetition |
| InteractionsRoute.RoutePagesCover | src/gateway/router/routes/interactionsRoute.ts:21-53 | requesting pages 1 to k of a query with a positive limit, one request per page, lists the first k × limit rows of the sorted result once each and in order, each with the same total |
| InteractionsRoute.RoutePagesAsPages | src/gateway/router/routes/interactionsRoute.ts:21-53 | the answers to pages 1 to k of a query with a positive limit, one request per page, are the consecutive windows of the sorted matching rows, each with the same total |
| InteractionsRoute.ConcatWindows | src/gateway/router/routes/interactionsRoute.ts:21-53 | answers that are the successive windows of one result, each with the same total, concatenate to the windows read in order |
| InteractionsRoute.ExpectedPage | src/gateway/router/routes/interactionsRoute.ts:21-53 | page k ≥ 1 of a query with a positive limit answers the k-th window of the sorted matching rows |
| InteractionsRoute.WithTotalAppend | src/gateway/router/routes/interactionsRoute.ts:48 | tagging rows with the total commutes with concatenation |
| InteractionsRoute.WithTotalSpec | src/gateway/router/routes/interactionsRoute.ts:48 | every returned row, in order, carries the count of all matching rows |
| InteractionsRoute.CeilDiv | src/gateway/router/routes/interactionsRoute.ts:74 | `Math.ceil(total / limit)` is not a number exactly when the limit is 0; otherwise it is the ceiling of the quotient, for either sign of the limit |
| InteractionsRoute.Views | src/gateway/router/routes/interactionsRoute.ts:84-89 | each row maps to its status, peer, confirmations and interaction, in order |
| InteractionsRoute.CountStatusSpec | src/gateway/router/routes/interactionsRoute.ts:55-64 | a per-status total is the number of the contract's rows with that status |
| InteractionsRoute.HandleInteractions | src/gateway/router/routes/interactionsRoute.ts:6-99 | the handler's response is the response of the statement with its named parameters, or the engine's error when the main or the totals statement throws |
| InteractionsRoute.BindingsReachStatement | src/gateway/router/routes/interactionsRoute.ts:31-53 | executing the statement with the built bindings gives the result of the statement over the named parameters |
| InteractionsRoute.UndefinedOnlyContractId | src/gateway/router/routes/interactionsRoute.ts:32 | a binding is undefined exactly when no contract id was given |
| InteractionsRoute.BoundParameters | src/gateway/router/routes/interactionsRoute.ts:32-38 | each placeholder receives its own parameter: contract id, `from`, `to`, limit and offset |
| InteractionsRoute.SqlSlotsMembers | src/gateway/router/routes/interactionsRoute.ts:50-51 | the statement has `from`/`to` placeholders exactly when those are given, and `LIMIT`/`OFFSET` exactly when paged |
| InteractionsRoute.WellFormedRequestSucceeds | src/gateway/router/routes/interactionsRoute.ts:40-98 | a request with a contract id, a page of at least 1 and a non-negative limit succeeds unless the engine throws on a statement the route runs |
| InteractionsRoute.RespondFailure | src/gateway/router/routes/interactionsRoute.ts:40-98 | the response is a 500 exactly when the contract id is missing, a paged request has a negative offset or limit, the main statement throws, or the totals statement throws when `totalCount` is `'true'`; an engine failure of a well-formed main statement answers with its error |
| InteractionsRoute.ExpectedSpec | src/gateway/router/routes/interactionsRoute.ts:42-53 | every returned row matches the filters and comes from the table; each carries the full match count; rows are newest first; a paged result holds at most `limit` rows and an unpaged one holds all matches |
| InteractionsRoute.SortedRowsSpec | src/gateway/router/routes/interactionsRoute.ts:50-51 | the sorted matches are ordered, as many as the matches, and each matches and comes from the table |
| InteractionsRoute.WindowSpec | src/gateway/router/routes/interactionsRoute.ts:51 | a window of an ordered list is ordered and holds only its rows |
| InteractionsRoute.RespondSpec | src/gateway/router/routes/interactionsRoute.ts:66-90 | `items` is the number of returned rows; `total` is the match count, or 0 with no rows; `limit` is capped and `page` is as parsed; `pages` is the ceiling of `total / limit`; the per-status block appears exactly when `totalCount` is `'true'` |
| DeployContractRoute.UploaderTags | src/gateway/router/routes/deployContractRoute.ts:130-135 | exactly four tags, all uploader tags |
| DeployContractRoute.PrepareTags | src/gateway/router/routes/deployContractRoute.ts:118-139 | the tags are the four uploader tags followed by the transaction's decoded tags in their order |
| DeployContractRoute.PreparedTagsSpec | src/gateway/router/routes/deployContractRoute.ts:118-139 | the prepared list has 4 + n tags, and a lookup of a non-uploader name sees only the transaction's own tags |
| DeployContractRoute.Envelope | src/gateway/router/routes/deployContractRoute.ts:73 | a stored envelope keeps id, owner and tags, and its `data` is null |
| DeployContractRoute.OrNull | src/gateway/router/routes/deployContractRoute.ts:85-88 | the null fallback of an optional text is null exactly when the text is absent or empty |
| DeployContractRoute.SourceRecordSpec | src/gateway/router/routes/deployContractRoute.ts:27-43 | the source row has `src` exactly for JavaScript with non-empty text, and `src_binary` exactly when the source is not JavaScript, never both; content type and wasm language come from the source's tags; the envelope has no data |
| DeployContractRoute.InitStateTextSpec | src/gateway/router/routes/deployContractRoute.ts:55-58 | the initial state is the Init-State tag when present and non-empty, otherwise the contract data |
| DeployContractRoute.ContractRecordSpec | src/gateway/router/routes/deployContractRoute.ts:59-77 | the contract row carries the contract id, the chosen source id, the parsed state with its `evalType` type (never `'error'`), the state's ticker and name for a PST and none otherwise, the sender as owner, the cached height and block time, the contract's own Content-Type tag, a data-less envelope, the bundler id and node, and the prepared tags |
| DeployContractRoute.DeployContract | src/gateway/router/routes/deployContractRoute.ts:10-111 | the handler leaves the tables and the response as the deploy specification says |
| DeployContractRoute.DeploySpec | src/gateway/router/routes/deployContractRoute.ts:27-104 | a successful deploy adds a new contract row and changes no existing row; the source id is `srcTx.id`, or the Contract-Src tag without a source; no existing source row is overwritten, and a source row exists exactly when a source was sent |
| DeployContractRoute.DeployFailure | src/gateway/router/routes/deployContractRoute.ts:27-110 | a deploy fails exactly when a collaborator throws, the state does not parse or is null, the cache is empty, the `contracts` insert throws or the contract id exists, or the `contracts_src` insert throws; a failure before the contract insert changes no table; a throwing source insert leaves the new contract row committed and no source row written |
| DeployContractRoute.RetryAfterSourceFailure | src/gateway/router/routes/deployContractRoute.ts:79-110 | after a throwing source insert, deploying the same contract again fails and writes nothing, so the source row stays missing |

## Left out

- Task scheduling (`TaskRunner`, `runSyncEvery`, the interval constants) is left out. Each task is modelled as one cycle.
- The GraphQL query text and `loadPages` are left out. Their result is an input: a sequence of edges, or a failure.
- Foreign calls are inputs rather than code. These are the definition loader, `ownerToAddress`, `arweaveWrapper.info`/`txData`, `arweave.blocks.get`, the Bundlr `createTransaction`/`sign`/`upload`, `JSON.parse` and the tag and data decoding.
- `syncTransactions.ts` and `constants.ts` are not part of this model. `AVG_BLOCKS_PER_HOUR`, `FIRST_SW_TX_BLOCK_HEIGHT`, `MAX_BATCH_INSERT` and `BUNDLR_NODE2_URL` are parameters.
- The Postgres engine is reduced to the statement semantics each member states:
  - `ILIKE '()%'` is "starts with `()`";
  - text order is code-point order;
  - error messages are placeholders for the engine's texts.
- The status literals spliced into the SQL text (an injection path) are left out. The status filter is modelled as the list it denotes.
- Query parameters are parsed values. `parseInt` and its NaN cases, array-valued parameters, and the text-to-integer cast of `from`/`to` are left out.
- InteractionsRoute.RespondSpec: `total` is the row count as a number. The driver returns the `count(*)` bigint as a string.
- Postgres leaves the order of rows with equal `block_height` and `interaction_id` unspecified. The model fixes one order for such ties.
- InteractionsRoute.RespondFailure: the failure body carries a message. The JSON serialization of the error object is left out.
- Logging, `Benchmark` timing and Koa context marshalling are left out.
- JsString.Trim: white space is the enumerated ECMAScript set. No other Unicode handling is modelled.
- DeployContractRoute.DeployContract: the sender's address is an input. Its lookup is outside the `try` at `src/gateway/router/routes/deployContractRoute.ts:21`, so a failure there escapes the handler, and that escape is not modelled.
- DeployContractRoute.DeployContract: the Bundlr transaction ids are taken from the upload inputs. The tag list is stored as a tag sequence rather than as its JSON text.
- NetworkInfoCache.Cache.RunTick: the start-up loop is bounded by the finite sequence of answers it is given. The source retries for as long as a cell is null.
- NetworkInfoCache.HeightNeverDecreases: excludes an info call that resolves to nothing. Such a call stores null in the info cell, and the next refresh accepts any height.
- ContractsMetadata.EnrichEach: the loop runs the corrected step `EnrichRow`, keyed by the selected id, not the as-written step of the finding below. `EnrichAllAsWrittenAgrees` carries its results over to the as-written loop only for ids that are their own trim and a loader that answers with the id it was asked for.
- ContractsMetadata.LoadContractsMetadata: `resolve` is indexed by the selected id, so the `trim()` before the loader call at `src/gateway/tasks/contractsMetadata.ts:186` is folded into it. The run outcome is stated for the corrected step, as for EnrichEach.
- ContractsMetadata.EnrichContract: the writes are keyed by the selected id, as in `EnrichRow`. The as-written keys are modelled by `EnrichRowAsWritten` only.
- DeployContractRoute.DeployContract: whether the `contracts` insert throws for a reason other than a duplicate id (`contractInsertError`), and whether the `contracts_src` insert throws (`sourceInsertError`), are inputs. The driver's error texts are not modelled.
- InteractionsRoute.HandleInteractions: whether the engine throws on the main or the totals statement is an input (`EngineFaults`). The driver's error texts are not modelled, and a fault is taken to surface only when the statement's parameters are otherwise accepted.
- JSON numbers are integers. Floating point is not modelled.
- `gatewayRouter.ts` only maps routes to handlers and is not part of this model.

## Findings

| source | as written | input that shows it | evidently intended | confidence | as-written member | corrected member |
|---|---|---|---|---|---|---|
| src/gateway/tasks/contractsMetadata.ts:240 | the error update is keyed by `row.contract.trim()` and the success update by `definition.txId` (lines 186 and 222); neither is the selected key | a stub with id `" cAAA"` whose resolution fails: the update matches no row, so the stub is never marked `'error'` and is selected again on every run | both updates keyed by the selected row's id, so a failing stub leaves the selection | not executed; low impact, since ledger ids are base64url and carry no white space | ContractsMetadata.EnrichRowAsWritten, ContractsMetadata.TrimmedIdLosesErrorMark | ContractsMetadata.EnrichRow, ContractsMetadata.EnrichRowProgress |
