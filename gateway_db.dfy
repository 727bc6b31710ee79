/** The two tables of the gateway database the core writes, `contracts` and
    `contracts_src`, as maps from primary key to row, with the conflict
    policies the core uses (insert-ignore, insert-merge, plain insert) and the
    checkpoint query of contract discovery. */
module GatewayDb {
  import opened Wrappers
  import opened Json
  import opened Tags

  newtype Byte = x: int | 0 <= x < 256

  /** A transaction payload: its bytes and their UTF-8 decoding (the decoder
      itself is not part of this model). */
  datatype TxData = TxData(bytes: seq<Byte>, text: string)

  /** A ledger transaction with decoded tags. */
  datatype Transaction = Transaction(id: string, owner: string, tags: seq<Tag>, data: TxData)

  /** A transaction envelope as stored in a JSON column; `data` may be nulled. */
  datatype StoredTx = StoredTx(id: string, owner: string, tags: seq<Tag>, data: Option<TxData>)

  /** The `type` column: `'pst'`, `'other'` or the terminal `'error'`. */
  datatype ContractType = Pst | Other | Error

  datatype ContractRow = ContractRow(
    contractId: string,
    srcTxId: Option<string>,
    initState: Option<Json>,
    owner: Option<string>,
    contractType: Option<ContractType>,
    pstTicker: Option<Json>,
    pstName: Option<Json>,
    blockHeight: Option<int>,
    blockTimestamp: Option<int>,
    contentType: Option<string>,
    contractTx: Option<StoredTx>,
    bundlerContractTxId: Option<string>,
    bundlerContractNode: Option<string>,
    bundlerContractTags: Option<seq<Tag>>)

  datatype SourceRow = SourceRow(
    srcTxId: string,
    owner: Option<string>,
    src: Option<string>,
    srcContentType: Option<string>,
    srcBinary: Option<seq<Byte>>,
    srcWasmLang: Option<string>,
    bundlerSrcTxId: Option<string>,
    bundlerSrcNode: Option<string>,
    srcTx: Option<StoredTx>)

  type ContractsTable = map<string, ContractRow>
  type SourcesTable = map<string, SourceRow>

  /** Every row is stored under its own primary key. */
  ghost predicate KeyedContracts(t: ContractsTable) {
    forall k :: k in t ==> t[k].contractId == k
  }

  ghost predicate KeyedSources(t: SourcesTable) {
    forall k :: k in t ==> t[k].srcTxId == k
  }

  function IdsOf(rows: seq<ContractRow>): set<string> {
    set i | 0 <= i < |rows| :: rows[i].contractId
  }

  /** Is `i` the position of the first row of `rows` with key `id`? */
  ghost predicate FirstWithId(rows: seq<ContractRow>, id: string, i: int) {
    0 <= i < |rows| && rows[i].contractId == id &&
    forall j :: 0 <= j < i ==> rows[j].contractId != id
  }

  /** `INSERT ... ON CONFLICT (contract_id) DO NOTHING` of `rows`, in order:
      existing rows never change, and a key new to the table gets the first
      row that carries it. */
  function InsertIgnore(t: ContractsTable, rows: seq<ContractRow>): ContractsTable
    decreases |rows|
  {
    if rows == [] then t
    else InsertIgnore(if rows[0].contractId in t then t else t[rows[0].contractId := rows[0]], rows[1..])
  }

  /** Insert-ignore never changes an existing row, adds exactly the new keys,
      and gives a new key the first of `rows` that carries it. */
  lemma InsertIgnoreSpec(t: ContractsTable, rows: seq<ContractRow>)
    ensures var r := InsertIgnore(t, rows);
      && r.Keys == t.Keys + IdsOf(rows)
      && (forall k :: k in t ==> r[k] == t[k])
      && (forall k :: k in r && k !in t ==> exists i :: FirstWithId(rows, k, i) && r[k] == rows[i])
      && (KeyedContracts(t) ==> KeyedContracts(r))
  {
    InsertIgnoreKeeps(t, rows);
    InsertIgnoreFirst(t, rows);
    var r := InsertIgnore(t, rows);
    if KeyedContracts(t) {
      forall k | k in r ensures r[k].contractId == k {
        if k !in t {
          var i :| FirstWithId(rows, k, i) && r[k] == rows[i];
        }
      }
    }
  }

  lemma {:induction false} InsertIgnoreKeeps(t: ContractsTable, rows: seq<ContractRow>)
    ensures var r := InsertIgnore(t, rows);
      && r.Keys == t.Keys + IdsOf(rows)
      && (forall k :: k in t ==> r[k] == t[k])
    decreases |rows|
  {
    if rows != [] {
      var t' := if rows[0].contractId in t then t else t[rows[0].contractId := rows[0]];
      InsertIgnoreKeeps(t', rows[1..]);
      IdsOfCons(rows);
    }
  }

  lemma {:induction false} InsertIgnoreFirst(t: ContractsTable, rows: seq<ContractRow>)
    ensures var r := InsertIgnore(t, rows);
      forall k :: k in r && k !in t ==> exists i :: FirstWithId(rows, k, i) && r[k] == rows[i]
    decreases |rows|
  {
    if rows != [] {
      var t' := if rows[0].contractId in t then t else t[rows[0].contractId := rows[0]];
      InsertIgnoreKeeps(t', rows[1..]);
      InsertIgnoreFirst(t', rows[1..]);
      FirstWithIdCons(rows, t, InsertIgnore(t', rows[1..]));
    }
  }

  lemma IdsOfCons(rows: seq<ContractRow>)
    requires rows != []
    ensures IdsOf(rows) == {rows[0].contractId} + IdsOf(rows[1..])
  {
    forall id | id in IdsOf(rows) ensures id in {rows[0].contractId} + IdsOf(rows[1..]) {
      var i :| 0 <= i < |rows| && rows[i].contractId == id;
      if i > 0 { assert rows[1..][i - 1] == rows[i]; }
    }
    forall id | id in IdsOf(rows[1..]) ensures id in IdsOf(rows) {
      var i :| 0 <= i < |rows[1..]| && rows[1..][i].contractId == id;
      assert rows[i + 1] == rows[1..][i];
    }
  }

  /** The first-row property of InsertIgnore carries over one step of its fold. */
  lemma FirstWithIdCons(rows: seq<ContractRow>, t: ContractsTable, r: ContractsTable)
    requires rows != []
    requires var t' := if rows[0].contractId in t then t else t[rows[0].contractId := rows[0]];
      (forall k :: k in t' ==> k in r && r[k] == t'[k]) &&
      (forall k :: k in r && k !in t' ==> exists i :: FirstWithId(rows[1..], k, i) && r[k] == rows[1..][i])
    ensures forall k :: k in r && k !in t ==> exists i :: FirstWithId(rows, k, i) && r[k] == rows[i]
  {
    forall k | k in r && k !in t ensures exists i :: FirstWithId(rows, k, i) && r[k] == rows[i] {
      if k == rows[0].contractId {
        assert FirstWithId(rows, k, 0);
      } else {
        var i :| FirstWithId(rows[1..], k, i) && r[k] == rows[1..][i];
        assert FirstWithId(rows, k, i + 1);
      }
    }
  }

  /** Flushing rows in consecutive chunks has the effect of inserting them all at once. */
  lemma {:induction false} InsertIgnoreAppend(t: ContractsTable, a: seq<ContractRow>, b: seq<ContractRow>)
    ensures InsertIgnore(t, a + b) == InsertIgnore(InsertIgnore(t, a), b)
    decreases |a|
  {
    if a == [] {
      assert a + b == b;
    } else {
      var t' := if a[0].contractId in t then t else t[a[0].contractId := a[0]];
      assert (a + b)[0] == a[0];
      assert (a + b)[1..] == a[1..] + b;
      InsertIgnoreAppend(t', a[1..], b);
    }
  }

  /** Inserting the same rows twice has the effect of inserting them once, so
      re-running discovery over an overlapping window changes nothing. */
  lemma {:induction false} InsertIgnoreIdempotent(t: ContractsTable, rows: seq<ContractRow>)
    ensures InsertIgnore(InsertIgnore(t, rows), rows) == InsertIgnore(t, rows)
  {
    var u := InsertIgnore(t, rows);
    var v := InsertIgnore(u, rows);
    InsertIgnoreSpec(t, rows);
    InsertIgnoreSpec(u, rows);
    assert v.Keys == u.Keys;
    assert forall k :: k in v ==> v[k] == u[k];
  }

  /** A plain `INSERT` of one contract row: a duplicate key is a constraint error. */
  function InsertContract(t: ContractsTable, row: ContractRow): (r: Result<ContractsTable>)
    ensures r.Err? <==> row.contractId in t
    ensures r.Ok? ==> r.value.Keys == t.Keys + {row.contractId} && r.value[row.contractId] == row &&
                      forall k :: k in t ==> r.value[k] == t[k]
  {
    if row.contractId in t then Err("duplicate key value violates unique constraint") else Ok(t[row.contractId := row])
  }

  /** `INSERT ... ON CONFLICT (src_tx_id) DO NOTHING` of one source row. */
  function InsertSourceIgnore(t: SourcesTable, row: SourceRow): (r: SourcesTable)
    ensures r.Keys == t.Keys + {row.srcTxId}
    ensures forall k :: k in t ==> r[k] == t[k]
    ensures row.srcTxId !in t ==> r[row.srcTxId] == row
    ensures KeyedSources(t) ==> KeyedSources(r)
  {
    if row.srcTxId in t then t else t[row.srcTxId := row]
  }

  /** `INSERT ... ON CONFLICT (src_tx_id) MERGE [src, src_content_type,
      src_binary, src_wasm_lang, bundler_src_tx_id, bundler_src_node, src_tx]`:
      on a conflict those seven columns take the proposed row's values (null
      where the insert left them out) and `owner` keeps the stored value. */
  function UpsertSourceMerge(t: SourcesTable, row: SourceRow): (r: SourcesTable)
    ensures r.Keys == t.Keys + {row.srcTxId}
    ensures forall k :: k in t && k != row.srcTxId ==> r[k] == t[k]
    ensures row.srcTxId !in t ==> r[row.srcTxId] == row
    ensures row.srcTxId in t ==> r[row.srcTxId] == row.(owner := t[row.srcTxId].owner, srcTxId := t[row.srcTxId].srcTxId)
    ensures KeyedSources(t) ==> KeyedSources(r)
  {
    if row.srcTxId !in t then t[row.srcTxId := row]
    else
      var old_ := t[row.srcTxId];
      t[row.srcTxId := old_.(
        src := row.src,
        srcContentType := row.srcContentType,
        srcBinary := row.srcBinary,
        srcWasmLang := row.srcWasmLang,
        bundlerSrcTxId := row.bundlerSrcTxId,
        bundlerSrcNode := row.bundlerSrcNode,
        srcTx := row.srcTx)]
  }

  /** What one `UPDATE contracts ... WHERE contract_id = ?` of the enrichment
      sets: the resolved columns, or just `type = 'error'`. */
  datatype ContractPatch =
    | Resolved(srcTxId: string, initState: Json, owner: string, contractType: ContractType,
               pstTicker: Option<Json>, pstName: Option<Json>, contractTx: StoredTx)
    | MarkError

  /** The row after the update: a resolution sets exactly the columns it
      carries and keeps the key, the height, the content type and the
      bundler columns; the error mark sets only the type. */
  function Patch(row: ContractRow, patch: ContractPatch): (r: ContractRow)
    ensures r.contractId == row.contractId
    ensures r.blockHeight == row.blockHeight && r.blockTimestamp == row.blockTimestamp
    ensures r.contentType == row.contentType
    ensures patch.MarkError? ==> r == row.(contractType := Some(Error))
    ensures patch.Resolved? ==>
      && r.srcTxId == Some(patch.srcTxId) && r.initState == Some(patch.initState)
      && r.owner == Some(patch.owner) && r.contractType == Some(patch.contractType)
      && r.pstTicker == patch.pstTicker && r.pstName == patch.pstName
      && r.contractTx == Some(patch.contractTx)
      && r.bundlerContractTxId == row.bundlerContractTxId
      && r.bundlerContractNode == row.bundlerContractNode
      && r.bundlerContractTags == row.bundlerContractTags
  {
    match patch
    case MarkError => row.(contractType := Some(Error))
    case Resolved(srcTxId, initState, owner, ctype, ticker, name, contractTx) =>
      row.(srcTxId := Some(srcTxId), initState := Some(initState), owner := Some(owner),
           contractType := Some(ctype), pstTicker := ticker, pstName := name, contractTx := Some(contractTx))
  }

  /** An update by primary key: only the row under `id` changes, and only
      when it exists. */
  function UpdateWhere(t: ContractsTable, id: string, patch: ContractPatch): (r: ContractsTable)
    ensures r.Keys == t.Keys
    ensures forall k :: k in t && k != id ==> r[k] == t[k]
    ensures id in t ==> r[id] == Patch(t[id], patch)
    ensures KeyedContracts(t) ==> KeyedContracts(r)
  {
    if id in t then t[id := Patch(t[id], patch)] else t
  }

  /** The two tables together. */
  datatype Tables = Tables(contracts: ContractsTable, sources: SourcesTable)

  /** The gateway database handle: the two tables the core writes. */
  class GatewayDb {
    var contracts: ContractsTable
    var contractsSrc: SourcesTable

    ghost predicate Valid()
      reads this
    {
      KeyedContracts(contracts) && KeyedSources(contractsSrc)
    }

    function State(): Tables
      reads this
    {
      Tables(contracts, contractsSrc)
    }

    constructor (contracts: ContractsTable, contractsSrc: SourcesTable)
      requires KeyedContracts(contracts) && KeyedSources(contractsSrc)
      ensures Valid()
      ensures this.contracts == contracts && this.contractsSrc == contractsSrc
    {
      this.contracts := contracts;
      this.contractsSrc := contractsSrc;
    }

    /** The discovery checkpoint: `SELECT block_height FROM contracts WHERE
        block_height IS NOT NULL ORDER BY block_height DESC LIMIT 1`. */
    method MaxBlockHeight() returns (h: Option<int>)
      ensures h.None? <==> forall k :: k in contracts ==> contracts[k].blockHeight.None?
      ensures h.Some? ==> exists k :: k in contracts && contracts[k].blockHeight == h
      ensures h.Some? ==> forall k :: k in contracts && contracts[k].blockHeight.Some? ==>
                            contracts[k].blockHeight.value <= h.value
    {
      var todo := contracts.Keys;
      h := None;
      while todo != {}
        invariant todo <= contracts.Keys
        invariant h.None? <==> forall k :: k in contracts && k !in todo ==> contracts[k].blockHeight.None?
        invariant h.Some? ==> exists k :: k in contracts && k !in todo && contracts[k].blockHeight == h
        invariant h.Some? ==> forall k :: k in contracts && k !in todo && contracts[k].blockHeight.Some? ==>
                                contracts[k].blockHeight.value <= h.value
        decreases todo
      {
        var k :| k in todo;
        var bh := contracts[k].blockHeight;
        if bh.Some? && (h.None? || bh.value > h.value) {
          h := bh;
        }
        todo := todo - {k};
      }
    }

    /** `insertContracts`: one chunk of stubs, insert-ignore on `contract_id`. */
    method InsertContracts(rows: seq<ContractRow>)
      requires Valid()
      modifies this`contracts
      ensures Valid()
      ensures contracts == InsertIgnore(old(contracts), rows)
    {
      InsertIgnoreSpec(contracts, rows);
      contracts := InsertIgnore(contracts, rows);
    }

    /** `UPDATE contracts SET ... WHERE contract_id = id`: no row matches
        when the id is absent, and nothing happens then. */
    method UpdateContract(id: string, patch: ContractPatch)
      requires Valid()
      modifies this`contracts
      ensures Valid()
      ensures contracts == UpdateWhere(old(contracts), id, patch)
    {
      if id in contracts {
        contracts := contracts[id := Patch(contracts[id], patch)];
      }
    }

    /** The enrichment's source upsert (merge on conflict). */
    method UpsertSource(row: SourceRow)
      requires Valid()
      modifies this`contractsSrc
      ensures Valid()
      ensures contractsSrc == UpsertSourceMerge(old(contractsSrc), row)
    {
      contractsSrc := UpsertSourceMerge(contractsSrc, row);
    }

    /** The deploy route's source insert (ignore on conflict). */
    method InsertSource(row: SourceRow)
      requires Valid()
      modifies this`contractsSrc
      ensures Valid()
      ensures contractsSrc == InsertSourceIgnore(old(contractsSrc), row)
    {
      contractsSrc := InsertSourceIgnore(contractsSrc, row);
    }

    /** The deploy route's contract insert: a plain `INSERT`, so a duplicate
        `contract_id` is an error and leaves the table as it was. */
    method InsertContractRow(row: ContractRow) returns (ok: bool)
      requires Valid()
      modifies this`contracts
      ensures Valid()
      ensures ok <==> InsertContract(old(contracts), row).Ok?
      ensures ok ==> contracts == InsertContract(old(contracts), row).value
      ensures !ok ==> contracts == old(contracts)
    {
      var r := InsertContract(contracts, row);
      if r.Err? {
        return false;
      }
      contracts := r.value;
      return true;
    }
  }
}
