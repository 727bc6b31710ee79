/** The deploy route of the gateway: it tags a contract transaction (and
    optionally its source transaction) as uploaded by the gateway, hands them
    to the bundler, and records the contract row and the source row in the
    database. The bundler, the address derivation and `JSON.parse` are
    collaborators whose answers are inputs. */
module DeployContractRoute {
  import opened Wrappers
  import opened Json
  import opened Tags
  import opened GatewayDb
  import NetworkInfoCache
  import ContractsMetadata

  const JavascriptContentType: string := "application/javascript"

  /** The four tags the gateway puts in front of a transaction's own tags. */
  function UploaderTags(txId: string, originalAddress: string, bundlerNode: string): (r: seq<Tag>)
    ensures |r| == 4
    ensures forall i :: 0 <= i < 4 ==> r[i].name in UploaderTagNames
  {
    [Tag("Uploader", "RedStone"),
     Tag("Uploader-Contract-Owner", originalAddress),
     Tag("Uploader-Tx-Id", txId),
     Tag("Uploader-Bundler", bundlerNode)]
  }

  const UploaderTagNames: set<string> := {"Uploader", "Uploader-Contract-Owner", "Uploader-Tx-Id", "Uploader-Bundler"}

  /** The tags of a transaction as the gateway uploads it: the four uploader
      tags, then the transaction's own tags in their order. */
  method PrepareTags(tx: Transaction, originalAddress: string, bundlerNode: string) returns (tags: seq<Tag>)
    ensures tags == UploaderTags(tx.id, originalAddress, bundlerNode) + tx.tags
  {
    var decodedTags: seq<Tag> := [];
    var i := 0;
    while i < |tx.tags|
      invariant i <= |tx.tags|
      invariant decodedTags == tx.tags[..i]
    {
      decodedTags := decodedTags + [Tag(tx.tags[i].name, tx.tags[i].value)];
      i := i + 1;
    }
    assert tx.tags[..i] == tx.tags;
    tags := UploaderTags(tx.id, originalAddress, bundlerNode) + decodedTags;
  }

  /** The prepared list holds `4 + n` tags, and a lookup of any name the
      uploader tags do not use finds what it finds among the transaction's
      own tags. */
  lemma PreparedTagsSpec(tx: Transaction, originalAddress: string, bundlerNode: string, name: string)
    requires name !in UploaderTagNames
    ensures |UploaderTags(tx.id, originalAddress, bundlerNode) + tx.tags| == 4 + |tx.tags|
    ensures TagValue(name, UploaderTags(tx.id, originalAddress, bundlerNode) + tx.tags) == TagValue(name, tx.tags)
  {
    TagValueSkipsPrefix(name, UploaderTags(tx.id, originalAddress, bundlerNode), tx.tags);
  }

  /** `{ ...tx.toJSON(), data: null }` */
  function Envelope(tx: Transaction): (r: StoredTx)
    ensures r.data.None? && r.id == tx.id && r.owner == tx.owner && r.tags == tx.tags
  {
    StoredTx(tx.id, tx.owner, tx.tags, None)
  }

  /** `x || null` for an optional string: the empty string is falsy. */
  function OrNull(x: Option<string>): (r: Option<string>)
    ensures r.Some? <==> x.Some? && x.value != ""
    ensures r.Some? ==> r == x
  {
    if x.Some? && x.value != "" then x else None
  }

  /** The body of the request. */
  datatype DeployRequest = DeployRequest(contractTx: Transaction, srcTx: Option<Transaction>)

  /** What the collaborators answer: the address of the source owner, the
      bundler's transaction id for each upload, `JSON.parse`, the error the
      database throws on the `contracts` insert for a reason other than a
      duplicate key (a lost connection, say), if it throws, and the error
      the `contracts_src` insert throws, if it throws. */
  datatype Collaborators = Collaborators(
    srcTxOwner: Result<string>,
    srcUpload: Result<string>,
    contractUpload: Result<string>,
    parse: string -> Result<Json>,
    contractInsertError: Option<string>,
    sourceInsertError: Option<string>)

  datatype DeployResponse =
    | Deployed(contractId: string, bundleContractId: string, srcTxId: Option<string>, bundleSrcId: Option<string>)
    | DeployFailed(message: string)

  datatype DeployOutcome = DeployOutcome(tables: Tables, response: DeployResponse)

  /** The `contracts_src` record for a source transaction. */
  function SourceRecord(srcTx: Transaction, originalAddress: string, bundlerNode: string,
                        srcTxOwner: string, bundleSrcId: string): SourceRow
  {
    var srcTags := UploaderTags(srcTx.id, originalAddress, bundlerNode) + srcTx.tags;
    var contentType := TagValue(ContentType, srcTags);
    var js := contentType == Some(JavascriptContentType);
    SourceRow(
      srcTx.id,
      Some(srcTxOwner),
      if js then OrNull(Some(srcTx.data.text)) else None,
      contentType,
      if js then None else Some(srcTx.data.bytes),
      OrNull(TagValue(WasmLang, srcTags)),
      Some(bundleSrcId),
      Some(bundlerNode),
      Some(Envelope(srcTx)))
  }

  /** The source record keeps the JavaScript text when the transaction's
      Content-Type tag says `application/javascript` and the raw bytes
      otherwise, never both; its content type and language are the
      transaction's own tags; the stored envelope has no data. */
  lemma SourceRecordSpec(srcTx: Transaction, originalAddress: string, bundlerNode: string,
                         srcTxOwner: string, bundleSrcId: string)
    ensures var r := SourceRecord(srcTx, originalAddress, bundlerNode, srcTxOwner, bundleSrcId);
      var js := TagValue(ContentType, srcTx.tags) == Some(JavascriptContentType);
      && r.srcTxId == srcTx.id
      && r.srcContentType == TagValue(ContentType, srcTx.tags)
      && (r.src.Some? <==> js && srcTx.data.text != "")
      && (r.src.Some? ==> r.src.value == srcTx.data.text)
      && (r.srcBinary.Some? <==> !js)
      && (r.srcBinary.Some? ==> r.srcBinary.value == srcTx.data.bytes)
      && !(r.src.Some? && r.srcBinary.Some?)
      && r.srcWasmLang == OrNull(TagValue(WasmLang, srcTx.tags))
      && r.srcTx.Some? && r.srcTx.value.data.None?
  {
    PreparedTagsSpec(srcTx, originalAddress, bundlerNode, ContentType);
    PreparedTagsSpec(srcTx, originalAddress, bundlerNode, WasmLang);
  }

  /** The text the initial state is parsed from: a non-empty Init-State tag,
      otherwise the contract transaction's data. */
  function InitStateText(contractTags: seq<Tag>, contractTx: Transaction): string {
    var tagged := TagValue(InitState, contractTags);
    if tagged.Some? && tagged.value != "" then tagged.value else contractTx.data.text
  }

  lemma InitStateTextSpec(contractTx: Transaction, originalAddress: string, bundlerNode: string)
    ensures var text := InitStateText(UploaderTags(contractTx.id, originalAddress, bundlerNode) + contractTx.tags, contractTx);
      var tagged := TagValue(InitState, contractTx.tags);
      && (tagged.Some? && tagged.value != "" ==> text == tagged.value)
      && (tagged.None? || tagged.value == "" ==> text == contractTx.data.text)
  {
    PreparedTagsSpec(contractTx, originalAddress, bundlerNode, InitState);
  }

  /** The `contracts` record, or the error that prevents building it. */
  function ContractRecord(req: DeployRequest, srcTxId: Option<string>, originalAddress: string,
                          bundlerNode: string, bundleContractId: string,
                          cache: NetworkInfoCache.Snapshot, parse: string -> Result<Json>): Result<ContractRow>
  {
    var contractTags := UploaderTags(req.contractTx.id, originalAddress, bundlerNode) + req.contractTx.tags;
    var parsed := parse(InitStateText(contractTags, req.contractTx));
    if parsed.Err? then Err(parsed.message)
    else
      var initState := parsed.value;
      var ctype := ContractsMetadata.EvalType(initState);
      if ctype.Err? then Err(ctype.message)
      else if cache.networkInfo.None? then Err("Cannot read properties of null (reading 'height')")
      else if cache.blockInfo.None? then Err("Cannot read properties of null (reading 'timestamp')")
      else Ok(ContractRow(
        req.contractTx.id,
        srcTxId,
        Some(initState),
        Some(originalAddress),
        Some(ctype.value),
        ContractsMetadata.PstField(initState, ctype.value, "ticker"),
        ContractsMetadata.PstField(initState, ctype.value, "name"),
        Some(cache.networkInfo.value.height),
        Some(cache.blockInfo.value.timestamp),
        TagValue(ContentType, contractTags),
        Some(Envelope(req.contractTx)),
        Some(bundleContractId),
        Some(bundlerNode),
        Some(contractTags)))
  }

  /** The contract record is keyed by the contract id and carries the given
      source id, the parsed initial state with its `evalType` classification
      (never `'error'`), the state's ticker and name for a PST and nothing
      otherwise, the sender's address, the cached height and block time, the
      contract's own Content-Type tag, an envelope without data, and the
      bundler's id, node and the prepared tags. */
  lemma ContractRecordSpec(req: DeployRequest, srcTxId: Option<string>, originalAddress: string,
                           bundlerNode: string, bundleContractId: string,
                           cache: NetworkInfoCache.Snapshot, parse: string -> Result<Json>)
    requires ContractRecord(req, srcTxId, originalAddress, bundlerNode, bundleContractId, cache, parse).Ok?
    ensures var r := ContractRecord(req, srcTxId, originalAddress, bundlerNode, bundleContractId, cache, parse).value;
      var contractTags := UploaderTags(req.contractTx.id, originalAddress, bundlerNode) + req.contractTx.tags;
      && r.contractId == req.contractTx.id
      && r.srcTxId == srcTxId
      && r.initState == Some(parse(InitStateText(contractTags, req.contractTx)).value)
      && r.initState.Some? && ContractsMetadata.EvalType(r.initState.value).Ok?
      && r.contractType == Some(ContractsMetadata.EvalType(r.initState.value).value)
      && r.contractType.value != Error
      && (r.contractType == Some(Pst) ==>
            r.pstTicker == Member(r.initState.value, "ticker") && r.pstName == Member(r.initState.value, "name"))
      && (r.contractType != Some(Pst) ==> r.pstTicker.None? && r.pstName.None?)
      && r.owner == Some(originalAddress)
      && cache.networkInfo.Some? && r.blockHeight == Some(cache.networkInfo.value.height)
      && cache.blockInfo.Some? && r.blockTimestamp == Some(cache.blockInfo.value.timestamp)
      && r.contentType == TagValue(ContentType, req.contractTx.tags)
      && r.contractTx == Some(Envelope(req.contractTx))
      && r.bundlerContractTxId == Some(bundleContractId) && r.bundlerContractNode == Some(bundlerNode)
      && r.bundlerContractTags == Some(contractTags)
  {
    PreparedTagsSpec(req.contractTx, originalAddress, bundlerNode, ContentType);
  }

  /** Where the source transaction id comes from: the attached source
      transaction, else the contract's Contract-Src tag. */
  function SrcTxIdFor(req: DeployRequest, originalAddress: string, bundlerNode: string): Option<string> {
    if req.srcTx.Some? then Some(req.srcTx.value.id)
    else TagValue(ContractSrcTxId, UploaderTags(req.contractTx.id, originalAddress, bundlerNode) + req.contractTx.tags)
  }

  /** One deploy request: the tables afterwards and the answer. */
  function Deploy(t: Tables, cache: NetworkInfoCache.Snapshot, req: DeployRequest, originalAddress: string,
                  bundlerNode: string, c: Collaborators): DeployOutcome
  {
    var srcTxId := SrcTxIdFor(req, originalAddress, bundlerNode);
    if req.srcTx.Some? && c.srcTxOwner.Err? then DeployOutcome(t, DeployFailed(c.srcTxOwner.message))
    else if req.srcTx.Some? && c.srcUpload.Err? then DeployOutcome(t, DeployFailed(c.srcUpload.message))
    else if c.contractUpload.Err? then DeployOutcome(t, DeployFailed(c.contractUpload.message))
    else
      var row := ContractRecord(req, srcTxId, originalAddress, bundlerNode, c.contractUpload.value, cache, c.parse);
      if row.Err? then DeployOutcome(t, DeployFailed(row.message))
      else if c.contractInsertError.Some? then DeployOutcome(t, DeployFailed(c.contractInsertError.value))
      else
        var inserted := InsertContract(t.contracts, row.value);
        if inserted.Err? then DeployOutcome(t, DeployFailed(inserted.message))
        else
          if req.srcTx.Some? && c.sourceInsertError.Some? then
            // the contract row is already committed when the source insert throws
            DeployOutcome(Tables(inserted.value, t.sources), DeployFailed(c.sourceInsertError.value))
          else
          var sources :=
            if req.srcTx.Some?
            then InsertSourceIgnore(t.sources, SourceRecord(req.srcTx.value, originalAddress, bundlerNode,
                                                             c.srcTxOwner.value, c.srcUpload.value))
            else t.sources;
          DeployOutcome(
            Tables(inserted.value, sources),
            Deployed(req.contractTx.id, c.contractUpload.value, srcTxId,
                     if req.srcTx.Some? then Some(c.srcUpload.value) else None))
  }

  /** The handler, in the source's order of steps and writes. */
  method DeployContract(db: GatewayDb, cache: NetworkInfoCache.Snapshot, req: DeployRequest,
                        originalAddress: string, bundlerNode: string, c: Collaborators)
    returns (resp: DeployResponse)
    requires db.Valid()
    modifies db
    ensures db.Valid()
    ensures db.State() == Deploy(old(db.State()), cache, req, originalAddress, bundlerNode, c).tables
    ensures resp == Deploy(old(db.State()), cache, req, originalAddress, bundlerNode, c).response
  {
    var contractTags := PrepareTags(req.contractTx, originalAddress, bundlerNode);
    var srcTxId: Option<string>;
    var srcTxOwner: string := "";
    var bundlerSrcTxId: Option<string> := None;
    if req.srcTx.Some? {
      var srcTx := req.srcTx.value;
      srcTxId := Some(srcTx.id);
      if c.srcTxOwner.Err? {
        return DeployFailed(c.srcTxOwner.message);
      }
      srcTxOwner := c.srcTxOwner.value;
      if c.srcUpload.Err? {
        return DeployFailed(c.srcUpload.message);
      }
      bundlerSrcTxId := Some(c.srcUpload.value);
    } else {
      srcTxId := TagValue(ContractSrcTxId, contractTags);
    }
    if c.contractUpload.Err? {
      return DeployFailed(c.contractUpload.message);
    }
    var bundlerContractTxId := c.contractUpload.value;
    var row := ContractRecord(req, srcTxId, originalAddress, bundlerNode, bundlerContractTxId, cache, c.parse);
    if row.Err? {
      return DeployFailed(row.message);
    }
    if c.contractInsertError.Some? {
      return DeployFailed(c.contractInsertError.value);
    }
    var stored := db.contracts;
    var ok := db.InsertContractRow(row.value);
    if !ok {
      return DeployFailed(InsertContract(stored, row.value).message);
    }
    if req.srcTx.Some? {
      if c.sourceInsertError.Some? {
        return DeployFailed(c.sourceInsertError.value);
      }
      db.InsertSource(SourceRecord(req.srcTx.value, originalAddress, bundlerNode, srcTxOwner, c.srcUpload.value));
    }
    resp := Deployed(req.contractTx.id, bundlerContractTxId, srcTxId, bundlerSrcTxId);
  }

  /** What a successful deploy records: the contract row keyed by the
      contract id, whose source id is the attached source's id or else the
      contract's own Contract-Src tag, whose type is the classification of
      the initial state with PST fields only for PSTs, and whose stored
      envelope has no data; the source row is added only when no row has
      its id, so a deploy never overwrites a stored source. */
  lemma DeploySpec(t: Tables, cache: NetworkInfoCache.Snapshot, req: DeployRequest, originalAddress: string,
                   bundlerNode: string, c: Collaborators)
    requires Deploy(t, cache, req, originalAddress, bundlerNode, c).response.Deployed?
    ensures var o := Deploy(t, cache, req, originalAddress, bundlerNode, c);
      var id := req.contractTx.id;
      && id !in t.contracts && id in o.tables.contracts
      && (forall k :: k in t.contracts ==> k in o.tables.contracts && o.tables.contracts[k] == t.contracts[k])
      && o.tables.contracts[id].srcTxId ==
           (if req.srcTx.Some? then Some(req.srcTx.value.id) else TagValue(ContractSrcTxId, req.contractTx.tags))
      && o.response.srcTxId == o.tables.contracts[id].srcTxId
      && o.tables.contracts[id].contractTx == Some(Envelope(req.contractTx))
      && o.tables.contracts[id].contentType == TagValue(ContentType, req.contractTx.tags)
      && o.tables.contracts[id].contractType.Some? && o.tables.contracts[id].contractType.value != Error
      && (o.tables.contracts[id].contractType != Some(Pst) ==>
            o.tables.contracts[id].pstTicker.None? && o.tables.contracts[id].pstName.None?)
      && (forall k :: k in t.sources ==> k in o.tables.sources && o.tables.sources[k] == t.sources[k])
      && (req.srcTx.None? ==> o.tables.sources == t.sources)
      && (req.srcTx.Some? ==> req.srcTx.value.id in o.tables.sources)
  {
    var srcTxId := SrcTxIdFor(req, originalAddress, bundlerNode);
    PreparedTagsSpec(req.contractTx, originalAddress, bundlerNode, ContractSrcTxId);
    ContractRecordSpec(req, srcTxId, originalAddress, bundlerNode, c.contractUpload.value, cache, c.parse);
  }

  /** Whether the deploy fails before anything is written: a collaborator
      fails, the initial state does not parse or is null, the height cache
      is still empty, the `contracts` insert throws, or the contract id is
      already stored. */
  predicate FailsBeforeInsert(t: Tables, cache: NetworkInfoCache.Snapshot, req: DeployRequest,
                              originalAddress: string, bundlerNode: string, c: Collaborators)
  {
    var text := InitStateText(UploaderTags(req.contractTx.id, originalAddress, bundlerNode) + req.contractTx.tags, req.contractTx);
    || (req.srcTx.Some? && (c.srcTxOwner.Err? || c.srcUpload.Err?))
    || c.contractUpload.Err?
    || c.parse(text).Err? || c.parse(text).value.JNull?
    || cache.networkInfo.None? || cache.blockInfo.None?
    || c.contractInsertError.Some?
    || req.contractTx.id in t.contracts
  }

  /** A deploy fails exactly when it fails before the contract insert or the
      source insert throws. A failure before the contract insert changes no
      table; a failing source insert leaves the new contract row committed
      and no source row written. */
  lemma DeployFailure(t: Tables, cache: NetworkInfoCache.Snapshot, req: DeployRequest, originalAddress: string,
                      bundlerNode: string, c: Collaborators)
    ensures var o := Deploy(t, cache, req, originalAddress, bundlerNode, c);
      var early := FailsBeforeInsert(t, cache, req, originalAddress, bundlerNode, c);
      var id := req.contractTx.id;
      && (o.response.DeployFailed? <==> early || (req.srcTx.Some? && c.sourceInsertError.Some?))
      && (early ==> o.tables == t)
      && (!early && req.srcTx.Some? && c.sourceInsertError.Some? ==>
            && o.tables.sources == t.sources
            && id !in t.contracts && o.tables.contracts.Keys == t.contracts.Keys + {id}
            && (forall k :: k in t.contracts ==> o.tables.contracts[k] == t.contracts[k]))
  {
  }

  /** After a source insert that threw, deploying the same contract again
      fails, whatever the collaborators answer, and writes nothing: the
      committed contract row blocks the retry, so the source row is never
      written by this route. */
  lemma RetryAfterSourceFailure(t: Tables, cache: NetworkInfoCache.Snapshot, req: DeployRequest,
                                originalAddress: string, bundlerNode: string, c: Collaborators, c': Collaborators)
    requires !FailsBeforeInsert(t, cache, req, originalAddress, bundlerNode, c)
    requires req.srcTx.Some? && c.sourceInsertError.Some?
    ensures var o := Deploy(t, cache, req, originalAddress, bundlerNode, c);
      var retry := Deploy(o.tables, cache, req, originalAddress, bundlerNode, c');
      && retry.response.DeployFailed? && retry.tables == o.tables
      && (req.srcTx.value.id !in t.sources ==> req.srcTx.value.id !in retry.tables.sources)
  {
    DeployFailure(t, cache, req, originalAddress, bundlerNode, c);
    var o := Deploy(t, cache, req, originalAddress, bundlerNode, c);
    DeployFailure(o.tables, cache, req, originalAddress, bundlerNode, c');
  }
}
