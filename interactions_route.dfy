/** The interactions query of the gateway's HTTP API: it parses the paging
    and filter parameters, binds them positionally into one SQL statement
    over the `interactions` table, and builds the paging summary, the
    optional per-status totals and the list of interactions. */
module InteractionsRoute {
  import opened Wrappers

  const MaxInteractionsPerPage: int := 5000

  /** The confirmation statuses an interaction row can carry, and the
      filter value that admits the first two. */
  const Confirmed: string := "confirmed"
  const Corrupted: string := "corrupted"
  const NotProcessed: string := "not_processed"
  const Forked: string := "forked"
  const NotCorrupted: string := "not_corrupted"

  /** The query string. `page`, `limit`, `from` and `to` arrive already
      parsed as integers; None stands for a parameter that is absent or the
      empty string (both falsy). */
  datatype Query = Query(
    contractId: Option<string>,
    confirmationStatus: Option<string>,
    page: Option<int>,
    limit: Option<int>,
    from: Option<int>,
    to: Option<int>,
    totalCount: Option<string>)

  /** A row of the `interactions` table, with the columns the route reads. */
  datatype Interaction = Interaction(
    interactionId: string,
    contractId: string,
    blockHeight: int,
    confirmationStatus: string,
    confirmingPeer: Option<string>,
    confirmations: Option<string>,
    interaction: string)

  // ---------------------------------------------------------------------
  // Parameters

  /** `page ? parseInt(page) : 1` */
  function ParsedPage(q: Query): (p: int)
    ensures q.page.None? ==> p == 1
    ensures q.page.Some? ==> p == q.page.value
  {
    if q.page.Some? then q.page.value else 1
  }

  /** The requested page size, capped at `MaxInteractionsPerPage`. */
  function ParsedLimit(q: Query): (l: int)
    ensures l <= MaxInteractionsPerPage
    ensures q.limit.None? ==> l == MaxInteractionsPerPage
    ensures q.limit.Some? ==> l == q.limit.value || (l == MaxInteractionsPerPage < q.limit.value)
  {
    if q.limit.Some? then (if q.limit.value < MaxInteractionsPerPage then q.limit.value else MaxInteractionsPerPage)
    else MaxInteractionsPerPage
  }

  /** Is the parsed page number truthy, i.e. is the result paged at all? */
  predicate Paged(q: Query) {
    ParsedPage(q) != 0
  }

  /** The number of rows the requested page skips. */
  function Offset(q: Query): (o: int)
    ensures !Paged(q) ==> o == 0
    ensures Paged(q) ==> o == (ParsedPage(q) - 1) * ParsedLimit(q)
    ensures q.page.None? ==> o == 0
    ensures Paged(q) && ParsedPage(q) >= 1 && ParsedLimit(q) >= 0 ==> o >= 0
  {
    if Paged(q) then (ParsedPage(q) - 1) * ParsedLimit(q) else 0
  }

  /** `confirmationStatus` as a list of admitted statuses, or None for no
      filter. */
  function StatusFilter(q: Query): (f: Option<seq<string>>)
    ensures f.None? <==> q.confirmationStatus.None? || q.confirmationStatus.value == ""
    ensures f.Some? ==> f.value != []
  {
    match q.confirmationStatus
    case None => None
    case Some(s) =>
      if s == "" then None
      else if s == NotCorrupted then Some([Confirmed, NotProcessed])
      else Some([s])
  }

  predicate StatusAdmits(f: Option<seq<string>>, status: string) {
    f.None? || status in f.value
  }

  /** `not_corrupted` admits exactly the confirmed and the not yet processed
      interactions; any other non-empty value admits exactly that status; no
      value admits every status. */
  lemma StatusFilterSpec(q: Query, status: string)
    ensures q.confirmationStatus == Some(NotCorrupted) ==>
      (StatusAdmits(StatusFilter(q), status) <==> status == Confirmed || status == NotProcessed)
    ensures q.confirmationStatus.Some? && q.confirmationStatus.value !in {"", NotCorrupted} ==>
      (StatusAdmits(StatusFilter(q), status) <==> status == q.confirmationStatus.value)
    ensures q.confirmationStatus.None? ==> StatusAdmits(StatusFilter(q), status)
  {
  }

  // ---------------------------------------------------------------------
  // Positional bindings

  /** The named parameters a `?` of the statement stands for. */
  datatype Slot = ContractIdSlot | FromSlot | ToSlot | LimitSlot | OffsetSlot

  datatype Binding = BString(s: string) | BNumber(n: int) | BUndefined

  /** The placeholders of the statement, in the order they appear in its
      text: the contract id, the lower and upper height bounds when given,
      and LIMIT and OFFSET when the result is paged. The status filter is
      spliced into the text and has no placeholder. */
  function SqlSlots(q: Query): seq<Slot> {
    WhereSlots(q) + (if Paged(q) then [LimitSlot, OffsetSlot] else [])
  }

  /** The placeholders of the WHERE clause. */
  function WhereSlots(q: Query): seq<Slot> {
    [ContractIdSlot] + (if q.from.Some? then [FromSlot] else []) + (if q.to.Some? then [ToSlot] else [])
  }

  /** The value each named parameter should be bound to. */
  function SlotValue(q: Query, slot: Slot): Binding {
    match slot
    case ContractIdSlot => if q.contractId.Some? then BString(q.contractId.value) else BUndefined
    case FromSlot => if q.from.Some? then BNumber(q.from.value) else BUndefined
    case ToSlot => if q.to.Some? then BNumber(q.to.value) else BUndefined
    case LimitSlot => BNumber(ParsedLimit(q))
    case OffsetSlot => BNumber(Offset(q))
  }

  /** Each placeholder occurs at most once in the statement. */
  lemma SqlSlotsDistinct(q: Query)
    ensures forall i, j :: 0 <= i < j < |SqlSlots(q)| ==> SqlSlots(q)[i] != SqlSlots(q)[j]
  {
  }

  /** Each binding is the value of the placeholder at the same position. */
  predicate LinedUp(q: Query, slots: seq<Slot>, bindings: seq<Binding>) {
    |slots| == |bindings| && forall i :: 0 <= i < |bindings| ==> bindings[i] == SlotValue(q, slots[i])
  }

  lemma LinedUpPush(q: Query, slots: seq<Slot>, bindings: seq<Binding>, slot: Slot, b: Binding)
    requires LinedUp(q, slots, bindings) && b == SlotValue(q, slot)
    ensures LinedUp(q, slots + [slot], bindings + [b])
  {
    assert forall i :: 0 <= i < |bindings| ==> (bindings + [b])[i] == bindings[i] && (slots + [slot])[i] == slots[i];
  }

  /** The bindings list, built by conditional pushes in the order of the
      placeholders of the statement. */
  method BuildBindings(q: Query) returns (bindings: seq<Binding>)
    ensures LinedUp(q, SqlSlots(q), bindings)
  {
    ghost var slots: seq<Slot> := [];
    bindings := [];
    LinedUpPush(q, slots, bindings, ContractIdSlot, SlotValue(q, ContractIdSlot));
    bindings := bindings + [if q.contractId.Some? then BString(q.contractId.value) else BUndefined];
    slots := slots + [ContractIdSlot];
    if q.from.Some? {
      LinedUpPush(q, slots, bindings, FromSlot, BNumber(q.from.value));
      bindings := bindings + [BNumber(q.from.value)];
      slots := slots + [FromSlot];
    }
    assert slots == [ContractIdSlot] + (if q.from.Some? then [FromSlot] else []);
    if q.to.Some? {
      LinedUpPush(q, slots, bindings, ToSlot, BNumber(q.to.value));
      bindings := bindings + [BNumber(q.to.value)];
      slots := slots + [ToSlot];
    }
    assert slots == WhereSlots(q);
    var parsedPage := ParsedPage(q);
    var parsedLimit := ParsedLimit(q);
    var offset := if parsedPage != 0 then (parsedPage - 1) * parsedLimit else 0;
    if parsedPage != 0 {
      LinedUpPush(q, slots, bindings, LimitSlot, BNumber(parsedLimit));
      bindings := bindings + [BNumber(parsedLimit)];
      slots := slots + [LimitSlot];
    }
    if parsedPage != 0 {
      LinedUpPush(q, slots, bindings, OffsetSlot, BNumber(offset));
      bindings := bindings + [BNumber(offset)];
      slots := slots + [OffsetSlot];
    }
    assert slots == SqlSlots(q);
  }

  /** The value bound to the first placeholder `slot`, if it has one. */
  function Bound(slots: seq<Slot>, bindings: seq<Binding>, slot: Slot): Option<Binding>
    requires |slots| == |bindings|
  {
    if slots == [] then None
    else if slots[0] == slot then Some(bindings[0])
    else Bound(slots[1..], bindings[1..], slot)
  }

  /** Bindings that line up with their placeholders give every placeholder
      its intended value. */
  lemma {:induction false} BoundLinedUp(q: Query, slots: seq<Slot>, bindings: seq<Binding>, slot: Slot)
    requires LinedUp(q, slots, bindings)
    ensures Bound(slots, bindings, slot) == if slot in slots then Some(SlotValue(q, slot)) else None
  {
    if slots != [] && slots[0] != slot {
      assert forall i :: 0 <= i < |bindings[1..]| ==> bindings[1..][i] == SlotValue(q, slots[1..][i]) by {
        forall i | 0 <= i < |bindings[1..]| ensures bindings[1..][i] == SlotValue(q, slots[1..][i]) {
          assert bindings[1..][i] == bindings[i + 1] && slots[1..][i] == slots[i + 1];
        }
      }
      BoundLinedUp(q, slots[1..], bindings[1..], slot);
      assert slot in slots <==> slot in slots[1..] by {
        assert slots == [slots[0]] + slots[1..];
      }
    }
  }

  // ---------------------------------------------------------------------
  // The statement

  /** The WHERE clause. */
  datatype Criteria = Criteria(contractId: string, statusIn: Option<seq<string>>, from: Option<int>, to: Option<int>)

  predicate Matches(c: Criteria, row: Interaction) {
    && row.contractId == c.contractId
    && StatusAdmits(c.statusIn, row.confirmationStatus)
    && (c.from.Some? ==> row.blockHeight >= c.from.value)
    && (c.to.Some? ==> row.blockHeight <= c.to.value)
  }

  function Filter(rows: seq<Interaction>, c: Criteria): seq<Interaction> {
    if rows == [] then []
    else (if Matches(c, rows[0]) then [rows[0]] else []) + Filter(rows[1..], c)
  }

  /** The WHERE clause keeps exactly the matching rows, each as often as it
      occurs. */
  lemma {:induction false} FilterSpec(rows: seq<Interaction>, c: Criteria)
    ensures forall x :: x in Filter(rows, c) ==> Matches(c, x)
    ensures forall x :: Matches(c, x) ==> multiset(Filter(rows, c))[x] == multiset(rows)[x]
    ensures |Filter(rows, c)| <= |rows|
  {
    if rows != [] {
      FilterSpec(rows[1..], c);
      assert rows == [rows[0]] + rows[1..];
    }
  }

  /** Code-point order on strings (the C collation). */
  predicate LexLe(x: string, y: string)
    decreases |x|
  {
    x == [] || (y != [] && (x[0] < y[0] || (x[0] == y[0] && LexLe(x[1..], y[1..]))))
  }

  lemma {:induction false} LexLeTotal(x: string, y: string)
    ensures LexLe(x, y) || LexLe(y, x)
    decreases |x|
  {
    if x != [] && y != [] && x[0] == y[0] {
      LexLeTotal(x[1..], y[1..]);
    }
  }

  /** `ORDER BY block_height DESC, interaction_id DESC`: may `a` come before `b`? */
  predicate Precedes(a: Interaction, b: Interaction) {
    a.blockHeight > b.blockHeight || (a.blockHeight == b.blockHeight && LexLe(b.interactionId, a.interactionId))
  }

  predicate Ordered(s: seq<Interaction>) {
    forall i :: 0 < i < |s| ==> Precedes(s[i - 1], s[i])
  }

  function InsertByRecency(x: Interaction, s: seq<Interaction>): seq<Interaction> {
    if s == [] || Precedes(x, s[0]) then [x] + s
    else [s[0]] + InsertByRecency(x, s[1..])
  }

  function SortByRecency(s: seq<Interaction>): seq<Interaction> {
    if s == [] then [] else InsertByRecency(s[0], SortByRecency(s[1..]))
  }

  lemma {:induction false} InsertByRecencySpec(x: Interaction, s: seq<Interaction>)
    requires Ordered(s)
    ensures Ordered(InsertByRecency(x, s))
    ensures multiset(InsertByRecency(x, s)) == multiset(s) + multiset{x}
    ensures InsertByRecency(x, s) != [] && (InsertByRecency(x, s)[0] == x || (s != [] && InsertByRecency(x, s)[0] == s[0]))
  {
    if s == [] || Precedes(x, s[0]) {
    } else {
      var rest := InsertByRecency(x, s[1..]);
      InsertByRecencySpec(x, s[1..]);
      LexLeTotal(x.interactionId, s[0].interactionId);
      assert Precedes(s[0], x);
      assert s == [s[0]] + s[1..];
      var r := [s[0]] + rest;
      forall i | 0 < i < |r| ensures Precedes(r[i - 1], r[i]) {
        if i > 1 {
          assert r[i - 1] == rest[i - 2] && r[i] == rest[i - 1];
        }
      }
    }
  }

  /** The ORDER BY yields the same rows, each row sorting no later than the next. */
  lemma {:induction false} SortByRecencySpec(s: seq<Interaction>)
    ensures Ordered(SortByRecency(s))
    ensures multiset(SortByRecency(s)) == multiset(s)
  {
    if s != [] {
      SortByRecencySpec(s[1..]);
      InsertByRecencySpec(s[0], SortByRecency(s[1..]));
      assert s == [s[0]] + s[1..];
    }
  }

  /** Within an ordered result the block heights never increase. */
  lemma {:induction false} OrderedHeights(s: seq<Interaction>, i: int, j: int)
    requires Ordered(s) && 0 <= i <= j < |s|
    ensures s[j].blockHeight <= s[i].blockHeight
    decreases j - i
  {
    if i < j {
      OrderedHeights(s, i, j - 1);
    }
  }

  /** `LIMIT limit OFFSET offset` for non-negative values. */
  function Window(s: seq<Interaction>, offset: nat, limit: nat): (r: seq<Interaction>)
    ensures |r| <= limit
    ensures offset >= |s| ==> r == []
  {
    var from := if offset < |s| then offset else |s|;
    var to := if offset + limit < |s| then offset + limit else |s|;
    s[from..to]
  }

  /** Pages `1, 2, ..., k` of size `limit > 0`, read in order, list the
      first `k * limit` rows of the result without gap or repetition. */
  lemma {:induction false} PagesCover(s: seq<Interaction>, limit: nat, k: nat)
    requires limit > 0
    ensures Pages(s, limit, k) == s[..if k * limit < |s| then k * limit else |s|]
  {
    if k > 0 {
      var offset := PageOffset(k, limit);
      var a := if offset < |s| then offset else |s|;
      var b := if k * limit < |s| then k * limit else |s|;
      assert offset + limit == k * limit;
      assert Window(s, offset, limit) == s[a..b];
      PagesCover(s, limit, k - 1);
      assert s[..a] + s[a..b] == s[..b];
    }
  }

  /** The number of rows the route skips for page `k >= 1`. */
  function PageOffset(k: nat, limit: nat): nat
    requires k >= 1
  {
    (k - 1) * limit
  }

  /** The concatenation of pages `1..k`, each read with the offset the route
      computes for it. */
  function Pages(s: seq<Interaction>, limit: nat, k: nat): seq<Interaction> {
    if k == 0 then [] else Pages(s, limit, k - 1) + Window(s, PageOffset(k, limit), limit)
  }

  /** A result row: the selected columns and `count(*) OVER ()`, the number
      of rows the WHERE clause kept before LIMIT and OFFSET. */
  datatype ResultRow = ResultRow(row: Interaction, total: nat)

  function WithTotal(rows: seq<Interaction>, total: nat): (r: seq<ResultRow>)
    ensures |r| == |rows|
  {
    if rows == [] then [] else [ResultRow(rows[0], total)] + WithTotal(rows[1..], total)
  }

  /** Each row of the result, in order, tagged with the same total. */
  lemma {:induction false} WithTotalSpec(rows: seq<Interaction>, total: nat)
    ensures forall i :: 0 <= i < |rows| ==> WithTotal(rows, total)[i] == ResultRow(rows[i], total)
  {
    if rows != [] {
      WithTotalSpec(rows[1..], total);
    }
  }

  const UndefinedBindingMessage: string := "Undefined binding(s) detected when compiling RAW query"
  const BindingCountMessage: string := "Expected a binding for every placeholder"
  const BindingTypeMessage: string := "invalid input syntax"
  const NegativeOffsetMessage: string := "OFFSET must not be negative"
  const NegativeLimitMessage: string := "LIMIT must not be negative"

  function AsNumber(b: Option<Binding>): Option<int> {
    if b.Some? && b.value.BNumber? then Some(b.value.n) else None
  }

  /** What the query builder and the database do with the statement text
      (its placeholders `slots` and the spliced status list) and the
      positional `bindings`. */
  function RunSql(rows: seq<Interaction>, statusIn: Option<seq<string>>, slots: seq<Slot>, bindings: seq<Binding>): Result<seq<ResultRow>> {
    if BUndefined in bindings then Err(UndefinedBindingMessage)
    else if |bindings| != |slots| then Err(BindingCountMessage)
    else
      var cid := Bound(slots, bindings, ContractIdSlot);
      var from := Bound(slots, bindings, FromSlot);
      var to := Bound(slots, bindings, ToSlot);
      var limit := Bound(slots, bindings, LimitSlot);
      var offset := Bound(slots, bindings, OffsetSlot);
      if cid.None? || !cid.value.BString?
         || (from.Some? && !from.value.BNumber?) || (to.Some? && !to.value.BNumber?)
         || (limit.Some? != offset.Some?) || (limit.Some? && (!limit.value.BNumber? || !offset.value.BNumber?))
      then Err(BindingTypeMessage)
      else
        var matching := Filter(rows, Criteria(cid.value.s, statusIn, AsNumber(from), AsNumber(to)));
        var sorted := SortByRecency(matching);
        if limit.None? then Ok(WithTotal(sorted, |matching|))
        else if offset.value.n < 0 then Err(NegativeOffsetMessage)
        else if limit.value.n < 0 then Err(NegativeLimitMessage)
        else Ok(WithTotal(Window(sorted, offset.value.n, limit.value.n), |matching|))
  }

  // ---------------------------------------------------------------------
  // The response

  /** JavaScript's `Math.ceil(total / limit)`; None for the NaN and
      Infinity of a zero limit, which JSON renders as null. */
  function CeilDiv(total: nat, limit: int): (r: Option<int>)
    ensures r.None? <==> limit == 0
    ensures limit > 0 ==> r.Some? && (r.value - 1) * limit < total <= r.value * limit
    ensures limit < 0 ==> r.Some? && r.value * limit <= total < (r.value - 1) * limit
  {
    if limit > 0 then Some((total + limit - 1) / limit)
    else if limit < 0 then Some(-(total / -limit))
    else None
  }

  datatype Paging = Paging(total: nat, limit: int, items: nat, page: int, pages: Option<int>)
  datatype StatusTotals = StatusTotals(confirmed: nat, corrupted: nat, notProcessed: nat, forked: nat)
  datatype InteractionView = InteractionView(
    status: string,
    confirmingPeers: Option<string>,
    confirmations: Option<string>,
    interaction: string)
  datatype Body = Body(paging: Paging, total: Option<StatusTotals>, interactions: seq<InteractionView>)

  /** Status 200 with a body, or status 500 with only the error. */
  datatype Response = Success(body: Body) | Failure(message: string)

  /** What the database engine throws for reasons that neither the
      statement's text nor its bindings decide (a lost connection, say):
      while running the interactions statement, and while running the
      per-status totals statement that follows it. */
  datatype EngineFaults = EngineFaults(statement: Option<string>, totals: Option<string>)

  /** Whether a statement the route actually runs is hit by an engine
      fault: the totals statement runs only when `totalCount` is `true`. */
  predicate EngineFails(q: Query, faults: EngineFaults) {
    faults.statement.Some? || (q.totalCount == Some("true") && faults.totals.Some?)
  }

  function View(r: ResultRow): InteractionView {
    InteractionView(r.row.confirmationStatus, r.row.confirmingPeer, r.row.confirmations, r.row.interaction)
  }

  function Views(rows: seq<ResultRow>): (r: seq<InteractionView>)
    ensures |r| == |rows|
    ensures forall i :: 0 <= i < |r| ==> r[i] == View(rows[i])
  {
    if rows == [] then [] else [View(rows[0])] + Views(rows[1..])
  }

  /** The rows of contract `contractId` whose status is `status`. */
  function CountStatus(rows: seq<Interaction>, contractId: string, status: string): nat {
    if rows == [] then 0
    else
      var here := if rows[0].contractId == contractId && rows[0].confirmationStatus == status then 1 else 0;
      here + CountStatus(rows[1..], contractId, status)
  }

  /** Each per-status total counts what the main statement would keep for
      that status alone, without height bounds. */
  lemma {:induction false} CountStatusSpec(rows: seq<Interaction>, contractId: string, status: string)
    ensures CountStatus(rows, contractId, status) == |Filter(rows, Criteria(contractId, Some([status]), None, None))|
  {
    if rows != [] {
      CountStatusSpec(rows[1..], contractId, status);
    }
  }

  function Totals(rows: seq<Interaction>, contractId: string): StatusTotals {
    StatusTotals(
      CountStatus(rows, contractId, Confirmed),
      CountStatus(rows, contractId, Corrupted),
      CountStatus(rows, contractId, NotProcessed),
      CountStatus(rows, contractId, Forked))
  }

  /** The response body for the rows the statement returned. */
  function BodyFor(q: Query, table: seq<Interaction>, result: seq<ResultRow>): Body
    requires q.contractId.Some?
  {
    var total := if |result| > 0 then result[0].total else 0;
    Body(
      Paging(total, ParsedLimit(q), |result|, ParsedPage(q), CeilDiv(total, ParsedLimit(q))),
      if q.totalCount == Some("true") then Some(Totals(table, q.contractId.value)) else None,
      Views(result))
  }

  /** What the statement returns, stated with the named parameters: the
      contract's rows that pass the status and height filters, newest first,
      windowed when the result is paged; each row carries the number of
      rows that passed the filters. */
  function Expected(q: Query, table: seq<Interaction>): Result<seq<ResultRow>> {
    if q.contractId.None? then Err(UndefinedBindingMessage)
    else
      var matching := Filter(table, Criteria(q.contractId.value, StatusFilter(q), q.from, q.to));
      var sorted := SortByRecency(matching);
      if !Paged(q) then Ok(WithTotal(sorted, |matching|))
      else if Offset(q) < 0 then Err(NegativeOffsetMessage)
      else if ParsedLimit(q) < 0 then Err(NegativeLimitMessage)
      else Ok(WithTotal(Window(sorted, Offset(q), ParsedLimit(q)), |matching|))
  }

  /** The route's answer: the body for the rows returned, or status 500
      carrying only the error, whether the statement rejects its
      parameters or the engine throws while running either statement. */
  function Respond(q: Query, table: seq<Interaction>, faults: EngineFaults): Response {
    match Expected(q, table)
    case Err(m) => Failure(m)
    case Ok(rows) =>
      if faults.statement.Some? then Failure(faults.statement.value)
      else if q.totalCount == Some("true") && faults.totals.Some? then Failure(faults.totals.value)
      else Success(BodyFor(q, table, rows))
  }

  /** The handler: bind the parameters positionally, run the statement,
      run the totals statement when asked for, and build the body; any
      failure becomes status 500. */
  method HandleInteractions(q: Query, table: seq<Interaction>, faults: EngineFaults) returns (resp: Response)
    ensures resp == Respond(q, table, faults)
  {
    var bindings := BuildBindings(q);
    var result := RunSql(table, StatusFilter(q), SqlSlots(q), bindings);
    BindingsReachStatement(q, table, bindings);
    if result.Err? {
      resp := Failure(result.message);
      return;
    }
    if faults.statement.Some? {
      resp := Failure(faults.statement.value);
      return;
    }
    if q.totalCount == Some("true") && faults.totals.Some? {
      resp := Failure(faults.totals.value);
      return;
    }
    resp := Success(BodyFor(q, table, result.value));
  }

  /** Running the statement with positional bindings that line up with its
      placeholders is running it with the named parameters. */
  lemma BindingsReachStatement(q: Query, table: seq<Interaction>, bindings: seq<Binding>)
    requires LinedUp(q, SqlSlots(q), bindings)
    ensures RunSql(table, StatusFilter(q), SqlSlots(q), bindings) == Expected(q, table)
  {
    UndefinedOnlyContractId(q, bindings);
    if q.contractId.Some? {
      BoundParameters(q, bindings);
    }
  }

  /** Only a missing contract id leaves a binding undefined. */
  lemma UndefinedOnlyContractId(q: Query, bindings: seq<Binding>)
    requires LinedUp(q, SqlSlots(q), bindings)
    ensures BUndefined in bindings <==> q.contractId.None?
  {
    var slots := SqlSlots(q);
    assert slots[0] == ContractIdSlot;
    if q.contractId.Some? {
      forall i | 0 <= i < |bindings| ensures bindings[i] != BUndefined {
        assert bindings[i] == SlotValue(q, slots[i]);
      }
    }
  }

  /** What the statement reads for each placeholder. */
  lemma BoundParameters(q: Query, bindings: seq<Binding>)
    requires LinedUp(q, SqlSlots(q), bindings) && q.contractId.Some?
    ensures Bound(SqlSlots(q), bindings, ContractIdSlot) == Some(BString(q.contractId.value))
    ensures Bound(SqlSlots(q), bindings, FromSlot) == if q.from.Some? then Some(BNumber(q.from.value)) else None
    ensures Bound(SqlSlots(q), bindings, ToSlot) == if q.to.Some? then Some(BNumber(q.to.value)) else None
    ensures Bound(SqlSlots(q), bindings, LimitSlot) == if Paged(q) then Some(BNumber(ParsedLimit(q))) else None
    ensures Bound(SqlSlots(q), bindings, OffsetSlot) == if Paged(q) then Some(BNumber(Offset(q))) else None
  {
    var slots := SqlSlots(q);
    BoundLinedUp(q, slots, bindings, ContractIdSlot);
    BoundLinedUp(q, slots, bindings, FromSlot);
    BoundLinedUp(q, slots, bindings, ToSlot);
    BoundLinedUp(q, slots, bindings, LimitSlot);
    BoundLinedUp(q, slots, bindings, OffsetSlot);
    SqlSlotsMembers(q);
  }

  /** Which placeholders the statement has. */
  lemma SqlSlotsMembers(q: Query)
    ensures ContractIdSlot in SqlSlots(q)
    ensures FromSlot in SqlSlots(q) <==> q.from.Some?
    ensures ToSlot in SqlSlots(q) <==> q.to.Some?
    ensures LimitSlot in SqlSlots(q) <==> Paged(q)
    ensures OffsetSlot in SqlSlots(q) <==> Paged(q)
  {
    assert SqlSlots(q)[0] == ContractIdSlot;
  }

  /** A request naming a contract, with a page of at least 1 (or none) and a
      non-negative limit (or none), is answered with status 200 unless the
      engine throws while running one of the statements. */
  lemma WellFormedRequestSucceeds(q: Query, table: seq<Interaction>, faults: EngineFaults)
    requires q.contractId.Some?
    requires q.page.None? || q.page.value >= 1
    requires q.limit.None? || q.limit.value >= 0
    requires !EngineFails(q, faults)
    ensures Respond(q, table, faults).Success?
  {
    assert ParsedLimit(q) >= 0;
    assert ParsedPage(q) >= 1;
    assert (ParsedPage(q) - 1) * ParsedLimit(q) >= 0;
  }

  /** Status 500 exactly when the contract id is missing, the paged
      window has a negative offset or limit, or the engine throws while
      running a statement the route runs; the failure carries only the
      error. */
  lemma RespondFailure(q: Query, table: seq<Interaction>, faults: EngineFaults)
    ensures Respond(q, table, faults).Failure? <==>
      || q.contractId.None?
      || (Paged(q) && (Offset(q) < 0 || ParsedLimit(q) < 0))
      || EngineFails(q, faults)
    ensures q.contractId.None? ==> Respond(q, table, faults) == Failure(UndefinedBindingMessage)
    ensures Expected(q, table).Ok? && faults.statement.Some? ==>
      Respond(q, table, faults) == Failure(faults.statement.value)
  {
  }

  /** The rows the statement returns: rows of the table that pass the
      filters, newest first, at most `limit` of them when paged and all of
      them otherwise, each carrying the number of rows that passed. */
  lemma ExpectedSpec(q: Query, table: seq<Interaction>)
    requires Expected(q, table).Ok?
    ensures var c := Criteria(q.contractId.value, StatusFilter(q), q.from, q.to);
      var rows := Expected(q, table).value;
      && (forall i :: 0 <= i < |rows| ==> Matches(c, rows[i].row) && rows[i].row in table)
      && (forall i :: 0 <= i < |rows| ==> rows[i].total == |Filter(table, c)|)
      && (forall i :: 0 < i < |rows| ==> Precedes(rows[i - 1].row, rows[i].row))
      && (Paged(q) ==> |rows| <= ParsedLimit(q))
      && (!Paged(q) ==> |rows| == |Filter(table, c)|)
  {
    var c := Criteria(q.contractId.value, StatusFilter(q), q.from, q.to);
    var sorted := SortByRecency(Filter(table, c));
    SortedRowsSpec(table, c);
    if Paged(q) {
      WindowSpec(sorted, Offset(q), ParsedLimit(q));
      WithTotalSpec(Window(sorted, Offset(q), ParsedLimit(q)), |Filter(table, c)|);
    } else {
      WithTotalSpec(sorted, |Filter(table, c)|);
    }
  }

  /** The filtered rows, sorted: rows of the table that pass the filter,
      ordered, as many as passed. */
  lemma SortedRowsSpec(table: seq<Interaction>, c: Criteria)
    ensures var sorted := SortByRecency(Filter(table, c));
      && |sorted| == |Filter(table, c)|
      && Ordered(sorted)
      && (forall x :: x in sorted ==> Matches(c, x) && x in table)
  {
    var matching := Filter(table, c);
    var sorted := SortByRecency(matching);
    FilterSpec(table, c);
    SortByRecencySpec(matching);
    assert |multiset(sorted)| == |multiset(matching)|;
    forall x | x in sorted ensures Matches(c, x) && x in table {
      assert x in multiset(sorted);
      assert multiset(matching)[x] == multiset(table)[x];
    }
  }

  /** A window of an ordered result is ordered and holds only its rows. */
  lemma WindowSpec(s: seq<Interaction>, offset: nat, limit: nat)
    requires Ordered(s)
    ensures Ordered(Window(s, offset, limit))
    ensures forall x :: x in Window(s, offset, limit) ==> x in s
  {
    var from := if offset < |s| then offset else |s|;
    var w := Window(s, offset, limit);
    forall i | 0 < i < |w| ensures Precedes(w[i - 1], w[i]) {
      assert w[i - 1] == s[from + i - 1] && w[i] == s[from + i];
    }
    forall x | x in w ensures x in s {
      var i :| 0 <= i < |w| && w[i] == x;
      assert w[i] == s[from + i];
    }
  }

  /** The rows the route answers for page `i` of the query: the statement's
      rows, or none when the statement fails. */
  function RouteAnswer(q: Query, table: seq<Interaction>, i: nat): seq<ResultRow> {
    match Expected(q.(page := Some(i)), table)
    case Ok(rows) => rows
    case Err(_) => []
  }

  function RouteAnswers(q: Query, table: seq<Interaction>): nat -> seq<ResultRow> {
    (i: nat) => RouteAnswer(q, table, i)
  }

  /** `answer(1) + ... + answer(k)`. */
  function Concat(answer: nat -> seq<ResultRow>, k: nat): seq<ResultRow> {
    if k == 0 then [] else Concat(answer, k - 1) + answer(k)
  }

  /** What a client reads by requesting pages `1..k` of the query, one
      request per page. */
  function RoutePages(q: Query, table: seq<Interaction>, k: nat): seq<ResultRow> {
    Concat(RouteAnswers(q, table), k)
  }

  /** Requesting pages `1..k` of a query with a positive limit lists the
      first `k * limit` rows of the whole sorted result, each once and in
      order, every one carrying the same total. */
  lemma RoutePagesCover(q: Query, table: seq<Interaction>, k: nat)
    requires q.contractId.Some? && ParsedLimit(q) > 0
    ensures var matching := Filter(table, Criteria(q.contractId.value, StatusFilter(q), q.from, q.to));
      var sorted := SortByRecency(matching);
      var n := k * ParsedLimit(q);
      RoutePages(q, table, k) == WithTotal(sorted[..if n < |sorted| then n else |sorted|], |matching|)
  {
    var matching := Filter(table, Criteria(q.contractId.value, StatusFilter(q), q.from, q.to));
    var sorted := SortByRecency(matching);
    RoutePagesAsPages(q, table, k);
    PagesCover(sorted, ParsedLimit(q), k);
  }

  /** The route's pages are the windows `Pages` reads from the sorted result. */
  lemma RoutePagesAsPages(q: Query, table: seq<Interaction>, k: nat)
    requires q.contractId.Some? && ParsedLimit(q) > 0
    ensures var matching := Filter(table, Criteria(q.contractId.value, StatusFilter(q), q.from, q.to));
      RoutePages(q, table, k) == WithTotal(Pages(SortByRecency(matching), ParsedLimit(q), k), |matching|)
  {
    var matching := Filter(table, Criteria(q.contractId.value, StatusFilter(q), q.from, q.to));
    var sorted := SortByRecency(matching);
    var limit: nat := ParsedLimit(q);
    var answer := RouteAnswers(q, table);
    forall i | 1 <= i <= k
      ensures answer(i) == WithTotal(Window(sorted, PageOffset(i, limit), limit), |matching|)
    {
      ExpectedPage(q, table, i);
    }
    ConcatWindows(answer, sorted, limit, |matching|, k);
  }

  /** Answers that are the successive windows of one result, each tagged
      with the same total, concatenate to the tagged pages. */
  lemma {:induction false} ConcatWindows(answer: nat -> seq<ResultRow>, s: seq<Interaction>, limit: nat,
                                         total: nat, k: nat)
    requires forall i :: 1 <= i <= k ==> answer(i) == WithTotal(Window(s, PageOffset(i, limit), limit), total)
    ensures Concat(answer, k) == WithTotal(Pages(s, limit, k), total)
  {
    if k > 0 {
      ConcatWindows(answer, s, limit, total, k - 1);
      WithTotalAppend(Pages(s, limit, k - 1), Window(s, PageOffset(k, limit), limit), total);
    }
  }

  /** Page `k >= 1` of a query with a positive limit is the `k`-th window of
      the sorted result. */
  lemma ExpectedPage(q: Query, table: seq<Interaction>, k: nat)
    requires q.contractId.Some? && ParsedLimit(q) > 0 && k >= 1
    ensures var matching := Filter(table, Criteria(q.contractId.value, StatusFilter(q), q.from, q.to));
      var limit := ParsedLimit(q);
      Expected(q.(page := Some(k)), table) ==
        Ok(WithTotal(Window(SortByRecency(matching), PageOffset(k, limit), limit), |matching|))
  {
    var qk := q.(page := Some(k));
    assert StatusFilter(qk) == StatusFilter(q) && ParsedLimit(qk) == ParsedLimit(q);
    assert Paged(qk) && Offset(qk) == (k - 1) * ParsedLimit(q);
  }

  /** Tagging rows with a total commutes with concatenation. */
  lemma WithTotalAppend(a: seq<Interaction>, b: seq<Interaction>, total: nat)
    ensures WithTotal(a + b, total) == WithTotal(a, total) + WithTotal(b, total)
  {
    var l := WithTotal(a + b, total);
    var r := WithTotal(a, total) + WithTotal(b, total);
    assert |l| == |r|;
    WithTotalSpec(a + b, total);
    WithTotalSpec(a, total);
    WithTotalSpec(b, total);
    forall i | 0 <= i < |l| ensures l[i] == r[i] {
      if i < |a| { assert (a + b)[i] == a[i]; } else { assert (a + b)[i] == b[i - |a|]; }
    }
  }

  /** The paging summary of a successful answer: `items` counts the listed
      interactions; `total` is the number of rows that pass the filters when
      the page is not empty and 0 when it is; `pages` is the rounded-up
      quotient of `total` by the limit; the per-status totals appear exactly
      when `totalCount` is the string `true`. */
  lemma RespondSpec(q: Query, table: seq<Interaction>, faults: EngineFaults)
    requires Respond(q, table, faults).Success?
    ensures var b := Respond(q, table, faults).body;
      var matching := Filter(table, Criteria(q.contractId.value, StatusFilter(q), q.from, q.to));
      var rows := Expected(q, table).value;
      && b.paging.items == |b.interactions| == |rows|
      && (forall i :: 0 <= i < |rows| ==> b.interactions[i] == View(rows[i]))
      && b.paging.total == (if b.paging.items > 0 then |matching| else 0)
      && b.paging.limit == ParsedLimit(q) <= MaxInteractionsPerPage
      && b.paging.page == ParsedPage(q)
      && b.paging.pages == CeilDiv(b.paging.total, ParsedLimit(q))
      && (b.total.Some? <==> q.totalCount == Some("true"))
  {
    ExpectedSpec(q, table);
  }
}
