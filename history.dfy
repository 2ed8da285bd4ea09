/**
 * The `transactions` audit log and `getHistory`, which pages through one user's rows
 * newest first.
 */
module History {
  import opened Wrappers
  import opened Text
  import opened Common

  /** One row of the `transactions` table (its `response_data` JSON column is not modelled). */
  datatype TxRow = TxRow(
    id: nat, userId: int, transactionId: string, txType: string,
    amount: Option<real>, currency: Option<string>, status: string,
    environment: Environment, createdAt: int)

  /** The append-only `transactions` table. */
  class TransactionLog {
    var rows: seq<TxRow>
    /** The next value of the id sequence. */
    var nextId: nat

    ghost predicate Valid()
      reads this
    {
      && (forall i :: 0 <= i < |rows| ==> rows[i].id < nextId)
      && (forall i, j :: 0 <= i < j < |rows| ==> rows[i].id != rows[j].id)
    }

    constructor ()
      ensures Valid() && rows == [] && nextId == 1
    {
      rows := [];
      nextId := 1;
    }

    /** `INSERT INTO transactions …`: one new row at the end, with the next id and `now` as its creation time. */
    method Append(userId: int, transactionId: string, txType: string, amount: Option<real>,
                  currency: Option<string>, status: string, environment: Environment, now: int)
      requires Valid()
      modifies this
      ensures Valid()
      ensures rows == old(rows) + [TxRow(old(nextId), userId, transactionId, txType, amount, currency, status, environment, now)]
      ensures nextId == old(nextId) + 1
    {
      rows := rows + [TxRow(nextId, userId, transactionId, txType, amount, currency, status, environment, now)];
      nextId := nextId + 1;
    }
  }

  /** The query string of `GET /transaction/history`. */
  datatype HistoryRequest = HistoryRequest(limit: Option<int>, offset: Option<int>, environment: Option<string>)

  /** One entry of the response: the id as a string, a zero amount and an empty currency dropped. */
  datatype Transaction = Transaction(
    id: string, transactionId: string, txType: string,
    amount: Option<real>, currency: Option<string>, status: string,
    environment: Environment, createdAt: int)

  datatype HistoryResponse = HistoryResponse(transactions: seq<Transaction>, total: nat, hasMore: bool)

  const DefaultLimit := 50

  /** The rows one caller may see under the environment filter, if any. */
  function Matching(rows: seq<TxRow>, userId: int, env: Option<Environment>): seq<TxRow>
  {
    Filter(rows, Visible(userId, env))
  }

  /** `WHERE user_id = userId [AND environment = env]`. */
  function Visible(userId: int, env: Option<Environment>): TxRow -> bool {
    (t: TxRow) => t.userId == userId && (env.None? || t.environment == env.value)
  }

  /** The caller's rows are exactly the rows of the caller that pass the environment filter. */
  lemma MatchingSpec(rows: seq<TxRow>, userId: int, env: Option<Environment>)
    ensures var r := Matching(rows, userId, env);
            && (forall k :: 0 <= k < |r| ==> r[k] in rows && r[k].userId == userId)
            && (env.Some? ==> forall k :: 0 <= k < |r| ==> r[k].environment == env.value)
            && (forall k :: 0 <= k < |rows| ==>
                  (rows[k].userId == userId && (env.None? || rows[k].environment == env.value) ==> rows[k] in r))
  {
    FilterSpec(rows, Visible(userId, env));
  }

  function CreatedAt(t: TxRow): int {
    t.createdAt
  }

  /** `ORDER BY created_at DESC`. */
  function Newest(rows: seq<TxRow>): (r: seq<TxRow>)
    ensures |r| == |rows|
    ensures multiset(r) == multiset(rows)
    ensures forall i, j :: 0 <= i < j < |r| ==> r[i].createdAt >= r[j].createdAt
  {
    SortDescSpec(rows, CreatedAt);
    SortDesc(rows, CreatedAt)
  }

  /** The row mapping of the `for await` loop. */
  function ToTransaction(t: TxRow): (r: Transaction)
    ensures r.amount.Some? <==> t.amount.Some? && t.amount.value != 0.0
    ensures r.currency.Some? <==> Truthy(t.currency)
    ensures r.amount.Some? ==> r.amount == t.amount
    ensures r.currency.Some? ==> r.currency == t.currency
    ensures r.id == DecimalString(t.id)
    ensures r.transactionId == t.transactionId && r.txType == t.txType && r.status == t.status
    ensures r.environment == t.environment && r.createdAt == t.createdAt
  {
    Transaction(
      DecimalString(t.id), t.transactionId, t.txType,
      if t.amount.Some? && t.amount.value != 0.0 then t.amount else None,
      if Truthy(t.currency) then t.currency else None,
      t.status, t.environment, t.createdAt)
  }

  function ToTransactions(page: seq<TxRow>): seq<Transaction>
  {
    if |page| == 0 then [] else [ToTransaction(page[0])] + ToTransactions(page[1..])
  }

  /** One transaction per row, in the rows' order. */
  lemma {:induction false} ToTransactionsSpec(page: seq<TxRow>)
    ensures |ToTransactions(page)| == |page|
    ensures forall k :: 0 <= k < |page| ==> ToTransactions(page)[k] == ToTransaction(page[k])
  {
    if |page| > 0 {
      ToTransactionsSpec(page[1..]);
    }
  }

  /** The rows of one page: the caller's matching rows newest first, from `offset`, at most `limit`. */
  function PageRows(rows: seq<TxRow>, userId: int, env: Option<Environment>, offset: nat, limit: nat): seq<TxRow>
  {
    Page(Newest(Matching(rows, userId, env)), offset, limit)
  }

  /**
   * A page is the window of the caller's rows under the filter, newest first, that starts at
   * `offset`: min(limit, total − offset) rows (none past the end), the k-th being the
   * (offset + k)-th newest.
   */
  lemma PageRowsSpec(rows: seq<TxRow>, userId: int, env: Option<Environment>, offset: nat, limit: nat)
    ensures var r := PageRows(rows, userId, env, offset, limit);
            var total := |Matching(rows, userId, env)|;
            && |r| == (if offset >= total then 0 else Min(limit, total - offset))
            && (forall k :: 0 <= k < |r| ==> r[k] == Newest(Matching(rows, userId, env))[offset + k])
            && (forall k :: 0 <= k < |r| ==>
                  r[k] in rows && r[k].userId == userId && (env.Some? ==> r[k].environment == env.value))
            && (forall i, j :: 0 <= i < j < |r| ==> r[i].createdAt >= r[j].createdAt)
  {
    var matching := Matching(rows, userId, env);
    var ordered := Newest(matching);
    var page := Page(ordered, offset, limit);
    PageSpec(ordered, offset, limit);
    MatchingSpec(rows, userId, env);
    SortDescSpec(matching, CreatedAt);
    forall k | 0 <= k < |page|
      ensures page[k] in rows && page[k].userId == userId && (env.Some? ==> page[k].environment == env.value)
    {
      assert page[k] == ordered[offset + k];
      assert page[k] in multiset(ordered);
      assert page[k] in matching;
    }
    forall i, j | 0 <= i < j < |page| ensures page[i].createdAt >= page[j].createdAt {
      assert page[i] == ordered[offset + i] && page[j] == ordered[offset + j];
    }
  }

  /**
   * What `getHistory` answers: `limit` defaults to 50 and `offset` to 0 when absent or 0;
   * a negative one is refused by the database; `total` counts every matching row; the page is
   * the matching rows newest first from `offset`, at most `limit` of them.
   */
  function HistoryOf(rows: seq<TxRow>, userId: int, req: HistoryRequest): (r: Result<HistoryResponse>)
  {
    var limit := IntOrElse(req.limit, DefaultLimit);
    var offset := IntOrElse(req.offset, 0);
    if offset < 0 then Err(Internal("OFFSET must not be negative"))
    else if limit < 0 then Err(Internal("LIMIT must not be negative"))
    else
      var env := EnvironmentFilter(req.environment);
      var total := |Matching(rows, userId, env)|;
      Ok(HistoryResponse(ToTransactions(PageRows(rows, userId, env, offset, limit)), total, offset + limit < total))
  }

  /** Every listed transaction is the mapping of one of the caller's rows that passes the filter. */
  predicate ListedFrom(rows: seq<TxRow>, userId: int, env: Option<Environment>, listed: seq<Transaction>) {
    forall k :: 0 <= k < |listed| ==> MappedFrom(rows, userId, env, listed[k])
  }

  /** `x` is the mapping of one of the caller's rows that passes the filter. */
  predicate MappedFrom(rows: seq<TxRow>, userId: int, env: Option<Environment>, x: Transaction) {
    exists t :: t in rows && t.userId == userId && x == ToTransaction(t)
                && (env.Some? ==> t.environment == env.value)
  }

  /** The properties a caller of `getHistory` relies on. */
  lemma HistoryContract(rows: seq<TxRow>, userId: int, req: HistoryRequest)
    ensures var limit := IntOrElse(req.limit, DefaultLimit);
            var offset := IntOrElse(req.offset, 0);
            HistoryOf(rows, userId, req).Ok? <==> limit >= 0 && offset >= 0
    ensures HistoryOf(rows, userId, req).Ok? ==>
            var resp := HistoryOf(rows, userId, req).value;
            var limit := IntOrElse(req.limit, DefaultLimit);
            var offset := IntOrElse(req.offset, 0);
            var env := EnvironmentFilter(req.environment);
            && resp.total == |Matching(rows, userId, env)|
            && |resp.transactions| == (if offset >= resp.total then 0 else Min(limit, resp.total - offset))
            && (forall k :: 0 <= k < |resp.transactions| ==>
                  resp.transactions[k] == ToTransaction(Newest(Matching(rows, userId, env))[offset + k]))
            && resp.hasMore == (offset + limit < resp.total)
            && ListedFrom(rows, userId, env, resp.transactions)
            && (forall i, j :: 0 <= i < j < |resp.transactions| ==>
                  resp.transactions[i].createdAt >= resp.transactions[j].createdAt)
  {
    var limit := IntOrElse(req.limit, DefaultLimit);
    var offset := IntOrElse(req.offset, 0);
    if limit >= 0 && offset >= 0 {
      var env := EnvironmentFilter(req.environment);
      assert HistoryOf(rows, userId, req).value.transactions == ToTransactions(PageRows(rows, userId, env, offset, limit));
      WindowSpec(rows, userId, env, offset, limit);
    }
  }

  /** The transactions of one window: its exact rows, each mapped from a caller's row, newest first. */
  lemma WindowSpec(rows: seq<TxRow>, userId: int, env: Option<Environment>, offset: nat, limit: nat)
    ensures var listed := ToTransactions(PageRows(rows, userId, env, offset, limit));
            var total := |Matching(rows, userId, env)|;
            && |listed| == (if offset >= total then 0 else Min(limit, total - offset))
            && (forall k :: 0 <= k < |listed| ==> listed[k] == ToTransaction(Newest(Matching(rows, userId, env))[offset + k]))
            && ListedFrom(rows, userId, env, listed)
            && (forall i, j :: 0 <= i < j < |listed| ==> listed[i].createdAt >= listed[j].createdAt)
  {
    var ordered := Newest(Matching(rows, userId, env));
    var page := PageRows(rows, userId, env, offset, limit);
    var listed := ToTransactions(page);
    ToTransactionsSpec(page);
    PageRowsSpec(rows, userId, env, offset, limit);
    forall k | 0 <= k < |listed|
      ensures listed[k] == ToTransaction(ordered[offset + k]) && MappedFrom(rows, userId, env, listed[k])
    {
      assert listed[k] == ToTransaction(page[k]);
    }
    forall i, j | 0 <= i < j < |listed| ensures listed[i].createdAt >= listed[j].createdAt {
      assert listed[i] == ToTransaction(page[i]) && listed[j] == ToTransaction(page[j]);
    }
  }

  /** Changing only the page window leaves `total` as it was. */
  lemma TotalIgnoresPaging(rows: seq<TxRow>, userId: int, a: HistoryRequest, b: HistoryRequest)
    requires a.environment == b.environment
    requires HistoryOf(rows, userId, a).Ok? && HistoryOf(rows, userId, b).Ok?
    ensures HistoryOf(rows, userId, a).value.total == HistoryOf(rows, userId, b).value.total
  {
  }

  lemma {:induction false} ToTransactionsConcat(a: seq<TxRow>, b: seq<TxRow>)
    ensures ToTransactions(a + b) == ToTransactions(a) + ToTransactions(b)
  {
    if |a| > 0 {
      assert (a + b)[1..] == a[1..] + b;
      ToTransactionsConcat(a[1..], b);
    } else {
      assert a + b == b;
    }
  }

  /**
   * A request for the rows right after a first page (its offset advanced by the first limit),
   * answered after that page, continues it: together the two pages are the page a single request
   * spanning both would return, so paging through the history neither skips nor repeats a row.
   */
  lemma ConsecutivePages(rows: seq<TxRow>, userId: int, first: HistoryRequest, second: HistoryRequest, both: HistoryRequest)
    requires first.limit.Some? && first.limit.value > 0 && first.offset.Some? && first.offset.value >= 0
    requires second.limit.Some? && second.limit.value > 0
    requires second.offset == Some(first.offset.value + first.limit.value)
    requires both.limit == Some(first.limit.value + second.limit.value) && both.offset == first.offset
    requires second.environment == first.environment && both.environment == first.environment
    ensures HistoryOf(rows, userId, first).Ok? && HistoryOf(rows, userId, second).Ok? && HistoryOf(rows, userId, both).Ok?
    ensures HistoryOf(rows, userId, first).value.transactions + HistoryOf(rows, userId, second).value.transactions
            == HistoryOf(rows, userId, both).value.transactions
  {
    ConsecutiveWindows(rows, userId, EnvironmentFilter(first.environment), first.offset.value,
                       first.limit.value, second.offset.value, second.limit.value, both.limit.value);
    ExplicitWindow(rows, userId, first);
    ExplicitWindow(rows, userId, second);
    ExplicitWindow(rows, userId, both);
  }

  /**
   * The transactions of the window of `a` rows at `offset` and of the window of `b` rows at
   * `next = offset + a` together are those of the window of `c = a + b` rows at `offset`.
   */
  lemma ConsecutiveWindows(rows: seq<TxRow>, userId: int, env: Option<Environment>, offset: nat, a: nat,
                           next: nat, b: nat, c: nat)
    requires next == offset + a && c == a + b
    ensures ToTransactions(PageRows(rows, userId, env, offset, a)) + ToTransactions(PageRows(rows, userId, env, next, b))
            == ToTransactions(PageRows(rows, userId, env, offset, c))
  {
    PageRowsConcatenate(rows, userId, env, offset, a, next, b, c);
    ToTransactionsConcat(PageRows(rows, userId, env, offset, a), PageRows(rows, userId, env, next, b));
  }

  /** Two consecutive windows of the caller's rows together are the window spanning both. */
  lemma PageRowsConcatenate(rows: seq<TxRow>, userId: int, env: Option<Environment>, offset: nat, a: nat,
                            next: nat, b: nat, c: nat)
    requires next == offset + a && c == a + b
    ensures PageRows(rows, userId, env, offset, a) + PageRows(rows, userId, env, next, b)
            == PageRows(rows, userId, env, offset, c)
  {
    PagesConcatenate(Newest(Matching(rows, userId, env)), offset, a, next, b, c);
  }

  /** A request with an explicit positive limit and an explicit offset returns exactly that window. */
  lemma ExplicitWindow(rows: seq<TxRow>, userId: int, req: HistoryRequest)
    requires req.limit.Some? && req.limit.value > 0 && req.offset.Some? && req.offset.value >= 0
    ensures HistoryOf(rows, userId, req).Ok?
    ensures HistoryOf(rows, userId, req).value.transactions
            == ToTransactions(PageRows(rows, userId, EnvironmentFilter(req.environment), req.offset.value, req.limit.value))
  {
  }

  /** `getHistory`: the counts and the `for await … push` loop over the selected page. */
  method GetHistory(rows: seq<TxRow>, userId: int, req: HistoryRequest) returns (r: Result<HistoryResponse>)
    ensures r == HistoryOf(rows, userId, req)
  {
    var limit := IntOrElse(req.limit, DefaultLimit);
    var offset := IntOrElse(req.offset, 0);
    if offset < 0 {
      return Err(Internal("OFFSET must not be negative"));
    }
    if limit < 0 {
      return Err(Internal("LIMIT must not be negative"));
    }
    var matching := Matching(rows, userId, EnvironmentFilter(req.environment));
    var total := |matching|;
    var page := PageRows(rows, userId, EnvironmentFilter(req.environment), offset, limit);
    var list := MapRows(page);
    r := Ok(HistoryResponse(list, total, offset + limit < total));
  }

  /** The `for await` loop: one transaction per row of the page, in order. */
  method MapRows(page: seq<TxRow>) returns (list: seq<Transaction>)
    ensures list == ToTransactions(page)
  {
    list := [];
    var i := 0;
    while i < |page|
      invariant 0 <= i <= |page| && |list| == i
      invariant forall k :: 0 <= k < i ==> list[k] == ToTransaction(page[k])
    {
      list := list + [ToTransaction(page[i])];
      i := i + 1;
    }
    ToTransactionsSpec(page);
  }
}
