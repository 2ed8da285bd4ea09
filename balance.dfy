/**
 * `getBalance`: chooses the stored PayPal credentials, exchanges them for a token, reads the
 * balances and searches the transactions of a window of at most 31 days, falls back to demo
 * data when PayPal refuses either read, records a `balance_check` row, and maps PayPal's JSON
 * into the response with a default for every missing field.
 *
 * Instants are integer milliseconds and a day is exactly 86 400 000 ms. The remote calls are
 * inputs: `authenticate` stands for the token exchange, `balances` for the answer of the
 * balances report, and `search` for the transaction search as a function of its window.
 */
module Balance {
  import opened Wrappers
  import opened Text
  import opened Common
  import opened Credentials
  import opened History

  const Day := 86_400_000
  /** PayPal's longest transaction-search range, in days. */
  const MaxRangeDays := 31
  const DefaultLookbackDays := 30

  /** The body of `POST /paypal/balance`; the dates are already read as instants (absent or empty is None). */
  datatype BalanceRequest = BalanceRequest(
    environment: Environment, lookbackDays: Option<int>, credentialId: Option<string>,
    startDate: Option<int>, endDate: Option<int>)

  /** `req.lookbackDays || 30`: echoed in the response as is, never clamped. */
  function EffectiveLookback(req: BalanceRequest): (days: int)
    ensures req.lookbackDays.Some? && req.lookbackDays.value != 0 ==> days == req.lookbackDays.value
    ensures req.lookbackDays.None? || req.lookbackDays.value == 0 ==> days == DefaultLookbackDays
  {
    IntOrElse(req.lookbackDays, DefaultLookbackDays)
  }

  // ---------------------------------------------------------------------------------------------
  // The search window

  /** `Math.ceil(a / d)` for a positive divisor (Dafny's `/` is Euclidean, so `(-a) / d` is the floor). */
  function CeilDiv(a: int, d: int): int
    requires d > 0
  {
    -((-a) / d)
  }

  /** A span is at most `k` days, rounded up, exactly when it is at most `k` whole days. */
  lemma CeilDaysAtMost(a: int, k: int)
    ensures CeilDiv(a, Day) <= k <==> a <= k * Day
  {
    var q := (-a) / Day;
    var rem := (-a) % Day;
    assert -a == q * Day + rem && 0 <= rem < Day;
    if q >= -k {
      assert a <= k * Day;
    } else {
      assert q <= -k - 1;
      assert a >= (k + 1) * Day - rem;
    }
  }

  datatype Window = Window(start: int, end: int)

  predicate Explicit(req: BalanceRequest) {
    req.startDate.Some? && req.endDate.Some?
  }

  /**
   * The window of the transaction search: the requested dates when both are given, with the end
   * moved back to `now` and the start moved up to 31 days before the end when the span rounds
   * up to more than 31 days; otherwise the last min(lookback, 31) days up to `now`.
   */
  function SearchWindow(req: BalanceRequest, lookback: int, now: int): (w: Window)
  {
    if Explicit(req) then
      var end := Min(req.endDate.value, now);
      if CeilDiv(end - req.startDate.value, Day) > MaxRangeDays then Window(end - MaxRangeDays * Day, end)
      else Window(req.startDate.value, end)
    else Window(now - Min(lookback, MaxRangeDays) * Day, now)
  }

  /** With both dates given the search never reaches past `now` and never spans more than 31 days. */
  lemma ExplicitWindowBounded(req: BalanceRequest, lookback: int, now: int)
    requires Explicit(req)
    ensures var w := SearchWindow(req, lookback, now);
            && w.end == Min(req.endDate.value, now)
            && w.end <= now
            && w.end - w.start <= MaxRangeDays * Day
            && (w.start == req.startDate.value || w.start == w.end - MaxRangeDays * Day)
  {
    var end := Min(req.endDate.value, now);
    CeilDaysAtMost(end - req.startDate.value, MaxRangeDays);
  }

  /** The requested start is kept exactly when the requested span fits in 31 days. */
  lemma ExplicitStartKept(req: BalanceRequest, lookback: int, now: int)
    requires Explicit(req)
    ensures SearchWindow(req, lookback, now).start == req.startDate.value
            <==> Min(req.endDate.value, now) - req.startDate.value <= MaxRangeDays * Day
  {
    var end := Min(req.endDate.value, now);
    CeilDaysAtMost(end - req.startDate.value, MaxRangeDays);
  }

  /** Without both dates the window ends now and covers min(lookback, 31) days. */
  lemma LookbackWindow(req: BalanceRequest, lookback: int, now: int)
    requires !Explicit(req)
    ensures SearchWindow(req, lookback, now).end == now
    ensures now - SearchWindow(req, lookback, now).start == Min(lookback, MaxRangeDays) * Day
    ensures lookback >= 0 ==> 0 <= now - SearchWindow(req, lookback, now).start <= MaxRangeDays * Day
  {
  }

  /** The statements that compute `startDate` and `endDate`, reassigning them step by step. */
  method ComputeWindow(req: BalanceRequest, lookback: int, now: int) returns (start: int, end: int)
    ensures Window(start, end) == SearchWindow(req, lookback, now)
  {
    if req.startDate.Some? && req.endDate.Some? {
      start := req.startDate.value;
      end := req.endDate.value;
      if end > now {
        end := now;
      }
      var diffDays := CeilDiv(end - start, Day);
      if diffDays > MaxRangeDays {
        start := end - MaxRangeDays * Day;
      }
    } else {
      end := now;
      start := now;
      start := start - Min(lookback, MaxRangeDays) * Day;
    }
  }

  // ---------------------------------------------------------------------------------------------
  // Which credentials

  /** `SELECT remark FROM paypal_credentials WHERE id = … AND environment = …`. */
  function CredentialById(rows: seq<CredentialRow>, id: Option<int>, env: Environment): (r: Option<CredentialRow>)
    ensures r.Some? ==> r.value in rows && id == Some(r.value.id as int) && r.value.environment == env
    ensures r.None? && id.Some? ==> forall k :: 0 <= k < |rows| ==> rows[k].id != id.value || rows[k].environment != env
  {
    if id.None? || |rows| == 0 then None
    else if rows[0].id == id.value && rows[0].environment == env then Some(rows[0])
    else CredentialById(rows[1..], id, env)
  }

  /**
   * A given credential id must name a row of the requested environment, whose remark then selects
   * the credentials; without an id the environment's earliest credentials are used.
   */
  function SelectCredentials(rows: seq<CredentialRow>, req: BalanceRequest, keyring: Keyring)
    : (r: Result<PlainCredentials>)
    ensures Truthy(req.credentialId) && CredentialById(rows, ParseInt(req.credentialId.value), req.environment).None?
            ==> r == Err(NotFound("Specified PayPal credentials not found"))
    ensures Truthy(req.credentialId) && CredentialById(rows, ParseInt(req.credentialId.value), req.environment).Some?
            ==> r == GetDecrypted(rows, req.environment,
                                  Some(CredentialById(rows, ParseInt(req.credentialId.value), req.environment).value.remark),
                                  keyring)
    ensures !Truthy(req.credentialId) ==> r == GetDecrypted(rows, req.environment, None, keyring)
  {
    if Truthy(req.credentialId) then
      match CredentialById(rows, ParseInt(req.credentialId.value), req.environment)
      case None => Err(NotFound("Specified PayPal credentials not found"))
      case Some(row) => GetDecrypted(rows, req.environment, Some(row.remark), keyring)
    else GetDecrypted(rows, req.environment, None, keyring)
  }

  /** In a keyed table the row that the id names is the row whose secrets are decrypted. */
  lemma SelectedIdIsUsed(rows: seq<CredentialRow>, nextId: nat, req: BalanceRequest, keyring: Keyring)
    requires Keyed(rows, nextId) && Truthy(req.credentialId)
    requires CredentialById(rows, ParseInt(req.credentialId.value), req.environment).Some?
    requires CredentialById(rows, ParseInt(req.credentialId.value), req.environment).value.remark != ""
    ensures var row := CredentialById(rows, ParseInt(req.credentialId.value), req.environment).value;
            var r := SelectCredentials(rows, req, keyring);
            && FindCredential(rows, req.environment, Some(row.remark)) == Some(row)
            && r == GetDecrypted(rows, req.environment, Some(row.remark), keyring)
            && (r.Ok? <==> Decrypt(row.clientIdEncrypted, keyring).Ok? && Decrypt(row.clientSecretEncrypted, keyring).Ok?)
            && (r.Ok? ==> r.value == PlainCredentials(Decrypt(row.clientIdEncrypted, keyring).value,
                                                      Decrypt(row.clientSecretEncrypted, keyring).value))
  {
    var row := CredentialById(rows, ParseInt(req.credentialId.value), req.environment).value;
    var i :| 0 <= i < |rows| && rows[i] == row;
    var j := FindPair(rows, req.environment, row.remark);
    assert j.Some? && j.value == i;
  }

  // ---------------------------------------------------------------------------------------------
  // PayPal's JSON and the response shape

  /** `{ currency_code, value }`. */
  datatype Money = Money(currencyCode: Option<string>, value: Option<string>)

  /** One entry of `balances` in the balances report. */
  datatype RawBalance = RawBalance(
    currency: Option<string>, totalBalance: Option<Money>, availableBalance: Option<Money>, value: Option<string>)

  datatype BalancesBody = BalancesBody(balances: Option<seq<RawBalance>>)

  /** `transaction_info` of one search result. */
  datatype TxInfo = TxInfo(
    transactionId: Option<string>, eventCode: Option<string>, status: Option<string>,
    amount: Option<Money>, fee: Option<Money>, updatedDate: Option<string>, note: Option<string>)

  datatype RawTransaction = RawTransaction(info: Option<TxInfo>)

  datatype SearchBody = SearchBody(details: Option<seq<RawTransaction>>)

  datatype BalanceEntry = BalanceEntry(currency: string, value: string)

  datatype RecentTransaction = RecentTransaction(
    transactionId: string, date: string, amount: string, currency: string, txType: string,
    status: string, eventCode: string, note: string, fee: string)

  datatype BalanceResponse = BalanceResponse(
    balances: seq<BalanceEntry>, lookbackDays: int, transactionCount: nat,
    recentTransactions: seq<RecentTransaction>)

  /** `m?.value`. */
  function MoneyValue(m: Option<Money>): Option<string> {
    if m.Some? then m.value.value else None
  }

  /** `m?.currency_code`. */
  function MoneyCurrency(m: Option<Money>): Option<string> {
    if m.Some? then m.value.currencyCode else None
  }

  /**
   * currency: `currency`, else `total_balance.currency_code`, else "USD";
   * value: `total_balance.value`, else `available_balance.value`, else `value`, else "0.00".
   */
  function MapBalance(b: RawBalance): (r: BalanceEntry)
    ensures r.currency != "" && r.value != ""
    ensures Truthy(b.currency) ==> r.currency == b.currency.value
    ensures !Truthy(b.currency) && Truthy(MoneyCurrency(b.totalBalance)) ==>
              r.currency == MoneyCurrency(b.totalBalance).value
    ensures !Truthy(b.currency) && !Truthy(MoneyCurrency(b.totalBalance)) ==> r.currency == "USD"
    ensures Truthy(MoneyValue(b.totalBalance)) ==> r.value == MoneyValue(b.totalBalance).value
    ensures !Truthy(MoneyValue(b.totalBalance)) && Truthy(MoneyValue(b.availableBalance)) ==>
              r.value == MoneyValue(b.availableBalance).value
    ensures !Truthy(MoneyValue(b.totalBalance)) && !Truthy(MoneyValue(b.availableBalance)) && Truthy(b.value) ==>
              r.value == b.value.value
    ensures !Truthy(MoneyValue(b.totalBalance)) && !Truthy(MoneyValue(b.availableBalance)) && !Truthy(b.value) ==>
              r.value == "0.00"
  {
    BalanceEntry(
      OrElse(b.currency, OrElse(MoneyCurrency(b.totalBalance), "USD")),
      OrElse(MoneyValue(b.totalBalance), OrElse(MoneyValue(b.availableBalance), OrElse(b.value, "0.00"))))
  }

  function ListOrEmpty<T>(s: Option<seq<T>>): (r: seq<T>)
    ensures s.Some? ==> r == s.value
    ensures s.None? ==> r == []
  {
    if s.Some? then s.value else []
  }

  /** `(balanceData.balances || []).map(…)`: one entry per reported balance, in order. */
  function MapBalances(body: BalancesBody): (r: seq<BalanceEntry>)
    ensures |r| == |ListOrEmpty(body.balances)|
    ensures forall k :: 0 <= k < |r| ==> r[k] == MapBalance(ListOrEmpty(body.balances)[k])
  {
    var raw := ListOrEmpty(body.balances);
    seq(|raw|, k requires 0 <= k < |raw| => MapBalance(raw[k]))
  }

  const NoInfo := TxInfo(None, None, None, None, None, None, None)

  /**
   * One recent transaction: every missing field gets its default (`"T" + now`, the current
   * instant, "0.00", "USD", "S", "", "", "0.00"), and the type is "credit" exactly when the amount
   * reads as a number that is not negative (`nonNegative` stands for `parseFloat(amount) >= 0`).
   */
  function MapTransaction(t: RawTransaction, now: nat, nowIso: string, nonNegative: string -> bool)
    : (r: RecentTransaction)
    ensures r.txType == (if nonNegative(r.amount) then "credit" else "debit")
    ensures r.transactionId != "" && r.amount != "" && r.currency != "" && r.status != "" && r.fee != ""
    ensures var info := if t.info.Some? then t.info.value else NoInfo;
            && r.transactionId == OrElse(info.transactionId, "T" + DecimalString(now))
            && r.date == OrElse(info.updatedDate, nowIso)
            && r.amount == OrElse(MoneyValue(info.amount), "0.00")
            && r.currency == OrElse(MoneyCurrency(info.amount), "USD")
            && r.status == OrElse(info.status, "S")
            && r.eventCode == OrElse(info.eventCode, "")
            && r.note == OrElse(info.note, "")
            && r.fee == OrElse(MoneyValue(info.fee), "0.00")
  {
    var info := if t.info.Some? then t.info.value else NoInfo;
    var amount := OrElse(MoneyValue(info.amount), "0.00");
    RecentTransaction(
      OrElse(info.transactionId, "T" + DecimalString(now)),
      OrElse(info.updatedDate, nowIso),
      amount,
      OrElse(MoneyCurrency(info.amount), "USD"),
      if nonNegative(amount) then "credit" else "debit",
      OrElse(info.status, "S"),
      OrElse(info.eventCode, ""),
      OrElse(info.note, ""),
      OrElse(MoneyValue(info.fee), "0.00"))
  }

  /** A search result without `transaction_info` is all defaults. */
  lemma MissingInfoDefaults(now: nat, nowIso: string, nonNegative: string -> bool)
    ensures var r := MapTransaction(RawTransaction(None), now, nowIso, nonNegative);
            && r.transactionId == "T" + DecimalString(now)
            && r.date == nowIso
            && r.amount == "0.00" && r.currency == "USD" && r.status == "S" && r.fee == "0.00"
            && r.eventCode == "" && r.note == ""
            && r.txType == (if nonNegative("0.00") then "credit" else "debit")
  {
  }

  // ---------------------------------------------------------------------------------------------
  // The demo data used when PayPal refuses a read

  const DemoBalances := BalancesBody(Some([
    RawBalance(Some("USD"), Some(Money(Some("USD"), Some("3564.89"))), Some(Money(Some("USD"), Some("3564.89"))), None)]))

  function DemoTransaction(id: string, eventCode: string, amount: string, fee: string, date: string, note: string)
    : RawTransaction
  {
    RawTransaction(Some(TxInfo(
      Some(id), Some(eventCode), Some("S"), Some(Money(Some("USD"), Some(amount))),
      Some(Money(Some("USD"), Some(fee))), Some(date), Some(note))))
  }

  const DemoTransactions := [
    DemoTransaction("T1503202509171045", "T0006", "-40.79", "-1.20", "2025-09-17T10:45:03.000Z", "Payment sent"),
    DemoTransaction("T1105202509171045", "T0001", "40.79", "0.00", "2025-09-17T10:45:31.000Z", "Payment received"),
    DemoTransaction("T1503202509171243", "T0006", "-40.79", "-1.20", "2025-09-17T12:43:14.000Z", "Payment sent")]

  /** The balances report, or the demo balance when PayPal refuses it. */
  function BalancesOrDemo(balances: Upstream<BalancesBody>): (body: BalancesBody)
    ensures balances.Fetched? ==> body == balances.body
    ensures balances.Failed? ==> body == DemoBalances
  {
    if balances.Fetched? then balances.body else DemoBalances
  }

  /** `transData.transaction_details || []`, or the demo transactions when PayPal refuses the search. */
  function TransactionsOrDemo(search: Upstream<SearchBody>): (raw: seq<RawTransaction>)
    ensures search.Fetched? ==> raw == ListOrEmpty(search.body.details)
    ensures search.Failed? ==> raw == DemoTransactions
  {
    if search.Fetched? then ListOrEmpty(search.body.details) else DemoTransactions
  }

  /** The response built from whatever the two reads produced. */
  function Respond(balances: Upstream<BalancesBody>, search: Upstream<SearchBody>, lookback: int,
                   now: nat, nowIso: string, nonNegative: string -> bool): (r: BalanceResponse)
    ensures r.lookbackDays == lookback
    ensures r.balances == MapBalances(BalancesOrDemo(balances))
    ensures |r.recentTransactions| == |TransactionsOrDemo(search)|
    ensures r.transactionCount == |r.recentTransactions|
    ensures forall k :: 0 <= k < |r.recentTransactions| ==>
              r.recentTransactions[k] == MapTransaction(TransactionsOrDemo(search)[k], now, nowIso, nonNegative)
  {
    var raw := TransactionsOrDemo(search);
    var recent := seq(|raw|, k requires 0 <= k < |raw| => MapTransaction(raw[k], now, nowIso, nonNegative));
    BalanceResponse(MapBalances(BalancesOrDemo(balances)), lookback, |recent|, recent)
  }

  /** When PayPal refuses both reads the answer is the demo balance of 3564.89 USD and the three demo transactions. */
  lemma DemoResponse(lookback: int, now: nat, nowIso: string, nonNegative: string -> bool)
    requires nonNegative("40.79") && !nonNegative("-40.79")
    ensures var r := Respond(Failed, Failed, lookback, now, nowIso, nonNegative);
            && r.balances == [BalanceEntry("USD", "3564.89")]
            && r.transactionCount == 3
            && r.recentTransactions[0].txType == "debit"
            && r.recentTransactions[1].txType == "credit"
            && r.recentTransactions[2].txType == "debit"
            && r.recentTransactions[1].transactionId == "T1105202509171045"
  {
    var r := Respond(Failed, Failed, lookback, now, nowIso, nonNegative);
    assert MapBalances(DemoBalances)[0] == BalanceEntry("USD", "3564.89");
    assert r.recentTransactions[1] == MapTransaction(DemoTransactions[1], now, nowIso, nonNegative);
  }

  // ---------------------------------------------------------------------------------------------
  // The handler

  /** The `balance_check` row recorded for every answered request. */
  function AuditRow(id: nat, userId: int, env: Environment, now: nat): (t: TxRow)
    ensures t.txType == "balance_check" && t.status == "completed" && t.amount.None? && t.currency.None?
    ensures t.transactionId == "balance_" + DecimalString(now) && t.environment == env && t.createdAt == now
  {
    TxRow(id, userId, "balance_" + DecimalString(now), "balance_check", None, None, "completed", env, now)
  }

  /**
   * What `getBalance` answers: the credential and token failures are errors; everything after
   * the token is answered, with demo data for a refused read.
   */
  function BalanceOf(credentials: seq<CredentialRow>, req: BalanceRequest, keyring: Keyring,
                     authenticate: (PlainCredentials, Environment) -> Upstream<string>,
                     balances: Upstream<BalancesBody>, search: (int, int) -> Upstream<SearchBody>,
                     now: nat, nowIso: string, nonNegative: string -> bool): (r: Result<BalanceResponse>)
  {
    match SelectCredentials(credentials, req, keyring)
    case Err(e) => Err(e)
    case Ok(creds) =>
      if authenticate(creds, req.environment).Failed? then Err(Internal("PayPal authentication failed"))
      else
        var lookback := EffectiveLookback(req);
        var w := SearchWindow(req, lookback, now);
        Ok(Respond(balances, search(w.start, w.end), lookback, now, nowIso, nonNegative))
  }

  /** The error paths and the shape of a successful answer. */
  lemma BalanceContract(credentials: seq<CredentialRow>, req: BalanceRequest, keyring: Keyring,
                        authenticate: (PlainCredentials, Environment) -> Upstream<string>,
                        balances: Upstream<BalancesBody>, search: (int, int) -> Upstream<SearchBody>,
                        now: nat, nowIso: string, nonNegative: string -> bool)
    ensures var r := BalanceOf(credentials, req, keyring, authenticate, balances, search, now, nowIso, nonNegative);
            var creds := SelectCredentials(credentials, req, keyring);
            && (creds.Err? ==> r == Err(creds.error))
            && (creds.Ok? && authenticate(creds.value, req.environment).Failed? ==>
                  r == Err(Internal("PayPal authentication failed")))
            && (r.Ok? <==> creds.Ok? && authenticate(creds.value, req.environment).Fetched?)
            && (r.Ok? ==> && r.value.lookbackDays == EffectiveLookback(req)
                          && r.value.transactionCount == |r.value.recentTransactions|
                          && |r.value.balances| == |ListOrEmpty(BalancesOrDemo(balances).balances)|)
  {
  }

  /** `getBalance` as a sequence of steps: on success one audit row is appended to the log. */
  method GetBalance(log: TransactionLog, credentials: seq<CredentialRow>, userId: int, req: BalanceRequest,
                    keyring: Keyring, authenticate: (PlainCredentials, Environment) -> Upstream<string>,
                    balances: Upstream<BalancesBody>, search: (int, int) -> Upstream<SearchBody>,
                    now: nat, nowIso: string, nonNegative: string -> bool)
    returns (r: Result<BalanceResponse>)
    requires log.Valid()
    modifies log
    ensures log.Valid()
    ensures r == BalanceOf(credentials, req, keyring, authenticate, balances, search, now, nowIso, nonNegative)
    ensures r.Ok? ==> log.rows == old(log.rows) + [AuditRow(old(log.nextId), userId, req.environment, now)]
                      && log.nextId == old(log.nextId) + 1
    ensures r.Err? ==> log.rows == old(log.rows) && log.nextId == old(log.nextId)
  {
    var lookback := EffectiveLookback(req);
    var creds := SelectCredentials(credentials, req, keyring);
    if creds.Err? {
      return Err(creds.error);
    }
    if authenticate(creds.value, req.environment).Failed? {
      return Err(Internal("PayPal authentication failed"));
    }
    var start, end := ComputeWindow(req, lookback, now);
    var found := search(start, end);
    log.Append(userId, "balance_" + DecimalString(now), "balance_check", None, None, "completed", req.environment, now);
    r := Ok(Respond(balances, found, lookback, now, nowIso, nonNegative));
  }
}
