/**
 * The dashboard page: the credential selector (whose value packs a credential id and its
 * environment as `id:environment`), the loading of the credential list, of the recent
 * transactions and of the current balance, and the amount formatting helpers.
 * The backend calls are parameters: functions from the request to its answer (an Err for any failure).
 */
module Dashboard {
  import opened Wrappers
  import opened Text
  import opened Common
  import opened Credentials
  import opened History
  import opened Balance

  // ---------------------------------------------------------------------------------------------
  // The selector value

  /** The value of one selector entry: `${id}:${environment}`. */
  function SelectorValue(id: string, environment: string): (v: string)
    ensures |v| == |id| + 1 + |environment| && v[|id|] == ':'
    ensures v[..|id|] == id && v[|id| + 1..] == environment
  {
    id + ":" + environment
  }

  /** `const [credentialId, environment] = selected.split(':')`: the second part is absent without a ':'. */
  function SplitSelector(v: string): (parts: (string, Option<string>))
    ensures ':' !in parts.0
    ensures ':' !in v ==> parts == (v, None)
  {
    var p := Split(v, ':');
    assert ':' !in v ==> p == [v] by {
      if ':' !in v { SplitWithoutSeparator(v, ':'); }
    }
    (p[0], if |p| > 1 then Some(p[1]) else None)
  }

  /** Splitting a selector value gives back the id and the environment it was made from, if neither holds a ':'. */
  lemma SelectorRoundTrip(id: string, environment: string)
    requires ':' !in id && ':' !in environment
    ensures SplitSelector(SelectorValue(id, environment)) == (id, Some(environment))
  {
    assert SelectorValue(id, environment) == id + [':'] + environment;
    SplitAtFirst(id, ':', environment);
    SplitWithoutSeparator(environment, ':');
  }

  /** The entry for a listed credential names that credential: its id parses back and its environment is kept. */
  lemma SelectorNamesCredential(n: nat, e: Environment)
    ensures var parts := SplitSelector(SelectorValue(DecimalString(n), EnvName(e)));
            ParseInt(parts.0) == Some(n) && parts.1 == Some(EnvName(e))
  {
    DecimalStringHasNo(n, ':');
    assert ':' !in EnvName(e);
    SelectorRoundTrip(DecimalString(n), EnvName(e));
    ParseIntDecimal(n);
  }

  // ---------------------------------------------------------------------------------------------
  // Requests

  /** The body of the `getBalance` call as the page sends it (all fields as the page holds them). */
  datatype BalanceQuery = BalanceQuery(
    environment: Option<string>, credentialId: string, lookbackDays: Option<int>,
    startDate: Option<string>, endDate: Option<string>)

  /**
   * The day count the page computes for a custom range: the distance between the two dates in
   * days, rounded up, at most 31. It is not sent: a custom range is sent as its two dates.
   */
  function CustomRangeDays(start: int, end: int): (days: int)
    ensures 0 <= days <= MaxRangeDays
    ensures days == MaxRangeDays || (end - start <= days * Day && start - end <= days * Day)
    ensures days < MaxRangeDays ==> (days == 0 || (end - start > (days - 1) * Day || start - end > (days - 1) * Day))
  {
    var diff := if end >= start then end - start else start - end;
    CeilDaysAtMost(diff, MaxRangeDays);
    var c := CeilDiv(diff, Day);
    CeilDaysAtMost(diff, c);
    CeilDaysAtMost(diff, c - 1);
    Min(c, MaxRangeDays)
  }

  /** The custom-range day count does not depend on which date is the earlier one. */
  lemma CustomRangeDaysSymmetric(start: int, end: int)
    ensures CustomRangeDays(start, end) == CustomRangeDays(end, start)
  {
  }

  /**
   * The request of `loadRecentTransactions`: both custom dates are sent without a day count;
   * otherwise the day count is `customDays`, else the chosen preset read with `parseInt`.
   */
  function RecentQuery(selected: string, preset: string, customDays: Option<int>,
                       startDate: Option<string>, endDate: Option<string>): (q: BalanceQuery)
    ensures q.credentialId == SplitSelector(selected).0 && q.environment == SplitSelector(selected).1
    ensures Truthy(startDate) && Truthy(endDate) ==>
              q.lookbackDays.None? && q.startDate == startDate && q.endDate == endDate
    ensures !(Truthy(startDate) && Truthy(endDate)) ==> q.startDate.None? && q.endDate.None?
    ensures !(Truthy(startDate) && Truthy(endDate)) && customDays.Some? && customDays.value != 0 ==>
              q.lookbackDays == customDays
    ensures !(Truthy(startDate) && Truthy(endDate)) && (customDays.None? || customDays.value == 0) ==>
              q.lookbackDays == ParseInt(preset)
  {
    var (id, env) := SplitSelector(selected);
    var lookbackDays := if customDays.Some? && customDays.value != 0 then customDays else ParseInt(preset);
    if Truthy(startDate) && Truthy(endDate) then BalanceQuery(env, id, None, startDate, endDate)
    else BalanceQuery(env, id, lookbackDays, None, None)
  }

  /** The request of `loadCurrentBalance`: always the last 30 days. */
  function CurrentBalanceQuery(selected: string): (q: BalanceQuery)
    ensures q.lookbackDays == Some(DefaultLookbackDays) && q.startDate.None? && q.endDate.None?
    ensures q.credentialId == SplitSelector(selected).0 && q.environment == SplitSelector(selected).1
  {
    var (id, env) := SplitSelector(selected);
    BalanceQuery(env, id, Some(30), None, None)
  }

  /** The history request used when the balance call fails: the 10 newest rows of every environment. */
  const FallbackHistory := HistoryRequest(Some(10), Some(0), None)

  // ---------------------------------------------------------------------------------------------
  // Formatting

  function Abs(x: real): real {
    if x < 0.0 then -x else x
  }

  /**
   * `formatAmount`: 'N/A' when either part is missing, otherwise the sign, the formatted
   * magnitude (`fixed` stands for `toFixed(2)`), a space and the currency.
   */
  function FormatAmount(amount: Option<real>, currency: Option<string>, fixed: real -> string): (s: string)
    ensures s == "N/A" <==> amount.None? || currency.None?
    ensures amount.Some? && currency.Some? ==>
              s == (if amount.value < 0.0 then "-" else "") + fixed(Abs(amount.value)) + " " + currency.value
  {
    if amount.None? || currency.None? then "N/A"
    else
      var s := (if amount.value < 0.0 then "-" else "") + fixed(Abs(amount.value)) + " " + currency.value;
      assert ' ' in s by {
        var at := |(if amount.value < 0.0 then "-" else "") + fixed(Abs(amount.value))|;
        assert s[at] == ' ';
      }
      assert ' ' !in "N/A";
      s
  }

  /** A JavaScript amount as the page holds it: missing from the JSON (`undefined`), `null`, or a number. */
  datatype JsAmount = Undefined | Null | Number(value: real)

  /**
   * `getAmountColor`: gray only for `null`, green for a number that is not negative, and red
   * otherwise, which includes `undefined` since `undefined >= 0` is false.
   */
  function AmountColor(amount: JsAmount): (cls: string)
    ensures cls == "text-gray-400" <==> amount.Null?
    ensures cls == "text-green-400" <==> amount.Number? && amount.value >= 0.0
    ensures cls == "text-red-400" <==> amount.Undefined? || (amount.Number? && amount.value < 0.0)
  {
    match amount
    case Null => "text-gray-400"
    case Undefined => "text-red-400"
    case Number(v) => if v >= 0.0 then "text-green-400" else "text-red-400"
  }

  /** A history entry's amount as the page receives it: an omitted field reads as `undefined`. */
  function Received(amount: Option<real>): JsAmount {
    if amount.Some? then Number(amount.value) else Undefined
  }

  /**
   * The amount cell of a fallback history entry: its colour from `getAmountColor`, unguarded, and
   * its text from `formatAmount` only when the amount is truthy. A currency the response omitted is
   * `undefined`, not `null`, so it passes `formatAmount`'s check and is rendered as "undefined".
   */
  function AmountCell(t: Transaction, fixed: real -> string): (cell: (string, string))
    ensures cell.0 == AmountColor(Received(t.amount))
    ensures cell.0 != "text-gray-400"
    ensures cell.0 == "text-red-400" <==> t.amount.None? || t.amount.value < 0.0
    ensures cell.1 == "N/A" <==> t.amount.None? || t.amount.value == 0.0
    ensures t.amount.Some? && t.amount.value != 0.0 ==>
              cell.1 == FormatAmount(t.amount, Some(if t.currency.Some? then t.currency.value else "undefined"), fixed)
  {
    var text := if t.amount.Some? && t.amount.value != 0.0
                then FormatAmount(t.amount, Some(if t.currency.Some? then t.currency.value else "undefined"), fixed)
                else "N/A";
    (AmountColor(Received(t.amount)), text)
  }

  /** A logged row without an amount, or with a zero one, is listed in red as 'N/A'. */
  lemma UnpricedRowShownRed(row: TxRow, fixed: real -> string)
    requires row.amount.None? || row.amount == Some(0.0)
    ensures AmountCell(ToTransaction(row), fixed) == ("text-red-400", "N/A")
  {
  }

  // ---------------------------------------------------------------------------------------------
  // The page state

  class DashboardPage {
    var availableCredentials: seq<CredentialInfo>
    /** The selector value; "" when nothing is selected. */
    var selected: string
    var currentBalance: Option<BalanceResponse>
    var recentTransactions: seq<Transaction>
    /** The chosen day-count preset. */
    var dateRange: string

    constructor ()
      ensures availableCredentials == [] && selected == "" && currentBalance.None?
      ensures recentTransactions == [] && dateRange == "5"
    {
      availableCredentials := [];
      selected := "";
      currentBalance := None;
      recentTransactions := [];
      dateRange := "5";
    }

    /** `loadAvailableCredentials`: the first credential is selected only when none is and the list is not empty. */
    method LoadAvailableCredentials(answer: Result<seq<CredentialInfo>>)
      modifies this
      ensures answer.Err? ==> availableCredentials == [] && selected == old(selected)
      ensures answer.Ok? ==> availableCredentials == answer.value
      ensures answer.Ok? && |answer.value| > 0 && old(selected) == "" ==>
                selected == SelectorValue(answer.value[0].id, EnvName(answer.value[0].environment))
      ensures answer.Ok? && (|answer.value| == 0 || old(selected) != "") ==> selected == old(selected)
      ensures currentBalance == old(currentBalance) && recentTransactions == old(recentTransactions)
      ensures dateRange == old(dateRange)
    {
      if answer.Err? {
        availableCredentials := [];
        return;
      }
      availableCredentials := answer.value;
      if |answer.value| > 0 && selected == "" {
        selected := SelectorValue(answer.value[0].id, EnvName(answer.value[0].environment));
      }
    }

    /**
     * `loadRecentTransactions`: nothing without a selection; a balance answer replaces the current
     * balance; a failed balance call falls back to the 10 newest logged rows, or to none.
     */
    method LoadRecentTransactions(customDays: Option<int>, startDate: Option<string>, endDate: Option<string>,
                                  getBalance: BalanceQuery -> Result<BalanceResponse>,
                                  getHistory: HistoryRequest -> Result<HistoryResponse>)
      modifies this
      ensures old(selected) == "" ==>
                currentBalance == old(currentBalance) && recentTransactions == old(recentTransactions)
      ensures var answer := getBalance(RecentQuery(old(selected), old(dateRange), customDays, startDate, endDate));
              old(selected) != "" ==>
                && (answer.Ok? ==> currentBalance == Some(answer.value) && recentTransactions == old(recentTransactions))
                && (answer.Err? && getHistory(FallbackHistory).Ok? ==>
                      currentBalance == old(currentBalance)
                      && recentTransactions == getHistory(FallbackHistory).value.transactions)
                && (answer.Err? && getHistory(FallbackHistory).Err? ==>
                      currentBalance == old(currentBalance) && recentTransactions == [])
      ensures availableCredentials == old(availableCredentials) && selected == old(selected)
      ensures dateRange == old(dateRange)
    {
      if selected == "" {
        return;
      }
      var query := RecentQuery(selected, dateRange, customDays, startDate, endDate);
      var answer := getBalance(query);
      if answer.Ok? {
        currentBalance := Some(answer.value);
        return;
      }
      var fallback := getHistory(HistoryRequest(Some(10), Some(0), None));
      if fallback.Ok? {
        recentTransactions := fallback.value.transactions;
      } else {
        recentTransactions := [];
      }
    }

    /** `loadCurrentBalance`: nothing without a selection; a failed call clears the balance. */
    method LoadCurrentBalance(getBalance: BalanceQuery -> Result<BalanceResponse>)
      modifies this
      ensures old(selected) == "" ==> currentBalance == old(currentBalance)
      ensures old(selected) != "" ==>
                var answer := getBalance(CurrentBalanceQuery(old(selected)));
                currentBalance == (if answer.Ok? then Some(answer.value) else None)
      ensures availableCredentials == old(availableCredentials) && selected == old(selected)
      ensures recentTransactions == old(recentTransactions) && dateRange == old(dateRange)
    {
      if selected == "" {
        return;
      }
      var answer := getBalance(CurrentBalanceQuery(selected));
      if answer.Ok? {
        currentBalance := Some(answer.value);
      } else {
        currentBalance := None;
      }
    }
  }
}
