/**
 * The transaction-history page: a pager over `GET /transaction/history` that loads 20 rows at a
 * time, either afresh (reset) or appended to what it shows (load more), filtered by environment.
 * The backend is a parameter: a function from the request to its answer (an Err for any failure).
 */
module TransactionHistoryView {
  import opened Wrappers
  import opened Common
  import opened History

  const Limit := 20

  /** The filter value 'all' sends no environment parameter; any other value is sent as is. */
  function EnvParam(environment: string): (p: Option<string>)
    ensures p.None? <==> environment == "all"
    ensures p.Some? ==> p.value == environment
  {
    if environment != "all" then Some(environment) else None
  }

  /** The page state: what is shown, the next offset, and the last answer's `total` and `hasMore`. */
  datatype PagerState = PagerState(
    transactions: seq<Transaction>, environment: string, offset: int, total: nat, hasMore: bool)

  /** The request of one load: offset 0 for a reset, otherwise the current offset. */
  function RequestFor(s: PagerState, reset: bool): (req: HistoryRequest)
    ensures req.limit == Some(Limit) && req.environment == EnvParam(s.environment)
    ensures req.offset == Some(if reset then 0 else s.offset)
  {
    HistoryRequest(Some(Limit), Some(if reset then 0 else s.offset), EnvParam(s.environment))
  }

  /**
   * The state after one load answered by `answer`: a failure changes nothing; a reset shows the
   * answer alone and moves the offset to 20; a load-more appends the answer and moves the offset
   * on by 20 whatever the answer's size; both copy `total` and `hasMore` from the answer.
   */
  function AfterLoad(s: PagerState, reset: bool, answer: Result<HistoryResponse>): (t: PagerState)
    ensures answer.Err? ==> t == s
    ensures answer.Ok? ==> t.total == answer.value.total && t.hasMore == answer.value.hasMore
    ensures answer.Ok? && reset ==> t.transactions == answer.value.transactions && t.offset == Limit
    ensures answer.Ok? && !reset ==>
              t.transactions == s.transactions + answer.value.transactions && t.offset == s.offset + Limit
    ensures t.environment == s.environment
  {
    match answer
    case Err(_) => s
    case Ok(resp) =>
      if reset then s.(transactions := resp.transactions, offset := Limit, total := resp.total, hasMore := resp.hasMore)
      else s.(transactions := s.transactions + resp.transactions, offset := s.offset + Limit,
              total := resp.total, hasMore := resp.hasMore)
  }

  /** The rows a pager over the caller's log shows after loading the first `n` of them. */
  function Shown(rows: seq<TxRow>, userId: int, environment: string, n: nat): seq<Transaction> {
    ToTransactions(PageRows(rows, userId, EnvironmentFilter(EnvParam(environment)), 0, n))
  }

  /** Against the real backend a reset load shows the 20 newest matching rows. */
  lemma ResetShowsFirstPage(rows: seq<TxRow>, userId: int, s: PagerState)
    ensures var t := AfterLoad(s, true, HistoryOf(rows, userId, RequestFor(s, true)));
            && t.transactions == Shown(rows, userId, s.environment, Limit)
            && t.offset == Limit
  {
    ExplicitWindow(rows, userId, RequestFor(s, true));
  }

  /**
   * Against the real backend, a load-more from a pager showing the newest `n` rows with offset `n`
   * shows the newest `n + 20`: no row is skipped or shown twice.
   */
  lemma LoadMoreExtends(rows: seq<TxRow>, userId: int, s: PagerState, n: nat)
    requires s.offset == n && s.transactions == Shown(rows, userId, s.environment, n)
    ensures var t := AfterLoad(s, false, HistoryOf(rows, userId, RequestFor(s, false)));
            && t.transactions == Shown(rows, userId, s.environment, n + Limit)
            && t.offset == n + Limit
            && t.hasMore == (n + Limit < t.total)
  {
    var e := EnvironmentFilter(EnvParam(s.environment));
    ExplicitWindow(rows, userId, RequestFor(s, false));
    ConsecutiveWindows(rows, userId, e, 0, n, n, Limit, n + Limit);
  }

  /** A reset load answered by the real backend. */
  function FirstPage(rows: seq<TxRow>, userId: int, s: PagerState): PagerState {
    AfterLoad(s, true, HistoryOf(rows, userId, RequestFor(s, true)))
  }

  /** A load-more answered by the real backend. */
  function NextPage(rows: seq<TxRow>, userId: int, st: PagerState): PagerState {
    AfterLoad(st, false, HistoryOf(rows, userId, RequestFor(st, false)))
  }

  /** A reset followed by `k` load-mores, all answered by the real backend. */
  function LoadPages(rows: seq<TxRow>, userId: int, s: PagerState, k: nat): PagerState {
    if k == 0 then FirstPage(rows, userId, s) else NextPage(rows, userId, LoadPages(rows, userId, s, k - 1))
  }

  /** The pager shows exactly the newest `n` pages of 20 of the caller's rows for the filter `env`. */
  predicate ShowsPages(rows: seq<TxRow>, userId: int, env: string, st: PagerState, n: nat) {
    st.offset == Limit * n && st.environment == env && st.transactions == Shown(rows, userId, env, Limit * n)
  }

  lemma FirstPageShows(rows: seq<TxRow>, userId: int, s: PagerState)
    ensures ShowsPages(rows, userId, s.environment, FirstPage(rows, userId, s), 1)
  {
    ResetShowsFirstPage(rows, userId, s);
  }

  /** A load-more from a pager showing `k` pages of 20 shows `k + 1` of them. */
  lemma LoadMoreAfterPages(rows: seq<TxRow>, userId: int, env: string, before: PagerState, k: nat)
    requires ShowsPages(rows, userId, env, before, k)
    ensures ShowsPages(rows, userId, env, NextPage(rows, userId, before), k + 1)
  {
    LoadMoreExtends(rows, userId, before, Limit * k);
    NextPageEnd(k);
  }

  lemma NextPageEnd(k: nat)
    ensures Limit * k + Limit == Limit * (k + 1)
  {
  }

  /** After a reset and `k` load-mores the page shows exactly the newest 20 * (k + 1) matching rows. */
  lemma {:induction false} LoadPagesShowsPrefix(rows: seq<TxRow>, userId: int, s: PagerState, k: nat)
    ensures ShowsPages(rows, userId, s.environment, LoadPages(rows, userId, s, k), k + 1)
  {
    if k == 0 {
      FirstPageShows(rows, userId, s);
    } else {
      LoadPagesShowsPrefix(rows, userId, s, k - 1);
      LoadPagesStep(rows, userId, s, k);
    }
  }

  lemma LoadPagesStep(rows: seq<TxRow>, userId: int, s: PagerState, k: nat)
    requires k > 0 && ShowsPages(rows, userId, s.environment, LoadPages(rows, userId, s, k - 1), k)
    ensures ShowsPages(rows, userId, s.environment, LoadPages(rows, userId, s, k), k + 1)
  {
    var before := LoadPages(rows, userId, s, k - 1);
    assert LoadPages(rows, userId, s, k) == NextPage(rows, userId, before);
    LoadMoreAfterPages(rows, userId, s.environment, before, k);
  }

  /** The component's state, updated in place by its handlers. */
  class Pager {
    var transactions: seq<Transaction>
    var environment: string
    var offset: int
    var total: nat
    var hasMore: bool

    function State(): PagerState
      reads this
    {
      PagerState(transactions, environment, offset, total, hasMore)
    }

    /** The initial state: nothing shown, filter 'all', offset 0. */
    constructor ()
      ensures State() == PagerState([], "all", 0, 0, false)
    {
      transactions := [];
      environment := "all";
      offset := 0;
      total := 0;
      hasMore := false;
    }

    /** `loadTransactions(reset)`. */
    method Load(reset: bool, backend: HistoryRequest -> Result<HistoryResponse>)
      modifies this
      ensures State() == AfterLoad(old(State()), reset, backend(RequestFor(old(State()), reset)))
    {
      var currentOffset := if reset then 0 else offset;
      var answer := backend(HistoryRequest(Some(Limit), Some(currentOffset), EnvParam(environment)));
      if answer.Ok? {
        if reset {
          transactions := answer.value.transactions;
          offset := Limit;
        } else {
          transactions := transactions + answer.value.transactions;
          offset := offset + Limit;
        }
        total := answer.value.total;
        hasMore := answer.value.hasMore;
      }
    }

    /** `handleRefresh`: the offset goes back to 0, then a reset load (a failed one leaves it at 0). */
    method Refresh(backend: HistoryRequest -> Result<HistoryResponse>)
      modifies this
      ensures var cleared := old(State()).(offset := 0);
              State() == AfterLoad(cleared, true, backend(RequestFor(cleared, true)))
    {
      offset := 0;
      Load(true, backend);
    }

    /** `handleLoadMore`. */
    method LoadMore(backend: HistoryRequest -> Result<HistoryResponse>)
      modifies this
      ensures State() == AfterLoad(old(State()), false, backend(RequestFor(old(State()), false)))
    {
      Load(false, backend);
    }

    /** Choosing a filter value: a different value is stored and triggers a reset load; the same value does nothing. */
    method SetEnvironment(value: string, backend: HistoryRequest -> Result<HistoryResponse>)
      modifies this
      ensures value == old(environment) ==> State() == old(State())
      ensures value != old(environment) ==>
                var chosen := old(State()).(environment := value);
                State() == AfterLoad(chosen, true, backend(RequestFor(chosen, true)))
    {
      if value != environment {
        environment := value;
        Load(true, backend);
      }
    }
  }

  // ---------------------------------------------------------------------------------------------
  // Badges

  const Gray := "bg-gray-100 text-gray-800"

  /** `getStatusBadge`: the colour of a status; unknown statuses are gray. */
  function StatusBadge(status: string): (cls: string)
    ensures status == "created" ==> cls == "bg-blue-100 text-blue-800"
    ensures status == "completed" || status == "approved" ==> cls == "bg-green-100 text-green-800"
    ensures status == "cancelled" || status == "failed" ==> cls == "bg-red-100 text-red-800"
    ensures cls == Gray <==> status !in ["created", "completed", "approved", "cancelled", "failed"]
  {
    if status == "created" then "bg-blue-100 text-blue-800"
    else if status == "completed" || status == "approved" then "bg-green-100 text-green-800"
    else if status == "cancelled" || status == "failed" then "bg-red-100 text-red-800"
    else Gray
  }

  /** `getTypeBadge`: the label and border of a row's type. */
  function TypeBadge(txType: string): (badge: (string, string))
    ensures badge.0 == "Payment" <==> txType == "payment"
    ensures badge.0 == "Balance Check" <==> txType != "payment"
    ensures badge.1 == (if txType == "payment" then "border-blue-300" else "border-green-300")
  {
    if txType == "payment" then ("Payment", "border-blue-300") else ("Balance Check", "border-green-300")
  }
}
