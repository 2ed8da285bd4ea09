/**
 * What the handlers share: the PayPal environment, and the SQL row operations
 * they use (`WHERE` filters, `ORDER BY … DESC`, `LIMIT … OFFSET …`).
 */
module Common {
  import opened Wrappers

  /** The PayPal deployment target, stored in the tables as the text "sandbox" or "live". */
  datatype Environment = Sandbox | Live

  function EnvName(e: Environment): (s: string)
  {
    match e
    case Sandbox => "sandbox"
    case Live => "live"
  }

  /**
   * `env && (env === 'sandbox' || env === 'live')`: an environment filter is applied only
   * for exactly one of the two names; any other value (or none) means "no filter".
   */
  function EnvironmentFilter(s: Option<string>): (r: Option<Environment>)
    ensures r.Some? <==> (s == Some("sandbox") || s == Some("live"))
    ensures r.Some? ==> s == Some(EnvName(r.value))
  {
    if s == Some("sandbox") then Some(Sandbox)
    else if s == Some("live") then Some(Live)
    else None
  }

  // ---------------------------------------------------------------------------------------------
  // WHERE

  /** The rows of `s` that satisfy `p`, in table order. */
  function Filter<T>(s: seq<T>, p: T -> bool): (r: seq<T>)
    ensures |r| <= |s|
  {
    if |s| == 0 then []
    else if p(s[0]) then [s[0]] + Filter(s[1..], p)
    else Filter(s[1..], p)
  }

  /** The kept rows are rows of `s` that satisfy `p`, and every such row is kept. */
  lemma {:induction false} FilterSpec<T>(s: seq<T>, p: T -> bool)
    ensures forall k :: 0 <= k < |Filter(s, p)| ==> Filter(s, p)[k] in s && p(Filter(s, p)[k])
    ensures forall k :: 0 <= k < |s| && p(s[k]) ==> s[k] in Filter(s, p)
  {
    if |s| > 0 {
      FilterSpec(s[1..], p);
      var r, tail := Filter(s, p), Filter(s[1..], p);
      forall k | 0 <= k < |r| ensures r[k] in s && p(r[k]) {
        if p(s[0]) && k == 0 {
        } else if p(s[0]) {
          assert r[k] == tail[k - 1];
        } else {
          assert r[k] == tail[k];
        }
      }
      forall k | 0 <= k < |s| && p(s[k]) ensures s[k] in r {
        if k > 0 { assert s[k] == s[1..][k - 1]; }
      }
    }
  }

  /** Two filters of which every row satisfies exactly one split the rows between them. */
  lemma {:induction false} ComplementaryFiltersPartition<T>(s: seq<T>, p: T -> bool, q: T -> bool)
    requires forall y :: y in s ==> p(y) != q(y)
    ensures multiset(Filter(s, p)) + multiset(Filter(s, q)) == multiset(s)
  {
    if |s| > 0 {
      var tail := s[1..];
      assert forall y :: y in tail ==> y in s;
      ComplementaryFiltersPartition(tail, p, q);
      var head := [s[0]];
      assert p(s[0]) != q(s[0]);
      assert Filter(s, p) == (if p(s[0]) then head else []) + Filter(tail, p);
      assert Filter(s, q) == (if q(s[0]) then head else []) + Filter(tail, q);
      assert s == head + tail;
    }
  }

  // ---------------------------------------------------------------------------------------------
  // ORDER BY key DESC

  predicate SortedDesc<T>(s: seq<T>, key: T -> int) {
    forall i, j :: 0 <= i < j < |s| ==> key(s[i]) >= key(s[j])
  }

  /** Places `x` in front of the first row whose key is not greater than its own. */
  function InsertDesc<T>(x: T, s: seq<T>, key: T -> int): seq<T>
  {
    if |s| == 0 || key(x) >= key(s[0]) then [x] + s
    else [s[0]] + InsertDesc(x, s[1..], key)
  }

  /** Inserting adds `x` and loses nothing. */
  lemma {:induction false} InsertDescPermutes<T>(x: T, s: seq<T>, key: T -> int)
    ensures multiset(InsertDesc(x, s, key)) == multiset(s) + multiset{x}
  {
    if |s| > 0 && key(x) < key(s[0]) {
      InsertDescPermutes(x, s[1..], key);
      assert s == [s[0]] + s[1..];
    }
  }

  lemma {:induction false} InsertDescLength<T>(x: T, s: seq<T>, key: T -> int)
    ensures |InsertDesc(x, s, key)| == |s| + 1
  {
    if |s| > 0 && key(x) < key(s[0]) {
      InsertDescLength(x, s[1..], key);
    }
  }

  /** Inserting into a sorted sequence keeps it sorted. */
  lemma {:induction false} InsertDescSorted<T>(x: T, s: seq<T>, key: T -> int)
    requires SortedDesc(s, key)
    ensures SortedDesc(InsertDesc(x, s, key), key)
  {
    var res := InsertDesc(x, s, key);
    if |s| == 0 || key(x) >= key(s[0]) {
      forall i, j | 0 <= i < j < |res| ensures key(res[i]) >= key(res[j]) {
        assert res[j] == s[j - 1];
        if i > 0 { assert res[i] == s[i - 1]; } else if j > 1 { assert key(s[0]) >= key(s[j - 1]); }
      }
    } else {
      var tail := s[1..];
      assert SortedDesc(tail, key) by {
        forall i, j | 0 <= i < j < |tail| ensures key(tail[i]) >= key(tail[j]) {
          assert tail[i] == s[i + 1] && tail[j] == s[j + 1];
        }
      }
      var r := InsertDesc(x, tail, key);
      InsertDescSorted(x, tail, key);
      InsertDescPermutes(x, tail, key);
      assert res == [s[0]] + r;
      forall k | 0 <= k < |r| ensures key(r[k]) <= key(s[0]) {
        assert r[k] in multiset(r);
        if r[k] != x {
          assert r[k] in multiset(tail);
          var m :| 0 <= m < |tail| && tail[m] == r[k];
          assert tail[m] == s[m + 1];
        }
      }
      forall i, j | 0 <= i < j < |res| ensures key(res[i]) >= key(res[j]) {
        assert res[j] == r[j - 1];
        if i > 0 { assert res[i] == r[i - 1]; }
      }
    }
  }

  /**
   * The rows ordered by `key`, largest first. SQL leaves the order of equal keys open;
   * this is one admissible order (rows with equal keys keep their table order).
   */
  function SortDesc<T>(s: seq<T>, key: T -> int): seq<T>
  {
    if |s| == 0 then [] else InsertDesc(s[0], SortDesc(s[1..], key), key)
  }

  /** The sorted rows are in descending key order and are the same rows. */
  lemma {:induction false} SortDescSpec<T>(s: seq<T>, key: T -> int)
    ensures SortedDesc(SortDesc(s, key), key)
    ensures multiset(SortDesc(s, key)) == multiset(s)
    ensures |SortDesc(s, key)| == |s|
  {
    if |s| > 0 {
      var rest := SortDesc(s[1..], key);
      SortDescSpec(s[1..], key);
      InsertDescSorted(s[0], rest, key);
      InsertDescLength(s[0], rest, key);
      assert multiset(SortDesc(s, key)) == multiset(s) by {
        InsertDescPermutes(s[0], rest, key);
        assert s == [s[0]] + s[1..];
      }
    }
  }

  // ---------------------------------------------------------------------------------------------
  // LIMIT limit OFFSET offset

  function Min(a: int, b: int): int {
    if a <= b then a else b
  }

  /** The rows at positions offset, …, offset + limit - 1 that exist. */
  function Page<T>(s: seq<T>, offset: nat, limit: nat): (r: seq<T>)
    ensures |r| <= limit
  {
    s[Min(offset, |s|)..Min(offset + limit, |s|)]
  }

  /** A page holds the rows that exist from position `offset` on, at most `limit` of them. */
  lemma PageSpec<T>(s: seq<T>, offset: nat, limit: nat)
    ensures |Page(s, offset, limit)| == if offset >= |s| then 0 else Min(limit, |s| - offset)
    ensures forall k :: 0 <= k < |Page(s, offset, limit)| ==> Page(s, offset, limit)[k] == s[offset + k]
  {
  }

  /**
   * The page of `a` rows at `offset` followed by the page of `b` rows at `next = offset + a`
   * is the page of `c = a + b` rows at `offset`.
   */
  lemma PagesConcatenate<T>(s: seq<T>, offset: nat, a: nat, next: nat, b: nat, c: nat)
    requires next == offset + a && c == a + b
    ensures Page(s, offset, a) + Page(s, next, b) == Page(s, offset, c)
  {
    var first, second := Page(s, offset, a), Page(s, next, b);
    var lhs, rhs := first + second, Page(s, offset, c);
    PageSpec(s, offset, a);
    PageSpec(s, next, b);
    PageSpec(s, offset, c);
    assert |lhs| == |rhs|;
    forall k | 0 <= k < |lhs| ensures lhs[k] == rhs[k] {
      if k >= |first| {
        assert lhs[k] == second[k - |first|];
      }
    }
  }
}
