/** How one query's byte budget is split over its workers, and what a page may read. */
module Budget {
  import opened Sorting
  import opened Targets

  datatype QueryBudget = QueryBudget(limit: int, maxBytes: nat, timeoutMS: nat, maxFanout: nat)

  const DEFAULT_PAGE_LIMIT := 200
  const DEFAULT_QUERY_BYTES: nat := 0x200_0000

  /** The view fixes the page limit; the cost of reading belongs to the request. */
  function ReadBudget(viewLimit: int, request: QueryBudget): (b: QueryBudget)
    ensures b.limit > 0 && b.maxBytes > 0
    ensures viewLimit > 0 ==> b.limit == viewLimit
    ensures viewLimit <= 0 && request.limit > 0 ==> b.limit == request.limit
    ensures viewLimit <= 0 && request.limit <= 0 ==> b.limit == 200
    ensures b.maxBytes == if request.maxBytes > 0 then request.maxBytes else 32 * 1024 * 1024
    ensures b.maxFanout == request.maxFanout && b.timeoutMS == request.timeoutMS
  {
    var limit := if viewLimit > 0 then viewLimit else request.limit;
    request.(limit := if limit <= 0 then DEFAULT_PAGE_LIMIT else limit,
             maxBytes := if request.maxBytes == 0 then DEFAULT_QUERY_BYTES else request.maxBytes)
  }

  function Funded(workers: nat, budget: QueryBudget): (n: nat)
    ensures n <= workers && (budget.maxFanout > 0 ==> n <= budget.maxFanout)
    ensures n == workers || n == budget.maxFanout
  {
    if budget.maxFanout > 0 && workers > budget.maxFanout then budget.maxFanout else workers
  }

  function TotalBytes(budget: QueryBudget): (total: nat)
    ensures forall viewLimit: int :: total == ReadBudget(viewLimit, budget).maxBytes
  {
    if budget.maxBytes == 0 then DEFAULT_QUERY_BYTES else budget.maxBytes
  }

  /** The i-th of n shares: the even part, and one byte more for the first total % n of them. */
  function Share(total: nat, n: nat, i: nat): nat
    requires i < n
  {
    total / n + (if i < total % n then 1 else 0)
  }

  function SharesUpTo(total: nat, n: nat, k: nat): nat
    requires k <= n
  {
    if k == 0 then 0 else SharesUpTo(total, n, k - 1) + Share(total, n, k - 1)
  }

  lemma {:induction false} SharesClosed(total: nat, n: nat, k: nat)
    requires 0 < n && k <= n
    ensures SharesUpTo(total, n, k) == k * (total / n) + (if k < total % n then k else total % n)
  {
    if k > 0 {
      SharesClosed(total, n, k - 1);
      assert k * (total / n) == (k - 1) * (total / n) + total / n;
    }
  }

  /** The split is exact and fair. */
  lemma SplitExactAndFair(total: nat, n: nat, i: nat, j: nat)
    requires i <= j < n
    ensures SharesUpTo(total, n, n) == total
    ensures Share(total, n, j) <= Share(total, n, i) <= Share(total, n, j) + 1
    ensures Share(total, n, i) == 0 ==> total < n && total <= i
  {
    SharesClosed(total, n, n);
    assert total == n * (total / n) + total % n;
    if Share(total, n, i) == 0 {
      assert total / n == 0;
      assert total == total % n;
    }
  }

  lemma MulStep(a: nat, b: nat, d: nat)
    requires a < b
    ensures a * d + d <= b * d
  {
    var m := b - a - 1;
    assert b * d == (a + 1 + m) * d == a * d + d + m * d;
  }

  lemma Quotient(x: nat, d: nat, q: nat, r: nat)
    requires r < d && x == q * d + r
    ensures x / d == q && x % d == r
  {
    var p := x / d;
    assert x == d * p + x % d;
    assert d * p == p * d;
    if p < q {
      MulStep(p, q, d);
    } else if q < p {
      MulStep(q, p, d);
    }
  }

  lemma SplitProduct(n: nat, i: nat, q: nat)
    requires i <= n
    ensures n * q == i * q + q * (n - i)
  {
    assert (i + (n - i)) * q == i * q + (n - i) * q;
  }

  lemma LeftAfter(total: nat, n: nat, i: nat)
    requires i < n
    ensures total - SharesUpTo(total, n, i) ==
            (total / n) * (n - i) + (if i < total % n then total % n - i else 0)
  {
    SharesClosed(total, n, i);
    SplitProduct(n, i, total / n);
    assert total == n * (total / n) + total % n;
  }

  /** What is left after i shares, divided by the workers still to come, rounds up to the i-th share. */
  lemma NextShare(total: nat, n: nat, i: nat, remaining: nat)
    requires i < n && remaining + SharesUpTo(total, n, i) == total
    ensures remaining / (n - i) + (if remaining % (n - i) > 0 then 1 else 0) == Share(total, n, i)
    ensures Share(total, n, i) <= remaining
  {
    hide SharesUpTo;
    LeftAfter(total, n, i);
    ShareIsCeiling(remaining, n, i, total / n, total % n);
  }

  lemma ShareIsCeiling(x: nat, n: nat, i: nat, q: nat, r: nat)
    requires i < n && r < n && x == q * (n - i) + (if i < r then r - i else 0)
    ensures x / (n - i) + (if x % (n - i) > 0 then 1 else 0) == q + (if i < r then 1 else 0)
    ensures q + (if i < r then 1 else 0) <= x
  {
    Quotient(x, n - i, q, if i < r then r - i else 0);
    ProductBounds(q, n - i);
  }

  lemma ProductBounds(q: nat, d: nat)
    requires d > 0
    ensures q * d >= q
  {
    assert q * d == q + q * (d - 1);
  }

  /** The i-th worker gets a positive share. */
  predicate IsFunded(order: seq<string>, budget: QueryBudget, i: nat)
    requires i < |order|
  {
    i < Funded(|order|, budget) && Share(TotalBytes(budget), Funded(|order|, budget), i) > 0
  }

  lemma BeyondFanout(order: seq<string>, budget: QueryBudget, i: nat)
    requires i < |order|
    ensures budget.maxFanout > 0 && i >= budget.maxFanout ==> !IsFunded(order, budget, i)
  {
  }

  /**
   * Reserves every worker's byte budget before anything is read: the first Funded workers get their
   * share, a share of zero is not handed out, and the others get none.
   */
  method ReserveWorkerBudgets(order: seq<string>, budget: QueryBudget) returns (out: map<string, QueryBudget>)
    requires Distinct(order)
    ensures forall id :: id in out ==> id in order && out[id].maxBytes > 0
    ensures forall i :: 0 <= i < |order| ==> (order[i] in out <==> IsFunded(order, budget, i))
    ensures forall i :: 0 <= i < |order| && order[i] in out ==>
              i < Funded(|order|, budget) &&
              out[order[i]] == budget.(maxBytes := Share(TotalBytes(budget), Funded(|order|, budget), i))
  {
    out := map[];
    var n := Funded(|order|, budget);
    if n == 0 {
      return;
    }
    var total := TotalBytes(budget);
    var remaining: nat, count: nat := total, n;
    for i := 0 to n
      invariant count == n - i
      invariant remaining + SharesUpTo(total, n, i) == total
      invariant forall id :: id in out ==> id in order && out[id].maxBytes > 0
      invariant forall k :: 0 <= k < |order| ==> (order[k] in out <==> k < i && Share(total, n, k) > 0)
      invariant forall k :: 0 <= k < i && order[k] in out ==> out[order[k]] == budget.(maxBytes := Share(total, n, k))
    {
      NextShare(total, n, i, remaining);
      var share := remaining / count;
      if remaining % count > 0 {
        share := share + 1;
      }
      remaining := remaining - share;
      count := count - 1;
      if share == 0 {
        continue;
      }
      out := out[order[i] := budget.(maxBytes := share)];
    }
  }
}
