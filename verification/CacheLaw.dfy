/**
 The time-to-live rule of a collector's result cache, for any kind of outcome: calls carry the server's
 scrape time, and a call executes when the last execution is more than the TTL ago.
 */
module CacheLaw {
  import opened Clock

  /** One call: the server's scrape time, and the outcome an execution would have. */
  datatype Call<R> = Call(begin: int, outcome: R)

  datatype Policy = Policy(ttl: Duration, disabled: bool)

  /** `last` is the time of the last execution, the zero time before the first; `held` is what is sent. */
  datatype Cache<R> = Cache(last: int, held: R)

  predicate Executes<R>(p: Policy, c: Cache<R>, begin: int) {
    Sub(begin, c.last) > p.ttl || p.disabled
  }

  function Serve<R>(p: Policy, c: Cache<R>, call: Call<R>): Cache<R> {
    if Executes(p, c, call.begin) then Cache(call.begin, call.outcome) else c
  }

  function After<R>(p: Policy, initial: R, calls: seq<Call<R>>): Cache<R> {
    if calls == [] then Cache(ZERO_TIME, initial)
    else Serve(p, After(p, initial, calls[..|calls| - 1]), calls[|calls| - 1])
  }

  /** Clock readings that never go back. */
  ghost predicate Monotone<R>(calls: seq<Call<R>>) {
    && (forall c | c in calls :: IsReading(c.begin))
    && (forall i, j | 0 <= i < j < |calls| :: calls[i].begin <= calls[j].begin)
  }

  /** Call k is a real execution. */
  predicate Real<R>(p: Policy, initial: R, calls: seq<Call<R>>, k: nat)
    requires k < |calls|
  {
    Executes(p, After(p, initial, calls[..k]), calls[k].begin)
  }

  /** The number of real executions among calls i, ..., j - 1. */
  function RealCount<R>(p: Policy, initial: R, calls: seq<Call<R>>, i: nat, j: nat): nat
    requires i <= j <= |calls|
  {
    if i == j then 0
    else RealCount(p, initial, calls, i, j - 1) + (if Real(p, initial, calls, j - 1) then 1 else 0)
  }

  lemma AfterOneMore<R>(p: Policy, initial: R, calls: seq<Call<R>>, n: nat)
    requires n < |calls|
    ensures After(p, initial, calls[..n + 1]) == Serve(p, After(p, initial, calls[..n]), calls[n])
  {
    assert calls[..n + 1][..n] == calls[..n];
  }

  /** The first call executes exactly when caching is off or the TTL is not the maximal Duration. */
  lemma FirstCallExecutes<R>(p: Policy, initial: R, calls: seq<Call<R>>)
    requires Monotone(calls) && calls != [] && 0 <= p.ttl
    ensures Real(p, initial, calls, 0) <==> p.disabled || p.ttl < MAX_DURATION
  {
    assert calls[0] in calls;
  }

  /** With caching on and the maximal Duration as TTL, nothing is ever executed. */
  lemma {:induction false} NeverExecutes<R>(p: Policy, initial: R, calls: seq<Call<R>>, k: nat)
    requires Monotone(calls) && k <= |calls| && !p.disabled && p.ttl == MAX_DURATION
    ensures After(p, initial, calls[..k]) == Cache(ZERO_TIME, initial)
    ensures k < |calls| ==> !Real(p, initial, calls, k)
  {
    if k > 0 {
      NeverExecutes(p, initial, calls, k - 1);
      AfterOneMore(p, initial, calls, k - 1);
    }
  }

  /** A run executes something, and then from its first call on, unless caching is on and the TTL is maximal. */
  lemma SomethingExecutesIff<R>(p: Policy, initial: R, calls: seq<Call<R>>)
    requires Monotone(calls) && calls != [] && 0 <= p.ttl
    ensures (exists k: nat :: k < |calls| && Real(p, initial, calls, k)) <==> p.disabled || p.ttl < MAX_DURATION
  {
    FirstCallExecutes(p, initial, calls);
    if !p.disabled && p.ttl == MAX_DURATION {
      forall k: nat | k < |calls| ensures !Real(p, initial, calls, k) {
        NeverExecutes(p, initial, calls, k);
      }
    }
  }

  /** Call e is the last real execution at or before call k. */
  ghost predicate LastReal<R>(p: Policy, initial: R, calls: seq<Call<R>>, e: nat, k: nat)
    requires k < |calls|
  {
    e <= k && Real(p, initial, calls, e) && RealCount(p, initial, calls, e + 1, k + 1) == 0
  }

  /** The cache after call k is exactly what call e, the last real execution, left. */
  lemma {:induction false} CacheHoldsLastExecution<R>(p: Policy, initial: R, calls: seq<Call<R>>, e: nat, k: nat)
    requires k < |calls| && LastReal(p, initial, calls, e, k)
    ensures After(p, initial, calls[..k + 1]) == Cache(calls[e].begin, calls[e].outcome)
    decreases k
  {
    AfterOneMore(p, initial, calls, k);
    if e < k {
      CacheHoldsLastExecution(p, initial, calls, e, k - 1);
    }
  }

  lemma {:induction false} LastRealExists<R>(p: Policy, initial: R, calls: seq<Call<R>>, k: nat) returns (e: nat)
    requires Monotone(calls) && k < |calls| && 0 <= p.ttl
    requires p.disabled || p.ttl < MAX_DURATION
    ensures LastReal(p, initial, calls, e, k)
    decreases k
  {
    if Real(p, initial, calls, k) {
      e := k;
    } else {
      FirstCallExecutes(p, initial, calls);
      e := LastRealExists(p, initial, calls, k - 1);
    }
  }

  /**
   Bounded staleness: what call k sends is exactly the outcome of the last real execution, which with caching
   on is at most the TTL old, and without caching is call k itself.
   */
  lemma Staleness<R>(p: Policy, initial: R, calls: seq<Call<R>>, k: nat) returns (e: nat)
    requires Monotone(calls) && k < |calls| && 0 <= p.ttl
    requires p.disabled || p.ttl < MAX_DURATION
    ensures LastReal(p, initial, calls, e, k)
    ensures After(p, initial, calls[..k + 1]).held == calls[e].outcome
    ensures 0 <= calls[k].begin - calls[e].begin <= p.ttl
    ensures p.disabled ==> e == k
  {
    e := LastRealExists(p, initial, calls, k);
    CacheHoldsLastExecution(p, initial, calls, e, k);
    if e < k {
      CacheHoldsLastExecution(p, initial, calls, e, k - 1);
      assert !Real(p, initial, calls, k);
    }
  }

  lemma {:induction false} RealCountJoins<R>(p: Policy, initial: R, calls: seq<Call<R>>, i: nat, m: nat, j: nat)
    requires i <= m <= j <= |calls|
    ensures RealCount(p, initial, calls, i, j)
            == RealCount(p, initial, calls, i, m) + RealCount(p, initial, calls, m, j)
    decreases j
  {
    if m < j {
      RealCountJoins(p, initial, calls, i, m, j - 1);
    }
  }

  lemma LastRealIsLatest<R>(p: Policy, initial: R, calls: seq<Call<R>>, i: nat, e: nat, k: nat)
    requires i <= k < |calls| && Real(p, initial, calls, i) && LastReal(p, initial, calls, e, k)
    ensures i <= e
  {
    if e < i {
      RealCountJoins(p, initial, calls, e + 1, i + 1, k + 1);
    }
  }

  lemma GapAfterLastReal<R>(p: Policy, initial: R, calls: seq<Call<R>>, e: nat, j: nat)
    requires 0 < j < |calls| && 0 <= p.ttl < MAX_DURATION && !p.disabled
    requires LastReal(p, initial, calls, e, j - 1) && Real(p, initial, calls, j)
    ensures calls[j].begin - calls[e].begin >= p.ttl + 1
  {
    CacheHoldsLastExecution(p, initial, calls, e, j - 1);
  }

  function Repeated(n: nat, gap: int): int {
    if n == 0 then 0 else Repeated(n - 1, gap) + gap
  }

  lemma {:induction false} RepeatedIsProduct(n: nat, gap: int)
    ensures Repeated(n, gap) == n * gap
  {
    if n > 0 {
      RepeatedIsProduct(n - 1, gap);
      assert (n - 1) * gap + gap == n * gap;
    }
  }

  ghost predicate Spaced<R>(p: Policy, initial: R, calls: seq<Call<R>>, i: nat, j: nat)
    requires i <= j < |calls|
  {
    calls[j].begin - calls[i].begin >= Repeated(RealCount(p, initial, calls, i + 1, j + 1), p.ttl + 1)
  }

  lemma OneMoreGap<R>(p: Policy, initial: R, calls: seq<Call<R>>, i: nat, e: nat, j: nat)
    requires i <= e < j < |calls| && 0 <= p.ttl < MAX_DURATION && !p.disabled
    requires LastReal(p, initial, calls, e, j - 1) && Real(p, initial, calls, j)
    requires Spaced(p, initial, calls, i, e)
    ensures Spaced(p, initial, calls, i, j)
  {
    GapAfterLastReal(p, initial, calls, e, j);
    RealCountJoins(p, initial, calls, i + 1, e + 1, j);
  }

  lemma {:induction false} GapsAddUp<R>(p: Policy, initial: R, calls: seq<Call<R>>, i: nat, j: nat)
    requires Monotone(calls) && i <= j < |calls| && 0 <= p.ttl < MAX_DURATION && !p.disabled
    requires Real(p, initial, calls, i) && Real(p, initial, calls, j)
    ensures Spaced(p, initial, calls, i, j)
    decreases j
  {
    hide Executes, After;
    if i < j {
      var e := LastRealExists(p, initial, calls, j - 1);
      LastRealIsLatest(p, initial, calls, i, e, j - 1);
      GapsAddUp(p, initial, calls, i, e);
      OneMoreGap(p, initial, calls, i, e, j);
    }
  }

  /** Minimum gap: n executions after the one at call i, the last at call j, span more than n times the TTL. */
  lemma Spacing<R>(p: Policy, initial: R, calls: seq<Call<R>>, i: nat, j: nat)
    requires Monotone(calls) && i <= j < |calls| && 0 <= p.ttl < MAX_DURATION && !p.disabled
    requires Real(p, initial, calls, i) && Real(p, initial, calls, j)
    ensures calls[j].begin - calls[i].begin >= RealCount(p, initial, calls, i + 1, j + 1) * (p.ttl + 1)
  {
    hide Real, RealCount, After, Executes, Monotone, Repeated;
    GapsAddUp(p, initial, calls, i, j);
    RepeatedIsProduct(RealCount(p, initial, calls, i + 1, j + 1), p.ttl + 1);
  }
}
