/** Per-query counters: what each counts, and the laws between them. */
module Statistics {
  import opened Core

  /** One call of a collector, as the counters see it. */
  datatype CallRecord = CallRecord(
    name: string, failed: bool, cacheHit: bool, predicated: bool, skipped: bool, size: nat)

  type Counter = map<string, nat>

  function Get(c: Counter, name: string): nat { if name in c then c[name] else 0 }

  /** The number of calls that satisfy p. */
  ghost function Count(calls: seq<CallRecord>, p: CallRecord -> bool): nat {
    if calls == [] then 0 else Count(calls[..|calls| - 1], p) + (if p(calls[|calls| - 1]) then 1 else 0)
  }

  ghost function Called(name: string): CallRecord -> bool { (c: CallRecord) => c.name == name }

  /** An error is counted whenever the collector's last execution failed, cached or not. */
  ghost function Errored(name: string): CallRecord -> bool { (c: CallRecord) => c.name == name && c.failed }

  ghost function Hit(name: string): CallRecord -> bool { (c: CallRecord) => c.name == name && !c.failed && c.cacheHit }

  /** A successful execution that was not served from the cache. */
  ghost function Fresh(name: string): CallRecord -> bool {
    (c: CallRecord) => c.name == name && !c.failed && !c.cacheHit
  }

  ghost function Skip(name: string): CallRecord -> bool { (c: CallRecord) => c.name == name && !c.failed
      && c.predicated && c.skipped }

  datatype Counters = Counters(total: Counter, hit: Counter, error: Counter, skip: Counter)

  /** The counters are the tallies of the calls since the last reset. */
  ghost predicate Tallies(s: Counters, calls: seq<CallRecord>) {
    && (forall n :: Get(s.total, n) == Count(calls, Called(n)))
    && (forall n :: Get(s.hit, n) == Count(calls, Hit(n)))
    && (forall n :: Get(s.error, n) == Count(calls, Errored(n)))
    && (forall n :: Get(s.skip, n) == Count(calls, Skip(n)))
  }

  function Increment(c: Counter, name: string): Counter { c[name := Get(c, name) + 1] }

  /** What one call does to the counters. */
  function Record(s: Counters, c: CallRecord): Counters {
    Counters(
      Increment(s.total, c.name),
      if !c.failed && c.cacheHit then Increment(s.hit, c.name) else s.hit,
      if c.failed then Increment(s.error, c.name) else s.error,
      if !c.failed && c.predicated && c.skipped then Increment(s.skip, c.name) else s.skip)
  }

  /** One counter: if it tallies the calls that satisfy p(n), it still does after one more call. */
  lemma OneCounterTallies(c: Counter, calls: seq<CallRecord>, r: CallRecord, p: string -> CallRecord -> bool,
      counted: bool)
    requires forall n :: Get(c, n) == Count(calls, p(n))
    requires forall n :: p(n)(r) <==> n == r.name && counted
    ensures forall n :: Get(if counted then Increment(c, r.name) else c, n) == Count(calls + [r], p(n))
  {
  }

  lemma RecordKeepsTallies(s: Counters, calls: seq<CallRecord>, c: CallRecord)
    requires Tallies(s, calls)
    ensures Tallies(Record(s, c), calls + [c])
  {
    hide Count, Increment, Get;
    OneCounterTallies(s.total, calls, c, Called, true);
    OneCounterTallies(s.hit, calls, c, Hit, !c.failed && c.cacheHit);
    OneCounterTallies(s.error, calls, c, Errored, c.failed);
    OneCounterTallies(s.skip, calls, c, Skip, !c.failed && c.predicated && c.skipped);
  }

  ghost predicate AllZero(c: Counter) {
    forall n :: Get(c, n) == 0
  }

  lemma ZeroEntry(c: Counter, n: string)
    requires AllZero(c)
    ensures AllZero(c[n := 0])
  {
    var c' := c[n := 0];
    forall m ensures Get(c', m) == 0 {
      assert Get(c, m) == 0;
    }
  }

  /** Counters that hold nothing but zeros tally no calls. */
  lemma ZerosTallyNothing(s: Counters)
    requires AllZero(s.total) && AllZero(s.hit) && AllZero(s.error) && AllZero(s.skip)
    ensures Tallies(s, [])
  {
  }

  lemma {:induction false} CallsAreErrorsHitsOrFresh(calls: seq<CallRecord>, n: string)
    ensures Count(calls, Called(n)) == Count(calls, Errored(n)) + Count(calls, Hit(n)) + Count(calls, Fresh(n))
    ensures Count(calls, Skip(n)) + Count(calls, Errored(n)) <= Count(calls, Called(n))
  {
    if calls != [] {
      CallsAreErrorsHitsOrFresh(calls[..|calls| - 1], n);
    }
  }

  /**
   Conservation, per name and even when several branches share it: each call is exactly one of error, cache hit
   or fresh success, so hits and errors, and likewise skips and errors, never exceed the total.
   */
  lemma CountersAreConserved(s: Counters, calls: seq<CallRecord>, n: string)
    requires Tallies(s, calls)
    ensures Get(s.total, n) == Get(s.error, n) + Get(s.hit, n) + Count(calls, Fresh(n))
    ensures Get(s.hit, n) + Get(s.error, n) <= Get(s.total, n)
    ensures Get(s.skip, n) + Get(s.error, n) <= Get(s.total, n)
  {
    CallsAreErrorsHitsOrFresh(calls, n);
  }

  /* ---------------- what the counters count ---------------- */

  ghost function Where(calls: seq<CallRecord>, p: CallRecord -> bool): set<int> {
    set i | 0 <= i < |calls| && p(calls[i])
  }

  lemma {:induction false} CountIsSize(calls: seq<CallRecord>, p: CallRecord -> bool)
    ensures Count(calls, p) == |Where(calls, p)|
  {
    if calls == [] {
      assert Where([], p) == {};
    } else {
      var n := |calls| - 1;
      CountIsSize(calls[..n], p);
      assert Where(calls, p) == Where(calls[..n], p) + (if p(calls[n]) then {n} else {});
    }
  }

  /**
   What each counter of a name is: the number of calls, of failed ones, of successful ones served from the cache, and
   of successful ones that a predicate skipped.
   */
  lemma CountersCountCalls(s: Counters, calls: seq<CallRecord>, n: string)
    requires Tallies(s, calls)
    ensures Get(s.total, n) == |set i | 0 <= i < |calls| && calls[i].name == n|
    ensures Get(s.error, n) == |set i | 0 <= i < |calls| && calls[i].name == n && calls[i].failed|
    ensures Get(s.hit, n) == |set i | 0 <= i < |calls| && calls[i].name == n && !calls[i].failed && calls[i].cacheHit|
    ensures Get(s.skip, n) == |set i | 0 <= i < |calls| && calls[i].name == n && !calls[i].failed
                                       && calls[i].predicated && calls[i].skipped|
  {
    hide Count, Tallies;
    CountIs(calls, Called(n), set i | 0 <= i < |calls| && calls[i].name == n);
    CountIs(calls, Errored(n), set i | 0 <= i < |calls| && calls[i].name == n && calls[i].failed);
    CountIs(calls, Hit(n), set i | 0 <= i < |calls| && calls[i].name == n && !calls[i].failed && calls[i].cacheHit);
    CountIs(calls, Skip(n), set i | 0 <= i < |calls| && calls[i].name == n && !calls[i].failed
                                    && calls[i].predicated && calls[i].skipped);
    TalliesOf(s, calls, n);
  }

  lemma TalliesOf(s: Counters, calls: seq<CallRecord>, n: string)
    requires Tallies(s, calls)
    ensures Get(s.total, n) == Count(calls, Called(n)) && Get(s.error, n) == Count(calls, Errored(n))
    ensures Get(s.hit, n) == Count(calls, Hit(n)) && Get(s.skip, n) == Count(calls, Skip(n))
  {
  }

  lemma CountIs(calls: seq<CallRecord>, p: CallRecord -> bool, s: set<int>)
    requires forall i :: i in s <==> 0 <= i < |calls| && p(calls[i])
    ensures Count(calls, p) == |s|
  {
    CountIsSize(calls, p);
    assert s == Where(calls, p);
  }
}
