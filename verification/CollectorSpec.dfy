/** The state of one collector as a value, the effect of one call on it, and the laws of whole runs. */
module CollectorSpec {
  import opened Core
  import CacheLaw
  import opened Clock
  import opened Predicates
  import opened Schema
  import opened Snapshot

  /** What never changes during a collector's life. */
  datatype Setup = Setup(env: Env, q: Query, constLabels: map<string, Bytes>, disableCache: bool) {
    ghost predicate Valid() { Configured(env, q, constLabels) }
  }

  /** `skip` is the reported predicate name, empty when there is none. */
  datatype State = State(
    result: seq<Metric>,
    failed: bool,
    skip: string,
    cacheHit: bool,
    lastScrape: int,
    cache: seq<Option<Entry>>)

  /** The collector's clock, and what the database would answer to each of its queries. */
  datatype Answers = Answers(clock: int, predicates: seq<Answer>, main: Reply)

  ghost predicate Matches(q: Query, a: Answers) {
    |a.predicates| == |q.predicates| && a.main.WellFormed()
  }

  ghost function New(q: Query): State {
    State([], false, "", false, ZERO_TIME, seq(|q.predicates|, _ => None))
  }

  /** One real execution. */
  ghost function Execute(su: Setup, st: State, a: Answers): State
    requires Matches(su.q, a) && |st.cache| == |su.q.predicates|
  {
    var e := EvaluateFrom(su.q.predicates, st.cache, a.clock, a.predicates, 0);
    match e.decision
    case Skip(name) => st.(result := [], failed := false, skip := name, cache := e.cache)
    case Fail(name) => st.(result := [], failed := true, skip := name, cache := e.cache)
    case Run =>
      match Outcome(su.env, su.q, su.constLabels, a.main)
      case None => st.(result := [], failed := true, skip := "", cache := e.cache)
      case Some(metrics) => st.(result := metrics, failed := false, skip := "", cache := e.cache)
  }

  predicate Expired(su: Setup, st: State, begin: int) {
    Sub(begin, st.lastScrape) > su.q.ttl
  }

  predicate Executes(su: Setup, st: State, begin: int) {
    Expired(su, st, begin) || su.disableCache
  }

  /** One call of Collect, with the server's scrape time `begin`; it sends the result of the new state. */
  ghost function Collect(su: Setup, st: State, begin: int, a: Answers): State
    requires Matches(su.q, a) && |st.cache| == |su.q.predicates|
  {
    if Executes(su, st, begin)
    then Execute(su, st, a).(cacheHit := false, lastScrape := begin)
    else st.(cacheHit := true)
  }

  lemma CollectKeepsCacheLength(su: Setup, st: State, begin: int, a: Answers)
    requires Matches(su.q, a) && |st.cache| == |su.q.predicates|
    ensures |Collect(su, st, begin, a).cache| == |su.q.predicates|
  {
    CacheKeepsItsLength(su.q.predicates, st.cache, a.clock, a.predicates, 0);
  }

  /* ---------------- one execution ---------------- */

  /** No error, no skip, and the complete new result. */
  ghost predicate Complete(su: Setup, st: State, a: Answers)
    requires su.Valid()
  {
    && !st.failed && st.skip == ""
    && Publishable(su.env, su.q, su.constLabels, a.main)
    && st.result == Published(su.env, su.q, su.constLabels, a.main)
  }

  ghost predicate Errored(st: State) { st.failed && st.result == [] }

  ghost predicate Skipped(st: State) { !st.failed && st.skip != "" && st.result == [] }

  /** Every execution ends in exactly one of three states, whatever the collector held before. */
  lemma ExecutionHasThreeOutcomes(su: Setup, st: State, a: Answers)
    requires su.Valid() && Matches(su.q, a) && |st.cache| == |su.q.predicates|
    ensures var s := Execute(su, st, a);
            && (Errored(s) || Skipped(s) || Complete(su, s, a))
            && !(Errored(s) && Skipped(s)) && !(Errored(s) && Complete(su, s, a)) && !(Skipped(s) && Complete(su, s, a))
  {
    SkipsAreNamed(su.q.predicates, st.cache, a.clock, a.predicates, 0);
  }

  lemma {:induction false} SkipsAreNamed(ps: seq<Predicate>, cache: seq<Option<Entry>>, now: int,
      answers: seq<Predicates.Answer>, i: nat)
    requires |cache| == |ps| == |answers| && i <= |ps|
    ensures var d := EvaluateFrom(ps, cache, now, answers, i).decision; !d.Run? ==> d.name != ""
    decreases |ps| - i
  {
    if i < |ps| {
      SkipsAreNamed(ps, cache, now, answers, i + 1);
      SkipsAreNamed(ps, Remember(ps, cache, i, now, true), now, answers, i + 1);
    }
  }

  /**
   What an execution leaves behind, told by what the predicates say, in the light of the questions asked so far, and
   by the reply: the first predicate that is not true skips the query if it is false and fails it if it is an error,
   in its own name; if all are true, a publishable reply is published completely and any other fails the query.
   */
  ghost predicate Follows(su: Setup, log: seq<Asked>, a: Answers, s: State, i: nat)
    requires su.Valid() && Matches(su.q, a)
  {
    var ps := su.q.predicates;
    && (Decides(ps, log, a.clock, a.predicates, i, Some(false)) ==>
          !s.failed && s.skip == NameOf(ps, i) && s.result == [])
    && (Decides(ps, log, a.clock, a.predicates, i, None) ==>
          s.failed && s.skip == NameOf(ps, i) && s.result == [])
    && (AllTrueBefore(ps, log, a.clock, a.predicates, |ps|) ==>
          if Publishable(su.env, su.q, su.constLabels, a.main) then Complete(su, s, a)
          else s.failed && s.skip == "" && s.result == [])
  }

  lemma ExecutionFollowsPredicates(su: Setup, st: State, log: seq<Asked>, a: Answers, i: nat)
    requires su.Valid() && Matches(su.q, a) && Consistent(su.q.predicates, st.cache, log)
    ensures Follows(su, log, a, Execute(su, st, a), i)
  {
    hide Effective, Configured, Publishable, Published, EvaluateFrom, NameOf;
    var ps := su.q.predicates;
    DecisionRefinesFrom(ps, st.cache, a.clock, a.predicates, 0, log);
    var d := EvaluateFrom(ps, st.cache, a.clock, a.predicates, 0).decision;
    FirstNotTrueDecides(ps, log, a.clock, a.predicates, d, i);
  }

  /** Either every predicate is true or exactly one of them decides, so one of the outcomes always applies. */
  lemma {:induction false} SomethingDecides(ps: seq<Predicate>, log: seq<Asked>, now: int, answers: seq<Answer>, n: nat)
    requires |ps| == |answers| && n <= |ps|
    ensures AllTrueBefore(ps, log, now, answers, n) <==>
            !exists i: nat, v :: i < n && Decides(ps, log, now, answers, i, v)
  {
    hide Effective;
    if n > 0 {
      SomethingDecides(ps, log, now, answers, n - 1);
      var v := Effective(ps, log, now, answers, n - 1);
      if AllTrueBefore(ps, log, now, answers, n - 1) && v != Some(true) {
        assert Decides(ps, log, now, answers, n - 1, v);
      }
      if exists i: nat, v :: i < n - 1 && Decides(ps, log, now, answers, i, v) {
        var i: nat, v :| i < n - 1 && Decides(ps, log, now, answers, i, v);
        assert !AllTrueBefore(ps, log, now, answers, n);
      }
    }
  }

  /** An execution depends on nothing of the previous snapshot: only the predicate cache carries over. */
  lemma ExecutionForgetsTheOldSnapshot(su: Setup, st: State, st': State, a: Answers)
    requires Matches(su.q, a)
    requires |st.cache| == |su.q.predicates| && st.cache == st'.cache
    ensures var s, s' := Execute(su, st, a), Execute(su, st', a);
            s.result == s'.result && s.failed == s'.failed && s.skip == s'.skip && s.cache == s'.cache
  {
  }

  /* ---------------- whole runs ---------------- */

  datatype Call = Call(begin: int, answers: Answers)

  /** The server's clock never goes back, and every call's answers fit the query. */
  ghost predicate ValidRun(su: Setup, calls: seq<Call>) {
    && su.q.ttl >= 0
    && (forall c | c in calls :: Matches(su.q, c.answers) && IsReading(c.begin))
    && (forall i, j | 0 <= i < j < |calls| :: calls[i].begin <= calls[j].begin)
  }

  /** The state after a run of a new collector. */
  ghost function After(su: Setup, calls: seq<Call>): (st: State)
    requires ValidRun(su, calls)
    ensures |st.cache| == |su.q.predicates|
    decreases |calls|
  {
    if calls == [] then New(su.q)
    else
      var c := calls[|calls| - 1];
      assert c in calls;
      var st := After(su, calls[..|calls| - 1]);
      CollectKeepsCacheLength(su, st, c.begin, c.answers);
      Collect(su, st, c.begin, c.answers)
  }

  /** What a caller sees after a call. */
  datatype View = View(result: seq<Metric>, failed: bool, skip: string)

  function ViewOf(st: State): View { View(st.result, st.failed, st.skip) }

  /** What executing call k would make visible. */
  ghost function OutcomeOfCall(su: Setup, calls: seq<Call>, k: nat): View
    requires ValidRun(su, calls) && k < |calls|
  {
    assert calls[k] in calls;
    ViewOf(Execute(su, After(su, calls[..k]), calls[k].answers))
  }

  /** The run as the cache sees it: scrape times, and the outcome each call would have if it executed. */
  ghost function CacheCalls(su: Setup, calls: seq<Call>): (r: seq<CacheLaw.Call<View>>)
    requires ValidRun(su, calls)
    ensures |r| == |calls| && forall k | 0 <= k < |calls| :: r[k].begin == calls[k].begin
  {
    seq(|calls|, k requires 0 <= k < |calls| => CacheLaw.Call(calls[k].begin, OutcomeOfCall(su, calls, k)))
  }

  function PolicyOf(su: Setup): CacheLaw.Policy { CacheLaw.Policy(su.q.ttl, su.disableCache) }

  const NOTHING := View([], false, "")

  /** A run of the collector is a run of the cache law over the outcomes of its executions. */
  lemma {:induction false} RunFollowsCacheLaw(su: Setup, calls: seq<Call>)
    requires ValidRun(su, calls)
    ensures var c := CacheLaw.After(PolicyOf(su), NOTHING, CacheCalls(su, calls));
            After(su, calls).lastScrape == c.last && ViewOf(After(su, calls)) == c.held
    decreases |calls|
  {
    hide Collect, CacheCalls;
    if calls != [] {
      var n := |calls| - 1;
      RunFollowsCacheLaw(su, calls[..n]);
      CacheCallsOfPrefix(su, calls, n);
      LastStepFollowsCacheLaw(su, calls);
    }
  }

  lemma CacheCallsOfPrefix(su: Setup, calls: seq<Call>, n: nat)
    requires ValidRun(su, calls) && n <= |calls|
    ensures CacheCalls(su, calls)[..n] == CacheCalls(su, calls[..n])
  {
    forall k | 0 <= k < n ensures CacheCalls(su, calls)[k] == CacheCalls(su, calls[..n])[k] {
      assert calls[..n][..k] == calls[..k];
    }
  }

  lemma LastStepFollowsCacheLaw(su: Setup, calls: seq<Call>)
    requires ValidRun(su, calls) && calls != []
    ensures var n := |calls| - 1;
            var st := After(su, calls[..n]);
            var c := CacheLaw.Serve(PolicyOf(su), CacheLaw.Cache(st.lastScrape, ViewOf(st)), CacheCalls(su, calls)[n]);
            After(su, calls).lastScrape == c.last && ViewOf(After(su, calls)) == c.held
  {
  }

  /** The call that last really executed, at or before call k. */
  ghost predicate LastReal(su: Setup, calls: seq<Call>, e: nat, k: nat)
    requires ValidRun(su, calls) && k < |calls|
  {
    CacheLaw.LastReal(PolicyOf(su), NOTHING, CacheCalls(su, calls), e, k)
  }

  /**
   Bounded staleness: what is visible after the last call is exactly the outcome, success, skip or empty failure,
   of the last real execution; with caching on that execution is at most the TTL old.
   */
  lemma SnapshotsAreFresh(su: Setup, calls: seq<Call>) returns (e: nat)
    requires ValidRun(su, calls) && calls != []
    requires su.disableCache || su.q.ttl < MAX_DURATION
    ensures LastReal(su, calls, e, |calls| - 1)
    ensures ViewOf(After(su, calls)) == OutcomeOfCall(su, calls, e)
    ensures 0 <= calls[|calls| - 1].begin - calls[e].begin <= su.q.ttl
    ensures su.disableCache ==> e == |calls| - 1
  {
    hide Collect, Execute, After, CacheLaw.Real, CacheLaw.RealCount, CacheLaw.Monotone;
    RunFollowsCacheLaw(su, calls);
    var law := CacheCalls(su, calls);
    CacheCallsAreMonotone(su, calls);
    e := CacheLaw.Staleness(PolicyOf(su), NOTHING, law, |calls| - 1);
    assert law[..|calls|] == law;
  }

  lemma CacheCallsAreMonotone(su: Setup, calls: seq<Call>)
    requires ValidRun(su, calls)
    ensures CacheLaw.Monotone(CacheCalls(su, calls))
  {
  }

  /** Call k is a real execution. */
  ghost predicate Real(su: Setup, calls: seq<Call>, k: nat)
    requires ValidRun(su, calls) && k < |calls|
  {
    CacheLaw.Real(PolicyOf(su), NOTHING, CacheCalls(su, calls), k)
  }

  lemma RealMeansExpiredOrDisabled(su: Setup, calls: seq<Call>, k: nat)
    requires ValidRun(su, calls) && k < |calls|
    ensures Real(su, calls, k) <==> Executes(su, After(su, calls[..k]), calls[k].begin)
  {
    hide Collect, Execute;
    RunFollowsCacheLaw(su, calls[..k]);
    CacheCallsOfPrefix(su, calls, k);
  }

  /** The number of real executions among calls i, ..., j - 1. */
  ghost function RealCount(su: Setup, calls: seq<Call>, i: nat, j: nat): nat
    requires ValidRun(su, calls) && i <= j <= |calls|
  {
    CacheLaw.RealCount(PolicyOf(su), NOTHING, CacheCalls(su, calls), i, j)
  }

  /**
   Minimum gap: with caching on, n real executions after the one at call i, the last of them at call j, span
   more than n times the TTL.
   */
  lemma ExecutionsAreSpaced(su: Setup, calls: seq<Call>, i: nat, j: nat)
    requires ValidRun(su, calls) && i <= j < |calls|
    requires !su.disableCache && su.q.ttl < MAX_DURATION
    requires Real(su, calls, i) && Real(su, calls, j)
    ensures calls[j].begin - calls[i].begin >= RealCount(su, calls, i + 1, j + 1) * (su.q.ttl + 1)
  {
    hide Collect, Execute, After, CacheCalls, CacheLaw.Real, CacheLaw.RealCount, CacheLaw.Monotone;
    CacheCallsAreMonotone(su, calls);
    CacheLaw.Spacing(PolicyOf(su), NOTHING, CacheCalls(su, calls), i, j);
  }

  /** A new collector executes on its first call, unless caching is on and the TTL is the maximal Duration. */
  lemma FirstCallExecutes(su: Setup, calls: seq<Call>)
    requires ValidRun(su, calls) && calls != []
    ensures Real(su, calls, 0) <==> su.disableCache || su.q.ttl < MAX_DURATION
  {
    CacheCallsAreMonotone(su, calls);
    CacheLaw.FirstCallExecutes(PolicyOf(su), NOTHING, CacheCalls(su, calls));
  }

  /** A collector ever executes, unless caching is on and the TTL is the maximal Duration. */
  lemma SomethingExecutesIff(su: Setup, calls: seq<Call>)
    requires ValidRun(su, calls) && calls != []
    ensures (exists k: nat :: k < |calls| && Real(su, calls, k)) <==> su.disableCache || su.q.ttl < MAX_DURATION
  {
    hide CacheLaw.Real, CacheLaw.Monotone;
    var law := CacheCalls(su, calls);
    CacheCallsAreMonotone(su, calls);
    CacheLaw.SomethingExecutesIff(PolicyOf(su), NOTHING, law);
    assert forall k: nat | k < |calls| :: Real(su, calls, k) <==> CacheLaw.Real(PolicyOf(su), NOTHING, law, k);
  }

  /* ---------------- predicate cache over whole runs ---------------- */

  /** The predicate evaluations of a run: one per real execution. */
  ghost function Probes(su: Setup, calls: seq<Call>): (ps: seq<Probe>)
    requires ValidRun(su, calls)
    ensures ValidProbes(su.q.predicates, ps)
    decreases |calls|
  {
    if calls == [] then []
    else
      var n := |calls| - 1;
      assert calls[n] in calls;
      Probes(su, calls[..n])
      + (if Executes(su, After(su, calls[..n]), calls[n].begin)
         then [Probe(calls[n].answers.clock, calls[n].answers.predicates)] else [])
  }

  lemma CollectUpdatesPredicateCache(su: Setup, st: State, begin: int, a: Answers)
    requires Matches(su.q, a) && |st.cache| == |su.q.predicates|
    ensures Collect(su, st, begin, a).cache
            == if Executes(su, st, begin) then EvaluateFrom(su.q.predicates, st.cache, a.clock, a.predicates, 0).cache
               else st.cache
  {
  }

  /** The collector's predicate cache is that of the predicate machine run on its real executions. */
  lemma {:induction false} PredicateCacheFollowsProbes(su: Setup, calls: seq<Call>)
    requires ValidRun(su, calls)
    ensures After(su, calls).cache == Predicates.After(su.q.predicates, Probes(su, calls)).cache
    decreases |calls|
  {
    hide Collect, Execute;
    if calls != [] {
      var n := |calls| - 1;
      assert calls[n] in calls;
      PredicateCacheFollowsProbes(su, calls[..n]);
      var st, c := After(su, calls[..n]), calls[n];
      CollectUpdatesPredicateCache(su, st, c.begin, c.answers);
      if Executes(su, st, c.begin) {
        var ps := Probes(su, calls);
        assert ps[..|ps| - 1] == Probes(su, calls[..n]);
        assert ps[|ps| - 1] == Probe(c.answers.clock, c.answers.predicates);
      } else {
        assert Probes(su, calls) == Probes(su, calls[..n]);
      }
    }
  }

  /**
   Over every run of a collector: if its next real execution is not skipped and not failed by a predicate, so
   that the main query runs, then the database's last answer to every predicate is true and was given in this
   execution or less than that predicate's TTL ago.
   */
  lemma MainQueryRunsOnlyWhenBacked(su: Setup, calls: seq<Call>, next: Call)
    requires ValidRun(su, calls) && Matches(su.q, next.answers)
    ensures var ps := su.q.predicates;
            var e := EvaluateFrom(ps, After(su, calls).cache, next.answers.clock, next.answers.predicates, 0);
            var log := Predicates.After(ps, Probes(su, calls)).log;
            && Refines(ps, log, next.answers.clock, next.answers.predicates, e.decision)
            && (e.decision.Run? ==> AllBacked(ps, log + e.asked, next.answers.clock, |ps|))
  {
    PredicateCacheFollowsProbes(su, calls);
    var probe := Probe(next.answers.clock, next.answers.predicates);
    CachingRefinesDirectEvaluation(su.q.predicates, Probes(su, calls), probe);
    MainQueryIsBacked(su.q.predicates, Probes(su, calls), probe);
  }

  /**
   Every call of a run: a real one records its time, is no cache hit, and has the outcome its predicates and its
   reply call for; any other is a cache hit and changes nothing else.
   */
  lemma CallsFollowPredicates(su: Setup, calls: seq<Call>, k: nat, i: nat)
    requires su.Valid() && ValidRun(su, calls) && k < |calls|
    ensures var before, s := After(su, calls[..k]), After(su, calls[..k + 1]);
            if Real(su, calls, k)
            then && !s.cacheHit && s.lastScrape == calls[k].begin && Matches(su.q, calls[k].answers)
                 && Follows(su, Predicates.After(su.q.predicates, Probes(su, calls[..k])).log, calls[k].answers, s, i)
            else s == before.(cacheHit := true)
  {
    hide Execute, Follows, EvaluateFrom, Real, Configured;
    var before, c := After(su, calls[..k]), calls[k];
    assert c in calls && calls[..k + 1][..k] == calls[..k] && calls[..k + 1][k] == c;
    RealMeansExpiredOrDisabled(su, calls, k);
    if Real(su, calls, k) {
      PredicateCacheFollowsProbes(su, calls[..k]);
      var log := Predicates.After(su.q.predicates, Probes(su, calls[..k])).log;
      var probe := Probe(c.answers.clock, c.answers.predicates);
      CachingRefinesDirectEvaluation(su.q.predicates, Probes(su, calls[..k]), probe);
      ExecutionFollowsPredicates(su, before, log, c.answers, i);
      FollowsIgnoresTimes(su, log, c.answers, Execute(su, before, c.answers), c.begin, i);
    }
  }

  lemma FollowsIgnoresTimes(su: Setup, log: seq<Asked>, a: Answers, s: State, begin: int, i: nat)
    requires su.Valid() && Matches(su.q, a) && Follows(su, log, a, s, i)
    ensures Follows(su, log, a, s.(cacheHit := false, lastScrape := begin), i)
  {
    hide Configured, Publishable, Published, Decides, AllTrueBefore;
  }
}
