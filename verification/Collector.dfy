/**
 The collector object: predicate evaluation, execution into the recycled result buffer, and caching.
 Its methods are proved against the value-level specification of CollectorSpec.
 */
module Collectors {
  import opened Core
  import opened Clock
  import opened CollectorSpec
  import opened Histogram
  import Predicates
  import Publish
  import opened Schema
  import opened Snapshot

  class Collector {
    /** The server the collector belongs to. */
    const server: object
    const env: Env
    const q: Query
    const constLabels: map<string, Bytes>
    const disableCache: bool
    const descriptors: map<string, Desc>
    const histogramDesc: map<string, HistogramDesc>

    var buffer: array<Metric>
    var size: nat
    var failed: bool
    var predicateSkip: string
    var cacheHit: bool
    var lastScrape: int
    var predicateCache: seq<Option<Predicates.Entry>>

    ghost function SetupOf(): Setup { Setup(env, q, constLabels, disableCache) }

    ghost function Repr(): set<object>
      reads this
    {
      {this, buffer}
    }

    ghost predicate Valid()
      reads this
    {
      && size <= buffer.Length
      && (failed ==> size == 0)
      && |predicateCache| == |q.predicates|
      && Described()
    }

    /** The query and labels are validated, and the descriptor maps are those built from them. */
    ghost predicate Described() {
      && Configured(env, q, constLabels)
      && (forall m :: m in descriptors <==> m in q.metricNames && !IsHistogram(q, m))
      && (forall m | m in descriptors :: descriptors[m] == ScalarDesc(q, constLabels, m))
      && (forall m :: m in histogramDesc <==> m in q.metricNames && IsHistogram(q, m))
      && (forall m | m in histogramDesc :: histogramDesc[m] == HistogramDescs(q, constLabels, m))
    }

    ghost function StateOf(): State
      reads this, buffer
      requires Valid()
    {
      State(buffer[..size], failed, predicateSkip, cacheHit, lastScrape, predicateCache)
    }

    constructor (server: object, env: Env, q: Query, constLabels: map<string, Bytes>, disableCache: bool)
      requires Configured(env, q, constLabels)
      ensures Valid() && fresh(Repr())
      ensures this.server == server && SetupOf() == Setup(env, q, constLabels, disableCache)
      ensures StateOf() == New(q)
    {
      this.server := server;
      this.env, this.q, this.constLabels, this.disableCache := env, q, constLabels, disableCache;
      buffer := new Metric[0];
      size, failed, predicateSkip, cacheHit, lastScrape := 0, false, "", false, ZERO_TIME;
      predicateCache := seq(|q.predicates|, _ => None);
      var d, h := MakeDescMap(q, constLabels);
      descriptors, histogramDesc := d, h;
    }

    /** Runs the predicate queries; the main query may run only if all of them pass. */
    method ExecutePredicateQueries(clock: int, answers: seq<Predicates.Answer>)
      returns (pass: bool, ghost asked: seq<Predicates.Asked>)
      requires |predicateCache| == |q.predicates| == |answers|
      modifies this`predicateSkip, this`predicateCache, this`failed
      ensures |predicateCache| == |q.predicates|
      ensures var e := Predicates.EvaluateFrom(q.predicates, old(predicateCache), clock, answers, 0);
              && (pass <==> e.decision.Run?)
              && predicateCache == e.cache
              && asked == e.asked
              && predicateSkip == (if e.decision.Run? then "" else e.decision.name)
              && failed == (old(failed) || e.decision.Fail?)
    {
      hide Predicates.Verdict, Predicates.EvaluateFrom;
      asked := [];
      ghost var e := Predicates.EvaluateFrom(q.predicates, predicateCache, clock, answers, 0);
      for i := 0 to |q.predicates|
        invariant |predicateCache| == |q.predicates| && failed == old(failed)
        invariant e == Predicates.Prepend(asked,
                                          Predicates.EvaluateFrom(q.predicates, predicateCache, clock, answers, i))
      {
        Predicates.EvaluateOne(q.predicates, predicateCache, clock, answers, i);
        var predicateQuery := q.predicates[i];
        predicateSkip := Predicates.NameOf(q.predicates, i);
        if predicateQuery.ttl > 0 && predicateCache[i].Some? {
          var entry := predicateCache[i].value;
          if Sub(clock, entry.at) < predicateQuery.ttl {
            if entry.pass {
              continue;
            }
            return false, asked;
          }
        }
        var verdict := Predicates.Evaluate(answers[i]);
        asked := asked + [Predicates.Asked(i, clock, verdict)];
        if verdict.None? {
          failed := true;
          return false, asked;
        }
        if predicateQuery.ttl > 0 {
          predicateCache := predicateCache[i := Some(Predicates.Entry(clock, verdict.value))];
        }
        if !verdict.value {
          return false, asked;
        }
      }
      Predicates.EvaluateNone(q.predicates, predicateCache, clock, answers);
      predicateSkip := "";
      pass := true;
    }

    /** One real execution. The old result's backing array is recycled; a failed execution leaves an empty result. */
    method Execute(a: Answers)
      requires Valid() && Matches(q, a)
      modifies this, buffer
      ensures Valid() && fresh(Repr() - old(Repr()))
      ensures StateOf() == CollectorSpec.Execute(SetupOf(), old(StateOf()), a)
    {
      hide Predicates.EvaluateFrom, Outcome, Configured;
      var pending := buffer;
      buffer, size := new Metric[0], 0;
      failed := false;
      predicateSkip := "";
      var pass, asked := ExecutePredicateQueries(a.clock, a.predicates);
      if !pass {
        return;
      }
      var ok, next, n := Publish.RunMainQuery(env, q, constLabels, descriptors, histogramDesc, pending, a.main);
      if !ok {
        failed := true;
        return;
      }
      buffer, size := next, n;
      failed := false;
    }

    /** Serves one scrape: executes if the cache has expired or is disabled, and sends the current result. */
    method Collect(begin: int, a: Answers) returns (sent: seq<Metric>)
      requires Valid() && Matches(q, a)
      modifies this, buffer
      ensures Valid() && fresh(Repr() - old(Repr()))
      ensures StateOf() == CollectorSpec.Collect(SetupOf(), old(StateOf()), begin, a)
      ensures sent == StateOf().result
    {
      if Sub(begin, lastScrape) > q.ttl || disableCache {
        Execute(a);
        cacheHit := false;
        lastScrape := begin;
      } else {
        cacheHit := true;
      }
      sent := buffer[..size];
    }
  }
}
