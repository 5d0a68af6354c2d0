/** Value-level law of one exporter scrape: a cluster-level query runs at most once over all servers. */
module ClusterLaw {
  import opened Core
  import Scrape

  /** What one server did in a scrape; the primary server has no name among the discovered ones. */
  datatype ScrapeLog = ScrapeLog(name: Option<string>, forked: bool, us: seq<Scrape.Unit>, p: Scrape.Progress)

  ghost predicate FromQueries(us: seq<Scrape.Unit>, queries: map<string, Query>) {
    forall u | u in us :: u.q.branch in queries && queries[u.q.branch] == u.q
  }

  ghost predicate DistinctUnits(us: seq<Scrape.Unit>) {
    forall i, j | 0 <= i < j < |us| :: us[i].q.branch != us[j].q.branch
  }

  ghost predicate NoClusterUnits(us: seq<Scrape.Unit>) {
    forall u | u in us :: "cluster" !in u.q.tags
  }

  /** Nothing ran, or the two passes ran over queries of the current set. */
  ghost predicate WellRun(log: ScrapeLog, queries: map<string, Query>) {
    && Scrape.AllReady(log.us) && log.p == Scrape.Run(log.us)
    && FromQueries(log.us, queries) && DistinctUnits(log.us)
    && (log.forked ==> NoClusterUnits(log.us))
  }

  /** How often a branch ran. */
  function Runs(us: seq<Scrape.Unit>, ran: seq<nat>, b: string): nat {
    if ran == [] then 0
    else
      var i := ran[|ran| - 1];
      Runs(us, ran[..|ran| - 1], b) + (if i < |us| && us[i].q.branch == b then 1 else 0)
  }

  function TotalRuns(logs: seq<ScrapeLog>, b: string): nat {
    if logs == [] then 0
    else
      var log := logs[|logs| - 1];
      TotalRuns(logs[..|logs| - 1], b) + Runs(log.us, log.p.ran, b)
  }

  function SentBy(logs: seq<ScrapeLog>): seq<Metric> {
    if logs == [] then [] else SentBy(logs[..|logs| - 1]) + logs[|logs| - 1].p.sent
  }

  lemma {:induction false} RunsAtMostOnce(us: seq<Scrape.Unit>, ran: seq<nat>, b: string)
    requires DistinctUnits(us) && NoDuplicates(ran)
    ensures Runs(us, ran, b) <= 1
    ensures (forall i | i in ran :: i < |us| ==> us[i].q.branch != b) ==> Runs(us, ran, b) == 0
  {
    if ran != [] {
      var init, last := ran[..|ran| - 1], ran[|ran| - 1];
      RunsAtMostOnce(us, init, b);
      assert forall i | i in init :: i in ran && i != last;
      assert last in ran;
    }
  }

  lemma NeverRuns(us: seq<Scrape.Unit>, ran: seq<nat>, b: string)
    requires DistinctUnits(us) && NoDuplicates(ran)
    requires forall u | u in us :: u.q.branch != b
    ensures Runs(us, ran, b) == 0
  {
  }

  /** The primary server comes first and is not forked; all the others are. */
  ghost predicate OneScrape(logs: seq<ScrapeLog>, queries: map<string, Query>) {
    && logs != [] && !logs[0].forked
    && (forall i | 0 < i < |logs| :: logs[i].forked)
    && (forall i | 0 <= i < |logs| :: WellRun(logs[i], queries))
  }

  /** A cluster-level query runs at most once in one exporter scrape, whatever servers have been discovered. */
  lemma {:induction false} ClusterQueriesRunAtMostOnce(logs: seq<ScrapeLog>, queries: map<string, Query>, b: string)
    requires OneScrape(logs, queries) && b in queries && "cluster" in queries[b].tags
    ensures TotalRuns(logs, b) <= 1
  {
    hide Scrape.Run, Scrape.AllReady;
    var init, last := logs[..|logs| - 1], logs[|logs| - 1];
    Scrape.NoCollectorRunsTwice(last.us);
    if |logs| == 1 {
      RunsAtMostOnce(last.us, last.p.ran, b);
      assert TotalRuns(init, b) == 0;
    } else {
      ClusterQueriesRunAtMostOnce(init, queries, b);
      NeverRuns(last.us, last.p.ran, b);
    }
  }

  /** After the primary server, exactly the named servers were scraped, each once. */
  ghost predicate ScrapedOnce(logs: seq<ScrapeLog>, names: set<string>) {
    && logs != [] && logs[0].name.None?
    && (forall i | 0 < i < |logs| :: logs[i].name.Some? && logs[i].name.value in names)
    && (forall i, j | 0 < i < j < |logs| :: logs[i].name != logs[j].name)
    && (forall n | n in names :: exists i :: 0 < i < |logs| && logs[i].name == Some(n))
  }

  lemma FirstScraped(log: ScrapeLog)
    requires log.name.None?
    ensures ScrapedOnce([log], {})
  {
  }

  lemma OneMoreScraped(logs: seq<ScrapeLog>, names: set<string>, log: ScrapeLog)
    requires ScrapedOnce(logs, names) && log.name.Some? && log.name.value !in names
    ensures ScrapedOnce(logs + [log], names + {log.name.value})
  {
    var logs' := logs + [log];
    forall n | n in names + {log.name.value} ensures exists i :: 0 < i < |logs'| && logs'[i].name == Some(n) {
      if n in names {
        var i :| 0 < i < |logs| && logs[i].name == Some(n);
        assert logs'[i].name == Some(n);
      } else {
        assert logs'[|logs|].name == Some(n);
      }
    }
  }

  lemma FirstLog(queries: map<string, Query>, log: ScrapeLog)
    requires WellRun(log, queries) && !log.forked
    ensures OneScrape([log], queries) && SentBy([log]) == log.p.sent
  {
  }

  lemma OneMoreLog(logs: seq<ScrapeLog>, queries: map<string, Query>, log: ScrapeLog)
    requires OneScrape(logs, queries) && WellRun(log, queries) && log.forked
    ensures OneScrape(logs + [log], queries) && SentBy(logs + [log]) == SentBy(logs) + log.p.sent
  {
  }
}
