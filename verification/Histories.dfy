/** What the state of an installed collector stands for: the calls it has answered, and how old its result is. */
module Histories {
  import opened ClusterLaw
  import opened Clock
  import opened CollectorSpec
  import opened Core
  import Predicates
  import Scrape
  import opened Snapshot
  import opened Visits

  /** What one server meets in a scrape, whatever queries it holds: `world` answers every query. */
  datatype Encounter = Encounter(begin: int, reply: PrecheckReply, world: Query -> Answers)

  function VisitOf(e: Encounter, queries: map<string, Query>): Visit {
    Visit(e.begin, e.reply, b => if b in queries then e.world(queries[b]) else Answers(0, [], QueryError))
  }

  ghost predicate Sound(e: Encounter) {
    IsReading(e.begin) && forall q :: Matches(q, e.world(q))
  }

  lemma SoundEncounterExists(begin: int, reply: PrecheckReply) returns (e: Encounter)
    requires IsReading(begin)
    ensures Sound(e) && e.begin == begin && e.reply == reply
  {
    e := Encounter(begin, reply, (q: Query) =>
      Answers(begin, seq(|q.predicates|, _ => Predicates.NoAnswer), QueryError));
  }

  lemma SoundEncountersAnswer(e: Encounter, queries: map<string, Query>)
    requires Sound(e)
    ensures Answered(queries, VisitOf(e, queries).oracle)
  {
  }

  /** The clock of a server never goes back. */
  ghost predicate Forward(met: seq<Encounter>) {
    forall i, j | 0 <= i < j < |met| :: met[i].begin <= met[j].begin
  }

  function CallIn(e: Encounter, q: Query): Call {
    Call(e.begin, e.world(q))
  }

  ghost predicate Heard(met: seq<Encounter>, q: Query, c: Call) {
    exists k :: 0 <= k < |met| && c == CallIn(met[k], q)
  }

  /** The state is what these calls make of a new collector, and each of them was made in some encounter. */
  ghost predicate Explains(su: Setup, st: State, met: seq<Encounter>, calls: seq<Call>) {
    && ValidRun(su, calls) && st == After(su, calls)
    && forall c | c in calls :: Heard(met, su.q, c)
  }

  ghost predicate Explained(su: Setup, st: State, met: seq<Encounter>) {
    exists calls :: Explains(su, st, met, calls)
  }

  /** Some calls explain the state, and the last of them was made in the encounter e. */
  ghost predicate JustCalled(su: Setup, st: State, met: seq<Encounter>, e: Encounter) {
    exists calls :: Explains(su, st, met, calls + [CallIn(e, su.q)])
  }

  function SetupIn(se: Settings, q: Query): Setup {
    Setup(se.env, q, se.constLabels, se.disableCache)
  }

  /** Every installed collector has a history. */
  ghost predicate Lived(se: Settings, view: ServerView, met: seq<Encounter>) {
    forall j | 0 <= j < |view.installed| :: Explained(SetupIn(se, view.installed[j].q), view.installed[j].st, met)
  }

  lemma NewIsExplained(su: Setup, met: seq<Encounter>)
    requires su.q.ttl >= 0
    ensures Explained(su, New(su.q), met)
  {
    assert Explains(su, New(su.q), met, []);
  }

  lemma HeardLater(met: seq<Encounter>, e: Encounter, q: Query, c: Call)
    requires Heard(met, q, c)
    ensures Heard(met + [e], q, c)
  {
    var k :| 0 <= k < |met| && c == CallIn(met[k], q);
    assert (met + [e])[k] == met[k];
  }

  lemma ExplainedLater(su: Setup, st: State, met: seq<Encounter>, e: Encounter)
    requires Explained(su, st, met)
    ensures Explained(su, st, met + [e])
  {
    hide ValidRun, After, Heard;
    var calls :| Explains(su, st, met, calls);
    forall c | c in calls ensures Heard(met + [e], su.q, c) {
      HeardLater(met, e, su.q, c);
    }
    assert Explains(su, st, met + [e], calls);
  }

  /** One more call adds itself to the history. */
  lemma OneMoreCall(su: Setup, st: State, met: seq<Encounter>, e: Encounter)
    requires Explained(su, st, met) && Sound(e) && Forward(met + [e])
    ensures |st.cache| == |su.q.predicates|
    ensures JustCalled(su, Collect(su, st, e.begin, e.world(su.q)), met + [e], e)
  {
    hide Collect;
    var calls :| Explains(su, st, met, calls);
    var met', c := met + [e], CallIn(e, su.q);
    var calls' := calls + [c];
    assert met'[|met|] == e;
    forall d | d in calls' ensures Heard(met', su.q, d) && Matches(su.q, d.answers) && IsReading(d.begin) {
      if d in calls {
        HeardLater(met, e, su.q, d);
      } else {
        assert d == c;
      }
    }
    forall d | d in calls ensures d.begin <= e.begin {
      var k :| 0 <= k < |met| && d == CallIn(met[k], su.q);
      assert met'[k] == met[k];
    }
    assert forall i | 0 <= i < |calls| :: calls[i] in calls;
    assert ValidRun(su, calls');
    assert calls'[..|calls|] == calls;
    assert Explains(su, Collect(su, st, e.begin, e.world(su.q)), met', calls');
  }

  lemma JustCalledIsExplained(su: Setup, st: State, met: seq<Encounter>, e: Encounter)
    requires JustCalled(su, st, met, e)
    ensures Explained(su, st, met)
  {
    hide Explains;
  }

  /** A unit of a scrape has a history before it and after it. */
  lemma UnitIsExplained(se: Settings, e: Encounter, u: Scrape.Unit, met: seq<Encounter>)
    requires Foretold(se, VisitOf(e, se.queries), u)
    requires u.q.branch in se.queries && se.queries[u.q.branch] == u.q
    requires Explained(SetupIn(se, u.q), u.st, met) && Sound(e) && Forward(met + [e])
    ensures Explained(SetupIn(se, u.q), u.st, met + [e])
    ensures JustCalled(SetupIn(se, u.q), u.next, met + [e], e)
    ensures Explained(SetupIn(se, u.q), u.next, met + [e])
  {
    hide Explained, JustCalled, Sound, Forward, Collect;
    ExplainedLater(SetupIn(se, u.q), u.st, met, e);
    OneMoreCall(SetupIn(se, u.q), u.st, met, e);
    JustCalledIsExplained(SetupIn(se, u.q), u.next, met + [e], e);
  }

  /** Before a scrape every unit has a history: that of its collector, or the empty one of a new collector. */
  lemma UnitsStartExplained(se: Settings, before: ServerView, after: ServerView, v: Visit, log: ScrapeLog,
                            met: seq<Encounter>)
    requires Passed(se, before, after, v, log) && WellRun(log, se.queries) && Lived(se, before, met)
    requires forall b | b in se.queries :: se.queries[b].ttl >= 0
    ensures forall j | 0 <= j < |log.us| :: Explained(SetupIn(se, log.us[j].q), log.us[j].st, met)
  {
    hide Explained, Foretold, PlansExactly, Scrape.Run, Scrape.AllReady;
    forall j | 0 <= j < |log.us| ensures Explained(SetupIn(se, log.us[j].q), log.us[j].st, met) {
      assert log.us[j] in log.us;
      if KeepsPlan(before, after) {
        assert before.installed[j] == Instance(log.us[j].q, log.us[j].st);
      } else {
        NewIsExplained(SetupIn(se, log.us[j].q), met);
      }
    }
  }

  /**
   A scrape keeps a history for every installed collector; if it succeeds, every one of them has been called in
   it. No other answers than those of the encounters ever enter a collector's state.
   */
  lemma ScrapeKeepsHistories(se: Settings, before: ServerView, after: ServerView, e: Encounter, log: ScrapeLog,
                             met: seq<Encounter>)
    requires Scraped(se, before, after, VisitOf(e, se.queries), log) && Lived(se, before, met)
    requires Sound(e) && Forward(met + [e]) && forall b | b in se.queries :: se.queries[b].ttl >= 0
    ensures Lived(se, after, met + [e])
    ensures after.up ==> forall j | 0 <= j < |after.installed| ::
                           JustCalled(SetupIn(se, after.installed[j].q), after.installed[j].st, met + [e], e)
  {
    hide Explained, JustCalled, Foretold, PlansExactly, Scrape.Run, Sound, Forward;
    if PrecheckFails(e.reply) {
      forall j | 0 <= j < |after.installed|
        ensures Explained(SetupIn(se, after.installed[j].q), after.installed[j].st, met + [e])
      {
        ExplainedLater(SetupIn(se, after.installed[j].q), after.installed[j].st, met, e);
      }
    } else {
      UnitsStartExplained(se, before, after, VisitOf(e, se.queries), log, met);
      CalledUnits(log);
      forall j | 0 <= j < |after.installed|
        ensures Explained(SetupIn(se, after.installed[j].q), after.installed[j].st, met + [e])
        ensures after.up ==> JustCalled(SetupIn(se, after.installed[j].q), after.installed[j].st, met + [e], e)
      {
        assert log.us[j] in log.us;
        UnitIsExplained(se, e, log.us[j], met);
      }
    }
  }

  /** The passes leave each collector in its old or its next state, and in its next state if nothing failed. */
  lemma CalledUnits(log: ScrapeLog)
    requires Scrape.AllReady(log.us) && log.p == Scrape.Run(log.us)
    ensures |log.p.states| == |log.us|
    ensures forall j | 0 <= j < |log.us| :: log.p.states[j] == log.us[j].next
                                          || (log.p.failed && log.p.states[j] == log.us[j].st)
  {
    hide Scrape.Run, Scrape.Results;
    Scrape.ScrapeRunsEachCollectorOnce(log.us);
    if !log.p.failed {
      var fatal, others :| log.p.ran == fatal + others && Scrape.RanAllOnce(log.us, fatal, others);
      forall j: nat | j < |log.us| ensures j in log.p.ran {
        assert j in fatal || j in others;
      }
    }
  }

  /* ---------------- how old a result is ---------------- */

  /**
   What is visible is exactly the outcome of executing one of the calls of a history, on the answers of the
   encounter it was made in, and at time `now` that encounter is at most the TTL ago.
   */
  ghost predicate Fresh(su: Setup, st: State, met: seq<Encounter>, now: int) {
    exists calls: seq<Call>, k: nat ::
      && Explains(su, st, met, calls) && k < |calls| && ViewOf(st) == OutcomeOfCall(su, calls, k)
      && 0 <= now - calls[k].begin <= su.q.ttl && (su.disableCache ==> calls[k].begin == now)
  }

  lemma JustCalledIsFresh(su: Setup, st: State, met: seq<Encounter>, e: Encounter)
    requires JustCalled(su, st, met, e)
    requires su.disableCache || su.q.ttl < MAX_DURATION
    ensures Fresh(su, st, met, e.begin)
  {
    hide After, OutcomeOfCall;
    var calls :| Explains(su, st, met, calls + [CallIn(e, su.q)]);
    var all := calls + [CallIn(e, su.q)];
    var k := SnapshotsAreFresh(su, all);
    assert k < |all|;
  }

  /** The TTL is one with which the collector ever executes. */
  predicate Runs(se: Settings, q: Query) {
    se.disableCache || q.ttl < MAX_DURATION
  }

  /** After a successful scrape, no installed collector holds anything older than its TTL. */
  ghost predicate AllFresh(se: Settings, view: ServerView, met: seq<Encounter>) {
    met != [] && forall j | 0 <= j < |view.installed| :: Runs(se, view.installed[j].q) ==>
      Fresh(SetupIn(se, view.installed[j].q), view.installed[j].st, met, met[|met| - 1].begin)
  }

  lemma SuccessIsFresh(se: Settings, before: ServerView, after: ServerView, e: Encounter, log: ScrapeLog,
                       met: seq<Encounter>)
    requires Scraped(se, before, after, VisitOf(e, se.queries), log) && Lived(se, before, met)
    requires Sound(e) && Forward(met + [e]) && forall b | b in se.queries :: se.queries[b].ttl >= 0
    ensures after.up ==> AllFresh(se, after, met + [e])
  {
    hide Scraped, Lived, Sound, Forward, JustCalled, Fresh;
    ScrapeKeepsHistories(se, before, after, e, log, met);
    if after.up {
      forall j | 0 <= j < |after.installed| && Runs(se, after.installed[j].q)
        ensures Fresh(SetupIn(se, after.installed[j].q), after.installed[j].st, met + [e], e.begin)
      {
        JustCalledIsFresh(SetupIn(se, after.installed[j].q), after.installed[j].st, met + [e], e);
      }
    }
  }
}
