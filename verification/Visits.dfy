/** What one scrape meets on one server, and what it makes of it: the server as a value. */
module Visits {
  import opened ClusterLaw
  import opened CollectorSpec
  import opened Core
  import Discovery
  import opened Planning
  import Scrape
  import Semver
  import opened Statistics

  /** What a precheck gets from the target. */
  datatype PrecheckReply =
    | Unreachable
    | VersionOnly(version: int)
    | Gathered(facts: Facts, list: seq<string>)
    | Bouncer(row: Option<Bytes>, notice: Bytes)

  /** What the counters see of a collector's state after a call. */
  ghost function RecordOf(q: Query, st: State): CallRecord {
    CallRecord(q.name, st.failed, st.cacheHit, q.predicates != [], st.skip != "", |st.result|)
  }

  /** The records of the collectors that ran, in order. */
  ghost function RecordsOf(us: seq<Scrape.Unit>, ran: seq<nat>): seq<CallRecord> {
    if ran == [] then []
    else
      var i := ran[|ran| - 1];
      RecordsOf(us, ran[..|ran| - 1]) + (if i < |us| then [RecordOf(us[i].q, us[i].next)] else [])
  }

  lemma OneMoreRecord(us: seq<Scrape.Unit>, ran: seq<nat>, i: nat)
    requires i < |us|
    ensures RecordsOf(us, ran + [i]) == RecordsOf(us, ran) + [RecordOf(us[i].q, us[i].next)]
  {
  }

  /** Every collector that ran has one record, of its query's name and of the state the call left behind. */
  lemma {:induction false} RecordsShowCalls(us: seq<Scrape.Unit>, ran: seq<nat>, k: nat)
    requires (forall j | 0 <= j < |ran| :: ran[j] < |us|) && k < |ran|
    ensures |RecordsOf(us, ran)| == |ran|
    ensures var c, u := RecordsOf(us, ran)[k], us[ran[k]];
            && c.name == u.q.name && c.failed == u.next.failed && c.cacheHit == u.next.cacheHit
            && c.predicated == (|u.q.predicates| > 0) && c.skipped == (u.next.skip != "")
            && c.size == |u.next.result|
  {
    var n := |ran| - 1;
    if n > 0 {
      RecordsShowCalls(us, ran[..n], if k < n then k else 0);
    }
  }

  /** The mode of a server decides which replies it can get. */
  predicate Fits(reply: PrecheckReply, pgbouncerMode: bool) {
    reply.Unreachable? || reply.Bouncer? == pgbouncerMode
  }

  function ListOf(reply: PrecheckReply): set<string> {
    if reply.Gathered? then set n | n in reply.list else {}
  }

  predicate PrecheckFails(reply: PrecheckReply) { reply.Unreachable? || reply.VersionOnly? }

  /** The facts after a precheck: one that fails part-way keeps the version it read, and a zero version is none. */
  function Observed(f: Facts, reply: PrecheckReply): Facts {
    match reply
    case Unreachable => f
    case VersionOnly(version) => f.(version := version)
    case Gathered(facts, _) => facts
    case Bouncer(row, notice) =>
      var v := TextVersion(row, notice);
      f.(version := if v != 0 then v else f.version)
  }

  /** The version in the text of the result row, or else in that of the notice. */
  function TextVersion(row: Option<Bytes>, notice: Bytes): int {
    var v := if row.Some? then Semver.Parsed(row.value) else 0;
    if v != 0 then v else if notice != [] then Semver.Parsed(notice) else 0
  }

  /** What the database would answer to each branch in one scrape. */
  type Oracle = string -> Answers

  ghost predicate Answered(queries: map<string, Query>, oracle: Oracle) {
    forall b | b in queries :: Matches(queries[b], oracle(b))
  }

  /** What one server meets in a scrape: its clock, the reply to its precheck, and the answers to its queries. */
  datatype Visit = Visit(begin: int, reply: PrecheckReply, oracle: Oracle)

  /* ---------------- a server as a value ---------------- */

  /** An installed collector: its query and its state. */
  datatype Instance = Instance(q: Query, st: State)

  datatype ServerView = ServerView(
    facts: Facts, databases: set<string>, planned: bool, begin: int, up: bool, total: nat, errors: nat,
    installed: seq<Instance>, calls: seq<CallRecord>)

  /** A server that has just been created for a database. */
  function NewView(database: string): ServerView {
    ServerView(Facts(0, false, database, "", {}, {}), {}, false, 0, false, 0, 0, [], [])
  }

  /** What a server is created with, and the queries it holds. */
  datatype Settings = Settings(
    env: Env, constLabels: map<string, Bytes>, disableCache: bool, id: Identity, queries: map<string, Query>)

  /** The change notification of a precheck. */
  function ChangesOf(before: ServerView, reply: PrecheckReply): map<string, bool> {
    if !reply.Gathered? then map[] else Discovery.Changes(before.databases, reply.facts.database, ListOf(reply))
  }

  /** The plan survives a precheck that finds the version, the recovery state and the database unchanged. */
  predicate KeepsPlan(before: ServerView, after: ServerView) {
    && before.planned
    && before.facts.version == after.facts.version
    && before.facts.recovery == after.facts.recovery
    && before.facts.database == after.facts.database
  }

  /** The unit's next state is what one call in this scrape makes of its state. */
  ghost predicate Foretold(se: Settings, v: Visit, u: Scrape.Unit) {
    && Matches(u.q, v.oracle(u.q.branch)) && |u.st.cache| == |u.q.predicates|
    && var su := Setup(se.env, u.q, se.constLabels, se.disableCache);
       u.next == Collect(su, u.st, v.begin, v.oracle(u.q.branch))
  }

  /** The units are the instances, in the given states. */
  predicate Seats(installed: seq<Instance>, us: seq<Scrape.Unit>, states: seq<State>) {
    && |installed| == |us| == |states|
    && forall j | 0 <= j < |us| :: installed[j] == Instance(us[j].q, states[j])
  }

  /** Exactly the compatible queries have a unit. */
  ghost predicate PlansExactly(se: Settings, f: Facts, us: seq<Scrape.Unit>) {
    forall b | b in se.queries ::
      IsCompatible(se.id, f, se.queries[b]) <==> exists j :: 0 <= j < |us| && us[j].q.branch == b
  }

  predicate InPriorityOrder(us: seq<Scrape.Unit>) {
    forall i, j | 0 <= i < j < |us| :: us[i].q.priority <= us[j].q.priority
  }

  /**
   A scrape that passes its precheck runs over the collectors of the plan it keeps, in the states they had, or
   over new collectors of exactly the compatible queries; afterwards they are in the states the two passes left.
   */
  ghost predicate Passed(se: Settings, before: ServerView, after: ServerView, v: Visit, log: ScrapeLog) {
    && after.planned
    && (forall j | 0 <= j < |log.us| :: Foretold(se, v, log.us[j]))
    && Seats(after.installed, log.us, log.p.states) && InPriorityOrder(log.us)
    && (if KeepsPlan(before, after)
        then Seats(before.installed, log.us, Scrape.Initial(log.us).states)
        else && (forall j | 0 <= j < |log.us| :: log.us[j].st == New(log.us[j].q))
             && PlansExactly(se, after.facts, log.us))
    && after.calls == (if KeepsPlan(before, after) then before.calls else []) + RecordsOf(log.us, log.p.ran)
  }

  /** A failed precheck runs nothing. */
  predicate Refused(before: ServerView, after: ServerView, log: ScrapeLog) {
    log.us == [] && after.installed == before.installed && after.calls == before.calls
  }

  /** One scrape of one server. */
  ghost predicate Scraped(se: Settings, before: ServerView, after: ServerView, v: Visit, log: ScrapeLog) {
    && log.forked == se.id.forked && WellRun(log, se.queries)
    && after.begin == v.begin && after.total == before.total + 1
    && after.facts == Observed(before.facts, v.reply)
    && after.databases == (if v.reply.Gathered? then ListOf(v.reply) else before.databases)
    && (if PrecheckFails(v.reply) then Refused(before, after, log) else Passed(se, before, after, v, log))
    && after.up == !(PrecheckFails(v.reply) || log.p.failed)
    && after.errors == before.errors + (if after.up then 0 else 1)
  }

  /** A log of a named server stands for one scrape of it, from its start to its state afterwards. */
  ghost predicate ServedAs(se: Settings, ids: map<string, Identity>, start: map<string, ServerView>,
                           after: map<string, ServerView>, others: string -> Visit, log: ScrapeLog)
  {
    && log.name.Some? && log.name.value in ids && log.name.value in start && log.name.value in after
    && var n := log.name.value;
       Scraped(se.(id := ids[n]), start[n], after[n], others(n), log)
  }

  /** Every log but the first, which is the primary server's. */
  ghost predicate AllServed(se: Settings, ids: map<string, Identity>, start: map<string, ServerView>,
                            after: map<string, ServerView>, others: string -> Visit, logs: seq<ScrapeLog>)
  {
    forall i | 0 < i < |logs| :: ServedAs(se, ids, start, after, others, logs[i])
  }

  /** The logs so far: the primary server's, then one of each of the names, each a scrape of its server. */
  ghost predicate ServedSoFar(se: Settings, ids: map<string, Identity>, start: map<string, ServerView>,
                              after: map<string, ServerView>, others: string -> Visit, logs: seq<ScrapeLog>,
                              names: set<string>)
  {
    ScrapedOnce(logs, names) && OneScrape(logs, se.queries) && AllServed(se, ids, start, after, others, logs)
  }

  lemma NoneServed(se: Settings, ids: map<string, Identity>, start: map<string, ServerView>,
                   after: map<string, ServerView>, others: string -> Visit, first: ScrapeLog)
    requires WellRun(first, se.queries) && !first.forked && first.name.None?
    ensures ServedSoFar(se, ids, start, after, others, [first], {}) && SentBy([first]) == first.p.sent
  {
    hide WellRun, ServedAs;
    FirstLog(se.queries, first);
    FirstScraped(first);
  }

  lemma OneMoreServed(se: Settings, ids: map<string, Identity>, start: map<string, ServerView>,
                      after: map<string, ServerView>, after': map<string, ServerView>, others: string -> Visit,
                      logs: seq<ScrapeLog>, log: ScrapeLog, names: set<string>)
    requires ServedSoFar(se, ids, start, after, others, logs, names)
    requires log.name.Some? && log.name.value !in names && log.name.value in start && log.name.value in after
    requires start[log.name.value] == after[log.name.value]
    requires forall m | m in names :: m in after' && (m in after ==> after'[m] == after[m])
    requires ServedAs(se, ids, after, after', others, log) && log.forked && WellRun(log, se.queries)
    ensures ServedSoFar(se, ids, start, after', others, logs + [log], names + {log.name.value})
    ensures SentBy(logs + [log]) == SentBy(logs) + log.p.sent
  {
    hide Scraped, WellRun;
    OneMoreScraped(logs, names, log);
    OneMoreLog(logs, se.queries, log);
  }

  /** A precheck alone: the facts, the list, and whether the plan is still current. */
  function Checked(before: ServerView, reply: PrecheckReply): ServerView {
    var facts := Observed(before.facts, reply);
    before.(facts := facts, planned := KeepsPlan(before, before.(facts := facts)), up := !PrecheckFails(reply),
            databases := if reply.Gathered? then ListOf(reply) else before.databases)
  }

  /** A reload: no collector, no plan, and no calls counted. */
  function Reloaded(before: ServerView): ServerView {
    before.(planned := false, installed := [], calls := [])
  }

  lemma NothingRuns(log: ScrapeLog, queries: map<string, Query>)
    requires log.us == [] && log.p == Scrape.Initial([])
    ensures WellRun(log, queries)
  {
  }

  lemma ObservedDatabase(f: Facts, reply: PrecheckReply)
    ensures Observed(f, reply).database == if reply.Gathered? then reply.facts.database else f.database
  {
  }
}
