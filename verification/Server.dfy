/** The server object: precheck, plan, two-pass scrape and statistics. */
module Servers {
  import opened ClusterLaw
  import opened Core
  import opened Collectors
  import opened CollectorSpec
  import Discovery
  import opened Planning
  import Scrape
  import Semver
  import opened Snapshot
  import opened Statistics
  import opened Visits

  /** The collectors as values. */
  ghost function InstancesOf(cs: seq<Collector>): (r: seq<Instance>)
    reads cs, set c | c in cs :: c.buffer
    ensures |r| == |cs|
    ensures forall i | 0 <= i < |cs| && cs[i].Valid() :: r[i] == Instance(cs[i].q, cs[i].StateOf())
  {
    seq(|cs|, i requires 0 <= i < |cs| reads cs, set c | c in cs :: c.buffer =>
      Instance(cs[i].q, if cs[i].Valid() then cs[i].StateOf() else New(cs[i].q)))
  }

  ghost predicate DistinctBranches(cs: seq<Collector>) {
    NoDuplicates(cs) && forall c, d | c in cs && d in cs && c != d :: c.q.branch != d.q.branch
  }

  ghost predicate DistinctBuffers(cs: seq<Collector>)
    reads cs
  {
    forall c, d | c in cs && d in cs && c != d :: c.buffer != d.buffer
  }

  ghost function BufferList(cs: seq<Collector>): (r: seq<array<Metric>>)
    reads cs
    ensures |r| == |cs| && forall j | 0 <= j < |cs| :: r[j] == cs[j].buffer
  {
    seq(|cs|, i requires 0 <= i < |cs| reads cs => cs[i].buffer)
  }

  lemma ListedBuffersDiffer(cs: seq<Collector>)
    requires Distinct(cs)
    ensures forall j, k | 0 <= j < |cs| && 0 <= k < |cs| && j != k ::
              cs[j] != cs[k] && BufferList(cs)[j] != BufferList(cs)[k]
  {
  }

  ghost predicate Distinct(cs: seq<Collector>)
    reads cs
  {
    DistinctBranches(cs) && DistinctBuffers(cs)
  }

  ghost predicate ByPriority(cs: seq<Collector>) {
    forall i, j | 0 <= i < j < |cs| :: cs[i].q.priority <= cs[j].q.priority
  }

  lemma InsertionKeepsOrder(cs: seq<Collector>, k: nat, c: Collector, r: seq<Collector>)
    requires k <= |cs| && NoDuplicates(cs) && ByPriority(cs) && c !in cs
    requires forall j | 0 <= j < k :: cs[j].q.priority <= c.q.priority
    requires forall j | k <= j < |cs| :: c.q.priority <= cs[j].q.priority
    requires r == cs[..k] + [c] + cs[k..]
    ensures NoDuplicates(r) && ByPriority(r)
    ensures forall d :: d in r <==> d in cs || d == c
  {
  }

  /** Orders collectors by priority: the model of sort.Slice. */
  method SortByPriority(instances: seq<Collector>) returns (sorted: seq<Collector>)
    requires NoDuplicates(instances)
    ensures NoDuplicates(sorted) && ByPriority(sorted)
    ensures forall c :: c in sorted <==> c in instances
  {
    sorted := [];
    for i := 0 to |instances|
      invariant NoDuplicates(sorted) && ByPriority(sorted)
      invariant forall c :: c in sorted <==> c in instances[..i]
    {
      sorted := InsertByPriority(sorted, instances[i]);
    }
    assert instances[..|instances|] == instances;
  }

  method InsertByPriority(cs: seq<Collector>, c: Collector) returns (r: seq<Collector>)
    requires NoDuplicates(cs) && ByPriority(cs) && c !in cs
    ensures NoDuplicates(r) && ByPriority(r)
    ensures forall d :: d in r <==> d in cs || d == c
  {
    var k := 0;
    while k < |cs| && cs[k].q.priority <= c.q.priority
      invariant k <= |cs|
      invariant forall j | 0 <= j < k :: cs[j].q.priority <= c.q.priority
    {
      k := k + 1;
    }
    assert forall j | k <= j < |cs| :: c.q.priority <= cs[j].q.priority;
    r := cs[..k] + [c] + cs[k..];
    InsertionKeepsOrder(cs, k, c, r);
  }

  class Server {
    const env: Env
    const constLabels: map<string, Bytes>
    const disableCache: bool
    const id: Identity

    var up: bool
    var version: int
    var recovery: bool
    var database: string
    var username: string
    var databases: set<string>
    var namespaces: set<string>
    var extensions: set<string>

    var planned: bool
    var queries: map<string, Query>
    var collectors: seq<Collector>
    var failed: bool

    var scrapeBegin: int
    var totalCount: nat
    var errorCount: nat
    var queryScrapeTotalCount: Counter
    var queryScrapeHitCount: Counter
    var queryScrapeErrorCount: Counter
    var queryScrapePredicateSkipCount: Counter

    /** The facts the current plan was made from. */
    ghost var plannedFacts: Facts

    /** The collector calls since the last reset of the statistics. */
    ghost var calls: seq<CallRecord>

    /* ---------------- invariants ---------------- */

    ghost function Repr(): set<object>
      reads this, collectors
    {
      {this} + (set c | c in Instances() :: c as object) + (set b | b in Buffers() :: b as object)
    }

    ghost function Instances(): set<Collector>
      reads `collectors
    {
      set c | c in collectors
    }

    ghost function Buffers(): set<array<Metric>>
      reads `collectors, collectors
    {
      set c | c in collectors :: c.buffer
    }

    function FactsOf(): Facts
      reads `version, `recovery, `database, `username, `namespaces, `extensions
    {
      Facts(version, recovery, database, username, namespaces, extensions)
    }

    function CountersOf(): Counters
      reads `queryScrapeTotalCount, `queryScrapeHitCount, `queryScrapeErrorCount, `queryScrapePredicateSkipCount
    {
      Counters(queryScrapeTotalCount, queryScrapeHitCount, queryScrapeErrorCount, queryScrapePredicateSkipCount)
    }

    /** What the server is created with, and its query set. */
    ghost function SettingsOf(): Settings
      reads `queries
    {
      Settings(env, constLabels, disableCache, id, queries)
    }

    /** The server as a value. */
    ghost function ViewOf(): ServerView
      reads this, collectors, Buffers()
    {
      ServerView(FactsOf(), databases, planned, scrapeBegin, up, totalCount, errorCount, InstancesOf(collectors), calls)
    }

    lemma ViewParts()
      ensures ViewOf().facts == FactsOf() && ViewOf().databases == databases
    {
    }

    ghost predicate Configurable(qs: map<string, Query>) {
      forall b | b in qs :: qs[b].branch == b && Configured(env, qs[b], constLabels)
    }

    /** A collector was made for this server from its current query set. */
    ghost predicate Places(c: Collector)
      reads `queries
    {
      && c.server == this && c.SetupOf() == Setup(env, c.q, constLabels, disableCache)
      && c.q.branch in queries && queries[c.q.branch] == c.q
    }

    ghost predicate Owns(c: Collector)
      reads `queries, c
    {
      c.Valid() && Places(c)
    }

    /** A collector that has not been called yet. */
    ghost predicate OwnsNew(c: Collector)
      reads `queries, c, c.buffer
    {
      Owns(c) && c.StateOf() == New(c.q)
    }

    ghost predicate AllNew()
      reads `queries, `collectors, collectors, Buffers()
    {
      forall c | c in collectors :: OwnsNew(c)
    }

    /** The installed collectors are distinct objects with distinct buffers, one per branch. */
    ghost predicate Installed()
      reads `queries, `collectors, collectors
    {
      && (forall c | c in collectors :: Owns(c))
      && Distinct(collectors)
    }

    /** Exactly the compatible queries are installed. */
    ghost predicate InstallsExactly(f: Facts)
      reads `queries, `collectors
    {
      forall b | b in queries :: IsCompatible(id, f, queries[b]) <==> exists c :: c in collectors && c.q.branch == b
    }

    /** A current plan agrees with the version, recovery state and database the server last observed. */
    ghost predicate PlanCurrent()
      reads `planned, `plannedFacts, `version, `recovery, `database, `queries, `collectors
    {
      planned ==>
        && plannedFacts.version == version && plannedFacts.recovery == recovery && plannedFacts.database == database
        && ByPriority(collectors) && InstallsExactly(plannedFacts)
    }

    /** The counters are the tallies of the calls since the last reset. */
    ghost predicate StatsAgree()
      reads `queryScrapeTotalCount, `queryScrapeHitCount, `queryScrapeErrorCount, `queryScrapePredicateSkipCount, `calls
    {
      Tallies(CountersOf(), calls)
    }

    ghost predicate Valid()
      reads `queries, `collectors, collectors, `planned, `plannedFacts, `version, `recovery, `database
      reads `queryScrapeTotalCount, `queryScrapeHitCount, `queryScrapeErrorCount, `queryScrapePredicateSkipCount, `calls
      reads `totalCount, `errorCount
    {
      && Configurable(queries) && Installed() && PlanCurrent() && StatsAgree()
      && errorCount <= totalCount
    }

    constructor (env: Env, queries: map<string, Query>, constLabels: map<string, Bytes>, disableCache: bool,
                 tags: seq<string>, database: string, forked: bool)
      requires forall b | b in queries :: queries[b].branch == b && Configured(env, queries[b], constLabels)
      ensures Valid() && fresh(Repr())
      ensures this.env == env && this.queries == queries && this.constLabels == constLabels
      ensures this.disableCache == disableCache && id == Identity(tags, database == "pgbouncer", forked)
      ensures collectors == [] && ViewOf() == NewView(database)
    {
      this.env, this.queries, this.constLabels, this.disableCache := env, queries, constLabels, disableCache;
      this.database := database;
      id := Identity(tags, database == "pgbouncer", forked);
      up, version, recovery, username := false, 0, false, "";
      databases, namespaces, extensions := {}, {}, {};
      planned, collectors, failed := false, [], false;
      scrapeBegin, totalCount, errorCount := 0, 0, 0;
      queryScrapeTotalCount, queryScrapeHitCount := map[], map[];
      queryScrapeErrorCount, queryScrapePredicateSkipCount := map[], map[];
      calls := [];
    }

    /* ---------------- precheck ---------------- */

    /** Checks a postgres target and gathers facts; a change of version, recovery or database voids the plan. */
    method PostgresPrecheck(reply: PrecheckReply) returns (err: bool, changes: map<string, bool>)
      requires Fits(reply, false)
      modifies `up, `version, `recovery, `database, `username, `databases, `namespaces, `extensions, `planned
      ensures err <==> PrecheckFails(reply)
      ensures up == !err
      ensures FactsOf() == Observed(old(FactsOf()), reply)
      ensures databases == if reply.Gathered? then ListOf(reply) else old(databases)
      ensures changes == if reply.Gathered? then Discovery.Changes(old(databases), database, ListOf(reply)) else map[]
      ensures planned <==>
                old(planned) && version == old(version) && recovery == old(recovery) && database == old(database)
    {
      hide Discovery.Difference;
      changes := map[];
      if reply.Unreachable? {
        up := false;
        return true, changes;
      }
      var newVersion := if reply.VersionOnly? then reply.version else reply.facts.version;
      up := true;
      if version != newVersion {
        planned := false;
      }
      version := newVersion;
      if reply.VersionOnly? {
        up := false;
        return true, changes;
      }
      var f := reply.facts;
      if recovery != f.recovery {
        planned := false;
      }
      recovery := f.recovery;
      username := f.username;
      if database != f.database {
        planned := false;
      }
      database := f.database;
      databases := databases + {f.database};
      namespaces := f.namespaces;
      extensions := f.extensions;
      changes := DetectDatabaseChange(reply.list);
      err := false;
    }

    /** Compares the new database list with the known one, and takes it over. */
    method DetectDatabaseChange(list: seq<string>) returns (changes: map<string, bool>)
      modifies `databases
      ensures databases == set n | n in list
      ensures changes == Discovery.Difference(old(databases), databases)
    {
      var newDBList: set<string> := {};
      changes := map[];
      for i := 0 to |list|
        invariant newDBList == set n | n in list[..i]
        invariant forall n :: n in changes <==> n in newDBList && n !in databases
        invariant forall n | n in changes :: changes[n]
      {
        newDBList := newDBList + {list[i]};
        if list[i] !in databases {
          changes := changes[list[i] := true];
        }
      }
      assert list[..|list|] == list;
      var rest := databases;
      while rest != {}
        invariant rest <= databases
        invariant forall n :: n in changes <==>
                    (n in newDBList && n !in databases) || (n in databases && n !in rest && n !in newDBList)
        invariant forall n | n in changes :: changes[n] == (n in newDBList)
        decreases rest
      {
        var n :| n in rest;
        rest := rest - {n};
        if n !in newDBList {
          changes := changes[n := false];
        }
      }
      databases := newDBList;
    }

    /** Checks a pgbouncer target; the version comes from the row or else from the notice, zero being none. */
    method PgbouncerPrecheck(reply: PrecheckReply) returns (err: bool)
      requires Fits(reply, true)
      modifies `up, `version, `planned
      ensures err <==> PrecheckFails(reply)
      ensures up == !err
      ensures FactsOf() == Observed(old(FactsOf()), reply)
      ensures planned <==> old(planned) && version == old(version)
    {
      if reply.Unreachable? {
        up := false;
        return true;
      }
      hide Semver.Parsed;
      up := true;
      var newVersion := 0;
      if reply.row.Some? {
        newVersion := Semver.ParseSemver(reply.row.value);
      }
      if newVersion == 0 {
        if |reply.notice| > 0 {
          newVersion := Semver.ParseSemver(reply.notice);
        }
      }
      if newVersion != 0 {
        if version != newVersion {
          planned := false;
        }
        version := newVersion;
      }
      err := false;
    }

    /** The precheck of this server's mode; it keeps a plan that is still current. */
    method Precheck(reply: PrecheckReply) returns (err: bool, changes: map<string, bool>)
      requires Valid() && Fits(reply, id.pgbouncerMode)
      modifies `up, `version, `recovery, `database, `username, `databases, `namespaces, `extensions, `planned
      ensures Valid()
      ensures err <==> PrecheckFails(reply)
      ensures up == !err
      ensures FactsOf() == Observed(old(FactsOf()), reply)
      ensures databases == if reply.Gathered? then ListOf(reply) else old(databases)
      ensures changes == if reply.Gathered? then Discovery.Changes(old(databases), database, ListOf(reply)) else map[]
      ensures planned <==>
                old(planned) && version == old(version) && recovery == old(recovery) && database == old(database)
      ensures ViewOf() == Checked(old(ViewOf()), reply)
      ensures forall t: Server | t != this && old(allocated(t)) :: t.ViewOf() == old(t.ViewOf())
    {
      hide InstancesOf, Observed;
      hide Configurable, Installed, InstallsExactly, ByPriority, StatsAgree, Discovery.Changes, ListOf;
      changes := map[];
      if id.pgbouncerMode {
        err := PgbouncerPrecheck(reply);
      } else {
        err, changes := PostgresPrecheck(reply);
      }
    }

    /* ---------------- statistics ---------------- */

    method ResetStats()
      modifies `queryScrapeTotalCount, `queryScrapeHitCount, `queryScrapeErrorCount,
          `queryScrapePredicateSkipCount, `calls
      ensures StatsAgree() && calls == []
      ensures forall c | c in collectors ::
                && c.q.name in queryScrapeTotalCount && c.q.name in queryScrapeHitCount
                    && c.q.name in queryScrapeErrorCount
                && (c.q.predicates != [] ==> c.q.name in queryScrapePredicateSkipCount)
    {
      queryScrapeTotalCount, queryScrapeHitCount := map[], map[];
      queryScrapeErrorCount, queryScrapePredicateSkipCount := map[], map[];
      calls := [];
      for i := 0 to |collectors|
        invariant calls == []
        invariant AllZero(queryScrapeTotalCount) && AllZero(queryScrapeHitCount)
        invariant AllZero(queryScrapeErrorCount) && AllZero(queryScrapePredicateSkipCount)
        invariant forall k | 0 <= k < i ::
                    && collectors[k].q.name in queryScrapeTotalCount && collectors[k].q.name in queryScrapeHitCount
                    && collectors[k].q.name in queryScrapeErrorCount
                    && (collectors[k].q.predicates != [] ==> collectors[k].q.name in queryScrapePredicateSkipCount)
      {
        hide AllZero;
        var query := collectors[i].q;
        ZeroEntry(queryScrapeTotalCount, query.name);
        ZeroEntry(queryScrapeHitCount, query.name);
        ZeroEntry(queryScrapeErrorCount, query.name);
        ZeroEntry(queryScrapePredicateSkipCount, query.name);
        queryScrapeTotalCount := queryScrapeTotalCount[query.name := 0];
        queryScrapeHitCount := queryScrapeHitCount[query.name := 0];
        queryScrapeErrorCount := queryScrapeErrorCount[query.name := 0];
        if |query.predicates| > 0 {
          queryScrapePredicateSkipCount := queryScrapePredicateSkipCount[query.name := 0];
        }
      }
      ZerosTallyNothing(CountersOf());
    }

    /* ---------------- plan ---------------- */

    /** Plans unless the plan is current. */
    method PlanIfNeeded()
      requires Valid()
      modifies `collectors, `planned, `plannedFacts, `calls
      modifies `queryScrapeTotalCount, `queryScrapeHitCount, `queryScrapeErrorCount, `queryScrapePredicateSkipCount
      ensures Valid() && planned
      ensures old(planned) ==> collectors == old(collectors) && calls == old(calls)
      ensures !old(planned) ==>
                calls == [] && fresh(Instances()) && fresh(Buffers()) && AllNew() && plannedFacts == FactsOf()
    {
      hide Configurable, Installed, InstallsExactly, ByPriority, StatsAgree, OwnsNew;
      if !planned {
        Plan();
      }
    }

    /** Sorting the collectors of a plan keeps it a plan. */
    lemma PlanIsInstalled(instances: seq<Collector>, f: Facts)
      requires Distinct(instances) && Covers(instances, f, queries.Keys) && NoDuplicates(collectors)
      requires forall c | c in instances :: OwnsNew(c)
      requires forall c :: c in collectors <==> c in instances
      ensures Installed() && InstallsExactly(f)
    {
    }

    /** Installs exactly the compatible queries, as new collectors sorted by priority, and resets the statistics. */
    method Plan()
      requires Configurable(queries)
      modifies `collectors, `planned, `plannedFacts, `calls
      modifies `queryScrapeTotalCount, `queryScrapeHitCount, `queryScrapeErrorCount, `queryScrapePredicateSkipCount
      ensures Installed() && planned && plannedFacts == FactsOf() && ByPriority(collectors)
          && InstallsExactly(plannedFacts)
      ensures StatsAgree() && calls == []
      ensures forall c | c in collectors :: fresh(c) && fresh(c.buffer) && OwnsNew(c)
    {
      hide Owns, OwnsNew, Configurable, IsCompatible, Installed, InstallsExactly, ByPriority, Covers, StatsAgree,
          FactsOf, DistinctBuffers;
      var instances := MakeCollectors();
      var sorted := SortByPriority(instances);
      collectors := sorted;
      PlanIsInstalled(instances, FactsOf());
      ResetStats();
      planned := true;
      plannedFacts := FactsOf();
    }

    /** Which branches have a collector, among the branches in `done`. */
    ghost predicate Covers(cs: seq<Collector>, f: Facts, done: set<string>)
      reads `queries
    {
      && (forall c | c in cs :: c.q.branch in done)
      && forall b | b in queries && b in done ::
           IsCompatible(id, f, queries[b]) <==> exists c :: c in cs && c.q.branch == b
    }

    lemma CoverOneMore(cs: seq<Collector>, f: Facts, done: set<string>, c: Collector)
      requires Distinct(cs) && Covers(cs, f, done) && c.q.branch in queries && queries[c.q.branch] == c.q
      requires c.q.branch !in done && IsCompatible(id, f, c.q)
      requires forall d | d in cs :: d != c && d.buffer != c.buffer
      ensures Distinct(cs + [c]) && Covers(cs + [c], f, done + {c.q.branch})
    {
    }

    lemma CoverNoMore(cs: seq<Collector>, f: Facts, done: set<string>, b: string)
      requires Covers(cs, f, done) && b in queries && b !in done && !IsCompatible(id, f, queries[b])
      ensures Covers(cs, f, done + {b})
    {
    }

    /** Adds a collector for one query if it is compatible. */
    method Consider(query: Query, ghost done: set<string>, instances: seq<Collector>) returns (r: seq<Collector>)
      requires query.branch in queries && queries[query.branch] == query && Configured(env, query, constLabels)
      requires query.branch !in done
      requires Distinct(instances) && Covers(instances, FactsOf(), done)
      ensures r == instances || (r != [] && r == instances + [r[|r| - 1]])
      ensures forall c | c in r && c !in instances :: fresh(c) && fresh(c.buffer) && OwnsNew(c)
      ensures Distinct(r) && Covers(r, FactsOf(), done + {query.branch})
    {
      hide IsCompatible, Distinct, Covers, New;
      var ok := Compatible(id, FactsOf(), query);
      if !ok {
        CoverNoMore(instances, FactsOf(), done, query.branch);
        return instances;
      }
      var c := new Collector(this, env, query, constLabels, disableCache);
      CoverOneMore(instances, FactsOf(), done, c);
      r := instances + [c];
    }

    /** Creates a collector for every compatible query, in any order. */
    method MakeCollectors() returns (instances: seq<Collector>)
      requires Configurable(queries)
      ensures forall c | c in instances :: fresh(c) && fresh(c.buffer) && OwnsNew(c)
      ensures Distinct(instances) && Covers(instances, FactsOf(), queries.Keys)
    {
      instances := [];
      var rest := queries.Keys;
      assert Distinct(instances) && Covers(instances, FactsOf(), queries.Keys - rest);
      hide OwnsNew, Configured, Distinct, Covers, FactsOf;
      while rest != {}
        invariant rest <= queries.Keys
        invariant forall c | c in instances :: fresh(c) && fresh(c.buffer) && OwnsNew(c)
        invariant Distinct(instances) && Covers(instances, FactsOf(), queries.Keys - rest)
        decreases rest
      {
        var name :| name in rest;
        assert queries.Keys - (rest - {name}) == queries.Keys - rest + {name};
        instances := Consider(queries[name], queries.Keys - rest, instances);
        rest := rest - {name};
      }
      assert queries.Keys - rest == queries.Keys;
    }

    /* ---------------- scrape ---------------- */

    /** The installed collectors are the units `us`, in the states of p. */
    ghost predicate Tracks(us: seq<Scrape.Unit>, p: Scrape.Progress)
      reads `collectors, collectors, Buffers()
    {
      && |collectors| == |us| == |p.states|
      && (forall j | 0 <= j < |us| ::
            collectors[j].Valid() && collectors[j].q == us[j].q && collectors[j].StateOf() == p.states[j])
    }

    /** The unit's next state is what one call in this scrape makes of its state. */
    ghost predicate Foretells(u: Scrape.Unit, oracle: Oracle)
      reads `scrapeBegin
    {
      && Matches(u.q, oracle(u.q.branch)) && |u.st.cache| == |u.q.predicates|
      && u.next == CollectorSpec.Collect(Setup(env, u.q, constLabels, disableCache), u.st, scrapeBegin,
          oracle(u.q.branch))
    }

    ghost predicate Foretold(us: seq<Scrape.Unit>, oracle: Oracle)
      reads `scrapeBegin
    {
      forall j | 0 <= j < |us| :: Foretells(us[j], oracle)
    }

    /** What each installed collector is, and what one call would make of it. */
    lemma MakeUnits(oracle: Oracle) returns (us: seq<Scrape.Unit>)
      requires Installed() && Answered(queries, oracle)
      ensures Foretold(us, oracle) && Scrape.AllReady(us) && Tracks(us, Scrape.Initial(us))
    {
      hide CollectorSpec.Collect;
      us := [];
      while |us| < |collectors|
        invariant |us| <= |collectors| && Foretold(us, oracle) && Scrape.AllReady(us)
        invariant forall j | 0 <= j < |us| ::
                    collectors[j].Valid() && us[j].q == collectors[j].q && us[j].st == collectors[j].StateOf()
      {
        var u := MakeUnit(collectors[|us|], oracle);
        us := us + [u];
      }
    }

    lemma MakeUnit(c: Collector, oracle: Oracle) returns (u: Scrape.Unit)
      requires Owns(c) && Matches(c.q, oracle(c.q.branch))
      ensures Foretells(u, oracle) && Scrape.Ready(u) && u.q == c.q && u.st == c.StateOf()
    {
      u := Scrape.Unit(c.q, c.StateOf(),
        CollectorSpec.Collect(
          Setup(env, c.q, constLabels, disableCache), c.StateOf(), scrapeBegin, oracle(c.q.branch)));
    }

    /** Calls one collector and updates the counters of its name. */
    method ExecuteQuery(query: Collector, oracle: Oracle) returns (sent: seq<Metric>, err: bool)
      requires query.Valid() && Matches(query.q, oracle(query.q.branch)) && StatsAgree()
      modifies `queryScrapeTotalCount, `queryScrapeHitCount, `queryScrapeErrorCount, `queryScrapePredicateSkipCount
      modifies `calls, query, query.buffer
      ensures query.Valid() && (query.buffer == old(query.buffer) || fresh(query.buffer))
      ensures query.StateOf()
              == CollectorSpec.Collect(query.SetupOf(), old(query.StateOf()), scrapeBegin, oracle(query.q.branch))
      ensures sent == query.StateOf().result && err == query.StateOf().failed
      ensures StatsAgree() && calls == old(calls) + [RecordOf(query.q, query.StateOf())]
    {
      hide CollectorSpec.Collect, StatsAgree, Matches;
      sent := query.Collect(scrapeBegin, oracle(query.q.branch));
      err := UpdateStats(query);
    }

    method UpdateStats(query: Collector) returns (err: bool)
      requires query.Valid() && StatsAgree()
      modifies `queryScrapeTotalCount, `queryScrapeHitCount, `queryScrapeErrorCount, `queryScrapePredicateSkipCount
      modifies `calls
      ensures err == query.failed
      ensures StatsAgree() && calls == old(calls) + [RecordOf(query.q, query.StateOf())]
    {
      hide Tallies, Increment;
      ghost var r := RecordOf(query.q, query.StateOf());
      RecordKeepsTallies(CountersOf(), calls, r);
      calls := calls + [r];
      var name := query.q.name;
      queryScrapeTotalCount := Increment(queryScrapeTotalCount, name);
      if query.failed {
        queryScrapeErrorCount := Increment(queryScrapeErrorCount, name);
        return true;
      }
      if query.cacheHit {
        queryScrapeHitCount := Increment(queryScrapeHitCount, name);
      }
      if |query.q.predicates| > 0 {
        if query.predicateSkip != "" {
          queryScrapePredicateSkipCount := Increment(queryScrapePredicateSkipCount, name);
        }
      }
      err := false;
    }

    /** If collector i alone has changed, to an unshared buffer, the collectors are still installed. */
    lemma OneStepKeepsInstalled(i: nat, buffers: seq<array<Metric>>)
      requires (forall c | c in collectors :: Places(c)) && DistinctBranches(collectors)
      requires i < |collectors| == |buffers|
      requires forall j | 0 <= j < |collectors| :: collectors[j].Valid()
      requires forall j | 0 <= j < |collectors| && j != i :: collectors[j].buffer == buffers[j]
      requires forall j, k | 0 <= j < k < |buffers| :: buffers[j] != buffers[k]
      requires collectors[i].buffer == buffers[i] || collectors[i].buffer !in buffers
      ensures Installed() && forall b | b in Buffers() :: b == collectors[i].buffer || b in buffers
    {
      hide Collector.Valid, Places, DistinctBranches;
      forall c, d | c in collectors && d in collectors && c != d ensures c.buffer != d.buffer {
        var j :| 0 <= j < |collectors| && collectors[j] == c;
        var k :| 0 <= k < |collectors| && collectors[k] == d;
      }
    }

    /** And if it has moved on by one call, so has the tracked progress. */
    lemma OneStepTracks(us: seq<Scrape.Unit>, p: Scrape.Progress, i: nat)
      requires |collectors| == |us| == |p.states| && i < |us|
      requires forall j | 0 <= j < |us| :: collectors[j].Valid() && collectors[j].q == us[j].q
      requires forall j | 0 <= j < |us| && j != i :: collectors[j].StateOf() == p.states[j]
      requires collectors[i].StateOf() == us[i].next
      ensures Tracks(us, Scrape.RunOne(us, p, i))
    {
    }

    /** During a scrape of the units `us` with progress p; `base` are the calls before it. */
    ghost predicate Scraping(us: seq<Scrape.Unit>, p: Scrape.Progress, base: seq<CallRecord>)
      reads this, collectors, Buffers()
    {
      && Installed() && Tracks(us, p)
      && StatsAgree() && calls == base + RecordsOf(us, p.ran)
    }

    lemma UnitsAreInstalled(us: seq<Scrape.Unit>, p: Scrape.Progress, base: seq<CallRecord>)
      requires Scraping(us, p, base)
      ensures |us| == |collectors| && forall j | 0 <= j < |us| :: us[j].q == collectors[j].q
    {
    }

    /** Runs installed collector i, which has not run in this scrape. */
    method RunInstalled(i: nat, oracle: Oracle, ghost us: seq<Scrape.Unit>, ghost p: Scrape.Progress,
        ghost base: seq<CallRecord>)
      returns (sent: seq<Metric>, err: bool)
      requires Scraping(us, p, base)
      requires i < |us| && p.states[i] == us[i].st && Foretells(us[i], oracle)
      modifies `queryScrapeTotalCount, `queryScrapeHitCount, `queryScrapeErrorCount, `queryScrapePredicateSkipCount
      modifies `calls, Instances(), Buffers()
      ensures Scraping(us, Scrape.RunOne(us, p, i), base)
      ensures forall b | b in Buffers() :: b in old(Buffers()) || fresh(b)
      ensures sent == us[i].next.result && err == us[i].next.failed
    {
      hide CollectorSpec.Collect, StatsAgree, DistinctBranches, DistinctBuffers, Matches;
      hide BufferList, RecordOf, RecordsOf;
      hide Collector.Valid, Collector.StateOf;
      var query := collectors[i];
      ghost var buffers := BufferList(collectors);
      ListedBuffersDiffer(collectors);
      assert Owns(query) && query.StateOf() == us[i].st;
      sent, err := ExecuteQuery(query, oracle);
      assert query.buffer == buffers[i] || query.buffer !in buffers;
      OneStepKeepsInstalled(i, buffers);
      OneStepTracks(us, p, i);
      OneMoreRecord(us, p.ran, i);
    }

    /** The first pass: fatal collectors, stopping at the first failure. */
    method CollectFatalQueries(oracle: Oracle, ghost us: seq<Scrape.Unit>, ghost base: seq<CallRecord>)
      returns (sent: seq<Metric>, err: bool, ghost p: Scrape.Progress)
      requires Scraping(us, Scrape.Initial(us), base) && Foretold(us, oracle)
      modifies `queryScrapeTotalCount, `queryScrapeHitCount, `queryScrapeErrorCount, `queryScrapePredicateSkipCount
      modifies `calls, Instances(), Buffers()
      ensures p == Scrape.FatalPass(us, |us|) && sent == p.sent && err == p.failed
      ensures Scraping(us, p, base) && (forall b | b in Buffers() :: b in old(Buffers()) || fresh(b))
    {
      hide Scraping, Foretells, Scrape.RunOne, Instances, Buffers;
      UnitsAreInstalled(us, Scrape.Initial(us), base);
      sent, err, p := [], false, Scrape.Initial(us);
      for i := 0 to |collectors|
        invariant Scraping(us, p, base) && (forall b | b in Buffers() :: b in old(Buffers()) || fresh(b))
        invariant p == Scrape.FatalPass(us, i)
        invariant sent == p.sent && !p.failed
      {
        if !collectors[i].q.fatal {
          continue;
        }
        Scrape.FatalPassLeavesLater(us, i, i);
        Scrape.RunOneSends(us, p, i);
        var part, e := RunInstalled(i, oracle, us, p, base);
        p := Scrape.RunOne(us, p, i);
        sent := sent + part;
        if e {
          Scrape.FailedPassStays(us, i + 1, |us|);
          return sent, true, p;
        }
      }
    }

    /** The second pass: the other collectors, whatever fails. */
    method CollectNonFatalQueries(
      oracle: Oracle, already: seq<Metric>, ghost us: seq<Scrape.Unit>, ghost start: Scrape.Progress,
          ghost base: seq<CallRecord>)
      returns (sent: seq<Metric>, ghost p: Scrape.Progress)
      requires |start.states| == |us| && Scraping(us, start, base) && Foretold(us, oracle) && already == start.sent
      requires forall j | 0 <= j < |us| && !Scrape.IsFatal(us[j]) :: start.states[j] == us[j].st
      modifies `queryScrapeTotalCount, `queryScrapeHitCount, `queryScrapeErrorCount, `queryScrapePredicateSkipCount
      modifies `calls, Instances(), Buffers()
      ensures p == Scrape.NonFatalPass(us, start, |us|) && sent == p.sent
      ensures Scraping(us, p, base) && (forall b | b in Buffers() :: b in old(Buffers()) || fresh(b))
    {
      hide Scraping, Foretells, Scrape.RunOne, Instances, Buffers;
      UnitsAreInstalled(us, start, base);
      sent, p := already, start;
      for i := 0 to |collectors|
        invariant Scraping(us, p, base) && (forall b | b in Buffers() :: b in old(Buffers()) || fresh(b))
        invariant p == Scrape.NonFatalPass(us, start, i)
        invariant sent == p.sent
      {
        if collectors[i].q.fatal {
          continue;
        }
        Scrape.NonFatalPassLeavesLater(us, start, i, i);
        Scrape.RunOneSends(us, p, i);
        var part, e := RunInstalled(i, oracle, us, p, base);
        ghost var next := Scrape.RunOne(us, p, i);
        FailureIsNotProgress(us, next, base, p.failed);
        p := next.(failed := p.failed);
        sent := sent + part;
      }
    }

    lemma FailureIsNotProgress(us: seq<Scrape.Unit>, p: Scrape.Progress, base: seq<CallRecord>, failed: bool)
      requires Scraping(us, p, base)
      ensures Scraping(us, p.(failed := failed), base)
    {
    }

    /** Precheck, and a plan if the facts changed. */
    method Prepare(begin: int, reply: PrecheckReply) returns (err: bool, changes: map<string, bool>)
      requires Valid() && Fits(reply, id.pgbouncerMode)
      modifies this
      ensures Valid() && queries == old(queries) && scrapeBegin == begin
      ensures totalCount == old(totalCount) && errorCount == old(errorCount)
      ensures err <==> PrecheckFails(reply)
      ensures FactsOf() == Observed(old(FactsOf()), reply)
      ensures databases == if reply.Gathered? then ListOf(reply) else old(databases)
      ensures changes == if reply.Gathered? then Discovery.Changes(old(databases), database, ListOf(reply)) else map[]
      ensures err ==> collectors == old(collectors) && calls == old(calls)
      ensures var kept := old(planned) && version == old(version) && recovery == old(recovery)
          && database == old(database);
              !err ==>
                && planned
                && (kept ==> collectors == old(collectors) && calls == old(calls))
                && (!kept ==>
                      && calls == [] && fresh(Instances()) && fresh(Buffers()) && AllNew()
                      && plannedFacts == FactsOf())
      ensures forall c | c in Instances() :: c in old(Instances()) || fresh(c)
      ensures forall b | b in Buffers() :: b in old(Buffers()) || fresh(b)
    {
      hide Valid, AllNew, Observed, ListOf, Discovery.Changes, FactsOf;
      scrapeBegin := begin;
      err, changes := Precheck(reply);
      if !err {
        PlanIfNeeded();
      }
    }

    /** The reload of this server: the new query set, no collectors, no plan, zeroed statistics. */
    method ApplyReload(newQueries: map<string, Query>)
      requires Valid() && Configurable(newQueries)
      modifies `queries, `collectors, `planned, `calls
      modifies `queryScrapeTotalCount, `queryScrapeHitCount, `queryScrapeErrorCount, `queryScrapePredicateSkipCount
      ensures Valid() && queries == newQueries && collectors == [] && !planned && calls == []
      ensures ViewOf() == Reloaded(old(ViewOf()))
    {
      hide Configurable, StatsAgree, InstancesOf, InstallsExactly, ByPriority, FactsOf;
      queries := newQueries;
      collectors := [];
      planned := false;
      ResetStats();
    }

    /** Both passes, from the current state of the installed collectors. */
    method RunPasses(oracle: Oracle)
        returns (sent: seq<Metric>, err: bool, ghost us: seq<Scrape.Unit>, ghost p: Scrape.Progress)
      requires Installed() && Answered(queries, oracle) && StatsAgree()
      modifies `queryScrapeTotalCount, `queryScrapeHitCount, `queryScrapeErrorCount, `queryScrapePredicateSkipCount
      modifies `calls, Instances(), Buffers()
      ensures Scrape.AllReady(us) && Foretold(us, oracle) && old(Tracks(us, Scrape.Initial(us)))
      ensures old(AllNew()) ==> forall u | u in us :: u.st == New(u.q)
      ensures p == Scrape.Run(us) && sent == p.sent && err == p.failed
      ensures Scraping(us, p, old(calls)) && (forall b | b in Buffers() :: b in old(Buffers()) || fresh(b))
    {
      hide Scraping, Installed, Foretold, Tracks, StatsAgree, AllNew;
      us := MakeUnits(oracle);
      StartScraping(us);
      sent, err, p := CollectFatalQueries(oracle, us, calls);
      if !err {
        forall j | 0 <= j < |us| && !Scrape.IsFatal(us[j]) ensures p.states[j] == us[j].st {
          Scrape.FatalPassLeavesOthers(us, |us|, j);
        }
        sent, p := CollectNonFatalQueries(oracle, sent, us, p, old(calls));
      }
    }

    lemma StartScraping(us: seq<Scrape.Unit>)
      requires Installed() && Tracks(us, Scrape.Initial(us)) && StatsAgree()
      ensures Scraping(us, Scrape.Initial(us), calls)
      ensures AllNew() ==> forall u | u in us :: u.st == New(u.q)
    {
      hide Installed, StatsAgree;
      if AllNew() {
        forall j | 0 <= j < |us| ensures us[j].st == New(us[j].q) {
          assert OwnsNew(collectors[j]);
        }
      }
    }

    /**
     One scrape: precheck, plan if the facts changed, and the two passes. A failed precheck sends nothing and
     leaves every collector alone. `us` are the installed collectors before the passes and p what the passes did.
     */
    method Collect(begin: int, reply: PrecheckReply, oracle: Oracle)
      returns (sent: seq<Metric>, changes: map<string, bool>, ghost us: seq<Scrape.Unit>, ghost p: Scrape.Progress)
      requires Valid() && Fits(reply, id.pgbouncerMode) && Answered(queries, oracle)
      modifies this, Instances(), Buffers()
      ensures Valid() && queries == old(queries) && scrapeBegin == begin
      ensures forall c | c in Instances() :: c in old(Instances()) || fresh(c)
      ensures forall b | b in Buffers() :: b in old(Buffers()) || fresh(b)
      ensures FactsOf() == Observed(old(FactsOf()), reply)
      ensures databases == if reply.Gathered? then ListOf(reply) else old(databases)
      ensures changes == if reply.Gathered? then Discovery.Changes(old(databases), database, ListOf(reply)) else map[]
      ensures PrecheckFails(reply) ==>
                && failed && sent == [] && us == [] && p == Scrape.Initial([]) && calls == old(calls)
                && collectors == old(collectors) && InstancesOf(collectors) == old(InstancesOf(collectors))
      ensures !PrecheckFails(reply) ==>
                && planned && Scrape.AllReady(us) && Foretold(us, oracle)
                && p == Scrape.Run(us) && Tracks(us, p) && sent == p.sent && failed == p.failed
      ensures var kept := old(planned) && version == old(version) && recovery == old(recovery)
          && database == old(database);
              !PrecheckFails(reply) ==>
                && (kept ==> collectors == old(collectors) && old(Tracks(us, Scrape.Initial(us))))
                && (!kept ==> plannedFacts == FactsOf() && forall u | u in us :: u.st == New(u.q))
                && calls == (if kept then old(calls) else []) + RecordsOf(us, p.ran)
      ensures up == !failed && totalCount == old(totalCount) + 1
      ensures errorCount == old(errorCount) + (if failed then 1 else 0)
    {
      hide Valid, Configurable, PlanCurrent, Installed, StatsAgree, Tracks, Scraping, Foretold, RecordsOf, Answered;
      hide Observed, ListOf, Discovery.Changes, Scrape.Run, Scrape.AllReady, AllNew, InstancesOf;
      sent, us, p := [], [], Scrape.Initial([]);
      var err;
      err, changes := Prepare(begin, reply);
      if err {
        Finish(true);
      } else {
        sent, us, p := ScrapeInstalled(oracle);
      }
    }

    method ScrapeInstalled(oracle: Oracle)
        returns (sent: seq<Metric>, ghost us: seq<Scrape.Unit>, ghost p: Scrape.Progress)
      requires Valid() && Answered(queries, oracle)
      modifies `queryScrapeTotalCount, `queryScrapeHitCount, `queryScrapeErrorCount, `queryScrapePredicateSkipCount
      modifies `calls, Instances(), Buffers()
      modifies `failed, `up, `totalCount, `errorCount
      ensures Valid() && (forall b | b in Buffers() :: b in old(Buffers()) || fresh(b))
      ensures Scrape.AllReady(us) && Foretold(us, oracle) && old(Tracks(us, Scrape.Initial(us)))
      ensures old(AllNew()) ==> forall u | u in us :: u.st == New(u.q)
      ensures p == Scrape.Run(us) && Tracks(us, p) && sent == p.sent && failed == p.failed
      ensures calls == old(calls) + RecordsOf(us, p.ran)
      ensures up == !failed && totalCount == old(totalCount) + 1
      ensures errorCount == old(errorCount) + (if failed then 1 else 0)
    {
      hide Configurable, PlanCurrent, Installed, StatsAgree, Tracks, Foretold, RecordsOf, Answered, Scrape.Run,
          Scrape.AllReady, AllNew;
      var err;
      sent, err, us, p := RunPasses(oracle);
      ghost var buffers := Buffers();
      Finish(err);
      assert Buffers() == buffers;
    }

    /** Records the outcome of a scrape. */
    method Finish(err: bool)
      requires Valid()
      modifies `failed, `up, `totalCount, `errorCount
      ensures Valid()
      ensures failed == err && up == !err && totalCount == old(totalCount) + 1
      ensures errorCount == old(errorCount) + (if err then 1 else 0)
    {
      hide Configurable, PlanCurrent, Installed, StatsAgree;
      failed := err;
      totalCount := totalCount + 1;
      if err {
        up := false;
        errorCount := errorCount + 1;
      } else {
        up := true;
      }
    }

    /**
     What a scrape of a planned server ran over: queries of the current set, one unit per branch, and on a forked
     server no cluster-level query.
     */
    lemma ScrapedUnits(us: seq<Scrape.Unit>, p: Scrape.Progress)
      requires Valid() && planned && Tracks(us, p)
      ensures FromQueries(us, queries) && DistinctUnits(us) && (id.forked ==> NoClusterUnits(us))
      ensures InPriorityOrder(us)
    {
      hide IsCompatible;
      forall j | 0 <= j < |us|
        ensures us[j].q.branch in queries && queries[us[j].q.branch] == us[j].q
        ensures id.forked ==> "cluster" !in us[j].q.tags
      {
        var c := collectors[j];
        assert c in collectors && Owns(c);
        if id.forked && "cluster" in c.q.tags {
          ClusterQueriesSkipForkedServers(id, plannedFacts, c.q);
        }
      }
    }

    /** In a state that tracks the units, the instances are the units. */
    lemma TrackedInstances(us: seq<Scrape.Unit>, p: Scrape.Progress)
      requires Tracks(us, p)
      ensures Seats(ViewOf().installed, us, p.states)
    {
      hide Collector.Valid, Collector.StateOf;
    }

    /** A new plan has a unit for exactly the compatible queries. */
    lemma NewPlanIsExact(us: seq<Scrape.Unit>, p: Scrape.Progress)
      requires Valid() && planned && plannedFacts == FactsOf() && Tracks(us, p)
      ensures PlansExactly(SettingsOf(), FactsOf(), us)
    {
      hide IsCompatible, Installed, StatsAgree, Collector.Valid, Collector.StateOf;
      forall b | b in queries
        ensures IsCompatible(id, FactsOf(), queries[b]) <==> exists j :: 0 <= j < |us| && us[j].q.branch == b
      {
        if c :| c in collectors && c.q.branch == b {
          var j :| 0 <= j < |collectors| && collectors[j] == c;
          assert us[j].q.branch == b;
        } else {
          assert forall j | 0 <= j < |us| :: us[j].q == collectors[j].q && collectors[j] in collectors;
        }
      }
    }

    lemma ForetoldUnits(us: seq<Scrape.Unit>, v: Visit)
      requires Foretold(us, v.oracle) && scrapeBegin == v.begin
      ensures forall j | 0 <= j < |us| :: Visits.Foretold(SettingsOf(), v, us[j])
    {
      hide CollectorSpec.Collect;
      forall j | 0 <= j < |us| ensures Visits.Foretold(SettingsOf(), v, us[j]) {
        assert Foretells(us[j], v.oracle);
      }
    }

    /** One visit of the exporter: a scrape, as a relation between the server before and after it. */
    method Serve(v: Visit, ghost name: Option<string>)
      returns (sent: seq<Metric>, changes: map<string, bool>, ghost log: ScrapeLog)
      requires Valid() && Fits(v.reply, id.pgbouncerMode) && Answered(queries, v.oracle)
      modifies this, Instances(), Buffers()
      ensures Valid() && queries == old(queries)
      ensures forall c | c in Instances() :: c in old(Instances()) || fresh(c)
      ensures forall b | b in Buffers() :: b in old(Buffers()) || fresh(b)
      ensures Scraped(SettingsOf(), old(ViewOf()), ViewOf(), v, log)
      ensures log.name == name && sent == log.p.sent && changes == ChangesOf(old(ViewOf()), v.reply)
    {
      hide Valid, Tracks, Answered, RecordsOf, Scrape.Run, Scrape.AllReady, Observed, ListOf, Discovery.Changes;
      hide Foretold, Visits.Foretold, FromQueries, DistinctUnits, NoClusterUnits, PlansExactly, Seats, InstancesOf;
      hide InPriorityOrder;
      ghost var before := ViewOf();
      forall us | Tracks(us, Scrape.Initial(us)) ensures Seats(before.installed, us, Scrape.Initial(us).states) {
        TrackedInstances(us, Scrape.Initial(us));
      }
      ghost var us, p;
      sent, changes, us, p := Collect(v.begin, v.reply, v.oracle);
      log := ScrapeLog(name, id.forked, us, p);
      ObservedDatabase(before.facts, v.reply);
      if PrecheckFails(v.reply) {
        NothingRuns(log, queries);
      } else {
        ScrapedUnits(us, p);
        TrackedInstances(us, p);
        ForetoldUnits(us, v);
        if !KeepsPlan(before, ViewOf()) {
          NewPlanIsExact(us, p);
        }
      }
    }
  }
}
