/** The exporter: its primary and discovered servers, discovery, scrape and reload. */
module Exporters {
  import opened ClusterLaw
  import opened Collectors
  import opened CollectorSpec
  import opened Core
  import Discovery
  import Loading
  import opened Planning
  import opened Schema
  import opened Servers
  import opened Snapshot
  import opened Visits

  /** A precheck as auto-discovery sees it: only one that completes on a postgres target brings a database list. */
  function PrecheckOf(reply: PrecheckReply): Discovery.Precheck {
    if reply.Gathered? then Discovery.Learned(reply.facts.database, ListOf(reply)) else Discovery.Failed
  }

  /** The database was listed before, or is the connected one, exactly if it is listed now. */
  predicate Unchanged(databases: set<string>, reply: PrecheckReply, n: string) {
    reply.Gathered? ==> (n in ListOf(reply) <==> n in databases || n == reply.facts.database)
  }

  /** Which names a change notification of the primary server mentions. */
  lemma ChangedNames(databases: set<string>, name: string, reply: PrecheckReply)
    requires reply.Gathered? && name == reply.facts.database
    ensures forall n :: n in Discovery.Changes(databases, name, ListOf(reply)) <==> !Unchanged(databases, reply, n)
  {
  }

  class Exporter {
    const env: Env
    const constLabels: map<string, Bytes>
    const disableCache: bool
    const disableIntro: bool
    const tags: seq<string>
    const autoDiscovery: bool
    const filter: Discovery.Filter
    const server: Server

    var queries: map<string, Query>
    var servers: map<string, Server>

    /** The primary server and some discovered ones. */
    ghost function With(discovered: map<string, Server>): set<Server> {
      {server} + discovered.Values
    }

    ghost function All(): set<Server>
      reads `servers
    {
      With(servers)
    }

    ghost predicate SameSettings(s: Server) {
      s.env == env && s.constLabels == constLabels && s.disableCache == disableCache && s.id.tags == tags
    }

    /** The settings of a server that serves this exporter. */
    ghost function SettingsFor(s: Server): Settings
      reads `queries
    {
      Settings(env, constLabels, disableCache, s.id, queries)
    }

    /** A server holds the exporter's current settings and query set. */
    ghost predicate Serves(s: Server)
      reads `queries, s, s.collectors
    {
      && s.Valid()
      && s.queries == queries && SameSettings(s)
    }

    /** No two servers share a result buffer. */
    ghost predicate Apart(all: set<Server>)
      reads *
    {
      forall s, t | s in all && t in all && s != t :: s.Buffers() !! t.Buffers()
    }

    /** The servers are pairwise different, and exactly the discovered ones are forked. */
    ghost predicate Registered(discovered: map<string, Server>) {
      && !server.id.forked
      && (forall n | n in discovered :: IsForkedFor(discovered[n], n))
      && (forall m, n | m in discovered && n in discovered && m != n :: discovered[m] != discovered[n])
    }

    ghost predicate IsForkedFor(s: Server, name: string) {
      s != server && s.id.forked && (s.id.pgbouncerMode <==> name == "pgbouncer")
    }

    ghost predicate QueriesConfigured()
      reads `queries
    {
      forall b | b in queries :: queries[b].branch == b && Configured(env, queries[b], constLabels)
    }

    ghost function AllCollectors(): set<Collector>
      reads *
    {
      set s, c | s in All() && c in s.Instances() :: c
    }

    ghost function AllBuffers(): set<array<Metric>>
      reads *
    {
      set s, b | s in All() && b in s.Buffers() :: b
    }

    /** The constant labels are validated when the exporter starts. */
    ghost predicate SettingsValid() {
      env.Valid() && forall l | l in constLabels :: env.validLabelName(l)
    }

    ghost predicate AllServe()
      reads *
    {
      SettingsValid() && QueriesConfigured() && Registered(servers) && forall s | s in All() :: Serves(s)
    }

    ghost predicate Valid()
      reads *
    {
      AllServe() && Apart(All())
    }

    constructor (env: Env, queries: map<string, Query>, constLabels: map<string, Bytes>, disableCache: bool,
                 disableIntro: bool, tags: seq<string>, database: string, autoDiscovery: bool,
                 filter: Discovery.Filter)
      requires env.Valid() && forall l | l in constLabels :: env.validLabelName(l)
      requires forall b | b in queries :: queries[b].branch == b && Configured(env, queries[b], constLabels)
      ensures Valid() && this.queries == queries && servers == map[] && fresh(server)
      ensures this.env == env && this.constLabels == constLabels && this.disableCache == disableCache
      ensures this.disableIntro == disableIntro && this.autoDiscovery == autoDiscovery && this.filter == filter
      ensures server.id == Identity(tags, database == "pgbouncer", false)
      ensures server.ViewOf() == NewView(database) && DiscoveryState() == Discovery.Run(filter, database, [])
      ensures AllCollectors() == {} && AllBuffers() == {}
    {
      hide Server.Valid;
      this.env, this.queries, this.constLabels, this.disableCache := env, queries, constLabels, disableCache;
      this.disableIntro, this.tags, this.autoDiscovery, this.filter := disableIntro, tags, autoDiscovery, filter;
      server := new Server(env, queries, constLabels, disableCache, tags, database, false);
      servers := map[];
      new;
      hide AllServe, Apart;
      assert Serves(server);
      server.ViewParts();
      OnlyThePrimary();
    }

    lemma OnlyThePrimary()
      requires servers == map[] && SettingsValid() && QueriesConfigured() && !server.id.forked && Serves(server)
      requires server.collectors == []
      ensures Valid() && AllCollectors() == {} && AllBuffers() == {}
    {
      hide Serves, QueriesConfigured;
      assert servers.Values == {};
    }

    /* ---------------- discovery ---------------- */

    /** Spawns a server for a database. */
    method CreateServer(dbname: string)
      requires Valid()
      modifies `servers
      ensures Valid()
      ensures servers.Keys == old(servers.Keys) + {dbname} && fresh(servers[dbname])
      ensures servers[dbname].collectors == [] && servers[dbname].ViewOf() == NewView(dbname)
      ensures forall n | n in servers && n != dbname :: servers[n] == old(servers)[n]
      ensures forall s: Server | old(allocated(s)) :: s.ViewOf() == old(s.ViewOf())
    {
      hide Serves, QueriesConfigured, Server.Buffers, Server.Valid;
      ghost var before := servers;
      var newServer := NewServer(dbname);
      servers := servers[dbname := newServer];
      ServerAdded(before, dbname, newServer);
    }

    method NewServer(dbname: string) returns (s: Server)
      requires QueriesConfigured()
      ensures fresh(s) && IsForkedFor(s, dbname) && Serves(s) && s.collectors == [] && s.ViewOf() == NewView(dbname)
    {
      s := new Server(env, queries, constLabels, disableCache, tags, dbname, true);
    }

    lemma ServerAdded(before: map<string, Server>, dbname: string, s: Server)
      requires SettingsValid() && QueriesConfigured() && Registered(before) && Apart(With(before))
      requires forall t | t in With(before) :: Serves(t)
      requires servers == before[dbname := s] && s !in With(before)
      requires IsForkedFor(s, dbname) && Serves(s) && s.collectors == []
      ensures Valid()
    {
      hide Serves, QueriesConfigured;
      assert s.Buffers() == {};
      hide Server.Buffers;
      forall t | t in All() ensures t in With(before) || t == s {
      }
    }

    /** Destroys the server of a database, if there is one. */
    method RemoveServer(dbname: string)
      requires Valid()
      modifies `servers
      ensures Valid()
      ensures servers == map n | n in old(servers) && n != dbname :: old(servers)[n]
      ensures forall s: Server | old(allocated(s)) :: s.ViewOf() == old(s.ViewOf())
    {
      hide Serves, QueriesConfigured, Server.Buffers, Server.Valid;
      servers := map n | n in servers && n != dbname :: servers[n];
    }

    /** The server of n is not one of the earlier servers. */
    ghost predicate IsNew(before: map<string, Server>, n: string)
      reads `servers
    {
      n in servers && !(n in before && servers[n] == before[n])
    }

    /** The server of n has just been created. */
    ghost predicate NewFor(n: string)
      requires n in servers
      reads `servers, servers[n], servers[n].collectors, servers[n].Buffers()
    {
      servers[n].collectors == [] && servers[n].ViewOf() == NewView(n)
    }

    /** Applies a change notification of the primary server, in any order. */
    method OnDatabaseChange(changes: map<string, bool>)
      requires Valid()
      modifies `servers
      ensures Valid()
      ensures servers.Keys == Discovery.Notified(filter, old(servers.Keys), server.database, changes)
      ensures forall n | n in servers :: IsNew(old(servers), n) ==> NewFor(n) && fresh(servers[n])
      ensures forall n | n in servers && n in old(servers) && n !in changes :: servers[n] == old(servers)[n]
      ensures forall s: Server | old(allocated(s)) :: s.ViewOf() == old(s.ViewOf())
    {
      hide Valid, Server.ViewOf;
      var rest := changes.Keys;
      while rest != {}
        invariant rest <= changes.Keys && Valid()
        invariant forall n :: n in servers <==>
                    if n in changes && n !in rest && n != server.database && filter.Eligible(n) then changes[n]
                    else n in old(servers)
        invariant forall n | n in servers :: IsNew(old(servers), n) ==> NewFor(n) && fresh(servers[n])
        invariant forall n | n in servers && n in old(servers) && (n in rest || n !in changes) ::
            servers[n] == old(servers)[n]
        invariant forall s: Server | old(allocated(s)) :: s.ViewOf() == old(s.ViewOf())
        decreases rest
      {
        var dbname :| dbname in rest;
        rest := rest - {dbname};
        var add := changes[dbname];
        if dbname == server.database {
          continue;
        }
        if dbname in filter.excluded {
          continue;
        }
        if |filter.included| > 0 {
          if dbname !in filter.included {
            continue;
          }
        }
        if add {
          CreateServer(dbname);
        } else {
          RemoveServer(dbname);
        }
      }
    }

    /* ---------------- scrape ---------------- */

    lemma CollectorsAreNotShared(s: Server, t: Server)
      requires Serves(s) && Serves(t) && s != t
      ensures forall c | c in t.collectors :: c !in s.Instances()
    {
    }

    lemma BuffersAreAllocated(s: Server)
      ensures forall b | b in s.Buffers() :: allocated(b)
    {
    }

    /** If one server alone has moved, to buffers of its own, the servers still share none. */
    lemma StillApart(all: set<Server>, s: Server, before: map<Server, set<array<Metric>>>)
      requires s in all && before.Keys == all
      requires forall t, u | t in all && u in all && t != u :: before[t] !! before[u]
      requires forall t | t in all && t != s :: t.Buffers() == before[t]
      requires forall b, t | b in s.Buffers() && t in all && b !in before[s] :: b !in before[t]
      ensures Apart(all)
    {
    }

    /** Nothing of one server is part of another. */
    ghost predicate Separate(s: Server, t: Server)
      reads s, t, s.collectors, t.collectors
    {
      s.Instances() !! t.Instances() && s.Buffers() !! t.Buffers()
    }

    lemma ValidServes()
      requires Valid()
      ensures AllServe()
    {
    }

    lemma ServersAreSeparate(s: Server, t: Server)
      requires Valid() && s in All() && t in All() && s != t
      ensures Separate(s, t)
    {
      CollectorsAreNotShared(s, t);
    }

    /** A scrape of one server is one of its steps, and changes nothing of the others. */
    method CollectFrom(s: Server, v: Visit, ghost name: Option<string>)
      returns (sent: seq<Metric>, changes: map<string, bool>, ghost log: ScrapeLog)
      requires Valid() && s in All() && Fits(v.reply, s.id.pgbouncerMode) && Answered(queries, v.oracle)
      modifies s, s.Instances(), s.Buffers()
      ensures AllServe()
      ensures forall t | t in old(All()) && t != s ::
                && t.ViewOf() == old(t.ViewOf())
                && t.Instances() == old(t.Instances()) && t.Buffers() == old(t.Buffers())
      ensures forall c | c in s.Instances() :: c in old(s.Instances()) || fresh(c)
      ensures forall b | b in s.Buffers() :: b in old(s.Buffers()) || fresh(b)
      ensures Scraped(SettingsFor(s), old(s.ViewOf()), s.ViewOf(), v, log)
      ensures log.name == name && sent == log.p.sent && changes == ChangesOf(old(s.ViewOf()), v.reply)
    {
      hide Valid, Server.Valid, Server.ViewOf, Scraped, Answered, QueriesConfigured, Registered, ChangesOf;
      forall t | t in All() && t != s ensures Separate(s, t) {
        ServersAreSeparate(s, t);
      }
      ValidServes();
      sent, changes, log := s.Serve(v, name);
    }

    lemma OneServerChanged(s: Server, collectors: set<Collector>, buffers: map<Server, set<array<Metric>>>)
      requires s in All() && buffers.Keys == All()
      requires forall t | t in All() && t != s :: t.Instances() <= collectors && t.Buffers() == buffers[t]
      ensures forall c | c in AllCollectors() :: c in collectors || c in s.Instances()
      ensures forall b | b in AllBuffers() :: b in s.Buffers() || exists t :: t in All() && t != s && b in buffers[t]
    {
    }

    lemma PartsOf(s: Server)
      requires s in All()
      ensures s.Instances() <= AllCollectors() && s.Buffers() <= AllBuffers()
    {
    }

    /** Scrapes one of the servers, and keeps every invariant. */
    method ScrapeOne(s: Server, v: Visit, ghost name: Option<string>)
      returns (sent: seq<Metric>, changes: map<string, bool>, ghost log: ScrapeLog)
      requires Valid() && s in All() && Fits(v.reply, s.id.pgbouncerMode) && Answered(queries, v.oracle)
      modifies All(), AllCollectors(), AllBuffers()
      ensures Valid()
      ensures forall t | t in old(All()) && t != s :: t.ViewOf() == old(t.ViewOf())
      ensures Scraped(SettingsFor(s), old(s.ViewOf()), s.ViewOf(), v, log)
      ensures log.name == name && sent == log.p.sent && changes == ChangesOf(old(s.ViewOf()), v.reply)
      ensures forall c | c in AllCollectors() :: c in old(AllCollectors()) || fresh(c)
      ensures forall b | b in AllBuffers() :: b in old(AllBuffers()) || fresh(b)
    {
      hide AllServe, AllCollectors, AllBuffers, Server.Buffers, Server.Instances, Server.ViewOf;
      hide Scraped, Answered, ChangesOf;
      ghost var collectors := AllCollectors();
      ghost var before := map t | t in All() :: t.Buffers();
      forall t | t in All()
        ensures t.Instances() <= collectors && t.Buffers() <= AllBuffers() && forall b | b in before[t] :: allocated(b)
      {
        PartsOf(t);
        BuffersAreAllocated(t);
      }
      sent, changes, log := CollectFrom(s, v, name);
      forall t, b | t in All() && b in before[t] && b in s.Buffers() ensures b in before[s] {
        assert !fresh(b);
      }
      StillApart(All(), s, before);
      OneServerChanged(s, collectors, before);
    }

    /** The discovered servers as values. */
    ghost function Views(): (views: map<string, ServerView>)
      reads *
      ensures views.Keys == servers.Keys
    {
      map n | n in servers :: servers[n].ViewOf()
    }

    /** The server of n before a scrape: as it was, or as it has just been created. */
    ghost function StartOf(before: map<string, Server>, views: map<string, ServerView>, n: string): ServerView
      reads `servers
    {
      if IsNew(before, n) || n !in views then NewView(n) else views[n]
    }

    /** The discovered servers at the start of their scrapes. */
    ghost function Starts(before: map<string, Server>, views: map<string, ServerView>): map<string, ServerView>
      reads `servers
    {
      map n | n in servers :: StartOf(before, views, n)
    }

    /** What auto-discovery knows: the primary's database list and name, and the names of the discovered servers. */
    ghost function DiscoveryState(): Discovery.State
      reads `servers, server`databases, server`database
    {
      Discovery.State(server.databases, server.database, servers.Keys)
    }

    /** The hook of the primary server, called when its precheck reports any change. */
    method ApplyChanges(changes: map<string, bool>)
      requires Valid()
      modifies `servers
      ensures Valid()
      ensures servers.Keys
              == if autoDiscovery then Discovery.Notified(filter, old(servers.Keys), server.database, changes)
                 else old(servers.Keys)
      ensures !autoDiscovery ==> servers == old(servers)
      ensures Views() == Starts(old(servers), old(Views()))
      ensures forall n | n in servers && n in old(servers) && n !in changes :: servers[n] == old(servers)[n]
      ensures forall s | s in All() :: s in old(All()) || fresh(s)
      ensures AllCollectors() <= old(AllCollectors()) && AllBuffers() <= old(AllBuffers())
      ensures server.ViewOf() == old(server.ViewOf())
    {
      hide Valid, AllCollectors, AllBuffers, Server.Instances, Server.Buffers, Server.ViewOf, Discovery.Notified;
      ghost var before, collectors, buffers := servers, AllCollectors(), AllBuffers();
      forall s | s in All() ensures s.Instances() <= collectors && s.Buffers() <= buffers {
        PartsOf(s);
      }
      Discovery.NoChangeNoEffect(filter, servers.Keys, server.database);
      if autoDiscovery {
        if |changes| > 0 {
          OnDatabaseChange(changes);
        }
      }
      NewServersAddNothing(before, collectors, buffers);
    }

    /** Scrapes the primary server and takes over the database changes it reports. */
    method ScrapePrimary(v: Visit) returns (sent: seq<Metric>, ghost log: ScrapeLog)
      requires Valid() && Fits(v.reply, server.id.pgbouncerMode) && Answered(queries, v.oracle)
      modifies `servers, All(), AllCollectors(), AllBuffers()
      ensures Valid()
      ensures Scraped(SettingsFor(server), old(server.ViewOf()), server.ViewOf(), v, log)
      ensures log.name.None? && sent == log.p.sent
      ensures Views() == Starts(old(servers), old(Views()))
      ensures autoDiscovery ==> DiscoveryState() == Discovery.Step(filter, old(DiscoveryState()), PrecheckOf(v.reply))
      ensures !autoDiscovery ==> servers == old(servers)
      ensures forall n | n in servers && n in old(servers) && Unchanged(old(server.databases), v.reply, n) ::
                servers[n] == old(servers)[n]
      ensures forall s | s in All() :: s in old(All()) || fresh(s)
      ensures forall c | c in AllCollectors() :: c in old(AllCollectors()) || fresh(c)
      ensures forall b | b in AllBuffers() :: b in old(AllBuffers()) || fresh(b)
    {
      hide Valid, AllCollectors, AllBuffers, Answered, Server.Instances, Server.Buffers, Server.ViewOf, Scraped;
      hide Discovery.Changes, Discovery.Notified, ListOf;
      PrimaryIsInAll();
      server.ViewParts();
      var changes;
      sent, changes, log := ScrapeOne(server, v, None);
      assert Views() == old(Views());
      PrimaryFacts(old(server.ViewOf()), v, log);
      Discovery.NoChangeNoEffect(filter, servers.Keys, server.database);
      if v.reply.Gathered? {
        ChangedNames(old(server.databases), server.database, v.reply);
      }
      ApplyChanges(changes);
      server.ViewParts();
    }

    lemma PrimaryFacts(before: ServerView, v: Visit, log: ScrapeLog)
      requires Scraped(SettingsFor(server), before, server.ViewOf(), v, log)
      ensures server.database == if v.reply.Gathered? then v.reply.facts.database else before.facts.database
      ensures server.databases == if v.reply.Gathered? then ListOf(v.reply) else before.databases
    {
      ObservedDatabase(before.facts, v.reply);
    }

    method PrecheckPrimary(reply: PrecheckReply) returns (err: bool, changes: map<string, bool>)
      requires Valid() && Fits(reply, server.id.pgbouncerMode)
      modifies server
      ensures Valid()
      ensures err <==> PrecheckFails(reply)
      ensures server.ViewOf() == Checked(old(server.ViewOf()), reply)
      ensures changes == ChangesOf(old(server.ViewOf()), reply)
      ensures AllCollectors() == old(AllCollectors()) && AllBuffers() == old(AllBuffers()) && Views() == old(Views())
    {
      hide Server.Valid, Server.Buffers, QueriesConfigured, Registered, Observed, Discovery.Changes, ListOf, Checked;
      PrimaryIsInAll();
      ObservedDatabase(server.FactsOf(), reply);
      err, changes := server.Precheck(reply);
      assert forall s | s in All() :: s.Buffers() == old(s.Buffers()) && s.Instances() == old(s.Instances());
    }

    /** The connectivity check at start-up, which is also the first discovery. It calls no collector. */
    method Check(reply: PrecheckReply) returns (err: bool)
      requires Valid() && Fits(reply, server.id.pgbouncerMode)
      modifies `servers, server
      ensures Valid() && (err <==> PrecheckFails(reply))
      ensures autoDiscovery ==> DiscoveryState() == Discovery.Step(filter, old(DiscoveryState()), PrecheckOf(reply))
      ensures !autoDiscovery ==> servers == old(servers)
      ensures server.ViewOf() == Checked(old(server.ViewOf()), reply) && Views() == Starts(old(servers), old(Views()))
      ensures forall n | n in servers && n in old(servers) && Unchanged(old(server.databases), reply, n) ::
                servers[n] == old(servers)[n]
      ensures forall s | s in All() :: s in old(All()) || fresh(s)
      ensures AllCollectors() <= old(AllCollectors()) && AllBuffers() <= old(AllBuffers())
    {
      hide Valid, AllCollectors, AllBuffers, Server.ViewOf, Views, Starts;
      hide Discovery.Changes, Discovery.Notified, ListOf;
      server.ViewParts();
      var changes;
      err, changes := PrecheckPrimary(reply);
      server.ViewParts();
      ObservedDatabase(old(server.FactsOf()), reply);
      Discovery.NoChangeNoEffect(filter, servers.Keys, server.database);
      if reply.Gathered? {
        ChangedNames(old(server.databases), server.database, reply);
      }
      ApplyChanges(changes);
      server.ViewParts();
    }

    lemma PrimaryIsInAll()
      requires Valid()
      ensures !server.id.forked && server in All()
      ensures forall n | n in servers :: servers[n] in All() && servers[n] != server
    {
    }

    lemma NewServersAddNothing(before: map<string, Server>, collectors: set<Collector>, buffers: set<array<Metric>>)
      requires forall s | s in With(before) :: s.Instances() <= collectors && s.Buffers() <= buffers
      requires forall n | n in servers :: IsNew(before, n) ==> servers[n].collectors == []
      ensures AllCollectors() <= collectors && AllBuffers() <= buffers
    {
    }

    ghost function Ids(): map<string, Identity>
      reads `servers
    {
      map n | n in servers :: servers[n].id
    }

    /** Scrapes the server of one discovered database, and no other. */
    method ScrapeDiscovered(n: string, others: string -> Visit) returns (sent: seq<Metric>, ghost log: ScrapeLog)
      requires Valid() && n in servers && Fits(others(n).reply, n == "pgbouncer") && Answered(queries, others(n).oracle)
      modifies All(), AllCollectors(), AllBuffers()
      ensures Valid() && DiscoveryState() == old(DiscoveryState()) && server.ViewOf() == old(server.ViewOf())
      ensures forall m | m in servers && m != n :: Views()[m] == old(Views())[m]
      ensures ServedAs(SettingsFor(server), Ids(), old(Views()), Views(), others, log)
      ensures log.name == Some(n) && log.forked && WellRun(log, queries) && sent == log.p.sent
      ensures forall c | c in AllCollectors() :: c in old(AllCollectors()) || fresh(c)
      ensures forall b | b in AllBuffers() :: b in old(AllBuffers()) || fresh(b)
    {
      hide Valid, AllCollectors, AllBuffers, Answered, Scraped, Server.ViewOf, ChangesOf, WellRun;
      ForkedServers(n);
      PrimaryIsInAll();
      server.ViewParts();
      var changes;
      sent, changes, log := ScrapeOne(servers[n], others(n), Some(n));
      server.ViewParts();
      LogOfScrape(servers[n], old(servers[n].ViewOf()), others(n), log);
    }

    /**
     One scrape of the exporter: the primary server first, then, with the database changes it reported applied,
     every discovered server, in any order. Each log is a scrape of its server, in its own state and with its own
     clock and answers. A cluster-level query runs at most once in all of it.
     */
    method Collect(primary: Visit, others: string -> Visit) returns (sent: seq<Metric>, ghost logs: seq<ScrapeLog>)
      requires Valid() && Fits(primary.reply, server.id.pgbouncerMode) && Answered(queries, primary.oracle)
      requires forall n :: Fits(others(n).reply, n == "pgbouncer") && Answered(queries, others(n).oracle)
      modifies `servers, All(), AllCollectors(), AllBuffers()
      ensures Valid()
      ensures autoDiscovery ==>
                DiscoveryState() == Discovery.Step(filter, old(DiscoveryState()), PrecheckOf(primary.reply))
      ensures !autoDiscovery ==> servers == old(servers)
      ensures forall n | n in servers && n in old(servers) && Unchanged(old(server.databases), primary.reply, n) ::
                servers[n] == old(servers)[n]
      ensures ScrapedOnce(logs, servers.Keys) && sent == SentBy(logs)
      ensures Scraped(SettingsFor(server), old(server.ViewOf()), server.ViewOf(), primary, logs[0])
      ensures AllServed(SettingsFor(server), Ids(), Starts(old(servers), old(Views())), Views(), others, logs)
      ensures OneScrape(logs, queries)
      ensures forall b | b in queries && "cluster" in queries[b].tags :: TotalRuns(logs, b) <= 1
      ensures forall s | s in All() :: s in old(All()) || fresh(s)
      ensures forall c | c in AllCollectors() :: c in old(AllCollectors()) || fresh(c)
      ensures forall b | b in AllBuffers() :: b in old(AllBuffers()) || fresh(b)
    {
      hide Valid, AllCollectors, AllBuffers, Answered, OneScrape, ScrapedOnce, SentBy, TotalRuns, Unchanged;
      hide Discovery.Step, Scraped, Server.ViewOf, AllServed, Views, Starts, Ids;
      ghost var first;
      sent, first := ScrapePrimary(primary);
      LogOfScrape(server, old(server.ViewOf()), primary, first);
      PrimaryIsInAll();
      sent, logs := ScrapeOthers(sent, others, first);
      forall b | b in queries && "cluster" in queries[b].tags ensures TotalRuns(logs, b) <= 1 {
        ClusterQueriesRunAtMostOnce(logs, queries, b);
      }
    }

    /** Scrapes one more discovered server. */
    method ScrapeNext(n: string, others: string -> Visit, ghost names: set<string>,
                      ghost start: map<string, ServerView>, ghost logs: seq<ScrapeLog>)
      returns (sent: seq<Metric>, ghost log: ScrapeLog)
      requires Valid() && n in servers && Fits(others(n).reply, n == "pgbouncer") && Answered(queries, others(n).oracle)
      requires names <= servers.Keys && n !in names && n in start && start[n] == Views()[n]
      requires ServedSoFar(SettingsFor(server), Ids(), start, Views(), others, logs, names)
      modifies All(), AllCollectors(), AllBuffers()
      ensures Valid() && DiscoveryState() == old(DiscoveryState()) && server.ViewOf() == old(server.ViewOf())
      ensures forall m | m in servers && m != n :: Views()[m] == old(Views())[m]
      ensures ServedSoFar(SettingsFor(server), Ids(), start, Views(), others, logs + [log], names + {n})
      ensures SentBy(logs + [log]) == SentBy(logs) + sent
      ensures forall c | c in AllCollectors() :: c in old(AllCollectors()) || fresh(c)
      ensures forall b | b in AllBuffers() :: b in old(AllBuffers()) || fresh(b)
    {
      hide Valid, AllCollectors, AllBuffers, Answered, WellRun, SentBy, ServedSoFar, ServedAs;
      hide Server.ViewOf, DiscoveryState, Ids, Views;
      ghost var se, ids, before := SettingsFor(server), Ids(), Views();
      sent, log := ScrapeDiscovered(n, others);
      OneMoreServed(se, ids, start, before, Views(), others, logs, log, names);
    }

    /** Scrapes every discovered server, in any order. */
    method ScrapeOthers(already: seq<Metric>, others: string -> Visit, ghost first: ScrapeLog)
      returns (sent: seq<Metric>, ghost logs: seq<ScrapeLog>)
      requires Valid() && forall n :: Fits(others(n).reply, n == "pgbouncer") && Answered(queries, others(n).oracle)
      requires WellRun(first, queries) && !first.forked && first.name.None? && already == first.p.sent
      modifies All(), AllCollectors(), AllBuffers()
      ensures Valid() && DiscoveryState() == old(DiscoveryState()) && server.ViewOf() == old(server.ViewOf())
      ensures ServedSoFar(SettingsFor(server), Ids(), old(Views()), Views(), others, logs, servers.Keys)
      ensures logs != [] && logs[0] == first && sent == SentBy(logs)
      ensures forall c | c in AllCollectors() :: c in old(AllCollectors()) || fresh(c)
      ensures forall b | b in AllBuffers() :: b in old(AllBuffers()) || fresh(b)
    {
      hide Valid, AllCollectors, AllBuffers, Answered, WellRun, SentBy, ServedSoFar;
      hide Server.ViewOf, DiscoveryState, Ids, Views, Fits;
      sent, logs := already, [first];
      ghost var start := Views();
      NoneServed(SettingsFor(server), Ids(), start, Views(), others, first);
      var rest := servers.Keys;
      assert servers.Keys - rest == {};
      while rest != {}
        invariant rest <= servers.Keys && logs != [] && logs[0] == first && sent == SentBy(logs)
        invariant Valid() && DiscoveryState() == old(DiscoveryState()) && server.ViewOf() == old(server.ViewOf())
        invariant forall n | n in rest :: Views()[n] == start[n]
        invariant ServedSoFar(SettingsFor(server), Ids(), start, Views(), others, logs, servers.Keys - rest)
        invariant forall c | c in AllCollectors() :: c in old(AllCollectors()) || fresh(c)
        invariant forall b | b in AllBuffers() :: b in old(AllBuffers()) || fresh(b)
        decreases rest
      {
        var n :| n in rest;
        var part;
        ghost var log;
        part, log := ScrapeNext(n, others, servers.Keys - rest, start, logs);
        assert servers.Keys - (rest - {n}) == servers.Keys - rest + {n};
        sent, logs := sent + part, logs + [log];
        rest := rest - {n};
      }
      assert servers.Keys - rest == servers.Keys;
    }

    lemma ForkedServers(n: string)
      requires Valid() && n in servers
      ensures IsForkedFor(servers[n], n) && servers[n] in All()
      ensures forall m | m in servers && m != n :: servers[m] != servers[n] && servers[m] in All()
    {
    }

    lemma LogOfScrape(s: Server, before: ServerView, v: Visit, log: ScrapeLog)
      requires Scraped(SettingsFor(s), before, s.ViewOf(), v, log)
      ensures WellRun(log, queries) && log.forked == s.id.forked
    {
      hide WellRun;
    }

    /* ---------------- reload ---------------- */

    /** A server holds the current query set and nothing from before it was loaded. */
    ghost predicate Renewed(s: Server)
      reads `queries, s, s.collectors
    {
      && s.Valid() && SameSettings(s) && s.queries == queries
      && s.collectors == [] && !s.planned && s.calls == []
    }

    lemma LoadedQueriesAreConfigured(loaded: map<string, Query>)
      requires SettingsValid() && Loading.AllAccepted(env, loaded)
      requires Loading.NoConflicts(constLabels, loaded, disableIntro)
      ensures forall b | b in loaded :: loaded[b].branch == b && Configured(env, loaded[b], constLabels)
    {
    }

    lemma ServersAreValid()
      requires Valid()
      ensures server.Valid() && SameSettings(server)
      ensures forall n | n in servers :: servers[n].Valid() && SameSettings(servers[n]) && servers[n] != server
      ensures forall m, n | m in servers && n in servers && m != n :: servers[m] != servers[n]
    {
      hide Server.Valid;
      forall n | n in servers ensures Serves(servers[n]) {
        assert servers[n] in All();
      }
    }

    method TakeQueries(loaded: map<string, Query>)
      modifies `queries
      ensures queries == loaded && forall s: Server | old(allocated(s)) :: s.ViewOf() == old(s.ViewOf())
    {
      queries := loaded;
    }

    method ReloadServer(s: Server)
      requires s.Valid() && SameSettings(s) && QueriesConfigured()
      modifies s
      ensures Renewed(s) && s.ViewOf() == Reloaded(old(s.ViewOf()))
      ensures forall t: Server | t != s && old(allocated(t)) ::
                t.ViewOf() == old(t.ViewOf()) && t.Valid() == old(t.Valid()) && Renewed(t) == old(Renewed(t))
    {
      hide Server.Valid, Configured, Reloaded;
      s.ApplyReload(queries);
    }

    /** Every server takes over the new query set. */
    method ReloadServers(loaded: map<string, Query>)
      requires Valid()
      requires forall b | b in loaded :: loaded[b].branch == b && Configured(env, loaded[b], constLabels)
      modifies `queries, All()
      ensures queries == loaded && forall s | s in All() :: Renewed(s)
      ensures server.ViewOf() == Reloaded(old(server.ViewOf()))
      ensures forall n | n in servers :: servers[n].ViewOf() == Reloaded(old(servers[n].ViewOf()))
    {
      hide Valid, AllServe, Registered, Apart, Server.Valid, Server.ViewOf, Configured, Reloaded, Renewed;
      ServersAreValid();
      TakeQueries(loaded);
      var rest := servers.Keys;
      while rest != {}
        invariant rest <= servers.Keys && queries == loaded
        invariant forall n | n in servers && n !in rest ::
            Renewed(servers[n]) && servers[n].ViewOf() == Reloaded(old(servers[n].ViewOf()))
        invariant forall n | n in rest ::
            servers[n].Valid() && SameSettings(servers[n]) && servers[n].ViewOf() == old(servers[n].ViewOf())
        invariant server.Valid() && SameSettings(server) && server.ViewOf() == old(server.ViewOf())
        decreases rest
      {
        var n :| n in rest;
        rest := rest - {n};
        ReloadServer(servers[n]);
      }
      ReloadServer(server);
    }

    /** Once every server is reloaded the exporter is valid: no server has a collector, so none shares a buffer. */
    lemma ReloadedIsValid()
      requires SettingsValid() && QueriesConfigured() && Registered(servers)
      requires forall s | s in All() :: Renewed(s)
      ensures Valid() && AllCollectors() == {} && AllBuffers() == {}
    {
    }

    /** Loads the configuration, and checks it against the constant labels. */
    method LoadChecked(source: Loading.Source)
        returns (r: Option<map<string, Query>>, ghost loaded: Option<map<string, Query>>)
      requires SettingsValid()
      ensures Loading.LoadsAs(env, source, loaded)
      ensures r == if loaded.Some? && Loading.NoConflicts(constLabels, loaded.value, disableIntro) then loaded else None
      ensures r.Some? ==> forall b | b in r.value :: r.value[b].branch == b && Configured(env, r.value[b], constLabels)
    {
      hide Loading.LoadsAs, Loading.NoConflicts, Loading.AllAccepted, Configured;
      var queries := Loading.LoadConfig(env, source);
      loaded := queries;
      if queries.None? {
        return None, loaded;
      }
      LoadedHaveLabels(queries.value);
      var ok := Loading.ValidateConstLabelConflicts(constLabels, queries.value, disableIntro);
      if !ok {
        return None, loaded;
      }
      LoadedQueriesAreConfigured(queries.value);
      r := queries;
    }

    /**
     Loads the configuration again. A failed load, or one that conflicts with the constant labels, changes
     nothing; otherwise every server holds the new queries, has no collector and no plan, and starts its
     statistics afresh, but keeps what its prechecks found and the scrapes it has counted.
     */
    method Reload(source: Loading.Source) returns (err: bool, ghost loaded: Option<map<string, Query>>)
      requires Valid()
      modifies `queries, All()
      ensures Valid() && DiscoveryState() == old(DiscoveryState())
      ensures Loading.LoadsAs(env, source, loaded)
      ensures err <==> loaded.None? || !Loading.NoConflicts(constLabels, loaded.value, disableIntro)
      ensures err ==> queries == old(queries) && unchanged(All())
      ensures !err ==> queries == loaded.value && forall s | s in All() :: Renewed(s)
      ensures server.ViewOf() == if err then old(server.ViewOf()) else Reloaded(old(server.ViewOf()))
      ensures forall n | n in servers :: Views()[n] == if err then old(Views())[n] else Reloaded(old(Views())[n])
      ensures AllCollectors() <= old(AllCollectors()) && AllBuffers() <= old(AllBuffers())
    {
      hide Loading.LoadsAs, Loading.NoConflicts, Valid, SettingsValid, Registered, Configured, Renewed;
      hide AllCollectors, AllBuffers, InstancesOf;
      PartsOfValid();
      server.ViewParts();
      var checked;
      checked, loaded := LoadChecked(source);
      if checked.None? {
        return true, loaded;
      }
      ReloadServers(checked.value);
      ReloadedIsValid();
      server.ViewParts();
      err := false;
    }

    lemma PartsOfValid()
      requires Valid()
      ensures SettingsValid() && Registered(servers)
    {
    }

    lemma LoadedHaveLabels(loaded: map<string, Query>)
      requires Loading.AllAccepted(env, loaded)
      ensures forall b | b in loaded :: LabelColumns(loaded[b])
    {
    }
  }
}
