/** An exporter over its whole life: any sequence of checks, scrapes and reloads. */
module Lifecycle {
  import opened ClusterLaw
  import opened Core
  import Discovery
  import opened Exporters
  import opened FactLaws
  import opened Histories
  import Loading
  import opened Planning
  import opened Servers
  import opened Snapshot
  import opened Visits

  /** What can happen to an exporter; a scrape meets every server, named or not, in its own way. */
  datatype Event =
    | Check(reply: PrecheckReply)
    | Scrape(primary: Encounter, others: string -> Encounter)
    | Reload(source: Loading.Source)

  /** The reply to the primary server's precheck in an event. */
  function ReplyIn(e: Event): Option<PrecheckReply> {
    match e
    case Check(reply) => Some(reply)
    case Scrape(primary, _) => Some(primary.reply)
    case Reload(_) => None
  }

  function RepliesOf(events: seq<Event>): seq<PrecheckReply> {
    if events == [] then []
    else
      var reply := ReplyIn(events[|events| - 1]);
      RepliesOf(events[..|events| - 1]) + (if reply.Some? then [reply.value] else [])
  }

  /** What auto-discovery learns from replies. */
  function PrechecksOf(replies: seq<PrecheckReply>): seq<Discovery.Precheck> {
    seq(|replies|, i requires 0 <= i < |replies| => PrecheckOf(replies[i]))
  }

  /** The last complete reply lists the database. */
  ghost predicate ListedLast(replies: seq<PrecheckReply>, n: string) {
    exists k :: 0 <= k && LastComplete(replies, k) && n in replies[k].list
  }

  lemma {:induction false} LastListIsLastComplete(replies: seq<PrecheckReply>, n: string)
    ensures n in Discovery.LastList(PrechecksOf(replies)) <==> ListedLast(replies, n)
  {
    if replies != [] {
      var init, last := replies[..|replies| - 1], replies[|replies| - 1];
      var ps := PrechecksOf(replies);
      assert ps[..|ps| - 1] == PrechecksOf(init);
      LastListIsLastComplete(init, n);
      if last.Gathered? {
        assert LastComplete(replies, |replies| - 1);
        assert forall k | 0 <= k && LastComplete(replies, k) :: k == |replies| - 1;
      } else {
        assert forall k | 0 <= k :: LastComplete(replies, k) <==> LastComplete(init, k);
      }
    }
  }

  /** Every complete reply comes from the same database. */
  ghost predicate StableDatabase(replies: seq<PrecheckReply>, name: string) {
    forall k | 0 <= k < |replies| && replies[k].Gathered? :: replies[k].facts.database == name
  }

  lemma StableDatabaseIsStableName(replies: seq<PrecheckReply>, name: string)
    requires StableDatabase(replies, name)
    ensures Discovery.StableName(PrechecksOf(replies), name)
  {
  }

  function EncounterOf(e: Event, name: Option<string>): Encounter
    requires e.Scrape?
  {
    if name.None? then e.primary else e.others(name.value)
  }

  /** What the primary server, or the server of a discovered database, meets. */
  function MetBy(events: seq<Event>, name: Option<string>): seq<Encounter> {
    if events == [] then []
    else
      var e := events[|events| - 1];
      MetBy(events[..|events| - 1], name) + (if e.Scrape? then [EncounterOf(e, name)] else [])
  }

  ghost predicate Plausible(e: Event, bouncer: bool) {
    match e
    case Check(reply) => Fits(reply, bouncer)
    case Scrape(primary, others) =>
      && Fits(primary.reply, bouncer) && Sound(primary)
      && forall n :: Fits(others(n).reply, n == "pgbouncer") && Sound(others(n))
    case Reload(_) => true
  }

  /** Replies fit the mode of their server, answers fit the queries, and no clock goes back. */
  ghost predicate AllPlausible(events: seq<Event>, bouncer: bool) {
    && (forall i | 0 <= i < |events| :: Plausible(events[i], bouncer))
    && forall i, name | 0 <= i <= |events| :: Forward(MetBy(events[..i], name))
  }

  /* ---------------- the exporter as a value ---------------- */

  /** Every installed collector of every server has a history. */
  ghost predicate AllLived(se: Settings, primary: ServerView, views: map<string, ServerView>, events: seq<Event>) {
    && Lived(se, primary, MetBy(events, None))
    && forall n | n in views :: Lived(se, views[n], MetBy(events, Some(n)))
  }

  /** Every server whose scrape succeeded holds nothing older than its TTL. */
  ghost predicate ServesFresh(se: Settings, primary: ServerView, views: map<string, ServerView>, events: seq<Event>) {
    && (primary.up ==> AllFresh(se, primary, MetBy(events, None)))
    && forall n | n in views :: views[n].up ==> AllFresh(se, views[n], MetBy(events, Some(n)))
  }

  /** Every discovered server is as it was, or has just been created. */
  ghost predicate OldOrNew(views: map<string, ServerView>, views': map<string, ServerView>) {
    forall n | n in views' :: views'[n] == NewView(n) || (n in views && views'[n] == views[n])
  }

  lemma StartsAreOldOrNew(x: Exporter, before: map<string, Server>, views: map<string, ServerView>)
    ensures OldOrNew(views, x.Starts(before, views))
  {
  }

  lemma MetOneMore(events: seq<Event>, e: Event)
    ensures forall name :: MetBy(events + [e], name)
                           == if e.Scrape? then MetBy(events, name) + [EncounterOf(e, name)] else MetBy(events, name)
  {
    assert (events + [e])[..|events|] == events;
  }

  lemma RepliesOneMore(events: seq<Event>, e: Event, f: Discovery.Filter, database: string)
    ensures var before, after := RepliesOf(events), RepliesOf(events + [e]);
            var state, facts := Discovery.Run(f, database, PrechecksOf(before)), FactsFound(database, before);
            if ReplyIn(e).Some?
            then && Discovery.Run(f, database, PrechecksOf(after))
                    == Discovery.Step(f, state, PrecheckOf(ReplyIn(e).value))
                 && FactsFound(database, after) == Observed(facts, ReplyIn(e).value)
            else after == before
  {
    hide Discovery.Step, Observed, PrecheckOf;
    assert (events + [e])[..|events|] == events;
    var before, after := RepliesOf(events), RepliesOf(events + [e]);
    if ReplyIn(e).Some? {
      assert after[..|after| - 1] == before;
      assert PrechecksOf(after)[..|after| - 1] == PrechecksOf(before);
    } else {
      assert after == before;
    }
  }

  /** The facts of a primary server after its prechecks. */
  function FactsFound(database: string, replies: seq<PrecheckReply>): Facts {
    FactsAfter(NewView(database).facts, replies)
  }

  /** Whatever a check or a failed reload changes, it calls no collector. */
  lemma UncalledKeepHistories(se: Settings, primary: ServerView, primary': ServerView, views: map<string, ServerView>,
                              views': map<string, ServerView>, events: seq<Event>, e: Event)
    requires AllLived(se, primary, views, events) && OldOrNew(views, views') && !e.Scrape?
    requires primary'.installed == primary.installed
    ensures AllLived(se, primary', views', events + [e])
  {
    hide Explained;
    MetOneMore(events, e);
  }

  lemma ReloadedKeepHistories(se: Settings, primary: ServerView, views: map<string, ServerView>, events: seq<Event>)
    requires primary.installed == [] && forall n | n in views :: views[n].installed == []
    ensures AllLived(se, primary, views, events)
  {
  }

  /** What a scrape makes of every server, as values. */
  ghost predicate ScrapesAll(se: Settings, ids: map<string, Identity>, primary: ServerView, primary': ServerView,
                             start: map<string, ServerView>, views': map<string, ServerView>, e: Event,
                             logs: seq<ScrapeLog>)
    requires e.Scrape?
  {
    && ScrapedOnce(logs, views'.Keys)
    && Scraped(se, primary, primary', VisitOf(e.primary, se.queries), logs[0])
    && AllServed(se, ids, start, views', n => VisitOf(e.others(n), se.queries), logs)
  }

  /** The log of a discovered server. */
  lemma LogOf(se: Settings, ids: map<string, Identity>, primary: ServerView, primary': ServerView,
              start: map<string, ServerView>, views': map<string, ServerView>, e: Event, logs: seq<ScrapeLog>,
              n: string)
    returns (log: ScrapeLog)
    requires e.Scrape? && ScrapesAll(se, ids, primary, primary', start, views', e, logs) && n in views'
    ensures n in ids && n in start
    ensures Scraped(se.(id := ids[n]), start[n], views'[n], VisitOf(e.others(n), se.queries), log)
  {
    hide Scraped;
    var i :| 0 < i < |logs| && logs[i].name == Some(n);
    log := logs[i];
    assert ServedAs(se, ids, start, views', n => VisitOf(e.others(n), se.queries), log);
  }

  /** A scrape keeps every history, and leaves nothing older than its TTL on the servers where it succeeds. */
  lemma ScrapeKeepsAllHistories(se: Settings, ids: map<string, Identity>, primary: ServerView, primary': ServerView,
                                views: map<string, ServerView>, start: map<string, ServerView>,
                                views': map<string, ServerView>, events: seq<Event>, e: Event, logs: seq<ScrapeLog>)
    requires AllLived(se, primary, views, events) && OldOrNew(views, start)
    requires e.Scrape? && ScrapesAll(se, ids, primary, primary', start, views', e, logs)
    requires Sound(e.primary) && forall n :: Sound(e.others(n))
    requires forall name :: Forward(MetBy(events + [e], name))
    requires forall b | b in se.queries :: se.queries[b].ttl >= 0
    ensures AllLived(se, primary', views', events + [e]) && ServesFresh(se, primary', views', events + [e])
  {
    hide Scraped, AllServed, Sound, Forward, Explained, Fresh, MetBy;
    MetOneMore(events, e);
    ScrapeKeepsHistories(se, primary, primary', e.primary, logs[0], MetBy(events, None));
    SuccessIsFresh(se, primary, primary', e.primary, logs[0], MetBy(events, None));
    forall n | n in views'
      ensures Lived(se, views'[n], MetBy(events + [e], Some(n)))
      ensures views'[n].up ==> AllFresh(se, views'[n], MetBy(events + [e], Some(n)))
    {
      var log := LogOf(se, ids, primary, primary', start, views', e, logs, n);
      var se' := se.(id := ids[n]);
      assert Lived(se', start[n], MetBy(events, Some(n)));
      ScrapeKeepsHistories(se', start[n], views'[n], e.others(n), log, MetBy(events, Some(n)));
      SuccessIsFresh(se', start[n], views'[n], e.others(n), log, MetBy(events, Some(n)));
    }
  }

  /* ---------------- the exporter as an object ---------------- */

  /** What the exporter knows is what its events make of a new one. */
  ghost predicate Holds(x: Exporter, database: string, events: seq<Event>)
    reads *
  {
    && (x.autoDiscovery ==> x.DiscoveryState() == Discovery.Run(x.filter, database, PrechecksOf(RepliesOf(events))))
    && (!x.autoDiscovery ==> x.servers == map[])
    && x.server.ViewOf().total == |MetBy(events, None)|
    && x.server.ViewOf().facts == FactsFound(database, RepliesOf(events))
    && AllLived(x.SettingsFor(x.server), x.server.ViewOf(), x.Views(), events)
  }

  /** Nothing is left over from before, except what the exporter already had. */
  method CheckOnce(x: Exporter, reply: PrecheckReply, ghost database: string, ghost past: seq<Event>)
    requires x.Valid() && Holds(x, database, past) && Fits(reply, x.server.id.pgbouncerMode)
    modifies x`servers, x.server
    ensures x.Valid() && Holds(x, database, past + [Check(reply)])
    ensures forall s | s in x.All() :: s in old(x.All()) || fresh(s)
    ensures x.AllCollectors() <= old(x.AllCollectors()) && x.AllBuffers() <= old(x.AllBuffers())
  {
    hide AllLived, MetBy, PrechecksOf, RepliesOf, FactsFound, Observed;
    hide Discovery.Step, Discovery.Run, Exporter.Valid, Exporter.DiscoveryState;
    hide Exporter.AllCollectors, Exporter.AllBuffers, Exporter.Views, Exporter.Starts, Server.ViewOf;
    ghost var views := x.Views();
    MetOneMore(past, Check(reply));
    RepliesOneMore(past, Check(reply), x.filter, database);
    var err := x.Check(reply);
    StartsAreOldOrNew(x, old(x.servers), views);
    UncalledKeepHistories(x.SettingsFor(x.server), old(x.server.ViewOf()), x.server.ViewOf(), views, x.Views(), past,
                          Check(reply));
  }

  /** A scrape calls the collectors of every server, and every result it leaves behind is fresh. */
  method ScrapeOnce(x: Exporter, e: Event, ghost database: string, ghost past: seq<Event>) returns (sent: seq<Metric>)
    requires x.Valid() && Holds(x, database, past) && e.Scrape? && Plausible(e, x.server.id.pgbouncerMode)
    requires forall name :: Forward(MetBy(past + [e], name))
    modifies x`servers, x.All(), x.AllCollectors(), x.AllBuffers()
    ensures x.Valid() && Holds(x, database, past + [e])
    ensures ServesFresh(x.SettingsFor(x.server), x.server.ViewOf(), x.Views(), past + [e])
    ensures forall s | s in x.All() :: s in old(x.All()) || fresh(s)
    ensures forall c | c in x.AllCollectors() :: c in old(x.AllCollectors()) || fresh(c)
    ensures forall b | b in x.AllBuffers() :: b in old(x.AllBuffers()) || fresh(b)
  {
    hide AllLived, ServesFresh, MetBy, PrechecksOf, RepliesOf, FactsFound, Observed;
    hide Discovery.Step, Discovery.Run, Exporter.Valid, Sound, Forward;
    hide Exporter.DiscoveryState, Exporter.AllCollectors, Exporter.AllBuffers, Exporter.Views, Exporter.Starts;
    hide Exporter.Ids, Server.ViewOf, Answered, AllServed, Scraped, OneScrape, SentBy, TotalRuns;
    ghost var se, before, views := x.SettingsFor(x.server), x.server.ViewOf(), x.Views();
    MetOneMore(past, e);
    RepliesOneMore(past, e, x.filter, database);
    TtlsAreNatural(x);
    SoundEncountersAnswer(e.primary, x.queries);
    forall n ensures Answered(x.queries, VisitOf(e.others(n), x.queries).oracle) {
      SoundEncountersAnswer(e.others(n), x.queries);
    }
    var queries := x.queries;
    ghost var logs;
    sent, logs := x.Collect(VisitOf(e.primary, queries), n => VisitOf(e.others(n), queries));
    ScrapesCount(se, before, x.server.ViewOf(), VisitOf(e.primary, queries), logs[0]);
    ghost var start := x.Starts(old(x.servers), views);
    StartsAreOldOrNew(x, old(x.servers), views);
    ScrapeKeepsAllHistories(se, x.Ids(), before, x.server.ViewOf(), views, start, x.Views(), past, e, logs);
  }

  lemma ScrapesCount(se: Settings, before: ServerView, after: ServerView, v: Visit, log: ScrapeLog)
    requires Scraped(se, before, after, v, log)
    ensures after.total == before.total + 1 && after.facts == Observed(before.facts, v.reply)
  {
  }

  lemma TtlsAreNatural(x: Exporter)
    requires x.Valid()
    ensures forall b | b in x.queries :: x.queries[b].ttl >= 0
  {
  }

  /** A reload calls no collector; a successful one leaves none. */
  method ReloadOnce(x: Exporter, source: Loading.Source, ghost database: string, ghost past: seq<Event>)
    requires x.Valid() && Holds(x, database, past)
    modifies x`queries, x.All()
    ensures x.Valid() && Holds(x, database, past + [Reload(source)])
    ensures x.AllCollectors() <= old(x.AllCollectors()) && x.AllBuffers() <= old(x.AllBuffers())
  {
    hide AllLived, MetBy, PrechecksOf, RepliesOf, FactsFound, Observed;
    hide Discovery.Run, Exporter.Valid, Exporter.DiscoveryState, Loading.LoadsAs;
    hide Exporter.AllCollectors, Exporter.AllBuffers, Loading.NoConflicts, Exporter.Views, Server.ViewOf;
    ghost var se, before, views := x.SettingsFor(x.server), x.server.ViewOf(), x.Views();
    MetOneMore(past, Reload(source));
    RepliesOneMore(past, Reload(source), x.filter, database);
    ghost var loaded;
    var err;
    err, loaded := x.Reload(source);
    if err {
      UncalledKeepHistories(se, before, x.server.ViewOf(), views, x.Views(), past, Reload(source));
    } else {
      ReloadedKeepHistories(x.SettingsFor(x.server), x.server.ViewOf(), x.Views(), past + [Reload(source)]);
    }
  }

  /** One event, whatever it is. */
  method Live(x: Exporter, e: Event, ghost database: string, ghost past: seq<Event>)
    requires x.Valid() && Holds(x, database, past) && Plausible(e, x.server.id.pgbouncerMode)
    requires forall name :: Forward(MetBy(past + [e], name))
    modifies x, x.All(), x.AllCollectors(), x.AllBuffers()
    ensures x.Valid() && Holds(x, database, past + [e])
    ensures e.Scrape? ==> ServesFresh(x.SettingsFor(x.server), x.server.ViewOf(), x.Views(), past + [e])
    ensures forall s | s in x.All() :: s in old(x.All()) || fresh(s)
    ensures forall c | c in x.AllCollectors() :: c in old(x.AllCollectors()) || fresh(c)
    ensures forall b | b in x.AllBuffers() :: b in old(x.AllBuffers()) || fresh(b)
  {
    hide Holds, ServesFresh, MetBy, Exporter.Valid, Sound, Forward, Server.ViewOf, Exporter.Views;
    hide Exporter.AllCollectors, Exporter.AllBuffers;
    match e
    case Check(reply) =>
      CheckOnce(x, reply, database, past);
    case Scrape(_, _) =>
      var sent := ScrapeOnce(x, e, database, past);
    case Reload(source) =>
      ReloadOnce(x, source, database, past);
  }

  /**
   A whole life of an exporter, from its start through any events. Discovery is always that of the prechecks, and
   while the connected database keeps its name it agrees with recomputation; every scrape of the primary server is
   counted once; every installed collector has a history; and after a scrape no server on which it succeeded holds
   anything older than its TTL.
   */
  method WholeLife(
    env: Env, queries: map<string, Query>, constLabels: map<string, Bytes>, disableCache: bool, disableIntro: bool,
    tags: seq<string>, database: string, autoDiscovery: bool, filter: Discovery.Filter, events: seq<Event>)
    returns (x: Exporter)
    requires env.Valid() && forall l | l in constLabels :: env.validLabelName(l)
    requires forall b | b in queries :: queries[b].branch == b && Configured(env, queries[b], constLabels)
    requires AllPlausible(events, database == "pgbouncer")
    ensures fresh(x) && x.Valid() && x.autoDiscovery == autoDiscovery && x.filter == filter
    ensures Holds(x, database, events)
    ensures autoDiscovery ==> forall name, n | StableDatabase(RepliesOf(events), name) ::
              n in x.servers <==>
                && ListedLast(RepliesOf(events), n) && n != name && n !in filter.excluded
                && (filter.included == {} || n in filter.included)
    ensures events != [] && events[|events| - 1].Scrape? ==>
              ServesFresh(x.SettingsFor(x.server), x.server.ViewOf(), x.Views(), events)
  {
    hide ServesFresh, MetBy, Exporter.Valid, Configured, Sound, Forward, Server.ViewOf, PrechecksOf, RepliesOf;
    hide Exporter.AllCollectors, Exporter.AllBuffers, Discovery.Run, StableDatabase, ListedLast, FactsFound;
    x := new Exporter(env, queries, constLabels, disableCache, disableIntro, tags, database, autoDiscovery, filter);
    StartsHolding(x, database);
    for i := 0 to |events|
      invariant fresh(x) && x.Valid() && x.autoDiscovery == autoDiscovery && x.filter == filter
      invariant x.server.id.pgbouncerMode == (database == "pgbouncer")
      invariant Holds(x, database, events[..i])
      invariant fresh(x.All()) && fresh(x.AllCollectors()) && fresh(x.AllBuffers())
      invariant i > 0 && events[i - 1].Scrape? ==>
                  ServesFresh(x.SettingsFor(x.server), x.server.ViewOf(), x.Views(), events[..i])
    {
      hide Holds;
      assert events[..i] + [events[i]] == events[..i + 1];
      Live(x, events[i], database, events[..i]);
    }
    assert events[..|events|] == events;
    forall name, n | autoDiscovery && StableDatabase(RepliesOf(events), name)
      ensures n in x.servers <==>
                && ListedLast(RepliesOf(events), n) && n != name && n !in filter.excluded
                && (filter.included == {} || n in filter.included)
    {
      StableDatabaseIsStableName(RepliesOf(events), name);
      LastListIsLastComplete(RepliesOf(events), n);
      Discovery.DiscoveryAgreesWithRecomputation(filter, database, PrechecksOf(RepliesOf(events)), name);
    }
  }

  lemma StartsHolding(x: Exporter, database: string)
    requires x.servers == map[] && x.server.ViewOf() == NewView(database)
    requires x.DiscoveryState() == Discovery.Run(x.filter, database, [])
    ensures Holds(x, database, [])
  {
    hide Server.ViewOf, Discovery.Run;
    assert PrechecksOf(RepliesOf([])) == [];
  }
}
