/** What a server knows, when its plan survives, what it runs and when it is up, told from the replies it gets. */
module FactLaws {
  import opened ClusterLaw
  import opened Core
  import opened Planning
  import Scrape
  import Semver
  import opened Visits

  /** All facts but the version are the same. */
  predicate SameButVersion(f: Facts, g: Facts) {
    && f.recovery == g.recovery && f.database == g.database && f.username == g.username
    && f.namespaces == g.namespaces && f.extensions == g.extensions
  }

  /** The version a reply tells; a pgbouncer that gives no number tells none. */
  function VersionIn(reply: PrecheckReply): Option<int> {
    match reply
    case Unreachable => None
    case VersionOnly(version) => Some(version)
    case Gathered(facts, _) => Some(facts.version)
    case Bouncer(row, notice) =>
      if row.Some? && Semver.Parsed(row.value) != 0 then Some(Semver.Parsed(row.value))
      else if notice != [] && Semver.Parsed(notice) != 0 then Some(Semver.Parsed(notice))
      else None
  }

  /**
   One precheck: the version becomes the one the reply tells, if it tells any; all other facts become those of a
   complete reply, and are kept by every other.
   */
  lemma PrecheckTakesOver(f: Facts, reply: PrecheckReply)
    ensures Observed(f, reply).version == if VersionIn(reply).Some? then VersionIn(reply).value else f.version
    ensures SameButVersion(Observed(f, reply), if reply.Gathered? then reply.facts else f)
  {
    hide Semver.Parsed;
  }

  /* ---------------- runs of prechecks ---------------- */

  function FactsAfter(f: Facts, replies: seq<PrecheckReply>): Facts {
    if replies == [] then f else Observed(FactsAfter(f, replies[..|replies| - 1]), replies[|replies| - 1])
  }

  /** Reply k is the last complete one, or k is -1 and there is none. */
  predicate LastComplete(replies: seq<PrecheckReply>, k: int) {
    && -1 <= k < |replies| && (k >= 0 ==> replies[k].Gathered?)
    && forall j | k < j < |replies| :: !replies[j].Gathered?
  }

  /** Reply k is the last one to tell a version, or k is -1 and none does. */
  predicate LastVersion(replies: seq<PrecheckReply>, k: int) {
    && -1 <= k < |replies| && (k >= 0 ==> VersionIn(replies[k]).Some?)
    && forall j | k < j < |replies| :: VersionIn(replies[j]).None?
  }

  /**
   After any prechecks, complete, partial and failed ones, the facts are those of the last complete one, with the
   version of the last that told one.
   */
  lemma {:induction false} FactsAreThoseLastFound(f: Facts, replies: seq<PrecheckReply>, complete: int, version: int)
    requires LastComplete(replies, complete) && LastVersion(replies, version)
    ensures SameButVersion(FactsAfter(f, replies), if complete >= 0 then replies[complete].facts else f)
    ensures FactsAfter(f, replies).version == if version >= 0 then VersionIn(replies[version]).value else f.version
  {
    hide Observed, VersionIn;
    if replies != [] {
      var n := |replies| - 1;
      var init, last := replies[..n], replies[n];
      PrecheckTakesOver(FactsAfter(f, init), last);
      var c := if complete < n then complete else SomeLastComplete(init);
      var v := if version < n then version else SomeLastVersion(init);
      FactsAreThoseLastFound(f, init, c, v);
    }
  }

  lemma {:induction false} SomeLastCompleteExists(replies: seq<PrecheckReply>)
    ensures exists k :: LastComplete(replies, k)
  {
    var k := |replies| - 1;
    while k >= 0 && !replies[k].Gathered?
      invariant -1 <= k < |replies| && forall j | k < j < |replies| :: !replies[j].Gathered?
    {
      k := k - 1;
    }
    assert LastComplete(replies, k);
  }

  ghost function SomeLastComplete(replies: seq<PrecheckReply>): (k: int)
    ensures LastComplete(replies, k)
  {
    SomeLastCompleteExists(replies);
    var k :| LastComplete(replies, k);
    k
  }

  lemma SomeLastVersionExists(replies: seq<PrecheckReply>)
    ensures exists k :: LastVersion(replies, k)
  {
    hide VersionIn;
    var k := |replies| - 1;
    while k >= 0 && VersionIn(replies[k]).None?
      invariant -1 <= k < |replies| && forall j | k < j < |replies| :: VersionIn(replies[j]).None?
    {
      k := k - 1;
    }
    assert LastVersion(replies, k);
  }

  ghost function SomeLastVersion(replies: seq<PrecheckReply>): (k: int)
    ensures LastVersion(replies, k)
  {
    SomeLastVersionExists(replies);
    var k :| LastVersion(replies, k);
    k
  }

  /* ---------------- when a plan survives ---------------- */

  /** The reply tells another version, or is complete with another recovery state or database. */
  predicate Disturbs(f: Facts, reply: PrecheckReply) {
    || (VersionIn(reply).Some? && VersionIn(reply).value != f.version)
    || (reply.Gathered? && (reply.facts.recovery != f.recovery || reply.facts.database != f.database))
  }

  /** A scrape keeps its plan exactly if the reply to its precheck does not disturb the facts it was made for. */
  lemma ScrapeKeepsPlanIff(se: Settings, before: ServerView, after: ServerView, v: Visit, log: ScrapeLog)
    requires Scraped(se, before, after, v, log)
    ensures KeepsPlan(before, after) <==> before.planned && !Disturbs(before.facts, v.reply)
  {
    hide Observed, VersionIn, WellRun, Passed, Refused;
    PrecheckTakesOver(before.facts, v.reply);
  }

  function AfterChecks(view: ServerView, replies: seq<PrecheckReply>): ServerView {
    if replies == [] then view else Checked(AfterChecks(view, replies[..|replies| - 1]), replies[|replies| - 1])
  }

  /** A plan survives any number of prechecks exactly if none of their replies disturbs the facts it was made for. */
  lemma {:induction false} PlanSurvivesIff(view: ServerView, replies: seq<PrecheckReply>)
    ensures var after := AfterChecks(view, replies);
            && after.facts == FactsAfter(view.facts, replies)
            && (after.planned <==> view.planned && forall k | 0 <= k < |replies| :: !Disturbs(view.facts, replies[k]))
            && (after.planned ==>
                  && after.facts.version == view.facts.version
                  && after.facts.recovery == view.facts.recovery && after.facts.database == view.facts.database)
  {
    hide Observed, VersionIn;
    if replies != [] {
      var init, last := replies[..|replies| - 1], replies[|replies| - 1];
      PlanSurvivesIff(view, init);
      PrecheckTakesOver(AfterChecks(view, init).facts, last);
      assert forall k | 0 <= k < |init| :: init[k] == replies[k];
    }
  }

  /* ---------------- when a server is up ---------------- */

  /**
   After a scrape the server is up exactly if its precheck was complete and no fatal collector failed; a precheck that
   was not complete runs no collector and sends nothing.
   */
  lemma ScrapeIsUpIff(se: Settings, before: ServerView, after: ServerView, v: Visit, log: ScrapeLog)
    requires Scraped(se, before, after, v, log)
    ensures var complete := v.reply.Gathered? || v.reply.Bouncer?;
            && (after.up <==> complete && forall i | 0 <= i < |log.us| && log.us[i].q.fatal :: !log.us[i].next.failed)
            && (!complete ==> log.p.ran == [] && log.p.sent == [] && after.installed == before.installed)
    ensures after.errors == before.errors + (if after.up then 0 else 1)
  {
    hide Observed, Passed, FromQueries, DistinctUnits, NoClusterUnits;
    Scrape.ScrapeRunsEachCollectorOnce(log.us);
    assert forall i | 0 <= i < |log.us| ::
        Scrape.FatalFailure(log.us, i) <==> log.us[i].q.fatal && log.us[i].next.failed;
  }

  /** Checks count and call nothing; the last of them tells whether the server is up, the last complete one the list. */
  lemma {:induction false} ChecksOnlyLearn(view: ServerView, replies: seq<PrecheckReply>, complete: int)
    requires LastComplete(replies, complete)
    ensures var after := AfterChecks(view, replies);
            && after.installed == view.installed && after.calls == view.calls && after.begin == view.begin
            && after.total == view.total && after.errors == view.errors
            && after.databases == (if complete >= 0 then set n | n in replies[complete].list else view.databases)
            && (replies != [] ==>
                  var last := replies[|replies| - 1];
                  after.up <==> last.Gathered? || last.Bouncer?)
  {
    hide Observed, KeepsPlan;
    if replies != [] {
      var n := |replies| - 1;
      var c := if complete < n then complete else SomeLastComplete(replies[..n]);
      ChecksOnlyLearn(view, replies[..n], c);
    }
  }

  /**
   In every scrape fatal collectors run before the others, and among each of the two a collector with a lower priority
   number runs before one with a higher.
   */
  lemma LowerPrioritiesRunFirst(se: Settings, before: ServerView, after: ServerView, v: Visit, log: ScrapeLog,
                                k: nat, l: nat)
    requires Scraped(se, before, after, v, log) && k < |log.p.ran| && l < |log.p.ran|
    ensures log.p.ran[k] < |log.us| && log.p.ran[l] < |log.us|
    ensures var a, b := log.us[log.p.ran[k]].q, log.us[log.p.ran[l]].q;
            (a.fatal && !b.fatal) || (a.fatal == b.fatal && a.priority < b.priority) ==> k < l
  {
    hide Observed, Foretold, PlansExactly, FromQueries, DistinctUnits, NoClusterUnits, Scrape.Run;
    Scrape.ScrapeRunsEachCollectorOnce(log.us);
    var us, ran := log.us, log.p.ran;
    assert ran[k] in ran && ran[l] in ran;
    if PrecheckFails(v.reply) {
      NothingRan(log);
    } else if log.p.failed {
      InOrder(us, ran, k, l);
    } else {
      var fatal, others :| ran == fatal + others && Scrape.RanAllOnce(us, fatal, others);
      RunsInOrder(us, fatal, others, k, l);
    }
  }

  lemma NothingRan(log: ScrapeLog)
    requires log.us == [] && log.p == Scrape.Run(log.us)
    ensures log.p.ran == []
  {
  }

  lemma InOrder(us: seq<Scrape.Unit>, ran: seq<nat>, k: nat, l: nat)
    requires Scrape.Ascending(ran) && InPriorityOrder(us) && k < |ran| && l < |ran|
    requires ran[k] < |us| && ran[l] < |us|
    ensures us[ran[k]].q.priority < us[ran[l]].q.priority ==> k < l
  {
  }

  lemma RunsInOrder(us: seq<Scrape.Unit>, fatal: seq<nat>, others: seq<nat>, k: nat, l: nat)
    requires Scrape.RanAllOnce(us, fatal, others) && InPriorityOrder(us)
    requires k < |fatal + others| && l < |fatal + others|
    ensures var ran := fatal + others;
            && ran[k] < |us| && ran[l] < |us|
            && var a, b := us[ran[k]].q, us[ran[l]].q;
               (a.fatal && !b.fatal) || (a.fatal == b.fatal && a.priority < b.priority) ==> k < l
  {
    var ran := fatal + others;
    forall i | 0 <= i < |ran| ensures ran[i] < |us| && (us[ran[i]].q.fatal <==> i < |fatal|) {
      assert if i < |fatal| then ran[i] == fatal[i] && fatal[i] in fatal
             else ran[i] == others[i - |fatal|] && others[i - |fatal|] in others;
    }
    if k < |fatal| && l < |fatal| {
      InOrder(us, fatal, k, l);
    } else if k >= |fatal| && l >= |fatal| {
      InOrder(us, others, k - |fatal|, l - |fatal|);
    }
  }
}
