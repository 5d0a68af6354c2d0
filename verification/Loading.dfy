/** Loading configuration files, finalising queries, and checking them against constant labels. */
module Loading {
  import opened Core
  import opened Config
  import opened Schema

  /* ---------------- finalising ---------------- */

  /** An unset timeout becomes 0.1 seconds, a negative one disables the timeout. */
  function FinalTimeout(timeout: real): real {
    var t := if timeout == 0.0 then 0.1 else timeout;
    if t < 0.0 then 0.0 else t
  }

  function Finalized(q: Query): Query { q.(timeout := FinalTimeout(q.timeout)) }

  /** Sets the timeout of every query in place. */
  method FinalizeQueries(queries: map<string, Query>) returns (r: map<string, Query>)
    ensures r.Keys == queries.Keys && forall b | b in queries :: r[b] == Finalized(queries[b])
  {
    r := queries;
    var rest := queries.Keys;
    while rest != {}
      invariant rest <= queries.Keys == r.Keys
      invariant forall b | b in queries :: r[b] == if b in rest then queries[b] else Finalized(queries[b])
      decreases rest
    {
      var b :| b in rest;
      var q := r[b];
      if q.timeout == 0.0 {
        q := q.(timeout := 0.1);
      }
      if q.timeout < 0.0 {
        q := q.(timeout := 0.0);
      }
      r := r[b := q];
      rest := rest - {b};
    }
  }

  /** Finalising twice is finalising once exactly for queries whose timeout is not disabled. */
  lemma FinalizingTwice(q: Query)
    ensures Finalized(Finalized(q)) == Finalized(q) <==> q.timeout >= 0.0
    ensures q.timeout < 0.0 ==> Finalized(q).timeout == 0.0 && Finalized(Finalized(q)).timeout == 0.1
    ensures q.timeout == 0.0 ==> Finalized(q) == q.(timeout := 0.1)
    ensures q.timeout > 0.0 ==> Finalized(q) == q
  {
  }

  /** Acceptance does not depend on timeout and priority. */
  lemma ScheduleDoesNotMatter(env: Env, q: Query, r: Query)
    requires Accepted(env, q) && r == q.(timeout := r.timeout, priority := r.priority)
    ensures Accepted(env, r)
  {
    assert LabelList(r) == LabelList(q);
    assert forall m :: IsHistogram(r, m) <==> IsHistogram(q, m);
    assert forall c :: Families(r, c) == Families(q, c);
    assert forall a, b | a in q.columns && b in q.columns :: DisjointFamilies(r, a, b) <==> DisjointFamilies(q, a, b);
  }

  /* ---------------- one file ---------------- */

  /** A configuration file: unreadable or malformed, or its decoded content. */
  datatype File = Unusable | Content(raw: RawConfig)

  ghost predicate Loadable(env: Env, f: File) {
    f.Content? && AcceptableConfig(env, f.raw)
  }

  /** The queries of a loadable file: parsed, and finalised once. */
  ghost function QueriesOf(env: Env, f: File): map<string, Query>
    requires Loadable(env, f)
  {
    map b | b in f.raw :: Finalized(ParsedQuery(b, f.raw[b].value))
  }

  ghost function Loaded(env: Env, f: File): Option<map<string, Query>> {
    if Loadable(env, f) then Some(QueriesOf(env, f)) else None
  }

  method LoadFile(env: Env, f: File) returns (r: Option<map<string, Query>>)
    ensures r == Loaded(env, f)
  {
    if f.Unusable? {
      return None;
    }
    var parsed := ParseConfig(env, f.raw);
    if parsed.None? {
      return None;
    }
    var queries := FinalizeQueries(parsed.value);
    assert queries == QueriesOf(env, f);
    return Some(queries);
  }

  /* ---------------- a directory ---------------- */

  /** What each file contributes: nothing if it does not load. */
  type Contributions = seq<Option<map<string, Query>>>

  ghost function ContributionsOf(env: Env, files: seq<File>): Contributions {
    seq(|files|, i requires 0 <= i < |files| => Loaded(env, files[i]))
  }

  /** The number of loadable files among the first n. */
  ghost function Rank(cs: Contributions, n: nat): nat
    requires n <= |cs|
  {
    if n == 0 then 0 else Rank(cs, n - 1) + (if cs[n - 1].Some? then 1 else 0)
  }

  predicate Defines(c: Option<map<string, Query>>, name: string) {
    c.Some? && name in c.value
  }

  /** The last of the first n files to define the query. */
  ghost function LastWriter(cs: Contributions, n: nat, name: string): (r: Option<nat>)
    requires n <= |cs|
    ensures r.Some? ==> r.value < n && Defines(cs[r.value], name)
  {
    if n == 0 then None
    else if Defines(cs[n - 1], name) then Some(n - 1)
    else LastWriter(cs, n - 1, name)
  }

  /** The last writer is a file that defines the name, with no later file that does; there is none iff no file does. */
  lemma {:induction false} LastWriterIsLast(cs: Contributions, n: nat, name: string)
    requires n <= |cs|
    ensures forall k: nat :: LastWriter(cs, n, name) == Some(k) <==>
              k < n && Defines(cs[k], name) && forall j | k < j < n :: !Defines(cs[j], name)
    ensures LastWriter(cs, n, name).None? <==> forall j | 0 <= j < n :: !Defines(cs[j], name)
  {
    if n > 0 {
      LastWriterIsLast(cs, n - 1, name);
    }
  }

  /** An unset priority becomes 100 plus the file's rank among the loadable files. */
  function Prioritized(q: Query, rank: nat): Query {
    if q.priority == 0 then q.(priority := 100 + rank) else q
  }

  /** A name maps to its definition in the last loadable file, among the first n, that defines it. */
  ghost predicate HasLastDefinition(cs: Contributions, n: nat, queries: map<string, Query>, name: string)
    requires n <= |cs|
  {
    match LastWriter(cs, n, name)
    case None => name !in queries
    case Some(k) => name in queries && queries[name] == Prioritized(cs[k].value[name], Rank(cs, k + 1))
  }

  ghost predicate LastWriterWins(cs: Contributions, n: nat, queries: map<string, Query>)
    requires n <= |cs|
  {
    forall name :: HasLastDefinition(cs, n, queries, name)
  }

  /**
   Loads every file of a directory in order, skipping those that do not load. It fails exactly when there are
   files but none contributes a query; otherwise the last writer of each name wins.
   */
  method LoadDirectory(env: Env, files: seq<File>) returns (r: Option<map<string, Query>>)
    ensures var cs := ContributionsOf(env, files);
            && (r.None? <==> files != [] && forall k, name | 0 <= k < |cs| :: !Defines(cs[k], name))
            && (r.Some? ==> LastWriterWins(cs, |cs|, r.value))
  {
    hide Loaded, LastWriterWins;
    ghost var cs := ContributionsOf(env, files);
    var queries: map<string, Query> := map[];
    var configCount := 0;
    NothingWritten(cs);
    for i := 0 to |files|
      invariant configCount == Rank(cs, i)
      invariant LastWriterWins(cs, i, queries)
    {
      var loaded := LoadFile(env, files[i]);
      if loaded.None? {
        SkippedFile(cs, i, queries);
      } else {
        configCount := configCount + 1;
        var merged := Merge(queries, loaded.value, configCount);
        WrittenFile(cs, i, queries, merged);
        queries := merged;
      }
    }
    SomeoneDefines(cs, queries);
    if |files| > 0 && |queries| == 0 {
      return None;
    }
    return Some(queries);
  }

  /** Writes the queries of one file over the earlier ones. */
  method Merge(queries: map<string, Query>, single: map<string, Query>, rank: nat) returns (r: map<string, Query>)
    ensures r.Keys == queries.Keys + single.Keys
    ensures forall n | n in r :: r[n] == if n in single then Prioritized(single[n], rank) else queries[n]
  {
    r := queries;
    var rest := single.Keys;
    while rest != {}
      invariant rest <= single.Keys && r.Keys == queries.Keys + (single.Keys - rest)
      invariant forall n | n in r :: r[n] == if n in single && n !in rest then Prioritized(single[n], rank)
                                              else queries[n]
      decreases rest
    {
      var name :| name in rest;
      rest := rest - {name};
      var query := single[name];
      if query.priority == 0 {
        query := query.(priority := 100 + rank);
      }
      r := r[name := query];
    }
  }

  lemma NothingWritten(cs: Contributions)
    ensures LastWriterWins(cs, 0, map[])
  {
  }

  lemma SkippedFile(cs: Contributions, n: nat, queries: map<string, Query>)
    requires n < |cs| && LastWriterWins(cs, n, queries) && cs[n].None?
    ensures LastWriterWins(cs, n + 1, queries)
  {
    var n' := n + 1;
    forall name ensures HasLastDefinition(cs, n', queries, name) {
      assert HasLastDefinition(cs, n, queries, name);
    }
  }

  lemma WrittenFile(cs: Contributions, n: nat, queries: map<string, Query>, merged: map<string, Query>)
    requires n < |cs| && LastWriterWins(cs, n, queries) && cs[n].Some?
    requires merged.Keys == queries.Keys + cs[n].value.Keys
    requires forall x | x in merged ::
               merged[x] == if x in cs[n].value then Prioritized(cs[n].value[x], Rank(cs, n + 1)) else queries[x]
    ensures LastWriterWins(cs, n + 1, merged)
  {
    var n' := n + 1;
    forall name ensures HasLastDefinition(cs, n', merged, name) {
      assert HasLastDefinition(cs, n, queries, name);
      assert name in merged <==> name in queries || name in cs[n].value;
    }
  }

  lemma SomeoneDefines(cs: Contributions, queries: map<string, Query>)
    requires LastWriterWins(cs, |cs|, queries)
    ensures queries == map[] <==> forall k, name | 0 <= k < |cs| :: !Defines(cs[k], name)
  {
    if queries == map[] {
      forall k, name | 0 <= k < |cs| ensures !Defines(cs[k], name) {
        LastWriterIsLast(cs, |cs|, name);
        assert HasLastDefinition(cs, |cs|, queries, name);
      }
    } else {
      var name :| name in queries;
      assert HasLastDefinition(cs, |cs|, queries, name);
      assert Defines(cs[LastWriter(cs, |cs|, name).value], name);
    }
  }

  /* ---------------- what loading guarantees ---------------- */

  ghost predicate AllAccepted(env: Env, queries: map<string, Query>) {
    forall b | b in queries :: Accepted(env, queries[b]) && queries[b].branch == b
  }

  /** Every query a directory contributes is accepted, and is keyed by its branch. */
  lemma LoadedQueriesAreAccepted(env: Env, files: seq<File>, queries: map<string, Query>)
    requires var cs := ContributionsOf(env, files); LastWriterWins(cs, |cs|, queries)
    ensures AllAccepted(env, queries)
  {
    hide Loaded, Accepted;
    var cs := ContributionsOf(env, files);
    forall b | b in queries ensures Accepted(env, queries[b]) && queries[b].branch == b {
      assert HasLastDefinition(cs, |cs|, queries, b);
      var k := LastWriter(cs, |cs|, b).value;
      DefinitionsAreAccepted(env, files[k], b, Rank(cs, k + 1));
    }
  }

  lemma DefinitionsAreAccepted(env: Env, f: File, b: string, rank: nat)
    requires Loaded(env, f).Some? && b in Loaded(env, f).value
    ensures var q := Prioritized(Loaded(env, f).value[b], rank);
            Accepted(env, q) && q.branch == b && q.timeout == FinalTimeout(f.raw[b].value.timeout)
  {
    hide Accepted;
    var q := ParsedQuery(b, f.raw[b].value);
    ParsedQueriesAreAccepted(env, b, f.raw[b].value);
    ScheduleDoesNotMatter(env, q, Finalized(q));
    ScheduleDoesNotMatter(env, Finalized(q), Prioritized(Finalized(q), rank));
  }

  /** Each name keeps the timeout its winning definition was given, finalised exactly once. */
  lemma QueriesAreFinalizedOnce(env: Env, files: seq<File>, queries: map<string, Query>, b: string, k: nat)
    requires var cs := ContributionsOf(env, files);
             LastWriterWins(cs, |cs|, queries) && LastWriter(cs, |cs|, b) == Some(k)
    ensures b in queries && files[k].Content? && b in files[k].raw && files[k].raw[b].Some?
    ensures queries[b].timeout == FinalTimeout(files[k].raw[b].value.timeout)
  {
    hide Accepted;
    assert HasLastDefinition(ContributionsOf(env, files), |files|, queries, b);
    DefinitionsAreAccepted(env, files[k], b, Rank(ContributionsOf(env, files), k + 1));
  }

  ghost function LoadableBefore(cs: Contributions, n: nat): set<int>
    requires n <= |cs|
  {
    set k | 0 <= k < n && cs[k].Some?
  }

  lemma {:induction false} RankCountsFiles(cs: Contributions, n: nat)
    requires n <= |cs|
    ensures Rank(cs, n) == |LoadableBefore(cs, n)|
  {
    if n == 0 {
      assert LoadableBefore(cs, 0) == {};
    } else {
      RankCountsFiles(cs, n - 1);
      assert LoadableBefore(cs, n) == LoadableBefore(cs, n - 1) + (if cs[n - 1].Some? then {n - 1} else {});
    }
  }

  /**
   The query of a name, told from the files: file k is the last loadable one to define it, a priority it sets is kept,
   and an unset one becomes 100 plus the number of loadable files up to k; everything else is as parsed.
   */
  lemma LastFileDecides(env: Env, files: seq<File>, queries: map<string, Query>, b: string, k: nat)
    requires var cs := ContributionsOf(env, files); LastWriterWins(cs, |cs|, queries)
    requires k < |files| && Loadable(env, files[k]) && b in files[k].raw
    requires forall j | k < j < |files| && Loadable(env, files[j]) :: b !in files[j].raw
    ensures b in queries
    ensures var raw, loadable := files[k].raw[b].value, set j | 0 <= j <= k && Loadable(env, files[j]);
            && queries[b].priority == (if raw.priority != 0 then raw.priority else 100 + |loadable|)
            && queries[b] == ParsedQuery(b, raw).(timeout := queries[b].timeout, priority := queries[b].priority)
  {
    hide Loadable, Loaded, LastWriterWins, Rank, ParsedQuery, Finalized, Prioritized, ContributionsOf, LoadableBefore;
    var cs := ContributionsOf(env, files);
    ContributionsDefine(env, files, b);
    LastDefinition(cs, queries, b, k);
    DefinitionIn(env, files[k], b);
    RankCountsFiles(cs, k + 1);
    LoadableFilesBefore(env, files, k + 1);
    PriorityOf(b, files[k].raw[b].value, Rank(cs, k + 1));
  }

  lemma LastDefinition(cs: Contributions, queries: map<string, Query>, b: string, k: nat)
    requires LastWriterWins(cs, |cs|, queries) && k < |cs| && Defines(cs[k], b)
    requires forall j | k < j < |cs| :: !Defines(cs[j], b)
    ensures b in queries && queries[b] == Prioritized(cs[k].value[b], Rank(cs, k + 1))
  {
    LastWriterIsLast(cs, |cs|, b);
    assert HasLastDefinition(cs, |cs|, queries, b);
  }

  lemma DefinitionIn(env: Env, f: File, b: string)
    requires Loadable(env, f) && b in f.raw
    ensures f.Content? && f.raw[b].Some? && ShapeOk(f.raw[b].value)
    ensures Loaded(env, f) == Some(QueriesOf(env, f))
    ensures QueriesOf(env, f)[b] == Finalized(ParsedQuery(b, f.raw[b].value))
  {
    hide ShapeOk, ParsedQuery, Finalized;
  }

  lemma LoadableFilesBefore(env: Env, files: seq<File>, n: nat)
    requires n <= |files|
    ensures LoadableBefore(ContributionsOf(env, files), n) == set j | 0 <= j <= n - 1 && Loadable(env, files[j])
  {
    hide Loadable, QueriesOf;
  }

  lemma PriorityOf(b: string, raw: RawQuery, rank: nat)
    requires ShapeOk(raw)
    ensures var parsed, q := ParsedQuery(b, raw), Prioritized(Finalized(ParsedQuery(b, raw)), rank);
            && q.priority == (if raw.priority != 0 then raw.priority else 100 + rank)
            && q == parsed.(timeout := q.timeout, priority := q.priority)
  {
  }

  lemma ContributionsDefine(env: Env, files: seq<File>, b: string)
    ensures var cs := ContributionsOf(env, files);
            && |cs| == |files|
            && forall j | 0 <= j < |files| ::
                 && cs[j] == Loaded(env, files[j]) && (cs[j].Some? <==> Loadable(env, files[j]))
                 && (Defines(cs[j], b) <==> Loadable(env, files[j]) && b in files[j].raw)
  {
    hide AcceptableConfig, ParsedQuery, Finalized;
  }

  lemma FileQueriesAreAccepted(env: Env, f: File)
    requires Loadable(env, f)
    ensures AllAccepted(env, QueriesOf(env, f))
  {
    hide Accepted;
    var queries := QueriesOf(env, f);
    forall b | b in queries ensures Accepted(env, queries[b]) && queries[b].branch == b {
      var q := ParsedQuery(b, f.raw[b].value);
      ParsedQueriesAreAccepted(env, b, f.raw[b].value);
      ScheduleDoesNotMatter(env, q, Finalized(q));
    }
  }

  /* ---------------- the configured path ---------------- */

  datatype Source = SingleFile(file: File) | Directory(files: seq<File>)

  /** The outcome of loading a path. */
  ghost predicate LoadsAs(env: Env, source: Source, r: Option<map<string, Query>>) {
    match source
    case SingleFile(f) => r == Loaded(env, f)
    case Directory(files) =>
      var cs := ContributionsOf(env, files);
      && (r.None? <==> files != [] && forall k, name | 0 <= k < |cs| :: !Defines(cs[k], name))
      && (r.Some? ==> LastWriterWins(cs, |cs|, r.value))
  }

  method LoadConfig(env: Env, source: Source) returns (r: Option<map<string, Query>>)
    ensures LoadsAs(env, source, r)
    ensures r.Some? ==> AllAccepted(env, r.value)
  {
    hide AllAccepted, LastWriterWins;
    match source {
      case SingleFile(f) =>
        r := LoadFile(env, f);
        if r.Some? {
          FileQueriesAreAccepted(env, f);
        }
      case Directory(files) =>
        r := LoadDirectory(env, files);
        if r.Some? {
          LoadedQueriesAreAccepted(env, files, r.value);
        }
    }
  }

  /* ---------------- constant labels ---------------- */

  ghost predicate NoConflicts(constLabels: map<string, Bytes>, queries: map<string, Query>, disableIntro: bool) {
    && (constLabels != map[] && !disableIntro ==> "datname" !in constLabels && "query" !in constLabels)
    && (forall b | b in queries :: LabelColumns(queries[b]) ==> NoConflict(constLabels, queries[b]))
  }

  /** Rejects constant labels that would repeat a variable label of some descriptor. */
  method ValidateConstLabelConflicts(constLabels: map<string, Bytes>, queries: map<string, Query>, disableIntro: bool)
    returns (ok: bool)
    requires forall b | b in queries :: LabelColumns(queries[b])
    ensures ok <==> NoConflicts(constLabels, queries, disableIntro)
  {
    if |constLabels| == 0 {
      assert constLabels == map[];
      return true;
    }
    if !disableIntro {
      if "datname" in constLabels || "query" in constLabels {
        return false;
      }
    }
    var rest := queries.Keys;
    while rest != {}
      invariant rest <= queries.Keys
      invariant forall b | b in queries && b !in rest :: NoConflict(constLabels, queries[b])
      decreases rest
    {
      var branch :| branch in rest;
      rest := rest - {branch};
      var q := queries[branch];
      var hasHistogram := SearchHistogram(q);
      if "le" in constLabels && hasHistogram {
        return false;
      }
      var labels := RenamedLabels(q);
      for i := 0 to |labels|
        invariant forall k | 0 <= k < i :: labels[k] !in constLabels
      {
        if labels[i] in constLabels {
          assert labels[i] in LabelList(q);
          return false;
        }
      }
    }
    return true;
  }

  /** The labels of the exporter's own metrics about its queries. */
  const INTRO_LABELS := ["datname", "query"]

  /**
   With some constant label, no conflict means that every descriptor keeps its label names apart: those of the
   exporter's own metrics, unless they are switched off, and the labels and generated le of every query.
   */
  lemma NoConflictsMeansDistinctLabels(constLabels: map<string, Bytes>, queries: map<string, Query>, disableIntro: bool)
    requires forall b | b in queries ::
               && LabelColumns(queries[b]) && NoDuplicates(LabelList(queries[b]))
               && (HasHistogram(queries[b]) ==> "le" !in LabelList(queries[b]))
    requires constLabels != map[]
    ensures NoConflicts(constLabels, queries, disableIntro) <==>
              && (!disableIntro ==> DistinctLabels(Desc("", INTRO_LABELS, constLabels)))
              && forall b | b in queries :: DistinctIn(constLabels, queries[b])
  {
    assert INTRO_LABELS[0] == "datname" && INTRO_LABELS[1] == "query";
    assert "datname"[0] != "query"[0];
    forall b | b in queries ensures NoConflict(constLabels, queries[b]) <==> DistinctIn(constLabels, queries[b]) {
      var labels := LabelList(queries[b]);
      assert forall l :: l in labels + ["le"] <==> l in labels || l == "le";
    }
  }

  ghost predicate DistinctIn(constLabels: map<string, Bytes>, q: Query)
    requires LabelColumns(q)
  {
    DistinctLabels(Desc("", LabelList(q) + (if HasHistogram(q) then ["le"] else []), constLabels))
  }
}
