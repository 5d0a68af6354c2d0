# A verified model of pg_exporter

pg_exporter turns the result sets of SQL queries into Prometheus series on every scrape. This project models
the stateful core of it in Dafny 4.11 and proves what that core is for: histograms that count rows, caches with
bounded staleness, plans that agree with the facts, scrapes that run every collector once, discovery that
agrees with recomputation, reloads that reach every server, a configuration check that rules out colliding
series for every result set, and whole lives of an exporter, through any checks, scrapes and reloads, in which
no server whose scrape succeeds holds a result older than its TTL.

`dafny verify dfyconfig.toml` verifies everything.

## How it is built

Each component is modelled in the form the program gives it. `Collector`, `Server` and `Exporter` are classes
whose methods update their fields; parsing, loading and planning are methods with loops; casts are functions.
Beside each of them stands a specification on values, and the methods are proved to compute it. The laws are
lemmas about the specifications and hold for every input, every run and every interleaving. They are stated in
terms of what goes in and what comes out: raw data, decoded configuration, replies, clock readings, files and tags.

| file | component |
|---|---|
| `Core`, `Clock`, `Casting`, `LabelKey` | values, time, casts, the group key and its order |
| `Histogram`, `Snapshot`, `Scan`, `Publish` | counting specification, what a reply publishes, the row scan and the emission |
| `SnapshotLaws`, `PublicationLaws`, `OrderLaws`, `SeriesIdentity`, `Permutations` | what published samples mean in terms of the raw rows, exactly when a refresh fails, row order, identity of series |
| `CacheLaw`, `Predicates`, `CollectorSpec`, `Collector` | result cache, predicate cache, the collector as a value and as an object |
| `Schema`, `Config`, `ConfigRoundTrip`, `Loading` | accepted queries, parsing, writing back, finalising, directories, constant labels |
| `Planning`, `Semver`, `Scrape`, `Statistics` | compatibility, versions, the two passes, counters |
| `Visits`, `FactLaws`, `Server` | a server as a value and what one scrape, check or reload makes of it, the facts and plans of whole runs, the server object |
| `Discovery`, `ClusterLaw`, `Exporter`, `HealthLoop` | auto-discovery, cluster-level queries, the exporter object, the health loop protocol |
| `Histories`, `Lifecycle` | what the state of an installed collector stands for, whole lives of an exporter |

What comes from outside is a parameter. The database is an oracle: every scrape is given, per server, the reply
to the precheck and, per branch, what every predicate query and the main query would answer (`PrecheckReply`,
`Answers`, `Visit`). Clock readings are parameters too: integers of nanoseconds, and their difference saturates
as a `time.Duration` does. Library functions are fields of `Env`: parsing and formatting of numbers, validity of
label values and of names. About them only `Env.Valid` is assumed: formatting is injective on the values that a
float64 holds exactly, gives valid text and never `+Inf`, and `le` is a valid label name; `Core.ValidEnvExists`
shows that this can be met. Floating-point values are NaN, two infinities or an exact real, so the two zeros are
one value; results at or beyond the float64 range become infinite. Bucket bounds are values of a float64. Byte
strings stand for label values, because lengths count bytes.
Iteration over a Go map takes its elements in arbitrary order.

Some promises turn out to hold only under a condition. The code is modelled as it is, a lemma gives an input
that breaks the promise, and the exact condition is proved:

- the row order can make a refresh fail, because running sums may overflow in one order only: a query and two
  orders of its rows (`OrderLaws.OrderCanFailARefresh`), and exactly when no order fails
  (`OrderLaws.EveryOrderIsSafeIffBounded`);
- auto-discovery keeps a server for a database to which the primary connection has moved, when both databases are
  listed before and after (`Discovery.MovedPrimaryStaysDiscovered`, `Discovery.StepAgreesIff`);
- finalising a query twice re-enables a disabled timeout (`Loading.FinalizingTwice`), which is why loading is
  proved to finalise once;
- `ParseSemver` keeps the order of versions only while minor and release numbers are small and the number fits an
  int64: 1.0.100 collides with 1.1.0 (`Semver.LargeComponentsCollide`), and 922337203685478.0.0 is read as less
  than 1.0.0 (`Semver.LargeMajorWraps`); the exact conditions are `Semver.ReadsBack` and `Semver.OrderIsKeptIff`;
- with caching on, a collector whose TTL is the largest Duration never executes, and any other one does
  (`CollectorSpec.SomethingExecutesIff`).

Where comments and code differ the model follows the code: a comment at exporter/collector.go:164-165 calls a
failing predicate query a skip, but such a call is reported and counted as an error, not as a skip.

## Model

| member | source | states |
|---|---|---|
| `LabelKey.EncodeLabelTuple` | exporter/utils.go:186-194 | the loop builds, for every tuple, the concatenation of decimal byte length, colon and text of each value |
| `LabelKey.DecodeInvertsEncode` | exporter/utils.go:184-194 | a decoder that reads a decimal length, a colon and that many bytes recovers every tuple, of any length and content |
| `LabelKey.EncodeIsInjective` | exporter/collector.go:356-365 | so two different tuples never share an accumulator |
| `LabelKey.SortedKeys` | exporter/collector.go:406-410 | every group key once, in strictly ascending byte order |
| `LabelKey.LessIff` | exporter/collector.go:406-410 | that order is: a proper prefix first, or else the smaller byte at the first place where two keys differ |
| `LabelKey.ListingIsUnique` | exporter/collector.go:398-412 | there is only one way to list a set of tuples in ascending order of their keys, so the emission order is determined by the set |
| `Casting.HistogramCastMirrorsScalarCast` | exporter/utils.go:92-182 | for every datum, a present histogram observation is the finite value the scalar cast yields; NULL without a default is absent, and everything else that is not finite is invalid |
| `Casting.NumbersAreScaled` | exporter/utils.go:92-103 | a number is taken as it is without a scale and multiplied by the scale otherwise |
| `Casting.OtherDataCountAsNumbers` | exporter/utils.go:104-136 | text counts as the number it parses as, NULL as the default, a timestamp as its seconds and a boolean as one or zero, the last two never scaled; whatever is none of these is NaN |
| `Casting.LabelCastShowsDatum` | exporter/utils.go:197-221 | a label shows text and bytes unchanged, integers and timestamps as decimal text that is read back to them, booleans as true and false, and NULL as the empty text |
| `Histogram.SearchFloats` | exporter/collector.go:366-366 | the binary search returns the only interval in which every earlier bound is below the value and every later one is not |
| `Histogram.PrefixSumStep` | exporter/collector.go:440-451 | summing disjoint interval counts up to a bound gives the number of values at most that bound |
| `Histogram.Observe` | exporter/collector.go:351-373 | one observation turns a table that stands for some observations into one that stands for them and this one; it fails exactly when the running sum of its group leaves the float64 range |
| `Histogram.HistogramMetrics` | exporter/collector.go:431-471 | an accumulator becomes the cumulative counting series of its group, or nothing exactly when a label value is not valid text |
| `Scan.Append` | exporter/collector.go:241-241 | appending into the recycled backing array yields the old prefix and the new metric, whatever the array held behind the prefix |
| `Scan.IndexColumns` | exporter/collector.go:287-290 | every column name maps to its last position |
| `Scan.ScanHistogram` | exporter/collector.go:342-374 | one cell of a histogram column extends the accumulators by its observation, and fails exactly on an invalid value or an overflowing sum |
| `Scan.ScanRow` | exporter/collector.go:331-391 | one row extends scalars and accumulators exactly as the specification of that row says, or fails exactly when some cell of it is unusable or some sum overflows |
| `Publish.ScanRows` | exporter/collector.go:323-396 | the scan fails exactly when some row is not usable or some running sum overflows; otherwise the buffer holds the scalars of all rows and the accumulators stand for all observations |
| `Publish.EmitGroups` | exporter/collector.go:405-419 | the groups of one column are emitted as the sections of its observed tuples in key order |
| `Publish.EmitHistograms` | exporter/collector.go:398-420 | all histogram columns are emitted in configured order, or the refresh fails exactly when a group has invalid text |
| `Publish.CheckSchema` | exporter/collector.go:300-319 | passes exactly when every label column and every histogram column is in the result |
| `Publish.RunMainQuery` | exporter/collector.go:264-426 | the main query succeeds exactly when its reply is publishable, and then the buffer prefix is the complete published snapshot |
| `SnapshotLaws.GroupExistsIffObserved` | exporter/collector.go:347-365 | a group exists exactly when some row with its tuple has a present observation |
| `SnapshotLaws.SeriesCountRows` | exporter/collector.go:431-470 | for every row sequence, the sample for tuple and bound counts the rows with that tuple whose present value is at most the bound; +Inf and count are the size of the group and the sum is the fold of its values in row order |
| `SnapshotLaws.ColumnPublishesItsGroups` | exporter/collector.go:398-420 | a sample is published for a histogram column exactly when it belongs to the series of an observed group |
| `PublicationLaws.LabelsShowData` | exporter/collector.go:331-335 | each label value shows the datum of the last result column of its name |
| `PublicationLaws.TextRowsShareAGroupIff` | exporter/collector.go:356-365 | two rows with text labels share a group if and only if all their label texts are equal byte for byte |
| `PublicationLaws.SeriesCountTextRows` | exporter/collector.go:431-470 | with text labels, the rows that the sample of a bound counts are exactly those that carry the texts of its tuple and a present value at most the bound |
| `PublicationLaws.ScalarsAreRowMajor` | exporter/collector.go:376-391 | scalar samples come row by row, one for each scalar column of the result in configured order, with the labels of the row, the kind of the usage and the cast datum of the column |
| `PublicationLaws.ScalarsHaveWidth` | exporter/collector.go:337-391 | no scalar sample is missing or repeated: there are as many as rows times scalar columns in the result |
| `PublicationLaws.HistogramsFollowConfiguration` | exporter/collector.go:398-420 | the sections of the histogram columns follow each other in configured order |
| `PublicationLaws.FamiliesAreNamed` | exporter/collector.go:476-519 | families are named after query and column as renamed, with the suffixes and the le label of a histogram |
| `PublicationLaws.RefreshFailsIff` | exporter/collector.go:264-426 | a refresh fails if and only if the query fails, the iteration breaks off, a needed column is missing, some row is unreadable, has an unusable cell or shows an invalid label, or some running sum overflows |
| `OrderLaws.HistogramsIgnoreRowOrder` | exporter/collector.go:398-420 | any permutation of the rows publishes the same sequence of histogram samples (under exact addition) |
| `OrderLaws.UsabilityIgnoresRowOrder` | exporter/collector.go:342-373 | an uncastable or invalid row fails the refresh in every position |
| `OrderLaws.EveryOrderIsSafeIffBounded` | exporter/collector.go:369-373 | the row order cannot make the refresh fail by overflow if and only if, in every group, the positive values alone and the negative values alone stay in range |
| `OrderLaws.OrderCanFailARefresh` | exporter/collector.go:369-373 | an accepted query and one set of rows whose refresh fails in one order and publishes in another |
| `SeriesIdentity.HistogramsNeverCollide` | exporter/config.go:143-178 | for an accepted query and every result set, no two published histogram samples share family and label values including le |
| `SeriesIdentity.ScalarsAvoidHistogramFamilies` | exporter/config.go:143-178 | and no scalar sample shares a family with a histogram sample |
| `Schema.MakeDescMap` | exporter/collector.go:476-519 | the two descriptor maps cover exactly the scalar and the histogram columns, with renamed labels, derived names and the generated le |
| `Schema.AcceptedDescriptorsAreValid` | exporter/collector.go:476-519 | if parsing and the constant-label check both accept, every descriptor has valid names and pairwise distinct variable, generated and constant labels |
| `Schema.NamesAreAcceptedIff` | exporter/config.go:120-178 | labels and families are accepted if and only if every descriptor is valid and no two metric columns reserve the same name: no harmless name is rejected |
| `Schema.BucketsAreValidIff` | exporter/config.go:186-199 | a bucket list is valid if and only if there is a bound and each is finite and less than the next |
| `Collectors.Collector.constructor` | exporter/collector.go:68-80 | a new collector is empty, has never run, and has an empty predicate cache |
| `Collectors.Collector.ExecutePredicateQueries` | exporter/collector.go:134-234 | the loop computes the evaluation of the predicates with their caches: decision, new cache, reported name and which predicates were asked |
| `Collectors.Collector.Execute` | exporter/collector.go:237-426 | one execution moves the whole state of the collector as specified, although the new result is built in the backing array of the old one |
| `Collectors.Collector.Collect` | exporter/collector.go:89-104 | executes exactly when the cache has expired or is disabled, and sends exactly the result held afterwards |
| `CollectorSpec.ExecutionHasThreeOutcomes` | exporter/collector.go:237-262 | every execution ends in exactly one of: error with empty result, predicate skip with empty result and no error, or the complete new result |
| `CollectorSpec.ExecutionFollowsPredicates` | exporter/collector.go:237-426 | which outcome it is: the first predicate that is not true skips the query without an error if it is false and fails it if it is an error, in its own name; if all are true, a publishable reply is published completely and any other is an error without a name |
| `CollectorSpec.SomethingDecides` | exporter/collector.go:134-234 | either all predicates are true or one decides, so one of these cases always applies |
| `CollectorSpec.CallsFollowPredicates` | exporter/collector.go:89-104 | every call of a run: a real one records its time, is no cache hit and has the outcome its predicates and its reply call for; any other is a cache hit and changes nothing else |
| `CollectorSpec.ExecutionForgetsTheOldSnapshot` | exporter/collector.go:238-244 | nothing of the previous snapshot influences an execution; only the predicate cache carries over |
| `CollectorSpec.RunFollowsCacheLaw` | exporter/collector.go:89-104 | every run of a collector is a run of the generic cache over the outcomes of its executions |
| `CollectorSpec.SnapshotsAreFresh` | exporter/collector.go:89-104 | what is visible after any run is exactly the outcome, success, skip or empty failure, of an execution at most the TTL old |
| `CollectorSpec.RealMeansExpiredOrDisabled` | exporter/collector.go:549-551 | a call really executes exactly when the cache has expired or is disabled |
| `CollectorSpec.ExecutionsAreSpaced` | exporter/collector.go:93-98 | n real executions after a given one span more than n times the TTL |
| `CollectorSpec.FirstCallExecutes` | exporter/collector.go:549-551 | a new collector executes on its first call if and only if caching is off or the TTL is below the largest Duration |
| `CollectorSpec.SomethingExecutesIff` | exporter/collector.go:549-551 | some call of a run really executes if and only if caching is off or the TTL is below the largest Duration |
| `CollectorSpec.PredicateCacheFollowsProbes` | exporter/collector.go:144-157 | the predicate cache of a collector depends only on its real executions |
| `CollectorSpec.MainQueryRunsOnlyWhenBacked` | exporter/collector.go:134-262 | over every run, the decision of the next execution is the one direct evaluation would take, and the main query runs only if every predicate was answered true now or less than its TTL ago |
| `CacheLaw.Staleness` | exporter/collector.go:89-104 | what a TTL cache holds is the outcome of the last real execution, and with caching on that is at most the TTL old |
| `CacheLaw.Spacing` | exporter/collector.go:549-551 | in any run of a TTL cache, n real executions after a given one span more than n times the TTL |
| `Predicates.Evaluate` | exporter/collector.go:160-220 | a predicate answer is an error or passes exactly if it is one boolean column with at most one row, which is true |
| `Predicates.VerdictsAreExact` | exporter/collector.go:177-220 | of all answers exactly one passes and exactly three say no; every other one is an error |
| `Predicates.NamesTellPredicates` | exporter/collector.go:135-139 | a predicate is reported by its own name or else by its index in decimal digits |
| `Predicates.DecisionRefinesFrom` | exporter/collector.go:134-234 | with a consistent cache the evaluation runs, skips or fails as the first predicate whose effective answer is not true decides |
| `Predicates.FirstNotTrueDecides` | exporter/collector.go:134-234 | the decision is determined by what the predicates say: run exactly if all are true, skip if the first that is not is false, fail if it is an error |
| `Predicates.FreshAnswersAreNotAskedAgain` | exporter/collector.go:144-157 | over every run, a predicate is asked if and only if all before it say true and its last answer is not less than its TTL old; a younger answer decides in place of the database |
| `Predicates.CachingRefinesDirectEvaluation` | exporter/collector.go:144-157 | over all runs the cache holds only answers the database really gave, never an error, and the decision refines direct evaluation |
| `Predicates.MainQueryIsBacked` | exporter/collector.go:231-262 | the main query runs only if every predicate is backed by a true answer younger than its TTL or given now |
| `Config.ValidateHistogramBuckets` | exporter/config.go:186-199 | accepts exactly the non-empty, finite, strictly increasing bucket lists |
| `Config.ParseColumns` | exporter/config.go:68-116 | classifies the columns in order, and fails exactly on a malformed entry or a repeated name |
| `Config.ValidateLabels` | exporter/config.go:120-141 | accepts exactly valid, pairwise distinct renamed labels without le when there is a histogram |
| `Config.ValidateFamilies` | exporter/config.go:143-178 | accepts exactly the queries whose reserved names are valid and disjoint between metric columns |
| `Config.ParseConfig` | exporter/config.go:36-181 | succeeds exactly on the acceptable configurations, whatever the order of the map, and returns each branch parsed |
| `Config.ParsedQueriesAreAccepted` | exporter/config.go:36-181 | every parsed query has all the properties that emission relies on |
| `ConfigRoundTrip.ConfigurationIsAcceptedIff` | exporter/config.go:36-181 | a configuration is accepted if and only if it writes, option by option, some accepted query, and then it is parsed to that query: no option is lost, changed or mixed up, nothing malformed passes and nothing usable is rejected |
| `ConfigRoundTrip.WrittenQueriesAreReadBack` | exporter/config.go:36-181 | the configuration of an accepted query, under any keys, is parsed back to the query itself |
| `ConfigRoundTrip.ParsedQueriesAreWritten` | exporter/config.go:68-116 | every parsed query is the one its configuration writes, with its labels and metrics in configured order |
| `Schema.RenamedLabels` | exporter/query.go:172-183 | the label names after renaming, in order |
| `Config.SearchHistogram` | exporter/query.go:197-204 | whether some metric column is a histogram |
| `Loading.FinalizeQueries` | exporter/config.go:201-217 | finalises every query once, whatever the order of the map |
| `Loading.FinalizingTwice` | exporter/config.go:207-214 | finalising sets an unset timeout to 0.1 seconds, disables a negative one and keeps any other; twice is once if and only if the timeout was not disabled |
| `Loading.LastWriterIsLast` | exporter/config.go:278-284 | the winner of a name is the last file that defines it |
| `Loading.LoadDirectory` | exporter/config.go:247-295 | fails exactly when there are files and none contributes a query; otherwise each name has its definition in the last loadable file defining it, an unset priority being 100 plus the rank among loadable files |
| `Loading.LoadedQueriesAreAccepted` | exporter/config.go:242-295 | every query a directory contributes is accepted and keyed by its branch |
| `Loading.QueriesAreFinalizedOnce` | exporter/config.go:201-217 | every name keeps the timeout of its winning definition, finalised exactly once |
| `Loading.LastFileDecides` | exporter/config.go:268-284 | told from the files: the last loadable file that defines a name decides; a priority it sets is kept and an unset one is 100 plus the number of loadable files up to it |
| `Loading.LoadConfig` | exporter/config.go:242-312 | loading a file or a directory has the outcome described for it, and yields accepted queries only |
| `Loading.ValidateConstLabelConflicts` | exporter/validate_labels.go:18-59 | accepts exactly the constant labels that repeat no renamed label, no generated le and, with introspection on, neither datname nor query |
| `Loading.NoConflictsMeansDistinctLabels` | exporter/validate_labels.go:10-59 | with constant labels there is no conflict if and only if every descriptor keeps its label names apart, those of the metrics about queries included unless they are off |
| `Semver.ParseSemver` | exporter/server.go:233-256 | the number of the leftmost match, with int64 wrap-around, or zero when there is no match or a group is out of range |
| `Semver.MatchAtIsComplete` | exporter/server.go:27-27 | three dotted groups of digits at a position are found as they are |
| `Semver.MatchAtIsSound` | exporter/server.go:27-27 | every match is three dotted groups of digits, the last not followed by a digit |
| `Semver.ReadsBack` | exporter/server.go:233-256 | in any text with no digit before it and none right after it, a formatted version is read back as its number if and only if that number fits an int64 |
| `Semver.ReadingPreservesOrder` | exporter/server.go:239-255 | with minor and release below 100 and numbers that fit an int64, ParseSemver orders version texts exactly as section 11 of Semantic Versioning 2.0.0 orders the versions |
| `Semver.OrderIsKeptIff` | exporter/server.go:239-255 | exactly which bounds on major, minor and release numbers make ParseSemver keep that order for all versions below them |
| `Semver.LargeMajorWraps` | exporter/server.go:239-255 | a version above 1.0.0 that is read as less than 1.0.0 because its number wraps around |
| `Semver.LargeComponentsCollide` | exporter/server.go:239-255 | ordered versions that are read as equal, and in the wrong order, because a component is 100 or more |
| `Planning.Compatible` | exporter/server.go:430-523 | true exactly when the query is not skipped, has the server mode, is in the version range, and every tag holds |
| `Planning.UntaggedQueriesFit` | exporter/server.go:430-452 | without further tags a query fits exactly if it is not skipped and the version is unknown or between its bounds, an unset bound being open |
| `Planning.ModesAgree` | exporter/server.go:436-442 | a query tagged pgbouncer never fits a postgres server, nor one without the tag a pgbouncer |
| `Planning.PrefixedTagsAskForFacts` | exporter/server.go:455-495 | one more prefixed tag asks exactly for the extension, schema, database or user it names, or for the absence of the server tag it names |
| `Planning.RoleTagsAskForRoles` | exporter/server.go:497-512 | one more cluster tag asks exactly for a server that is not forked, a primary tag for a primary, a standby tag for a standby |
| `Planning.OtherTagsAskForTags` | exporter/server.go:513-520 | any other tag asks exactly for a server that has it |
| `Planning.ClusterQueriesSkipForkedServers` | exporter/server.go:498-502 | a cluster-level query is never compatible with a forked server |
| `Planning.ExactlyOneBranchPasses` | exporter/server.go:444-452 | in a chain of adjacent version ranges whose last one is open and whose first bound may be open, exactly one branch passes for every known version from the first bound on |
| `Servers.Server.PostgresPrecheck` | exporter/server.go:260-366 | which facts each outcome of a precheck leaves behind, part-way failures included, and that the plan is voided exactly when version, recovery or database changed |
| `FactLaws.PrecheckTakesOver` | exporter/server.go:260-337 | the version becomes the one a reply tells, if it tells any; every other fact becomes that of a complete reply and is kept by any other |
| `FactLaws.FactsAreThoseLastFound` | exporter/server.go:260-337 | after any run of complete, partial and failed prechecks the facts are those of the last complete one, with the version of the last that told one |
| `FactLaws.PlanSurvivesIff` | exporter/server.go:289-337 | a plan survives a run of prechecks if and only if none of their replies tells another version, recovery state or database |
| `FactLaws.ChecksOnlyLearn` | exporter/server.go:260-366 | prechecks alone call no collector and count nothing; the list is that of the last complete one, and the server is up exactly if the last one was complete |
| `Servers.Server.DetectDatabaseChange` | exporter/server.go:339-364 | the two loops report exactly the difference of the database lists |
| `Servers.Server.PgbouncerPrecheck` | exporter/server.go:166-230 | the version comes from the row or else from the notice, an unparsable one changes nothing, and a new one voids the plan |
| `Servers.Server.Precheck` | exporter/server.go:109-113 | a precheck of either mode keeps every invariant of the server, so a plan that survives it agrees with the current version, recovery and database |
| `Servers.Server.Plan` | exporter/server.go:369-403 | afterwards exactly the compatible queries are installed, one new collector each, sorted by priority, and the statistics are reset |
| `Servers.SortByPriority` | exporter/server.go:392-396 | a permutation of the collectors in order of priority |
| `Servers.Server.ResetStats` | exporter/server.go:406-427 | the counters tally no calls, and every installed name has its entries |
| `Servers.Server.UpdateStats` | exporter/server.go:647-672 | the counters of the name of the collector are updated so that they still tally all calls since the reset |
| `Servers.Server.CollectFatalQueries` | exporter/server.go:619-631 | runs the fatal collectors until one fails, as the first pass specifies, leaving all others untouched |
| `Servers.Server.CollectNonFatalQueries` | exporter/server.go:634-644 | runs the other collectors whatever fails, as the second pass specifies |
| `Servers.Server.Collect` | exporter/server.go:578-615 | one scrape: the new facts, the collectors that ran and what they sent, the calls counted, UP if and only if nothing failed, and every server invariant kept, errors never exceeding scrapes |
| `Servers.Server.Serve` | exporter/server.go:578-644 | one scrape as a relation between the server before and after it: the scrape time, facts, list, counts and UP; a failed precheck runs nothing, and otherwise the two passes run over the collectors of the plan that was kept, in their old states, or over new collectors of exactly the compatible queries, and leave them in the states specified |
| `FactLaws.ScrapeKeepsPlanIff` | exporter/server.go:578-592 | a scrape keeps the plan if and only if the reply to its precheck tells no other version, recovery state or database |
| `FactLaws.ScrapeIsUpIff` | exporter/server.go:578-615 | after a scrape the server is up if and only if its precheck was complete and no fatal collector failed |
| `FactLaws.LowerPrioritiesRunFirst` | exporter/server.go:392-396 | in every scrape fatal collectors run before the others, and within each of the two those with lower priority numbers first |
| `Servers.Server.ApplyReload` | exporter/main.go:160-165 | the server holds the new queries, no collector and no plan, and starts its statistics afresh |
| `Servers.Server.ScrapedUnits` | exporter/server.go:498-502 | a scrape of a planned server runs over queries of its current set, one collector per branch, and no cluster-level query if it is forked |
| `Scrape.FatalPassStopsAtFirstFailure` | exporter/server.go:619-631 | the first pass runs, in installed order, exactly the fatal collectors up to and including the first that fails |
| `Scrape.NonFatalPassRunsTheRest` | exporter/server.go:634-644 | the second pass adds, in installed order, exactly the non-fatal collectors |
| `Scrape.ScrapeRunsEachCollectorOnce` | exporter/server.go:592-602 | if some fatal collector fails, exactly the fatal ones up to it ran and only the earlier results were sent; otherwise every collector ran exactly once, fatal ones first |
| `Scrape.NoCollectorRunsTwice` | exporter/server.go:592-602 | either way no collector runs twice |
| `Statistics.RecordKeepsTallies` | exporter/server.go:647-672 | one update keeps every counter equal to the number of calls it stands for |
| `Statistics.CountersAreConserved` | exporter/server.go:647-672 | per name, shared by several branches or not, the total is errors plus hits plus fresh successes, and skips and errors never exceed it |
| `Statistics.CountersCountCalls` | exporter/server.go:647-672 | per name, the counters are the numbers of calls, of failed calls, of successful calls served from the cache, and of successful calls skipped by a predicate |
| `Visits.RecordsShowCalls` | exporter/server.go:647-672 | every collector that ran is recorded once, by its name and by what its call left behind |
| `Discovery.StepAgreesIff` | exporter/server.go:322-364 | incremental discovery agrees with recomputation after a precheck if and only if the connected database keeps its name, or neither the old nor the new primary name is one that discovery would have to move |
| `Discovery.DiscoveryAgreesWithRecomputation` | exporter/exporter.go:617-646 | while the connected name is stable, after every run of prechecks a database is discovered if and only if the last list names it, it is not the primary, it is not excluded, and it is included or nothing is |
| `Discovery.MovedPrimaryStaysDiscovered` | exporter/exporter.go:624-626 | a run in which the primary connection moves from one listed database to another, after which the new one is also a discovered server and the old one is not |
| `Exporters.Exporter.constructor` | exporter/exporter.go:540-590 | a new exporter has a primary server with its queries, no discovered server and no collector, and discovery at its start |
| `Exporters.Exporter.CreateServer` | exporter/exporter.go:649-666 | adds or replaces one forked server for the database, in the state of a new server, that holds the current queries, and changes no other server |
| `Exporters.Exporter.RemoveServer` | exporter/exporter.go:670-689 | removes one server and changes no other |
| `Exporters.Exporter.OnDatabaseChange` | exporter/exporter.go:617-646 | in whatever order the changes are processed, the discovered names change as specified, servers of unmentioned databases stay the same objects, every other one is new, and no existing server changes state |
| `Exporters.Exporter.Check` | exporter/exporter.go:576-590 | the start-up check is one discovery step; the primary server keeps its collectors and the servers it creates have none |
| `Exporters.Exporter.CollectFrom` | exporter/exporter.go:246-249 | scraping one server is one of its own steps, from its state to its next one, and leaves the state, collectors and buffers of every other server alone |
| `Exporters.Exporter.Collect` | exporter/exporter.go:234-250 | one exporter scrape keeps every invariant, makes one discovery step and keeps the objects of unchanged databases; there is exactly one log per server, each is a scrape of that server from its state before, or that of a new server, to its state afterwards with its own clock and answers; what was sent is what the logs sent, and a cluster-level query runs at most once |
| `Exporters.Exporter.Reload` | exporter/main.go:123-170 | a failed or conflicting load changes nothing; a successful one reaches every server and leaves no collector from before it, while discovery, facts and scrape counts stay |
| `Histories.ScrapeKeepsHistories` | exporter/server.go:578-644 | if every installed collector is in the state some calls of earlier scrapes leave a new collector in, then so it is after the next scrape of its server, and after a scrape that succeeds the last of these calls was made in it |
| `Histories.SuccessIsFresh` | exporter/collector.go:89-104 | after a scrape that succeeds, what every installed collector holds is exactly the outcome of an execution, on the answers of a scrape at most its TTL ago, if the TTL is below the largest Duration or caching is off |
| `Lifecycle.ScrapeKeepsAllHistories` | exporter/exporter.go:234-250 | the same for the primary and all discovered servers in one exporter scrape, whichever servers it creates or removes |
| `Lifecycle.WholeLife` | exporter/exporter.go:234-250 | from its start through any sequence of checks, scrapes and reloads, failed or not, with clocks that never go back: the exporter is valid, so every server holds the current queries; while complete replies come from one database, exactly the databases of the last list that the filter lets through are discovered; the facts are those last found; every scrape is counted once; every installed collector has a history; and after a scrape no server on which it succeeded holds anything older than its TTL, for TTLs with which a collector ever executes |
| `ClusterLaw.ClusterQueriesRunAtMostOnce` | exporter/exporter.go:234-250 | over all servers of one scrape a cluster-level query runs at most once |
| `HealthLoop.StepKeepsInv` | exporter/exporter.go:168-217 | every atomic step of starts, stops and loops keeps the ownership invariant of the two channels |
| `HealthLoop.StartRegistersALoop` | exporter/exporter.go:168-178 | in every reachable state a start leaves a loop registered: the one that was, or a new one that is ready to be launched, not stopped and held by no stop |
| `HealthLoop.RegisteredLoopsRun` | exporter/exporter.go:180-199 | while a loop is registered it runs or is about to be launched |
| `HealthLoop.StopTakesTheLoop` | exporter/exporter.go:202-212 | a stop unregisters the loop and takes exactly that loop; it returns without one exactly if none was registered |
| `HealthLoop.StopKeepsItsLoop` | exporter/exporter.go:202-217 | whatever happens afterwards, a stop stays with the loop it took |
| `HealthLoop.RegisteredLoopsCanBeStopped` | exporter/exporter.go:202-217 | from every reachable state with a registered loop some run calls a stop that returns with that loop over |
| `HealthLoop.StopIsSafe` | exporter/exporter.go:168-217 | after every interleaving no channel has been closed twice, a registered loop has not been stopped and is held by no stop, and a stop that took a loop has returned only if that loop is over |
| `HealthLoop.QuiescentMeansOneLoop` | exporter/exporter.go:168-217 | when no stop is in progress every loop but the registered one is over |
| `HealthLoop.WaitingIsNotStuck` | exporter/exporter.go:202-217 | from every reachable state a waiting stop can be brought to return by steps of the loop it waits for |
| `HealthLoop.EveryStopCanReturn` | exporter/exporter.go:202-217 | from every reachable state every stop that has not returned can be brought to return with the loop it took |

## Left out

- The database driver, connections, contexts and timeouts: a query that times out is a reply that is an error.
- Decoding of YAML, templates, HTTP handlers, logging, signals, command-line flags and the embedded collectors: input and output.
- URL handling in exporter/pgurl.go: a server is created with its database name instead of a rewritten address.
- exporter/args_normalize.go (command-line rewriting), exporter/prom_validate.go (character checks of names), `parseCSV` and `parseConstLabels` (splitting of option strings): they work on the options before an exporter exists and keep no state; name validity is a predicate of `Env`.
- Texts of errors and logs: an error is a flag, so which of several conflicts is reported first is not modelled.
- Rounding: sums and products are exact, and counts are integers, which a float64 holds exactly below 2^53.
- TTLs are Durations, integers of nanoseconds: the conversion from a float64 number of seconds, which could exceed the range of a Duration, is not modelled.
- The duration, time-to-live and metric-count gauges of the statistics, and the exporter's own counters: plain assignments.
- Concurrency other than the health loop: each locked region is one step.
- Agreement of the three health atomics, `ProbeHealth` and `updateHealthState`: they are stored one by one without a lock that spans them, so readers may see a mix, and nothing relates them.
- Plans and the Extensions, Namespaces and Username facts: a change of these does not void a plan, so a plan agrees with their values at planning time only.
- `Plan` with explicit queries: no caller outside the tests passes any.
- `Close`, and what removing a server does to its connections.
- Aliasing of queries and accumulators: several servers share query objects and a table shares its accumulators, but neither is written after that, so both are values here.
- Exporters.Exporter.Collect: the database change hook runs inside the primary server's precheck; here the changes are applied right after the primary server's scrape, which in between reads nothing that the hook writes.
- Exporters.Exporter.Collect: the discovered servers are scraped with replies given in advance by name, so their answers do not depend on the order of scraping.
- Servers.SortByPriority: the library sort is modelled by insertion; which order collectors of equal priority take is not part of its contract.
- Semver.ParseSemver: the regular expression is modelled by the longest run of digits per group, which is what a leftmost greedy match of it takes.
- HealthLoop.StopIsSafe: liveness is stated as the possibility to return (`HealthLoop.WaitingIsNotStuck`); fairness of the scheduler is not part of this model.
