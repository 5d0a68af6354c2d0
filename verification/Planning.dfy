/** Which queries a server installs: the facts it has gathered against a query's version range and tags. */
module Planning {
  import opened Core

  /** What a precheck learns about the target. */
  datatype Facts = Facts(
    version: int, recovery: bool, database: string, username: string,
    namespaces: set<string>, extensions: set<string>)

  /** What is fixed when a server is created. */
  datatype Identity = Identity(tags: seq<string>, pgbouncerMode: bool, forked: bool)

  function TrimPrefix(tag: string, prefix: string): string
    requires prefix <= tag
  {
    tag[|prefix|..]
  }

  const EXTENSION := "extension:"
  const SCHEMA := "schema:"
  const DBNAME := "dbname:"
  const USERNAME := "username:"
  const NOT := "not:"

  /** A version of zero is not determined yet; a bound of zero is open; the upper bound is exclusive. */
  predicate VersionOk(version: int, min: int, max: int) {
    version != 0 ==> (min != 0 ==> min <= version) && (max != 0 ==> version < max)
  }

  predicate TagHolds(id: Identity, f: Facts, tag: string) {
    if EXTENSION <= tag then TrimPrefix(tag, EXTENSION) in f.extensions
    else if SCHEMA <= tag then TrimPrefix(tag, SCHEMA) in f.namespaces
    else if DBNAME <= tag then TrimPrefix(tag, DBNAME) == f.database
    else if USERNAME <= tag then TrimPrefix(tag, USERNAME) == f.username
    else if NOT <= tag then TrimPrefix(tag, NOT) !in id.tags
    else if tag == "cluster" then !id.forked
    else if tag in {"primary", "master", "leader"} then !f.recovery
    else if tag in {"standby", "replica", "slave"} then f.recovery
    else tag == "pgbouncer" || tag in id.tags
  }

  /** A query fits a server: not skipped, the right mode, in the version range, and every tag holds. */
  ghost predicate IsCompatible(id: Identity, f: Facts, q: Query) {
    && !q.skip
    && ("pgbouncer" in q.tags <==> id.pgbouncerMode)
    && VersionOk(f.version, q.minVersion, q.maxVersion)
    && forall tag | tag in q.tags :: TagHolds(id, f, tag)
  }

  method Compatible(id: Identity, f: Facts, q: Query) returns (ok: bool)
    ensures ok <==> IsCompatible(id, f, q)
  {
    if q.skip {
      return false;
    }
    if ("pgbouncer" in q.tags) != id.pgbouncerMode {
      return false;
    }
    if f.version != 0 {
      if q.minVersion != 0 && f.version < q.minVersion {
        return false;
      }
      if q.maxVersion != 0 && f.version >= q.maxVersion {
        return false;
      }
    }
    for i := 0 to |q.tags|
      invariant forall k | 0 <= k < i :: TagHolds(id, f, q.tags[k])
    {
      var tag := q.tags[i];
      assert tag in q.tags;
      if EXTENSION <= tag {
        if TrimPrefix(tag, EXTENSION) !in f.extensions {
          return false;
        }
        continue;
      }
      if SCHEMA <= tag {
        if TrimPrefix(tag, SCHEMA) !in f.namespaces {
          return false;
        }
        continue;
      }
      if DBNAME <= tag {
        if f.database != TrimPrefix(tag, DBNAME) {
          return false;
        }
        continue;
      }
      if USERNAME <= tag {
        if f.username != TrimPrefix(tag, USERNAME) {
          return false;
        }
        continue;
      }
      if NOT <= tag {
        if TrimPrefix(tag, NOT) in id.tags {
          return false;
        }
        continue;
      }
      if tag == "cluster" {
        if id.forked {
          return false;
        }
      } else if tag == "primary" || tag == "master" || tag == "leader" {
        if f.recovery {
          return false;
        }
      } else if tag == "standby" || tag == "replica" || tag == "slave" {
        if !f.recovery {
          return false;
        }
      } else if tag != "pgbouncer" {
        if tag !in id.tags {
          return false;
        }
      }
    }
    return true;
  }

  /** A cluster-level query never fits a forked server. */
  lemma ClusterQueriesSkipForkedServers(id: Identity, f: Facts, q: Query)
    requires id.forked && "cluster" in q.tags
    ensures !IsCompatible(id, f, q)
  {
    WordsHaveNoPrefix("cluster");
    assert !TagHolds(id, f, "cluster");
  }

  /* ---------------- what each tag asks for ---------------- */

  function With(q: Query, tag: string): Query { q.(tags := q.tags + [tag]) }

  /** A query without tags fits a postgres server, and one tagged pgbouncer a pgbouncer, if it is in the range. */
  lemma UntaggedQueriesFit(id: Identity, f: Facts, q: Query)
    requires q.tags == if id.pgbouncerMode then ["pgbouncer"] else []
    ensures IsCompatible(id, f, q) <==>
              && !q.skip
              && (f.version == 0 || q.minVersion == 0 || f.version >= q.minVersion)
              && (f.version == 0 || q.maxVersion == 0 || f.version < q.maxVersion)
  {
    if id.pgbouncerMode {
      assert TagHolds(id, f, "pgbouncer") by {
        WordsHaveNoPrefix("pgbouncer");
      }
    }
  }

  /** The mode must agree with the pgbouncer tag. */
  lemma ModesAgree(id: Identity, f: Facts, q: Query)
    requires ("pgbouncer" in q.tags) != id.pgbouncerMode
    ensures !IsCompatible(id, f, q)
  {
  }

  const WORDS := {"cluster", "primary", "master", "leader", "standby", "replica", "slave", "pgbouncer"}

  predicate HasPrefix(tag: string) {
    EXTENSION <= tag || SCHEMA <= tag || DBNAME <= tag || USERNAME <= tag || NOT <= tag
  }

  lemma WordsHaveNoPrefix(tag: string)
    requires tag in WORDS
    ensures !HasPrefix(tag)
  {
    assert EXTENSION[0] == 'e' && SCHEMA[1] == 'c' && DBNAME[0] == 'd' && USERNAME[0] == 'u' && NOT[0] == 'n';
    assert "cluster"[1] == 'l' && "primary"[1] == 'r' && "master"[1] == 'a' && "leader"[1] == 'e';
    assert "standby"[1] == 't' && "replica"[1] == 'e' && "slave"[1] == 'l' && "pgbouncer"[1] == 'g';
    assert tag[0] in {'c', 'p', 'm', 'l', 's', 'r'} && tag[1] != 'c';
  }

  /** One more tag asks for one more condition, that of the tag alone. */
  lemma OneMoreTag(id: Identity, f: Facts, q: Query, tag: string)
    requires tag != "pgbouncer"
    ensures IsCompatible(id, f, With(q, tag)) <==> IsCompatible(id, f, q) && TagHolds(id, f, tag)
  {
    hide TagHolds;
    var r := With(q, tag);
    assert forall t :: t in r.tags <==> t in q.tags || t == tag;
  }

  /**
   A tag with a prefix asks for the extension, the schema, the database or the user it names, or that the server does
   not have the tag it names.
   */
  lemma PrefixedTagsAskForFacts(id: Identity, f: Facts, q: Query, name: string)
    ensures IsCompatible(id, f, With(q, "extension:" + name)) <==> IsCompatible(id, f, q) && name in f.extensions
    ensures IsCompatible(id, f, With(q, "schema:" + name)) <==> IsCompatible(id, f, q) && name in f.namespaces
    ensures IsCompatible(id, f, With(q, "dbname:" + name)) <==> IsCompatible(id, f, q) && name == f.database
    ensures IsCompatible(id, f, With(q, "username:" + name)) <==> IsCompatible(id, f, q) && name == f.username
    ensures IsCompatible(id, f, With(q, "not:" + name)) <==> IsCompatible(id, f, q) && name !in id.tags
  {
    hide IsCompatible;
    PrefixIsTrimmed(EXTENSION, name);
    PrefixIsTrimmed(SCHEMA, name);
    PrefixIsTrimmed(DBNAME, name);
    PrefixIsTrimmed(USERNAME, name);
    PrefixIsTrimmed(NOT, name);
    OneMoreTag(id, f, q, EXTENSION + name);
    OneMoreTag(id, f, q, SCHEMA + name);
    OneMoreTag(id, f, q, DBNAME + name);
    OneMoreTag(id, f, q, USERNAME + name);
    OneMoreTag(id, f, q, NOT + name);
  }

  predicate OnlyPrefix(tag: string, prefix: string) {
    && (EXTENSION <= tag ==> prefix == EXTENSION) && (SCHEMA <= tag ==> prefix == SCHEMA)
    && (DBNAME <= tag ==> prefix == DBNAME) && (USERNAME <= tag ==> prefix == USERNAME)
    && (NOT <= tag ==> prefix == NOT)
  }

  lemma PrefixIsTrimmed(prefix: string, name: string)
    requires prefix in {EXTENSION, SCHEMA, DBNAME, USERNAME, NOT}
    ensures prefix <= prefix + name && TrimPrefix(prefix + name, prefix) == name && prefix + name != "pgbouncer"
    ensures OnlyPrefix(prefix + name, prefix)
  {
    var tag := prefix + name;
    assert tag[0] == prefix[0];
  }

  /** The three kinds of role tags ask for a server that is not forked, for a primary, and for a standby. */
  lemma RoleTagsAskForRoles(id: Identity, f: Facts, q: Query, tag: string)
    ensures tag == "cluster" ==>
              (IsCompatible(id, f, With(q, tag)) <==> IsCompatible(id, f, q) && !id.forked)
    ensures tag == "primary" || tag == "master" || tag == "leader" ==>
              (IsCompatible(id, f, With(q, tag)) <==> IsCompatible(id, f, q) && !f.recovery)
    ensures tag == "standby" || tag == "replica" || tag == "slave" ==>
              (IsCompatible(id, f, With(q, tag)) <==> IsCompatible(id, f, q) && f.recovery)
  {
    hide IsCompatible;
    if tag in WORDS && tag != "pgbouncer" {
      WordsHaveNoPrefix(tag);
      OneMoreTag(id, f, q, tag);
    }
  }

  /** Any other tag asks for a server that has it. */
  lemma OtherTagsAskForTags(id: Identity, f: Facts, q: Query, tag: string)
    requires tag !in WORDS && !HasPrefix(tag)
    ensures IsCompatible(id, f, With(q, tag)) <==> IsCompatible(id, f, q) && tag in id.tags
  {
    OneMoreTag(id, f, q, tag);
  }

  /* ---------------- version branches ---------------- */

  /** Branch i of a chain covers [bounds[i], bounds[i + 1]), and the last branch is open. */
  predicate BranchPasses(bounds: seq<int>, version: int, i: nat)
    requires i < |bounds|
  {
    VersionOk(version, bounds[i], if i + 1 < |bounds| then bounds[i + 1] else 0)
  }

  /** For every determined version at or above the first bound, exactly one branch of a chain passes. */
  lemma ExactlyOneBranchPasses(bounds: seq<int>, version: int) returns (i: nat)
    requires |bounds| > 0 && (forall j, k | 0 <= j < k < |bounds| :: bounds[j] < bounds[k])
    requires 0 <= bounds[0] <= version && version != 0
    ensures i < |bounds|
    ensures forall j: nat | j < |bounds| :: BranchPasses(bounds, version, j) <==> j == i
  {
    i := 0;
    while i + 1 < |bounds| && bounds[i + 1] <= version
      invariant i < |bounds| && bounds[i] <= version
    {
      i := i + 1;
    }
    forall j: nat | j < |bounds| ensures BranchPasses(bounds, version, j) <==> j == i {
      if j < i { assert bounds[j + 1] <= bounds[i]; }
    }
  }
}
