/** Auto-discovery of databases as a value: how a precheck changes the set of discovered servers. */
module Discovery {

  /** Which database names may be discovered; an empty include set includes everything. */
  datatype Filter = Filter(excluded: set<string>, included: set<string>) {
    predicate Eligible(name: string) {
      name !in excluded && (included == {} || name in included)
    }
  }

  /** `databases` is the last database list, `primary` the connected database, `servers` the discovered ones. */
  datatype State = State(databases: set<string>, primary: string, servers: set<string>)

  /** A precheck either fails before it reads the database list, or learns the connected name and the list. */
  datatype Precheck = Failed | Learned(name: string, list: set<string>)

  /** A name that appeared maps to true, one that vanished to false. */
  function Difference(known: set<string>, list: set<string>): map<string, bool> {
    map n | n in list + known && (n in list) != (n in known) :: n in list
  }

  /** The change notification of a precheck; the connected database counts as known before the lists are compared. */
  function Changes(databases: set<string>, name: string, list: set<string>): map<string, bool> {
    Difference(databases + {name}, list)
  }

  /** The effect of a change notification, sent when `name` is the primary. */
  function Notified(f: Filter, servers: set<string>, name: string, changes: map<string, bool>): set<string> {
    set n | n in servers + changes.Keys &&
            if n in changes && n != name && f.Eligible(n) then changes[n] else n in servers
  }

  lemma NoChangeNoEffect(f: Filter, servers: set<string>, name: string)
    ensures Notified(f, servers, name, map[]) == servers
  {
  }

  function Step(f: Filter, s: State, p: Precheck): State {
    match p
    case Failed => s
    case Learned(name, list) => State(list, name, Notified(f, s.servers, name, Changes(s.databases, name, list)))
  }

  /** The discovered servers recomputed from scratch. */
  function Expected(f: Filter, databases: set<string>, primary: string): set<string> {
    set n | n in databases && n != primary && f.Eligible(n)
  }

  predicate Agrees(f: Filter, s: State) {
    s.servers == Expected(f, s.databases, s.primary)
  }

  /**
   Incremental discovery agrees with recomputation after a successful precheck exactly when the connected
   database keeps its name, or neither the old primary is an eligible database listed before and after, nor
   the new primary an eligible database listed before.
   */
  lemma StepAgreesIff(f: Filter, s: State, name: string, list: set<string>)
    requires Agrees(f, s)
    ensures Agrees(f, Step(f, s, Learned(name, list))) <==>
            || name == s.primary
            || (!(f.Eligible(s.primary) && s.primary in s.databases && s.primary in list)
                && !(f.Eligible(name) && name in s.databases))
  {
    var t := Step(f, s, Learned(name, list));
    var expected := Expected(f, list, name);
    forall n | n != name && n != s.primary ensures n in t.servers <==> n in expected {
    }
    assert name in t.servers <==> name in s.servers;
    assert name !in expected;
    if name != s.primary {
      assert s.primary in t.servers <==> s.primary in list && s.primary !in s.databases && f.Eligible(s.primary);
      assert s.primary in expected <==> s.primary in list && f.Eligible(s.primary);
      if t.servers == expected {
        assert s.primary in t.servers <==> s.primary in expected;
      }
    }
  }

  /** An exporter starts with no database list and no discovered server. */
  function Run(f: Filter, primary: string, ps: seq<Precheck>): State {
    if ps == [] then State({}, primary, {})
    else Step(f, Run(f, primary, ps[..|ps| - 1]), ps[|ps| - 1])
  }

  /** Every successful precheck of the run connects to the same database. */
  ghost predicate StableName(ps: seq<Precheck>, name: string) {
    forall p | p in ps && p.Learned? :: p.name == name
  }

  /** The database list of the last successful precheck. */
  function LastList(ps: seq<Precheck>): set<string> {
    if ps == [] then {} else if ps[|ps| - 1].Learned? then ps[|ps| - 1].list else LastList(ps[..|ps| - 1])
  }

  /**
   While the connected name is stable, after every run of prechecks, failed ones in between included, the
   discovered servers are exactly the last database list without the primary, filtered.
   */
  lemma {:induction false} DiscoveryAgreesWithRecomputation(f: Filter, primary: string, ps: seq<Precheck>, name: string)
    requires StableName(ps, name)
    ensures var s := Run(f, primary, ps);
            && s.databases == LastList(ps)
            && Agrees(f, s)
            && (s.primary == name || (s.databases == {} && s.primary == primary))
            && s.servers == Expected(f, LastList(ps), name)
            && forall n :: n in s.servers <==>
                 && n in LastList(ps) && n != name && n !in f.excluded
                 && (f.included == {} || n in f.included)
  {
    if ps != [] {
      var init, p := ps[..|ps| - 1], ps[|ps| - 1];
      assert p in ps && forall x | x in init :: x in ps;
      DiscoveryAgreesWithRecomputation(f, primary, init, name);
      if p.Learned? {
        StepAgreesIff(f, Run(f, primary, init), p.name, p.list);
      }
    }
  }

  /**
   A connection that moves to another listed database leaves discovery out of step: the database it now connects to
   is still a discovered server, and the one it left has none.
   */
  lemma MovedPrimaryStaysDiscovered()
    ensures var f := Filter({}, {});
            var s := Run(f, "a", [Learned("a", {"a", "b"}), Learned("b", {"a", "b"})]);
            s.primary == "b" && s.servers == {"b"} && !Agrees(f, s)
  {
  }
}
