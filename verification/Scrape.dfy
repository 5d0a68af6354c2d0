/** The two passes of a server scrape over its installed collectors, as a value. */
module Scrape {
  import opened Core
  import opened CollectorSpec

  /** An installed collector's query, its state before the scrape, and its state after one call. */
  datatype Unit = Unit(q: Query, st: State, next: State)

  /** A failed call sends nothing. */
  predicate Ready(u: Unit) { u.next.failed ==> u.next.result == [] }

  predicate AllReady(us: seq<Unit>) {
    forall u | u in us :: Ready(u)
  }

  predicate IsFatal(u: Unit) { u.q.fatal }

  /** The collectors' states, the indexes of those that ran, in order, and everything sent. */
  datatype Progress = Progress(states: seq<State>, ran: seq<nat>, sent: seq<Metric>, failed: bool)

  function Initial(us: seq<Unit>): Progress {
    Progress(seq(|us|, i requires 0 <= i < |us| => us[i].st), [], [], false)
  }

  /** Runs collector i. */
  function RunOne(us: seq<Unit>, p: Progress, i: nat): (r: Progress)
    requires i < |us| == |p.states|
    ensures |r.states| == |us|
  {
    var st := us[i].next;
    Progress(p.states[i := st], p.ran + [i], p.sent + st.result, st.failed)
  }

  lemma RunOneSends(us: seq<Unit>, p: Progress, i: nat)
    requires i < |us| == |p.states|
    ensures var r := RunOne(us, p, i); r.sent == p.sent + us[i].next.result && r.failed == us[i].next.failed
  {
  }

  /** The first pass over the first n collectors: fatal ones only, until one fails. */
  function FatalPass(us: seq<Unit>, n: nat): (p: Progress)
    requires n <= |us|
    ensures |p.states| == |us|
  {
    if n == 0 then Initial(us)
    else
      var p := FatalPass(us, n - 1);
      if p.failed || !IsFatal(us[n - 1]) then p else RunOne(us, p, n - 1)
  }

  /** The second pass over the first n collectors: the others, whatever fails. */
  function NonFatalPass(us: seq<Unit>, start: Progress, n: nat): (p: Progress)
    requires n <= |us| == |start.states|
    ensures |p.states| == |us| && p.failed == start.failed
  {
    if n == 0 then start
    else
      var p := NonFatalPass(us, start, n - 1);
      if IsFatal(us[n - 1]) then p else RunOne(us, p, n - 1).(failed := p.failed)
  }

  /** A whole scrape after a successful precheck. */
  function Run(us: seq<Unit>): (p: Progress)
    ensures |p.states| == |us|
  {
    var p := FatalPass(us, |us|);
    if p.failed then p else NonFatalPass(us, p, |us|)
  }

  /** Once a fatal collector has failed, the first pass does no more. */
  lemma {:induction false} FailedPassStays(us: seq<Unit>, i: nat, n: nat)
    requires i <= n <= |us| && FatalPass(us, i).failed
    ensures FatalPass(us, n) == FatalPass(us, i)
    decreases n
  {
    if i < n {
      FailedPassStays(us, i, n - 1);
    }
  }

  /** Collector i is untouched until its turn in the first pass. */
  lemma {:induction false} FatalPassLeavesLater(us: seq<Unit>, n: nat, i: nat)
    requires n <= i < |us|
    ensures FatalPass(us, n).states[i] == us[i].st
  {
    if n > 0 {
      FatalPassLeavesLater(us, n - 1, i);
    }
  }

  /** The first pass leaves the others alone, and so does the second until their turn. */
  lemma {:induction false} FatalPassLeavesOthers(us: seq<Unit>, n: nat, i: nat)
    requires n <= |us| && i < |us| && !IsFatal(us[i])
    ensures FatalPass(us, n).states[i] == us[i].st
  {
    if n > 0 {
      FatalPassLeavesOthers(us, n - 1, i);
    }
  }

  lemma {:induction false} NonFatalPassLeavesLater(us: seq<Unit>, start: Progress, n: nat, i: nat)
    requires n <= i < |us| == |start.states|
    ensures NonFatalPass(us, start, n).states[i] == start.states[i]
  {
    if n > 0 {
      NonFatalPassLeavesLater(us, start, n - 1, i);
    }
  }

  /* ---------------- what the passes mean ---------------- */

  predicate FatalFailure(us: seq<Unit>, i: nat) {
    i < |us| && IsFatal(us[i]) && us[i].next.failed
  }

  /** No fatal collector before i fails. */
  ghost predicate ReachedByFatalPass(us: seq<Unit>, i: nat) {
    forall j: nat | j < i :: !FatalFailure(us, j)
  }

  predicate Ascending(s: seq<nat>) {
    forall i, j | 0 <= i < j < |s| :: s[i] < s[j]
  }

  /** The results of the collectors that ran, in order. */
  function Results(us: seq<Unit>, ran: seq<nat>): seq<Metric> {
    if ran == [] then []
    else
      var i := ran[|ran| - 1];
      Results(us, ran[..|ran| - 1]) + (if i < |us| then ResultOf(us, i) else [])
  }

  function ResultOf(us: seq<Unit>, i: nat): seq<Metric>
    requires i < |us|
  {
    us[i].next.result
  }

  /** Exactly the collectors that ran have moved on, and exactly their results were sent. */
  ghost predicate Accounts(us: seq<Unit>, p: Progress)
    requires |p.states| == |us|
  {
    && (forall i | i in p.ran :: i < |us|)
    && p.sent == Results(us, p.ran)
    && (forall i: nat | i < |us| :: p.states[i] == if i in p.ran then us[i].next else us[i].st)
  }

  lemma RunOneAccounts(us: seq<Unit>, p: Progress, i: nat)
    requires i < |us| == |p.states| && Accounts(us, p)
    ensures Accounts(us, RunOne(us, p, i))
  {
  }

  lemma {:induction false} PassesAccount(us: seq<Unit>, n: nat)
    requires n <= |us|
    ensures Accounts(us, FatalPass(us, n))
  {
    hide Accounts, RunOne;
    if n == 0 {
      InitialAccounts(us);
    } else {
      PassesAccount(us, n - 1);
      RunOneAccounts(us, FatalPass(us, n - 1), n - 1);
    }
  }

  lemma InitialAccounts(us: seq<Unit>)
    ensures Accounts(us, Initial(us))
  {
  }

  lemma AccountsIgnoreFailure(us: seq<Unit>, p: Progress, failed: bool)
    requires |p.states| == |us| && Accounts(us, p)
    ensures Accounts(us, p.(failed := failed))
  {
  }

  lemma {:induction false} NonFatalPassAccounts(us: seq<Unit>, start: Progress, n: nat)
    requires n <= |us| == |start.states| && Accounts(us, start)
    ensures Accounts(us, NonFatalPass(us, start, n))
  {
    hide Accounts, RunOne;
    if n > 0 {
      var p := NonFatalPass(us, start, n - 1);
      NonFatalPassAccounts(us, start, n - 1);
      RunOneAccounts(us, p, n - 1);
      AccountsIgnoreFailure(us, RunOne(us, p, n - 1), p.failed);
    }
  }

  /**
   The first pass runs, in installed order, exactly the fatal collectors up to and including the first that
   fails, and reports a failure exactly when one fails.
   */
  lemma {:induction false} FatalPassStopsAtFirstFailure(us: seq<Unit>, n: nat)
    requires n <= |us|
    ensures var p := FatalPass(us, n);
            && (p.failed <==> !ReachedByFatalPass(us, n))
            && (forall i: nat :: i in p.ran <==> i < n && IsFatal(us[i]) && ReachedByFatalPass(us, i))
            && Ascending(p.ran)
  {
    hide Ascending;
    if n == 0 {
      NothingAscends();
    } else {
      FatalPassStopsAtFirstFailure(us, n - 1);
      assert ReachedByFatalPass(us, n) <==>
             ReachedByFatalPass(us, n - 1) && !FatalFailure(us, n - 1);
      StaysAscending(FatalPass(us, n - 1).ran, n - 1);
    }
  }

  lemma StaysAscending(s: seq<nat>, x: nat)
    requires Ascending(s) && forall y | y in s :: y < x
    ensures Ascending(s + [x])
  {
    forall i | 0 <= i < |s| ensures s[i] < x {
      assert s[i] in s;
    }
  }

  /** What the second pass has run, after what `start` had. */
  function Added(start: Progress, p: Progress): seq<nat> {
    if |start.ran| <= |p.ran| then p.ran[|start.ran|..] else []
  }

  lemma AddOne(start: Progress, p: Progress, next: Progress, i: nat)
    requires p.ran == start.ran + Added(start, p) && next.ran == p.ran + [i]
    ensures next.ran == start.ran + Added(start, next)
    ensures Added(start, next) == Added(start, p) + [i]
  {
  }

  /** The second pass adds, in installed order, exactly the non-fatal collectors. */
  lemma {:induction false} NonFatalPassRunsTheRest(us: seq<Unit>, start: Progress, n: nat)
    requires n <= |us| == |start.states|
    ensures var p := NonFatalPass(us, start, n);
            && p.failed == start.failed
            && p.ran == start.ran + Added(start, p)
            && (forall i: nat :: i in Added(start, p) <==> i < n && !IsFatal(us[i]))
            && Ascending(Added(start, p))
  {
    hide Ascending;
    if n == 0 {
      NothingAscends();
    } else {
      hide Added;
      NonFatalPassRunsTheRest(us, start, n - 1);
      var p := NonFatalPass(us, start, n - 1);
      if !IsFatal(us[n - 1]) {
        var next := NonFatalPass(us, start, n);
        AddOne(start, p, next, n - 1);
        StaysAscending(Added(start, p), n - 1);
      }
    }
  }

  lemma NothingAscends()
    ensures Ascending([])
  {
  }

  /** Every collector ran exactly once, fatal ones first, each class in installed order. */
  ghost predicate RanAllOnce(us: seq<Unit>, fatal: seq<nat>, others: seq<nat>) {
    && Ascending(fatal) && Ascending(others)
    && (forall i: nat :: i in fatal <==> i < |us| && IsFatal(us[i]))
    && (forall i: nat :: i in others <==> i < |us| && !IsFatal(us[i]))
  }

  /** Exactly the fatal collectors up to the first failing one ran, and it sent nothing. */
  ghost predicate RanToFirstFailure(us: seq<Unit>, p: Progress) {
    && Ascending(p.ran)
    && (forall i: nat :: i in p.ran <==> i < |us| && IsFatal(us[i]) && ReachedByFatalPass(us, i))
    && p.ran != [] && FatalFailure(us, p.ran[|p.ran| - 1])
    && p.sent == Results(us, p.ran[..|p.ran| - 1])
  }

  /**
   A scrape whose fatal collectors all succeed runs every installed collector exactly once, fatal ones first,
   each class in installed order; otherwise it runs exactly the fatal collectors up to the first failing one,
   and what is sent is what the earlier ones returned.
   */
  lemma ScrapeRunsEachCollectorOnce(us: seq<Unit>)
    requires AllReady(us)
    ensures var p := Run(us);
            && (p.failed <==> exists i :: FatalFailure(us, i))
            && Accounts(us, p)
            && (p.failed ==> RanToFirstFailure(us, p))
            && (!p.failed ==> exists fatal, others :: p.ran == fatal + others && RanAllOnce(us, fatal, others))
  {
    hide Accounts;
    var f := FatalPass(us, |us|);
    PassesAccount(us, |us|);
    FatalPassStopsAtFirstFailure(us, |us|);
    if f.failed {
      var i :| 0 <= i < |us| && FatalFailure(us, i);
      var first := FirstFailure(us, i);
      LastRanFailed(us, f, first);
    } else {
      NonFatalPassAccounts(us, f, |us|);
      NonFatalPassRunsTheRest(us, f, |us|);
      var p := Run(us);
      forall i: nat | i < |us| ensures ReachedByFatalPass(us, i) {
      }
      assert p.ran == f.ran + Added(f, p) && RanAllOnce(us, f.ran, Added(f, p));
    }
  }

  /** Either way no collector runs twice. */
  lemma NoCollectorRunsTwice(us: seq<Unit>)
    requires AllReady(us)
    ensures NoDuplicates(Run(us).ran)
  {
    hide Accounts, Results, Run;
    ScrapeRunsEachCollectorOnce(us);
    var p := Run(us);
    if !p.failed {
      var fatal, others :| p.ran == fatal + others && RanAllOnce(us, fatal, others);
      forall i, j | 0 <= i < j < |p.ran| ensures p.ran[i] != p.ran[j] {
        if i < |fatal| <= j {
          assert fatal[i] in fatal && others[j - |fatal|] in others;
        }
      }
    }
  }

  lemma {:induction false} FirstFailure(us: seq<Unit>, i: nat) returns (first: nat)
    requires FatalFailure(us, i)
    ensures first <= i && FatalFailure(us, first) && ReachedByFatalPass(us, first)
    decreases i
  {
    hide FatalFailure, ReachedByFatalPass;
    if ReachedByFatalPass(us, i) {
      first := i;
    } else {
      var j := EarlierFailure(us, i);
      first := FirstFailure(us, j);
    }
  }

  lemma EarlierFailure(us: seq<Unit>, i: nat) returns (j: nat)
    requires !ReachedByFatalPass(us, i)
    ensures j < i && FatalFailure(us, j)
  {
    j :| j < i && FatalFailure(us, j);
  }

  lemma LastRanFailed(us: seq<Unit>, p: Progress, first: nat)
    requires AllReady(us) && |p.states| == |us| && Ascending(p.ran) && Accounts(us, p)
    requires forall i: nat :: i in p.ran <==> i < |us| && IsFatal(us[i]) && ReachedByFatalPass(us, i)
    requires FatalFailure(us, first) && ReachedByFatalPass(us, first)
    ensures RanToFirstFailure(us, p)
  {
    assert first in p.ran;
    var last := p.ran[|p.ran| - 1];
    assert last in p.ran;
    var k :| 0 <= k < |p.ran| && p.ran[k] == first;
    assert last == first;
    assert us[first] in us;
    assert Results(us, p.ran) == Results(us, p.ran[..|p.ran| - 1]) + [];
  }
}
