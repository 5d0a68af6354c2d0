/** Predicate queries: when the main query may run, and the per-predicate answer cache. */
module Predicates {
  import opened Core
  import opened Clock

  /* ---------------- one answer ---------------- */

  /** A scanned nullable boolean, or a scan error. */
  datatype BoolRow = Cell(value: Option<bool>) | BadCell

  /** What the database answers to one predicate query; `types` tells for each column whether it is boolean. */
  datatype Answer =
    | NoAnswer
    | NoTypes
    | Table(types: seq<bool>, rows: seq<BoolRow>, iterationError: bool, closeError: bool)

  /** Some(pass) for a well-formed answer, None for an error. */
  ghost function Verdict(a: Answer): Option<bool> {
    if && a.Table? && a.types == [true] && |a.rows| <= 1
       && (forall r | r in a.rows :: r.Cell?)
       && !a.iterationError && !a.closeError
    then Some(a.rows == [Cell(Some(true))])
    else None
  }

  /** Of all answers, one passes and three say no: a single boolean column with at most one row, and no error. */
  lemma VerdictsAreExact(a: Answer)
    ensures Verdict(a) == Some(true) <==> a == Table([true], [Cell(Some(true))], false, false)
    ensures Verdict(a) == Some(false) <==>
              || a == Table([true], [], false, false)
              || a == Table([true], [Cell(None)], false, false)
              || a == Table([true], [Cell(Some(false))], false, false)
  {
    var yes, no, unknown := Cell(Some(true)), Cell(Some(false)), Cell(None);
    assert [yes][0] != [no][0] && [yes][0] != [unknown][0];
    if Verdict(a).Some? {
      assert a == Table([true], a.rows, false, false);
      if a.rows != [] {
        var r := a.rows[0];
        assert a.rows == [r] && r in a.rows;
        match r.value {
          case None => assert r == unknown;
          case Some(b) => assert b == true || b == false;
        }
      }
    }
  }

  /** Runs one predicate query against the database's answer. */
  method Evaluate(a: Answer) returns (verdict: Option<bool>)
    ensures verdict == Verdict(a)
  {
    if a.NoAnswer? || a.NoTypes? {
      return None;
    }
    if |a.types| != 1 {
      return None;
    }
    if !a.types[0] {
      return None;
    }
    var firstRow := true;
    var pass: Option<bool> := None;
    for i := 0 to |a.rows|
      invariant firstRow <==> i == 0
      invariant i <= 1
      invariant i == 1 ==> a.rows[0] == Cell(pass)
      invariant i == 0 ==> pass.None?
    {
      if !firstRow {
        return None;
      }
      firstRow := false;
      if a.rows[i].BadCell? {
        assert a.rows[i] in a.rows;
        return None;
      }
      pass := a.rows[i].value;
    }
    if a.iterationError {
      return None;
    }
    if a.closeError {
      return None;
    }
    assert |a.rows| == 1 ==> a.rows == [a.rows[0]];
    return Some(pass.Some? && pass.value);
  }

  /* ---------------- one evaluation of all predicates ---------------- */

  datatype Entry = Entry(at: int, pass: bool)

  datatype Decision = Run | Skip(name: string) | Fail(name: string)

  /** A question put to the database: predicate, time, and verdict (None is an error). */
  datatype Asked = Asked(index: nat, at: int, verdict: Option<bool>)

  datatype Evaluation = Evaluation(decision: Decision, cache: seq<Option<Entry>>, asked: seq<Asked>)

  function Decimal(n: nat): string {
    var digit := ('0' as int + n % 10) as char;
    if n < 10 then [digit] else Decimal(n / 10) + [digit]
  }

  /** The name reported for a predicate: its own, or its index. */
  function NameOf(ps: seq<Predicate>, i: nat): (name: string)
    requires i < |ps|
    ensures name != ""
  {
    if ps[i].name != "" then ps[i].name else Decimal(i)
  }

  predicate IsDecimal(s: string) {
    s != "" && forall c | c in s :: '0' <= c <= '9'
  }

  /** Reads decimal digits. */
  function ReadDecimal(s: string): int {
    if s == "" then 0 else 10 * ReadDecimal(s[..|s| - 1]) + (s[|s| - 1] as int - '0' as int)
  }

  /** A predicate is reported by its own name, or else by its index in decimal digits. */
  lemma NamesTellPredicates(ps: seq<Predicate>, i: nat)
    requires i < |ps|
    ensures ps[i].name != "" ==> NameOf(ps, i) == ps[i].name
    ensures ps[i].name == "" ==> IsDecimal(NameOf(ps, i)) && ReadDecimal(NameOf(ps, i)) == i
  {
    DecimalIsRead(i);
  }

  lemma {:induction false} DecimalIsRead(n: nat)
    ensures IsDecimal(Decimal(n)) && ReadDecimal(Decimal(n)) == n
  {
    if n >= 10 {
      DecimalIsRead(n / 10);
      assert Decimal(n)[..|Decimal(n)| - 1] == Decimal(n / 10);
    }
  }

  predicate Servable(p: Predicate, e: Option<Entry>, now: int) {
    p.ttl > 0 && e.Some? && Sub(now, e.value.at) < p.ttl
  }

  /** The evaluation from predicate i on. */
  ghost function EvaluateFrom(ps: seq<Predicate>, cache: seq<Option<Entry>>, now: int, answers: seq<Answer>,
      i: nat): Evaluation
    requires |cache| == |ps| == |answers| && i <= |ps|
    decreases |ps| - i
  {
    if i == |ps| then Evaluation(Run, cache, [])
    else if Servable(ps[i], cache[i], now) then
      if cache[i].value.pass then EvaluateFrom(ps, cache, now, answers, i + 1)
      else Evaluation(Skip(NameOf(ps, i)), cache, [])
    else
      var verdict := Verdict(answers[i]);
      var asked := [Asked(i, now, verdict)];
      if verdict.None? then Evaluation(Fail(NameOf(ps, i)), cache, asked)
      else if !verdict.value then Evaluation(Skip(NameOf(ps, i)), Remember(ps, cache, i, now, false), asked)
      else Prepend(asked, EvaluateFrom(ps, Remember(ps, cache, i, now, true), now, answers, i + 1))
  }

  /** A fresh answer is cached only under a positive TTL. */
  function Remember(ps: seq<Predicate>, cache: seq<Option<Entry>>, i: nat, now: int, pass: bool)
    : (r: seq<Option<Entry>>)
    requires |cache| == |ps| && i < |ps|
    ensures |r| == |ps|
  {
    if ps[i].ttl > 0 then cache[i := Some(Entry(now, pass))] else cache
  }

  function Prepend(asked: seq<Asked>, e: Evaluation): Evaluation {
    e.(asked := asked + e.asked)
  }

  /** What an evaluation does at predicate i. */
  lemma EvaluateOne(ps: seq<Predicate>, cache: seq<Option<Entry>>, now: int, answers: seq<Answer>, i: nat)
    requires |cache| == |ps| == |answers| && i < |ps|
    ensures var e, verdict := EvaluateFrom(ps, cache, now, answers, i), Verdict(answers[i]);
            var asked := [Asked(i, now, verdict)];
            if Servable(ps[i], cache[i], now) then
              e == if cache[i].value.pass then EvaluateFrom(ps, cache, now, answers, i + 1)
                   else Evaluation(Skip(NameOf(ps, i)), cache, [])
            else
              e == if verdict.None? then Evaluation(Fail(NameOf(ps, i)), cache, asked)
                   else if !verdict.value then
                     Evaluation(Skip(NameOf(ps, i)), Remember(ps, cache, i, now, false), asked)
                   else Prepend(asked, EvaluateFrom(ps, Remember(ps, cache, i, now, true), now, answers, i + 1))
  {
  }

  lemma EvaluateNone(ps: seq<Predicate>, cache: seq<Option<Entry>>, now: int, answers: seq<Answer>)
    requires |cache| == |ps| == |answers|
    ensures EvaluateFrom(ps, cache, now, answers, |ps|) == Evaluation(Run, cache, [])
  {
  }

  /* ---------------- the cache refines direct evaluation ---------------- */

  /** The most recent answer of predicate i that was not an error. */
  ghost function LastAnswer(log: seq<Asked>, i: nat): Option<Entry> {
    if log == [] then None
    else
      var last := log[|log| - 1];
      if last.index == i && last.verdict.Some? then Some(Entry(last.at, last.verdict.value))
      else LastAnswer(log[..|log| - 1], i)
  }

  /** The cache holds exactly the last non-error answer of every predicate with a positive TTL. */
  ghost predicate Consistent(ps: seq<Predicate>, cache: seq<Option<Entry>>, log: seq<Asked>) {
    && |cache| == |ps|
    && forall i | 0 <= i < |ps| :: cache[i] == EntryOf(ps, log, i)
  }

  /** Predicate i has a TTL, and its last answer was given less than that ago. */
  ghost predicate HasFreshAnswer(ps: seq<Predicate>, log: seq<Asked>, now: int, i: nat)
    requires i < |ps|
  {
    && ps[i].ttl > 0 && LastAnswer(log, i).Some?
    && now - LastAnswer(log, i).value.at < ps[i].ttl
  }

  /** What predicate i says now: its last answer while that is younger than its TTL, else the database. */
  ghost function Effective(ps: seq<Predicate>, log: seq<Asked>, now: int, answers: seq<Answer>, i: nat): Option<bool>
    requires |ps| == |answers| && i < |ps|
  {
    if HasFreshAnswer(ps, log, now, i) then Some(LastAnswer(log, i).value.pass) else Verdict(answers[i])
  }

  /** The saturating difference of clock readings decides as the difference itself does. */
  lemma ServableIsFresh(ps: seq<Predicate>, log: seq<Asked>, now: int, i: nat)
    requires i < |ps|
    ensures Servable(ps[i], EntryOf(ps, log, i), now) <==> HasFreshAnswer(ps, log, now, i)
  {
  }

  ghost predicate AllTrueBefore(ps: seq<Predicate>, log: seq<Asked>, now: int, answers: seq<Answer>, n: nat)
    requires |ps| == |answers| && n <= |ps|
  {
    forall i | 0 <= i < n :: Effective(ps, log, now, answers, i) == Some(true)
  }

  /** Predicate `i` decides the evaluation with `verdict`: every earlier one says true. */
  ghost predicate Decides(ps: seq<Predicate>, log: seq<Asked>, now: int, answers: seq<Answer>, i: nat,
      verdict: Option<bool>)
    requires |ps| == |answers|
  {
    && i < |ps|
    && AllTrueBefore(ps, log, now, answers, i)
    && Effective(ps, log, now, answers, i) == verdict
    && verdict != Some(true)
  }

  /** A decision agrees with direct evaluation of the effective answers. */
  ghost predicate Refines(ps: seq<Predicate>, log: seq<Asked>, now: int, answers: seq<Answer>, d: Decision)
    requires |ps| == |answers|
  {
    match d
    case Run => AllTrueBefore(ps, log, now, answers, |ps|)
    case Skip(name) => exists i :: Decides(ps, log, now, answers, i, Some(false)) && name == NameOf(ps, i)
    case Fail(name) => exists i :: Decides(ps, log, now, answers, i, None) && name == NameOf(ps, i)
  }

  lemma LastAnswerAfter(log: seq<Asked>, a: Asked, i: nat)
    ensures LastAnswer(log + [a], i)
            == if a.index == i && a.verdict.Some? then Some(Entry(a.at, a.verdict.value)) else LastAnswer(log, i)
  {
  }

  /** The cache entry of predicate i that a log calls for. */
  ghost function EntryOf(ps: seq<Predicate>, log: seq<Asked>, i: nat): Option<Entry>
    requires i < |ps|
  {
    if ps[i].ttl > 0 then LastAnswer(log, i) else None
  }

  /** From predicate i on, the decision refines direct evaluation against the log before the evaluation. */
  lemma {:induction false} DecisionRefinesFrom(ps: seq<Predicate>, cache: seq<Option<Entry>>, now: int,
      answers: seq<Answer>, i: nat, log: seq<Asked>)
    requires |cache| == |ps| == |answers| && i <= |ps|
    requires forall j | i <= j < |ps| :: cache[j] == EntryOf(ps, log, j)
    requires AllTrueBefore(ps, log, now, answers, i)
    ensures Refines(ps, log, now, answers, EvaluateFrom(ps, cache, now, answers, i).decision)
    decreases |ps| - i
  {
    hide Verdict;
    if i < |ps| {
      var effective := Effective(ps, log, now, answers, i);
      ServableIsFresh(ps, log, now, i);
      if effective != Some(true) {
        assert Decides(ps, log, now, answers, i, effective);
      } else if Servable(ps[i], cache[i], now) {
        DecisionRefinesFrom(ps, cache, now, answers, i + 1, log);
      } else {
        DecisionRefinesFrom(ps, Remember(ps, cache, i, now, true), now, answers, i + 1, log);
      }
    }
  }

  /** From predicate i on, the cache stays consistent with the log extended by what is asked. */
  lemma {:induction false} CacheStaysConsistentFrom(ps: seq<Predicate>, cache: seq<Option<Entry>>, now: int,
      answers: seq<Answer>, i: nat, log: seq<Asked>)
    requires |cache| == |ps| == |answers| && i <= |ps|
    requires Consistent(ps, cache, log)
    ensures var e := EvaluateFrom(ps, cache, now, answers, i);
            Consistent(ps, e.cache, log + e.asked)
    decreases |ps| - i
  {
    hide Verdict, Consistent;
    assert log + [] == log;
    if i < |ps| {
      var verdict := Verdict(answers[i]);
      var asked := Asked(i, now, verdict);
      if Servable(ps[i], cache[i], now) {
        CacheStaysConsistentFrom(ps, cache, now, answers, i + 1, log);
      } else {
        AskingKeepsConsistency(ps, cache, log, asked);
        if verdict == Some(true) {
          var cache' := Remember(ps, cache, i, now, true);
          CacheStaysConsistentFrom(ps, cache', now, answers, i + 1, log + [asked]);
          var rest := EvaluateFrom(ps, cache', now, answers, i + 1);
          assert log + [asked] + rest.asked == log + ([asked] + rest.asked);
        }
      }
    }
  }

  lemma AskingKeepsConsistency(ps: seq<Predicate>, cache: seq<Option<Entry>>, log: seq<Asked>, a: Asked)
    requires Consistent(ps, cache, log) && a.index < |ps|
    ensures var cache' := if a.verdict.Some? then Remember(ps, cache, a.index, a.at, a.verdict.value) else cache;
            Consistent(ps, cache', log + [a])
  {
  }

  /** The log ends, for predicate i, with the answer true, given now or less than the predicate's TTL ago. */
  ghost predicate Backed(ps: seq<Predicate>, log: seq<Asked>, now: int, i: nat)
    requires i < |ps|
  {
    var last := LastAnswer(log, i);
    last.Some? && last.value.pass && (last.value.at == now || now - last.value.at < ps[i].ttl)
  }

  ghost predicate AllBacked(ps: seq<Predicate>, log: seq<Asked>, now: int, n: nat)
    requires n <= |ps|
  {
    forall i: nat | i < n :: Backed(ps, log, now, i)
  }

  lemma {:induction false} RunIsBackedFrom(ps: seq<Predicate>, cache: seq<Option<Entry>>, now: int,
      answers: seq<Answer>, i: nat, log: seq<Asked>)
    requires |cache| == |ps| == |answers| && i <= |ps|
    requires Consistent(ps, cache, log)
    requires AllBacked(ps, log, now, i)
    ensures var e := EvaluateFrom(ps, cache, now, answers, i);
            e.decision.Run? ==> AllBacked(ps, log + e.asked, now, |ps|)
    decreases |ps| - i
  {
    if i == |ps| {
      assert log + [] == log;
    } else if Servable(ps[i], cache[i], now) {
      if cache[i].value.pass {
        RunIsBackedFrom(ps, cache, now, answers, i + 1, log);
      }
    } else if Verdict(answers[i]) == Some(true) {
      var asked := Asked(i, now, Some(true));
      var cache' := Remember(ps, cache, i, now, true);
      AskingKeepsConsistency(ps, cache, log, asked);
      forall j: nat | j <= i ensures Backed(ps, log + [asked], now, j) {
        LastAnswerAfter(log, asked, j);
        assert j < i ==> Backed(ps, log, now, j);
      }
      RunIsBackedFrom(ps, cache', now, answers, i + 1, log + [asked]);
      var e, rest := EvaluateFrom(ps, cache, now, answers, i), EvaluateFrom(ps, cache', now, answers, i + 1);
      assert e.asked == [asked] + rest.asked;
      assert log + [asked] + rest.asked == log + ([asked] + rest.asked);
    }
  }

  /** At most one predicate decides. */
  lemma DecidesOnlyOnce(ps: seq<Predicate>, log: seq<Asked>, now: int, answers: seq<Answer>, i: nat,
      v: Option<bool>, j: nat, w: Option<bool>)
    requires |ps| == |answers|
    requires Decides(ps, log, now, answers, i, v) && Decides(ps, log, now, answers, j, w)
    ensures i == j && v == w
  {
    hide Effective;
  }

  /** The decision is determined by the effective answers: the first that is not true decides. */
  lemma FirstNotTrueDecides(ps: seq<Predicate>, log: seq<Asked>, now: int, answers: seq<Answer>, d: Decision, i: nat)
    requires |ps| == |answers| && Refines(ps, log, now, answers, d)
    ensures AllTrueBefore(ps, log, now, answers, |ps|) <==> d == Run
    ensures Decides(ps, log, now, answers, i, Some(false)) ==> d == Skip(NameOf(ps, i))
    ensures Decides(ps, log, now, answers, i, None) ==> d == Fail(NameOf(ps, i))
  {
    hide Effective, NameOf;
    var verdict := if d.Skip? then Some(false) else None;
    if !d.Run? {
      var j :| Decides(ps, log, now, answers, j, verdict) && d.name == NameOf(ps, j);
      if Decides(ps, log, now, answers, i, Some(false)) {
        DecidesOnlyOnce(ps, log, now, answers, i, Some(false), j, verdict);
      }
      if Decides(ps, log, now, answers, i, None) {
        DecidesOnlyOnce(ps, log, now, answers, i, None, j, verdict);
      }
    }
  }

  /* ---------------- what is asked ---------------- */

  ghost predicate Asks(asked: seq<Asked>, i: nat) {
    exists a | a in asked :: a.index == i
  }

  /** Predicate j is asked exactly if every earlier one says true and it has no fresh answer itself. */
  ghost predicate AsksAsNeeded(ps: seq<Predicate>, log: seq<Asked>, now: int, answers: seq<Answer>,
      asked: seq<Asked>, j: nat)
    requires |ps| == |answers| && j < |ps|
  {
    Asks(asked, j) <==> AllTrueBefore(ps, log, now, answers, j) && !HasFreshAnswer(ps, log, now, j)
  }

  /** Questions are put in order, now, and answered by the database. */
  ghost predicate AskedNow(now: int, answers: seq<Answer>, asked: seq<Asked>, i: nat) {
    && (forall a | a in asked :: i <= a.index < |answers| && a.at == now && a.verdict == Verdict(answers[a.index]))
    && (forall k, l | 0 <= k < l < |asked| :: asked[k].index < asked[l].index)
  }

  lemma AsksOneMore(a: Asked, rest: seq<Asked>, j: nat)
    ensures Asks([a] + rest, j) <==> a.index == j || Asks(rest, j)
  {
    assert ([a] + rest)[0] == a;
    assert forall b | b in rest :: b in [a] + rest;
  }

  lemma {:induction false} AskedFrom(ps: seq<Predicate>, cache: seq<Option<Entry>>, now: int, answers: seq<Answer>,
      i: nat, log: seq<Asked>)
    requires |cache| == |ps| == |answers| && i <= |ps|
    requires forall j | i <= j < |ps| :: cache[j] == EntryOf(ps, log, j)
    requires AllTrueBefore(ps, log, now, answers, i)
    ensures var asked := EvaluateFrom(ps, cache, now, answers, i).asked;
            && AskedNow(now, answers, asked, i)
            && forall j: nat | i <= j < |ps| :: AsksAsNeeded(ps, log, now, answers, asked, j)
    decreases |ps| - i
  {
    hide Verdict, HasFreshAnswer;
    if i < |ps| {
      ServableIsFresh(ps, log, now, i);
      var asked := EvaluateFrom(ps, cache, now, answers, i).asked;
      if Effective(ps, log, now, answers, i) != Some(true) {
        forall j: nat | i <= j < |ps| ensures AsksAsNeeded(ps, log, now, answers, asked, j) {
          LaterIsNotReached(ps, log, now, answers, i, j);
        }
      } else if Servable(ps[i], cache[i], now) {
        AskedFrom(ps, cache, now, answers, i + 1, log);
      } else {
        var cache' := Remember(ps, cache, i, now, true);
        AskedFrom(ps, cache', now, answers, i + 1, log);
        var rest := EvaluateFrom(ps, cache', now, answers, i + 1).asked;
        assert asked == [Asked(i, now, Verdict(answers[i]))] + rest;
        forall j: nat | i <= j < |ps| ensures AsksAsNeeded(ps, log, now, answers, asked, j) {
          AsksOneMore(Asked(i, now, Verdict(answers[i])), rest, j);
          assert j > i ==> AsksAsNeeded(ps, log, now, answers, rest, j);
        }
      }
    }
  }

  lemma LaterIsNotReached(ps: seq<Predicate>, log: seq<Asked>, now: int, answers: seq<Answer>, i: nat, j: nat)
    requires |ps| == |answers| && i < |ps| && j <= |ps| && Effective(ps, log, now, answers, i) != Some(true)
    ensures i < j ==> !AllTrueBefore(ps, log, now, answers, j)
  {
  }

  /* ---------------- whole runs ---------------- */

  /** One evaluation request: the collector's clock and what the database would answer. */
  datatype Probe = Probe(now: int, answers: seq<Answer>)

  datatype Machine = Machine(cache: seq<Option<Entry>>, log: seq<Asked>)

  ghost predicate ValidProbes(ps: seq<Predicate>, probes: seq<Probe>) {
    forall p | p in probes :: |p.answers| == |ps|
  }

  /** The state after a sequence of evaluations, starting from a new collector. */
  ghost function After(ps: seq<Predicate>, probes: seq<Probe>): (m: Machine)
    requires ValidProbes(ps, probes)
    ensures |m.cache| == |ps|
    decreases |probes|
  {
    if probes == [] then Machine(seq(|ps|, _ => None), [])
    else
      var p := probes[|probes| - 1];
      assert p in probes;
      var m := After(ps, probes[..|probes| - 1]);
      CacheKeepsItsLength(ps, m.cache, p.now, p.answers, 0);
      var e := EvaluateFrom(ps, m.cache, p.now, p.answers, 0);
      Machine(e.cache, m.log + e.asked)
  }

  lemma {:induction false} CacheKeepsItsLength(ps: seq<Predicate>, cache: seq<Option<Entry>>, now: int,
      answers: seq<Answer>, i: nat)
    requires |cache| == |ps| == |answers| && i <= |ps|
    ensures |EvaluateFrom(ps, cache, now, answers, i).cache| == |ps|
    decreases |ps| - i
  {
    if i < |ps| {
      CacheKeepsItsLength(ps, cache, now, answers, i + 1);
      CacheKeepsItsLength(ps, Remember(ps, cache, i, now, true), now, answers, i + 1);
    }
  }

  /**
   Over every run: the next decision refines direct evaluation of each predicate's last answer within its
   TTL, or of the database; and the cache is exactly the last non-error answers, so errors never write it.
   */
  lemma {:induction false} CachingRefinesDirectEvaluation(ps: seq<Predicate>, probes: seq<Probe>, next: Probe)
    requires ValidProbes(ps, probes) && |next.answers| == |ps|
    ensures var m := After(ps, probes);
            && Consistent(ps, m.cache, m.log)
            && Refines(ps, m.log, next.now, next.answers, EvaluateFrom(ps, m.cache, next.now, next.answers, 0).decision)
    decreases |probes|
  {
    var m := After(ps, probes);
    if probes != [] {
      var init, p := probes[..|probes| - 1], probes[|probes| - 1];
      assert p in probes && forall x | x in init :: x in probes;
      var before := After(ps, init);
      CachingRefinesDirectEvaluation(ps, init, p);
      CacheStaysConsistentFrom(ps, before.cache, p.now, p.answers, 0, before.log);
    }
    DecisionRefinesFrom(ps, m.cache, next.now, next.answers, 0, m.log);
  }

  /**
   Over every run: when the main query runs, the database's last answer to every predicate is true, and was
   given in this very evaluation or less than that predicate's TTL ago.
   */
  lemma MainQueryIsBacked(ps: seq<Predicate>, probes: seq<Probe>, next: Probe)
    requires ValidProbes(ps, probes) && |next.answers| == |ps|
    ensures var m := After(ps, probes);
            var e := EvaluateFrom(ps, m.cache, next.now, next.answers, 0);
            e.decision.Run? ==> AllBacked(ps, m.log + e.asked, next.now, |ps|)
  {
    CachingRefinesDirectEvaluation(ps, probes, next);
    var m := After(ps, probes);
    RunIsBackedFrom(ps, m.cache, next.now, next.answers, 0, m.log);
  }

  /**
   Over every run: the next evaluation asks exactly the predicates before which all say true and whose last answer,
   if any, is not less than the TTL old. A fresh answer is not asked for again, and decides in place of the database.
   */
  lemma FreshAnswersAreNotAskedAgain(ps: seq<Predicate>, probes: seq<Probe>, next: Probe, i: nat)
    requires ValidProbes(ps, probes) && |next.answers| == |ps| && i < |ps|
    ensures var m := After(ps, probes);
            var e := EvaluateFrom(ps, m.cache, next.now, next.answers, 0);
            && AskedNow(next.now, next.answers, e.asked, 0)
            && (Asks(e.asked, i) <==>
                  && AllTrueBefore(ps, m.log, next.now, next.answers, i)
                  && !HasFreshAnswer(ps, m.log, next.now, i))
            && (&& AllTrueBefore(ps, m.log, next.now, next.answers, i)
                && HasFreshAnswer(ps, m.log, next.now, i)
                && !LastAnswer(m.log, i).value.pass ==>
                  e.decision == Skip(NameOf(ps, i)))
  {
    hide Verdict, EvaluateFrom, AskedNow;
    CachingRefinesDirectEvaluation(ps, probes, next);
    var m := After(ps, probes);
    var d := EvaluateFrom(ps, m.cache, next.now, next.answers, 0).decision;
    AskedFrom(ps, m.cache, next.now, next.answers, 0, m.log);
    var asked := EvaluateFrom(ps, m.cache, next.now, next.answers, 0).asked;
    assert AsksAsNeeded(ps, m.log, next.now, next.answers, asked, i);
    FirstNotTrueDecides(ps, m.log, next.now, next.answers, d, i);
  }
}
