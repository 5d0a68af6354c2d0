/** Reading a version number out of a pgbouncer version text. */
module Semver {
  import opened Core
  import opened LabelKey

  const DOT: byte := 0x2E
  const MAX_INT64 := 0x7FFF_FFFF_FFFF_FFFF

  /** The end of the run of digits that starts at i. */
  function DigitRun(s: Bytes, i: nat): (j: nat)
    requires i <= |s|
    ensures i <= j <= |s| && (forall k | i <= k < j :: IsDigit(s[k])) && (j < |s| ==> !IsDigit(s[j]))
    decreases |s| - i
  {
    if i < |s| && IsDigit(s[i]) then DigitRun(s, i + 1) else i
  }

  datatype Groups = Groups(major: Bytes, minor: Bytes, release: Bytes)

  /** The match of three dotted digit groups at position i; every group is as long as possible. */
  function MatchAt(s: Bytes, i: nat): Option<Groups>
    requires i <= |s|
  {
    var j := DigitRun(s, i);
    if j == i || j == |s| || s[j] != DOT then None
    else
      var k := DigitRun(s, j + 1);
      if k == j + 1 || k == |s| || s[k] != DOT then None
      else
        var m := DigitRun(s, k + 1);
        if m == k + 1 then None else Some(Groups(s[i..j], s[j + 1..k], s[k + 1..m]))
  }

  /** The leftmost match at or after position i. */
  function FindFrom(s: Bytes, i: nat): Option<Groups>
    requires i <= |s|
    decreases |s| - i
  {
    if MatchAt(s, i).Some? || i == |s| then MatchAt(s, i) else FindFrom(s, i + 1)
  }

  /** strconv.Atoi on digits fails beyond the int64 range. */
  function Atoi(digits: Bytes): Option<int>
    requires AllDigits(digits)
  {
    if DigitsValue(digits) <= MAX_INT64 then Some(DigitsValue(digits)) else None
  }

  /** int64 arithmetic wraps around. */
  function Wrap(x: int): int {
    (x + 0x8000_0000_0000_0000) % 0x1_0000_0000_0000_0000 - 0x8000_0000_0000_0000
  }

  lemma GroupsAreDigits(s: Bytes, i: nat)
    requires i <= |s| && FindFrom(s, i).Some?
    ensures var g := FindFrom(s, i).value; AllDigits(g.major) && AllDigits(g.minor) && AllDigits(g.release)
    decreases |s| - i
  {
    if MatchAt(s, i).None? {
      GroupsAreDigits(s, i + 1);
    }
  }

  lemma WrapOnce(x: int, y: int)
    ensures Wrap(Wrap(x) + y) == Wrap(x + y)
    ensures Wrap(y + Wrap(x)) == Wrap(x + y)
  {
  }

  /** The version number of a text, or zero. */
  method ParseSemver(semverStr: Bytes) returns (verNum: int)
    ensures verNum == Parsed(semverStr)
  {
    hide Wrap, FindFrom, DigitsValue;
    var semver := FindFrom(semverStr, 0);
    if semver.None? {
      return 0;
    }
    GroupsAreDigits(semverStr, 0);
    verNum := 0;
    var major := Atoi(semver.value.major);
    if major.None? {
      return 0;
    }
    verNum := Wrap(verNum + Wrap(major.value * 10000));
    WrapOnce(major.value * 10000, 0);
    var minor := Atoi(semver.value.minor);
    if minor.None? {
      return 0;
    }
    verNum := Wrap(verNum + Wrap(minor.value * 100));
    WrapOnce(major.value * 10000, Wrap(minor.value * 100));
    WrapOnce(minor.value * 100, major.value * 10000);
    var release := Atoi(semver.value.release);
    if release.None? {
      return 0;
    }
    verNum := Wrap(verNum + release.value);
    WrapOnce(major.value * 10000 + minor.value * 100, release.value);
  }

  function Parsed(s: Bytes): int {
    if FindFrom(s, 0).None? then 0
    else
      GroupsAreDigits(s, 0);
      var g := FindFrom(s, 0).value;
      match (Atoi(g.major), Atoi(g.minor), Atoi(g.release))
      case (Some(a), Some(b), Some(c)) => Wrap(a * 10000 + b * 100 + c)
      case _ => 0
  }

  /* ---------------- what the search finds ---------------- */

  predicate NoDigitFirst(s: Bytes) { s != [] ==> !IsDigit(s[0]) }

  predicate DigitGroup(s: Bytes) { s != [] && AllDigits(s) }

  function Dotted(g: Groups, tail: Bytes): Bytes {
    g.major + ([DOT] + (g.minor + ([DOT] + (g.release + tail))))
  }

  /** From i on the text is three dotted groups of digits, and a tail that does not go on with a digit. */
  predicate DottedAt(s: Bytes, i: nat, g: Groups, tail: Bytes) {
    && i <= |s| && s[i..] == Dotted(g, tail)
    && DigitGroup(g.major) && DigitGroup(g.minor) && DigitGroup(g.release) && NoDigitFirst(tail)
  }

  /** The search misses nothing: three dotted groups at i are the match at i. */
  lemma MatchAtIsComplete(s: Bytes, i: nat, g: Groups, tail: Bytes)
    requires DottedAt(s, i, g, tail)
    ensures MatchAt(s, i) == Some(g)
  {
    hide AllDigits, DigitRun, MatchAt;
    var j := i + |g.major|;
    var k := j + 1 + |g.minor|;
    var m := k + 1 + |g.release|;
    GroupThenDot(s, i, g.major, g.minor + ([DOT] + (g.release + tail)));
    GroupThenDot(s, j + 1, g.minor, g.release + tail);
    RunIs(s, k + 1, g.release, tail);
    MatchFrom(s, i, j, k, m);
  }

  lemma MatchFrom(s: Bytes, i: nat, j: nat, k: nat, m: nat)
    requires i < j < |s| && s[j] == DOT && DigitRun(s, i) == j
    requires j + 1 < k < |s| && s[k] == DOT && DigitRun(s, j + 1) == k
    requires k + 1 < m <= |s| && DigitRun(s, k + 1) == m
    ensures MatchAt(s, i) == Some(Groups(s[i..j], s[j + 1..k], s[k + 1..m]))
  {
    hide DigitRun;
  }

  lemma GroupThenDot(s: Bytes, i: nat, digits: Bytes, rest: Bytes)
    requires i <= |s| && s[i..] == digits + ([DOT] + rest) && AllDigits(digits)
    ensures var j := i + |digits|;
            DigitRun(s, i) == j < |s| && s[j] == DOT && s[i..j] == digits && s[j + 1..] == rest
  {
    hide DigitRun;
    RunIs(s, i, digits, [DOT] + rest);
    var j := i + |digits|;
    assert s[j] == s[j..][0] == DOT;
    assert s[j + 1..] == s[j..][1..] == rest;
  }

  lemma RunIs(s: Bytes, i: nat, digits: Bytes, rest: Bytes)
    requires i <= |s| && s[i..] == digits + rest && AllDigits(digits) && NoDigitFirst(rest)
    ensures i + |digits| <= |s| && s[i..i + |digits|] == digits && s[i + |digits|..] == rest
    ensures DigitRun(s, i) == i + |digits|
  {
    hide DigitRun;
    var j := i + |digits|;
    forall k | i <= k < |s| ensures s[k] == (digits + rest)[k - i] {
      assert s[k] == s[i..][k - i];
    }
    forall k | i <= k < j ensures IsDigit(s[k]) {
      assert s[k] == digits[k - i] && digits[k - i] in digits;
    }
    assert j < |s| ==> s[j] == rest[0];
    RunEndsAt(s, i, j);
  }

  lemma {:induction false} RunEndsAt(s: Bytes, i: nat, j: nat)
    requires i <= j <= |s| && (forall k | i <= k < j :: IsDigit(s[k])) && (j < |s| ==> !IsDigit(s[j]))
    ensures DigitRun(s, i) == j
    decreases j - i
  {
    if i < j {
      RunEndsAt(s, i + 1, j);
    }
  }

  /** And it finds nothing else: every match is three dotted groups at i. */
  lemma MatchAtIsSound(s: Bytes, i: nat) returns (tail: Bytes)
    requires i <= |s| && MatchAt(s, i).Some?
    ensures DottedAt(s, i, MatchAt(s, i).value, tail)
  {
    hide DigitRun, DigitGroup, NoDigitFirst, MatchAt, Dotted;
    var j, k, m := GroupEnds(s, i);
    var g := MatchAt(s, i).value;
    tail := s[m..];
    FirstGroup(s, i, g.major, j);
    FirstGroup(s, j + 1, g.minor, k);
    LastGroup(s, k + 1, g.release, m);
    Nest(s[i..], s[j + 1..], s[k + 1..], g, tail);
  }

  lemma GroupEnds(s: Bytes, i: nat) returns (j: nat, k: nat, m: nat)
    requires i <= |s| && MatchAt(s, i).Some?
    ensures i < j < |s| && s[j] == DOT && j == DigitRun(s, i) && MatchAt(s, i).value.major == s[i..j]
    ensures j + 1 < k < |s| && s[k] == DOT && k == DigitRun(s, j + 1) && MatchAt(s, i).value.minor == s[j + 1..k]
    ensures k + 1 < m && m == DigitRun(s, k + 1) && MatchAt(s, i).value.release == s[k + 1..m]
  {
    hide DigitRun;
    j := DigitRun(s, i);
    k := DigitRun(s, j + 1);
    m := DigitRun(s, k + 1);
  }

  lemma FirstGroup(s: Bytes, i: nat, digits: Bytes, j: nat)
    requires i < j < |s| && s[j] == DOT && j == DigitRun(s, i) && digits == s[i..j]
    ensures DigitGroup(digits) && s[i..] == digits + ([DOT] + s[j + 1..])
  {
  }

  lemma LastGroup(s: Bytes, i: nat, digits: Bytes, m: nat)
    requires i < m <= |s| && m == DigitRun(s, i) && digits == s[i..m]
    ensures DigitGroup(digits) && s[i..] == digits + s[m..] && NoDigitFirst(s[m..])
  {
  }

  lemma Nest(text: Bytes, afterMajor: Bytes, afterMinor: Bytes, g: Groups, tail: Bytes)
    requires text == g.major + ([DOT] + afterMajor)
    requires afterMajor == g.minor + ([DOT] + afterMinor)
    requires afterMinor == g.release + tail
    ensures text == Dotted(g, tail)
  {
  }

  /* ---------------- formatted versions ---------------- */

  /** A version as text, followed by more text. */
  function Format(v: Version, suffix: Bytes): Bytes {
    Dotted(Groups(Itoa(v.major), Itoa(v.minor), Itoa(v.release)), suffix)
  }

  lemma {:induction false} NothingInPrefix(prefix: Bytes, rest: Bytes, i: nat)
    requires i <= |prefix| && forall c | c in prefix :: !IsDigit(c)
    ensures FindFrom(prefix + rest, i) == FindFrom(prefix + rest, |prefix|)
    decreases |prefix| - i
  {
    if i < |prefix| {
      assert (prefix + rest)[i] == prefix[i] && prefix[i] in prefix;
      assert MatchAt(prefix + rest, i).None?;
      NothingInPrefix(prefix, rest, i + 1);
    }
  }

  /** What the text of a version is read as: zero beyond the int64 range, and a wrapped number beyond it. */
  function Reading(v: Version): int {
    if v.major <= MAX_INT64 && v.minor <= MAX_INT64 && v.release <= MAX_INT64 then Wrap(v.Number()) else 0
  }

  /** Whatever digit-free text precedes a formatted version and whatever non-digit follows it, it is what is read. */
  lemma ParsedFormat(prefix: Bytes, v: Version, suffix: Bytes)
    requires (forall x | x in prefix :: !IsDigit(x)) && NoDigitFirst(suffix)
    ensures Parsed(prefix + Format(v, suffix)) == Reading(v)
  {
    hide Itoa, MatchAt, FindFrom, Dotted, AllDigits, DigitsValue, Wrap;
    var s := prefix + Format(v, suffix);
    assert s[|prefix|..] == Format(v, suffix);
    ItoaIsDigits(v.major);
    ItoaIsDigits(v.minor);
    ItoaIsDigits(v.release);
    MatchAtIsComplete(s, |prefix|, Groups(Itoa(v.major), Itoa(v.minor), Itoa(v.release)), suffix);
    NothingInPrefix(prefix, Format(v, suffix), 0);
    FoundHere(s, |prefix|);
  }

  /** A formatted version is read back as its number if and only if that number is in the int64 range. */
  lemma ReadsBack(prefix: Bytes, v: Version, suffix: Bytes)
    requires (forall x | x in prefix :: !IsDigit(x)) && NoDigitFirst(suffix)
    ensures Parsed(prefix + Format(v, suffix)) == v.Number() <==> v.Number() <= MAX_INT64
  {
    hide Parsed, Format;
    ParsedFormat(prefix, v, suffix);
    WrapInRange(v.Number());
  }

  lemma WrapInRange(x: nat)
    ensures Wrap(x) == x <==> x <= MAX_INT64
    ensures MAX_INT64 < x <= MAX_INT64 + 10000 ==> Wrap(x) < 0
  {
  }

  lemma FoundHere(s: Bytes, i: nat)
    requires i <= |s| && MatchAt(s, i).Some?
    ensures FindFrom(s, i) == MatchAt(s, i)
  {
  }

  /* ---------------- order ---------------- */

  datatype Version = Version(major: nat, minor: nat, release: nat) {
    /** Precedence of core versions, section 11 of Semantic Versioning 2.0.0. */
    predicate Precedes(v: Version) {
      || major < v.major
      || (major == v.major && minor < v.minor)
      || (major == v.major && minor == v.minor && release < v.release)
    }

    function Number(): nat { major * 10000 + minor * 100 + release }

    predicate Within(majors: nat, minors: nat, releases: nat) {
      major < majors && minor < minors && release < releases
    }
  }

  /** The number ParseSemver reads from the text of a version. */
  function Read(v: Version): int {
    Parsed(Format(v, []))
  }

  lemma ReadIs(v: Version)
    ensures Read(v) == Reading(v)
    ensures Read(v) == v.Number() <==> v.Number() <= MAX_INT64
    ensures MAX_INT64 < v.Number() <= MAX_INT64 + 10000 && v.minor <= MAX_INT64 && v.release <= MAX_INT64 ==>
              Read(v) < 0
  {
    hide Parsed, Format, Wrap;
    assert [] + Format(v, []) == Format(v, []);
    ParsedFormat([], v, []);
    WrapInRange(v.Number());
  }

  /**
   With minor and release below 100, and as long as the numbers are in the int64 range, ParseSemver orders
   versions exactly as their precedence does.
   */
  lemma ReadingPreservesOrder(v: Version, w: Version)
    requires v.minor < 100 && v.release < 100 && w.minor < 100 && w.release < 100
    requires v.Number() <= MAX_INT64 && w.Number() <= MAX_INT64
    ensures v.Precedes(w) <==> Read(v) < Read(w)
    ensures v == w <==> Read(v) == Read(w)
  {
    hide Read, Reading;
    ReadIs(v);
    ReadIs(w);
    NumbersAreOrdered(v, w);
  }

  lemma NumbersAreOrdered(v: Version, w: Version)
    requires v.minor < 100 && v.release < 100 && w.minor < 100 && w.release < 100
    ensures v.Precedes(w) <==> v.Number() < w.Number()
    ensures v == w <==> v.Number() == w.Number()
  {
  }

  /** Beyond the int64 range the order is lost: this version is read as less than 1.0.0. */
  lemma LargeMajorWraps()
    ensures var v := Version(922337203685478, 0, 0); Version(1, 0, 0).Precedes(v) && Read(v) < Read(Version(1, 0, 0))
  {
    hide Read, Reading;
    ReadIs(Version(1, 0, 0));
    ReadIs(Version(922337203685478, 0, 0));
  }

  /** Components of 100 or more collide or change places. */
  lemma LargeComponentsCollide()
    ensures Version(1, 0, 100).Precedes(Version(1, 1, 0)) && Read(Version(1, 0, 100)) == Read(Version(1, 1, 0))
    ensures Version(1, 100, 1).Precedes(Version(2, 0, 0)) && Read(Version(1, 100, 1)) > Read(Version(2, 0, 0))
  {
    hide Read, Reading;
    ReadIs(Version(1, 0, 100));
    ReadIs(Version(1, 1, 0));
    ReadIs(Version(1, 100, 1));
    ReadIs(Version(2, 0, 0));
  }

  /* ---------------- exactly when the order is kept ---------------- */

  /** All versions whose components stay below the bounds are read in the order of their precedence. */
  ghost predicate OrderedBelow(majors: nat, minors: nat, releases: nat) {
    forall v: Version, w: Version | v.Within(majors, minors, releases) && w.Within(majors, minors, releases) ::
      v.Precedes(w) <==> Read(v) < Read(w)
  }

  /** Releases fit below a step of the minor number, both below a step of the major number, and all into an int64. */
  predicate Fits(majors: nat, minors: nat, releases: nat)
    requires majors > 0 && minors > 0 && releases > 0
  {
    && (minors == 1 || releases <= 100)
    && (majors == 1 || (minors - 1) * 100 + (releases - 1) < 10000)
    && (majors - 1) * 10000 + (minors - 1) * 100 + (releases - 1) <= MAX_INT64
  }

  /** The order of all versions below some bounds is kept if and only if the bounds fit. */
  lemma OrderIsKeptIff(majors: nat, minors: nat, releases: nat)
    requires majors > 0 && minors > 0 && releases > 0
    ensures OrderedBelow(majors, minors, releases) <==> Fits(majors, minors, releases)
  {
    hide Read;
    if Fits(majors, minors, releases) {
      forall v: Version, w: Version | v.Within(majors, minors, releases) && w.Within(majors, minors, releases)
        ensures v.Precedes(w) <==> Read(v) < Read(w)
      {
        FittingOrder(majors, minors, releases, v, w);
      }
    } else {
      var v, w := Disordered(majors, minors, releases);
    }
  }

  lemma FittingOrder(majors: nat, minors: nat, releases: nat, v: Version, w: Version)
    requires majors > 0 && minors > 0 && releases > 0 && Fits(majors, minors, releases)
    requires v.Within(majors, minors, releases) && w.Within(majors, minors, releases)
    ensures v.Precedes(w) <==> Read(v) < Read(w)
  {
    hide Read, Reading;
    ReadIs(v);
    ReadIs(w);
  }

  /** When the bounds do not fit, two versions below them are read in the wrong order. */
  lemma Disordered(majors: nat, minors: nat, releases: nat) returns (v: Version, w: Version)
    requires majors > 0 && minors > 0 && releases > 0 && !Fits(majors, minors, releases)
    ensures v.Within(majors, minors, releases) && w.Within(majors, minors, releases)
    ensures v.Precedes(w) && Read(v) >= Read(w)
  {
    hide Read;
    if minors > 1 && releases > 100 {
      v, w := Version(0, 0, 100), Version(0, 1, 0);
      SmallNumbers(v, w);
    } else if majors > 1 && (minors - 1) * 100 + (releases - 1) >= 10000 {
      v, w := if minors > 1 then Version(0, 100, 0) else Version(0, 0, 10000), Version(1, 0, 0);
      SmallNumbers(v, w);
    } else {
      v, w := Version(0, 0, 0), FirstBeyond(majors, minors, releases);
      NothingIsReadBeyond(w);
    }
  }

  lemma SmallNumbers(v: Version, w: Version)
    requires v.Number() <= 10000 && w.Number() <= 10000
    ensures Read(v) == v.Number() && Read(w) == w.Number()
  {
    hide Read, Reading;
    ReadIs(v);
    ReadIs(w);
  }

  lemma ZeroPrecedes(w: Version)
    requires w.Number() > 0
    ensures Version(0, 0, 0).Precedes(w)
  {
    if w.major == 0 && w.minor == 0 {
      assert w.Number() == w.release;
    }
  }

  lemma NothingIsReadBeyond(w: Version)
    requires MAX_INT64 < w.Number() <= MAX_INT64 + 10000 && w.minor <= MAX_INT64
    ensures Read(Version(0, 0, 0)) == 0 && Read(w) <= 0 && Version(0, 0, 0).Precedes(w)
  {
    hide Read, Wrap;
    ZeroPrecedes(w);
    ReadIs(Version(0, 0, 0));
    ReadIs(w);
    WrapInRange(w.Number());
  }

  /** A version just beyond the int64 range, below bounds that reach beyond it. */
  function FirstBeyond(majors: nat, minors: nat, releases: nat): (v: Version)
    requires majors > 0 && minors > 0 && releases > 0
    requires (minors == 1 || releases <= 100) && (majors == 1 || (minors - 1) * 100 + (releases - 1) < 10000)
    requires (majors - 1) * 10000 + (minors - 1) * 100 + (releases - 1) > MAX_INT64
    ensures v.Within(majors, minors, releases) && MAX_INT64 < v.Number() <= MAX_INT64 + 10000
    ensures v.minor <= MAX_INT64
  {
    var m := if majors == 1 then 0 else MAX_INT64 / 10000;
    var left := MAX_INT64 - m * 10000;
    if majors > m + 1 && majors > 1 then Version(m + 1, 0, 0)
    else if minors == 1 then Version(m, 0, left + 1)
    else if minors > left / 100 + 1 then Version(m, left / 100 + 1, 0)
    else Version(m, left / 100, left % 100 + 1)
  }
}
