/**
 The collision-safe group key of a label tuple, and the byte-wise order in which keys are emitted.
 */
module LabelKey {
  import opened Core

  const COLON: byte := 0x3A

  predicate IsDigit(c: byte) { 0x30 <= c <= 0x39 }

  /** Decimal text of a natural number, as strconv.Itoa writes it. */
  function Itoa(n: nat): Bytes {
    var digit := (0x30 + n % 10) as byte;
    if n < 10 then [digit] else Itoa(n / 10) + [digit]
  }

  predicate AllDigits(s: Bytes) { forall c | c in s :: IsDigit(c) }

  /** Reads decimal digits. */
  function DigitsValue(digits: Bytes): nat
    requires AllDigits(digits)
  {
    if digits == [] then 0
    else
      var n := |digits| - 1;
      assert digits[n] in digits && forall c | c in digits[..n] :: c in digits;
      10 * DigitsValue(digits[..n]) + (digits[n] as int - 0x30)
  }

  lemma {:induction false} ItoaIsDigits(n: nat)
    ensures AllDigits(Itoa(n)) && Itoa(n) != [] && DigitsValue(Itoa(n)) == n
  {
    if n >= 10 {
      ItoaIsDigits(n / 10);
      assert Itoa(n)[..|Itoa(n)| - 1] == Itoa(n / 10);
    }
  }

  function Part(text: Bytes): Bytes {
    Itoa(|text|) + [COLON] + text
  }

  function Encode(t: Tuple): Bytes {
    if t == [] then [] else Encode(t[..|t| - 1]) + Part(t[|t| - 1])
  }

  method EncodeLabelTuple(labels: Tuple) returns (key: Bytes)
    ensures key == Encode(labels)
  {
    key := [];
    for i := 0 to |labels|
      invariant key == Encode(labels[..i])
    {
      key := key + Itoa(|labels[i]|);
      key := key + [COLON];
      key := key + labels[i];
      assert labels[..i + 1][..i] == labels[..i];
      assert key == Encode(labels[..i]) + Part(labels[i]);
    }
    assert labels[..|labels|] == labels;
  }

  /* ---------------- decoding ---------------- */

  /** Reads decimal digits up to a colon; the result is the number and what follows the colon. */
  function ReadLength(s: Bytes, acc: nat): Option<(nat, Bytes)> {
    if s == [] then None
    else if s[0] == COLON then Some((acc, s[1..]))
    else if IsDigit(s[0]) then ReadLength(s[1..], 10 * acc + (s[0] as int - 0x30))
    else None
  }

  lemma ReadLengthShrinks(s: Bytes, acc: nat)
    ensures ReadLength(s, acc).Some? ==> |ReadLength(s, acc).value.1| < |s|
  {
  }

  function Decode(s: Bytes): Option<Tuple>
    decreases |s|
  {
    if s == [] then Some([]) else
    match ReadLength(s, 0)
    case None => None
    case Some((n, rest)) =>
      ReadLengthShrinks(s, 0);
      if |rest| < n then None else
      match Decode(rest[n..])
      case None => None
      case Some(t) => Some([rest[..n]] + t)
  }

  lemma {:induction false} ReadLengthOfItoa(n: nat, rest: Bytes)
    ensures ReadLength(Itoa(n) + rest, 0) == ReadLength(rest, n)
  {
    var digit := (0x30 + n % 10) as byte;
    var s := Itoa(n) + rest;
    if n < 10 {
      assert s[0] == digit && s[1..] == rest;
    } else {
      assert s == Itoa(n / 10) + ([digit] + rest);
      ReadLengthOfItoa(n / 10, [digit] + rest);
      assert ([digit] + rest)[1..] == rest;
    }
  }

  lemma {:induction false} EncodeSplitsOffHead(t: Tuple)
    requires t != []
    ensures Encode(t) == Part(t[0]) + Encode(t[1..])
  {
    hide Part;
    var n := |t| - 1;
    var head, last := Part(t[0]), Part(t[n]);
    if n == 0 {
      assert t[..0] == [] && t[1..] == [];
      assert [] + head == head + [];
    } else {
      EncodeSplitsOffHead(t[..n]);
      assert t[..n][1..] == t[1..][..n - 1];
      var middle := Encode(t[1..][..n - 1]);
      assert Encode(t[1..]) == middle + last;
      assert (head + middle) + last == head + (middle + last);
    }
  }

  /** Reading back one encoded value leaves what follows it. */
  lemma DecodePart(text: Bytes, tail: Bytes)
    ensures ReadLength(Part(text) + tail, 0) == Some((|text|, text + tail))
  {
    hide Itoa;
    var rest := [COLON] + (text + tail);
    assert Part(text) + tail == Itoa(|text|) + rest;
    ReadLengthOfItoa(|text|, rest);
    assert rest[1..] == text + tail;
  }

  /** The decoder is a left inverse of the encoder, for tuples of any length and content. */
  lemma {:induction false} DecodeInvertsEncode(t: Tuple)
    ensures Decode(Encode(t)) == Some(t)
  {
    hide Part, ReadLength;
    if t != [] {
      var text, tail := t[0], Encode(t[1..]);
      EncodeSplitsOffHead(t);
      DecodePart(text, tail);
      PartsAreNonEmpty(text, tail);
      assert (text + tail)[..|text|] == text && (text + tail)[|text|..] == tail;
      DecodeInvertsEncode(t[1..]);
      assert [text] + t[1..] == t;
    }
  }

  lemma PartsAreNonEmpty(text: Bytes, tail: Bytes)
    ensures Part(text) + tail != []
  {
  }

  /** Distinct label tuples never share an accumulator. */
  lemma EncodeIsInjective(t: Tuple, u: Tuple)
    requires Encode(t) == Encode(u)
    ensures t == u
  {
    DecodeInvertsEncode(t);
    DecodeInvertsEncode(u);
  }

  /* ---------------- order ---------------- */

  /** Go's string order: byte-wise, a proper prefix first. */
  predicate Less(a: Bytes, b: Bytes) {
    if b == [] then false
    else if a == [] then true
    else a[0] < b[0] || (a[0] == b[0] && Less(a[1..], b[1..]))
  }

  /** a is less than b exactly if it is a proper prefix of b, or smaller at the first place where they differ. */
  lemma {:induction false} LessIff(a: Bytes, b: Bytes)
    ensures Less(a, b) <==> a < b || exists k :: FirstDifference(a, b, k) && a[k] < b[k]
  {
    if a != [] && b != [] {
      LessIff(a[1..], b[1..]);
      var x, y := a[1..], b[1..];
      assert a == [a[0]] + x && b == [b[0]] + y;
      if a[0] == b[0] {
        assert x < y <==> a < b;
        forall k: nat ensures FirstDifference(x, y, k) <==> FirstDifference(a, b, k + 1) {
          assert k < |x| && k < |y| ==> (a[..k + 1] == [a[0]] + x[..k] && b[..k + 1] == [b[0]] + y[..k]);
          assert k < |x| && k < |y| ==> (x[..k] == a[..k + 1][1..] && y[..k] == b[..k + 1][1..]);
        }
        if k :| FirstDifference(a, b, k) && a[k] < b[k] {
          assert FirstDifference(x, y, k - 1) && x[k - 1] < y[k - 1];
        }
        if k :| FirstDifference(x, y, k) && x[k] < y[k] {
          assert FirstDifference(a, b, k + 1) && a[k + 1] < b[k + 1];
        }
      } else {
        assert FirstDifference(a, b, 0);
        forall k | 0 < k < |a| && k < |b| ensures a[..k] != b[..k] {
          PrefixesDiffer(a, b, k);
        }
      }
    }
  }

  lemma PrefixesDiffer(a: Bytes, b: Bytes, k: nat)
    requires 0 < k <= |a| && k <= |b| && a[0] != b[0]
    ensures a[..k] != b[..k]
  {
    assert a[..k][0] == a[0] && b[..k][0] == b[0];
  }

  predicate FirstDifference(a: Bytes, b: Bytes, k: int) {
    0 <= k < |a| && k < |b| && a[..k] == b[..k] && a[k] != b[k]
  }

  lemma {:induction false} LessIsTransitive(a: Bytes, b: Bytes, c: Bytes)
    requires Less(a, b) && Less(b, c)
    ensures Less(a, c)
  {
    if a != [] && a[0] == b[0] == c[0] {
      LessIsTransitive(a[1..], b[1..], c[1..]);
    }
  }

  lemma {:induction false} LessIsIrreflexive(a: Bytes)
    ensures !Less(a, a)
  {
    if a != [] {
      LessIsIrreflexive(a[1..]);
    }
  }

  lemma {:induction false} LessIsTotal(a: Bytes, b: Bytes)
    requires a != b
    ensures Less(a, b) || Less(b, a)
  {
    if a != [] && b != [] && a[0] == b[0] {
      assert a == [a[0]] + a[1..] && b == [b[0]] + b[1..];
      LessIsTotal(a[1..], b[1..]);
    }
  }

  ghost predicate Ascending(ks: seq<Bytes>) {
    forall i, j | 0 <= i < j < |ks| :: Less(ks[i], ks[j])
  }

  /** The keys of a map in sorted order: the range over the map, then sort.Strings. */
  method SortedKeys(keys: set<Bytes>) returns (ks: seq<Bytes>)
    ensures Ascending(ks)
    ensures (set k | k in ks) == keys
  {
    ks := [];
    var rest := keys;
    while rest != {}
      invariant rest <= keys
      invariant Ascending(ks)
      invariant forall k :: k in ks <==> k in keys && k !in rest
      decreases rest
    {
      var k :| k in rest;
      rest := rest - {k};
      ks := InsertKey(ks, k);
    }
  }

  method InsertKey(ks: seq<Bytes>, k: Bytes) returns (r: seq<Bytes>)
    requires Ascending(ks) && k !in ks
    ensures Ascending(r)
    ensures forall x :: x in r <==> x in ks || x == k
  {
    var i := 0;
    while i < |ks| && Less(ks[i], k)
      invariant 0 <= i <= |ks|
      invariant forall j | 0 <= j < i :: Less(ks[j], k)
    {
      i := i + 1;
    }
    forall j | i <= j < |ks| ensures Less(k, ks[j]) {
      LessIsTotal(ks[i], k);
      if i < j { LessIsTransitive(k, ks[i], ks[j]); }
    }
    r := ks[..i] + [k] + ks[i..];
    forall x ensures x in r <==> x in ks || x == k {
      assert ks == ks[..i] + ks[i..];
    }
  }

  /** `ts` lists exactly `s`, in ascending order of encoded key. */
  ghost predicate Lists(ts: seq<Tuple>, s: set<Tuple>) {
    && (forall i, j | 0 <= i < j < |ts| :: Less(Encode(ts[i]), Encode(ts[j])))
    && (set t | t in ts) == s
  }

  /** A set of label tuples has exactly one listing in key order. */
  lemma {:induction false} ListingIsUnique(a: seq<Tuple>, b: seq<Tuple>, s: set<Tuple>)
    requires Lists(a, s) && Lists(b, s)
    ensures a == b
    decreases |a|
  {
    assert forall t | t in a :: t in s;
    assert forall t | t in b :: t in s;
    assert forall t | t in s :: t in a && t in b;
    if b != [] { assert b[0] in b; }
    if a != [] {
      assert a[0] in a;
      HeadsAgree(a, b, s);
      ListingOfTail(a, s);
      ListingOfTail(b, s);
      ListingIsUnique(a[1..], b[1..], s - {a[0]});
    }
  }

  lemma HeadsAgree(a: seq<Tuple>, b: seq<Tuple>, s: set<Tuple>)
    requires Lists(a, s) && Lists(b, s) && a != [] && b != []
    ensures a[0] == b[0]
  {
    if a[0] != b[0] {
      assert a[0] in s && b[0] in s;
      assert a[0] in b && b[0] in a;
      LessIsTransitive(Encode(a[0]), Encode(b[0]), Encode(a[0]));
      LessIsIrreflexive(Encode(a[0]));
    }
  }

  lemma ListingOfTail(a: seq<Tuple>, s: set<Tuple>)
    requires Lists(a, s) && a != []
    ensures Lists(a[1..], s - {a[0]})
  {
    forall t ensures t in a[1..] <==> t in s && t != a[0] {
      assert t in s <==> t in a;
      if t in a[1..] {
        LessIsIrreflexive(Encode(a[0]));
        assert t in a;
      }
    }
  }

  lemma {:induction false} ListingExists(s: set<Tuple>)
    ensures exists ts :: Lists(ts, s)
    decreases s
  {
    if s == {} {
      assert Lists([], s);
    } else {
      var t := LeastTuple(s);
      ListingExists(s - {t});
      var rest :| Lists(rest, s - {t});
      var ts := [t] + rest;
      forall u ensures u in ts <==> u in s {
        assert u in rest <==> u in s - {t};
      }
      assert Lists(ts, s);
    }
  }

  lemma {:induction false} LeastTuple(s: set<Tuple>) returns (least: Tuple)
    requires s != {}
    ensures least in s && forall u | u in s && u != least :: Less(Encode(least), Encode(u))
    decreases s
  {
    var t :| t in s;
    least := t;
    if s != {t} {
      var other := LeastTuple(s - {t});
      if Encode(t) == Encode(other) { EncodeIsInjective(t, other); }
      LessIsTotal(Encode(t), Encode(other));
      if Less(Encode(other), Encode(t)) {
        least := other;
      } else {
        forall u | u in s && u != t ensures Less(Encode(t), Encode(u)) {
          if u != other { LessIsTransitive(Encode(t), Encode(other), Encode(u)); }
        }
      }
    }
  }

  ghost function Listing(s: set<Tuple>): (ts: seq<Tuple>)
    ensures Lists(ts, s)
  {
    ListingExists(s);
    var ts :| Lists(ts, s);
    ts
  }
}
