/** Conversion of SQL data to sample values, histogram observations and label values. */
module Casting {
  import opened Core
  import opened LabelKey

  /** A scalar sample: anything that cannot be converted becomes NaN. */
  function CastFloat(env: Env, t: Datum, c: Column): Float {
    match t
    case Int(i) => Multiply(Fin(i as real), c.ScaleFactor())
    case Double(f) => Multiply(f, c.ScaleFactor())
    case Timestamp(unix) => Fin(unix as real)
    case Raw(s) => CastText(env, s, c)
    case Text(s) => CastText(env, s, c)
    case Bool(b) => if b then Fin(1.0) else Fin(0.0)
    case Null => if c.default.Some? then Multiply(c.default.value, c.ScaleFactor()) else NaN
    case Unknown => NaN
  }

  function CastText(env: Env, s: Bytes, c: Column): Float {
    match env.parseFloat(s)
    case None => NaN
    case Some(f) => Multiply(f, c.ScaleFactor())
  }

  datatype Observation = Absent | Invalid | Present(v: real)

  /** One histogram observation: a conversion error or a non-finite value is an error. */
  function CastHistogram(env: Env, t: Datum, c: Column): Observation {
    if t.Null? && c.default.None? then Absent else
    var datum := if t.Null? then Double(c.default.value) else t;
    var value := match datum
      case Int(i) => Some(Multiply(Fin(i as real), c.ScaleFactor()))
      case Double(f) => Some(Multiply(f, c.ScaleFactor()))
      case Timestamp(unix) => Some(Fin(unix as real))
      case Raw(s) => Scaled(env.parseFloat(s), c)
      case Text(s) => Scaled(env.parseFloat(s), c)
      case Bool(b) => Some(if b then Fin(1.0) else Fin(0.0))
      case Null => None
      case Unknown => None;
    if value.Some? && value.value.Fin? then Present(value.value.r) else Invalid
  }

  function Scaled(f: Option<Float>, c: Column): Option<Float> {
    if f.None? then None else Some(Multiply(f.value, c.ScaleFactor()))
  }

  /**
   A column yields the same value under any usage: an observation is present with value v exactly
   when it is not an undefaulted NULL and the scalar cast gives the finite v, and it is an error
   exactly when the scalar cast of such a datum is not finite.
   */
  lemma HistogramCastMirrorsScalarCast(env: Env, t: Datum, c: Column)
    ensures CastHistogram(env, t, c).Absent? <==> t.Null? && c.default.None?
    ensures forall v :: CastHistogram(env, t, c) == Present(v) <==>
                        !(t.Null? && c.default.None?) && CastFloat(env, t, c) == Fin(v)
    ensures CastHistogram(env, t, c).Invalid? <==>
            !(t.Null? && c.default.None?) && !CastFloat(env, t, c).Fin?
  {
    if !(t.Null? && c.default.None?) {
      match t {
        case Raw(s) =>
          var f := Scaled(env.parseFloat(s), c);
          assert f.Some? ==> f.value == CastText(env, s, c);
        case Text(s) =>
          var f := Scaled(env.parseFloat(s), c);
          assert f.Some? ==> f.value == CastText(env, s, c);
        case _ =>
      }
    }
  }

  /** "true" and "false" */
  const TRUE_TEXT: Bytes := [0x74, 0x72, 0x75, 0x65]
  const FALSE_TEXT: Bytes := [0x66, 0x61, 0x6C, 0x73, 0x65]
  const MINUS: byte := 0x2D

  function FormatInt(i: int): Bytes {
    if i < 0 then [MINUS] + Itoa(-i) else Itoa(i)
  }

  /** A label value: NULL and unknown types become the empty string. */
  function CastString(env: Env, t: Datum): Bytes {
    match t
    case Int(i) => FormatInt(i)
    case Double(f) => env.formatFloat(f)
    case Timestamp(unix) => FormatInt(unix)
    case Null => []
    case Raw(s) => s
    case Text(s) => s
    case Bool(b) => if b then TRUE_TEXT else FALSE_TEXT
    case Unknown => []
  }

  /* ---------------- what the casts mean ---------------- */

  /** A float64 that stays one. */
  predicate InRange(f: Float) { f.Fin? ==> Representable(f.r) }

  /** Without a scale a number in the range of a float64 is taken as it is; with one it is multiplied. */
  lemma NumbersAreScaled(env: Env, c: Column, i: int, f: Float, k: real)
    requires c.scale == Some(Fin(k)) && InRange(f) && Representable(i as real)
    ensures var unscaled := c.(scale := None);
            CastFloat(env, Int(i), unscaled) == Fin(i as real) && CastFloat(env, Double(f), unscaled) == f
    ensures CastFloat(env, Int(i), c) == Normalize(i as real * k)
    ensures f.Fin? ==> CastFloat(env, Double(f), c) == Normalize(f.r * k)
    ensures f.NaN? ==> CastFloat(env, Double(f), c) == NaN
  {
    hide Pow2;
    UnitScale(f);
    UnitScale(Fin(i as real));
  }

  lemma UnitScale(f: Float)
    requires InRange(f)
    ensures Multiply(f, Fin(1.0)) == f
  {
    if f.Fin? {
      assert f.r * 1.0 == f.r;
    }
  }

  /**
   Whatever the column: text counts as the number it parses as and as nothing otherwise, NULL as the default, a
   timestamp as its seconds and a boolean as one or zero, the last two never scaled.
   */
  lemma OtherDataCountAsNumbers(env: Env, c: Column, s: Bytes, unix: int)
    ensures CastFloat(env, Raw(s), c) == CastFloat(env, Text(s), c)
    ensures CastFloat(env, Text(s), c)
            == match env.parseFloat(s) case None => NaN case Some(f) => CastFloat(env, Double(f), c)
    ensures CastFloat(env, Null, c)
            == match c.default case None => NaN case Some(f) => CastFloat(env, Double(f), c)
    ensures CastFloat(env, Timestamp(unix), c) == Fin(unix as real)
    ensures CastFloat(env, Bool(true), c) == Fin(1.0) && CastFloat(env, Bool(false), c) == Fin(0.0)
    ensures CastFloat(env, Unknown, c) == NaN
  {
  }

  /** Bytes as characters. */
  function Characters(s: Bytes): string {
    seq(|s|, i requires 0 <= i < |s| => s[i] as char)
  }

  /** Decimal text with an optional minus sign, and what it is read as. */
  predicate IsDecimal(s: Bytes) {
    s != [] && if s[0] == MINUS then s[1..] != [] && AllDigits(s[1..]) else AllDigits(s)
  }

  function ReadInt(s: Bytes): int
    requires IsDecimal(s)
  {
    if s[0] == MINUS then -(DigitsValue(s[1..]) as int) else DigitsValue(s)
  }

  lemma FormatIntIsRead(i: int)
    ensures IsDecimal(FormatInt(i)) && ReadInt(FormatInt(i)) == i
  {
    var n := if i < 0 then -i else i;
    ItoaIsDigits(n);
    if i < 0 {
      assert FormatInt(i)[1..] == Itoa(n);
    } else {
      assert Itoa(n)[0] in Itoa(n);
    }
  }

  /** The text is what a label shows for the datum. */
  ghost predicate Shows(env: Env, d: Datum, text: Bytes) {
    match d
    case Text(s) => text == s
    case Raw(s) => text == s
    case Int(i) => IsDecimal(text) && ReadInt(text) == i
    case Timestamp(unix) => IsDecimal(text) && ReadInt(text) == unix
    case Double(f) => text == env.formatFloat(f)
    case Bool(b) => Characters(text) == if b then "true" else "false"
    case Null => text == []
    case Unknown => text == []
  }

  lemma LabelCastShowsDatum(env: Env, d: Datum)
    ensures Shows(env, d, CastString(env, d))
  {
    match d
    case Int(i) => FormatIntIsRead(i);
    case Timestamp(unix) => FormatIntIsRead(unix);
    case Bool(b) =>
      assert Characters(TRUE_TEXT) == "true" && Characters(FALSE_TEXT) == "false";
    case _ =>
  }
}
