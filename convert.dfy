/**
 * The conversions behind the mod's `Parse<T>(text, defaultTo)` helper, which calls
 * Convert.ChangeType, and the ToString forms ConfigNode.AddValue writes for bool,
 * int and float values.
 */
module Convert {
  import opened Wrappers
  import Text

  /** C#'s 32-bit `int`. */
  newtype Int32 = x: int | -0x8000_0000 <= x < 0x8000_0000

  const Int32Min: Int32 := -0x8000_0000
  const Int32Max: Int32 := 0x7FFF_FFFF

  /** A C# float in the fields that start out as float.PositiveInfinity. */
  datatype Float = Finite(value: real) | PositiveInfinity
  {
    /** The `<` comparison of two floats. */
    predicate Below(other: Float)
    {
      match (this, other)
      case (Finite(a), Finite(b)) => a < b
      case (Finite(_), PositiveInfinity) => true
      case (PositiveInfinity, _) => false
    }
  }

  /** bool.ToString. */
  function BoolText(b: bool): string
  {
    if b then "True" else "False"
  }

  /** Boolean.Parse: "true" or "false" in any letter case, with surrounding whitespace allowed. */
  function ParseBool(s: string): Option<bool>
  {
    var t := Text.ToLower(Text.Trim(s));
    if t == "true" then Some(true) else if t == "false" then Some(false) else None
  }

  lemma BoolTextRoundTrip(b: bool)
    ensures ParseBool(BoolText(b)) == Some(b)
  {
    if b {
      TrueRoundTrip();
    } else {
      FalseRoundTrip();
    }
  }

  lemma TrueRoundTrip()
    ensures ParseBool("True") == Some(true)
  {
    assert Text.Trim("True") == "True" by { Text.TrimUnpadded("True"); }
    assert Text.ToLower("True") == "true";
  }

  lemma FalseRoundTrip()
    ensures ParseBool("False") == Some(false)
  {
    assert Text.Trim("False") == "False" by { Text.TrimUnpadded("False"); }
    assert Text.ToLower("False") == "false";
  }

  /** int.ToString. */
  function IntText(n: Int32): string
  {
    Text.IntText(n as int)
  }

  /** Int32.Parse: the integer text in range, anything else (OverflowException, FormatException) fails. */
  function ParseInt(s: string): Option<Int32>
  {
    match Text.ParseInteger(s)
    case Some(v) => if -0x8000_0000 <= v < 0x8000_0000 then Some(v as Int32) else None
    case None => None
  }

  lemma IntTextRoundTrip(n: Int32)
    ensures ParseInt(IntText(n)) == Some(n)
  {
    Text.IntTextRoundTrip(n as int);
  }

  /** float.ToString for finite values. */
  function RealText(r: real): string
  {
    Text.RealText(r)
  }

  /** float.Parse of plain decimal text. */
  function ParseReal(s: string): Option<real>
  {
    Text.ParseDecimal(s)
  }

  /** float.ToString, including the "Infinity" it writes for +inf. */
  function FloatText(f: Float): string
  {
    match f
    case Finite(v) => Text.RealText(v)
    case PositiveInfinity => "Infinity"
  }

  /** float.Parse, including the "Infinity" symbol. */
  function ParseFloat(s: string): Option<Float>
  {
    if Text.Trim(s) == "Infinity" then Some(PositiveInfinity)
    else
      match Text.ParseDecimal(s)
      case Some(v) => Some(Finite(v))
      case None => None
  }

  lemma InfinityRoundTrip()
    ensures ParseFloat(FloatText(PositiveInfinity)) == Some(PositiveInfinity)
  {
    Text.TrimUnpadded("Infinity");
  }

  /**
   * Parse<T>: null or empty text gives `defaultTo`; otherwise the converted value,
   * or `defaultTo` again when the conversion throws. `convert` is the conversion
   * Convert.ChangeType performs for T.
   */
  function Parse<T>(text: Option<string>, defaultTo: T, convert: string -> Option<T>): (r: T)
    ensures text.None? || text == Some("") ==> r == defaultTo
    ensures text.Some? && convert(text.value).None? ==> r == defaultTo
    ensures text.Some? && text.value != "" && convert(text.value).Some? ==> r == convert(text.value).value
  {
    match text
    case None => defaultTo
    case Some(t) => if t == "" then defaultTo else convert(t).GetOr(defaultTo)
  }

  /** Parse<bool> reads back exactly what bool.ToString wrote, whatever the default. */
  lemma ParseWrittenBool(b: bool, defaultTo: bool)
    ensures Parse(Some(BoolText(b)), defaultTo, ParseBool) == b
  {
    BoolTextRoundTrip(b);
  }

  /** Parse<int> reads back exactly what int.ToString wrote, whatever the default. */
  lemma ParseWrittenInt(n: Int32, defaultTo: Int32)
    ensures Parse(Some(IntText(n)), defaultTo, ParseInt) == n
  {
    IntTextRoundTrip(n);
  }

  /** Parse<float> reads back a whole number that float.ToString wrote, whatever the default. */
  lemma ParseWrittenWholeReal(n: int, defaultTo: real)
    ensures Parse(Some(RealText(n as real)), defaultTo, ParseReal) == n as real
  {
    Text.WholeRealTextRoundTrip(n);
  }

  /** The text float.ToString writes for a whole number is not the infinity symbol. */
  lemma WholeTextNotInfinity(n: int)
    ensures Text.Trim(Text.RealText(n as real)) != "Infinity"
  {
    var t := Text.RealText(n as real);
    var k: nat := if n < 0 then -n else n;
    var digits := Text.NatText(k);
    Text.RealTextWhole(n);
    assert t == (if n < 0 then "-" else "") + digits;
    assert Text.IsDigit(digits[|digits| - 1]);
    assert t[|t| - 1] == digits[|digits| - 1];
    assert t[0] == (if n < 0 then '-' else digits[0]);
    assert Text.IsDigit(digits[0]);
    assert Text.Trim(t) == t by { Text.TrimUnpadded(t); }
    assert t[0] != 'I';
  }

  /** Parse<float> reads back a whole finite value that float.ToString wrote, whatever the default. */
  lemma ParseWrittenWholeFloat(n: int, defaultTo: Float)
    ensures Parse(Some(FloatText(Finite(n as real))), defaultTo, ParseFloat) == Finite(n as real)
  {
    WholeTextNotInfinity(n);
    Text.WholeRealTextRoundTrip(n);
    assert ParseFloat(FloatText(Finite(n as real))) == Some(Finite(n as real));
  }

  /** Parse<float> reads back the "Infinity" that float.ToString writes for +inf. */
  lemma ParseWrittenInfinity(defaultTo: Float)
    ensures Parse(Some(FloatText(PositiveInfinity)), defaultTo, ParseFloat) == PositiveInfinity
  {
    InfinityRoundTrip();
  }
}
