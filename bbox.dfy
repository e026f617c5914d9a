/** `is_global_bbox`: the fixed span thresholds that classify a layer as worldwide. */
module Bbox {
  import opened Wrappers
  import opened Json
  import opened Config

  /**
   * True when all four bounds convert with `float()` and the box spans at
   * least 340 degrees of longitude and 120 of latitude; a failed conversion
   * gives false. Spans are not normalised, so an inverted box is never global.
   */
  predicate IsGlobalBbox(west: Json, east: Json, north: Json, south: Json)
  {
    match (ToFloat(west), ToFloat(east), ToFloat(north), ToFloat(south))
    case (Some(w), Some(e), Some(n), Some(s)) =>
      e - w >= GlobalLonThreshold as real && n - s >= GlobalLatThreshold as real
    case _ => false
  }

  /** The classification in terms of the converted bounds, both directions. */
  lemma GlobalIffSpans(west: Json, east: Json, north: Json, south: Json, w: real, e: real, n: real, s: real)
    requires ToFloat(west) == Some(w) && ToFloat(east) == Some(e)
    requires ToFloat(north) == Some(n) && ToFloat(south) == Some(s)
    ensures IsGlobalBbox(west, east, north, south) <==> e - w >= 340.0 && n - s >= 120.0
  {
  }

  /** Any bound that `float()` rejects makes the box non-global. */
  lemma UnconvertibleIsNotGlobal(west: Json, east: Json, north: Json, south: Json)
    requires ToFloat(west).None? || ToFloat(east).None? || ToFloat(north).None? || ToFloat(south).None?
    ensures !IsGlobalBbox(west, east, north, south)
  {
  }

  /** An inverted box (west > east or south > north) has a negative span and is not global. */
  lemma InvertedIsNotGlobal(west: Json, east: Json, north: Json, south: Json)
    requires ToFloat(west).Some? && ToFloat(east).Some? && ToFloat(north).Some? && ToFloat(south).Some?
    requires ToFloat(west).value > ToFloat(east).value || ToFloat(south).value > ToFloat(north).value
    ensures !IsGlobalBbox(west, east, north, south)
  {
  }

  /** Widening a global box keeps it global. */
  lemma WiderStaysGlobal(west: Json, east: Json, north: Json, south: Json,
                         west': Json, east': Json, north': Json, south': Json)
    requires IsGlobalBbox(west, east, north, south)
    requires ToFloat(west').Some? && ToFloat(east').Some? && ToFloat(north').Some? && ToFloat(south').Some?
    requires ToFloat(west').value <= ToFloat(west).value && ToFloat(east').value >= ToFloat(east).value
    requires ToFloat(south').value <= ToFloat(south).value && ToFloat(north').value >= ToFloat(north).value
    ensures IsGlobalBbox(west', east', north', south')
  {
  }

  /** An integer bound, as a JSON number or as a string, converts to its value. */
  lemma FloatOfInteger(j: Json, d: string)
    requires d != [] && AllDigits(d)
    requires j == JNum(d) || j == JStr(d)
    ensures ToFloat(j) == Some(DigitsValue(d) as real)
  {
    ParseFloatDigits(d);
  }

  /** A negated integer bound, as a JSON number or as a string, converts to minus its value. */
  lemma FloatOfNegatedInteger(j: Json, d: string)
    requires d != [] && AllDigits(d)
    requires j == JNum("-" + d) || j == JStr("-" + d)
    ensures ToFloat(j) == Some(-(DigitsValue(d) as real))
  {
    ParseFloatNegatedDigits(d);
  }

  /** The digit strings of the examples below and their values. */
  lemma DigitValues()
    ensures AllDigits("180") && AllDigits("90") && AllDigits("10")
    ensures DigitsValue("180") == 180 && DigitsValue("90") == 90 && DigitsValue("10") == 10
  {
    assert "180"[..2] == "18" && "18"[..1] == "1" && "1"[..0] == "";
    assert "90"[..1] == "9" && "9"[..0] == "";
    assert "10"[..1] == "1";
  }

  /** The world box (-180, 180, 90, -90), written as JSON numbers, is global. */
  lemma WorldIsGlobal()
    ensures IsGlobalBbox(JNum("-180"), JNum("180"), JNum("90"), JNum("-90"))
  {
    DigitValues();
    assert "-180" == "-" + "180" && "-90" == "-" + "90";
    FloatOfNegatedInteger(JNum("-180"), "180");
    FloatOfInteger(JNum("180"), "180");
    FloatOfInteger(JNum("90"), "90");
    FloatOfNegatedInteger(JNum("-90"), "90");
    GlobalIffSpans(JNum("-180"), JNum("180"), JNum("90"), JNum("-90"), -180.0, 180.0, 90.0, -90.0);
  }

  /** A small box (-10, 10, 10, -10), its bounds written as strings, is not global. */
  lemma SmallBoxIsNotGlobal()
    ensures !IsGlobalBbox(JStr("-10"), JStr("10"), JStr("10"), JStr("-10"))
  {
    DigitValues();
    assert "-10" == "-" + "10";
    FloatOfNegatedInteger(JStr("-10"), "10");
    FloatOfInteger(JStr("10"), "10");
    GlobalIffSpans(JStr("-10"), JStr("10"), JStr("10"), JStr("-10"), -10.0, 10.0, 10.0, -10.0);
  }
}
