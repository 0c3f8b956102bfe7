/** `millisecondsIn`: converts an amount of some time unit to milliseconds. */
module MsConverter {
  import opened Wrappers
  import opened JsText

  /**
   * The first argument as JavaScript sees it: an integral number, `NaN`, or a
   * value whose `typeof` is not "number".
   */
  datatype NumArg = Num(n: int) | NaN | NotANumber

  /** Milliseconds per unit for the unit names the converter accepts (already lower-cased). */
  function Factor(unit: string): (r: Option<int>)
    ensures unit == "second" ==> r == Some(1000)
    ensures unit == "minute" ==> r == Some(60000)
    ensures unit == "hour" ==> r == Some(3600000)
    ensures unit == "day" ==> r == Some(86400000)
    ensures unit == "week" ==> r == Some(7 * 86400000)
    ensures unit == "month" ==> r == Some(30 * 86400000)
    ensures unit == "year" ==> r == Some(365 * 86400000)
    ensures r.Some? <==> unit in {"second", "minute", "hour", "day", "week", "month", "year"}
  {
    match unit
    case "second" => Some(1000)
    case "minute" => Some(60 * 1000)
    case "hour" => Some(60 * 60 * 1000)
    case "day" => Some(24 * 60 * 60 * 1000)
    case "week" => Some(7 * 24 * 60 * 60 * 1000)
    case "month" => Some(30 * 24 * 60 * 60 * 1000)
    case "year" => Some(365 * 24 * 60 * 60 * 1000)
    case _ => None
  }

  /**
   * `millisecondsIn(number, type)`: `null` for a non-number, `NaN`, an absent
   * unit or an unsupported one; otherwise the amount scaled by the unit's
   * factor, the unit name being matched after `toLowerCase`.
   */
  function MillisecondsIn(number: NumArg, unit: Option<string>): (r: Option<int>)
    ensures !number.Num? ==> r.None?
    ensures unit.None? ==> r.None?
    ensures r.Some? <==> number.Num? && unit.Some? && Factor(Lower(unit.value)).Some?
    ensures r.Some? ==> r.value == number.n * Factor(Lower(unit.value)).value
  {
    if !number.Num? then None
    else if unit.None? then None
    else
      match Lower(unit.value)
      case "second" => Some(number.n * 1000)
      case "minute" => Some(number.n * 60 * 1000)
      case "hour" => Some(number.n * 60 * 60 * 1000)
      case "day" => Some(number.n * 24 * 60 * 60 * 1000)
      case "week" => Some(number.n * 7 * 24 * 60 * 60 * 1000)
      case "month" => Some(number.n * 30 * 24 * 60 * 60 * 1000)
      case "year" => Some(number.n * 365 * 24 * 60 * 60 * 1000)
      case _ => None
  }

  /** The unit is matched ignoring ASCII case. */
  lemma UnitIgnoresCase(number: NumArg, unit: string)
    ensures MillisecondsIn(number, Some(unit)) == MillisecondsIn(number, Some(Lower(unit)))
    ensures MillisecondsIn(number, Some(unit)) == MillisecondsIn(number, Some(Upper(unit)))
  {
    LowerIdempotent(unit);
    LowerOfUpper(unit);
  }

  /** For a supported unit, the conversion is additive in the amount. */
  lemma Linear(a: int, b: int, unit: string)
    requires Factor(Lower(unit)).Some?
    ensures MillisecondsIn(Num(a + b), Some(unit)).value
            == MillisecondsIn(Num(a), Some(unit)).value + MillisecondsIn(Num(b), Some(unit)).value
  {
    var f := Factor(Lower(unit)).value;
    assert (a + b) * f == a * f + b * f;
  }

  /** The account-lock duration used by the lockout policy: five minutes. */
  lemma FiveMinutes()
    ensures MillisecondsIn(Num(5), Some("minute")) == Some(300000)
  {
    assert Lower("minute") == "minute";
  }
}
