/**
 * The older TypeScript entry point, src/index.ts: the same pipeline as src/formatTime.ts
 * without validation and without unit conversion. The time is taken as seconds, unknown
 * unit names select the table by index -1, and the precision goes to `roundToDecimals` as it
 * stands instead of rounded.
 */
module LegacyTs {
  import opened Wrappers
  import opened Records
  import opened Constants
  import opened Utils
  import opened Validator
  import opened Engine

  /** The precision, taken as a number of decimals as it stands, is a whole number. */
  predicate IntegerPrecision(options: Record<Value>) {
    Field(options, "precision").Num? && Field(options, "precision").x == Field(options, "precision").x.Floor as real
  }

  function Precision(options: Record<Value>): (p: int)
    requires IntegerPrecision(options)
    ensures p as real == Field(options, "precision").x
  {
    Field(options, "precision").x.Floor
  }

  /**
   * `getTimeComponents` of index.ts: the loop divides the remaining seconds by the unit's size
   * directly and rounds the last unit to the precision as given.
   */
  method GetTimeComponents(time: real, options: Record<Value>) returns (timeComponents: Components)
    requires IntegerPrecision(options)
    ensures timeComponents == Split(time, GetUnitTimeMap(options), Precision(options))
  {
    timeComponents := SplitLoop(time, GetUnitTimeMap(options), Precision(options));
  }

  /** The `forEach` of index.ts's `getTimeComponents` over a window m. */
  method SplitLoop(time: real, m: seq<(Unit, real)>, digits: int) returns (timeComponents: Engine.Components)
    requires HasOwnSizes(m)
    ensures timeComponents == Split(time, m, digits)
  {
    var t := time;
    timeComponents := [];
    var index := 0;
    while index < |m|
      invariant 0 <= index <= |m|
      invariant index < |m| ==> timeComponents == Pushed(time, m, index, digits) && t == Left(time, m, index)
      invariant index == |m| ==> timeComponents == Split(time, m, digits)
    {
      var key, value := m[index].0, m[index].1;
      if index < |m| - 1 {
        var amount := (t / value).Floor as real;
        LoopStep(time, m, index, digits, t, amount);
        timeComponents := timeComponents + [(key, amount)];
        t := t - Weight(amount, value);
      } else {
        LoopLast(time, m, digits, t);
        timeComponents := timeComponents + [(key, RoundToDecimals(t / value, digits))];
      }
      index := index + 1;
    }
  }

  /** The components index.ts computes for a time in seconds under the merged options. */
  function Components(time: real, options: Record<Value>): (c: Engine.Components)
    requires IntegerPrecision(MergedDefaults(DefaultOptions, options))
    ensures |c| <= |Units|
  {
    var mergedOptions := MergedDefaults(DefaultOptions, options);
    Split(time, GetUnitTimeMap(mergedOptions), Precision(mergedOptions))
  }

  /** The default export of index.ts: the phrased components, or the zero phrase; it never fails. */
  function FormattedTime(time: real, options: Record<Value>, i18n: Record<I18nEntry>): string
    requires IsPartialI18n(i18n) && IntegerPrecision(MergedDefaults(DefaultOptions, options))
  {
    Phrased(Components(time, options), i18n)
  }

  method FormatTime(time: real, options: Record<Value>, i18n: Record<I18nEntry>) returns (r: string)
    requires IsPartialI18n(i18n) && IntegerPrecision(MergedDefaults(DefaultOptions, options))
    ensures r == FormattedTime(time, options, i18n)
  {
    var mergedOptions := MergedDefaults(DefaultOptions, options);
    var mergedI18n := MergedDefaults(DefaultI18n, i18n);
    var timeComponents := GetTimeComponents(time, mergedOptions);
    assert timeComponents == Components(time, options);
    var bounds := GetBounds(timeComponents);
    var filteredTimeComponents := GetFilteredTimeComponents(timeComponents, bounds);
    MergedWords(i18n, Second);
    if |filteredTimeComponents| > 0 {
      r := HumanReadableList(GetFormattedTimeComponents(filteredTimeComponents, mergedI18n), Glue(i18n));
    } else {
      r := ZeroPhrase(i18n);
    }
  }

  /**
   * On arguments formatTime.ts accepts, with the input in seconds and a whole precision, index.ts
   * says the same thing.
   */
  lemma AgreesWithFormatTime(t: real, options: Record<Value>, i18n: Record<I18nEntry>)
    requires IsPartialI18n(i18n)
    requires WellFormedOptions(MergedDefaults(DefaultOptions, options))
    requires IntegerPrecision(MergedDefaults(DefaultOptions, options))
    requires Field(MergedDefaults(DefaultOptions, options), "inputUnit") == Str(Name(Second))
    ensures Engine.FormattedTime(Num(t), options, i18n) == Success(FormattedTime(t, options, i18n))
  {
    var mo := MergedDefaults(DefaultOptions, options);
    SecondsStaySeconds(t, mo);
    RoundWhole(Field(mo, "precision").x);
    assert TimeComponentsOf(InSeconds(t, mo), mo) == Components(t, options);
  }

  lemma SecondsStaySeconds(t: real, options: Record<Value>)
    requires Field(options, "inputUnit") == Str(Name(Second))
    ensures ValidUnit(Field(options, "inputUnit")) && InSeconds(t, options) == t
  {
    NamedUnit(Second);
    ToSeconds(t, Second);
    assert Weight(t, Size(Second)) == t * 1.0 == t;
  }

  /** `Math.round` leaves a whole number as it is. */
  lemma RoundWhole(p: real)
    requires p == p.Floor as real
    ensures MathRound(p) == p.Floor
  {
  }

  /**
   * An unknown minUnit, or a maxUnit after minUnit, leaves an empty window: no validation stops
   * it, and the result is the zero phrase whatever the time.
   */
  lemma EmptyWindow(t: real, options: Record<Value>, i18n: Record<I18nEntry>)
    requires IsPartialI18n(i18n) && IntegerPrecision(MergedDefaults(DefaultOptions, options))
    requires var mo := MergedDefaults(DefaultOptions, options);
             UnitIndexOf(Field(mo, "minUnit")) < 0 || UnitIndexOf(Field(mo, "maxUnit")) > UnitIndexOf(Field(mo, "minUnit"))
    ensures FormattedTime(t, options, i18n) == ZeroPhrase(i18n)
  {
    var c := Components(t, options);
    assert c == [];
    PhrasedZero(c, i18n);
  }

  /** An unknown maxUnit counts as index -1: the window starts at the first unit, the week. */
  lemma UnknownMaxUnit(options: Record<Value>)
    requires var mo := MergedDefaults(DefaultOptions, options);
             UnitIndexOf(Field(mo, "maxUnit")) < 0 <= UnitIndexOf(Field(mo, "minUnit"))
    ensures var mo := MergedDefaults(DefaultOptions, options);
            GetUnitTimeMap(mo) == UnitTimeMap[..UnitIndexOf(Field(mo, "minUnit")) + 1]
  {
    UnitTimeMapIsTable();
  }

  /**
   * With a non-empty window, the kept components weigh the time up to the rounding of the finest
   * unit of the window.
   */
  lemma Magnitude(t: real, options: Record<Value>)
    requires IntegerPrecision(MergedDefaults(DefaultOptions, options))
    requires |GetUnitTimeMap(MergedDefaults(DefaultOptions, options))| > 0
    ensures var mo := MergedDefaults(DefaultOptions, options);
            var m := GetUnitTimeMap(mo);
            var c := Components(t, options);
            var h := Weight(0.5 / Pow10(Precision(mo)), m[|m| - 1].1);
            t - h < Total(GetFilteredTimeComponents(c, GetBounds(c))) <= t + h
  {
    var mo := MergedDefaults(DefaultOptions, options);
    SplitTotal(t, GetUnitTimeMap(mo), Precision(mo));
    TrimKeepsTotal(Components(t, options));
  }
}
