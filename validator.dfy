/**
 * The argument validator of src/validator.ts.  It never throws: it returns
 * the list of error messages, time first, then precision, then the unit
 * options, then one message per unknown option key.
 */
module Validator {
  import opened Wrappers
  import opened Records
  import opened Constants
  import opened Utils

  const TimeError := "time must be a number"
  const PrecisionNotANumber := "options.precision must be a number"
  const PrecisionNegative := "options.precision must be non-negative"
  const RangeError := "options." + "maxUnit" + " must be " + "equal or greater than options.minUnit"

  /** `allowedUnits.includes(v)`. */
  predicate ValidUnit(v: Value) {
    v.Str? && v.s in UnitNames
  }

  /** Every unit name between single quotes. */
  function Quoted(names: seq<string>): (r: seq<string>)
    ensures |r| == |names|
    ensures forall i :: 0 <= i < |names| ==> r[i] == "'" + names[i] + "'"
  {
    seq(|names|, i requires 0 <= i < |names| => "'" + names[i] + "'")
  }

  /** `humanReadableAllowedUnitsList`. */
  function AllowedUnitsList(): string {
    HumanReadableList(Quoted(UnitNames), Some("or"))
  }

  /**
   * The list opens with "'week', " and closes with " or 'microsecond'": the quoted names joined by
   * commas, the last one after "or".
   */
  lemma AllowedUnitsListShape()
    ensures |AllowedUnitsList()| >= 8 && AllowedUnitsList()[..8] == "'week', "
    ensures AllowedUnitsList() == Join(Quoted(UnitNames)[..6], ", ") + " or 'microsecond'"
  {
    var q := Quoted(UnitNames);
    assert |q| == 7;
    var w, last := q[..6], q[6];
    assert last == "'microsecond'";
    var rest := Join(w[1..], ", ");
    assert w[0] == "'week'";
    assert Join(w, ", ") == w[0] + ", " + rest;
    Utils.AppendRegroup(w[0], ", ", rest);
    PrefixOfAppend("'week', ", rest);
    assert AllowedUnitsList() == Join(w, ", ") + " " + "or" + " " + last;
    AppendTail(Join(w, ", "), " ", "or", " ", last);
    PrefixOfAppend(Join(w, ", "), " or 'microsecond'");
  }

  /** A prefix of the left part is a prefix of the whole. */
  lemma PrefixOfAppend(a: string, b: string)
    ensures (a + b)[..|a|] == a
  {
  }

  /** Appending four pieces one by one appends their concatenation. */
  lemma AppendTail(j: string, s1: string, g: string, s2: string, last: string)
    ensures j + s1 + g + s2 + last == j + (s1 + g + s2 + last)
  {
  }

  /** `allowedUnits.map(allowedUnit => `'${allowedUnit}'`)`, written out. */
  lemma QuotedNames()
    ensures Quoted(UnitNames) == ["'week'", "'day'", "'hour'", "'minute'", "'second'", "'millisecond'", "'microsecond'"]
  {
    var q := Quoted(UnitNames);
    assert |q| == 7;
    assert q[0] == "'week'";
    assert q[1] == "'day'";
    assert q[2] == "'hour'";
    assert q[3] == "'minute'";
    assert q[4] == "'second'";
    assert q[5] == "'millisecond'";
    assert q[6] == "'microsecond'";
  }

  /** The text the unit messages end with, as validator.spec.ts spells it out. */
  lemma AllowedUnitsText()
    ensures AllowedUnitsList() ==
      "'week'" + ", " + "'day'" + ", " + "'hour'" + ", " + "'minute'" + ", " + "'second'" + ", " + "'millisecond'" +
      " or " + "'microsecond'"
  {
    QuotedNames();
    AllowedUnitsListShape();
    var w := Quoted(UnitNames)[..6];
    JoinSix(w, ", ");
    AppendRegroup(Join(w, ", "), " or ", "'microsecond'");
  }

  /** Joining six items puts the separator between each pair of neighbours. */
  lemma JoinSix(w: seq<string>, sep: string)
    requires |w| == 6
    ensures Join(w, sep) == w[0] + sep + w[1] + sep + w[2] + sep + w[3] + sep + w[4] + sep + w[5]
  {
    assert w[0..] == w;
    JoinStep(w, sep, 0);
    JoinStep(w, sep, 1);
    SplitOff(w[0], sep, w[1], Join(w[2..], sep));
    JoinStep(w, sep, 2);
    SplitOff(w[0] + sep + w[1], sep, w[2], Join(w[3..], sep));
    JoinStep(w, sep, 3);
    SplitOff(w[0] + sep + w[1] + sep + w[2], sep, w[3], Join(w[4..], sep));
    JoinStep(w, sep, 4);
    SplitOff(w[0] + sep + w[1] + sep + w[2] + sep + w[3], sep, w[4], Join(w[5..], sep));
    assert w[5..] == [w[5]];
  }

  /** A join from index k starts with the item at k. */
  lemma JoinStep(w: seq<string>, sep: string, k: nat)
    requires k < |w| - 1
    ensures Join(w[k..], sep) == w[k] + sep + Join(w[k + 1..], sep)
  {
    assert w[k..][1..] == w[k + 1..];
  }

  /** Moving the next item and separator out of the right-hand part. */
  lemma SplitOff(left: string, sep: string, x: string, rest: string)
    ensures left + sep + (x + sep + rest) == left + sep + x + sep + rest
  {
    Utils.AppendRegroup(left + sep, x + sep, rest);
    Utils.AppendRegroup(left + sep, x, sep);
  }

  /** `['options.<field> must be', humanReadableAllowedUnitsList].join(' ')`. */
  function UnitError(field: string): string {
    "options." + field + " must be " + AllowedUnitsList()
  }

  /** The unit messages in the order the validator emits them. */
  function UnitsMessages(): seq<string> {
    [UnitError("inputUnit"), UnitError("minUnit"), UnitError("maxUnit"), RangeError]
  }

  /** The four unit messages differ from one another. */
  lemma UnitsMessagesDistinct()
    ensures UnitError("inputUnit") != UnitError("minUnit") && UnitError("inputUnit") != UnitError("maxUnit")
    ensures UnitError("inputUnit") != RangeError && UnitError("minUnit") != UnitError("maxUnit")
    ensures UnitError("minUnit") != RangeError && UnitError("maxUnit") != RangeError
  {
    AllowedUnitsListShape();
    assert AllowedUnitsList()[0] == AllowedUnitsList()[..8][0];
    assert UnitError("minUnit")[9] == 'i';
    assert UnitError("maxUnit")[9] == 'a';
    assert UnitError("maxUnit")[24] == '\'';
    assert RangeError[24] == 'e';
    assert UnitError("inputUnit")[8] == 'i' && RangeError[8] == 'm' && UnitError("minUnit")[8] == 'm';
  }

  /** The four unit messages are distinct, so each has its own rank in `UnitsMessages()`. */
  lemma UnitsMessagesRanks()
    ensures IndexOf(UnitsMessages(), UnitError("inputUnit")) == 0
    ensures IndexOf(UnitsMessages(), UnitError("minUnit")) == 1
    ensures IndexOf(UnitsMessages(), UnitError("maxUnit")) == 2
    ensures IndexOf(UnitsMessages(), RangeError) == 3
  {
    UnitsMessagesDistinct();
    assert UnitsMessages()[1..] == [UnitError("minUnit"), UnitError("maxUnit"), RangeError];
    assert UnitsMessages()[1..][1..] == [UnitError("maxUnit"), RangeError];
    assert UnitsMessages()[1..][1..][1..] == [RangeError];
  }

  lemma UnitsMessagesRanked()
    ensures |UnitsMessages()| == 4 && forall k :: 0 <= k < 4 ==> IndexOf(UnitsMessages(), UnitsMessages()[k]) == k
  {
    UnitsMessagesRanks();
  }

  /** The errors come in the order of `canonical`, each at most once. */
  predicate InOrder(errors: seq<string>, canonical: seq<string>) {
    forall i, j :: 0 <= i < j < |errors| ==> IndexOf(canonical, errors[i]) < IndexOf(canonical, errors[j])
  }

  /** `validateTime`: a single error exactly when the time is not a number. */
  function ValidateTime(time: Value): (errors: seq<string>)
    ensures errors == [] <==> time.Num?
    ensures errors != [] ==> errors == [TimeError]
  {
    [] + (if time.Num? then [] else [TimeError])
  }

  predicate PrecisionIsValid(options: Record<Value>) {
    Field(options, "precision").Num? && Field(options, "precision").x >= 0.0
  }

  /** `getPrecisionErrors`: "must be a number" for a non-number, "must be non-negative" for a negative number. */
  function PrecisionErrors(options: Record<Value>): (errors: seq<string>)
    ensures |errors| <= 1
    ensures errors == [] <==> PrecisionIsValid(options)
    ensures !Field(options, "precision").Num? ==> errors == [PrecisionNotANumber]
    ensures Field(options, "precision").Num? && Field(options, "precision").x < 0.0 ==> errors == [PrecisionNegative]
  {
    var isNumber := Field(options, "precision").Num?;
    (if isNumber then [] else [PrecisionNotANumber]) +
    (if isNumber && Field(options, "precision").x < 0.0 then [PrecisionNegative] else [])
  }

  /** Both range ends are units and the maximum is not finer than the minimum. */
  predicate UnitsAreValid(options: Record<Value>) {
    ValidUnit(Field(options, "inputUnit")) && ValidUnit(Field(options, "minUnit")) &&
    ValidUnit(Field(options, "maxUnit")) &&
    UnitIndexOf(Field(options, "maxUnit")) <= UnitIndexOf(Field(options, "minUnit"))
  }

  /**
   * `getUnitsErrors`: one message per invalid unit field, and the inverted-range message when
   * both range ends are valid but minUnit is coarser than maxUnit; in the order inputUnit,
   * minUnit, maxUnit, range.
   */
  function UnitsErrors(options: Record<Value>): (errors: seq<string>)
    ensures UnitError("inputUnit") in errors <==> !ValidUnit(Field(options, "inputUnit"))
    ensures UnitError("minUnit") in errors <==> !ValidUnit(Field(options, "minUnit"))
    ensures UnitError("maxUnit") in errors <==> !ValidUnit(Field(options, "maxUnit"))
    ensures RangeError in errors <==>
              ValidUnit(Field(options, "minUnit")) && ValidUnit(Field(options, "maxUnit")) &&
              UnitIndexOf(Field(options, "minUnit")) < UnitIndexOf(Field(options, "maxUnit"))
    ensures errors == [] <==> UnitsAreValid(options)
  {
    var inputUnitIsValid := ValidUnit(Field(options, "inputUnit"));
    var minUnitIsValid := ValidUnit(Field(options, "minUnit"));
    var maxUnitIsValid := ValidUnit(Field(options, "maxUnit"));
    var minUnitIndex := UnitIndexOf(Field(options, "minUnit"));
    var maxUnitIndex := UnitIndexOf(Field(options, "maxUnit"));
    var rangeIsInverted := minUnitIsValid && maxUnitIsValid && minUnitIndex < maxUnitIndex;
    UnitsMessagesDistinct();
    FourOptionalMessages(UnitError("inputUnit"), UnitError("minUnit"), UnitError("maxUnit"), RangeError,
                         !inputUnitIsValid, !minUnitIsValid, !maxUnitIsValid, rangeIsInverted);
    (if inputUnitIsValid then [] else [UnitError("inputUnit")]) +
    (if minUnitIsValid then [] else [UnitError("minUnit")]) +
    (if maxUnitIsValid then [] else [UnitError("maxUnit")]) +
    (if rangeIsInverted then [RangeError] else [])
  }

  /** Four distinct messages, each emitted on its own condition: each is present exactly when its condition holds. */
  lemma FourOptionalMessages(m0: string, m1: string, m2: string, m3: string, a: bool, b: bool, c: bool, d: bool)
    requires m0 != m1 && m0 != m2 && m0 != m3 && m1 != m2 && m1 != m3 && m2 != m3
    ensures var e := (if !a then [] else [m0]) + (if !b then [] else [m1]) + (if !c then [] else [m2]) +
                     (if d then [m3] else []);
            (m0 in e <==> a) && (m1 in e <==> b) && (m2 in e <==> c) && (m3 in e <==> d) &&
            (e == [] <==> !a && !b && !c && !d)
  {
  }

  /** The unit errors come in the order inputUnit, minUnit, maxUnit, range, each at most once. */
  lemma UnitsErrorsInOrder(options: Record<Value>)
    ensures forall e :: e in UnitsErrors(options) ==> e in UnitsMessages()
    ensures InOrder(UnitsErrors(options), UnitsMessages())
  {
    var m := UnitsMessages();
    UnitsMessagesRanked();
    var a := if ValidUnit(Field(options, "inputUnit")) then [] else [m[0]];
    var b := if ValidUnit(Field(options, "minUnit")) then [] else [m[1]];
    var c := if ValidUnit(Field(options, "maxUnit")) then [] else [m[2]];
    var d := if ValidUnit(Field(options, "minUnit")) && ValidUnit(Field(options, "maxUnit")) &&
                UnitIndexOf(Field(options, "minUnit")) < UnitIndexOf(Field(options, "maxUnit"))
             then [m[3]] else [];
    assert UnitsErrors(options) == a + b + c + d;
    RanksIncrease(m, a, b, c, d);
  }

  /** Four optional parts, each holding at most the canonical message of its rank, are in order. */
  lemma RanksIncrease(m: seq<string>, a: seq<string>, b: seq<string>, c: seq<string>, d: seq<string>)
    requires |m| == 4
    requires forall k :: 0 <= k < 4 ==> IndexOf(m, m[k]) == k
    requires a == [] || a == [m[0]]
    requires b == [] || b == [m[1]]
    requires c == [] || c == [m[2]]
    requires d == [] || d == [m[3]]
    ensures forall e :: e in a + b + c + d ==> e in m
    ensures InOrder(a + b + c + d, m)
  {
    var s := a + b + c + d;
    forall i | 0 <= i < |s| ensures s[i] in m && IndexOf(m, s[i]) == PartOf(i, |a|, |b|, |c|) {
      var k := PartOf(i, |a|, |b|, |c|);
      if i < |a| { assert s[i] == a[i]; }
      else if i < |a| + |b| { assert s[i] == b[i - |a|]; }
      else if i < |a| + |b| + |c| { assert s[i] == c[i - |a| - |b|]; }
      else { assert s[i] == d[i - |a| - |b| - |c|]; }
      assert s[i] == m[k];
    }
    forall i, j | 0 <= i < j < |s| ensures IndexOf(m, s[i]) < IndexOf(m, s[j]) {
      PartOfIncreases(i, j, |a|, |b|, |c|, |d|);
    }
  }

  /** The part of `a + b + c + d` that index i falls in, given the lengths of a, b and c. */
  function PartOf(i: int, la: int, lb: int, lc: int): int {
    if i < la then 0 else if i < la + lb then 1 else if i < la + lb + lc then 2 else 3
  }

  lemma PartOfIncreases(i: int, j: int, la: int, lb: int, lc: int, ld: int)
    requires 0 <= la <= 1 && 0 <= lb <= 1 && 0 <= lc <= 1 && 0 <= ld <= 1
    requires 0 <= i < j < la + lb + lc + ld
    ensures PartOf(i, la, lb, lc) < PartOf(j, la, lb, lc)
  {
  }

  function UnknownOptionError(key: string): string {
    "Unknown option '" + key + "'"
  }

  /** `getUnknownOptionsErrors`: one message per key that is not a default option key, in key order. */
  function UnknownOptionsErrors(options: Record<Value>): (errors: seq<string>)
    ensures |errors| == |NewKeys(Keys(options), Keys(DefaultOptions))|
    ensures forall i :: 0 <= i < |errors| ==>
              errors[i] == UnknownOptionError(NewKeys(Keys(options), Keys(DefaultOptions))[i])
  {
    UnknownKeysErrors(options, Keys(DefaultOptions))
  }

  /** The filter and the map of `getUnknownOptionsErrors`, for any list of allowed keys. */
  function UnknownKeysErrors(options: Record<Value>, allowed: seq<string>): (errors: seq<string>)
    ensures |errors| == |NewKeys(Keys(options), allowed)|
    ensures forall i :: 0 <= i < |errors| ==> errors[i] == UnknownOptionError(NewKeys(Keys(options), allowed)[i])
  {
    if |options| == 0 then []
    else
      KeysCons(options[0], options[1..]);
      assert [options[0]] + options[1..] == options;
      (if options[0].0 in allowed then [] else [UnknownOptionError(options[0].0)]) +
      UnknownKeysErrors(options[1..], allowed)
  }

  /** Every key is a known option. */
  predicate KeysAreKnown(options: Record<Value>) {
    forall k :: k in Keys(options) ==> k in Keys(DefaultOptions)
  }

  predicate WellFormedOptions(options: Record<Value>) {
    PrecisionIsValid(options) && UnitsAreValid(options) && KeysAreKnown(options)
  }

  /** `validateOptions`: no error exactly for well-formed options; precision errors come first. */
  function ValidateOptions(options: Record<Value>): (errors: seq<string>)
    ensures errors == [] <==> WellFormedOptions(options)
    ensures !PrecisionIsValid(options) ==> errors[0] == PrecisionErrors(options)[0]
    ensures PrecisionIsValid(options) && !UnitsAreValid(options) ==> errors[0] == UnitsErrors(options)[0]
  {
    var unknown := UnknownOptionsErrors(options);
    assert unknown == [] <==> KeysAreKnown(options) by {
      if !KeysAreKnown(options) {
        var k :| k in Keys(options) && k !in Keys(DefaultOptions);
        assert k in NewKeys(Keys(options), Keys(DefaultOptions));
      }
      if unknown != [] {
        assert NewKeys(Keys(options), Keys(DefaultOptions))[0] in NewKeys(Keys(options), Keys(DefaultOptions));
      }
    }
    PrecisionErrors(options) + UnitsErrors(options) + unknown
  }

  /** `validateArguments`: the time's errors, then the options' errors. */
  function ValidateArguments(time: Value, options: Record<Value>): (errors: seq<string>)
    ensures errors == [] <==> time.Num? && WellFormedOptions(options)
    ensures !time.Num? ==> errors[0] == TimeError
    ensures time.Num? ==> errors == ValidateOptions(options)
  {
    ValidateTime(time) + ValidateOptions(options)
  }

  lemma DefaultOptionsAreValid()
    ensures ValidateOptions(DefaultOptions) == []
  {
    DefaultOptionValues();
    assert Keys(DefaultOptions) == ["precision", "inputUnit", "minUnit", "maxUnit"];
    NameIndex(Millisecond);
    NameIndex(Week);
  }

  /**
   * `DefaultOptions` as src/constants.ts lists it: no `inputUnit` key, although `validateOptions`
   * requires a valid inputUnit and rejects every key the defaults lack.
   */
  const DefaultOptionsWithoutInputUnit: Record<Value> :=
    [("precision", Num(3.0)), ("minUnit", Str("millisecond")), ("maxUnit", Str("week"))]

  /** `validateOptions` when the known option keys are those of the defaults above. */
  function ValidateOptionsWithoutInputUnit(options: Record<Value>): seq<string> {
    PrecisionErrors(options) + UnitsErrors(options) + UnknownKeysErrors(options, Keys(DefaultOptionsWithoutInputUnit))
  }

  /**
   * With those defaults no options object passes: an inputUnit key is an unknown option, and
   * without one the inputUnit is not a unit.
   */
  lemma WithoutInputUnitAlwaysFails(options: Record<Value>)
    ensures ValidateOptionsWithoutInputUnit(options) != []
  {
    var allowed := Keys(DefaultOptionsWithoutInputUnit);
    assert allowed == ["precision", "minUnit", "maxUnit"];
    if "inputUnit" in Keys(options) {
      assert "inputUnit" in NewKeys(Keys(options), allowed);
    } else {
      assert UnitError("inputUnit") in UnitsErrors(options);
    }
  }

  lemma ValidateTimeExamples()
    ensures ValidateTime(Str("a")) == [TimeError]
    ensures ValidateTime(NaN) == [TimeError]
    ensures ValidateTime(Undefined) == [TimeError]
    ensures ValidateTime(Num(0.0)) == []
    ensures ValidateTime(Num(-12.5)) == []
  {
  }

  lemma PrecisionErrorsExamples()
    ensures PrecisionErrors([("precision", Num(-1.0))]) == [PrecisionNegative]
    ensures PrecisionErrors([("precision", NaN)]) == [PrecisionNotANumber]
    ensures PrecisionErrors([("precision", Num(0.0))]) == []
  {
  }

  /** minUnit week with maxUnit day is inverted. */
  lemma UnitsErrorsRangeExample()
    ensures UnitsErrors([("inputUnit", Str("second")), ("minUnit", Str("week")), ("maxUnit", Str("day"))]) == [RangeError]
  {
    var o := [("inputUnit", Str("second")), ("minUnit", Str("week")), ("maxUnit", Str("day"))];
    assert Field(o, "inputUnit") == Str(Name(Second));
    assert Field(o, "minUnit") == Str(Name(Week));
    assert Field(o, "maxUnit") == Str(Name(Day));
    NameIndex(Week);
    NameIndex(Day);
  }

  /** Equal range ends are accepted. */
  lemma UnitsErrorsEqualExample()
    ensures UnitsErrors([("inputUnit", Str("second")), ("minUnit", Str("day")), ("maxUnit", Str("day"))]) == []
  {
    var o := [("inputUnit", Str("second")), ("minUnit", Str("day")), ("maxUnit", Str("day"))];
    assert Field(o, "inputUnit") == Str(Name(Second));
    assert Field(o, "minUnit") == Str(Name(Day));
    assert Field(o, "maxUnit") == Str(Name(Day));
  }

  /** An unknown unit name gives its field's message and no range message. */
  lemma UnitsErrorsFieldExample()
    ensures UnitsErrors([("inputUnit", Str("year")), ("minUnit", Str("day")), ("maxUnit", Str("week"))]) ==
            [UnitError("inputUnit")]
  {
    var o := [("inputUnit", Str("year")), ("minUnit", Str("day")), ("maxUnit", Str("week"))];
    assert Field(o, "inputUnit") == Str("year");
    assert Field(o, "minUnit") == Str(Name(Day));
    assert Field(o, "maxUnit") == Str(Name(Week));
    assert "year" !in UnitNames;
    NameIndex(Week);
    NameIndex(Day);
  }

  lemma UnknownOptionsErrorsExample()
    ensures UnknownOptionsErrors([("precision", Num(3.0)), ("not", Num(1.0)), ("you", Str("x"))]) ==
            [UnknownOptionError("not"), UnknownOptionError("you")]
  {
    var o := [("precision", Num(3.0)), ("not", Num(1.0)), ("you", Str("x"))];
    DefaultOptionsDistinct();
    UnknownKeysExample(o, Keys(DefaultOptions));
  }

  lemma UnknownKeysExample(o: Record<Value>, allowed: seq<string>)
    requires o == [("precision", Num(3.0)), ("not", Num(1.0)), ("you", Str("x"))]
    requires allowed == ["precision", "inputUnit", "minUnit", "maxUnit"]
    ensures UnknownKeysErrors(o, allowed) == [UnknownOptionError("not"), UnknownOptionError("you")]
  {
    assert o[0].0 in allowed;
    assert o[1..][0].0 !in allowed && o[1..][1..][0].0 !in allowed;
    assert UnknownKeysErrors(o[1..][1..][1..], allowed) == [];
    assert UnknownKeysErrors(o[1..][1..], allowed) == [UnknownOptionError("you")];
    assert UnknownKeysErrors(o[1..], allowed) == [UnknownOptionError("not"), UnknownOptionError("you")];
  }
}
