# time-formatter, modelled in Dafny

A model of the time formatter: it takes a duration and renders it as an English (or caller-worded)
sentence such as "1 day, 2 hours, 0 minutes and 4 seconds". The pipeline works as follows:

- `getMergedDefaults` lays the caller's options and dictionary over the defaults.
- `validateArguments` collects every error message.
- `convertTime` brings the input to seconds.
- `getTimeComponents` splits the seconds over the window of units between `maxUnit` and `minUnit`. Every unit
  but the finest gets a floor. The finest gets the rest, rounded to `precision` decimals.
- `getBounds` and `getFilteredTimeComponents` cut off the leading and trailing zero components.
- `getFormattedTimeComponents` pluralises each component.
- `getHumanReadableList` joins the phrases with commas and a final "and".

Three entry points are modelled:

- src/formatTime.ts, the validated entry point: module `Engine`, over `Constants`, `Utils` and `Validator`.
- src/index.ts, the older entry point without validation and without unit conversion: module `LegacyTs`.
- src/index.js with src/utils.js, the first JavaScript version: a fixed five-unit split, its own phrasing of
  seconds and milliseconds, and "0 seconds" for nothing. Modules `LegacyIndex` and `LegacyUtils`.

The modules are:

| module | file | what it holds |
|---|---|---|
| `Wrappers` | wrappers.dfy | `Option`, `Result` |
| `Records` | records.dfy | JavaScript objects as ordered key/value lists: reading a property, writing one in place |
| `Numerals` | numerals.dfy | The text of a number in a template literal, and `toFixed(3)` |
| `Constants` | constants.dfy | The units, their sizes, the unit table, the default options and dictionary |
| `Utils` | utils.dfy | The helpers of src/utils.ts |
| `Validator` | validator.dfy | src/validator.ts |
| `Engine` | engine.dfy | src/formatTime.ts |
| `LegacyTs` | legacy_ts.dfy | src/index.ts |
| `LegacyUtils` | legacy_utils.dfy | src/utils.js |
| `LegacyIndex` | legacy_index.dfy | src/index.js |

Three choices run through the whole model:

- **Numbers are exact `real`s.** `Math.floor` is `.Floor`, `Math.round(y)` is the integer n with n - 0.5 <= y < n + 0.5,
  and `10 ** d` is an exact power of ten.
- **Objects are ordered key lists.** A record is given with its keys in the order JavaScript's `Object.keys`
  lists them. `getMergedDefaults` is a spread: existing keys keep their place and new keys are appended.
  `Object.entries` and `Object.values` walk the model's lists in order. This is JavaScript's order for keys that
  are not array indices; an array-index key such as "0" is not moved to the front (see "## Left out").
- **Option values are numbers or not.** They are `Num(x)`, `NaN`, `Str(s)` or `Undefined`, and the model's
  `isNaN(options.precision)` holds exactly for the values that are not `Num`. JavaScript's `isNaN` first coerces
  its argument, so a numeric string such as "3" or "" passes it; the model does not (see "## Left out").

**The unit table.** src/constants.ts lists six units and a `DefaultOptions` without `inputUnit`. The code that
imports it asks for more:

- formatTime.ts, index.ts and utils.ts import a `DefaultUnitTimeMap` that the file does not export.
- validator.ts checks `options.inputUnit`.
- The tests use `microsecond`.

The model therefore follows the constants those importers need:

- seven units, from week to microsecond, with the sizes of `TimeConstants`;
- `DefaultUnitTimeMap` as that table in enum order;
- the default options precision 3, inputUnit "second", minUnit "millisecond" and maxUnit "week";
- a default dictionary with one singular per unit and "and".

What the constants as written would do is the subject of the finding below.

## Model

| member | source | states |
|---|---|---|
| Constants.Index | src/constants.ts:3-10 | Each unit has a position in the enum's order; the enum holds that unit there, and its string value is at the same place in `Object.values(Units)` |
| Constants.Size | src/constants.ts:12-20 | Every unit lasts a positive number of seconds |
| Constants.CoarserIsLarger | src/constants.ts:12-20 | A unit comes earlier in the enum exactly when it is strictly longer, and two units share a position only when they are the same unit |
| Constants.AdjacentRatios | src/constants.ts:12-20 | A week is 7 days, a day 24 hours, an hour 60 minutes, a minute 60 seconds, a second 1000 milliseconds, a millisecond 1000 microseconds |
| Constants.UnitTimeMapIsTable | src/constants.ts:22-29 | The unit table lists every unit exactly once, in the enum's order, with its size |
| Constants.IndexOf | src/formatTime.ts:35-36 | `indexOf` gives -1 exactly when the value is absent, otherwise the first position that holds it |
| Constants.UnitIndexOf | src/formatTime.ts:35-36 | The index of an option value is -1 exactly when it is not a unit name, otherwise the position of the unit it names |
| Constants.UnitNamed | src/validator.ts:47-51 | A valid unit name stands for a unit with that name, found at that unit's position |
| Constants.NameIndex | src/constants.ts:3-10 | Looking up a unit's name gives the unit's own position |
| Constants.NamedUnit | src/constants.ts:3-10 | Naming a unit and reading the name back gives the same unit |
| Constants.NameInjective | src/constants.ts:3-10 | Two units with the same string value are the same unit |
| Constants.DefaultOptionValues | src/constants.ts:31-35 | The default options have the distinct keys precision, inputUnit, minUnit and maxUnit, in that order, with the values 3, "second", "millisecond" and "week" |
| Constants.DefaultI18nDistinct | src/constants.ts:37-57 | The default dictionary's keys are the unit names in enum order followed by "and", all distinct |
| Constants.DefaultI18nValues | src/constants.ts:37-57 | By default each unit's words are its own name as singular with no plural, and "and" maps to the word "and" |
| Records.SetGet | src/utils.ts:9-12 | Writing a property makes it read back the new value and leaves every other property as it was |
| Records.SetKeys | src/utils.ts:9-12 | Writing an existing property keeps the key order; writing a new one appends its key |
| Records.SetKeepsDistinct | src/utils.ts:9-12 | Writing a property never duplicates a key |
| Utils.MergedDefaultsGet | src/utils.ts:9-12 | A merged property reads the override when the overrides have the key, the default otherwise |
| Utils.MergedDefaultsKeys | src/utils.ts:9-12 | The merged keys are the default keys in their order, then the override keys that the defaults lack, in the overrides' order |
| Utils.MergedDefaultsDistinct | src/utils.ts:9-12 | Merging over defaults with distinct keys keeps the keys distinct |
| Utils.HumanReadableListSteps | src/utils.ts:21-22 | No items give "", one item gives itself, two give "a glue b" (glue "and" by default), and three or more give the first item, ", ", then the list of the rest |
| Utils.HumanReadableListExamples | src/utils.ts:14-22 | Three items are joined as "apples, pears and bananas" |
| Utils.HumanReadableListShortExamples | src/utils.ts:21-22 | Two items, one item, no items, and a custom glue "or" |
| Utils.PluraliseWord | src/utils.ts:32-40 | Without the number, the word is the singular exactly for 1 and otherwise the plural, which defaults to singular + "s"; with the number, the text is the number, a space, and that word |
| Utils.PluraliseExamples | src/utils.ts:32-40 | "0 locations", "1 location", "2 locations" |
| Utils.PluraliseWordExamples | src/utils.ts:32-40 | A given plural ("oxen") is used for numbers other than 1, and a fraction takes the plural |
| Utils.PluraliseFractionExample | src/utils.ts:32-40 | 0.8 gives "0.8 locations" |
| Utils.Pow10 | src/utils.ts:49 | `10 ** decimals` is positive for every whole exponent |
| Utils.MathRound | src/utils.ts:50 | `Math.round(y)` is the integer within half a unit of y, with halves rounded up |
| Utils.RoundToDecimalsScaled | src/utils.ts:48-51 | The rounded number times `10 ** decimals` is the whole number `Math.round` gives for the scaled input |
| Utils.RoundToDecimalsBounds | src/utils.ts:48-51 | The rounded number lies within half a unit of the last kept decimal of the input |
| Utils.RoundToDecimalsIdempotent | src/utils.ts:48-51 | Rounding an already rounded number to the same decimals changes nothing |
| Utils.RoundToDecimalsExamples | src/utils.ts:48-51 | 4.2 to 0 decimals is 4, 6.2135 to 2 is 6.21, 6.39 to 1 is 6.4, 1/3 to 2 is 0.33 |
| Utils.ConvertTimeIdentity | src/utils.ts:60-61 | Converting to the same unit changes nothing, and converting to seconds multiplies by the unit's size |
| Utils.ConvertTimeCompose | src/utils.ts:60-61 | Converting a to b and then b to c equals converting a to c |
| Utils.ConvertTimeInverse | src/utils.ts:60-61 | Converting there and back gives the original time |
| Utils.ConvertTimeExamples | src/utils.ts:60-61 | One week is 7 days, one hour is 3600 seconds, one second is 1000 milliseconds |
| Numerals.NatText | src/utils.ts:38 | The text of a natural number is a non-empty run of digits that starts with 0 only for 0 |
| Numerals.NatTextRoundTrip | src/utils.ts:38 | Reading a natural number's text back as decimal digits gives the number |
| Numerals.IntText | src/utils.ts:38 | A negative integer is written as "-" and the digits of its magnitude |
| Numerals.NumberTextOfInteger | src/utils.ts:38 | A whole number in a template literal is written like the integer, with no fraction |
| Numerals.Thousandths | src/index.js:64 | The thousandths `toFixed(3)` shows lie within half a thousandth of the number |
| Numerals.Fixed3Denotes | src/index.js:64 | `toFixed(3)` writes the whole part, ".", and three digits, and these digits read back as the rounded thousandths |
| Validator.Quoted | src/validator.ts:43 | Each allowed unit name is put between single quotes, in order |
| Engine.TableWindow | src/formatTime.ts:34-45 | The entries of the unit table kept for index bounds lo and hi each carry their own size. Nothing is kept when hi < 0 or lo > hi; the table's contiguous part up to hi is kept when lo < 0, and the contiguous part from lo to hi otherwise |
| Validator.ValidateTime | src/validator.ts:16-18 | There is an error exactly when the time is not a number, and then it is the single "time must be a number" |
| Validator.PrecisionErrors | src/validator.ts:32-38 | At most one message; none exactly for a non-negative number; "must be a number" for a non-number; "must be non-negative" for a negative number |
| Validator.UnitsErrors | src/validator.ts:40-61 | Each unit field's message appears exactly when that field is not a unit name. The range message appears exactly when both ends are units and minUnit is coarser than maxUnit. No message means all three fields are valid and ordered |
| Validator.UnitsMessagesDistinct | src/validator.ts:53-60 | The four unit messages differ from one another |
| Validator.UnitsErrorsInOrder | src/validator.ts:53-60 | The unit messages are among the four, in the order inputUnit, minUnit, maxUnit, range |
| Validator.UnknownOptionsErrors | src/validator.ts:63-68 | One "Unknown option" message per key that the default options lack, in key order |
| Validator.UnknownKeysErrors | src/validator.ts:63-68 | One message per key outside the allowed list, in key order |
| Validator.ValidateOptions | src/validator.ts:26-30 | No error exactly for well-formed options; a precision error comes first, then unit errors |
| Validator.ValidateArguments | src/validator.ts:5-8 | No error exactly for a numeric time with well-formed options; the time error comes first; for a numeric time, the errors are those of the options |
| Validator.DefaultOptionsAreValid | src/constants.ts:31-35 | The default options pass validation |
| Validator.ValidateTimeExamples | src/validator.ts:16-18 | Strings, NaN and undefined are refused; 0 and -12.5 pass |
| Validator.PrecisionErrorsExamples | src/validator.ts:32-38 | -1 is negative, NaN is not a number, 0 passes |
| Validator.UnitsErrorsRangeExample | src/validator.ts:57-59 | minUnit week with maxUnit day is out of order |
| Validator.UnitsErrorsEqualExample | src/validator.ts:57-59 | minUnit equal to maxUnit is accepted |
| Validator.UnitsErrorsFieldExample | src/validator.ts:53-60 | An unknown inputUnit gives its message, and no range message |
| Validator.UnknownOptionsErrorsExample | src/validator.ts:63-68 | Keys "not" and "you" are reported, in order, and "precision" is not |
| Validator.UnknownKeysExample | src/validator.ts:63-68 | The same two keys are reported against an explicit allowed list |
| Validator.WithoutInputUnitAlwaysFails | src/constants.ts:31-35 | With the defaults as listed in constants.ts, every options object is refused |
| Engine.KeepIndexRange | src/formatTime.ts:38-44 | Keeping the entries whose index lies between two bounds gives the slice between the bounds, clamped to the list |
| Engine.GetUnitTimeMap | src/formatTime.ts:34-45 | Every entry of the window is a unit with its own size, and there are at most as many as units; for valid units the window is the contiguous part of the table from maxUnit to minUnit inclusive |
| Validator.QuotedNames | src/validator.ts:41-43 | The quoted names are 'week' to 'microsecond', in the enum's order |
| Validator.AllowedUnitsListShape | src/validator.ts:41-45 | The allowed-units list opens with "'week', " and ends with " or 'microsecond'" after the comma-joined other names |
| Validator.AllowedUnitsText | src/validator.ts:41-45 | The allowed-units list is exactly "'week', 'day', 'hour', 'minute', 'second', 'millisecond' or 'microsecond'" |
| Engine.UnitWindow | src/formatTime.ts:34-45 | For valid units the window starts at maxUnit, ends at minUnit, and holds every unit between them with its size |
| Engine.Split | src/formatTime.ts:53-65 | One component per unit of the window, with the window's units in order |
| Engine.SplitWhole | src/formatTime.ts:58-60 | Every component but the last is a whole number |
| Engine.RemainderBound | src/formatTime.ts:58-60 | What reaches the last unit is non-negative and shorter than the unit before it |
| Engine.SplitLast | src/formatTime.ts:61 | The last component is what remains, expressed in the last unit and rounded to the precision |
| Engine.SplitTotal | src/formatTime.ts:53-65 | The components weigh the time to within half a unit of the last decimal of the finest unit |
| Engine.SplitZero | src/formatTime.ts:53-65 | A zero time gives only zero components |
| Engine.StepMatches | src/formatTime.ts:59-60 | `Math.floor(convertTime(time, SECOND, key))` is the number of whole units, and the update leaves the rest |
| Engine.SplitLoop | src/formatTime.ts:57-62 | The `forEach` over the window produces exactly the split |
| Engine.GetTimeComponents | src/formatTime.ts:53-65 | The components are the split of the time over the window, with the precision rounded to an integer |
| Engine.GetBounds | src/formatTime.ts:67-80 | The bounds are the first and the last non-zero index, or `{Number.MAX_VALUE, 0}` when every component is zero |
| Engine.BoundsStep | src/formatTime.ts:69-75 | One step of the reduce keeps the bounds right for the longer prefix |
| Engine.GetFilteredTimeComponents | src/formatTime.ts:106-113 | Ordered bounds keep the slice between them, and inverted bounds keep nothing |
| Engine.TrimIsDropZeros | src/formatTime.ts:82-113 | Filtering by the bounds removes exactly the leading and the trailing zeros and keeps the inner ones. Nothing is left exactly when all are zero, and what is left starts and ends with a non-zero component |
| Engine.TrimKeepsTotal | src/formatTime.ts:82-113 | Filtering by the bounds does not change the duration the components weigh |
| Engine.MergedWords | src/formatTime.ts:12 | The merged dictionary has words for every unit: the caller's when given, the default otherwise |
| Engine.GetFormattedTimeComponents | src/formatTime.ts:121-125 | One pluralised phrase per component, in order, with that unit's words |
| Engine.TimeComponentsOf | src/formatTime.ts:17-19 | The components of the converted time follow the window's units |
| Engine.InSecondsScales | src/formatTime.ts:17 | The converted time is the input times the size of the input unit |
| Engine.FormattedTime | src/formatTime.ts:6-26 | The call fails exactly when the time is not a number or the merged options are ill-formed, and the message is the errors joined by newlines |
| Engine.FormatTime | src/formatTime.ts:6-26 | The statements of `formatTime` compute the value `FormattedTime` defines |
| Engine.FormattedNotANumber | src/formatTime.ts:14-15 | A time that is not a number is refused with a message that starts with the time error |
| Engine.ZeroPhraseDefault | src/formatTime.ts:25 | Without the caller's own words for seconds, the zero phrase is "0 seconds" |
| Engine.ZeroPhraseOwn | src/formatTime.ts:25 | With the caller's words for seconds, the zero phrase pluralises 0 with them |
| Engine.FormattedZero | src/formatTime.ts:6-26 | A zero time with valid options gives the zero phrase |
| Engine.FormattedAllZero | src/formatTime.ts:20-25 | Valid options whose components are all zero give the zero phrase |
| Engine.FormattedSentence | src/formatTime.ts:20-25 | Otherwise the result joins the phrases of the components with leading and trailing zeros removed, which start and end non-zero, using the caller's glue |
| Engine.PhrasedZero | src/formatTime.ts:23-25 | Components that are all zero are rendered as the zero phrase |
| Engine.PhrasedKept | src/formatTime.ts:23-25 | Components that are not all zero are rendered as the joined phrases of the trimmed components |
| Engine.FormattedMagnitude | src/formatTime.ts:6-26 | For valid options, the kept components weigh the input, converted to seconds, to within half a unit of the last decimal of minUnit |
| Engine.KeptMagnitude | src/formatTime.ts:53-113 | The split of a time over a window, with its outer zeros removed, weighs the time to within half a unit of the last decimal of the window's finest unit |
| Engine.FormattedZeroSeconds | src/formatTime.ts:25 | A zero time gives "0 seconds" unless the caller words seconds |
| Engine.DefaultsFormat | src/formatTime.ts:6-26 | With the default options, every numeric time formats without error |
| LegacyTs.Precision | src/index.ts:44 | The precision passed to `roundToDecimals` is the option's value as it stands |
| LegacyTs.SplitLoop | src/index.ts:40-45 | The `forEach` that divides by the unit's size directly produces exactly the split |
| LegacyTs.GetTimeComponents | src/index.ts:36-48 | The components are the split over the window with the precision unrounded |
| LegacyTs.Components | src/index.ts:11-14 | No more components than units |
| LegacyTs.FormatTime | src/index.ts:6-21 | The statements of the default export compute the phrases of the filtered components, or the zero phrase |
| LegacyTs.AgreesWithFormatTime | src/index.ts:6-21 | For input in seconds and a whole precision, where formatTime.ts accepts the arguments, index.ts returns the same text |
| LegacyTs.EmptyWindow | src/index.ts:23-34 | With an unknown minUnit, or maxUnit finer than minUnit, nothing is kept and the result is the zero phrase whatever the time |
| LegacyTs.UnknownMaxUnit | src/index.ts:23-34 | An unknown maxUnit counts as index -1, so the window starts at the week |
| LegacyTs.Magnitude | src/index.ts:36-48 | The kept components weigh the time to within half a unit of the last decimal of the finest unit of the window |
| LegacyUtils.HumanReadableListAgrees | src/utils.js:1-4 | The joiner of utils.js gives the same text as that of utils.ts for every list and glue |
| LegacyUtils.HumanReadableListDefaultGlue | src/utils.js:1-4 | Both joiners glue with "and" by default |
| LegacyUtils.PluraliseAgrees | src/utils.js:6-7 | On a number, utils.js's `pluralise` is utils.ts's with the number included: the number, a space, then the singular for exactly 1 or else the plural |
| LegacyUtils.PluraliseNonEmpty | src/utils.js:6-7 | A phrase is never empty |
| LegacyUtils.PluraliseText | src/utils.js:6-7 | A text such as the result of `toFixed` is never `=== 1`, so it always takes the plural |
| LegacyIndex.Decomposition | src/index.js:16-34 | Five components: week, day, hour, minute and second |
| LegacyIndex.DecompositionSteps | src/index.js:16-34 | Each of week, day, hour and minute is the floor of what the coarser units leave over its size, and second is what the minutes leave |
| LegacyIndex.GetTimeComponents | src/index.js:16-34 | The statements of `getTimeComponents` compute the decomposition |
| LegacyIndex.DecompositionTotal | src/index.js:16-34 | The five components weigh exactly the time |
| LegacyIndex.DecompositionBounds | src/index.js:16-34 | Weeks, days, hours and minutes are whole numbers, and the seconds lie in [0, 60) |
| LegacyIndex.DecompositionZero | src/index.js:16-34 | All components are zero exactly when the time is zero |
| LegacyIndex.SubMinute | src/index.js:16-34 | A time in [0, 60) is all seconds |
| LegacyIndex.NonZeroIndexes | src/index.js:37-40 | The collected indexes are exactly those of the non-zero components |
| LegacyIndex.MathMin | src/index.js:43 | `Math.min(...)` is Infinity for no arguments, otherwise the least of them |
| LegacyIndex.MathMax | src/index.js:44 | `Math.max(...)` is -Infinity for no arguments, otherwise the greatest of them |
| LegacyIndex.FilterIsIndexRange | src/index.js:48-55 | Keeping the entries within the bounds is keeping an index range |
| LegacyIndex.FilterAgrees | src/index.js:36-55 | The bounds and filter of index.js keep the same components as those of formatTime.ts |
| LegacyIndex.Kept | src/index.js:36-55 | The filter removes exactly the leading and trailing zeros, and keeps nothing exactly when all are zero |
| LegacyIndex.PushPhrases | src/index.js:58-67 | One callback call appends the entry's phrases: "0 seconds" before a sub-second amount when there are several entries, then the entry's own phrase |
| LegacyIndex.GetFormattedTimeComponents | src/index.js:57-68 | The reduce produces the phrases of every entry, in order |
| LegacyIndex.PhrasesPrefix | src/index.js:57-68 | The phrases of one more entry extend the phrases of the prefix by that entry's phrases |
| LegacyIndex.PhrasesOnePerEntry | src/index.js:57-68 | Without a sub-second amount among several entries, there is exactly one phrase per entry |
| LegacyIndex.UnitPhrase | src/index.js:65 | A unit other than second reads as the number, a space, and the unit's name, plural unless the number is 1 |
| LegacyIndex.SecondPhrase | src/index.js:64 | One second or more reads as the integer for a whole number, or else `toFixed(3)`, followed by "second" or "seconds" |
| LegacyIndex.MillisecondPhrase | src/index.js:61-63 | Less than a second (and not zero) reads as the rounded number of milliseconds |
| LegacyIndex.FormatTime | src/index.js:6-14 | The statements of the export compute the sentence `FormattedTime` defines |
| LegacyIndex.FormattedZero | src/index.js:11-13 | The filter keeps nothing exactly when the time is zero, and then the result is "0 seconds" |
| LegacyIndex.FormattedSentence | src/index.js:6-14 | A non-zero time gives the phrases of its trimmed components joined with "and" |
| LegacyIndex.FormattedSubMinute | src/index.js:6-14 | A time strictly between 0 and 60 is a single phrase about its seconds |
| LegacyIndex.SecondsExample | src/index.js:64 | 1.23456 seconds reads "1.235 seconds" |

## Left out

- Floating point: numbers are exact reals, so IEEE rounding is not modelled. A time like 0.1 + 0.2 therefore
  behaves like 0.3 here.
- The `Number.EPSILON` that `roundToDecimals` adds before rounding is left out. `Math.round` already rounds an exact
  half up, so the nudge never changes a half. What it changes is a scaled value in [n + 1/2 - EPSILON * 10^d,
  n + 1/2): with the nudge it rounds up to n + 1, and the model rounds it down to n.
- The default `decimals = 3` of `roundToDecimals` is not modelled: every caller passes the decimals.
- NaN and Infinity as a time are left out. `formatTime` refuses NaN in validation, but index.ts and index.js
  validate nothing and take any number. For example, index.js turns NaN into "NaN weeks, NaN days, NaN hours,
  NaN minutes and NaN seconds". In `LegacyTs` and `LegacyIndex` the time is a finite real.
- `Number(time)` coercion of numeric strings is left out: a time given to `formatTime` is a number (`Num`) or not,
  and a string is never coerced.
- Exponent notation in number text (`1e-7`, `1e+21`) is left out: the model writes every number in plain decimal
  form. It also writes at most twenty fractional digits, so a fraction longer than that is cut. This covers a
  fraction that never ends, and also one that ends after more than twenty digits, such as the last component at
  precision 25.
- Dictionary values of the wrong shape (a unit mapped to a string, "and" mapped to an object): the caller's
  dictionary is assumed to have the shape of `Partial<I18n>`.
- `includeNumber` is only ever true in the formatting code. The false case is modelled in `Utils.Pluralise` and
  stated by `Utils.PluraliseWord`.
- src/types.ts (types only), src/constants.js (its sizes are those of `Constants.Size`), the prototype scripts
  time-formatter.js and time-formatter-2.js, the tests, and the build configuration are not part of this model.
- Records.SetKeys: a new key is appended last. JavaScript lists array-index keys ("0", "1", ...) first, in
  ascending numeric order, before the other keys; the model keeps records in the order they are given and does not
  move such keys to the front.
- Utils.MergedDefaultsKeys: the caller's new keys come after the default keys. For an array-index key JavaScript
  puts it before the default keys instead (`{foo: 1, 0: 1}` merges to "0", precision, ..., foo), so "Unknown
  option" messages follow JavaScript's order only when no unknown key is an array index.
- Validator.PrecisionErrors: a string precision always gets "options.precision must be a number". JavaScript's
  `isNaN` coerces its argument, so a numeric string ("3", "", " ") passes the check in src/validator.ts:33-36 and
  is later rounded by `Math.round` as a number; that coercion is not modelled.
- LegacyTs.Precision: requires a whole precision, for the same reason as below.
- LegacyTs.GetTimeComponents: requires a whole precision. index.ts passes the precision on unrounded, and
  `10 ** p` for a fractional p has no exact value here.
- LegacyTs.Components: requires a whole precision, for the same reason.
- LegacyTs.FormatTime: requires a whole precision, for the same reason.
- `formatTime` words the zero result with the merged dictionary's `second` entry whatever `minUnit` is, as the
  code does.
- The thrown `Error` is modelled as a `Failure` carrying its message.

## Findings

| source | as written | input that shows it | evidently intended | confidence | as-written member | corrected member |
|---|---|---|---|---|---|---|
| src/constants.ts:31-35 | `DefaultOptions` has no `inputUnit` key. validator.ts both demands a valid `options.inputUnit` and rejects as unknown every key the defaults lack, so no call passes validation | `formatTime(1)`: "options.inputUnit must be ..."; `formatTime(1, {inputUnit: 'second'})`: "Unknown option 'inputUnit'" | `DefaultOptions` also holds `inputUnit: 'second'`, as formatTime.ts, validator.ts and the tests expect | high (not executed) | Validator.WithoutInputUnitAlwaysFails | Validator.DefaultOptionsAreValid |
