/**
 * The legacy formatter of src/index.js: a time in seconds split over the five units week, day,
 * hour, minute and second (the second keeps the exact leftover), trimmed of its leading and
 * trailing zero components, each component phrased with the unit's own name, and the phrases
 * joined with "and".  The second has its own rule: an amount below one second is written in
 * milliseconds, a fractional amount of seconds with three decimals.
 */
module LegacyIndex {
  import opened Wrappers
  import opened Constants
  import opened Numerals
  import opened Engine
  import opened LegacyUtils
  import Utils

  /** The five units of index.js, week to second, with the sizes of src/constants.js. */
  const Table: seq<(Unit, real)> := UnitTimeMap[..5]

  lemma TableShape()
    ensures |Table| == 5 && HasOwnSizes(Table)
    ensures Table[0].0 == Week && Table[1].0 == Day && Table[2].0 == Hour
    ensures Table[3].0 == Minute && Table[4].0 == Second
  {
    UnitTimeMapIsTable();
  }

  /**
   * The five amounts: the greedy split of formatTime.ts over week to minute, each the floor of
   * what is left over the unit's size, and the second given the exact leftover.
   */
  function Decomposition(time: real): (c: Components)
    ensures |c| == 5
    ensures c[0].0 == Week && c[1].0 == Day && c[2].0 == Hour && c[3].0 == Minute && c[4].0 == Second
  {
    TableShape();
    Split(time, Table, 0)[..4] + [(Second, Remainder(time, Table))]
  }

  /** The decomposition step by step: each unit takes the whole units of what the coarser ones left. */
  lemma DecompositionSteps(time: real)
    ensures var t1 := Rest(time, Size(Week));
            var t2 := Rest(t1, Size(Day));
            var t3 := Rest(t2, Size(Hour));
            Decomposition(time) ==
              [(Week, Whole(time, Size(Week))), (Day, Whole(t1, Size(Day))), (Hour, Whole(t2, Size(Hour))),
               (Minute, Whole(t3, Size(Minute))), (Second, Rest(t3, Size(Minute)))]
  {
    TableShape();
    var t1 := Rest(time, Size(Week));
    var t2 := Rest(t1, Size(Day));
    var t3 := Rest(t2, Size(Hour));
    assert Table[0..] == Table;
    SplitStep(time, Table, 0, 0);
    SplitStep(t1, Table, 1, 0);
    SplitStep(t2, Table, 2, 0);
    SplitStep(t3, Table, 3, 0);
    RemainderStep(time, Table, 0);
    RemainderStep(t1, Table, 1);
    RemainderStep(t2, Table, 2);
    RemainderStep(t3, Table, 3);
  }

  lemma RemainderStep(time: real, m: seq<(Unit, real)>, k: nat)
    requires HasOwnSizes(m) && k < |m| - 1
    ensures HasOwnSizes(m[k..]) && HasOwnSizes(m[k + 1..]) && m[k].1 > 0.0
    ensures Remainder(time, m[k..]) == Remainder(Rest(time, m[k].1), m[k + 1..])
  {
    SplitStep(time, m, k, 0);
    assert m[k..][1..] == m[k + 1..];
  }

  /**
   * `getTimeComponents` of index.js: the factors object is filled unit by unit, each factor the
   * whole units found times the unit's size, and the second is the time less all four factors.
   */
  method GetTimeComponents(time: real) returns (timeComponents: Components)
    ensures timeComponents == Decomposition(time)
  {
    var week := Whole(time, Size(Week));
    var factorsWeek := Weight(week, Size(Week));
    var day := Whole(time - factorsWeek, Size(Day));
    var factorsDay := Weight(day, Size(Day));
    var hour := Whole(time - factorsWeek - factorsDay, Size(Hour));
    var factorsHour := Weight(hour, Size(Hour));
    var minute := Whole(time - factorsWeek - factorsDay - factorsHour, Size(Minute));
    var factorsMinute := Weight(minute, Size(Minute));
    var second := time - factorsWeek - factorsDay - factorsHour - factorsMinute;
    DecompositionSteps(time);
    ghost var t1 := time - factorsWeek;
    ghost var t2 := t1 - factorsDay;
    ghost var t3 := t2 - factorsHour;
    assert t1 == Rest(time, Size(Week)) && t2 == Rest(t1, Size(Day)) && t3 == Rest(t2, Size(Hour));
    assert second == Rest(t3, Size(Minute));
    timeComponents := [(Week, week), (Day, day), (Hour, hour), (Minute, minute), (Second, second)];
  }

  /** The five amounts, times their sizes, add up to the time exactly: nothing is rounded. */
  lemma DecompositionTotal(time: real)
    ensures Total(Decomposition(time)) == time
  {
    TableShape();
    var c := Decomposition(time);
    SplitPrefixTotal(time, Table, 0);
    assert c[..4] == Split(time, Table, 0)[..4];
    TotalAppend(c[..4], Second, Remainder(time, Table), Size(Second));
    assert c == c[..4] + [(Second, Remainder(time, Table))];
    assert Weight(Remainder(time, Table), Size(Second)) == Remainder(time, Table);
  }

  /**
   * Week, day, hour and minute are whole numbers of units; the second is what is left below one
   * minute, whatever the sign of the time.
   */
  lemma DecompositionBounds(time: real)
    ensures forall i :: 0 <= i < 4 ==> Decomposition(time)[i].1 == Decomposition(time)[i].1.Floor as real
    ensures 0.0 <= Decomposition(time)[4].1 < 60.0
  {
    TableShape();
    forall i | 0 <= i < 4 ensures Decomposition(time)[i].1 == Decomposition(time)[i].1.Floor as real {
      SplitWhole(time, Table, 0, i);
    }
    RemainderBound(time, Table);
  }

  /** Every amount is zero exactly when the time is zero. */
  lemma DecompositionZero(time: real)
    ensures AllZero(Decomposition(time)) <==> time == 0.0
  {
    if AllZero(Decomposition(time)) {
      TotalAllZero(Decomposition(time));
      DecompositionTotal(time);
    }
    if time == 0.0 {
      SubMinute(time);
    }
  }

  /** Below one minute, the four coarse amounts are zero and the second is the whole time. */
  lemma SubMinute(time: real)
    requires 0.0 <= time < 60.0
    ensures Decomposition(time) == [(Week, 0.0), (Day, 0.0), (Hour, 0.0), (Minute, 0.0), (Second, time)]
  {
    DecompositionSteps(time);
    WholeBelow(time, Size(Week));
    WholeBelow(time, Size(Day));
    WholeBelow(time, Size(Hour));
    WholeBelow(time, Size(Minute));
  }

  lemma WholeBelow(time: real, size: real)
    requires 0.0 <= time < size
    ensures Whole(time, size) == 0.0 && Rest(time, size) == time
  {
    assert 0.0 <= time / size < 1.0;
  }

  /** A number, or one of JavaScript's infinities. */
  datatype Extended = NegInf | Finite(n: int) | PosInf

  /** JavaScript's `a <= b` on numbers and infinities. */
  predicate AtMost(a: Extended, b: Extended) {
    match (a, b)
    case (NegInf, _) => true
    case (_, PosInf) => true
    case (Finite(x), Finite(y)) => x <= y
    case _ => false
  }

  /** `{min, max}` as `Math.min` and `Math.max` return them: infinite when there is nothing to compare. */
  datatype ExtendedBounds = ExtendedBounds(min: Extended, max: Extended)

  /** The reduce of `getBounds`: the indices whose amount `!== 0`, in order. */
  function NonZeroIndexes(c: Components): (r: seq<int>)
    ensures forall k :: k in r <==> 0 <= k < |c| && c[k].1 != 0.0
  {
    if |c| == 0 then []
    else NonZeroIndexes(c[..|c| - 1]) + (if c[|c| - 1].1 != 0.0 then [|c| - 1] else [])
  }

  /** `Math.min(...s)`: Infinity for no argument, otherwise the least one. */
  function MathMin(s: seq<int>): (r: Extended)
    ensures r != NegInf
    ensures r == PosInf <==> s == []
    ensures r.Finite? ==> r.n in s && forall x :: x in s ==> r.n <= x
  {
    if |s| == 0 then PosInf
    else
      var m := MathMin(s[1..]);
      assert forall x :: x in s ==> x == s[0] || x in s[1..];
      if m.Finite? && m.n < s[0] then m else Finite(s[0])
  }

  /** `Math.max(...s)`: -Infinity for no argument, otherwise the greatest one. */
  function MathMax(s: seq<int>): (r: Extended)
    ensures r != PosInf
    ensures r == NegInf <==> s == []
    ensures r.Finite? ==> r.n in s && forall x :: x in s ==> x <= r.n
  {
    if |s| == 0 then NegInf
    else
      var m := MathMax(s[1..]);
      assert forall x :: x in s ==> x == s[0] || x in s[1..];
      if m.Finite? && m.n > s[0] then m else Finite(s[0])
  }

  /** `getBounds` of index.js: the least and the greatest index of a non-zero amount. */
  function GetBounds(c: Components): ExtendedBounds {
    ExtendedBounds(MathMin(NonZeroIndexes(c)), MathMax(NonZeroIndexes(c)))
  }

  /** `min <= index && index <= max`. */
  predicate InBounds(b: ExtendedBounds, index: int) {
    AtMost(b.min, Finite(index)) && AtMost(Finite(index), b.max)
  }

  /** `getFilteredTimeComponents` of index.js: the entries whose index is within the bounds, in order. */
  function GetFilteredTimeComponents(c: Components, b: ExtendedBounds): Components {
    if |c| == 0 then []
    else GetFilteredTimeComponents(c[..|c| - 1], b) + (if InBounds(b, |c| - 1) then [c[|c| - 1]] else [])
  }

  /** Bounds that admit exactly the indices of [lo, hi] keep the slice formatTime.ts keeps for them. */
  lemma {:induction false} FilterIsIndexRange(c: Components, b: ExtendedBounds, lo: int, hi: int)
    requires forall i :: 0 <= i < |c| ==> (InBounds(b, i) <==> lo <= i <= hi)
    ensures GetFilteredTimeComponents(c, b) == KeepIndexRange(c, lo, hi)
  {
    if |c| > 0 {
      FilterIsIndexRange(c[..|c| - 1], b, lo, hi);
    }
  }

  /**
   * The filter of index.js, with its infinite bounds when every amount is zero, keeps what the
   * filter of formatTime.ts keeps: the run from the first to the last non-zero amount.
   */
  lemma FilterAgrees(c: Components)
    requires |c| <= |Units|
    ensures GetFilteredTimeComponents(c, GetBounds(c)) == Engine.GetFilteredTimeComponents(c, Engine.GetBounds(c))
  {
    if AllZero(c) {
      FilterAllZero(c);
    } else {
      FilterSomeNonZero(c, Engine.GetBounds(c));
    }
  }

  lemma FilterAllZero(c: Components)
    requires AllZero(c)
    ensures GetFilteredTimeComponents(c, GetBounds(c)) == []
  {
    var s := NonZeroIndexes(c);
    FirstIsMember(s);
    FilterIsIndexRange(c, GetBounds(c), 1, 0);
  }

  lemma FirstIsMember<T>(s: seq<T>)
    ensures s == [] || s[0] in s
  {
  }

  lemma FilterSomeNonZero(c: Components, eb: Engine.Bounds)
    requires !AllZero(c) && BoundsOf(c, eb)
    ensures GetFilteredTimeComponents(c, GetBounds(c)) == c[eb.min..eb.max + 1]
  {
    var s := NonZeroIndexes(c);
    assert eb.min in s && eb.max in s;
    var lo, hi := MathMin(s).n, MathMax(s).n;
    assert lo == eb.min;
    assert hi == eb.max;
    FilterIsIndexRange(c, GetBounds(c), lo, hi);
  }

  /**
   * What index.js keeps: nothing when every amount is zero, otherwise the components with the
   * leading and the trailing zeros dropped, interior zeros kept, first and last amount non-zero.
   */
  lemma Kept(c: Components)
    requires |c| <= |Units|
    ensures GetFilteredTimeComponents(c, GetBounds(c)) == DropTrailingZeros(DropLeadingZeros(c))
    ensures GetFilteredTimeComponents(c, GetBounds(c)) == [] <==> AllZero(c)
  {
    FilterAgrees(c);
    TrimIsDropZeros(c);
  }

  /** The rule of the second below one second (and not zero): in milliseconds. */
  predicate BelowOneSecond(e: (Unit, real)) {
    e.0 == Second && e.1 != 0.0 && e.1 < 1.0
  }

  /** The extra "0 seconds" index.js writes before milliseconds when other entries are kept. */
  function Padding(e: (Unit, real), count: nat): seq<string> {
    if BelowOneSecond(e) && count > 1 then ["0 seconds"] else []
  }

  /** `pluralise(Math.round(value * 1000), 'millisecond')`. */
  function Milliseconds(value: real): string {
    Pluralise(Number(Utils.MathRound(value * 1000.0) as real), "millisecond", None)
  }

  /** `pluralise(Number.isInteger(value) ? value : value.toFixed(3), key)` for the second. */
  function Seconds(value: real): string {
    Pluralise(if value == value.Floor as real then Number(value) else Text(Fixed3(value)), Name(Second), None)
  }

  /** `pluralise(value, key)`. */
  function Amount(u: Unit, value: real): string {
    Pluralise(Number(value), Name(u), None)
  }

  /** The phrase for one entry, with the unit's name as the word. */
  function Phrase(e: (Unit, real)): string {
    if e.0 == Second then
      if e.1 == 0.0 then "0 seconds"
      else if e.1 < 1.0 then Milliseconds(e.1)
      else Seconds(e.1)
    else Amount(e.0, e.1)
  }

  /** What one step of the reduce pushes, for entries of `count` in all. */
  function EntryPhrases(e: (Unit, real), count: nat): seq<string> {
    Padding(e, count) + [Phrase(e)]
  }

  /** The accumulator after the reduce over the entries of c, of `count` entries in all. */
  function Phrases(c: Components, count: nat): seq<string> {
    if |c| == 0 then [] else Phrases(c[..|c| - 1], count) + EntryPhrases(c[|c| - 1], count)
  }

  /** `getFormattedTimeComponents` of index.js: the reduce that pushes each entry's phrases onto acc. */
  method GetFormattedTimeComponents(timeComponents: Components) returns (acc: seq<string>)
    ensures acc == Phrases(timeComponents, |timeComponents|)
  {
    acc := [];
    var index := 0;
    while index < |timeComponents|
      invariant 0 <= index <= |timeComponents|
      invariant acc == Phrases(timeComponents[..index], |timeComponents|)
    {
      acc := PushPhrases(acc, timeComponents[index], |timeComponents|);
      PhrasesPrefix(timeComponents, index, |timeComponents|);
      index := index + 1;
    }
    assert timeComponents[..index] == timeComponents;
  }

  /** The callback of that reduce, for one entry of `entriesLength` entries. */
  method PushPhrases(acc0: seq<string>, entry: (Unit, real), entriesLength: nat) returns (acc: seq<string>)
    ensures acc == acc0 + EntryPhrases(entry, entriesLength)
  {
    acc := acc0;
    var key, value := entry.0, entry.1;
    if key == Second {
      if value == 0.0 {
        acc := acc + ["0 seconds"];
      } else if value < 1.0 {
        if entriesLength > 1 {
          acc := acc + ["0 seconds"];
        }
        acc := acc + [Milliseconds(value)];
        Utils.AppendRegroup(acc0, Padding(entry, entriesLength), [Phrase(entry)]);
      } else {
        acc := acc + [Seconds(value)];
      }
    } else {
      acc := acc + [Amount(key, value)];
    }
  }

  lemma PhrasesPrefix(c: Components, index: nat, count: nat)
    requires index < |c|
    ensures Phrases(c[..index + 1], count) == Phrases(c[..index], count) + EntryPhrases(c[index], count)
  {
    assert c[..index + 1][..index] == c[..index];
  }

  /** With no entry below one second, or only one entry, each entry gives one phrase, in order. */
  lemma {:induction false} PhrasesOnePerEntry(c: Components, count: nat)
    requires count <= 1 || forall i :: 0 <= i < |c| ==> !BelowOneSecond(c[i])
    ensures |Phrases(c, count)| == |c|
    ensures forall i :: 0 <= i < |c| ==> Phrases(c, count)[i] == Phrase(c[i])
  {
    if |c| > 0 {
      var p, e := c[..|c| - 1], c[|c| - 1];
      assert count <= 1 || forall i :: 0 <= i < |p| ==> !BelowOneSecond(p[i]) by {
        forall i | 0 <= i < |p| ensures p[i] == c[i] {}
      }
      PhrasesOnePerEntry(p, count);
      NoPadding(e, count);
      AppendPointwise(c, Phrases(p, count), Phrase(e), Phrases(c, count));
    }
  }

  /** One more entry and its phrase keep the phrases in step with the entries. */
  lemma AppendPointwise(c: Components, ps: seq<string>, x: string, qs: seq<string>)
    requires |c| > 0 && |ps| == |c| - 1 && qs == ps + [x] && x == Phrase(c[|c| - 1])
    requires forall i :: 0 <= i < |ps| ==> ps[i] == Phrase(c[..|c| - 1][i])
    ensures |qs| == |c|
    ensures forall i :: 0 <= i < |c| ==> qs[i] == Phrase(c[i])
  {
    forall i | 0 <= i < |c| ensures qs[i] == Phrase(c[i]) {
      if i < |ps| {
        assert c[..|c| - 1][i] == c[i];
      }
    }
  }

  lemma NoPadding(e: (Unit, real), count: nat)
    requires count <= 1 || !BelowOneSecond(e)
    ensures EntryPhrases(e, count) == [Phrase(e)]
  {
  }

  /**
   * A unit other than the second is phrased with its name: the number's text, then the name,
   * with an "s" unless the amount is exactly one.
   */
  lemma UnitPhrase(u: Unit, v: real)
    requires u != Second
    ensures Phrase((u, v)) == NumberText(v) + " " + (if v == 1.0 then Name(u) else Name(u) + "s")
  {
    PluraliseAgrees(v, Name(u), None);
  }

  /**
   * A second of at least one is written as an integer when it is whole, else with exactly three
   * decimals as `toFixed(3)` writes it, and takes the plural unless it is exactly one.
   */
  lemma SecondPhrase(v: real)
    requires v >= 1.0
    ensures v == v.Floor as real ==>
              Phrase((Second, v)) == IntText(v.Floor) + (if v == 1.0 then " second" else " seconds")
    ensures v != v.Floor as real ==> Phrase((Second, v)) == Fixed3(v) + " seconds"
  {
    if v == v.Floor as real {
      WholeSeconds(v);
    } else {
      FractionalSeconds(v);
    }
  }

  lemma WholeSeconds(v: real)
    requires v == v.Floor as real
    ensures Seconds(v) == IntText(v.Floor) + (if v == 1.0 then " second" else " seconds")
  {
    PluraliseAgrees(v, Name(Second), None);
    NumberTextOfInteger(v.Floor);
  }

  lemma FractionalSeconds(v: real)
    requires v != v.Floor as real
    ensures Seconds(v) == Fixed3(v) + " seconds"
  {
    PluraliseText(Fixed3(v), Name(Second), None);
  }

  /**
   * A second below one (and not zero) is written as the nearest whole number of milliseconds
   * (halves up), singular for exactly one.
   */
  lemma MillisecondPhrase(v: real)
    requires v != 0.0 && v < 1.0
    ensures var ms := Utils.MathRound(v * 1000.0);
            Phrase((Second, v)) == IntText(ms) + (if ms == 1 then " millisecond" else " milliseconds")
  {
    var ms := Utils.MathRound(v * 1000.0);
    PluraliseAgrees(ms as real, "millisecond", None);
    NumberTextOfInteger(ms);
  }

  /**
   * The default export of index.js: the joined phrases of the kept components, or "0 seconds"
   * when nothing is kept.
   */
  function FormattedTime(time: real): string {
    var timeComponents := Decomposition(time);
    var filteredTimeComponents := GetFilteredTimeComponents(timeComponents, GetBounds(timeComponents));
    if |filteredTimeComponents| > 0 then
      HumanReadableList(Phrases(filteredTimeComponents, |filteredTimeComponents|), "and")
    else "0 seconds"
  }

  method FormatTime(time: real) returns (r: string)
    ensures r == FormattedTime(time)
  {
    var timeComponents := GetTimeComponents(time);
    var bounds := GetBounds(timeComponents);
    var filteredTimeComponents := GetFilteredTimeComponents(timeComponents, bounds);
    if |filteredTimeComponents| > 0 {
      var phrases := GetFormattedTimeComponents(filteredTimeComponents);
      r := HumanReadableList(phrases, "and");
    } else {
      r := "0 seconds";
    }
  }

  /** Zero seconds, and only zero, leaves nothing to phrase: the result is "0 seconds". */
  lemma FormattedZero(time: real)
    ensures GetFilteredTimeComponents(Decomposition(time), GetBounds(Decomposition(time))) == [] <==> time == 0.0
    ensures time == 0.0 ==> FormattedTime(time) == "0 seconds"
  {
    Kept(Decomposition(time));
    DecompositionZero(time);
  }

  /**
   * Any other time is the sentence of the phrases of the trimmed decomposition, joined as
   * utils.ts joins with the default glue "and".
   */
  lemma FormattedSentence(time: real)
    requires time != 0.0
    ensures var kept := DropTrailingZeros(DropLeadingZeros(Decomposition(time)));
            kept != [] && FormattedTime(time) == Utils.HumanReadableList(Phrases(kept, |kept|), None)
  {
    var c := Decomposition(time);
    Kept(c);
    DecompositionZero(time);
    var kept := DropTrailingZeros(DropLeadingZeros(c));
    HumanReadableListDefaultGlue(Phrases(kept, |kept|));
  }

  /**
   * A time strictly between zero and one minute is written as its second alone: in milliseconds
   * below one second, with no "0 seconds" before them, else in seconds.
   */
  lemma FormattedSubMinute(time: real)
    requires 0.0 < time < 60.0
    ensures FormattedTime(time) == Phrase((Second, time))
  {
    SubMinuteKept(time);
    OnePhrase((Second, time));
    PhraseNonEmpty((Second, time));
  }

  lemma SubMinuteKept(time: real)
    requires 0.0 < time < 60.0
    ensures GetFilteredTimeComponents(Decomposition(time), GetBounds(Decomposition(time))) == [(Second, time)]
  {
    SubMinute(time);
    var c := Decomposition(time);
    Kept(c);
    DropLeadingZerosAt(c, 4);
    assert c[4..] == [(Second, time)];
  }

  lemma OnePhrase(e: (Unit, real))
    ensures Phrases([e], 1) == [Phrase(e)]
  {
    assert [e][..0] == [];
  }

  lemma PhraseNonEmpty(e: (Unit, real))
    ensures |Phrase(e)| > 0
  {
    if e.0 == Second && e.1 != 0.0 {
      if e.1 < 1.0 {
        PluraliseNonEmpty(Number(Utils.MathRound(e.1 * 1000.0) as real), "millisecond", None);
      } else {
        PluraliseNonEmpty(if e.1 == e.1.Floor as real then Number(e.1) else Text(Fixed3(e.1)), Name(Second), None);
      }
    } else if e.0 != Second {
      PluraliseNonEmpty(Number(e.1), Name(e.0), None);
    }
  }

  /** 1.23456 seconds is written with three decimals, the last one rounded. */
  lemma SecondsExample()
    ensures Seconds(1.23456) == "1.235 seconds"
  {
    Fixed3Example();
    PluraliseText(Fixed3(1.23456), Name(Second), None);
  }

  lemma Fixed3Example()
    ensures Fixed3(1.23456) == "1.235"
  {
    assert Thousandths(1.23456) == 1235;
    assert NatText(1) == "1" && Pad3(235) == "235";
  }
}
