/**
 * The formatter of src/formatTime.ts: validate the merged options, convert
 * the input to seconds, pick the unit window from maxUnit down to minUnit,
 * split the duration greedily over it, trim the leading and trailing zero
 * components and phrase what is left.
 */
module Engine {
  import opened Wrappers
  import opened Records
  import opened Constants
  import opened Utils
  import opened Validator
  import opened Numerals

  /** A time-components object: units with their amounts, in key order. */
  type Components = seq<(Unit, real)>

  /** Every entry is a unit with its own size, as in the unit table. */
  predicate HasOwnSizes(m: seq<(Unit, real)>) {
    forall i :: 0 <= i < |m| ==> m[i].1 == Size(m[i].0)
  }

  function Clamp(x: int, lo: int, hi: int): (r: int)
    requires lo <= hi
    ensures lo <= r <= hi
    ensures lo <= x <= hi ==> r == x
  {
    if x < lo then lo else if x > hi then hi else x
  }

  /**
   * `entries.reduce((acc, entry, index) => ({...acc, ...(lo <= index && index <= hi && entry)}), {})`:
   * the entries whose index lies in [lo, hi], which is one contiguous slice.
   */
  function KeepIndexRange<T>(s: seq<T>, lo: int, hi: int): (r: seq<T>)
    ensures r == s[Clamp(lo, 0, |s|)..Clamp(hi + 1, Clamp(lo, 0, |s|), |s|)]
  {
    if |s| == 0 then []
    else
      var i := |s| - 1;
      KeepStep(s, lo, hi, KeepIndexRange(s[..i], lo, hi));
      KeepIndexRange(s[..i], lo, hi) + (if lo <= i && i <= hi then [s[i]] else [])
  }

  /** Adding the last entry, when its index is in range, extends the slice kept from the others. */
  lemma KeepStep<T>(s: seq<T>, lo: int, hi: int, kept: seq<T>)
    requires |s| > 0
    requires kept == s[..|s| - 1][Clamp(lo, 0, |s| - 1)..Clamp(hi + 1, Clamp(lo, 0, |s| - 1), |s| - 1)]
    ensures kept + (if lo <= |s| - 1 && |s| - 1 <= hi then [s[|s| - 1]] else []) ==
            s[Clamp(lo, 0, |s|)..Clamp(hi + 1, Clamp(lo, 0, |s|), |s|)]
  {
    var i := |s| - 1;
    var a := Clamp(lo, 0, i);
    var b := Clamp(hi + 1, a, i);
    if lo <= i && i <= hi {
      assert Clamp(lo, 0, |s|) == a && b == i && Clamp(hi + 1, a, |s|) == |s|;
      assert s[..i][a..i] == s[a..i];
      assert s[a..i] + [s[i]] == s[a..|s|];
    } else if lo > i {
      assert a == i && b == i;
      assert kept == [];
      assert Clamp(lo, 0, |s|) == |s|;
    } else {
      assert Clamp(lo, 0, |s|) == a && Clamp(hi + 1, a, |s|) == b;
      assert s[..i][a..b] == s[a..b];
    }
  }

  /** Every piece of the unit table pairs its units with their own sizes. */
  lemma TablePiece(lo: int, hi: int)
    requires 0 <= lo <= hi <= |UnitTimeMap|
    ensures HasOwnSizes(UnitTimeMap[lo..hi])
  {
    UnitTimeMapIsTable();
    forall i | 0 <= i < hi - lo ensures UnitTimeMap[lo..hi][i].1 == Size(UnitTimeMap[lo..hi][i].0) {
      assert UnitTimeMap[lo..hi][i] == UnitTimeMap[lo + i];
    }
  }

  /** The entries of the unit table whose index lies in [lo, hi]. */
  function TableWindow(lo: int, hi: int): (m: seq<(Unit, real)>)
    ensures HasOwnSizes(m) && |m| <= |Units|
    ensures hi < 0 || lo > hi ==> m == []
    ensures lo < 0 <= hi < |UnitTimeMap| ==> m == UnitTimeMap[..hi + 1]
    ensures 0 <= lo <= hi < |UnitTimeMap| ==> m == UnitTimeMap[lo..hi + 1]
  {
    var r := KeepIndexRange(UnitTimeMap, lo, hi);
    TablePiece(Clamp(lo, 0, |UnitTimeMap|), Clamp(hi + 1, Clamp(lo, 0, |UnitTimeMap|), |UnitTimeMap|));
    UnitTimeMapIsTable();
    r
  }

  /** `getUnitTimeMap`: the units from index(maxUnit) to index(minUnit), both included, with their sizes. */
  function GetUnitTimeMap(options: Record<Value>): (m: seq<(Unit, real)>)
    ensures HasOwnSizes(m) && |m| <= |Units|
    ensures UnitsAreValid(options) ==>
              m == UnitTimeMap[UnitIndexOf(Field(options, "maxUnit"))..UnitIndexOf(Field(options, "minUnit")) + 1]
  {
    TableWindow(UnitIndexOf(Field(options, "maxUnit")), UnitIndexOf(Field(options, "minUnit")))
  }

  /** The unit window holds every unit from maxUnit to minUnit, coarse to fine, each with its size. */
  lemma UnitWindow(options: Record<Value>)
    requires UnitsAreValid(options)
    ensures |GetUnitTimeMap(options)| == Index(UnitNamed(Field(options, "minUnit"))) - Index(UnitNamed(Field(options, "maxUnit"))) + 1
    ensures GetUnitTimeMap(options)[0].0 == UnitNamed(Field(options, "maxUnit"))
    ensures GetUnitTimeMap(options)[|GetUnitTimeMap(options)| - 1].0 == UnitNamed(Field(options, "minUnit"))
    ensures forall i :: 0 <= i < |GetUnitTimeMap(options)| ==>
              GetUnitTimeMap(options)[i] == (Units[Index(UnitNamed(Field(options, "maxUnit"))) + i],
                                             Size(Units[Index(UnitNamed(Field(options, "maxUnit"))) + i]))
    ensures HasOwnSizes(GetUnitTimeMap(options))
  {
    UnitTimeMapIsTable();
  }

  lemma WindowHasOwnSizes(options: Record<Value>)
    requires UnitsAreValid(options)
    ensures |GetUnitTimeMap(options)| > 0 && HasOwnSizes(GetUnitTimeMap(options))
  {
    UnitWindow(options);
  }

  /** `Math.floor(time / size)`: how many whole units fit. */
  function Whole(time: real, size: real): real
    requires size > 0.0
  {
    (time / size).Floor as real
  }

  /** The seconds that `amount` units of the given size last. */
  function Weight(amount: real, size: real): real {
    amount * size
  }

  /** `time - Math.floor(time / size) * size`: what is left after the whole units. */
  function Rest(time: real, size: real): real
    requires size > 0.0
  {
    time - Weight(Whole(time, size), size)
  }

  /**
   * The components `getTimeComponents` produces over the window m with `digits` decimals: every
   * unit but the last gets the floor of the remaining time over its size, and the remaining
   * time drops by that many units; the last gets the remaining time in its unit, rounded.
   */
  function Split(time: real, m: seq<(Unit, real)>, digits: int): (c: Components)
    requires HasOwnSizes(m)
    ensures |c| == |m|
    ensures forall i :: 0 <= i < |m| ==> c[i].0 == m[i].0
    decreases |m|
  {
    if |m| == 0 then []
    else if |m| == 1 then [(m[0].0, RoundToDecimals(time / m[0].1, digits))]
    else
      [(m[0].0, Whole(time, m[0].1))] + Split(Rest(time, m[0].1), m[1..], digits)
  }

  /** The time still to be split when the last unit of m is reached. */
  function Remainder(time: real, m: seq<(Unit, real)>): real
    requires HasOwnSizes(m)
    decreases |m|
  {
    if |m| <= 1 then time
    else Remainder(Rest(time, m[0].1), m[1..])
  }

  /** Σ amount · size over the components. */
  function Total(c: Components): real {
    if |c| == 0 then 0.0 else Total(c[..|c| - 1]) + Weight(c[|c| - 1].1, Size(c[|c| - 1].0))
  }

  lemma {:induction false} TotalPrepend(x: (Unit, real), c: Components)
    ensures Total([x] + c) == Weight(x.1, Size(x.0)) + Total(c)
    decreases |c|
  {
    if |c| > 0 {
      assert ([x] + c)[..|[x] + c| - 1] == [x] + c[..|c| - 1];
      TotalPrepend(x, c[..|c| - 1]);
    } else {
      assert ([x] + c)[..0] == [];
    }
  }

  lemma FloorStepAt(time: real, size: real, k: real)
    requires size > 0.0 && k <= time / size < k + 1.0
    ensures 0.0 <= time - k * size < size
  {
    DivMulCancel(time, size);
    MulLe(k, time / size, size);
    assert k * size <= time;
    MulLt(time / size, k + 1.0, size);
    assert time < (k + 1.0) * size;
    assert (k + 1.0) * size == k * size + size;
    assert time < k * size + size;
  }

  /** Taking the floor leaves a remainder in [0, size), whatever the sign of the time. */
  lemma FloorStep(time: real, size: real)
    requires size > 0.0
    ensures 0.0 <= Rest(time, size) < size
  {
    FloorStepAt(time, size, Whole(time, size));
  }

  lemma TailHasOwnSizes(m: seq<(Unit, real)>)
    requires |m| > 0 && HasOwnSizes(m)
    ensures HasOwnSizes(m[1..]) && m[0].1 == Size(m[0].0) && m[0].1 > 0.0
  {
    assert forall i :: 0 <= i < |m[1..]| ==> m[1..][i] == m[i + 1];
  }

  /** The components before the last, times their sizes, plus the remainder give back the time. */
  lemma {:induction false} SplitPrefixTotal(time: real, m: seq<(Unit, real)>, digits: int)
    requires |m| > 0 && HasOwnSizes(m)
    ensures Total(Split(time, m, digits)[..|m| - 1]) + Remainder(time, m) == time
    decreases |m|
  {
    if |m| > 1 {
      TailHasOwnSizes(m);
      var amount := Whole(time, m[0].1);
      var tail := Split(Rest(time, m[0].1), m[1..], digits);
      SplitPrefixTotal(Rest(time, m[0].1), m[1..], digits);
      assert Split(time, m, digits) == [(m[0].0, amount)] + tail;
      assert Split(time, m, digits)[..|m| - 1] == [(m[0].0, amount)] + tail[..|m| - 2];
      TotalPrepend((m[0].0, amount), tail[..|m| - 2]);
    } else {
      assert Split(time, m, digits)[..0] == [];
    }
  }

  /** The last component is the remainder expressed in the last unit, rounded to the digits. */
  lemma {:induction false} SplitLast(time: real, m: seq<(Unit, real)>, digits: int)
    requires |m| > 0 && HasOwnSizes(m)
    ensures Split(time, m, digits)[|m| - 1].1 == RoundToDecimals(Remainder(time, m) / m[|m| - 1].1, digits)
    decreases |m|
  {
    if |m| > 1 {
      TailHasOwnSizes(m);
      SplitLast(Rest(time, m[0].1), m[1..], digits);
      assert Split(time, m, digits)[|m| - 1] == Split(Rest(time, m[0].1), m[1..], digits)[|m| - 2];
    }
  }

  /** Before the last unit is reached, the remaining time is below one of the previous unit. */
  lemma {:induction false} RemainderBound(time: real, m: seq<(Unit, real)>)
    requires |m| > 1 && HasOwnSizes(m)
    ensures 0.0 <= Remainder(time, m) < m[|m| - 2].1
    decreases |m|
  {
    TailHasOwnSizes(m);
    if |m| > 2 {
      RemainderBound(Rest(time, m[0].1), m[1..]);
    } else {
      FloorStep(time, m[0].1);
    }
  }

  /** Every component but the last is a whole number. */
  lemma {:induction false} SplitWhole(time: real, m: seq<(Unit, real)>, digits: int, i: int)
    requires HasOwnSizes(m) && 0 <= i < |m| - 1
    ensures Split(time, m, digits)[i].1 == (Split(time, m, digits)[i].1).Floor as real
    decreases |m|
  {
    TailHasOwnSizes(m);
    if i > 0 {
      SplitWhole(Rest(time, m[0].1), m[1..], digits, i - 1);
    } else {
      assert Split(time, m, digits)[0].1 == Whole(time, m[0].1);
    }
  }

  lemma ScaleBounds(x: real, y: real, h: real, s: real)
    requires s > 0.0 && y - h < x <= y + h
    ensures y * s - h * s < x * s <= y * s + h * s
  {
    MulLe(x, y + h, s);
    MulLt(y - h, x, s);
    assert (y + h) * s == y * s + h * s;
    assert (y - h) * s == y * s - h * s;
  }

  /**
   * The components, times their sizes, add up to the time up to the rounding of the last
   * component: at most half of 10^-digits of the last unit away.
   */
  lemma SplitTotal(time: real, m: seq<(Unit, real)>, digits: int)
    requires |m| > 0 && HasOwnSizes(m)
    ensures time - Weight(0.5 / Pow10(digits), m[|m| - 1].1) < Total(Split(time, m, digits))
    ensures Total(Split(time, m, digits)) <= time + Weight(0.5 / Pow10(digits), m[|m| - 1].1)
  {
    var c := Split(time, m, digits);
    var n := |m| - 1;
    var r := Remainder(time, m);
    var h := 0.5 / Pow10(digits);
    SplitPrefixTotal(time, m, digits);
    SplitLast(time, m, digits);
    assert c == c[..n] + [(m[n].0, c[n].1)];
    TotalAppend(c[..n], m[n].0, c[n].1, m[n].1);
    RoundToDecimalsBounds(r / m[n].1, digits);
    LastStepBounds(time, Total(c[..n]), r, m[n].1, h, c[n].1);
  }

  lemma LastStepBounds(time: real, p: real, r: real, s: real, h: real, x: real)
    requires s > 0.0 && p + r == time && r / s - h < x <= r / s + h
    ensures time - Weight(h, s) < p + Weight(x, s) <= time + Weight(h, s)
  {
    ScaleBounds(x, r / s, h, s);
    DivMulCancel(r, s);
  }

  /** A zero duration splits into zeros. */
  lemma {:induction false} SplitZero(m: seq<(Unit, real)>, digits: int)
    requires HasOwnSizes(m)
    ensures forall i :: 0 <= i < |m| ==> Split(0.0, m, digits)[i].1 == 0.0
    decreases |m|
  {
    if |m| == 1 {
      assert MathRound(0.0 / m[0].1 * Pow10(digits)) == 0;
    } else if |m| > 1 {
      TailHasOwnSizes(m);
      assert Whole(0.0, m[0].1) == 0.0;
      assert Rest(0.0, m[0].1) == 0.0;
      SplitZero(m[1..], digits);
      assert Split(0.0, m, digits) == [(m[0].0, 0.0)] + Split(0.0, m[1..], digits);
    }
  }

  /** `convertTime(time, Units.SECOND, unit)` is the time over the unit's size. */
  lemma FromSeconds(time: real, u: Unit)
    ensures ConvertTime(time, Second, u) == time / Size(u)
  {
  }

  /** One step of the split: the first unit takes the whole units, the rest of the window the rest. */
  lemma SplitStep(time: real, m: seq<(Unit, real)>, k: int, digits: int)
    requires HasOwnSizes(m) && 0 <= k < |m| - 1
    ensures HasOwnSizes(m[k..]) && HasOwnSizes(m[k + 1..]) && m[k].1 > 0.0
    ensures Split(time, m[k..], digits) ==
            [(m[k].0, Whole(time, m[k].1))] + Split(Rest(time, m[k].1), m[k + 1..], digits)
  {
    assert forall i :: 0 <= i < |m[k..]| ==> m[k..][i] == m[k + i];
    assert m[k..][1..] == m[k + 1..];
  }

  lemma SplitFinal(time: real, m: seq<(Unit, real)>, digits: int)
    requires HasOwnSizes(m) && |m| > 0
    ensures HasOwnSizes(m[|m| - 1..]) && m[|m| - 1].1 > 0.0
    ensures Split(time, m[|m| - 1..], digits) == [(m[|m| - 1].0, RoundToDecimals(time / m[|m| - 1].1, digits))]
  {
    assert m[|m| - 1..] == [m[|m| - 1]];
  }

  lemma TotalAppend(c: Components, u: Unit, a: real, size: real)
    requires size == Size(u)
    ensures Total(c + [(u, a)]) == Total(c) + Weight(a, size)
  {
    assert (c + [(u, a)])[..|c|] == c;
  }

  /** The source's step, `Math.floor(convertTime(time, SECOND, key))` and `time -= amount * value`, is `Whole` and `Rest`. */
  lemma StepMatches(time: real, key: Unit, value: real, amount: real)
    requires value == Size(key) && amount == ConvertTime(time, Second, key).Floor as real
    ensures amount == Whole(time, value)
    ensures time - Weight(amount, value) == Rest(time, value)
  {
    FromSeconds(time, key);
  }

  /** The time the source's loop still holds when it reaches index k of m. */
  function Left(time: real, m: seq<(Unit, real)>, k: nat): real
    requires HasOwnSizes(m) && k < |m|
  {
    if k == 0 then time else Rest(Left(time, m, k - 1), m[k - 1].1)
  }

  /** The entry the source's loop pushes at index k: a whole amount, or the rounded rest at the last unit. */
  function Entry(time: real, m: seq<(Unit, real)>, k: nat, digits: int): (Unit, real)
    requires HasOwnSizes(m) && k < |m|
  {
    if k == |m| - 1 then (m[k].0, RoundToDecimals(Left(time, m, k) / m[k].1, digits))
    else (m[k].0, Whole(Left(time, m, k), m[k].1))
  }

  /** The entries the source's loop has pushed after k passes. */
  function Pushed(time: real, m: seq<(Unit, real)>, k: nat, digits: int): (c: Components)
    requires HasOwnSizes(m) && k <= |m|
  {
    if k == 0 then [] else Pushed(time, m, k - 1, digits) + [Entry(time, m, k - 1, digits)]
  }

  lemma Regroup<T>(p: seq<T>, e: T, tail: seq<T>)
    ensures p + ([e] + tail) == (p + [e]) + tail
  {
  }

  /** What the loop has pushed, followed by the split of what it still holds, is the split of the whole time. */
  lemma {:induction false} PushedThenSplit(time: real, m: seq<(Unit, real)>, k: nat, digits: int)
    requires HasOwnSizes(m) && k < |m|
    ensures HasOwnSizes(m[k..])
    ensures Pushed(time, m, k, digits) + Split(Left(time, m, k), m[k..], digits) == Split(time, m, digits)
  {
    if k == 0 {
      assert m[0..] == m;
    } else {
      PushedThenSplit(time, m, k - 1, digits);
      PushedStep(time, m, k, digits);
    }
  }

  /** One more pass moves the entry at k - 1 from the split of the rest to what has been pushed. */
  lemma PushedStep(time: real, m: seq<(Unit, real)>, k: nat, digits: int)
    requires HasOwnSizes(m) && 0 < k < |m|
    ensures HasOwnSizes(m[k - 1..]) && HasOwnSizes(m[k..])
    ensures Pushed(time, m, k - 1, digits) + Split(Left(time, m, k - 1), m[k - 1..], digits) ==
            Pushed(time, m, k, digits) + Split(Left(time, m, k), m[k..], digits)
  {
    var l := Left(time, m, k - 1);
    var e := Entry(time, m, k - 1, digits);
    SplitStep(l, m, k - 1, digits);
    Regroup(Pushed(time, m, k - 1, digits), e, Split(Rest(l, m[k - 1].1), m[k..], digits));
  }

  lemma PushedAll(time: real, m: seq<(Unit, real)>, digits: int)
    requires HasOwnSizes(m)
    ensures Pushed(time, m, |m|, digits) == Split(time, m, digits)
  {
    if |m| > 0 {
      var k := |m| - 1;
      PushedThenSplit(time, m, k, digits);
      SplitFinal(Left(time, m, k), m, digits);
      assert Split(Left(time, m, k), m[k..], digits) == [Entry(time, m, k, digits)];
    }
  }

  /** The loop conserves time: what it has pushed, weighed by unit size, plus what it still holds is the input. */
  lemma {:induction false} PushedTotal(time: real, m: seq<(Unit, real)>, k: nat, digits: int)
    requires HasOwnSizes(m) && k < |m|
    ensures Total(Pushed(time, m, k, digits)) + Left(time, m, k) == time
  {
    if k > 0 {
      PushedTotal(time, m, k - 1, digits);
      var l := Left(time, m, k - 1);
      TotalAppend(Pushed(time, m, k - 1, digits), m[k - 1].0, Whole(l, m[k - 1].1), m[k - 1].1);
    }
  }

  /** After a pass over a unit, less than one of that unit is left, and never a negative amount. */
  lemma LeftBound(time: real, m: seq<(Unit, real)>, k: nat)
    requires HasOwnSizes(m) && 0 < k < |m|
    ensures 0.0 <= Left(time, m, k) < m[k - 1].1
  {
    FloorStep(Left(time, m, k - 1), m[k - 1].1);
  }

  /** A pass of the source's loop at an index k before the last pushes the whole amount and leaves `Left` at k + 1. */
  lemma LoopStep(time: real, m: seq<(Unit, real)>, k: nat, digits: int, t: real, amount: real)
    requires HasOwnSizes(m) && k < |m| - 1 && t == Left(time, m, k)
    requires amount == Whole(t, m[k].1)
    ensures Pushed(time, m, k + 1, digits) == Pushed(time, m, k, digits) + [(m[k].0, amount)]
    ensures Left(time, m, k + 1) == t - Weight(amount, m[k].1)
  {
  }

  /** The last pass pushes the rounded rest, which completes `Split`. */
  lemma LoopLast(time: real, m: seq<(Unit, real)>, digits: int, t: real)
    requires HasOwnSizes(m) && |m| > 0 && t == Left(time, m, |m| - 1)
    ensures m[|m| - 1].1 > 0.0
    ensures Pushed(time, m, |m| - 1, digits) + [(m[|m| - 1].0, RoundToDecimals(t / m[|m| - 1].1, digits))] ==
            Split(time, m, digits)
  {
    PushedAll(time, m, digits);
  }

  /** `getTimeComponents`: the loop over the unit window, proved to compute `Split`. */
  method GetTimeComponents(time: real, options: Record<Value>) returns (timeComponents: Components)
    requires UnitsAreValid(options) && Field(options, "precision").Num?
    ensures timeComponents == Split(time, GetUnitTimeMap(options), MathRound(Field(options, "precision").x))
  {
    var unitTimeMap := GetUnitTimeMap(options);
    WindowHasOwnSizes(options);
    var digits := MathRound(Field(options, "precision").x);
    timeComponents := SplitLoop(time, unitTimeMap, digits);
  }

  /** The `forEach` of `getTimeComponents` over a window m: the time left shrinks as entries are pushed. */
  method SplitLoop(time: real, m: seq<(Unit, real)>, digits: int) returns (timeComponents: Components)
    requires HasOwnSizes(m)
    ensures timeComponents == Split(time, m, digits)
  {
    var t := time;
    timeComponents := [];
    var index := 0;
    while index < |m|
      invariant 0 <= index <= |m|
      invariant index < |m| ==> timeComponents == Pushed(time, m, index, digits) && t == Left(time, m, index)
      invariant index == |m| ==> timeComponents == Split(time, m, digits)
    {
      var key, value := m[index].0, m[index].1;
      if index < |m| - 1 {
        var amount := ConvertTime(t, Second, key).Floor as real;
        StepMatches(t, key, value, amount);
        LoopStep(time, m, index, digits, t, amount);
        timeComponents := timeComponents + [(key, amount)];
        t := t - Weight(amount, value);
      } else {
        LoopLast(time, m, digits, t);
        timeComponents := timeComponents + [(key, RoundToDecimals(t / value, digits))];
      }
      index := index + 1;
    }
  }

  /** `Number.MAX_VALUE`, (2^53 - 1) * 2^971: the starting minimum of `getBounds`, above every index. */
  const MaxValue: int := 179769313486231570814527423731704356798070567525844996598917476803157260780028538760589558632766878171540458953514382464234321326889464182768467546703537516986049910576551282076245490090389328944075868508455133942304583236903222948165808559332123348274797826204144723168738177180919299881250404026184124858368

  /** The indices of the first and the last non-zero amount; `min > max` when there is none. */
  datatype Bounds = Bounds(min: int, max: int)

  /** Every amount at an index in [lo, hi) is zero. */
  predicate ZeroIn(c: Components, lo: int, hi: int) {
    forall i :: lo <= i < hi && 0 <= i < |c| ==> c[i].1 == 0.0
  }

  predicate AllZero(c: Components) {
    ZeroIn(c, 0, |c|)
  }

  /** Zeros at given indices of a sequence are zeros at the shifted indices of its suffix or prefix. */
  lemma ZeroInSlices(c: Components, k: int, lo: int, hi: int)
    requires 0 <= k <= |c|
    ensures ZeroIn(c, k + lo, k + hi) ==> ZeroIn(c[k..], lo, hi)
    ensures ZeroIn(c, lo, hi) ==> ZeroIn(c[..k], lo, hi)
    ensures ZeroIn(c[..k], lo, hi) && hi <= k ==> ZeroIn(c, lo, hi)
  {
    var d, e := c[k..], c[..k];
    if ZeroIn(c, k + lo, k + hi) {
      forall i | lo <= i < hi && 0 <= i < |d| ensures d[i].1 == 0.0 { assert d[i] == c[k + i]; }
    }
    if ZeroIn(c, lo, hi) {
      forall i | lo <= i < hi && 0 <= i < |e| ensures e[i].1 == 0.0 { assert e[i] == c[i]; }
    }
    if ZeroIn(e, lo, hi) && hi <= k {
      forall i | lo <= i < hi && 0 <= i < |c| ensures c[i].1 == 0.0 { assert e[i] == c[i]; }
    }
  }

  function Min(a: int, b: int): int { if a <= b then a else b }

  function Max(a: int, b: int): int { if a >= b then a else b }

  /** The bounds `getBounds` finds: the first and the last non-zero index, or `{Number.MAX_VALUE, 0}`. */
  predicate BoundsOf(c: Components, b: Bounds) {
    if AllZero(c) then b == Bounds(MaxValue, 0)
    else 0 <= b.min <= b.max < |c| && c[b.min].1 != 0.0 && c[b.max].1 != 0.0 &&
         ZeroIn(c, 0, b.min) && ZeroIn(c, b.max + 1, |c|)
  }

  /**
   * `getBounds`: the reduce that starts from `{min: Number.MAX_VALUE, max: 0}` and widens the bounds
   * to every index whose amount is not zero.  With no non-zero amount the bounds stay inverted;
   * otherwise they are the first and the last non-zero index.
   */
  function GetBounds(c: Components): (b: Bounds)
    requires |c| <= |Units|
    ensures BoundsOf(c, b)
  {
    if |c| == 0 then Bounds(MaxValue, 0)
    else
      var index := |c| - 1;
      var acc := GetBounds(c[..index]);
      BoundsStep(c, acc);
      if c[index].1 == 0.0 then acc
      else Bounds(Min(index, acc.min), Max(index, acc.max))
  }

  /** One step of the reduce keeps the bounds right for the longer prefix. */
  lemma BoundsStep(c: Components, acc: Bounds)
    requires 0 < |c| <= |Units| && BoundsOf(c[..|c| - 1], acc)
    ensures c[|c| - 1].1 == 0.0 ==> BoundsOf(c, acc)
    ensures c[|c| - 1].1 != 0.0 ==> BoundsOf(c, Bounds(Min(|c| - 1, acc.min), Max(|c| - 1, acc.max)))
  {
    var index := |c| - 1;
    var p := c[..index];
    ZeroInSlices(c, index, 0, index);
    ZeroInSlices(c, index, 0, |c|);
    if AllZero(p) {
      assert ZeroIn(c, 0, index);
      if c[index].1 == 0.0 {
        assert AllZero(c);
      } else {
        assert !AllZero(c);
      }
    } else {
      assert c[acc.min] == p[acc.min] && c[acc.max] == p[acc.max];
      ZeroInSlices(c, index, 0, acc.min);
      ZeroInSlices(c, index, acc.max + 1, index);
      assert !AllZero(c);
    }
  }

  /** `getFilteredTimeComponents`: the components whose index lies within the bounds. */
  function GetFilteredTimeComponents(c: Components, b: Bounds): (r: Components)
    ensures 0 <= b.min <= b.max < |c| ==> r == c[b.min..b.max + 1]
    ensures b.min > b.max ==> r == []
  {
    KeepIndexRange(c, b.min, b.max)
  }

  /** The leading zero amounts removed, one at a time. */
  function DropLeadingZeros(c: Components): Components {
    if |c| > 0 && c[0].1 == 0.0 then DropLeadingZeros(c[1..]) else c
  }

  /** The trailing zero amounts removed, one at a time. */
  function DropTrailingZeros(c: Components): Components {
    if |c| > 0 && c[|c| - 1].1 == 0.0 then DropTrailingZeros(c[..|c| - 1]) else c
  }

  lemma {:induction false} DropLeadingZerosAt(c: Components, k: nat)
    requires k <= |c| && ZeroIn(c, 0, k) && (k < |c| ==> c[k].1 != 0.0)
    ensures DropLeadingZeros(c) == c[k..]
  {
    if k > 0 {
      assert c[0].1 == 0.0;
      ZeroInSlices(c, 1, 0, k - 1);
      assert c[1..][k - 1..] == c[k..];
      DropLeadingZerosAt(c[1..], k - 1);
    }
  }

  lemma {:induction false} DropTrailingZerosAt(c: Components, k: nat)
    requires k <= |c| && ZeroIn(c, k, |c|) && (0 < k ==> c[k - 1].1 != 0.0)
    ensures DropTrailingZeros(c) == c[..k]
    decreases |c|
  {
    if k < |c| {
      var c' := c[..|c| - 1];
      assert c[|c| - 1].1 == 0.0;
      ZeroInSlices(c, |c| - 1, k, |c| - 1);
      assert c'[..k] == c[..k];
      DropTrailingZerosAt(c', k);
    }
  }

  /**
   * Filtering by the bounds drops exactly the leading and the trailing zero amounts: what is left is
   * the contiguous run from the first to the last non-zero amount, zeros inside it included, and
   * nothing at all when every amount is zero.
   */
  lemma TrimIsDropZeros(c: Components)
    requires |c| <= |Units|
    ensures GetFilteredTimeComponents(c, GetBounds(c)) == DropTrailingZeros(DropLeadingZeros(c))
    ensures GetFilteredTimeComponents(c, GetBounds(c)) == [] <==> AllZero(c)
    ensures GetFilteredTimeComponents(c, GetBounds(c)) != [] ==>
              GetFilteredTimeComponents(c, GetBounds(c))[0].1 != 0.0 &&
              GetFilteredTimeComponents(c, GetBounds(c))[|GetFilteredTimeComponents(c, GetBounds(c))| - 1].1 != 0.0
  {
    var b := GetBounds(c);
    if AllZero(c) {
      DropLeadingZerosAt(c, |c|);
      DropTrailingZerosAt([], 0);
    } else {
      TrimNonZero(c, b);
    }
  }

  lemma TrimNonZero(c: Components, b: Bounds)
    requires 0 <= b.min <= b.max < |c| && c[b.min].1 != 0.0 && c[b.max].1 != 0.0
    requires ZeroIn(c, 0, b.min) && ZeroIn(c, b.max + 1, |c|)
    ensures DropTrailingZeros(DropLeadingZeros(c)) == c[b.min..b.max + 1]
  {
    DropLeadingZerosAt(c, b.min);
    var d := c[b.min..];
    var k := b.max + 1 - b.min;
    ZeroInSlices(c, b.min, k, |d|);
    assert d[k - 1] == c[b.max];
    DropTrailingZerosAt(d, k);
    assert d[..k] == c[b.min..b.max + 1];
  }

  lemma {:induction false} TotalConcat(a: Components, b: Components)
    ensures Total(a + b) == Total(a) + Total(b)
    decreases |b|
  {
    if |b| == 0 {
      assert a + b == a;
    } else {
      var b' := b[..|b| - 1];
      assert (a + b)[..|a + b| - 1] == a + b';
      TotalConcat(a, b');
    }
  }

  lemma {:induction false} TotalAllZero(c: Components)
    requires AllZero(c)
    ensures Total(c) == 0.0
  {
    if |c| > 0 {
      var p := c[..|c| - 1];
      ZeroInSlices(c, |c| - 1, 0, |p|);
      assert Weight(c[|c| - 1].1, Size(c[|c| - 1].0)) == 0.0;
      TotalAllZero(p);
    }
  }

  /** Trimming drops only zero amounts, so the kept components still weigh the whole duration. */
  lemma TrimKeepsTotal(c: Components)
    requires |c| <= |Units|
    ensures Total(GetFilteredTimeComponents(c, GetBounds(c))) == Total(c)
  {
    FilterKeepsTotal(c, GetBounds(c));
  }

  lemma FilterKeepsTotal(c: Components, b: Bounds)
    requires BoundsOf(c, b)
    ensures Total(GetFilteredTimeComponents(c, b)) == Total(c)
  {
    if AllZero(c) {
      TotalAllZero(c);
    } else {
      SliceKeepsTotal(c, b.min, b.max);
    }
  }

  lemma SliceKeepsTotal(c: Components, lo: int, hi: int)
    requires 0 <= lo <= hi < |c| && ZeroIn(c, 0, lo) && ZeroIn(c, hi + 1, |c|)
    ensures Total(c[lo..hi + 1]) == Total(c)
  {
    var lead, kept, trail := c[..lo], c[lo..hi + 1], c[hi + 1..];
    assert c == lead + kept + trail;
    ZeroInSlices(c, lo, 0, lo);
    ZeroInSlices(c, hi + 1, 0, |trail|);
    TotalAllZero(lead);
    TotalAllZero(trail);
    TotalConcat(lead + kept, trail);
    TotalConcat(lead, kept);
  }

  /** The shape of a `Partial<I18n>` object: unit names map to words, "and" to a word, nothing else. */
  predicate IsPartialI18n(i18n: Record<I18nEntry>) {
    DistinctKeys(i18n) &&
    forall i :: 0 <= i < |i18n| ==>
      if i18n[i].0 == "and" then i18n[i].1.Conjunction? else i18n[i].0 in UnitNames && i18n[i].1.UnitWords?
  }

  /** Every unit has words in the dictionary. */
  predicate HasUnitWords(i18n: Record<I18nEntry>) {
    forall u: Unit :: Get(i18n, Name(u)).Some? && Get(i18n, Name(u)).value.UnitWords?
  }

  /** `i18n[unit]`. */
  function WordsOf(i18n: Record<I18nEntry>, u: Unit): Words
    requires HasUnitWords(i18n)
  {
    Get(i18n, Name(u)).value.words
  }

  /** The words a dictionary gives a unit of its own, if any. */
  function OwnWords(i18n: Record<I18nEntry>, u: Unit): Option<Words> {
    var g := Get(i18n, Name(u));
    if g.Some? && g.value.UnitWords? then Some(g.value.words) else None
  }

  /** The words the merged dictionary holds for a unit: the override's pair if it has one, else the default. */
  lemma MergedWords(i18n: Record<I18nEntry>, u: Unit)
    requires IsPartialI18n(i18n)
    ensures HasUnitWords(MergedDefaults(DefaultI18n, i18n))
    ensures WordsOf(MergedDefaults(DefaultI18n, i18n), u) == OwnWords(i18n, u).GetOr(Words(Name(u), None))
  {
    var merged := MergedDefaults(DefaultI18n, i18n);
    forall v: Unit ensures Get(merged, Name(v)).Some? && Get(merged, Name(v)).value.UnitWords? {
      MergedWordsAt(i18n, v);
    }
    MergedWordsAt(i18n, u);
  }

  /** No unit is named "and", so the glue never shadows a unit's words. */
  lemma NameIsNotAnd(u: Unit)
    ensures Name(u) != "and"
  {
    assert Name(u)[0] != "and"[0];
  }

  lemma MergedWordsAt(i18n: Record<I18nEntry>, u: Unit)
    requires IsPartialI18n(i18n)
    ensures var g := Get(MergedDefaults(DefaultI18n, i18n), Name(u));
      g.Some? && g.value.UnitWords? &&
      g == (if Get(i18n, Name(u)).Some? then Get(i18n, Name(u)) else Some(UnitWords(Words(Name(u), None))))
  {
    MergedDefaultsGet(DefaultI18n, i18n, Name(u));
    DefaultI18nValues(u);
    var g := Get(i18n, Name(u));
    if g.Some? {
      NameIsNotAnd(u);
      var i :| 0 <= i < |i18n| && i18n[i] == (Name(u), g.value);
      assert i18n[i].0 != "and";
    }
  }

  /** `i18n.and` of the caller's dictionary: the glue, when the caller gives one. */
  function Glue(i18n: Record<I18nEntry>): Option<string> {
    var entry := Get(i18n, "and");
    if entry.Some? && entry.value.Conjunction? then Some(entry.value.word) else None
  }

  /** `pluralise(value, i18n[key].singular, i18n[key].plural)` for one component. */
  function ComponentPhrase(entry: (Unit, real), i18n: Record<I18nEntry>): string
    requires HasUnitWords(i18n)
  {
    Pluralise(entry.1, WordsOf(i18n, entry.0).singular, WordsOf(i18n, entry.0).plural, true)
  }

  /** `getFormattedTimeComponents`: one pluralised phrase per component, in order, with the unit's words. */
  function GetFormattedTimeComponents(c: Components, i18n: Record<I18nEntry>): (r: seq<string>)
    requires HasUnitWords(i18n)
    ensures |r| == |c|
    ensures forall i :: 0 <= i < |c| ==> r[i] == ComponentPhrase(c[i], i18n)
  {
    seq(|c|, i requires 0 <= i < |c| => ComponentPhrase(c[i], i18n))
  }

  /** The components of a duration in seconds over the window and precision of valid merged options. */
  function TimeComponentsOf(seconds: real, options: Record<Value>): (c: Components)
    requires UnitsAreValid(options) && Field(options, "precision").Num?
    ensures |c| == |GetUnitTimeMap(options)| <= |Units|
    ensures forall i :: 0 <= i < |c| ==> c[i].0 == GetUnitTimeMap(options)[i].0
  {
    UnitWindow(options);
    Split(seconds, GetUnitTimeMap(options), MathRound(Field(options, "precision").x))
  }

  /** `convertTime(time, mergedOptions.inputUnit, Units.SECOND)`. */
  function InSeconds(time: real, options: Record<Value>): real
    requires ValidUnit(Field(options, "inputUnit"))
  {
    ConvertTime(time, UnitNamed(Field(options, "inputUnit")), Second)
  }

  /** What `pluralise(0, mergedI18n.second.singular, mergedI18n.second.plural)` says. */
  function ZeroPhrase(i18n: Record<I18nEntry>): string
    requires IsPartialI18n(i18n)
  {
    MergedWords(i18n, Second);
    var w := WordsOf(MergedDefaults(DefaultI18n, i18n), Second);
    Pluralise(0.0, w.singular, w.plural, true)
  }

  /**
   * `formatTime`: the joined validation errors when the arguments are invalid (the thrown Error's
   * message); otherwise the phrases of the trimmed components joined into a sentence, or the zero
   * phrase when every component is zero.
   */
  function FormattedTime(time: Value, options: Record<Value>, i18n: Record<I18nEntry>): (r: Result<string, string>)
    requires IsPartialI18n(i18n)
    ensures r.Failure? <==> !(time.Num? && WellFormedOptions(MergedDefaults(DefaultOptions, options)))
    ensures r.Failure? ==> r.error == Join(ValidateArguments(time, MergedDefaults(DefaultOptions, options)), "\n")
  {
    var mergedOptions := MergedDefaults(DefaultOptions, options);
    var errors := ValidateArguments(time, mergedOptions);
    if errors != [] then Failure(Join(errors, "\n"))
    else Success(Phrased(TimeComponentsOf(InSeconds(time.x, mergedOptions), mergedOptions), i18n))
  }

  /**
   * The text for the components of a duration: the phrases of the components within their bounds
   * joined with the caller's "and", or the zero phrase when the bounds keep nothing.
   */
  function Phrased(c: Components, i18n: Record<I18nEntry>): string
    requires |c| <= |Units| && IsPartialI18n(i18n)
  {
    var kept := GetFilteredTimeComponents(c, GetBounds(c));
    MergedWords(i18n, Second);
    if |kept| > 0 then HumanReadableList(GetFormattedTimeComponents(kept, MergedDefaults(DefaultI18n, i18n)), Glue(i18n))
    else ZeroPhrase(i18n)
  }

  /** A time that is not a number is refused with a message that starts with the time error. */
  lemma FormattedNotANumber(time: Value, options: Record<Value>, i18n: Record<I18nEntry>)
    requires IsPartialI18n(i18n) && !time.Num?
    ensures FormattedTime(time, options, i18n).Failure?
    ensures var e := FormattedTime(time, options, i18n).error; |TimeError| <= |e| && e[..|TimeError|] == TimeError
  {
    var errors := ValidateArguments(time, MergedDefaults(DefaultOptions, options));
    JoinStartsWithFirst(errors, "\n");
  }

  /** The joined text begins with the first item. */
  lemma JoinStartsWithFirst(list: seq<string>, sep: string)
    requires |list| > 0
    ensures |list[0]| <= |Join(list, sep)| && Join(list, sep)[..|list[0]|] == list[0]
  {
    if |list| > 1 {
      assert Join(list, sep) == list[0] + (sep + Join(list[1..], sep));
    }
  }

  /** `formatTime` itself: merge, validate, convert, run the component loop, trim and phrase. */
  method FormatTime(time: Value, options: Record<Value>, i18n: Record<I18nEntry>) returns (r: Result<string, string>)
    requires IsPartialI18n(i18n)
    ensures r == FormattedTime(time, options, i18n)
  {
    var mergedOptions := MergedDefaults(DefaultOptions, options);
    var mergedI18n := MergedDefaults(DefaultI18n, i18n);
    var argumentsErrors := ValidateArguments(time, mergedOptions);
    if |argumentsErrors| > 0 {
      return Failure(Join(argumentsErrors, "\n"));
    }
    var convertedTime := ConvertTime(time.x, UnitNamed(Field(mergedOptions, "inputUnit")), Second);
    var timeComponents := GetTimeComponents(convertedTime, mergedOptions);
    assert timeComponents == TimeComponentsOf(InSeconds(time.x, mergedOptions), mergedOptions);
    var bounds := GetBounds(timeComponents);
    var filteredTimeComponents := GetFilteredTimeComponents(timeComponents, bounds);
    MergedWords(i18n, Second);
    if |filteredTimeComponents| > 0 {
      r := Success(HumanReadableList(GetFormattedTimeComponents(filteredTimeComponents, mergedI18n), Glue(i18n)));
    } else {
      r := Success(ZeroPhrase(i18n));
    }
  }

  /** Without words of its own for "second", the zero phrase is "0 seconds". */
  lemma ZeroPhraseDefault(i18n: Record<I18nEntry>)
    requires IsPartialI18n(i18n) && OwnWords(i18n, Second).None?
    ensures ZeroPhrase(i18n) == "0 seconds"
  {
    MergedWords(i18n, Second);
    ZeroSeconds();
  }

  /** With words of its own for "second", the zero phrase uses them. */
  lemma ZeroPhraseOwn(i18n: Record<I18nEntry>)
    requires IsPartialI18n(i18n) && OwnWords(i18n, Second).Some?
    ensures ZeroPhrase(i18n) == Pluralise(0.0, OwnWords(i18n, Second).value.singular,
                                          OwnWords(i18n, Second).value.plural, true)
  {
    MergedWords(i18n, Second);
  }

  lemma ZeroSeconds()
    ensures Pluralise(0.0, Name(Second), None, true) == "0 seconds"
  {
    NumberTextOfInteger(0);
    assert NatText(0) == "0";
  }

  /** A zero duration, in any unit and over any window, formats as the zero phrase. */
  lemma FormattedZero(options: Record<Value>, i18n: Record<I18nEntry>)
    requires IsPartialI18n(i18n) && WellFormedOptions(MergedDefaults(DefaultOptions, options))
    ensures FormattedTime(Num(0.0), options, i18n) == Success(ZeroPhrase(i18n))
  {
    var mo := MergedDefaults(DefaultOptions, options);
    assert InSeconds(0.0, mo) == 0.0;
    var c := TimeComponentsOf(0.0, mo);
    WindowHasOwnSizes(mo);
    SplitZero(GetUnitTimeMap(mo), MathRound(Field(mo, "precision").x));
    assert AllZero(c);
    TrimIsDropZeros(c);
  }

  /** For valid arguments, the zero phrase is what a duration whose components are all zero formats as. */
  lemma FormattedAllZero(t: real, options: Record<Value>, i18n: Record<I18nEntry>)
    requires IsPartialI18n(i18n) && WellFormedOptions(MergedDefaults(DefaultOptions, options))
    requires AllZero(TimeComponentsOf(InSeconds(t, MergedDefaults(DefaultOptions, options)), MergedDefaults(DefaultOptions, options)))
    ensures FormattedTime(Num(t), options, i18n) == Success(ZeroPhrase(i18n))
  {
    var mo := MergedDefaults(DefaultOptions, options);
    PhrasedZero(TimeComponentsOf(InSeconds(t, mo), mo), i18n);
  }

  /**
   * For valid arguments with some non-zero component, the sentence lists, in window order, the phrases
   * of the components from the first to the last non-zero one, zeros between them included, glued
   * with the caller's "and".
   */
  lemma FormattedSentence(t: real, options: Record<Value>, i18n: Record<I18nEntry>)
    requires IsPartialI18n(i18n) && WellFormedOptions(MergedDefaults(DefaultOptions, options))
    requires !AllZero(TimeComponentsOf(InSeconds(t, MergedDefaults(DefaultOptions, options)), MergedDefaults(DefaultOptions, options)))
    ensures var mo := MergedDefaults(DefaultOptions, options);
            var kept := DropTrailingZeros(DropLeadingZeros(TimeComponentsOf(InSeconds(t, mo), mo)));
            HasUnitWords(MergedDefaults(DefaultI18n, i18n)) &&
            kept != [] && kept[0].1 != 0.0 && kept[|kept| - 1].1 != 0.0 &&
            FormattedTime(Num(t), options, i18n) ==
              Success(HumanReadableList(GetFormattedTimeComponents(kept, MergedDefaults(DefaultI18n, i18n)), Glue(i18n)))
  {
    var mo := MergedDefaults(DefaultOptions, options);
    PhrasedKept(TimeComponentsOf(InSeconds(t, mo), mo), i18n);
  }

  /** With every component zero, the bounds keep nothing and the text is the zero phrase. */
  lemma PhrasedZero(c: Components, i18n: Record<I18nEntry>)
    requires |c| <= |Units| && IsPartialI18n(i18n) && AllZero(c)
    ensures Phrased(c, i18n) == ZeroPhrase(i18n)
  {
    TrimIsDropZeros(c);
  }

  /** Otherwise the text lists the phrases of the components with the leading and trailing zeros dropped. */
  lemma PhrasedKept(c: Components, i18n: Record<I18nEntry>)
    requires |c| <= |Units| && IsPartialI18n(i18n) && !AllZero(c)
    ensures var kept := DropTrailingZeros(DropLeadingZeros(c));
            HasUnitWords(MergedDefaults(DefaultI18n, i18n)) &&
            kept != [] && kept[0].1 != 0.0 && kept[|kept| - 1].1 != 0.0 &&
            Phrased(c, i18n) == HumanReadableList(GetFormattedTimeComponents(kept, MergedDefaults(DefaultI18n, i18n)), Glue(i18n))
  {
    TrimIsDropZeros(c);
    MergedWords(i18n, Second);
  }

  /**
   * The kept components, weighed by their unit sizes, give back the input converted to seconds, up to
   * the rounding of the finest unit of the window to the precision's decimals.
   */
  lemma FormattedMagnitude(t: real, options: Record<Value>)
    requires WellFormedOptions(MergedDefaults(DefaultOptions, options))
    ensures var mo := MergedDefaults(DefaultOptions, options);
            var c := TimeComponentsOf(InSeconds(t, mo), mo);
            var kept := GetFilteredTimeComponents(c, GetBounds(c));
            var h := Weight(0.5 / Pow10(MathRound(Field(mo, "precision").x)), Size(UnitNamed(Field(mo, "minUnit"))));
            var seconds := Weight(t, Size(UnitNamed(Field(mo, "inputUnit"))));
            seconds - h < Total(kept) <= seconds + h
  {
    var mo := MergedDefaults(DefaultOptions, options);
    var m := GetUnitTimeMap(mo);
    var digits := MathRound(Field(mo, "precision").x);
    var seconds := InSeconds(t, mo);
    var c := TimeComponentsOf(seconds, mo);
    assert c == Split(seconds, m, digits);
    UnitWindow(mo);
    assert m[|m| - 1].1 == Size(UnitNamed(Field(mo, "minUnit")));
    InSecondsScales(t, mo);
    KeptMagnitude(seconds, m, digits);
  }

  /** The split of a time over a window, trimmed of its outer zeros, weighs the time up to the last rounding. */
  lemma KeptMagnitude(time: real, m: seq<(Unit, real)>, digits: int)
    requires 0 < |m| <= |Units| && HasOwnSizes(m)
    ensures var c := Split(time, m, digits);
            var h := Weight(0.5 / Pow10(digits), m[|m| - 1].1);
            time - h < Total(GetFilteredTimeComponents(c, GetBounds(c))) <= time + h
  {
    SplitTotal(time, m, digits);
    TrimKeepsTotal(Split(time, m, digits));
  }

  /** The input is converted to seconds by the size of the input unit. */
  lemma InSecondsScales(t: real, options: Record<Value>)
    requires ValidUnit(Field(options, "inputUnit"))
    ensures InSeconds(t, options) == Weight(t, Size(UnitNamed(Field(options, "inputUnit"))))
  {
    ToSeconds(t, UnitNamed(Field(options, "inputUnit")));
  }

  lemma ToSeconds(t: real, u: Unit)
    ensures ConvertTime(t, u, Second) == Weight(t, Size(u))
  {
    var x := t * Size(u);
    assert Size(Second) == 1.0;
    assert x / 1.0 == x;
  }

  /** `formatTime(0)` is "0 seconds" whenever the dictionary has no words of its own for "second". */
  lemma FormattedZeroSeconds(options: Record<Value>, i18n: Record<I18nEntry>)
    requires IsPartialI18n(i18n) && WellFormedOptions(MergedDefaults(DefaultOptions, options))
    requires OwnWords(i18n, Second).None?
    ensures FormattedTime(Num(0.0), options, i18n) == Success("0 seconds")
  {
    FormattedZero(options, i18n);
    ZeroPhraseDefault(i18n);
  }

  /** The default options are well-formed, so every call with them succeeds on a number. */
  lemma DefaultsFormat(t: real, i18n: Record<I18nEntry>)
    requires IsPartialI18n(i18n)
    ensures FormattedTime(Num(t), [], i18n).Success?
  {
    DefaultOptionsAreValid();
  }
}
