/**
 * The helpers of src/utils.ts: the default merge, the list-to-sentence
 * joiner, the singular/plural selector, rounding to a number of decimals and
 * unit conversion.
 */
module Utils {
  import opened Wrappers
  import opened Records
  import opened Constants
  import opened Numerals

  /** `{...defaults, ...overrides}`: each override entry is set in turn on a copy of the defaults. */
  function MergedDefaults<V>(defaults: Record<V>, overrides: Record<V>): Record<V>
    decreases |overrides|
  {
    if |overrides| == 0 then defaults
    else MergedDefaults(Set(defaults, overrides[0].0, overrides[0].1), overrides[1..])
  }

  /** The keys of `ks` that are not in `known`, in order. */
  function NewKeys(ks: seq<string>, known: seq<string>): (r: seq<string>)
    ensures forall k :: k in r <==> k in ks && k !in known
  {
    if |ks| == 0 then []
    else (if ks[0] in known then [] else [ks[0]]) + NewKeys(ks[1..], known)
  }

  /** A key present in the overrides takes the override's value wholesale; any other key keeps the default's. */
  lemma {:induction false} MergedDefaultsGet<V>(defaults: Record<V>, overrides: Record<V>, k: string)
    requires DistinctKeys(overrides)
    ensures Get(MergedDefaults(defaults, overrides), k) ==
            if k in Keys(overrides) then Get(overrides, k) else Get(defaults, k)
    decreases |overrides|
  {
    if |overrides| > 0 {
      TailDistinct(overrides);
      MergedDefaultsGet(Set(defaults, overrides[0].0, overrides[0].1), overrides[1..], k);
      SetGet(defaults, overrides[0].0, overrides[0].1, k);
    }
  }

  /** Merging into an object with distinct keys gives an object with distinct keys. */
  lemma {:induction false} MergedDefaultsDistinct<V>(defaults: Record<V>, overrides: Record<V>)
    requires DistinctKeys(defaults)
    ensures DistinctKeys(MergedDefaults(defaults, overrides))
    decreases |overrides|
  {
    if |overrides| > 0 {
      SetKeepsDistinct(defaults, overrides[0].0, overrides[0].1);
      MergedDefaultsDistinct(Set(defaults, overrides[0].0, overrides[0].1), overrides[1..]);
    }
  }

  lemma {:induction false} NewKeysSkip(ks: seq<string>, known: seq<string>, k: string)
    requires k !in ks
    ensures NewKeys(ks, known + [k]) == NewKeys(ks, known)
  {
    if |ks| > 0 {
      assert ks[0] in known + [k] <==> ks[0] in known;
      NewKeysSkip(ks[1..], known, k);
    }
  }

  /** The merged keys are the default keys in their order, then the new override keys in theirs. */
  lemma {:induction false} MergedDefaultsKeys<V>(defaults: Record<V>, overrides: Record<V>)
    requires DistinctKeys(overrides)
    ensures Keys(MergedDefaults(defaults, overrides)) == Keys(defaults) + NewKeys(Keys(overrides), Keys(defaults))
    decreases |overrides|
  {
    if |overrides| == 0 {
      assert Keys(defaults) + [] == Keys(defaults);
    } else {
      var k0, v0 := overrides[0].0, overrides[0].1;
      TailDistinct(overrides);
      SetKeys(defaults, k0, v0);
      MergedDefaultsKeys(Set(defaults, k0, v0), overrides[1..]);
      KeysStep(Keys(defaults), k0, Keys(overrides[1..]),
               Keys(MergedDefaults(defaults, overrides)), Keys(Set(defaults, k0, v0)));
    }
  }

  /** One override key merged: the new keys of the whole override list, from those of its tail. */
  lemma KeysStep(known: seq<string>, k0: string, tail: seq<string>, merged: seq<string>, setKeys: seq<string>)
    requires setKeys == if k0 in known then known else known + [k0]
    requires k0 !in tail
    requires merged == setKeys + NewKeys(tail, setKeys)
    ensures merged == known + NewKeys([k0] + tail, known)
  {
    NewKeysCons(k0, tail, known);
    if k0 !in known {
      NewKeysSkip(tail, known, k0);
      AppendRegroup(known, [k0], NewKeys(tail, known));
    }
  }

  lemma NewKeysCons(k0: string, tail: seq<string>, known: seq<string>)
    ensures NewKeys([k0] + tail, known) == (if k0 in known then [] else [k0]) + NewKeys(tail, known)
  {
    assert ([k0] + tail)[1..] == tail;
  }

  lemma AppendRegroup<T>(a: seq<T>, b: seq<T>, c: seq<T>)
    ensures a + b + c == a + (b + c)
  {
  }

  /** `list.join(sep)`. */
  function Join(list: seq<string>, sep: string): string {
    if |list| == 0 then ""
    else if |list| == 1 then list[0]
    else list[0] + sep + Join(list[1..], sep)
  }

  /** `getHumanReadableList(list, glue)`: commas between the items, the glue (default "and") before the last. */
  function HumanReadableList(list: seq<string>, glue: Option<string>): string {
    var g := glue.GetOr("and");
    if |list| > 1 then Join(list[..|list| - 1], ", ") + " " + g + " " + list[|list| - 1]
    else if |list| == 1 then list[0]
    else ""
  }

  /** The sentence for each list length, the longer ones built item by item from the front. */
  lemma HumanReadableListSteps(list: seq<string>, glue: Option<string>)
    ensures |list| == 0 ==> HumanReadableList(list, glue) == ""
    ensures |list| == 1 ==> HumanReadableList(list, glue) == list[0]
    ensures |list| == 2 ==> HumanReadableList(list, glue) == list[0] + " " + glue.GetOr("and") + " " + list[1]
    ensures |list| >= 3 ==> HumanReadableList(list, glue) == list[0] + ", " + HumanReadableList(list[1..], glue)
  {
    if |list| == 2 {
      assert Join(list[..1], ", ") == list[0];
    } else if |list| >= 3 {
      HumanReadableListCons(list, glue);
    }
  }

  lemma HumanReadableListCons(list: seq<string>, glue: Option<string>)
    requires |list| >= 3
    ensures HumanReadableList(list, glue) == list[0] + ", " + HumanReadableList(list[1..], glue)
  {
    var init, g, last := list[..|list| - 1], glue.GetOr("and"), list[|list| - 1];
    assert init[1..] == list[1..][..|list[1..]| - 1];
    var j := Join(init[1..], ", ");
    assert Join(init, ", ") == list[0] + ", " + j;
    assert HumanReadableList(list[1..], glue) == j + " " + g + " " + last;
    AppendRegroup(list[0] + ", ", j, " " + g + " " + last);
    assert HumanReadableList(list, glue) == list[0] + ", " + j + (" " + g + " " + last);
  }


  lemma HumanReadableListExamples()
    ensures HumanReadableList(["apples", "pears", "bananas"], None) == "apples, pears and bananas"
  {
    HumanReadableListSteps(["apples", "pears", "bananas"], None);
    HumanReadableListSteps(["pears", "bananas"], None);
  }

  lemma HumanReadableListShortExamples()
    ensures HumanReadableList(["mangoes", "guavas"], None) == "mangoes and guavas"
    ensures HumanReadableList(["quinces"], None) == "quinces"
    ensures HumanReadableList([], None) == ""
    ensures HumanReadableList(["strawberries", "raspberries"], Some("or")) == "strawberries or raspberries"
  {
    HumanReadableListSteps(["mangoes", "guavas"], None);
    HumanReadableListSteps(["strawberries", "raspberries"], Some("or"));
  }

  /** `pluralise(number, singular, plural, includeNumber)`; a missing plural is singular + "s". */
  function Pluralise(number: real, singular: string, plural: Option<string>, includeNumber: bool): string {
    var p := plural.GetOr(singular + "s");
    if includeNumber then (if number == 1.0 then "1 " + singular else NumberText(number) + " " + p)
    else (if number == 1.0 then singular else p)
  }

  /**
   * Exactly one is singular, everything else (0, fractions, negatives) plural with the
   * default plural singular + "s"; with the number, the phrase is the number's text, a space and the word.
   */
  lemma PluraliseWord(number: real, singular: string, plural: Option<string>)
    ensures Pluralise(number, singular, plural, false) ==
            if number == 1.0 then singular else plural.GetOr(singular + "s")
    ensures Pluralise(number, singular, plural, true) ==
            NumberText(number) + " " + Pluralise(number, singular, plural, false)
  {
    NumberTextOfInteger(1);
    assert NatText(1) == "1";
  }

  lemma PluraliseExamples()
    ensures Pluralise(0.0, "location", None, true) == "0 locations"
    ensures Pluralise(1.0, "location", None, true) == "1 location"
    ensures Pluralise(2.0, "location", None, true) == "2 locations"
  {
    NumberTextOfInteger(0);
    NumberTextOfInteger(2);
    assert NatText(0) == "0" && NatText(2) == "2";
  }

  lemma PluraliseWordExamples()
    ensures Pluralise(1.0, "ox", Some("oxen"), true) == "1 ox"
    ensures Pluralise(0.0, "ox", Some("oxen"), false) == "oxen"
    ensures Pluralise(1.2, "location", None, false) == "locations"
  {
  }

  lemma PluraliseFractionExample()
    ensures Pluralise(0.8, "location", None, true) == "0.8 locations"
  {
    assert (0.8).Floor == 0;
    assert (0.8 * 10.0).Floor == 8;
    assert FractionDigits(0.8, FractionDigitsLimit) == "8";
  }

  /** `10 ** d` for an integer d. */
  function Pow10(d: int): (p: real)
    ensures p > 0.0
  {
    if d >= 0 then Pow10Nat(d) as real else 1.0 / Pow10Nat(-d) as real
  }

  /** `Math.round(y)`: the nearest integer, halves rounded up. */
  function MathRound(y: real): (n: int)
    ensures n as real - 0.5 <= y < n as real + 0.5
  {
    (y + 0.5).Floor
  }

  lemma DivMulCancel(y: real, b: real)
    requires b != 0.0
    ensures y / b * b == y
  {}

  lemma MulLe(a: real, b: real, s: real)
    requires s > 0.0 && a <= b
    ensures a * s <= b * s
  {}

  lemma MulLt(a: real, b: real, s: real)
    requires s > 0.0 && a < b
    ensures a * s < b * s
  {}

  lemma MulCancel(a: real, b: real, e: real)
    requires e > 0.0 && a * e == b * e
    ensures a == b
  {
    assert (a - b) * e == 0.0;
  }

  /** Scaled back by e, an integer n within half a unit of x * e lies within half of 1/e of x. */
  lemma ScaledBounds(x: real, e: real, n: real)
    requires e > 0.0 && n <= x * e + 0.5 < n + 1.0
    ensures x - 0.5 / e < n / e <= x + 0.5 / e
  {
    DivMulCancel(n, e);
    assert (n / e) * e == n;
    assert (0.5 / e) * e == 0.5;
    assert (n / e) * e <= (x + 0.5 / e) * e;
    assert (n / e) * e > (x - 0.5 / e) * e;
  }

  /** `roundToDecimals(number, decimals)`: `Math.round(number * 10 ** decimals) / 10 ** decimals`. */
  function RoundToDecimals(number: real, decimals: int): real {
    MathRound(number * Pow10(decimals)) as real / Pow10(decimals)
  }

  lemma ScaledBack(x: real, e: real, n: real)
    requires e > 0.0 && n <= x * e + 0.5 < n + 1.0
    ensures n / e * e == n
    ensures x - 0.5 / e < n / e <= x + 0.5 / e
  {
    DivMulCancel(n, e);
    ScaledBounds(x, e, n);
  }

  /** Scaled by 10^decimals, the result is the integer nearest to the scaled input. */
  lemma RoundToDecimalsScaled(number: real, decimals: int)
    ensures RoundToDecimals(number, decimals) * Pow10(decimals) == MathRound(number * Pow10(decimals)) as real
  {
    assert RoundToDecimals(number, decimals) == MathRound(number * Pow10(decimals)) as real / Pow10(decimals);
    ScaledBack(number, Pow10(decimals), MathRound(number * Pow10(decimals)) as real);
  }

  /** The result is at most half of 10^-decimals away from the input. */
  lemma RoundToDecimalsBounds(number: real, decimals: int)
    ensures number - 0.5 / Pow10(decimals) < RoundToDecimals(number, decimals) <= number + 0.5 / Pow10(decimals)
  {
    assert RoundToDecimals(number, decimals) == MathRound(number * Pow10(decimals)) as real / Pow10(decimals);
    ScaledBack(number, Pow10(decimals), MathRound(number * Pow10(decimals)) as real);
  }

  lemma ScaledIdempotent(r: real, e: real, k: int, r2: real)
    requires e > 0.0 && r * e == k as real && r2 * e == MathRound(r * e) as real
    ensures r2 == r
  {
    assert MathRound(k as real) == k;
    MulCancel(r2, r, e);
  }

  /** Rounding an already rounded value changes nothing. */
  lemma RoundToDecimalsIdempotent(number: real, decimals: int)
    ensures RoundToDecimals(RoundToDecimals(number, decimals), decimals) == RoundToDecimals(number, decimals)
  {
    RoundToDecimalsScaled(number, decimals);
    RoundToDecimalsScaled(RoundToDecimals(number, decimals), decimals);
    ScaledIdempotent(RoundToDecimals(number, decimals), Pow10(decimals), MathRound(number * Pow10(decimals)),
                     RoundToDecimals(RoundToDecimals(number, decimals), decimals));
  }

  lemma RoundToDecimalsExamples()
    ensures RoundToDecimals(0.0, 0) == 0.0
    ensures RoundToDecimals(4.2, 0) == 4.0
    ensures RoundToDecimals(6.2135, 2) == 6.21
    ensures RoundToDecimals(6.39, 1) == 6.4
    ensures RoundToDecimals(1.0 / 3.0, 2) == 0.33
  {
    assert Pow10(0) == 1.0 && Pow10(1) == 10.0 && Pow10(2) == 100.0;
    assert MathRound(4.2) == 4;
    assert MathRound(6.2135 * 100.0) == 621;
    assert MathRound(6.39 * 10.0) == 64;
    assert MathRound(1.0 / 3.0 * 100.0) == 33;
  }

  /** `convertTime(time, from, to)`: the same duration expressed in another unit. */
  function ConvertTime(time: real, from: Unit, to: Unit): real {
    time * Size(from) / Size(to)
  }

  lemma ScaledConversions(time: real, sa: real, sb: real, sc: real)
    requires sa > 0.0 && sb > 0.0 && sc > 0.0
    ensures time * sa / sa == time
    ensures time * sa / sb * sb / sc == time * sa / sc
    ensures time * sa / sb * sb / sa == time
  {
    DivMulCancel(time * sa, sb);
  }

  /** Converting to the same unit changes nothing; converting to seconds multiplies by the unit's size. */
  lemma ConvertTimeIdentity(time: real, a: Unit)
    ensures ConvertTime(time, a, a) == time
    ensures ConvertTime(time, a, Second) == time * Size(a)
  {
    ScaledConversions(time, Size(a), Size(a), Size(a));
  }

  /** Converting through a middle unit is the same as converting directly. */
  lemma ConvertTimeCompose(time: real, a: Unit, b: Unit, c: Unit)
    ensures ConvertTime(ConvertTime(time, a, b), b, c) == ConvertTime(time, a, c)
  {
    ScaledConversions(time, Size(a), Size(b), Size(c));
  }

  /** Converting back undoes a conversion. */
  lemma ConvertTimeInverse(time: real, a: Unit, b: Unit)
    ensures ConvertTime(ConvertTime(time, a, b), b, a) == time
  {
    ScaledConversions(time, Size(a), Size(b), Size(a));
  }

  lemma ConvertTimeExamples()
    ensures ConvertTime(1.0, Week, Day) == 7.0
    ensures ConvertTime(1.0, Hour, Second) == 3600.0
    ensures ConvertTime(1.0, Second, Millisecond) == 1000.0
  {
  }
}
