/**
 * The helpers of src/utils.js, used by the five-unit formatter of src/index.js: the
 * list-to-sentence joiner and a `pluralise` that always writes the number.
 */
module LegacyUtils {
  import opened Wrappers
  import opened Numerals
  import Utils

  /**
   * What a template literal `${number}` is given: a number, or a text already made from one
   * (the result of `toFixed`).  A text is never `=== 1`.
   */
  datatype Shown = Number(x: real) | Text(s: string)

  /** `${number}`. */
  function ShownText(n: Shown): string {
    match n
    case Number(x) => NumberText(x)
    case Text(s) => s
  }

  /**
   * `getHumanReadableList(list = [], glue = 'and')`: with more than one item, the text of all but
   * the last joined by ", ", and the last item, joined by " glue "; otherwise `list[0] || ''`.
   */
  function HumanReadableList(list: seq<string>, glue: string): string {
    if |list| > 1 then Utils.Join([Utils.Join(list[..|list| - 1], ", "), list[|list| - 1]], " " + glue + " ")
    else if |list| == 1 && list[0] != "" then list[0]
    else ""
  }

  /** The joiner of utils.js says what the joiner of utils.ts says, for any glue. */
  lemma HumanReadableListAgrees(list: seq<string>, glue: string)
    ensures HumanReadableList(list, glue) == Utils.HumanReadableList(list, Some(glue))
  {
    if |list| > 1 {
      var init, last := Utils.Join(list[..|list| - 1], ", "), list[|list| - 1];
      PairJoin(init, last, " " + glue + " ");
      Utils.AppendRegroup(init, " " + glue, " " + last);
      Utils.AppendRegroup(init, " ", glue);
      Utils.AppendRegroup(init + " " + glue, " ", last);
    }
  }

  /** Both joiners glue the last item with "and" by default. */
  lemma HumanReadableListDefaultGlue(list: seq<string>)
    ensures HumanReadableList(list, "and") == Utils.HumanReadableList(list, None)
  {
    HumanReadableListAgrees(list, "and");
  }

  /** Joining two items puts the separator between them. */
  lemma PairJoin(a: string, b: string, sep: string)
    ensures Utils.Join([a, b], sep) == a + (sep + b)
  {
    assert [a, b][1..] == [b];
    Utils.AppendRegroup(a, sep, b);
  }

  /** `pluralise(number, singular, plural = singular + 's')`: "1 singular" for the number 1, else "number plural". */
  function Pluralise(number: Shown, singular: string, plural: Option<string>): string {
    if number == Number(1.0) then "1 " + singular
    else ShownText(number) + " " + plural.GetOr(singular + "s")
  }

  /**
   * On a number, the `pluralise` of utils.js is that of utils.ts with the number included: the
   * number's text, a space, and the singular for exactly one, the plural (singular + "s" by
   * default) otherwise.
   */
  lemma PluraliseAgrees(x: real, singular: string, plural: Option<string>)
    ensures Pluralise(Number(x), singular, plural) == Utils.Pluralise(x, singular, plural, true)
    ensures Pluralise(Number(x), singular, plural) ==
            NumberText(x) + " " + (if x == 1.0 then singular else plural.GetOr(singular + "s"))
  {
    Utils.PluraliseWord(x, singular, plural);
  }

  /** A phrase is never empty: it holds at least the space after the number. */
  lemma PluraliseNonEmpty(number: Shown, singular: string, plural: Option<string>)
    ensures |Pluralise(number, singular, plural)| > 0
  {
  }

  /** A text, even "1", is never the number one: it always takes the plural. */
  lemma PluraliseText(s: string, singular: string, plural: Option<string>)
    ensures Pluralise(Text(s), singular, plural) == s + " " + plural.GetOr(singular + "s")
  {
  }
}
