/**
 * The unit table and the default configuration of src/constants.ts: seven
 * units ordered from the coarsest to the finest, their size in seconds, the
 * default options and the default (English) dictionary.
 */
module Constants {
  import opened Wrappers
  import opened Records

  datatype Unit = Week | Day | Hour | Minute | Second | Millisecond | Microsecond

  /** The declaration order of the `Units` enum: coarse to fine. */
  const Units: seq<Unit> := [Week, Day, Hour, Minute, Second, Millisecond, Microsecond]

  /** The enum's string value. */
  function Name(u: Unit): string {
    match u
    case Week => "week"
    case Day => "day"
    case Hour => "hour"
    case Minute => "minute"
    case Second => "second"
    case Millisecond => "millisecond"
    case Microsecond => "microsecond"
  }

  /** `Object.values(Units)`. */
  const UnitNames: seq<string> := ["week", "day", "hour", "minute", "second", "millisecond", "microsecond"]

  /** The position of a unit in the coarse-to-fine order. */
  function Index(u: Unit): (i: nat)
    ensures i < |Units| && Units[i] == u && UnitNames[i] == Name(u)
  {
    match u
    case Week => 0
    case Day => 1
    case Hour => 2
    case Minute => 3
    case Second => 4
    case Millisecond => 5
    case Microsecond => 6
  }

  /** `TimeConstants`: the size of one unit in seconds. */
  function Size(u: Unit): (s: real)
    ensures s > 0.0
  {
    match u
    case Week => 604800.0
    case Day => 86400.0
    case Hour => 3600.0
    case Minute => 60.0
    case Second => 1.0
    case Millisecond => 0.001
    case Microsecond => 0.000001
  }

  /** `DefaultUnitTimeMap`: every unit with its size, in the order of the enum. */
  const UnitTimeMap: seq<(Unit, real)> :=
    [(Week, 604800.0), (Day, 86400.0), (Hour, 3600.0), (Minute, 60.0),
     (Second, 1.0), (Millisecond, 0.001), (Microsecond, 0.000001)]

  /** `list.indexOf(x)`: the first position holding x, or -1. */
  function IndexOf<T(==)>(list: seq<T>, x: T): (i: int)
    ensures -1 <= i < |list|
    ensures i == -1 <==> x !in list
    ensures 0 <= i ==> list[i] == x && x !in list[..i]
  {
    if |list| == 0 then -1
    else if list[0] == x then 0
    else
      var j := IndexOf(list[1..], x);
      if j == -1 then -1
      else
        assert list[..j + 1] == [list[0]] + list[1..][..j];
        j + 1
  }

  /** `Object.values(Units).indexOf(v)`: the position of the unit named by v, or -1. */
  function UnitIndexOf(v: Value): (i: int)
    ensures -1 <= i < |Units|
    ensures i == -1 <==> !(v.Str? && v.s in UnitNames)
    ensures 0 <= i ==> v == Str(Name(Units[i]))
  {
    UnitNamesAreNames();
    if v.Str? then IndexOf(UnitNames, v.s) else -1
  }

  /** `Object.values(Units)` lists the units' names in the enum's order. */
  lemma UnitNamesAreNames()
    ensures |UnitNames| == |Units|
    ensures forall i :: 0 <= i < |Units| ==> UnitNames[i] == Name(Units[i])
  {
  }

  /** The unit a valid unit name stands for. */
  function UnitNamed(v: Value): (u: Unit)
    requires v.Str? && v.s in UnitNames
    ensures Name(u) == v.s && UnitIndexOf(v) == Index(u)
  {
    Units[UnitIndexOf(v)]
  }

  /** Dictionary words for one unit; a missing plural means singular + "s". */
  datatype Words = Words(singular: string, plural: Option<string>)

  /** A dictionary entry: the words for a unit, or the conjunction under the key "and". */
  datatype I18nEntry = UnitWords(words: Words) | Conjunction(word: string)

  /** `DefaultOptions`. */
  const DefaultOptions: Record<Value> :=
    [("precision", Num(3.0)), ("inputUnit", Str("second")),
     ("minUnit", Str("millisecond")), ("maxUnit", Str("week"))]

  /** `DefaultI18n`: each unit's English singular, no plural, and "and". */
  const DefaultI18n: Record<I18nEntry> :=
    [("week", UnitWords(Words("week", None))),
     ("day", UnitWords(Words("day", None))),
     ("hour", UnitWords(Words("hour", None))),
     ("minute", UnitWords(Words("minute", None))),
     ("second", UnitWords(Words("second", None))),
     ("millisecond", UnitWords(Words("millisecond", None))),
     ("microsecond", UnitWords(Words("microsecond", None))),
     ("and", Conjunction("and"))]

  /** The unit table lists every unit once, with its size, in the enum's order. */
  lemma UnitTimeMapIsTable()
    ensures |UnitTimeMap| == |Units|
    ensures forall i :: 0 <= i < |Units| ==> UnitTimeMap[i] == (Units[i], Size(Units[i]))
    ensures forall u :: Units[Index(u)] == u
  {
  }

  /** A unit is coarser (earlier in the order) exactly when it is larger. */
  lemma CoarserIsLarger(u: Unit, v: Unit)
    ensures Index(u) < Index(v) <==> Size(u) > Size(v)
    ensures Index(u) == Index(v) <==> u == v
  {
  }

  /** Each unit is a whole multiple of the next finer one: 7, 24, 60, 60, 1000, 1000. */
  lemma AdjacentRatios()
    ensures Size(Week) == 7.0 * Size(Day)
    ensures Size(Day) == 24.0 * Size(Hour)
    ensures Size(Hour) == 60.0 * Size(Minute)
    ensures Size(Minute) == 60.0 * Size(Second)
    ensures Size(Second) == 1000.0 * Size(Millisecond)
    ensures Size(Millisecond) == 1000.0 * Size(Microsecond)
  {
  }

  /** The unit named by a unit's own name is that unit. */
  lemma NamedUnit(u: Unit)
    ensures UnitNamed(Str(Name(u))) == u
  {
    NameIndex(u);
  }

  /** A unit's name is found at its own index, and names determine units. */
  lemma NameIndex(u: Unit)
    ensures UnitIndexOf(Str(Name(u))) == Index(u)
  {
    assert UnitNames[Index(u)] == Name(u);
    var i := UnitIndexOf(Str(Name(u)));
    NameInjective(Units[i], u);
    UnitsIndexed(i);
  }

  /** Different units have different names. */
  lemma NameInjective(a: Unit, b: Unit)
    requires Name(a) == Name(b)
    ensures a == b
  {
    assert |Name(a)| == |Name(b)| && Name(a)[0] == Name(b)[0];
    assert Name(a)[1] == Name(b)[1];
  }

  lemma UnitsIndexed(i: int)
    requires 0 <= i < |Units|
    ensures Index(Units[i]) == i
  {
  }

  lemma DefaultOptionsDistinct()
    ensures Keys(DefaultOptions) == ["precision", "inputUnit", "minUnit", "maxUnit"]
    ensures DistinctKeys(DefaultOptions)
  {
    var ks := Keys(DefaultOptions);
    assert ks == ["precision", "inputUnit", "minUnit", "maxUnit"];
    forall i, j | 0 <= i < j < |DefaultOptions| ensures DefaultOptions[i].0 != DefaultOptions[j].0 {
      assert DefaultOptions[i].0[0] != DefaultOptions[j].0[0] || DefaultOptions[i].0[1] != DefaultOptions[j].0[1];
    }
  }

  /** The defaults: precision 3, inputUnit second, minUnit millisecond, maxUnit week. */
  lemma DefaultOptionValues()
    ensures Keys(DefaultOptions) == ["precision", "inputUnit", "minUnit", "maxUnit"]
    ensures Field(DefaultOptions, "precision") == Num(3.0)
    ensures Field(DefaultOptions, "inputUnit") == Str(Name(Second))
    ensures Field(DefaultOptions, "minUnit") == Str(Name(Millisecond))
    ensures Field(DefaultOptions, "maxUnit") == Str(Name(Week))
    ensures DistinctKeys(DefaultOptions)
  {
    DefaultOptionsDistinct();
    DefaultPrecision();
    DefaultInputUnit();
    DefaultMinUnit();
    DefaultMaxUnit();
  }

  lemma DefaultPrecision()
    ensures Field(DefaultOptions, "precision") == Num(3.0)
  {
    DefaultOptionAt(0);
  }

  lemma DefaultInputUnit()
    ensures Field(DefaultOptions, "inputUnit") == Str(Name(Second))
  {
    DefaultOptionAt(1);
  }

  lemma DefaultMinUnit()
    ensures Field(DefaultOptions, "minUnit") == Str(Name(Millisecond))
  {
    DefaultOptionAt(2);
  }

  lemma DefaultMaxUnit()
    ensures Field(DefaultOptions, "maxUnit") == Str(Name(Week))
  {
    DefaultOptionAt(3);
  }

  lemma DefaultOptionAt(i: nat)
    requires i < |DefaultOptions|
    ensures Field(DefaultOptions, DefaultOptions[i].0) == DefaultOptions[i].1
  {
    DefaultOptionsDistinct();
    GetAt(DefaultOptions, i);
  }

  lemma DefaultI18nDistinct()
    ensures Keys(DefaultI18n) == UnitNames + ["and"]
    ensures DistinctKeys(DefaultI18n)
  {
    assert Keys(DefaultI18n) == UnitNames + ["and"];
  }

  /** The default dictionary gives every unit its own name as singular, no plural, and "and". */
  lemma DefaultI18nValues(u: Unit)
    ensures Get(DefaultI18n, Name(u)) == Some(UnitWords(Words(Name(u), None)))
    ensures Get(DefaultI18n, "and") == Some(Conjunction("and"))
  {
    DefaultI18nWords(u);
    DefaultI18nAnd();
  }

  lemma DefaultI18nWords(u: Unit)
    ensures Get(DefaultI18n, Name(u)) == Some(UnitWords(Words(Name(u), None)))
  {
    DefaultI18nDistinct();
    DefaultI18nEntries();
    GetAt(DefaultI18n, Index(u));
  }

  lemma DefaultI18nAnd()
    ensures Get(DefaultI18n, "and") == Some(Conjunction("and"))
  {
    DefaultI18nDistinct();
    GetAt(DefaultI18n, 7);
  }

  lemma DefaultI18nEntries()
    ensures forall i :: 0 <= i < |Units| ==> DefaultI18n[i] == (UnitNames[i], UnitWords(Words(UnitNames[i], None)))
  {
  }
}
