/**
 * JavaScript plain objects as ordered key/value lists, in the order
 * `Object.keys` lists them.  For keys that are not array indices this is
 * insertion order, and a written new key is appended.  JavaScript lists
 * array-index keys ("0", "1", ...) first, in numeric order; the model does
 * not move them.
 */
module Records {
  import opened Wrappers

  /** An object whose values have type V, entries in `Object.keys` order. */
  type Record<V> = seq<(string, V)>

  /** The dynamically typed values an options object may hold. */
  datatype Value = Num(x: real) | NaN | Str(s: string) | Undefined

  function Keys<V>(r: Record<V>): (ks: seq<string>)
    ensures |ks| == |r|
    ensures forall i :: 0 <= i < |r| ==> ks[i] == r[i].0
  {
    seq(|r|, i requires 0 <= i < |r| => r[i].0)
  }

  /** Every key occurs once, as in any JavaScript object. */
  predicate DistinctKeys<V>(r: Record<V>) {
    forall i, j :: 0 <= i < j < |r| ==> r[i].0 != r[j].0
  }

  /** `r[k]`: the value stored under `k`, if any. */
  function Get<V>(r: Record<V>, k: string): (v: Option<V>)
    ensures v.None? <==> k !in Keys(r)
    ensures v.Some? ==> (k, v.value) in r
  {
    if |r| == 0 then None
    else if r[0].0 == k then Some(r[0].1)
    else Get(r[1..], k)
  }

  /** In an object with distinct keys, the value under `r[i].0` is `r[i].1`. */
  lemma {:induction false} GetAt<V>(r: Record<V>, i: nat)
    requires i < |r| && DistinctKeys(r)
    ensures Get(r, r[i].0) == Some(r[i].1)
  {
    if i > 0 {
      assert r[1..][i - 1] == r[i];
      assert DistinctKeys(r[1..]) by {
        forall a, b | 0 <= a < b < |r[1..]| ensures r[1..][a].0 != r[1..][b].0 {
          assert r[1..][a] == r[a + 1] && r[1..][b] == r[b + 1];
        }
      }
      GetAt(r[1..], i - 1);
    }
  }

  /** Dropping the first entry keeps the keys distinct, and the first key does not recur. */
  lemma TailDistinct<V>(r: Record<V>)
    requires |r| > 0 && DistinctKeys(r)
    ensures DistinctKeys(r[1..])
    ensures Keys(r) == [r[0].0] + Keys(r[1..])
    ensures r[0].0 !in Keys(r[1..])
  {
    forall i, j | 0 <= i < j < |r[1..]| ensures r[1..][i].0 != r[1..][j].0 {
      assert r[1..][i] == r[i + 1] && r[1..][j] == r[j + 1];
    }
    forall j | 0 <= j < |r[1..]| ensures Keys(r[1..])[j] != r[0].0 {
      assert r[1..][j] == r[j + 1];
    }
  }

  /** `r[k] = v`: updates an existing key in place, otherwise appends the key at the end. */
  function Set<V>(r: Record<V>, k: string, v: V): (r': Record<V>)
    ensures |r'| == if k in Keys(r) then |r| else |r| + 1
  {
    if |r| == 0 then [(k, v)]
    else if r[0].0 == k then [(k, v)] + r[1..]
    else
      assert Keys(r) == [r[0].0] + Keys(r[1..]);
      [r[0]] + Set(r[1..], k, v)
  }

  lemma KeysCons<V>(x: (string, V), r: Record<V>)
    ensures Keys([x] + r) == [x.0] + Keys(r)
  {
  }

  lemma {:induction false} SetKeys<V>(r: Record<V>, k: string, v: V)
    ensures Keys(Set(r, k, v)) == if k in Keys(r) then Keys(r) else Keys(r) + [k]
  {
    if |r| > 0 {
      assert r == [r[0]] + r[1..];
      KeysCons(r[0], r[1..]);
      if r[0].0 == k {
        KeysCons((k, v), r[1..]);
      } else {
        SetKeys(r[1..], k, v);
        KeysCons(r[0], Set(r[1..], k, v));
        assert k in Keys(r) <==> k in Keys(r[1..]);
      }
    }
  }

  lemma {:induction false} SetGet<V>(r: Record<V>, k: string, v: V, k': string)
    ensures Get(Set(r, k, v), k') == if k' == k then Some(v) else Get(r, k')
  {
    if |r| > 0 && r[0].0 != k {
      SetGet(r[1..], k, v, k');
      assert Set(r, k, v)[1..] == Set(r[1..], k, v);
    }
  }

  /** `options.k` for an options object: a missing key reads as `undefined`. */
  function Field(r: Record<Value>, k: string): (v: Value)
    ensures k !in Keys(r) ==> v == Undefined
    ensures k in Keys(r) ==> (k, v) in r
  {
    Get(r, k).GetOr(Undefined)
  }

  lemma {:induction false} SetKeepsDistinct<V>(r: Record<V>, k: string, v: V)
    requires DistinctKeys(r)
    ensures DistinctKeys(Set(r, k, v))
  {
    if |r| > 0 && r[0].0 != k {
      assert DistinctKeys(r[1..]) by {
        forall i, j | 0 <= i < j < |r[1..]| ensures r[1..][i].0 != r[1..][j].0 {
          assert r[1..][i] == r[i + 1] && r[1..][j] == r[j + 1];
        }
      }
      SetKeepsDistinct(r[1..], k, v);
      SetKeys(r[1..], k, v);
      var rest := Set(r[1..], k, v);
      forall j | 0 <= j < |rest| ensures rest[j].0 != r[0].0 {
        assert Keys(rest)[j] == rest[j].0;
        if k in Keys(r[1..]) {
          assert Keys(rest) == Keys(r[1..]);
          assert r[1..][j] == r[j + 1];
        } else {
          assert Keys(rest) == Keys(r[1..]) + [k];
          if j < |r[1..]| { assert Keys(rest)[j] == Keys(r[1..])[j]; assert r[1..][j] == r[j + 1]; }
        }
      }
    } else if |r| > 0 {
      assert forall j :: 1 <= j < |r| ==> r[j].0 != k;
    }
  }
}
