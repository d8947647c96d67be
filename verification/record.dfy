/** The JavaScript objects keyed by `battleId.toString()` that the claims
    sweep fills. A key is kept as the battle id itself: decimal rendering is
    injective (`Decimal.NatToStringInjective`), so two ids give the same key
    exactly when they are equal. The model keeps entries in insertion
    order, where a JavaScript object lists integer-like keys in ascending
    order; only the order-blind sums read a whole record. */
module Record {
  import opened Wrappers

  type Record<V> = seq<(nat, V)>

  function Keys<V>(r: Record<V>): set<nat>
  {
    set i | 0 <= i < |r| :: r[i].0
  }

  /** No key occurs twice, as in a JavaScript object. */
  predicate UniqueKeys<V>(r: Record<V>)
  {
    forall i, j :: 0 <= i < j < |r| ==> r[i].0 != r[j].0
  }

  lemma KeysCons<V>(e: (nat, V), t: Record<V>)
    ensures Keys([e] + t) == {e.0} + Keys(t)
  {
    var r := [e] + t;
    forall x | x in Keys(r) ensures x in {e.0} + Keys(t) {
      var i :| 0 <= i < |r| && r[i].0 == x;
      if i > 0 { assert t[i - 1].0 == x; }
    }
    forall x | x in Keys(t) ensures x in Keys(r) {
      var i :| 0 <= i < |t| && t[i].0 == x;
      assert r[i + 1].0 == x;
    }
    assert r[0].0 == e.0;
  }

  /** `record[key]`, `None` for `undefined`. */
  function Get<V>(r: Record<V>, k: nat): (v: Option<V>)
    ensures v.Some? <==> k in Keys(r)
  {
    if r == [] then None
    else
      assert r == [r[0]] + r[1..];
      KeysCons(r[0], r[1..]);
      if r[0].0 == k then Some(r[0].1) else Get(r[1..], k)
  }

  /** `record[key] = value`: overwrites an existing key in place, otherwise
      appends. */
  function Put<V>(r: Record<V>, k: nat, v: V): (r': Record<V>)
    ensures Get(r', k) == Some(v)
    ensures forall j :: j != k ==> Get(r', j) == Get(r, j)
    ensures Keys(r') == Keys(r) + {k}
    ensures UniqueKeys(r) ==> UniqueKeys(r')
  {
    if r == [] then [(k, v)]
    else
      assert r == [r[0]] + r[1..];
      KeysCons(r[0], r[1..]);
      if r[0].0 == k then
        var r' := [(k, v)] + r[1..];
        KeysCons((k, v), r[1..]);
        r'
      else
        var rest := Put(r[1..], k, v);
        var r' := [r[0]] + rest;
        KeysCons(r[0], rest);
        assert r'[1..] == rest;
        assert UniqueKeys(r) ==> UniqueKeys(r') by {
          if UniqueKeys(r) {
            forall i, j | 0 <= i < j < |r'| ensures r'[i].0 != r'[j].0 {
              if i == 0 {
                assert r'[j].0 in Keys(rest);
                forall m | 0 <= m < |r[1..]| ensures r[1..][m].0 != r[0].0 {
                  assert r[1..][m] == r[m + 1];
                }
              }
            }
          }
        }
        r'
  }

  /** `Object.values(record).reduce((total, value) => total + value, 0n)`. */
  function Sum(r: Record<nat>): nat
  {
    if r == [] then 0 else r[0].1 + Sum(r[1..])
  }

  /** Writing a new key adds its value to the sum. */
  lemma {:induction false} SumPutNew(r: Record<nat>, k: nat, v: nat)
    requires k !in Keys(r)
    ensures Sum(Put(r, k, v)) == Sum(r) + v
  {
    if r != [] {
      assert r == [r[0]] + r[1..];
      KeysCons(r[0], r[1..]);
      SumPutNew(r[1..], k, v);
      assert Put(r, k, v) == [r[0]] + Put(r[1..], k, v);
      assert ([r[0]] + Put(r[1..], k, v))[1..] == Put(r[1..], k, v);
    }
  }
}
