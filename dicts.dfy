/** Python dicts with text keys, kept as their items in insertion order, which is the
    order in which Python iterates over a dict. */
module Dicts {
  import opened Wrappers

  type Dict<V> = seq<(string, V)>

  /** `list(d.keys())`. */
  function Keys<V>(d: Dict<V>): seq<string>
    decreases |d|
  {
    if |d| == 0 then [] else [d[0].0] + Keys(d[1..])
  }

  /** `d.get(k)`; a dict built with `Put` never holds a key twice. */
  function Get<V>(d: Dict<V>, k: string): Option<V>
    decreases |d|
  {
    if |d| == 0 then None else if d[0].0 == k then Some(d[0].1) else Get(d[1..], k)
  }

  lemma {:induction false} GetIffKey<V>(d: Dict<V>, k: string)
    ensures Get(d, k).Some? <==> k in Keys(d)
    decreases |d|
  {
    if |d| > 0 {
      GetIffKey(d[1..], k);
    }
  }

  /** `d[k] = v`: a present key keeps its place and takes the new value, an absent key is
      added at the end; no other key changes. */
  function Put<V>(d: Dict<V>, k: string, v: V): (r: Dict<V>)
    ensures Get(r, k) == Some(v)
    ensures forall j :: j != k ==> Get(r, j) == Get(d, j)
    ensures Keys(r) == if k in Keys(d) then Keys(d) else Keys(d) + [k]
    decreases |d|
  {
    if |d| == 0 then [(k, v)]
    else if d[0].0 == k then [(k, v)] + d[1..]
    else
      var rest := Put(d[1..], k, v);
      assert ([d[0]] + rest)[1..] == rest;
      assert ([(k, v)] + d[1..])[1..] == d[1..];
      [d[0]] + rest
  }

  /** Every key occurs once. */
  predicate DistinctKeys<V>(d: Dict<V>) {
    forall i, j :: 0 <= i < j < |d| ==> d[i].0 != d[j].0
  }

  lemma {:induction false} KeysAt<V>(d: Dict<V>, i: int)
    requires 0 <= i < |d|
    ensures |Keys(d)| == |d| && Keys(d)[i] == d[i].0
    decreases |d|
  {
    if i > 0 {
      KeysAt(d[1..], i - 1);
    } else {
      KeysLength(d[1..]);
    }
  }

  lemma {:induction false} KeysLength<V>(d: Dict<V>)
    ensures |Keys(d)| == |d|
    decreases |d|
  {
    if |d| > 0 {
      KeysLength(d[1..]);
    }
  }
}
