/** Python's `dict` with string keys, as the aggregator uses it:
    insertion-ordered, with `d.get(k)` and `d[k] = v`. Nothing is ever deleted
    from these dicts. */
module Dicts {
  import opened Results

  /** The entries in insertion order. */
  type Dict<V> = seq<(string, V)>

  function Keys<V>(d: Dict<V>): (ks: seq<string>)
    ensures |ks| == |d| && forall i :: 0 <= i < |d| ==> ks[i] == d[i].0
  {
    seq(|d|, i requires 0 <= i < |d| => d[i].0)
  }

  /** `d.values()`, in insertion order. */
  function Values<V>(d: Dict<V>): (vs: seq<V>)
    ensures |vs| == |d| && forall i :: 0 <= i < |d| ==> vs[i] == d[i].1
  {
    seq(|d|, i requires 0 <= i < |d| => d[i].1)
  }

  /** A dict holds each key at most once. */
  predicate UniqueKeys<V>(d: Dict<V>) {
    forall i, j :: 0 <= i < j < |d| ==> d[i].0 != d[j].0
  }

  /** The position of `k`, or -1 when `k` is absent; `IndexOfSpec` says it
      is the first position holding `k`. */
  function IndexOf<V>(d: Dict<V>, k: string): (r: int)
    ensures -1 <= r < |d|
    ensures r != -1 ==> d[r].0 == k
    decreases |d|
  {
    if d == [] then -1
    else if d[0].0 == k then 0
    else
      var r := IndexOf(d[1..], k);
      if r == -1 then -1 else r + 1
  }

  /** `IndexOf` finds the first position of `k`, and -1 exactly when `k`
      is at no position. */
  lemma {:induction false} IndexOfSpec<V>(d: Dict<V>, k: string)
    ensures IndexOf(d, k) == -1 <==> forall i :: 0 <= i < |d| ==> d[i].0 != k
    ensures IndexOf(d, k) != -1 ==> forall i :: 0 <= i < IndexOf(d, k) ==> d[i].0 != k
    decreases |d|
  {
    if d != [] && d[0].0 != k {
      IndexOfSpec(d[1..], k);
      assert forall i :: 1 <= i < |d| ==> d[i] == d[1..][i - 1];
    }
  }

  /** `d.get(k)` */
  function Get<V>(d: Dict<V>, k: string): (r: Option<V>)
    ensures r.None? <==> k !in Keys(d)
  {
    IndexOfSpec(d, k);
    var i := IndexOf(d, k);
    if i == -1 then None else Some(d[i].1)
  }

  /** `d[k] = v`: a present key keeps its position and takes the new value;
      an absent key is appended. */
  function Put<V>(d: Dict<V>, k: string, v: V): (r: Dict<V>)
    ensures UniqueKeys(d) ==> UniqueKeys(r)
    ensures Get(r, k) == Some(v)
    ensures forall k' :: k' != k ==> Get(r, k') == Get(d, k')
    ensures k !in Keys(d) ==> r == d + [(k, v)]
    ensures k in Keys(d) ==> Keys(r) == Keys(d)
  {
    IndexOfSpec(d, k);
    var i := IndexOf(d, k);
    if i == -1 then
      IndexOfAppend(d, (k, v), k);
      forall k' | k' != k ensures Get(d + [(k, v)], k') == Get(d, k') {
        IndexOfAppend(d, (k, v), k');
      }
      d + [(k, v)]
    else
      var r := d[i := (k, v)];
      IndexOfSpec(r, k);
      assert forall j :: 0 <= j < i ==> r[j] == d[j];
      assert forall k' :: k' != k ==> IndexOf(r, k') == IndexOf(d, k') by {
        forall k' | k' != k ensures IndexOf(r, k') == IndexOf(d, k') {
          IndexOfAway(d, i, k, v, k');
        }
      }
      assert Keys(r) == Keys(d);
      r
  }

  lemma IndexOfAppend<V>(d: Dict<V>, e: (string, V), k: string)
    ensures IndexOf(d + [e], k) ==
      if IndexOf(d, k) != -1 then IndexOf(d, k) else if e.0 == k then |d| else -1
  {
    var s := d + [e];
    IndexOfSpec(d, k);
    IndexOfSpec(s, k);
    assert forall j :: 0 <= j < |d| ==> s[j] == d[j];
    assert s[|d|] == e;
  }

  lemma IndexOfAway<V>(d: Dict<V>, i: nat, k: string, v: V, k': string)
    requires i < |d| && d[i].0 == k && k' != k
    ensures IndexOf(d[i := (k, v)], k') == IndexOf(d, k')
  {
    var r := d[i := (k, v)];
    IndexOfSpec(d, k');
    IndexOfSpec(r, k');
    assert forall j :: 0 <= j < |d| ==> d[j].0 == r[j].0;
  }

  /** A lookup that succeeds keeps succeeding with the same value in any dict
      that extends this one by appending. */
  lemma GetInExtension<V>(d: Dict<V>, e: Dict<V>, k: string)
    requires d <= e
    requires Get(d, k).Some?
    ensures Get(e, k) == Get(d, k)
  {
    var i := IndexOf(d, k);
    IndexOfSpec(d, k);
    IndexOfSpec(e, k);
    assert e[i] == d[i];
    var j := IndexOf(e, k);
    assert forall m :: 0 <= m < i ==> e[m] == d[m];
    assert j == i;
  }

  /** Under unique keys, the entry at position `i` is what `Get` finds. */
  lemma GetAt<V>(d: Dict<V>, i: nat)
    requires UniqueKeys(d) && i < |d|
    ensures Get(d, d[i].0) == Some(d[i].1)
  {
    IndexOfSpec(d, d[i].0);
    assert IndexOf(d, d[i].0) != -1;
  }

  /** What `Get` finds is stored at some position. */
  lemma GetFound<V>(d: Dict<V>, k: string) returns (i: nat)
    requires Get(d, k).Some?
    ensures i < |d| && d[i] == (k, Get(d, k).value)
  {
    i := IndexOf(d, k);
  }
}
