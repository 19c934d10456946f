/**
 * A decoded JSON object as Ruby holds it: a `Hash`, whose keys are distinct
 * and which remembers the order its keys arrived in.
 */
module RubyHash {

  predicate DistinctKeys<V>(h: seq<(string, V)>) {
    forall i, j :: 0 <= i < j < |h| ==> h[i].0 != h[j].0
  }

  type Hash<V> = h: seq<(string, V)> | DistinctKeys(h) witness []

  /** `Hash#keys`: the keys in insertion order. */
  function Keys<V>(h: seq<(string, V)>): (ks: seq<string>)
    ensures |ks| == |h|
    ensures forall i :: 0 <= i < |h| ==> ks[i] == h[i].0
  {
    seq(|h|, i requires 0 <= i < |h| => h[i].0)
  }

  /** Position of a key that is present. */
  function IndexOf<V>(h: seq<(string, V)>, k: string): (i: nat)
    requires k in Keys(h)
    ensures i < |h| && h[i].0 == k
  {
    if h[0].0 == k then 0
    else
      assert Keys(h) == [h[0].0] + Keys(h[1..]);
      1 + IndexOf(h[1..], k)
  }

  /** `Hash#[]` on a key that is present. */
  function Get<V>(h: Hash<V>, k: string): V
    requires k in Keys(h)
  {
    h[IndexOf(h, k)].1
  }
}
