/**
 * The maps the Java code builds with successive `put` calls (`HashMap`, `TreeMap`):
 * a later put of a key replaces the value of an earlier one.  A map is modelled by
 * the sequence of its puts.
 */
module Assocs {

  /** The map left behind by putting each pair, in order, into an empty map. */
  function Assoc<K(==, !new), V>(pairs: seq<(K, V)>): (m: map<K, V>)
    ensures forall k :: k in m <==> k in Firsts(pairs)
    decreases |pairs|
  {
    if |pairs| == 0 then map[]
    else
      var n := |pairs| - 1;
      assert Firsts(pairs) == Firsts(pairs[..n]) + [pairs[n].0];
      Assoc(pairs[..n])[pairs[n].0 := pairs[n].1]
  }

  /** The keys put, in order. */
  function Firsts<K, V>(pairs: seq<(K, V)>): (ks: seq<K>)
    ensures |ks| == |pairs| && forall i :: 0 <= i < |pairs| ==> ks[i] == pairs[i].0
  {
    seq(|pairs|, i requires 0 <= i < |pairs| => pairs[i].0)
  }

  /** Pair `i` is the last put of its key. */
  predicate LastPut<K(==), V>(pairs: seq<(K, V)>, i: nat)
    requires i < |pairs|
  {
    forall j :: i < j < |pairs| ==> pairs[j].0 != pairs[i].0
  }

  /** The value stored under a key is the one of its last put. */
  lemma {:induction false} AssocLastPut<K(!new), V>(pairs: seq<(K, V)>, i: nat)
    requires i < |pairs| && LastPut(pairs, i)
    ensures pairs[i].0 in Assoc(pairs) && Assoc(pairs)[pairs[i].0] == pairs[i].1
    decreases |pairs|
  {
    var n := |pairs| - 1;
    if i < n {
      assert LastPut(pairs[..n], i) by {
        forall j | i < j < n
          ensures pairs[..n][j].0 != pairs[..n][i].0
        {
          assert pairs[j].0 != pairs[i].0;
        }
      }
      AssocLastPut(pairs[..n], i);
      assert pairs[n].0 != pairs[i].0;
    }
  }

  /** Every key that was put has a last put. */
  lemma {:induction false} LastPutExists<K(!new), V>(pairs: seq<(K, V)>, k: K) returns (i: nat)
    requires k in Assoc(pairs)
    ensures i < |pairs| && pairs[i].0 == k && LastPut(pairs, i)
    ensures Assoc(pairs)[k] == pairs[i].1
  {
    var j :| 0 <= j < |pairs| && Firsts(pairs)[j] == k;
    i := j;
    while i + 1 < |pairs| && exists m :: i < m < |pairs| && pairs[m].0 == k
      invariant i < |pairs| && pairs[i].0 == k
      decreases |pairs| - i
    {
      var m :| i < m < |pairs| && pairs[m].0 == k;
      i := m;
    }
    AssocLastPut(pairs, i);
  }
}
