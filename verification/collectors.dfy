/**
 * `DbCollectors.map` and `DbCollectors.set`: stream collectors that gather records
 * into a map from a key field's string value to the record, or into the set of
 * those values.  Both start from an empty hash container, read the key with
 * `getString`, make a failed read unchecked, merge partial results with `putAll` /
 * `addAll` and finish with the identity.
 *
 * The collected stream is a sequence of records processed in order, as a
 * sequential stream does; the merge is what a parallel stream would use on two
 * consecutive parts, and the lemmas below show it gives the same result.
 */
module Collectors {

  import opened Wrappers
  import opened Holders
  import opened Records
  import Iterators

  /** A key is the string form of the key field; `null` is a legal key of a `HashMap` and a `HashSet`. */
  type Key = Option<string>

  /** Every record has a holder for each of its field specs. */
  predicate Complete(recs: seq<Record>) {
    forall i :: 0 <= i < |recs| ==> |recs[i].names| == |recs[i].holders|
  }

  lemma {:induction false} CompleteAppend(a: seq<Record>, b: seq<Record>)
    requires Complete(a) && Complete(b)
    ensures Complete(a + b)
  {
    assert forall i :: 0 <= i < |a + b| ==> (a + b)[i] == if i < |a| then a[i] else b[i - |a|];
  }

  /** The records of `a + b` but the last are `a` and those of `b` but the last. */
  lemma {:induction false} AppendInit(a: seq<Record>, b: seq<Record>)
    requires |b| > 0
    ensures (a + b)[..|a + b| - 1] == a + b[..|b| - 1] && (a + b)[|a + b| - 1] == b[|b| - 1]
  {
  }

  /** A conversion that did not produce a value, carried over to another result type. */
  function Propagate<A, B>(c: Conv<A>): (r: Conv<B>)
    requires !c.Got?
    ensures r.Raised? <==> c.Raised?
    ensures r.Raised? ==> r.error == c.error
    ensures r.Unmodelled? <==> c.Unmodelled?
  {
    if c.Raised? then Raised(c.error) else Unmodelled
  }

  /** The key of one record: `getString(keySpec)`, with an `SQLException` made unchecked. */
  function KeyOf(rec: Record, keySpec: string): Conv<Key>
    requires |rec.names| == |rec.holders|
  {
    match RecordString(rec, keySpec)
    case Got(k) => Got(k)
    case Raised(e) => Raised(Iterators.Rethrow(e))
    case Unmodelled => Unmodelled
  }

  /**
   * The key is the field's string value, `null` included; a missing field or a
   * failed conversion is raised as an unchecked exception.
   */
  lemma {:induction false} KeyOfMeaning(rec: Record, keySpec: string)
    requires |rec.names| == |rec.holders|
    ensures keySpec !in rec.names ==> KeyOf(rec, keySpec) == Raised(Unchecked(NotPresent(keySpec)))
    ensures KeyOf(rec, keySpec).Got? <==> RecordString(rec, keySpec).Got?
    ensures KeyOf(rec, keySpec).Got? ==> KeyOf(rec, keySpec).value == RecordString(rec, keySpec).value
    ensures KeyOf(rec, keySpec).Raised? ==>
      (RecordString(rec, keySpec).Raised? &&
       KeyOf(rec, keySpec).error == Iterators.Rethrow(RecordString(rec, keySpec).error))
  {
  }

  /** What a collector built with `keySpec` reads from each record. */
  type KeyReader = Record -> Conv<Key>

  /** The reader of `DbCollectors.map(keySpec)` and `DbCollectors.set(keySpec)`: `getString(keySpec)` on each record. */
  function ReaderOf(keySpec: string): (key: KeyReader)
  {
    (rec: Record) => if |rec.names| == |rec.holders| then KeyOf(rec, keySpec) else Unmodelled
  }

  /** On a record with a holder per spec, the reader is `KeyOf`. */
  lemma {:induction false} ReaderOfComplete(recs: seq<Record>, keySpec: string)
    requires Complete(recs)
    ensures forall i :: 0 <= i < |recs| ==> ReaderOf(keySpec)(recs[i]) == KeyOf(recs[i], keySpec)
  {
  }

  // ---------------------------------------------------------------------
  // Reading the keys
  // ---------------------------------------------------------------------

  /** The keys of all the records in order, or the failure of the first record whose key cannot be read. */
  function Keys(recs: seq<Record>, key: KeyReader): (r: Conv<seq<Key>>)
    ensures r.Got? ==> |r.value| == |recs|
    ensures r.Got? ==> forall i :: 0 <= i < |recs| ==> key(recs[i]) == Got(r.value[i])
    ensures r.Got? <==> forall i :: 0 <= i < |recs| ==> key(recs[i]).Got?
    decreases |recs|
  {
    if |recs| == 0 then Got([])
    else
      var n := |recs| - 1;
      assert forall i :: 0 <= i < n ==> recs[..n][i] == recs[i];
      var prefix := Keys(recs[..n], key);
      if !prefix.Got? then Propagate(prefix)
      else
        var k := key(recs[n]);
        if k.Got? then Got(prefix.value + [k.value]) else Propagate(k)
  }

  /** Record `i` is the first whose key cannot be read. */
  predicate FirstFailure(recs: seq<Record>, key: KeyReader, i: nat)
    requires i < |recs|
  {
    !key(recs[i]).Got? && forall j :: 0 <= j < i ==> key(recs[j]).Got?
  }

  /** A failure is that of the first record whose key cannot be read. */
  lemma {:induction false} KeysFailure(recs: seq<Record>, key: KeyReader)
    requires !Keys(recs, key).Got?
    ensures exists i :: (0 <= i < |recs| && FirstFailure(recs, key, i) &&
      Keys(recs, key) == Propagate(key(recs[i])))
    decreases |recs|
  {
    var n := |recs| - 1;
    assert forall i :: 0 <= i < n ==> recs[..n][i] == recs[i];
    if !Keys(recs[..n], key).Got? {
      KeysFailure(recs[..n], key);
      var i :| 0 <= i < n && FirstFailure(recs[..n], key, i) &&
        Keys(recs[..n], key) == Propagate(key(recs[..n][i]));
      assert FirstFailure(recs, key, i);
    } else {
      assert FirstFailure(recs, key, n);
    }
  }

  /** The keys of a non-empty stream are those of all but its last record, then the last one's. */
  lemma {:induction false} KeysLast(recs: seq<Record>, key: KeyReader)
    requires |recs| > 0 && Keys(recs, key).Got?
    ensures Keys(recs[..|recs| - 1], key).Got?
    ensures key(recs[|recs| - 1]).Got?
    ensures Keys(recs, key).value ==
      Keys(recs[..|recs| - 1], key).value + [key(recs[|recs| - 1]).value]
  {
  }

  // ---------------------------------------------------------------------
  // MapCollector
  // ---------------------------------------------------------------------

  /** `accumulator()`: put the record under its key, replacing an earlier record with that key. */
  function MapAccumulate(m: map<Key, Record>, rec: Record, key: KeyReader): (r: Conv<map<Key, Record>>)
    ensures r.Got? <==> key(rec).Got?
    ensures !r.Got? ==> r == Propagate(key(rec))
    ensures r.Got? ==> var k := key(rec).value;
      && r.value.Keys == m.Keys + {k}
      && r.value[k] == rec
      && forall k' :: k' in m && k' != k ==> r.value[k'] == m[k']
  {
    var k := key(rec);
    if k.Got? then Got(m[k.value := rec]) else Propagate(k)
  }

  /** `combiner()`: `map1.putAll(map2)`, so on a shared key the second map's record wins. */
  function MapCombine(m1: map<Key, Record>, m2: map<Key, Record>): (r: map<Key, Record>)
    ensures r.Keys == m1.Keys + m2.Keys
    ensures forall k :: k in m2 ==> r[k] == m2[k]
    ensures forall k :: k in m1 && k !in m2 ==> r[k] == m1[k]
  {
    m1 + m2
  }

  /** Accumulating the records in order into `m0`. */
  function MapFrom(m0: map<Key, Record>, recs: seq<Record>, key: KeyReader): (r: Conv<map<Key, Record>>)
    ensures r.Got? <==> Keys(recs, key).Got?
    ensures !r.Got? ==> r == Propagate(Keys(recs, key))
    decreases |recs|
  {
    if |recs| == 0 then Got(m0)
    else
      var n := |recs| - 1;
      var prefix := MapFrom(m0, recs[..n], key);
      if prefix.Got? then MapAccumulate(prefix.value, recs[n], key) else prefix
  }

  /**
   * `records.collect(DbCollectors.map(keySpec))`: the supplier's empty map, every
   * record accumulated in stream order, and the identity finisher.
   */
  function MapCollect(recs: seq<Record>, keySpec: string): (r: Conv<map<Key, Record>>)
  {
    MapFrom(map[], recs, ReaderOf(keySpec))
  }

  /** Accumulating one more record puts it under its key. */
  lemma {:induction false} MapFromLast(m0: map<Key, Record>, recs: seq<Record>, key: KeyReader)
    requires |recs| > 0 && MapFrom(m0, recs, key).Got?
    ensures MapFrom(m0, recs[..|recs| - 1], key).Got?
    ensures key(recs[|recs| - 1]).Got?
    ensures MapFrom(m0, recs, key).value ==
      MapFrom(m0, recs[..|recs| - 1], key).value[key(recs[|recs| - 1]).value := recs[|recs| - 1]]
  {
  }

  /** Putting a record into the merged map is putting it into the second map before merging. */
  lemma {:induction false} UpdateCombine(m1: map<Key, Record>, p: map<Key, Record>, k: Key, rec: Record)
    ensures MapCombine(m1, p)[k := rec] == MapCombine(m1, p[k := rec])
  {
  }

  /** The map's keys are those of `m0` and of the records. */
  lemma {:induction false} MapFromDomain(m0: map<Key, Record>, recs: seq<Record>, key: KeyReader)
    requires MapFrom(m0, recs, key).Got?
    ensures Keys(recs, key).Got?
    ensures forall k :: k in MapFrom(m0, recs, key).value <==> k in m0 || k in Keys(recs, key).value
    decreases |recs|
  {
    if |recs| > 0 {
      var n := |recs| - 1;
      MapFromLast(m0, recs, key);
      KeysLast(recs, key);
      MapFromDomain(m0, recs[..n], key);
      var ks := Keys(recs, key).value;
      assert forall k :: k in ks <==> k in Keys(recs[..n], key).value || k == ks[n];
    }
  }

  /** A key of `m0` that no record bears keeps its record from `m0`. */
  lemma {:induction false} MapFromRest(m0: map<Key, Record>, recs: seq<Record>, key: KeyReader)
    requires MapFrom(m0, recs, key).Got?
    ensures Keys(recs, key).Got?
    ensures var m := MapFrom(m0, recs, key).value;
      forall k :: k in m0 && k !in Keys(recs, key).value ==> k in m && m[k] == m0[k]
    decreases |recs|
  {
    if |recs| > 0 {
      var n := |recs| - 1;
      MapFromLast(m0, recs, key);
      KeysLast(recs, key);
      MapFromRest(m0, recs[..n], key);
      var ks := Keys(recs, key).value;
      assert forall k :: k !in ks ==> k !in Keys(recs[..n], key).value && k != ks[n];
    }
  }

  /** Under each record's key is the last record bearing that key. */
  lemma {:induction false} MapFromLastWins(m0: map<Key, Record>, recs: seq<Record>, key: KeyReader)
    requires MapFrom(m0, recs, key).Got?
    ensures Keys(recs, key).Got?
    ensures var m := MapFrom(m0, recs, key).value;
      var ks := Keys(recs, key).value;
      forall i :: 0 <= i < |ks| && (forall j :: i < j < |ks| ==> ks[j] != ks[i]) ==> ks[i] in m && m[ks[i]] == recs[i]
    decreases |recs|
  {
    if |recs| > 0 {
      var n := |recs| - 1;
      MapFromLast(m0, recs, key);
      KeysLast(recs, key);
      MapFromLastWins(m0, recs[..n], key);
      var ks' := Keys(recs[..n], key).value;
      var ks := Keys(recs, key).value;
      var m' := MapFrom(m0, recs[..n], key).value;
      var m := MapFrom(m0, recs, key).value;
      assert forall j :: 0 <= j < n ==> ks'[j] == ks[j];
      forall i | 0 <= i < |ks| && (forall j :: i < j < |ks| ==> ks[j] != ks[i])
        ensures ks[i] in m && m[ks[i]] == recs[i]
      {
        if i < n {
          assert forall j :: i < j < |ks'| ==> ks'[j] != ks'[i];
          assert ks[n] != ks[i] && m'[ks'[i]] == recs[i];
        }
      }
    }
  }

  /**
   * What the map holds: the keys of `m0` and of every record; under each record's
   * key the LAST record with that key; and the rest of `m0` unchanged.
   */
  lemma {:induction false} MapFromContents(m0: map<Key, Record>, recs: seq<Record>, key: KeyReader)
    requires MapFrom(m0, recs, key).Got?
    ensures var m := MapFrom(m0, recs, key).value;
      var ks := Keys(recs, key).value;
      && (forall k :: k in m <==> k in m0 || k in ks)
      && (forall i :: 0 <= i < |ks| && (forall j :: i < j < |ks| ==> ks[j] != ks[i]) ==> m[ks[i]] == recs[i])
      && (forall k :: k in m0 && k !in ks ==> m[k] == m0[k])
  {
    MapFromDomain(m0, recs, key);
    MapFromLastWins(m0, recs, key);
    MapFromRest(m0, recs, key);
  }

  /** The collected map has exactly the records' keys, each under the last record bearing it. */
  lemma {:induction false} MapCollectContents(recs: seq<Record>, keySpec: string)
    requires Complete(recs)
    ensures MapCollect(recs, keySpec).Got? <==> forall i :: 0 <= i < |recs| ==> KeyOf(recs[i], keySpec).Got?
    ensures MapCollect(recs, keySpec).Got? ==>
      var m := MapCollect(recs, keySpec).value;
      var ks := Keys(recs, ReaderOf(keySpec)).value;
      && (forall i :: 0 <= i < |recs| ==> KeyOf(recs[i], keySpec) == Got(ks[i]))
      && (forall k :: k in m <==> k in ks)
      && (forall i :: 0 <= i < |ks| && (forall j :: i < j < |ks| ==> ks[j] != ks[i]) ==> m[ks[i]] == recs[i])
  {
    ReaderOfComplete(recs, keySpec);
    if MapCollect(recs, keySpec).Got? {
      MapFromContents(map[], recs, ReaderOf(keySpec));
    }
  }

  /** Starting from `m1` is the same as collecting from empty and merging the result into `m1`. */
  lemma {:induction false} MapFromShift(m1: map<Key, Record>, recs: seq<Record>, key: KeyReader)
    ensures MapFrom(m1, recs, key).Got? ==>
      MapFrom(m1, recs, key).value == MapCombine(m1, MapFrom(map[], recs, key).value)
    decreases |recs|
  {
    if |recs| > 0 && MapFrom(m1, recs, key).Got? {
      var n := |recs| - 1;
      MapFromLast(m1, recs, key);
      MapFromLast(map[], recs, key);
      MapFromShift(m1, recs[..n], key);
      UpdateCombine(m1, MapFrom(map[], recs[..n], key).value, key(recs[n]).value, recs[n]);
    }
  }

  /** Accumulating `a + b` is accumulating `a`, then `b` into the result. */
  lemma {:induction false} MapFromAppend(m0: map<Key, Record>, a: seq<Record>, b: seq<Record>, key: KeyReader)
    ensures MapFrom(m0, a + b, key) ==
      if MapFrom(m0, a, key).Got? then MapFrom(MapFrom(m0, a, key).value, b, key)
      else MapFrom(m0, a, key)
    decreases |b|
  {
    if |b| == 0 {
      assert a + b == a;
    } else {
      MapFromAppend(m0, a, b[..|b| - 1], key);
      AppendInit(a, b);
    }
  }

  /**
   * The combiner agrees with collecting: collecting two consecutive parts and
   * merging them gives the map of the whole stream, and a failure in the first part
   * is the failure of the whole.
   */
  lemma {:induction false} MapCollectSplit(a: seq<Record>, b: seq<Record>, keySpec: string)
    ensures !MapCollect(a, keySpec).Got? ==> MapCollect(a + b, keySpec) == MapCollect(a, keySpec)
    ensures MapCollect(a, keySpec).Got? && MapCollect(b, keySpec).Got? ==>
      MapCollect(a + b, keySpec) == Got(MapCombine(MapCollect(a, keySpec).value, MapCollect(b, keySpec).value))
  {
    MapFromAppend(map[], a, b, ReaderOf(keySpec));
    if MapCollect(a, keySpec).Got? {
      MapFromShift(MapCollect(a, keySpec).value, b, ReaderOf(keySpec));
    }
  }

  // ---------------------------------------------------------------------
  // SetCollector
  // ---------------------------------------------------------------------

  /** `accumulator()`: add the record's key. */
  function SetAccumulate(s: set<Key>, rec: Record, key: KeyReader): (r: Conv<set<Key>>)
    ensures r.Got? <==> key(rec).Got?
    ensures !r.Got? ==> r == Propagate(key(rec))
    ensures r.Got? ==> forall k :: k in r.value <==> k in s || k == key(rec).value
  {
    var k := key(rec);
    if k.Got? then Got(s + {k.value}) else Propagate(k)
  }

  /** `combiner()`: `set1.addAll(set2)`. */
  function SetCombine(s1: set<Key>, s2: set<Key>): (r: set<Key>)
    ensures forall k :: k in r <==> k in s1 || k in s2
  {
    s1 + s2
  }

  /** Accumulating the records in order into `s0`. */
  function SetFrom(s0: set<Key>, recs: seq<Record>, key: KeyReader): (r: Conv<set<Key>>)
    ensures r.Got? <==> Keys(recs, key).Got?
    ensures !r.Got? ==> r == Propagate(Keys(recs, key))
    decreases |recs|
  {
    if |recs| == 0 then Got(s0)
    else
      var n := |recs| - 1;
      var prefix := SetFrom(s0, recs[..n], key);
      if prefix.Got? then SetAccumulate(prefix.value, recs[n], key) else prefix
  }

  /** `records.collect(DbCollectors.set(keySpec))`. */
  function SetCollect(recs: seq<Record>, keySpec: string): (r: Conv<set<Key>>)
  {
    SetFrom({}, recs, ReaderOf(keySpec))
  }

  lemma {:induction false} SetFromContents(s0: set<Key>, recs: seq<Record>, key: KeyReader)
    requires SetFrom(s0, recs, key).Got?
    ensures forall k :: k in SetFrom(s0, recs, key).value <==> k in s0 || k in Keys(recs, key).value
    decreases |recs|
  {
    if |recs| > 0 {
      var n := |recs| - 1;
      KeysLast(recs, key);
      SetFromContents(s0, recs[..n], key);
    }
  }

  /** The collected set holds exactly the keys of the records. */
  lemma {:induction false} SetCollectContents(recs: seq<Record>, keySpec: string)
    requires Complete(recs)
    ensures SetCollect(recs, keySpec).Got? <==> forall i :: 0 <= i < |recs| ==> KeyOf(recs[i], keySpec).Got?
    ensures SetCollect(recs, keySpec).Got? ==>
      forall k :: k in SetCollect(recs, keySpec).value <==>
        exists i :: 0 <= i < |recs| && KeyOf(recs[i], keySpec) == Got(k)
  {
    ReaderOfComplete(recs, keySpec);
    if SetCollect(recs, keySpec).Got? {
      SetFromContents({}, recs, ReaderOf(keySpec));
      var ks := Keys(recs, ReaderOf(keySpec)).value;
      forall k
        ensures k in ks <==> exists i :: 0 <= i < |recs| && KeyOf(recs[i], keySpec) == Got(k)
      {
        if k in ks {
          var i :| 0 <= i < |ks| && ks[i] == k;
          assert KeyOf(recs[i], keySpec) == Got(k);
        }
      }
    }
  }

  lemma {:induction false} SetFromShift(s1: set<Key>, recs: seq<Record>, key: KeyReader)
    ensures SetFrom(s1, recs, key).Got? ==>
      SetFrom(s1, recs, key).value == SetCombine(s1, SetFrom({}, recs, key).value)
    decreases |recs|
  {
    if |recs| > 0 && SetFrom(s1, recs, key).Got? {
      SetFromShift(s1, recs[..|recs| - 1], key);
    }
  }

  lemma {:induction false} SetFromAppend(s0: set<Key>, a: seq<Record>, b: seq<Record>, key: KeyReader)
    ensures SetFrom(s0, a + b, key) ==
      if SetFrom(s0, a, key).Got? then SetFrom(SetFrom(s0, a, key).value, b, key)
      else SetFrom(s0, a, key)
    decreases |b|
  {
    if |b| == 0 {
      assert a + b == a;
    } else {
      SetFromAppend(s0, a, b[..|b| - 1], key);
      AppendInit(a, b);
    }
  }

  /** Collecting two consecutive parts and taking the union gives the set of the whole stream. */
  lemma {:induction false} SetCollectSplit(a: seq<Record>, b: seq<Record>, keySpec: string)
    ensures !SetCollect(a, keySpec).Got? ==> SetCollect(a + b, keySpec) == SetCollect(a, keySpec)
    ensures SetCollect(a, keySpec).Got? && SetCollect(b, keySpec).Got? ==>
      SetCollect(a + b, keySpec) == Got(SetCombine(SetCollect(a, keySpec).value, SetCollect(b, keySpec).value))
  {
    SetFromAppend({}, a, b, ReaderOf(keySpec));
    if SetCollect(a, keySpec).Got? {
      SetFromShift(SetCollect(a, keySpec).value, b, ReaderOf(keySpec));
    }
  }

  /** The set collector gathers exactly the key set of the map collector, and fails exactly when it does. */
  lemma {:induction false} SetIsMapKeys(recs: seq<Record>, keySpec: string)
    ensures SetCollect(recs, keySpec).Got? <==> MapCollect(recs, keySpec).Got?
    ensures SetCollect(recs, keySpec).Got? ==> SetCollect(recs, keySpec).value == MapCollect(recs, keySpec).value.Keys
    ensures !SetCollect(recs, keySpec).Got? ==>
      (SetCollect(recs, keySpec).Raised? <==> MapCollect(recs, keySpec).Raised?) &&
      (SetCollect(recs, keySpec).Raised? ==> SetCollect(recs, keySpec).error == MapCollect(recs, keySpec).error)
  {
    if SetCollect(recs, keySpec).Got? {
      SetFromContents({}, recs, ReaderOf(keySpec));
      MapFromContents(map[], recs, ReaderOf(keySpec));
    }
  }
}
