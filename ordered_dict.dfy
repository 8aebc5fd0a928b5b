/** The .NET `Dictionary<string, V>` the reconciler fills and reads. With no
    removals, its enumeration order is insertion order, and overwriting a key
    keeps the key's position. */
module OrderedDicts {
  import opened Elements

  /** The contents of a dictionary: its keys in enumeration order and its map. */
  datatype DictState<V> = DictState(keys: seq<Key>, vals: map<Key, V>)

  ghost predicate WellFormed<V>(d: DictState<V>)
  {
    && NoDup(d.keys)
    && forall k :: k in d.vals <==> k in d.keys
  }

  /** `dict[k] = v`. */
  function Put<V>(d: DictState<V>, k: Key, v: V): DictState<V>
  {
    if k in d.vals then DictState(d.keys, d.vals[k := v])
    else DictState(d.keys + [k], d.vals[k := v])
  }

  /** `dict[k] = v` for each pair in turn. */
  function PutAll<V>(d: DictState<V>, kvs: seq<(Key, V)>): DictState<V>
  {
    if kvs == [] then d
    else
      var (k, v) := kvs[|kvs| - 1];
      Put(PutAll(d, kvs[..|kvs| - 1]), k, v)
  }

  lemma PutWellFormed<V>(d: DictState<V>, k: Key, v: V)
    requires WellFormed(d)
    ensures WellFormed(Put(d, k, v))
  {
  }

  /** Filling a dictionary keeps it well formed and holds exactly the old keys
      and the inserted ones. */
  lemma {:induction false} PutAllWellFormed<V>(d: DictState<V>, kvs: seq<(Key, V)>)
    requires WellFormed(d)
    ensures WellFormed(PutAll(d, kvs))
    ensures forall k :: k in PutAll(d, kvs).vals <==> k in d.vals || exists i :: 0 <= i < |kvs| && kvs[i].0 == k
  {
    if kvs != [] {
      var init := kvs[..|kvs| - 1];
      PutAllWellFormed(d, init);
      var (k, v) := kvs[|kvs| - 1];
      PutWellFormed(PutAll(d, init), k, v);
      forall k' | k' in PutAll(d, kvs).vals
        ensures k' in d.vals || exists i :: 0 <= i < |kvs| && kvs[i].0 == k'
      {
        if k' != k && k' !in d.vals {
          var i :| 0 <= i < |init| && init[i].0 == k';
          assert kvs[i].0 == k';
        }
      }
      forall k' | k' in d.vals || exists i :: 0 <= i < |kvs| && kvs[i].0 == k'
        ensures k' in PutAll(d, kvs).vals
      {
        if k' !in d.vals && k' != k {
          var i :| 0 <= i < |kvs| && kvs[i].0 == k';
          assert i < |init| && init[i].0 == k';
        }
      }
    }
  }

  /** Inserting pairs one after another is inserting their concatenation. */
  lemma {:induction false} PutAllConcat<V>(d: DictState<V>, a: seq<(Key, V)>, b: seq<(Key, V)>)
    ensures PutAll(d, a + b) == PutAll(PutAll(d, a), b)
    decreases |b|
  {
    if b == [] {
      assert a + b == a;
    } else {
      assert (a + b)[..|a + b| - 1] == a + b[..|b| - 1];
      PutAllConcat(d, a, b[..|b| - 1]);
    }
  }

  /** The values in enumeration order (`dict.Values`). */
  function ValuesOf<V>(d: DictState<V>): (vs: seq<V>)
    requires forall k :: k in d.keys ==> k in d.vals
    ensures |vs| == |d.keys|
  {
    seq(|d.keys|, i requires 0 <= i < |d.keys| => d.vals[d.keys[i]])
  }

  /** Inserting a new key appends its value to the enumeration. */
  lemma ValuesOfInsert<V>(d: DictState<V>, k: Key, v: V)
    requires WellFormed(d) && k !in d.vals
    ensures ValuesOf(Put(d, k, v)) == ValuesOf(d) + [v]
  {
    var d' := Put(d, k, v);
    forall i | 0 <= i < |d.keys|
      ensures ValuesOf(d')[i] == ValuesOf(d)[i]
    {
      assert d'.keys[i] == d.keys[i] != k;
    }
  }

  /** The keys of a list of pairs. */
  function PairKeys<V>(kvs: seq<(Key, V)>): (ks: seq<Key>)
    ensures |ks| == |kvs| && forall i :: 0 <= i < |kvs| ==> ks[i] == kvs[i].0
  {
    seq(|kvs|, i requires 0 <= i < |kvs| => kvs[i].0)
  }

  /** The values of a list of pairs. */
  function PairValues<V>(kvs: seq<(Key, V)>): (vs: seq<V>)
    ensures |vs| == |kvs| && forall i :: 0 <= i < |kvs| ==> vs[i] == kvs[i].1
  {
    seq(|kvs|, i requires 0 <= i < |kvs| => kvs[i].1)
  }

  lemma PairsSnoc<V>(kvs: seq<(Key, V)>)
    requires kvs != []
    ensures PairKeys(kvs) == PairKeys(kvs[..|kvs| - 1]) + [kvs[|kvs| - 1].0]
    ensures PairValues(kvs) == PairValues(kvs[..|kvs| - 1]) + [kvs[|kvs| - 1].1]
  {
    var init := kvs[..|kvs| - 1];
    forall i | 0 <= i < |init|
      ensures PairKeys(kvs)[i] == PairKeys(init)[i] && PairValues(kvs)[i] == PairValues(init)[i]
    {
      assert kvs[i] == init[i];
    }
  }

  /** Putting distinct keys the dictionary lacks appends the keys in order. */
  lemma {:induction false} PutAllFresh<V>(d: DictState<V>, kvs: seq<(Key, V)>)
    requires WellFormed(d)
    requires forall i :: 0 <= i < |kvs| ==> kvs[i].0 !in d.vals
    requires forall i, j :: 0 <= i < j < |kvs| ==> kvs[i].0 != kvs[j].0
    ensures WellFormed(PutAll(d, kvs))
    ensures PutAll(d, kvs).keys == d.keys + PairKeys(kvs)
  {
    if kvs != [] {
      var init, k, v := kvs[..|kvs| - 1], kvs[|kvs| - 1].0, kvs[|kvs| - 1].1;
      PutAllFresh(d, init);
      var d' := PutAll(d, init);
      forall i | 0 <= i < |PairKeys(init)|
        ensures PairKeys(init)[i] != k
      {
        assert init[i] == kvs[i];
      }
      assert k !in d.keys && k !in PairKeys(init);
      assert k !in d'.keys;
      assert PutAll(d, kvs) == DictState(d'.keys + [k], d'.vals[k := v]);
      PutWellFormed(d', k, v);
      PairsSnoc(kvs);
      assert d.keys + PairKeys(init) + [k] == d.keys + (PairKeys(init) + [k]);
    }
  }

  /** ... and each key then maps to its own value. */
  lemma {:induction false} PutAllFreshLookup<V>(d: DictState<V>, kvs: seq<(Key, V)>)
    requires forall i, j :: 0 <= i < j < |kvs| ==> kvs[i].0 != kvs[j].0
    ensures forall i :: 0 <= i < |kvs| ==> kvs[i].0 in PutAll(d, kvs).vals && PutAll(d, kvs).vals[kvs[i].0] == kvs[i].1
  {
    if kvs != [] {
      var init, k, v := kvs[..|kvs| - 1], kvs[|kvs| - 1].0, kvs[|kvs| - 1].1;
      PutAllFreshLookup(d, init);
      forall i | 0 <= i < |kvs|
        ensures kvs[i].0 in PutAll(d, kvs).vals && PutAll(d, kvs).vals[kvs[i].0] == kvs[i].1
      {
        if i < |init| {
          assert init[i] == kvs[i];
        }
      }
    }
  }

  class OrderedDict<V> {
    var keys: seq<Key>
    var vals: map<Key, V>

    function State(): DictState<V>
      reads this
    {
      DictState(keys, vals)
    }

    ghost predicate Valid()
      reads this
    {
      WellFormed(State())
    }

    constructor ()
      ensures Valid() && keys == [] && vals == map[]
    {
      keys := [];
      vals := map[];
    }

    /** `dict.ContainsKey(k)`. */
    predicate ContainsKey(k: Key)
      reads this
    {
      k in vals
    }

    /** `dict[k] = v`. */
    method Set(k: Key, v: V)
      requires Valid()
      modifies this
      ensures Valid() && State() == Put(old(State()), k, v)
    {
      if k !in vals {
        keys := keys + [k];
      }
      vals := vals[k := v];
    }
  }
}
