/** The patch lookup table: an insertion-ordered mapping from patch name to
    the encoded packed block, where a later insert under a known name
    replaces the value and keeps the name's place. */
module LookupIndex {

  /** An ordered mapping: the keys in order of first insertion, and the entries. */
  datatype OrderedMap = OrderedMap(keys: seq<string>, entries: map<string, string>)

  /** The keys are distinct and are exactly the keys of the entries. */
  ghost predicate Valid(m: OrderedMap)
  {
    (forall i, j :: 0 <= i < j < |m.keys| ==> m.keys[i] != m.keys[j]) &&
    (forall k :: k in m.entries <==> k in m.keys)
  }

  const Empty: OrderedMap := OrderedMap([], map[])

  /** Insert-or-replace, as assignment to an OrderedDict item. */
  function Insert(m: OrderedMap, k: string, v: string): (r: OrderedMap)
    requires Valid(m)
    ensures Valid(r)
    ensures r.entries == m.entries[k := v]
    ensures k in m.entries ==> r.keys == m.keys
    ensures k !in m.entries ==> r.keys == m.keys + [k]
  {
    if k in m.entries then OrderedMap(m.keys, m.entries[k := v])
    else OrderedMap(m.keys + [k], m.entries[k := v])
  }

  /** The mapping built by inserting the pairs in order into an empty one. */
  function Build(pairs: seq<(string, string)>): (r: OrderedMap)
    ensures Valid(r)
    decreases |pairs|
  {
    if |pairs| == 0 then Empty
    else
      var last := pairs[|pairs| - 1];
      Insert(Build(pairs[..|pairs| - 1]), last.0, last.1)
  }

  predicate Named(pairs: seq<(string, string)>, k: string)
  {
    exists i :: 0 <= i < |pairs| && pairs[i].0 == k
  }

  /** The position of the first pair with name k. */
  function FirstIndex(pairs: seq<(string, string)>, k: string): (r: nat)
    requires Named(pairs, k)
    ensures r < |pairs| && pairs[r].0 == k
    ensures forall j :: 0 <= j < r ==> pairs[j].0 != k
    decreases |pairs|
  {
    if pairs[0].0 == k then 0
    else
      assert Named(pairs[1..], k) by {
        var i :| 0 <= i < |pairs| && pairs[i].0 == k;
        assert pairs[1..][i - 1].0 == k;
      }
      1 + FirstIndex(pairs[1..], k)
  }

  /** A name has an entry exactly when some pair carries it. */
  lemma {:induction false} BuildDomain(pairs: seq<(string, string)>, k: string)
    ensures k in Build(pairs).entries <==> Named(pairs, k)
    decreases |pairs|
  {
    if |pairs| > 0 {
      var front := pairs[..|pairs| - 1];
      BuildDomain(front, k);
      if Named(front, k) {
        var i :| 0 <= i < |front| && front[i].0 == k;
        assert pairs[i].0 == k;
      }
      if Named(pairs, k) && pairs[|pairs| - 1].0 != k {
        var i :| 0 <= i < |pairs| && pairs[i].0 == k;
        assert front[i].0 == k;
      }
    }
  }

  /** Last write wins: the entry of a name is the value of its last pair. */
  lemma {:induction false} BuildLastWins(pairs: seq<(string, string)>, i: nat)
    requires i < |pairs|
    requires forall j :: i < j < |pairs| ==> pairs[j].0 != pairs[i].0
    ensures pairs[i].0 in Build(pairs).entries
    ensures Build(pairs).entries[pairs[i].0] == pairs[i].1
    decreases |pairs|
  {
    if i < |pairs| - 1 {
      var front := pairs[..|pairs| - 1];
      BuildLastWins(front, i);
    }
  }

  /** Every key is the name of some pair. */
  lemma BuildKeysNamed(pairs: seq<(string, string)>)
    ensures forall a :: 0 <= a < |Build(pairs).keys| ==> Named(pairs, Build(pairs).keys[a])
  {
    var keys := Build(pairs).keys;
    forall a | 0 <= a < |keys|
      ensures Named(pairs, keys[a])
    {
      assert keys[a] in Build(pairs).entries;
      BuildDomain(pairs, keys[a]);
    }
  }

  /** Inserting more pairs only appends keys: the keys built from a prefix
      of the pairs are a prefix of the keys built from all of them. */
  lemma {:induction false} BuildKeysGrow(pairs: seq<(string, string)>, i: nat)
    requires i <= |pairs|
    ensures Build(pairs[..i]).keys <= Build(pairs).keys
    decreases |pairs|
  {
    if i < |pairs| {
      var front := pairs[..|pairs| - 1];
      assert front[..i] == pairs[..i];
      BuildKeysGrow(front, i);
    } else {
      assert pairs[..i] == pairs;
    }
  }

  /** Of two keys, the earlier one has the earlier first pair. */
  lemma KeyPairOrder(pairs: seq<(string, string)>, a: nat, b: nat)
    requires a < b < |Build(pairs).keys|
    ensures Named(pairs, Build(pairs).keys[a]) && Named(pairs, Build(pairs).keys[b])
    ensures FirstIndex(pairs, Build(pairs).keys[a]) < FirstIndex(pairs, Build(pairs).keys[b])
  {
    var keys := Build(pairs).keys;
    BuildKeysNamed(pairs);
    var fb := FirstIndex(pairs, keys[b]);
    var prefix := pairs[..fb + 1];
    assert Named(prefix, keys[b]) by {
      assert prefix[fb].0 == keys[b];
    }
    BuildDomain(prefix, keys[b]);
    BuildKeysGrow(pairs, fb + 1);
    var early := Build(prefix).keys;
    // keys[b] is among the keys built from the prefix, so keys[a] is too
    assert b < |early| by {
      var c :| 0 <= c < |early| && early[c] == keys[b];
      assert keys[c] == keys[b];
    }
    assert early[a] == keys[a];
    BuildDomain(prefix, keys[a]);
    FirstIndexPrefix(pairs, fb + 1, keys[a]);
    assert FirstIndex(prefix, keys[a]) != fb;
  }

  /** The keys are the distinct names in order of their first pair. */
  lemma BuildKeyOrder(pairs: seq<(string, string)>)
    ensures forall a :: 0 <= a < |Build(pairs).keys| ==> Named(pairs, Build(pairs).keys[a])
    ensures forall a, b :: 0 <= a < b < |Build(pairs).keys| ==>
              FirstIndex(pairs, Build(pairs).keys[a]) < FirstIndex(pairs, Build(pairs).keys[b])
  {
    BuildKeysNamed(pairs);
    forall a, b | 0 <= a < b < |Build(pairs).keys|
      ensures FirstIndex(pairs, Build(pairs).keys[a]) < FirstIndex(pairs, Build(pairs).keys[b])
    {
      KeyPairOrder(pairs, a, b);
    }
  }

  /** The first pair of a name that occurs in a prefix is found in that prefix. */
  lemma FirstIndexPrefix(pairs: seq<(string, string)>, n: nat, k: string)
    requires n <= |pairs| && Named(pairs[..n], k)
    ensures Named(pairs, k) && FirstIndex(pairs, k) == FirstIndex(pairs[..n], k)
  {
    var i := FirstIndex(pairs[..n], k);
    assert pairs[i].0 == k;
    var r := FirstIndex(pairs, k);
    assert r <= i;
    assert pairs[..n][r].0 == k;
  }

  /** Two pairs with one name leave one entry, holding the second value. */
  lemma DuplicateNameExample(a: string, b: string)
    ensures Build([("Pad", a), ("Pad", b)]) == OrderedMap(["Pad"], map["Pad" := b])
  {
    var pairs := [("Pad", a), ("Pad", b)];
    assert pairs[..1] == [("Pad", a)];
    assert pairs[..1][..0] == [];
    assert Build(pairs[..1]) == OrderedMap(["Pad"], map["Pad" := a]);
    assert map["Pad" := a]["Pad" := b] == map["Pad" := b];
  }

  /** The mutable OrderedDict the tool fills in its per-patch loop. */
  class OrderedIndex {
    var keys: seq<string>
    var entries: map<string, string>

    function View(): OrderedMap
      reads this
    {
      OrderedMap(keys, entries)
    }

    constructor ()
      ensures View() == Empty
    {
      keys := [];
      entries := map[];
    }

    /** `index[k] = v`. */
    method Put(k: string, v: string)
      requires Valid(View())
      modifies this
      ensures Valid(View())
      ensures View() == Insert(old(View()), k, v)
    {
      if k !in entries {
        keys := keys + [k];
      }
      entries := entries[k := v];
    }
  }
}
