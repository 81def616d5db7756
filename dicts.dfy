/**
 The Python `dict` that both tables and the language kit are stored in.
 A dict remembers the order in which its keys were first inserted, and
 iterating over it (`for key, value in d.items()`) visits the keys in that
 order. `Dict` keeps that order as a sequence beside the key-to-value map.
 */
module Dicts {

  datatype Dict<K(!new), V> = Dict(keys: seq<K>, items: map<K, V>) {

    /** The representation invariant: every key once, in order, and exactly the keys of `items`. */
    ghost predicate Valid() {
      && (forall i, j :: 0 <= i < j < |keys| ==> keys[i] != keys[j])
      && (forall k :: k in items <==> k in keys)
    }

    /** `d[k] = v`; `PutKeepsValid` states what it does. */
    function Put(k: K, v: V): Dict<K, V> {
      if k in items then Dict(keys, items[k := v]) else Dict(keys + [k], items[k := v])
    }
  }

  /** `{}`: a dict with no keys. */
  function Empty<K(!new), V>(): (d: Dict<K, V>)
    ensures d.keys == [] && d.items.Keys == {}
  {
    Dict([], map[])
  }

  /** `len(d)`, the number of entries, is the number of keys in the insertion order. */
  lemma {:induction false} SizeIsKeyCount<K(!new), V>(d: Dict<K, V>)
    requires d.Valid()
    ensures |d.items| == |d.keys|
    decreases |d.keys|
  {
    if d.keys != [] {
      var k := d.keys[|d.keys| - 1];
      var rest := DropLast(d);
      SizeIsKeyCount(rest);
      assert d.items.Keys == rest.items.Keys + {k};
      assert k !in rest.items.Keys;
      assert |d.items.Keys| == |rest.items.Keys| + 1;
    }
  }

  /** The dict without its most recently inserted key. */
  function DropLast<K(!new), V>(d: Dict<K, V>): (rest: Dict<K, V>)
    requires d.Valid() && d.keys != []
    ensures rest.Valid()
    ensures rest.keys == d.keys[..|d.keys| - 1]
    ensures rest.items == d.items - {d.keys[|d.keys| - 1]}
  {
    var last := |d.keys| - 1;
    var k := d.keys[last];
    var rest := Dict(d.keys[..last], d.items - {k});
    assert forall i, j :: 0 <= i < j < |rest.keys| ==> rest.keys[i] != rest.keys[j] by {
      forall i, j | 0 <= i < j < |rest.keys|
        ensures rest.keys[i] != rest.keys[j]
      {
        assert rest.keys[i] == d.keys[i] && rest.keys[j] == d.keys[j];
      }
    }
    assert forall x :: x in rest.items <==> x in rest.keys by {
      forall x
        ensures x in rest.items <==> x in rest.keys
      {
        if x in rest.keys {
          var i :| 0 <= i < last && rest.keys[i] == x;
          assert d.keys[i] == x;
        }
        if x in d.keys && x != k {
          var i :| 0 <= i < |d.keys| && d.keys[i] == x;
          assert i < last && rest.keys[i] == x;
        }
      }
    }
    rest
  }

  /** Assignment `d[k] = v` keeps a dict a dict: afterwards `k` holds `v` and every other key keeps its value. */
  lemma PutKeepsValid<K(!new), V>(d: Dict<K, V>, k: K, v: V)
    requires d.Valid()
    ensures d.Put(k, v).Valid()
    ensures k in d.Put(k, v).items && d.Put(k, v).items[k] == v
    ensures forall x :: x in d.items && x != k ==> x in d.Put(k, v).items && d.Put(k, v).items[x] == d.items[x]
  {
    var e := d.Put(k, v);
    if k !in d.items {
      forall i, j | 0 <= i < j < |e.keys|
        ensures e.keys[i] != e.keys[j]
      {
        if j == |d.keys| {
          assert e.keys[i] == d.keys[i] && d.keys[i] in d.items;
        } else {
          assert e.keys[i] == d.keys[i] && e.keys[j] == d.keys[j];
        }
      }
    }
  }

  /**
   Assignment `d[k] = v` adds no key but `k` and keeps the old order: an existing key keeps
   its place, and a new key goes to the end.
   */
  lemma PutKeepsOrder<K(!new), V>(d: Dict<K, V>, k: K, v: V)
    ensures d.Put(k, v).items.Keys == d.items.Keys + {k}
    ensures d.keys <= d.Put(k, v).keys
    ensures k in d.items ==> d.Put(k, v).keys == d.keys
    ensures k !in d.items ==> d.Put(k, v).keys == d.keys + [k]
  {
  }

  /** A dict filled by the assignments `d[k] = v` of `asg`, in order, starting from `{}`. */
  function Assign<K(!new), V>(asg: seq<(K, V)>): Dict<K, V>
    decreases |asg|
  {
    if asg == [] then Empty()
    else Assign(asg[..|asg| - 1]).Put(asg[|asg| - 1].0, asg[|asg| - 1].1)
  }

  /** Assignment `i` of `asg` is the last one to its key: no later assignment overwrites it. */
  ghost predicate FinalFor<K(!new), V>(asg: seq<(K, V)>, i: int) {
    0 <= i < |asg| && forall j :: i < j < |asg| ==> asg[j].0 != asg[i].0
  }

  /**
   Any run of assignments, repeated keys included, builds a proper dict whose keys are the
   assigned keys, listed at most once each.
   */
  lemma {:induction false} AssignValid<K(!new), V>(asg: seq<(K, V)>)
    ensures Assign(asg).Valid()
    ensures |Assign(asg).keys| <= |asg|
    ensures Assign(asg).items.Keys == set i | 0 <= i < |asg| :: asg[i].0
    decreases |asg|
  {
    if asg != [] {
      var n := |asg| - 1;
      var front := asg[..n];
      AssignValid(front);
      PutKeepsValid(Assign(front), asg[n].0, asg[n].1);
      PutKeepsOrder(Assign(front), asg[n].0, asg[n].1);
      assert (set i | 0 <= i < |asg| :: asg[i].0)
          == (set i | 0 <= i < |front| :: front[i].0) + {asg[n].0} by {
        forall i | 0 <= i < |front| ensures front[i] == asg[i] { }
      }
    }
  }

  /** In any run of assignments the last assignment to a key wins: the key holds that value. */
  lemma {:induction false} AssignLastWins<K(!new), V>(asg: seq<(K, V)>)
    ensures forall i :: FinalFor(asg, i) ==> asg[i].0 in Assign(asg).items && Assign(asg).items[asg[i].0] == asg[i].1
    decreases |asg|
  {
    if asg != [] {
      var n := |asg| - 1;
      var front := asg[..n];
      var d := Assign(front);
      var e := d.Put(asg[n].0, asg[n].1);
      assert Assign(asg) == e;
      AssignLastWins(front);
      AssignValid(front);
      PutKeepsValid(d, asg[n].0, asg[n].1);
      forall i | FinalFor(asg, i)
        ensures asg[i].0 in e.items && e.items[asg[i].0] == asg[i].1
      {
        if i < n {
          assert front[i] == asg[i];
          assert asg[n].0 != asg[i].0;
          assert FinalFor(front, i) by {
            forall j | i < j < |front| ensures front[j].0 != front[i].0 {
              assert front[j] == asg[j];
            }
          }
          assert asg[i].0 in d.items && d.items[asg[i].0] == asg[i].1;
          assert asg[i].0 in e.items && e.items[asg[i].0] == asg[i].1;
        } else {
          assert i == n;
        }
      }
    }
  }

  /** The dict after `n` assignments is the dict after `n - 1` with the `n`-th one applied. */
  lemma AssignStep<K(!new), V>(asg: seq<(K, V)>, n: nat)
    requires 0 < n <= |asg|
    ensures Assign(asg[..n]) == Assign(asg[..n - 1]).Put(asg[n - 1].0, asg[n - 1].1)
  {
    assert asg[..n][..n - 1] == asg[..n - 1];
  }

  /** No key is assigned twice. */
  ghost predicate DistinctKeys<K(!new), V>(asg: seq<(K, V)>) {
    forall i, j :: 0 <= i < j < |asg| ==> asg[i].0 != asg[j].0
  }

  /** Assigning distinct keys lists them in assignment order, each holding its own value. */
  lemma {:induction false} AssignDistinct<K(!new), V>(asg: seq<(K, V)>)
    requires DistinctKeys(asg)
    ensures Assign(asg).Valid()
    ensures |Assign(asg).keys| == |asg|
    ensures forall i :: 0 <= i < |asg| ==> Assign(asg).keys[i] == asg[i].0
    ensures forall i :: 0 <= i < |asg| ==> asg[i].0 in Assign(asg).items && Assign(asg).items[asg[i].0] == asg[i].1
    decreases |asg|
  {
    if asg != [] {
      var n := |asg| - 1;
      var front := asg[..n];
      assert DistinctKeys(front) by {
        forall i, j | 0 <= i < j < |front| ensures front[i].0 != front[j].0 {
          assert front[i] == asg[i] && front[j] == asg[j];
        }
      }
      AssignDistinct(front);
      var d := Assign(front);
      forall i | 0 <= i < n ensures d.keys[i] != asg[n].0 {
        assert front[i] == asg[i];
      }
      assert asg[n].0 !in d.keys;
      PutKeepsValid(d, asg[n].0, asg[n].1);
      forall i | 0 <= i < |asg|
        ensures Assign(asg).keys[i] == asg[i].0
        ensures asg[i].0 in Assign(asg).items && Assign(asg).items[asg[i].0] == asg[i].1
      {
        if i < n {
          assert front[i] == asg[i];
        }
      }
    }
  }

  // `AssignKeys` and `AssignLookup` restate parts of `AssignDistinct` so that callers reasoning
  // about a literal table take in only the facts they need, which keeps those proofs cheap.

  /** The keys part of `AssignDistinct` alone. */
  lemma AssignKeys<K(!new), V>(asg: seq<(K, V)>)
    requires DistinctKeys(asg)
    ensures |Assign(asg).keys| == |asg|
    ensures forall i :: 0 <= i < |asg| ==> Assign(asg).keys[i] == asg[i].0
  {
    AssignDistinct(asg);
  }

  /** The value part of `AssignDistinct`, for one assignment. */
  lemma AssignLookup<K(!new), V>(asg: seq<(K, V)>, i: nat)
    requires DistinctKeys(asg) && i < |asg|
    ensures asg[i].0 in Assign(asg).items && Assign(asg).items[asg[i].0] == asg[i].1
  {
    AssignDistinct(asg);
  }
}
