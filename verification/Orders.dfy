/** The order in which a loop over a Go map meets the keys: each key once, in any order. */
module Orders {
  ghost predicate Ordering(order: seq<string>, keys: set<string>)
  {
    && (forall key :: key in order <==> key in keys)
    && forall i, j :: 0 <= i < j < |order| ==> order[i] != order[j]
  }

  lemma OrderingSnoc(order: seq<string>, keys: set<string>, key: string)
    requires Ordering(order, keys) && key !in keys
    ensures Ordering(order + [key], keys + {key})
  {
  }

  lemma WithoutLast(order: seq<string>, keys: set<string>)
    requires order != [] && Ordering(order, keys)
    ensures Ordering(order[..|order| - 1], keys - {order[|order| - 1]}) && order[|order| - 1] in keys
  {
    var n := |order| - 1;
    forall key ensures key in order[..n] <==> key in keys && key != order[n] {
      if key in keys {
        var i :| 0 <= i < |order| && order[i] == key;
        assert i < n ==> order[..n][i] == key;
      }
    }
  }

  /** Any finite set of keys can be put in order. */
  lemma {:induction false} SomeOrdering(keys: set<string>) returns (order: seq<string>)
    ensures Ordering(order, keys)
    decreases |keys|
  {
    if keys == {} {
      order := [];
    } else {
      var key :| key in keys;
      var before := SomeOrdering(keys - {key});
      OrderingSnoc(before, keys - {key}, key);
      assert keys - {key} + {key} == keys;
      order := before + [key];
    }
  }
}
