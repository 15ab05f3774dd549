/** Lists of names: `sort.Strings` over the keys of a map. */
module Names {
  import opened Strings
  import opened Sorting
  import opened Sums

  function ByName(): (string, string) -> bool { (a: string, b: string) => AtMost(a, b) }

  lemma ByNameTotal()
    ensures TotalPreorder(ByName())
  {
    forall a: string, b: string ensures ByName()(a, b) || ByName()(b, a) { AtMostIsTotalPreorder(a, b, b); }
    forall a: string, b: string, c: string | ByName()(a, b) && ByName()(b, c) ensures ByName()(a, c) {
      AtMostIsTotalPreorder(a, b, c);
    }
  }

  /** `sort.Strings` over the keys of a map, collected in no particular order. */
  method SortedKeys(names: set<string>) returns (keys: seq<string>)
    ensures Elems(keys) == names
    ensures forall k :: k in keys <==> k in names
    ensures forall i, j :: 0 <= i < j < |keys| ==> Less(keys[i], keys[j])
    ensures Distinct(keys)
  {
    keys := [];
    var todo := names;
    while todo != {}
      invariant todo <= names && Elems(keys) == names - todo && Distinct(keys)
    {
      var k :| k in todo;
      assert k !in Elems(keys);
      assert Elems(keys + [k]) == Elems(keys) + {k};
      keys := keys + [k];
      todo := todo - {k};
    }
    ghost var collected := keys;
    ByNameTotal();
    keys := SortSlice(ByName(), keys);
    SortedNames(collected, keys);
    forall k ensures k in keys <==> k in names {
      assert k in keys <==> k in multiset(keys);
      assert k in collected <==> k in Elems(collected);
    }
    assert Elems(keys) == names;
  }

  lemma SortedNames(collected: seq<string>, keys: seq<string>)
    requires Distinct(collected) && Sorted(ByName(), keys) && multiset(keys) == multiset(collected)
    ensures forall i, j :: 0 <= i < j < |keys| ==> Less(keys[i], keys[j])
    ensures Distinct(keys)
    ensures forall k :: k in keys <==> k in collected
  {
    forall k ensures k in keys <==> k in collected { assert k in keys <==> k in multiset(collected); }
    DistinctKeysPermuted(collected, keys, (k: string) => k);
    forall i, j | 0 <= i < j < |keys| ensures Less(keys[i], keys[j]) && keys[i] != keys[j] {
      assert ByName()(keys[i], keys[j]);
      LessTrichotomy(keys[i], keys[j]);
    }
  }
}
