/**
 server/provider/provider.go: how `SetProviders` rebuilds the preference list, for any order
 in which Go's map iteration yields the new names.
*/
module PreferenceMerge {
  import opened Collections

  /** A map iteration: every key once, in some order. */
  ghost predicate Enumerates(order: seq<string>, keys: set<string>) {
    NoDuplicates(order) && Members(order) == keys
  }

  /** The entries of a list that are among the given names, in list order. */
  function Keep(names: seq<string>, keys: set<string>): seq<string> {
    if names == [] then []
    else
      var last := names[|names| - 1];
      Keep(names[..|names| - 1], keys) + (if last in keys then [last] else [])
  }

  lemma {:induction false} KeepMembers(names: seq<string>, keys: set<string>)
    ensures Members(Keep(names, keys)) == Members(names) * keys
  {
    if names != [] {
      var front, last := names[..|names| - 1], names[|names| - 1];
      KeepMembers(front, keys);
      assert names == front + [last];
      assert Members(names) == Members(front) + {last};
      if last in keys {
        assert Members(Keep(front, keys) + [last]) == Members(Keep(front, keys)) + {last};
      } else {
        assert Keep(names, keys) == Keep(front, keys);
      }
    }
  }

  /** The positions of the entries that are kept. */
  function Positions(names: seq<string>, keys: set<string>): seq<nat> {
    if names == [] then []
    else if names[|names| - 1] in keys then Positions(names[..|names| - 1], keys) + [|names| - 1]
    else Positions(names[..|names| - 1], keys)
  }

  lemma {:induction false} PositionsMeaning(names: seq<string>, keys: set<string>, i: nat)
    ensures forall a | 0 <= a < |Positions(names, keys)| :: Positions(names, keys)[a] < |names|
    ensures Ascending(Positions(names, keys))
    ensures i in Positions(names, keys) <==> i < |names| && names[i] in keys
  {
    if names != [] {
      PositionsMeaning(names[..|names| - 1], keys, i);
    }
  }

  /** What is kept: just the entries among the given names, each as often as listed, in list order. */
  lemma {:induction false} KeepIsInOrder(names: seq<string>, keys: set<string>, a: nat)
    ensures |Keep(names, keys)| == |Positions(names, keys)|
    ensures a < |Keep(names, keys)| ==>
              Positions(names, keys)[a] < |names| && Keep(names, keys)[a] == names[Positions(names, keys)[a]]
  {
    if names != [] {
      KeepIsInOrder(names[..|names| - 1], keys, a);
    }
  }

  function Merge(preference: seq<string>, keys: set<string>, order: seq<string>): seq<string> {
    Keep(preference, keys) + Keep(order, keys - Members(preference))
  }

  lemma {:induction false} KeepAll(names: seq<string>, keys: set<string>)
    requires Members(names) <= keys
    ensures Keep(names, keys) == names
  {
    if names != [] {
      var front, last := names[..|names| - 1], names[|names| - 1];
      assert names == front + [last];
      assert last in Members(names) && Members(front) <= Members(names);
      KeepAll(front, keys);
    }
  }

  lemma {:induction false} KeepStaysDistinct(names: seq<string>, keys: set<string>)
    requires NoDuplicates(names)
    ensures NoDuplicates(Keep(names, keys))
  {
    if names != [] {
      var front := names[..|names| - 1];
      KeepStaysDistinct(front, keys);
      KeepMembers(front, keys);
      assert names[|names| - 1] !in Members(front);
      forall i | 0 <= i < |Keep(front, keys)|
        ensures Keep(front, keys)[i] != names[|names| - 1]
      {
        assert Keep(front, keys)[i] in Members(Keep(front, keys));
      }
    }
  }

  lemma AppendDistinct(a: seq<string>, b: seq<string>)
    requires NoDuplicates(b) && Members(a) !! Members(b)
    ensures NoDuplicates(a + b) <==> NoDuplicates(a)
  {
    var s := a + b;
    if NoDuplicates(a) {
      forall i, j | 0 <= i < j < |s|
        ensures s[i] != s[j]
      {
        if i < |a| <= j {
          assert a[i] in Members(a) && b[j - |a|] in Members(b);
        }
      }
    }
    if NoDuplicates(s) {
      forall i, j | 0 <= i < j < |a|
        ensures a[i] != a[j]
      {
        assert s[i] == a[i] && s[j] == a[j];
      }
    }
  }

  lemma MergedMembers(preference: seq<string>, keys: set<string>, order: seq<string>)
    requires Members(order) == keys
    ensures Members(Merge(preference, keys, order)) == keys
    ensures Members(Keep(preference, keys)) !! Members(Keep(order, keys - Members(preference)))
  {
    var kept, added := Keep(preference, keys), Keep(order, keys - Members(preference));
    KeepMembers(preference, keys);
    KeepMembers(order, keys - Members(preference));
    assert Members(kept + added) == Members(kept) + Members(added);
  }

  lemma MergedAgain(merged: seq<string>, keys: set<string>, again: seq<string>)
    requires Members(merged) == keys
    ensures Merge(merged, keys, again) == merged
  {
    KeepAll(merged, keys);
    KeepMembers(again, keys - Members(merged));
    var rest := Keep(again, keys - Members(merged));
    if rest != [] {
      SomeMember(rest);
    }
  }

  /**
   The merged list names exactly the new providers; the survivors come first, in their old
   order; and it is free of duplicates, which failover needs, exactly when no survivor was
   listed twice.
  */
  lemma MergeMeaning(preference: seq<string>, keys: set<string>, order: seq<string>)
    requires Enumerates(order, keys)
    ensures var merged := Merge(preference, keys, order);
      && Members(merged) == keys
      && merged == Keep(preference, keys) + Keep(order, keys - Members(preference))
      && (NoDuplicates(merged) <==> NoDuplicates(Keep(preference, keys)))
  {
    MergedMembers(preference, keys, order);
    KeepStaysDistinct(order, keys - Members(preference));
    AppendDistinct(Keep(preference, keys), Keep(order, keys - Members(preference)));
  }

  /** Setting the same providers again, in any iteration order, changes nothing. */
  lemma MergeIsIdempotent(preference: seq<string>, keys: set<string>, order: seq<string>, again: seq<string>)
    requires Enumerates(order, keys) && Enumerates(again, keys)
    ensures Merge(Merge(preference, keys, order), keys, again) == Merge(preference, keys, order)
  {
    MergedMembers(preference, keys, order);
    MergedAgain(Merge(preference, keys, order), keys, again);
  }

  lemma SomeMember(names: seq<string>)
    requires names != []
    ensures Members(names) != {}
  {
    assert names[0] in Members(names);
  }

  /** Survivors first, in their old order, then the names that were not listed before. */
  method MergePreference(preference: seq<string>, keys: set<string>, order: seq<string>)
    returns (newPreference: seq<string>)
    requires Enumerates(order, keys)
    ensures newPreference == Merge(preference, keys, order)
  {
    newPreference := [];
    var added: set<string> := {};
    for j := 0 to |preference|
      invariant newPreference == Keep(preference[..j], keys)
      invariant added == Members(newPreference)
    {
      assert preference[..j + 1][..j] == preference[..j];
      if preference[j] in keys {
        newPreference := newPreference + [preference[j]];
        added := added + {preference[j]};
      }
    }
    assert preference[..|preference|] == preference;
    KeepMembers(preference, keys);
    ghost var kept := newPreference;
    for j := 0 to |order|
      invariant newPreference == kept + Keep(order[..j], keys - Members(preference))
    {
      MembersStep(order, j);
      assert order[..j + 1][..j] == order[..j];
      ghost var sofar := Keep(order[..j], keys - Members(preference));
      if order[j] !in added {
        assert kept + (sofar + [order[j]]) == newPreference + [order[j]];
        newPreference := newPreference + [order[j]];
      } else {
        assert sofar + [] == sofar;
      }
    }
    assert order[..|order|] == order;
  }
}
