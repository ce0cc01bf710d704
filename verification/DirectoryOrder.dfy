/** The order in which a directory's children come back: that of their lowercased
    names, byte by byte, whatever order they were made in. */
module DirectoryOrder {

  predicate Less(a: string, b: string) {
    b != "" && (a == "" || a[0] < b[0] || (a[0] == b[0] && Less(a[1..], b[1..])))
  }

  predicate Sorted(keys: seq<string>) {
    forall i, j | 0 <= i < j < |keys| :: Less(keys[i], keys[j])
  }

  lemma {:induction false} LessIrreflexive(a: string)
    ensures !Less(a, a)
  {
    if a != "" {
      LessIrreflexive(a[1..]);
    }
  }

  lemma {:induction false} LessTotal(a: string, b: string)
    ensures a == b || Less(a, b) || Less(b, a)
  {
    if a != "" && b != "" && a[0] == b[0] {
      LessTotal(a[1..], b[1..]);
      assert a == [a[0]] + a[1..] && b == [b[0]] + b[1..];
    }
  }

  lemma {:induction false} LessTransitive(a: string, b: string, c: string)
    requires Less(a, b) && Less(b, c)
    ensures Less(a, c)
  {
    if a != "" && b != "" && a[0] == b[0] == c[0] {
      LessTransitive(a[1..], b[1..], c[1..]);
    }
  }

  ghost function Elements(keys: seq<string>): set<string> {
    set k | k in keys
  }

  /** There is one sorted list of any keys, so the order of their making leaves no trace. */
  lemma {:induction false} SortedUnique(a: seq<string>, b: seq<string>)
    requires Sorted(a) && Sorted(b) && Elements(a) == Elements(b)
    ensures a == b
    decreases |a|
  {
    NonEmpty(a);
    NonEmpty(b);
    if a != [] && b != [] {
      SameFirst(a, b);
      Rest(a);
      Rest(b);
      SortedUnique(a[1..], b[1..]);
      assert a == [a[0]] + a[1..] && b == [b[0]] + b[1..];
    }
  }

  lemma NonEmpty(a: seq<string>)
    ensures Elements(a) == {} <==> a == []
  {
    if a != [] {
      assert a[0] in Elements(a);
    }
  }

  lemma SameFirst(a: seq<string>, b: seq<string>)
    requires Sorted(a) && Sorted(b) && Elements(a) == Elements(b) && a != [] && b != []
    ensures a[0] == b[0]
  {
    assert a[0] in Elements(b) && b[0] in Elements(a);
    var i :| 0 <= i < |b| && b[i] == a[0];
    var j :| 0 <= j < |a| && a[j] == b[0];
    if i > 0 && j > 0 {
      LessTransitive(a[0], a[j], b[i]);
      LessIrreflexive(a[0]);
    }
  }

  lemma Rest(a: seq<string>)
    requires Sorted(a) && a != []
    ensures Sorted(a[1..]) && Elements(a[1..]) == Elements(a) - {a[0]}
  {
    LessIrreflexive(a[0]);
    forall k
      ensures k in Elements(a[1..]) <==> k in Elements(a) && k != a[0]
    {
      if k in a && k != a[0] {
        var i :| 0 <= i < |a| && a[i] == k;
        assert a[1..][i - 1] == k;
      }
      if k in a[1..] {
        var i :| 0 <= i < |a[1..]| && a[1..][i] == k;
        assert a[i + 1] == k && Less(a[0], a[i + 1]);
      }
    }
  }

  lemma InsertSorted(keys: seq<string>, i: nat, key: string)
    requires Sorted(keys) && i <= |keys|
    requires forall j | 0 <= j < i :: Less(keys[j], key)
    requires forall j | i <= j < |keys| :: Less(key, keys[j])
    ensures Sorted(keys[..i] + [key] + keys[i..])
  {
  }

  /** The keys of a children map in the order the map is walked. */
  method InOrder(keys: set<string>) returns (sorted: seq<string>)
    ensures Sorted(sorted) && Elements(sorted) == keys
  {
    sorted := [];
    var rest := keys;
    while rest != {}
      invariant rest <= keys && Sorted(sorted) && Elements(sorted) == keys - rest
      decreases rest
    {
      var key :| key in rest;
      var i := 0;
      while i < |sorted| && Less(sorted[i], key)
        invariant i <= |sorted| && forall j | 0 <= j < i :: Less(sorted[j], key)
      {
        i := i + 1;
      }
      forall j | i <= j < |sorted|
        ensures Less(key, sorted[j])
      {
        assert sorted[j] in Elements(sorted);
        LessTotal(key, sorted[j]);
        if Less(sorted[j], key) && i < j {
          LessTransitive(sorted[i], sorted[j], key);
        }
      }
      InsertSorted(sorted, i, key);
      ghost var before := sorted;
      sorted := sorted[..i] + [key] + sorted[i..];
      assert forall k :: k in sorted <==> k in before || k == key;
      assert Elements(sorted) == Elements(before) + {key};
      rest := rest - {key};
    }
  }
}
