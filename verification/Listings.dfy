/** The members of a set of strings in sorted order: directory listings and sorted dictionary keys. */
module Listings {
  import opened Ordering

  ghost function AnyOrder(keys: set<string>): (s: seq<string>)
    ensures forall x :: x in s <==> x in keys
    ensures Distinct(s)
  {
    if keys == {} then []
    else
      var x :| x in keys;
      [x] + AnyOrder(keys - {x})
  }

  /** The names of a directory in sorted order. */
  ghost function Listing(keys: set<string>): (s: seq<string>)
    ensures Ascending(StringLess, s)
    ensures forall x :: x in s <==> x in keys
  {
    StringOrder();
    ComparableSortAscends(StringLess, AnyOrder(keys));
    MultisetMembers(Sort(StringLess, AnyOrder(keys)), AnyOrder(keys));
    Sort(StringLess, AnyOrder(keys))
  }

  lemma MultisetMembers<T>(a: seq<T>, b: seq<T>)
    requires multiset(a) == multiset(b)
    ensures forall x :: x in a <==> x in b
  {
    forall x
      ensures x in a <==> x in b
    {
      assert x in a <==> x in multiset(a);
      assert x in b <==> x in multiset(b);
    }
  }

  lemma ListingIs(keys: set<string>, s: seq<string>)
    requires Ascending(StringLess, s)
    requires forall x :: x in s <==> x in keys
    ensures Listing(keys) == s
  {
    StringOrder();
    AscendingUnique(StringLess, Listing(keys), s);
  }

  method ListDirectory(keys: set<string>) returns (names: seq<string>)
    ensures names == Listing(keys)
  {
    var pending, found := keys, [];
    while pending != {}
      invariant pending <= keys
      invariant forall x :: x in found <==> x in keys && x !in pending
      invariant Distinct(found)
      decreases |pending|
    {
      var x :| x in pending;
      pending, found := pending - {x}, found + [x];
    }
    names := Sort(StringLess, found);
    StringOrder();
    ComparableSortAscends(StringLess, found);
    MultisetMembers(names, found);
    ListingIs(keys, names);
  }
}
