/**
 Sorting as Python's `sorted` does it: stable, by a strict weak order. The orders used by the
 program compare byte or code-unit strings (file names, record IDs, UTF-16 keys) or pairs of a
 number and an index, so the lexicographic order on integer sequences lives here too.
 */
module Ordering {

  /** Asymmetric and transitive, and incomparability is transitive. */
  ghost predicate StrictWeak<T(!new)>(less: (T, T) -> bool) {
    && (forall a, b :: less(a, b) ==> !less(b, a))
    && (forall a, b, c :: less(a, b) && less(b, c) ==> less(a, c))
    && (forall a, b, c :: less(a, c) ==> less(a, b) || less(b, c))
  }

  ghost predicate Total<T(!new)>(less: (T, T) -> bool) {
    forall a, b :: a != b ==> less(a, b) || less(b, a)
  }

  ghost predicate Ascending<T>(less: (T, T) -> bool, s: seq<T>) {
    forall i, j :: 0 <= i < j < |s| ==> less(s[i], s[j])
  }

  ghost predicate NeverDescending<T>(less: (T, T) -> bool, s: seq<T>) {
    forall i, j :: 0 <= i < j < |s| ==> !less(s[j], s[i])
  }

  ghost predicate Distinct<T>(s: seq<T>) {
    forall i, j :: 0 <= i < j < |s| ==> s[i] != s[j]
  }

  function Insert<T>(less: (T, T) -> bool, x: T, s: seq<T>): (r: seq<T>)
    ensures |r| == |s| + 1
  {
    if s == [] then [x]
    else if less(x, s[0]) then [x] + s
    else [s[0]] + Insert(less, x, s[1..])
  }

  function Sort<T>(less: (T, T) -> bool, s: seq<T>): (r: seq<T>)
    ensures |r| == |s|
  {
    if s == [] then [] else Insert(less, s[|s| - 1], Sort(less, s[..|s| - 1]))
  }

  lemma {:induction false} InsertMembers<T>(less: (T, T) -> bool, x: T, s: seq<T>)
    ensures multiset(Insert(less, x, s)) == multiset(s) + multiset{x}
  {
    if s == [] {
    } else if less(x, s[0]) {
    } else {
      InsertMembers(less, x, s[1..]);
      assert s == [s[0]] + s[1..];
    }
  }

  lemma {:induction false} InsertKeepsOrder<T(!new)>(less: (T, T) -> bool, x: T, s: seq<T>)
    requires StrictWeak(less) && NeverDescending(less, s)
    ensures NeverDescending(less, Insert(less, x, s))
  {
    if s == [] {
    } else if less(x, s[0]) {
    } else {
      var tail := Insert(less, x, s[1..]);
      InsertKeepsOrder(less, x, s[1..]);
      InsertMembers(less, x, s[1..]);
      forall j | 0 <= j < |tail|
        ensures !less(tail[j], s[0])
      {
        assert tail[j] in multiset(tail);
        if tail[j] != x {
          assert tail[j] in s[1..];
        }
      }
    }
  }

  /** Sorting permutes its input and leaves no descent. */
  lemma {:induction false} SortSorts<T(!new)>(less: (T, T) -> bool, s: seq<T>)
    requires StrictWeak(less)
    ensures multiset(Sort(less, s)) == multiset(s)
    ensures NeverDescending(less, Sort(less, s))
  {
    if s != [] {
      var front := s[..|s| - 1];
      assert s == front + [s[|s| - 1]];
      SortSorts(less, front);
      InsertMembers(less, s[|s| - 1], Sort(less, front));
      InsertKeepsOrder(less, s[|s| - 1], Sort(less, front));
    }
  }

  /** When the members are pairwise comparable, the sorted sequence strictly ascends. */
  lemma ComparableSortAscends<T(!new)>(less: (T, T) -> bool, s: seq<T>)
    requires StrictWeak(less)
    requires forall i, j :: 0 <= i < j < |s| ==> less(s[i], s[j]) || less(s[j], s[i])
    ensures Ascending(less, Sort(less, s)) && multiset(Sort(less, s)) == multiset(s)
  {
    SortSorts(less, s);
    var r := Sort(less, s);
    forall i, j | 0 <= i < j < |r|
      ensures less(r[i], r[j])
    {
      assert !less(r[j], r[i]);
      if r[i] == r[j] {
        SplitTwice(r, i, j);
        TwoPlaces(s, r[i]);
      } else {
        assert r[i] in multiset(r) && r[j] in multiset(r);
        assert r[i] in s && r[j] in s;
        var a :| 0 <= a < |s| && s[a] == r[i];
        var b :| 0 <= b < |s| && s[b] == r[j];
        assert a < b || b < a;
      }
    }
  }

  /** Pairwise comparable values sort alike in whatever order they come. */
  lemma PermutedSortsAlike<T(!new)>(less: (T, T) -> bool, a: seq<T>, b: seq<T>)
    requires StrictWeak(less) && multiset(a) == multiset(b)
    requires forall i, j :: 0 <= i < j < |a| ==> less(a[i], a[j]) || less(a[j], a[i])
    ensures Sort(less, a) == Sort(less, b)
    ensures forall i, j :: 0 <= i < j < |b| ==> less(b[i], b[j]) || less(b[j], b[i])
  {
    hide Sort;
    forall i, j | 0 <= i < j < |b|
      ensures less(b[i], b[j]) || less(b[j], b[i])
    {
      assert b[i] in multiset(b) && b[j] in multiset(b);
      assert b[i] in multiset(a) && b[j] in multiset(a);
      if b[i] == b[j] {
        SplitTwice(b, i, j);
        TwoPlaces(a, b[i]);
      } else {
        var p :| 0 <= p < |a| && a[p] == b[i];
        var q :| 0 <= q < |a| && a[q] == b[j];
        assert p < q || q < p;
      }
    }
    ComparableSortAscends(less, a);
    ComparableSortAscends(less, b);
    forall x
      ensures x in Sort(less, a) <==> x in Sort(less, b)
    {
      assert x in multiset(Sort(less, a)) <==> x in multiset(Sort(less, b));
    }
    AscendingUnique(less, Sort(less, a), Sort(less, b));
  }

  lemma SplitTwice<T>(r: seq<T>, i: nat, j: nat)
    requires i < j < |r| && r[i] == r[j]
    ensures multiset(r)[r[i]] >= 2
  {
    assert r == r[..i] + [r[i]] + r[i + 1..j] + [r[j]] + r[j + 1..];
  }

  lemma {:induction false} TwoPlaces<T>(s: seq<T>, x: T)
    requires multiset(s)[x] >= 2
    ensures exists i, j :: 0 <= i < j < |s| && s[i] == x && s[j] == x
  {
    assert x in s;
    var i :| 0 <= i < |s| && s[i] == x;
    assert s == s[..i] + [x] + s[i + 1..];
    if x in s[..i] {
      var j :| 0 <= j < i && s[..i][j] == x;
      assert s[j] == x;
    } else {
      assert x in s[i + 1..];
      var j :| 0 <= j < |s[i + 1..]| && s[i + 1..][j] == x;
      assert s[i + 1 + j] == x;
    }
  }

  /** Taking one element out of a sequence takes one occurrence out of its multiset. */
  lemma Removed<T>(s: seq<T>, j: nat)
    requires j < |s|
    ensures multiset(s[..j] + s[j + 1..]) == multiset(s) - multiset{s[j]}
    ensures s == s[..j] + ([s[j]] + s[j + 1..])
  {
    assert s == s[..j] + ([s[j]] + s[j + 1..]);
  }

  /** Where the last element of a sequence stands in a permutation of it. */
  lemma LastElsewhere<T>(a: seq<T>, b: seq<T>) returns (j: nat)
    requires a != [] && multiset(a) == multiset(b)
    ensures j < |b| && b[j] == a[|a| - 1] && b == b[..j] + ([b[j]] + b[j + 1..])
    ensures multiset(a[..|a| - 1]) == multiset(b[..j] + b[j + 1..]) && a == a[..|a| - 1] + [a[|a| - 1]]
  {
    var x := a[|a| - 1];
    assert a == a[..|a| - 1] + [x];
    assert x in multiset(a);
    assert x in b;
    j :| 0 <= j < |b| && b[j] == x;
    Removed(b, j);
  }

  /** A set of values has only one strictly ascending listing. */
  lemma {:induction false} AscendingUnique<T(!new)>(less: (T, T) -> bool, a: seq<T>, b: seq<T>)
    requires StrictWeak(less)
    requires Ascending(less, a) && Ascending(less, b)
    requires forall x :: x in a <==> x in b
    ensures a == b
  {
    assert b == [] || (b[0] in b && b[0] in a);
    if a != [] {
      assert a[0] in a && a[0] in b;
      assert b[0] in b && b[0] in a;
      var i :| 0 <= i < |b| && b[i] == a[0];
      var j :| 0 <= j < |a| && a[j] == b[0];
      assert a[0] == b[0];
      forall x
        ensures x in a[1..] <==> x in b[1..]
      {
        if x in a[1..] {
          assert x in a && less(a[0], x) && x in b;
        }
        if x in b[1..] {
          assert x in b && less(b[0], x) && x in a;
        }
      }
      AscendingUnique(less, a[1..], b[1..]);
      assert a == [a[0]] + a[1..] && b == [b[0]] + b[1..];
    }
  }

  /** The lexicographic order on sequences of integers: Python's order on bytes and on strings. */
  predicate LexLess(a: seq<int>, b: seq<int>) {
    b != [] && (a == [] || a[0] < b[0] || (a[0] == b[0] && LexLess(a[1..], b[1..])))
  }

  /** Two sequences agree before this place, where the first one ends or holds the smaller number. */
  predicate SmallerFrom(a: seq<int>, b: seq<int>, k: nat) {
    k <= |a| && k < |b| && a[..k] == b[..k] && (k == |a| || a[k] < b[k])
  }

  lemma SmallerFromNext(a: seq<int>, b: seq<int>, k: nat)
    requires a != [] && b != []
    ensures SmallerFrom(a, b, k + 1) <==> a[0] == b[0] && SmallerFrom(a[1..], b[1..], k)
  {
    if k < |a| && k < |b| {
      assert a[..k + 1] == [a[0]] + a[1..][..k] && b[..k + 1] == [b[0]] + b[1..][..k];
      assert a[..k + 1] == b[..k + 1] ==> a[1..][..k] == b[1..][..k] by {
        assert a[1..][..k] == a[..k + 1][1..] && b[1..][..k] == b[..k + 1][1..];
      }
      assert a[..k + 1] == b[..k + 1] ==> a[..k + 1][0] == b[..k + 1][0];
    }
  }

  /** The first place where two sequences differ decides; a proper prefix comes first. */
  lemma {:induction false} LexLessExactly(a: seq<int>, b: seq<int>)
    ensures LexLess(a, b) <==> exists k: nat :: SmallerFrom(a, b, k)
  {
    assert b != [] && (a == [] || a[0] < b[0]) ==> SmallerFrom(a, b, 0);
    if a != [] && b != [] {
      LexLessExactly(a[1..], b[1..]);
      forall k: nat
        ensures SmallerFrom(a, b, k + 1) <==> a[0] == b[0] && SmallerFrom(a[1..], b[1..], k)
      {
        SmallerFromNext(a, b, k);
      }
      forall k: nat | SmallerFrom(a, b, k)
        ensures a[0] < b[0] || (a[0] == b[0] && SmallerFrom(a[1..], b[1..], k - 1))
      {
        if k > 0 {
          SmallerFromNext(a, b, k - 1);
        }
      }
    }
  }

  lemma {:induction false} LexAsymmetric(a: seq<int>, b: seq<int>)
    requires LexLess(a, b)
    ensures !LexLess(b, a)
  {
    if a != [] && a[0] == b[0] {
      LexAsymmetric(a[1..], b[1..]);
    }
  }

  lemma {:induction false} LexTransitive(a: seq<int>, b: seq<int>, c: seq<int>)
    requires LexLess(a, b) && LexLess(b, c)
    ensures LexLess(a, c)
  {
    if a != [] && a[0] == b[0] == c[0] {
      LexTransitive(a[1..], b[1..], c[1..]);
    }
  }

  lemma {:induction false} LexTotal(a: seq<int>, b: seq<int>)
    requires a != b
    ensures LexLess(a, b) || LexLess(b, a)
  {
    if a != [] && b != [] && a[0] == b[0] {
      assert a == [a[0]] + a[1..] && b == [b[0]] + b[1..];
      LexTotal(a[1..], b[1..]);
    }
  }

  /** Comparing keys lexicographically is a strict weak order on the keyed values. */
  lemma LexKeyOrder<T(!new)>(less: (T, T) -> bool, key: T -> seq<int>)
    requires forall a, b :: less(a, b) <==> LexLess(key(a), key(b))
    ensures StrictWeak(less)
    ensures forall a, b :: key(a) != key(b) ==> less(a, b) || less(b, a)
    ensures forall a, b :: less(a, b) ==> key(a) != key(b)
  {
    forall a, b | less(a, b)
      ensures !less(b, a) && key(a) != key(b)
    {
      LexAsymmetric(key(a), key(b));
    }
    forall a, b, c | less(a, b) && less(b, c)
      ensures less(a, c)
    {
      LexTransitive(key(a), key(b), key(c));
    }
    forall a, b | key(a) != key(b)
      ensures less(a, b) || less(b, a)
    {
      LexTotal(key(a), key(b));
    }
  }

  /** The code points of a string, the key under which Python compares it. */
  function Codes(s: string): (r: seq<int>)
    ensures |r| == |s|
  {
    seq(|s|, i requires 0 <= i < |s| => s[i] as int)
  }

  lemma CodesInjective(a: string, b: string)
    requires Codes(a) == Codes(b)
    ensures a == b
  {
    assert |a| == |b|;
    forall i | 0 <= i < |a|
      ensures a[i] == b[i]
    {
      assert Codes(a)[i] == a[i] as int && Codes(b)[i] == b[i] as int;
    }
  }

  predicate StringLess(a: string, b: string) {
    LexLess(Codes(a), Codes(b))
  }

  lemma StringOrder()
    ensures StrictWeak(StringLess) && Total(StringLess)
  {
    LexKeyOrder(StringLess, Codes);
    forall a: string, b: string | a != b
      ensures StringLess(a, b) || StringLess(b, a)
    {
      if Codes(a) == Codes(b) {
        CodesInjective(a, b);
      }
    }
  }

  /** Two strings that agree before position k and differ there compare as their characters do. */
  lemma {:induction false} DecidedAt(a: seq<int>, b: seq<int>, k: nat)
    requires k < |a| && k < |b| && a[..k] == b[..k] && a[k] < b[k]
    ensures LexLess(a, b)
  {
    if k > 0 {
      assert a[0] == a[..k][0] && b[0] == b[..k][0];
      assert a[1..][..k - 1] == a[..k][1..] && b[1..][..k - 1] == b[..k][1..];
      DecidedAt(a[1..], b[1..], k - 1);
    }
  }
}
