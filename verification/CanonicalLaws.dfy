/**
 The laws of canonical JSON: printed text reads back to the same value, equal values and only
 equal values print alike, and printing again gives the same text exactly for safe integers.
 */
module CanonicalLaws {
  import opened Canonical
  import opened JsonNumbers
  import opened JsonStrings
  import opened NumberLaws
  import opened Ordering
  import opened Outcomes

  /** Equality of JSON values: numbers by value, objects without regard to member order. */
  predicate SameJson(v: JSON, w: JSON)
    decreases v, 0
  {
    match (v, w)
    case (Num(a), Num(b)) => NumericallyEqual(a, b)
    case (Arr(a), Arr(b)) => |a| == |b| && forall i :: 0 <= i < |a| ==> SameJson(a[i], b[i])
    case (Obj(a), Obj(b)) => |a| == |b| && forall i :: 0 <= i < |a| ==> Matched(a[i], b)
    case _ => v == w
  }

  /** Some member of the other object has the same key and an equal value. */
  predicate Matched(m: Member, ms: seq<Member>)
    decreases m, 1
  {
    exists j :: 0 <= j < |ms| && ms[j].key == m.key && SameJson(m.value, ms[j].value)
  }

  // ----- sorting the members

  function Keys(ms: seq<Member>): (r: seq<string>)
    ensures |r| == |ms|
  {
    seq(|ms|, i requires 0 <= i < |ms| => ms[i].key)
  }

  predicate KeyLess(a: string, b: string) {
    LexLess(Utf16(a), Utf16(b))
  }

  lemma KeyOrders()
    ensures StrictWeak(MemberLess) && StrictWeak(KeyLess)
    ensures forall a: Member, b: Member :: a.key != b.key ==> MemberLess(a, b) || MemberLess(b, a)
    ensures forall a: Member, b: Member :: MemberLess(a, b) ==> a.key != b.key
  {
    hide LexLess, Utf16;
    LexKeyOrder(MemberLess, (m: Member) => Utf16(m.key));
    LexKeyOrder(KeyLess, (key: string) => Utf16(key));
    forall a: Member, b: Member | a.key != b.key
      ensures MemberLess(a, b) || MemberLess(b, a)
    {
      if Utf16(a.key) == Utf16(b.key) {
        Utf16Injective(a.key, b.key);
      }
    }
  }

  /** Sorting a dictionary's members keeps them and leaves their keys strictly ascending. */
  lemma SortedMembers(ms: seq<Member>)
    requires DistinctKeys(ms)
    ensures var s := Sort(MemberLess, ms);
      multiset(s) == multiset(ms) && DistinctKeys(s) && Ascending(KeyLess, Keys(s))
  {
    hide LexLess, Utf16, Sort;
    KeyOrders();
    forall i, j | 0 <= i < j < |ms|
      ensures MemberLess(ms[i], ms[j]) || MemberLess(ms[j], ms[i])
    {
      assert ms[i].key != ms[j].key;
    }
    ComparableSortAscends(MemberLess, ms);
    var s := Sort(MemberLess, ms);
    forall i, j | 0 <= i < j < |s|
      ensures s[i].key != s[j].key && KeyLess(Keys(s)[i], Keys(s)[j])
    {
      assert MemberLess(s[i], s[j]);
    }
  }

  lemma OrderedDistinct(ms: seq<Member>)
    requires DistinctKeys(ms)
    ensures DistinctKeys(OrderedMembers(ms))
  {
  }

  /** Where a member of the dictionary ends up, and where a sorted member came from. */
  lemma SortedPosition(ms: seq<Member>, p: nat) returns (i: nat)
    requires DistinctKeys(ms) && p < |ms|
    ensures i < |ms| && Sort(MemberLess, OrderedMembers(ms))[i] == OrderedMember(ms[p])
  {
    hide Sort, Ordered;
    OrderedDistinct(ms);
    SortedMembers(OrderedMembers(ms));
    var s := Sort(MemberLess, OrderedMembers(ms));
    assert OrderedMembers(ms)[p] in multiset(OrderedMembers(ms));
    assert OrderedMembers(ms)[p] in multiset(s);
    i :| 0 <= i < |s| && s[i] == OrderedMembers(ms)[p];
  }

  lemma UnsortedPosition(ms: seq<Member>, i: nat) returns (p: nat)
    requires DistinctKeys(ms) && i < |ms|
    ensures p < |ms| && Sort(MemberLess, OrderedMembers(ms))[i] == OrderedMember(ms[p])
  {
    hide Sort, Ordered;
    OrderedDistinct(ms);
    SortedMembers(OrderedMembers(ms));
    var s := Sort(MemberLess, OrderedMembers(ms));
    assert s[i] in multiset(s);
    assert s[i] in multiset(OrderedMembers(ms));
    p :| 0 <= p < |ms| && OrderedMembers(ms)[p] == s[i];
  }

  lemma {:induction false} OrderedKeeps(v: JSON, p: Number -> bool)
    requires WellFormed(v)
    ensures WellFormed(Ordered(v)) && (Every(Ordered(v), p) <==> Every(v, p))
  {
    hide Sort;
    match v {
      case Arr(items) =>
        forall i | 0 <= i < |items|
          ensures var item := Ordered(v).items[i];
            item == Ordered(items[i]) && WellFormed(item) && (Every(item, p) <==> Every(items[i], p))
        {
          OrderedKeeps(items[i], p);
        }
      case Obj(ms) =>
        MembersKept(ms, p);
      case _ =>
    }
  }

  lemma {:induction false} MembersKept(ms: seq<Member>, p: Number -> bool)
    requires WellFormed(Obj(ms))
    ensures WellFormed(Ordered(Obj(ms))) && (Every(Ordered(Obj(ms)), p) <==> Every(Obj(ms), p))
    decreases ms
  {
    hide Sort;
    var s := Sort(MemberLess, OrderedMembers(ms));
    OrderedDistinct(ms);
    SortedMembers(OrderedMembers(ms));
    forall i | 0 <= i < |ms|
      ensures WellFormed(s[i].value) && (Every(Obj(ms), p) ==> Every(s[i].value, p))
    {
      var q := UnsortedPosition(ms, i);
      OrderedKeeps(ms[q].value, p);
    }
    if Every(Obj(s), p) {
      forall i | 0 <= i < |ms|
        ensures Every(ms[i].value, p)
      {
        var q := SortedPosition(ms, i);
        OrderedKeeps(ms[i].value, p);
      }
    }
  }

  // ----- equal values print alike

  lemma {:induction false} SubsetOfSameSize<T>(a: set<T>, b: set<T>)
    requires a <= b && |a| == |b|
    ensures a == b
  {
    assert |b - a| == 0;
  }

  function KeySet(ms: seq<Member>): set<string> {
    set i | 0 <= i < |ms| :: ms[i].key
  }

  lemma {:induction false} KeyCount(ms: seq<Member>)
    requires DistinctKeys(ms)
    ensures |KeySet(ms)| == |ms|
  {
    if ms != [] {
      var front := ms[..|ms| - 1];
      KeyCount(front);
      assert KeySet(ms) == KeySet(front) + {ms[|ms| - 1].key};
    }
  }

  /** Equal dictionaries have the same keys: matched one way and of one size. */
  lemma SameKeys(a: seq<Member>, b: seq<Member>)
    requires DistinctKeys(a) && DistinctKeys(b) && SameJson(Obj(a), Obj(b))
    ensures KeySet(a) == KeySet(b)
  {
    KeyCount(a);
    KeyCount(b);
    forall key | key in KeySet(a)
      ensures key in KeySet(b)
    {
      var i :| 0 <= i < |a| && a[i].key == key;
      assert Matched(a[i], b);
    }
    SubsetOfSameSize(KeySet(a), KeySet(b));
  }

  lemma SortedKeySet(ms: seq<Member>)
    requires DistinctKeys(ms)
    ensures forall key :: key in Keys(Sort(MemberLess, OrderedMembers(ms))) <==> key in KeySet(ms)
  {
    hide Sort, Ordered;
    var s := Sort(MemberLess, OrderedMembers(ms));
    forall key | key in Keys(s)
      ensures key in KeySet(ms)
    {
      var i :| 0 <= i < |s| && s[i].key == key;
      var p := UnsortedPosition(ms, i);
    }
    forall key | key in KeySet(ms)
      ensures key in Keys(s)
    {
      var p :| 0 <= p < |ms| && ms[p].key == key;
      var i := SortedPosition(ms, p);
      assert Keys(s)[i] == key;
    }
  }

  lemma SortedKeysAgree(a: seq<Member>, b: seq<Member>)
    requires DistinctKeys(a) && DistinctKeys(b) && KeySet(a) == KeySet(b)
    ensures Keys(Sort(MemberLess, OrderedMembers(a))) == Keys(Sort(MemberLess, OrderedMembers(b)))
  {
    hide Sort, Ordered, KeySet, Keys, KeyLess, MemberLess, LexLess;
    OrderedDistinct(a);
    OrderedDistinct(b);
    SortedMembers(OrderedMembers(a));
    SortedMembers(OrderedMembers(b));
    SortedKeySet(a);
    SortedKeySet(b);
    KeyOrders();
    AscendingUnique(KeyLess, Keys(Sort(MemberLess, OrderedMembers(a))), Keys(Sort(MemberLess, OrderedMembers(b))));
  }

  /** Values that are equal and print at all have one text. */
  lemma {:induction false} EqualPrintAlike(v: JSON, w: JSON)
    requires WellFormed(v) && WellFormed(w) && Every(v, Prints) && Every(w, Prints) && SameJson(v, w)
    ensures PlainText(Ordered(v)) == PlainText(Ordered(w))
    decreases v, 1
  {
    hide Sort, NumericallyEqual, NumberText, Join;
    match v {
      case Num(a) => SamePrintableText(a, w.number);
      case Arr(items) =>
        var texts, others := ItemTexts(Ordered(v).items), ItemTexts(Ordered(w).items);
        forall i | 0 <= i < |items|
          ensures texts[i] == others[i]
        {
          EqualPrintAlike(items[i], w.items[i]);
        }
        assert texts == others;
      case Obj(ms) => EqualObjects(ms, w.members);
      case _ =>
    }
  }

  lemma {:induction false} EqualObjects(a: seq<Member>, b: seq<Member>)
    requires WellFormed(Obj(a)) && WellFormed(Obj(b)) && Every(Obj(a), Prints) && Every(Obj(b), Prints)
    requires SameJson(Obj(a), Obj(b))
    ensures PlainText(Ordered(Obj(a))) == PlainText(Ordered(Obj(b)))
    decreases a, 0
  {
    hide Sort, NumericallyEqual, NumberText, Join, KeySet, JsonString;
    SameKeys(a, b);
    SortedKeysAgree(a, b);
    var s, t := Sort(MemberLess, OrderedMembers(a)), Sort(MemberLess, OrderedMembers(b));
    forall i | 0 <= i < |s|
      ensures MemberText(s[i]) == MemberText(t[i])
    {
      assert s[i].key == Keys(s)[i] == Keys(t)[i] == t[i].key;
      var p := UnsortedPosition(a, i);
      var q := UnsortedPosition(b, i);
      assert Matched(a[p], b);
      EqualPrintAlike(a[p].value, b[q].value);
    }
    assert MemberTexts(s) == MemberTexts(t);
  }

  // ----- reading back decides equality

  lemma ItemReadBack(items: seq<JSON>, i: nat)
    requires i < |items|
    ensures ReadBack(Arr(items)).Arr? && |ReadBack(Arr(items)).items| == |items|
    ensures ReadBack(Arr(items)).items[i] == ReadBack(items[i])
  {
    var ordered := Ordered(Arr(items)).items;
    assert ordered[i] == Ordered(items[i]);
    assert Reread(Arr(ordered)).items[i] == Reread(ordered[i]);
  }

  lemma {:induction false} ReadBackDecides(v: JSON, w: JSON)
    requires WellFormed(v) && WellFormed(w) && ReadBack(v) == ReadBack(w)
    ensures SameJson(v, w)
    decreases v, 1
  {
    hide Sort, NumericallyEqual, NormalOf;
    match v {
      case Num(a) =>
        NormalIsSameNumber(a);
        NormalIsSameNumber(w.number);
        EqualSymmetric(w.number, NormalOf(w.number));
        EqualTransitive(a, NormalOf(a), w.number);
      case Arr(items) =>
        forall i | 0 <= i < |items|
          ensures SameJson(items[i], w.items[i])
        {
          ItemReadBack(items, i);
          ItemReadBack(w.items, i);
          ReadBackDecides(items[i], w.items[i]);
        }
      case Obj(ms) => ObjectsDecide(ms, w.members);
      case _ =>
    }
  }

  lemma {:induction false} ObjectsDecide(a: seq<Member>, b: seq<Member>)
    requires WellFormed(Obj(a)) && WellFormed(Obj(b)) && ReadBack(Obj(a)) == ReadBack(Obj(b))
    ensures SameJson(Obj(a), Obj(b))
    decreases a, 0
  {
    hide Sort, NumericallyEqual, NormalOf;
    var s, t := Sort(MemberLess, OrderedMembers(a)), Sort(MemberLess, OrderedMembers(b));
    assert RereadMembers(s) == RereadMembers(t);
    assert |a| == |b|;
    forall p | 0 <= p < |a|
      ensures Matched(a[p], b)
    {
      var i := SortedPosition(a, p);
      var q := UnsortedPosition(b, i);
      assert RereadMembers(s)[i] == RereadMembers(t)[i];
      ReadBackDecides(a[p].value, b[q].value);
    }
  }

  /** What reads back is the value that was printed. */
  lemma {:induction false} ReadBackIsSame(v: JSON)
    requires WellFormed(v)
    ensures SameJson(v, ReadBack(v)) && WellFormed(ReadBack(v))
  {
    hide Sort, NumericallyEqual, NormalOf;
    match v {
      case Num(a) => NormalIsSameNumber(a);
      case Arr(items) =>
        forall i | 0 <= i < |items|
          ensures SameJson(items[i], ReadBack(v).items[i]) && WellFormed(ReadBack(v).items[i])
        {
          ReadBackIsSame(items[i]);
          ItemReadBack(items, i);
        }
      case Obj(ms) =>
        ObjectReadBack(ms);
      case _ =>
    }
  }

  lemma {:induction false} ObjectReadBack(ms: seq<Member>)
    requires WellFormed(Obj(ms))
    ensures SameJson(Obj(ms), ReadBack(Obj(ms))) && WellFormed(ReadBack(Obj(ms)))
    decreases ms
  {
    hide Sort, NumericallyEqual, NormalOf;
    var s := Sort(MemberLess, OrderedMembers(ms));
    OrderedDistinct(ms);
    SortedMembers(OrderedMembers(ms));
    var back := RereadMembers(s);
    assert ReadBack(Obj(ms)) == Obj(back);
    assert DistinctKeys(back);
    forall p | 0 <= p < |ms|
      ensures Matched(ms[p], back)
    {
      var i := SortedPosition(ms, p);
      ReadBackIsSame(ms[p].value);
      assert back[i] == Member(ms[p].key, ReadBack(ms[p].value));
    }
    forall i | 0 <= i < |back|
      ensures WellFormed(back[i].value)
    {
      var p := UnsortedPosition(ms, i);
      ReadBackIsSame(ms[p].value);
    }
  }

  // ----- the tree limits and the numbers of what reads back

  lemma {:induction false} RereadLimits(v: JSON, limits: Limits, depth: nat)
    ensures WithinLimits(Reread(v), limits, depth) <==> WithinLimits(v, limits, depth)
    decreases v
  {
    hide NormalOf, Utf8Length;
    match v {
      case Arr(items) =>
        forall i | 0 <= i < |items|
          ensures WithinLimits(Reread(v).items[i], limits, depth + 1) <==> WithinLimits(items[i], limits, depth + 1)
        {
          RereadLimits(items[i], limits, depth + 1);
        }
      case Obj(ms) =>
        var back := Reread(v).members;
        assert back == RereadMembers(ms);
        forall i | 0 <= i < |ms|
          ensures back[i].key == ms[i].key
          ensures WithinLimits(back[i].value, limits, depth + 1) <==> WithinLimits(ms[i].value, limits, depth + 1)
        {
          RereadLimits(ms[i].value, limits, depth + 1);
        }
      case _ =>
    }
  }

  lemma {:induction false} OrderedLimits(v: JSON, limits: Limits, depth: nat)
    requires WellFormed(v)
    ensures WithinLimits(Ordered(v), limits, depth) <==> WithinLimits(v, limits, depth)
    decreases v, 1
  {
    hide Sort, Utf8Length;
    match v {
      case Arr(items) =>
        forall i | 0 <= i < |items|
          ensures var item := Ordered(v).items[i];
            item == Ordered(items[i]) && (WithinLimits(item, limits, depth + 1) <==> WithinLimits(items[i], limits, depth + 1))
        {
          OrderedLimits(items[i], limits, depth + 1);
        }
      case Obj(ms) => OrderedObjectLimits(ms, limits, depth);
      case _ =>
    }
  }

  lemma {:induction false} OrderedObjectLimits(ms: seq<Member>, limits: Limits, depth: nat)
    requires WellFormed(Obj(ms))
    ensures WithinLimits(Ordered(Obj(ms)), limits, depth) <==> WithinLimits(Obj(ms), limits, depth)
    decreases ms, 0
  {
    hide Sort, Utf8Length;
    var s := Sort(MemberLess, OrderedMembers(ms));
    forall i | 0 <= i < |ms|
      ensures WithinLimits(Obj(ms), limits, depth)
        ==> Utf8Length(s[i].key) <= limits.stringBytes && WithinLimits(s[i].value, limits, depth + 1)
      ensures WithinLimits(Obj(s), limits, depth)
        ==> Utf8Length(ms[i].key) <= limits.stringBytes && WithinLimits(ms[i].value, limits, depth + 1)
    {
      var p := UnsortedPosition(ms, i);
      OrderedLimits(ms[p].value, limits, depth + 1);
      var q := SortedPosition(ms, i);
      OrderedLimits(ms[i].value, limits, depth + 1);
    }
  }

  predicate PrintsAgain(n: Number) {
    Prints(NormalOf(n))
  }

  ghost predicate NotLargeIntegral(n: Number) {
    !LargeIntegral(n)
  }

  lemma {:induction false} RereadPrints(v: JSON)
    ensures Every(Reread(v), Prints) <==> Every(v, PrintsAgain)
    decreases v
  {
    hide NormalOf, NumberText;
    match v {
      case Arr(items) =>
        forall i | 0 <= i < |items|
          ensures Every(Reread(v).items[i], Prints) <==> Every(items[i], PrintsAgain)
        {
          RereadPrints(items[i]);
        }
      case Obj(ms) =>
        forall i | 0 <= i < |ms|
          ensures Every(Reread(v).members[i].value, Prints) <==> Every(ms[i].value, PrintsAgain)
        {
          RereadPrints(ms[i].value);
        }
      case _ =>
    }
  }

  lemma {:induction false} SafeAgain(v: JSON)
    requires Every(v, Prints)
    ensures Every(v, PrintsAgain) <==> Every(v, NotLargeIntegral)
    decreases v
  {
    hide NormalOf, NumberText, LargeIntegral;
    match v {
      case Num(n) => RefusedAgain(n);
      case Arr(items) =>
        forall i | 0 <= i < |items|
          ensures Every(items[i], PrintsAgain) <==> Every(items[i], NotLargeIntegral)
        {
          SafeAgain(items[i]);
        }
      case Obj(ms) =>
        forall i | 0 <= i < |ms|
          ensures Every(ms[i].value, PrintsAgain) <==> Every(ms[i].value, NotLargeIntegral)
        {
          SafeAgain(ms[i].value);
        }
      case _ =>
    }
  }

  // ----- the laws

  lemma {:induction false} Utf8Append(a: string, b: string)
    ensures Utf8Length(a + b) == Utf8Length(a) + Utf8Length(b)
  {
    if a == "" {
      assert a + b == b;
    } else {
      Utf8Append(a[1..], b);
      assert (a + b)[1..] == a[1..] + b;
    }
  }

  lemma FileEnds(end: string)
    requires end == "" || end == "\n"
    ensures Closes(end) && SkipBlank(end) == "" && Utf8Length(end) == |end|
  {
  }

  /**
   Loading canonical text, or a file that ends it with a newline, gives back the value that was
   printed, within the same limits.
   */
  lemma CanonicalTextReadsBack(v: JSON, limits: Limits, end: string)
    requires WellFormed(v) && CanonicalText(v, limits).Ok? && Every(v, ReadsAgain)
    requires end == "" || end == "\n"
    requires Utf8Length(CanonicalText(v, limits).value) + |end| <= limits.bytes
    ensures StrictLoads(CanonicalText(v, limits).value + end, limits) == Ok(ReadBack(v))
    ensures SameJson(v, ReadBack(v))
  {
    hide ReadValue, PlainText, Ordered, Reread, WellFormed, Every, SameJson, Utf8Length, WithinLimits, SkipBlank, Closes;
    var u := Ordered(v);
    OrderedKeeps(v, ReadsAgain);
    OrderedKeeps(v, Prints);
    ReadBackIsSame(v);
    OrderedLimits(v, limits, 0);
    RereadLimits(u, limits, 0);
    FileEnds(end);
    ValueReads(u, end);
    TextOpens(u);
    OpenNotBlank(PlainText(u), end);
    Utf8Append(PlainText(u), end);
  }

  /** Two values have one canonical text exactly when they are equal. */
  lemma SameTextExactlyWhenEqual(v: JSON, w: JSON, limits: Limits)
    requires WellFormed(v) && CanonicalText(v, limits).Ok? && Every(v, ReadsAgain)
    requires WellFormed(w) && CanonicalText(w, limits).Ok? && Every(w, ReadsAgain)
    ensures CanonicalText(v, limits) == CanonicalText(w, limits) <==> SameJson(v, w)
  {
    hide ReadValue, PlainText, Ordered, Reread, WellFormed, Every, SameJson, WithinLimits;
    if CanonicalText(v, limits) == CanonicalText(w, limits) {
      OrderedKeeps(v, ReadsAgain);
      OrderedKeeps(w, ReadsAgain);
      ValueReads(Ordered(v), "");
      ValueReads(Ordered(w), "");
      ReadBackDecides(v, w);
    }
    if SameJson(v, w) {
      EqualPrintAlike(v, w);
    }
  }

  /** The order in which an object's members were inserted leaves no trace in the text. */
  lemma InsertionOrderLeavesNoTrace(a: seq<Member>, b: seq<Member>, limits: Limits)
    requires WellFormed(Obj(a)) && WellFormed(Obj(b)) && forall m :: m in a <==> m in b
    ensures CanonicalText(Obj(a), limits) == CanonicalText(Obj(b), limits)
  {
    hide PlainText, WithinLimits, Every;
    SortedAlike(a, b);
    assert Ordered(Obj(a)) == Ordered(Obj(b));
    OrderedLimits(Obj(a), limits, 0);
    OrderedLimits(Obj(b), limits, 0);
    OrderedKeeps(Obj(a), Prints);
    OrderedKeeps(Obj(b), Prints);
  }

  lemma SortedAlike(a: seq<Member>, b: seq<Member>)
    requires DistinctKeys(a) && DistinctKeys(b) && forall m :: m in a <==> m in b
    ensures Sort(MemberLess, OrderedMembers(a)) == Sort(MemberLess, OrderedMembers(b))
  {
    hide Sort, Ordered, LexLess, Utf16;
    var s, t := Sort(MemberLess, OrderedMembers(a)), Sort(MemberLess, OrderedMembers(b));
    OrderedDistinct(a);
    OrderedDistinct(b);
    SortedMembers(OrderedMembers(a));
    SortedMembers(OrderedMembers(b));
    KeyOrders();
    forall i, j | 0 <= i < j < |s|
      ensures MemberLess(s[i], s[j])
    {
      assert KeyLess(Keys(s)[i], Keys(s)[j]);
    }
    forall i, j | 0 <= i < j < |t|
      ensures MemberLess(t[i], t[j])
    {
      assert KeyLess(Keys(t)[i], Keys(t)[j]);
    }
    SortedFrom(a, b);
    SortedFrom(b, a);
    AscendingUnique(MemberLess, s, t);
  }

  lemma SortedFrom(a: seq<Member>, b: seq<Member>)
    requires DistinctKeys(a) && DistinctKeys(b) && forall m :: m in a ==> m in b
    ensures forall m :: m in Sort(MemberLess, OrderedMembers(a)) ==> m in Sort(MemberLess, OrderedMembers(b))
  {
    hide Sort, Ordered;
    var s, t := Sort(MemberLess, OrderedMembers(a)), Sort(MemberLess, OrderedMembers(b));
    forall i | 0 <= i < |s|
      ensures s[i] in t
    {
      var p := UnsortedPosition(a, i);
      assert a[p] in b;
      var q :| 0 <= q < |b| && b[q] == a[p];
      var j := SortedPosition(b, q);
      assert t[j] == s[i];
    }
  }

  /**
   Loading and printing again gives the same text exactly when no number is an integer above
   2^53 - 1 in magnitude and below 10^21; otherwise the printer refuses its own output.
   */
  lemma PrintsTheSameAgain(v: JSON, limits: Limits)
    requires WellFormed(v) && CanonicalText(v, limits).Ok?
    ensures CanonicalText(ReadBack(v), limits) == CanonicalText(v, limits) <==> Every(v, NotLargeIntegral)
    ensures !Every(v, NotLargeIntegral) ==> CanonicalText(ReadBack(v), limits) == Err(IntegerOutOfRange)
  {
    hide PlainText, Ordered, Reread, WellFormed, Every, SameJson, WithinLimits;
    var u := Ordered(v);
    OrderedKeeps(v, PrintsAgain);
    OrderedLimits(v, limits, 0);
    RereadLimits(u, limits, 0);
    RereadPrints(u);
    SafeAgain(v);
    ReadBackIsSame(v);
    if Every(v, NotLargeIntegral) {
      EqualPrintAlike(v, ReadBack(v));
    }
  }
}
