/** The two item comparators of `timeline.data` and the in-place sort of
    `data.items` that `calculateTracks` performs with one of them. */
module Compare {
  import opened Items

  /** `calculateTracks`'s `sortOrder`. */
  datatype SortOrder = Ascending | Descending

  /** `compareAscending`: earlier start first, and among equal starts the
      longer item (later end) first. */
  function CompareAscending(x: Item, y: Item): (r: int)
    requires ItemValid(x) && ItemValid(y)
    ensures r == -1 || r == 0 || r == 1
    ensures r < 0 <==> x.start.value < y.start.value || (x.start == y.start && x.end.value > y.end.value)
    ensures r == 0 <==> x.start == y.start && x.end == y.end
  {
    var d := x.start.value - y.start.value;
    if d < 0 then -1
    else if d > 0 then 1
    else
      var e := y.end.value - x.end.value;
      if e < 0 then -1
      else if e > 0 then 1
      else 0
  }

  /** `compareDescending`: later start first, and among equal starts the
      shorter item (earlier end) first. It is the exact opposite of
      `compareAscending`. */
  function CompareDescending(x: Item, y: Item): (r: int)
    requires ItemValid(x) && ItemValid(y)
    ensures r == -CompareAscending(x, y)
    ensures r < 0 <==> x.start.value > y.start.value || (x.start == y.start && x.end.value < y.end.value)
    ensures r == 0 <==> x.start == y.start && x.end == y.end
  {
    var d := x.start.value - y.start.value;
    if d < 0 then 1
    else if d > 0 then -1
    else
      var e := y.end.value - x.end.value;
      if e < 0 then 1
      else if e > 0 then -1
      else 0
  }

  function Compare(order: SortOrder, x: Item, y: Item): (r: int)
    requires ItemValid(x) && ItemValid(y)
  {
    match order
    case Ascending => CompareAscending(x, y)
    case Descending => CompareDescending(x, y)
  }

  /** `x` may stand before `y` in a list sorted with the comparator. */
  predicate Precedes(order: SortOrder, x: Item, y: Item)
    requires ItemValid(x) && ItemValid(y)
  {
    Compare(order, x, y) <= 0
  }

  /** Sorted with the comparator: no pair out of order. */
  predicate Sorted(order: SortOrder, s: seq<Item>)
    requires AllValid(s)
  {
    forall i, j :: 0 <= i < j < |s| ==> Precedes(order, s[i], s[j])
  }

  /** Only neighbours checked. */
  predicate AdjacentSorted(order: SortOrder, s: seq<Item>)
    requires AllValid(s)
  {
    forall i :: 0 < i < |s| ==> Precedes(order, s[i - 1], s[i])
  }

  /** The comparator orders items consistently. */
  lemma PrecedesTransitive(order: SortOrder, x: Item, y: Item, z: Item)
    requires ItemValid(x) && ItemValid(y) && ItemValid(z)
    requires Precedes(order, x, y) && Precedes(order, y, z)
    ensures Precedes(order, x, z)
  {
  }

  lemma {:induction false} AdjacentSortedIsSorted(order: SortOrder, s: seq<Item>)
    requires AllValid(s) && AdjacentSorted(order, s)
    ensures Sorted(order, s)
  {
    if |s| > 1 {
      var t := s[..|s| - 1];
      AdjacentSortedIsSorted(order, t);
      forall i | 0 <= i < |s| - 1
        ensures Precedes(order, s[i], s[|s| - 1])
      {
        if i < |s| - 2 {
          assert Precedes(order, t[i], t[|s| - 2]);
          PrecedesTransitive(order, s[i], s[|s| - 2], s[|s| - 1]);
        }
      }
    }
  }

  /** What a list sorted with `compareDescending` looks like: starts never
      increase, and among equal starts ends never decrease. */
  lemma SortedDescendingOrder(s: seq<Item>, i: nat, j: nat)
    requires AllValid(s) && Sorted(Descending, s)
    requires i < j < |s|
    ensures s[i].start.value >= s[j].start.value
    ensures s[i].start == s[j].start ==> s[i].end.value <= s[j].end.value
  {
    assert Precedes(Descending, s[i], s[j]);
  }

  /** What a list sorted with `compareAscending` looks like: starts never
      decrease, and among equal starts ends never increase. */
  lemma SortedAscendingOrder(s: seq<Item>, i: nat, j: nat)
    requires AllValid(s) && Sorted(Ascending, s)
    requires i < j < |s|
    ensures s[i].start.value <= s[j].start.value
    ensures s[i].start == s[j].start ==> s[i].end.value >= s[j].end.value
  {
    assert Precedes(Ascending, s[i], s[j]);
  }

  /** No two entries share both start and end. */
  predicate DistinctSpans(s: seq<Item>)
  {
    forall i, j :: 0 <= i < j < |s| ==> s[i].start != s[j].start || s[i].end != s[j].end
  }

  /** Two items that may each precede the other share start and end. */
  lemma PrecedesBothWays(order: SortOrder, x: Item, y: Item)
    requires ItemValid(x) && ItemValid(y)
    requires Precedes(order, x, y) && Precedes(order, y, x)
    ensures x.start == y.start && x.end == y.end
  {
  }

  /** Two sorted permutations of items with distinct spans start alike. */
  lemma HeadsAgree(order: SortOrder, s: seq<Item>, t: seq<Item>)
    requires AllValid(s) && AllValid(t) && Sorted(order, s) && Sorted(order, t)
    requires multiset(s) == multiset(t) && DistinctSpans(s) && s != []
    ensures t != [] && s[0] == t[0]
  {
    assert s[0] in multiset(t);
    var k :| 0 <= k < |t| && t[k] == s[0];
    assert t[0] in multiset(s);
    var m :| 0 <= m < |s| && s[m] == t[0];
    if m != 0 {
      assert Precedes(order, s[0], s[m]);
      if k != 0 {
        assert Precedes(order, t[0], t[k]);
      }
      PrecedesBothWays(order, s[0], s[m]);
      assert false;
    }
  }

  /** Equal multisets with equal heads have equal tails. */
  lemma MultisetTail(s: seq<Item>, t: seq<Item>)
    requires s != [] && t != [] && s[0] == t[0] && multiset(s) == multiset(t)
    ensures multiset(s[1..]) == multiset(t[1..])
  {
    assert s == [s[0]] + s[1..];
    assert t == [t[0]] + t[1..];
    assert multiset(s[1..]) == multiset(s) - multiset([s[0]]);
    assert multiset(t[1..]) == multiset(t) - multiset([t[0]]);
  }

  /** When no two items share both start and end, the sorted order is
      unique: any two sorted permutations of the same items are equal, so
      the lane assignment that follows is determined by the input alone. */
  lemma {:induction false} SortedUnique(order: SortOrder, s: seq<Item>, t: seq<Item>)
    requires AllValid(s) && AllValid(t) && Sorted(order, s) && Sorted(order, t)
    requires multiset(s) == multiset(t) && DistinctSpans(s)
    ensures s == t
  {
    if s == [] {
      assert |multiset(t)| == 0;
    } else {
      HeadsAgree(order, s, t);
      MultisetTail(s, t);
      SortedUnique(order, s[1..], t[1..]);
    }
  }

  /** Exchanges two neighbouring entries. */
  method SwapDown(a: array<Item>, j: nat)
    requires 0 < j < a.Length
    modifies a
    ensures a[j - 1] == old(a[j]) && a[j] == old(a[j - 1])
    ensures forall k :: 0 <= k < a.Length && k != j - 1 && k != j ==> a[k] == old(a[k])
    ensures multiset(a[..]) == multiset(old(a[..]))
  {
    a[j - 1], a[j] := a[j], a[j - 1];
  }

  /** The state of the insertion of `s[j]` into the sorted prefix: every
      neighbouring pair up to `i` is in order except around position `j`,
      the neighbours of `j` are in order with each other, and `s[j]` may
      stand before its right neighbour. */
  ghost predicate Inserting(order: SortOrder, s: seq<Item>, i: nat, j: nat)
    requires AllValid(s) && j <= i < |s|
  {
    && (forall k :: 0 < k <= i && k != j && k != j + 1 ==> Precedes(order, s[k - 1], s[k]))
    && (0 < j < i ==> Precedes(order, s[j - 1], s[j + 1]))
    && (j < i ==> Precedes(order, s[j], s[j + 1]))
  }

  /** One swap moves the inserted entry one place left. */
  lemma InsertingStep(order: SortOrder, s: seq<Item>, i: nat, j: nat)
    requires AllValid(s) && 0 < j <= i < |s| && Inserting(order, s, i, j)
    requires !Precedes(order, s[j - 1], s[j])
    ensures AllValid(s[j - 1 := s[j]][j := s[j - 1]])
    ensures Inserting(order, s[j - 1 := s[j]][j := s[j - 1]], i, j - 1)
  {
  }

  /** The insertion stops with the prefix up to `i` sorted. */
  lemma InsertingDone(order: SortOrder, s: seq<Item>, i: nat, j: nat)
    requires AllValid(s) && j <= i < |s| && Inserting(order, s, i, j)
    requires j == 0 || Precedes(order, s[j - 1], s[j])
    ensures AdjacentSorted(order, s[..i + 1])
  {
  }

  /** Moves `a[i]` left into the sorted prefix `a[..i]`. */
  method InsertInto(a: array<Item>, order: SortOrder, i: nat)
    requires i < a.Length
    requires AllValid(a[..]) && AdjacentSorted(order, a[..i])
    modifies a
    ensures AllValid(a[..]) && AdjacentSorted(order, a[..i + 1])
    ensures multiset(a[..]) == multiset(old(a[..]))
  {
    var j := i;
    // a[j] moves left past every neighbour that must come after it
    while 0 < j && !Precedes(order, a[j - 1], a[j])
      invariant 0 <= j <= i
      invariant AllValid(a[..]) && Inserting(order, a[..], i, j)
      invariant multiset(a[..]) == multiset(old(a[..]))
    {
      ghost var before := a[..];
      InsertingStep(order, before, i, j);
      SwapDown(a, j);
      assert a[..] == before[j - 1 := before[j]][j := before[j - 1]];
      j := j - 1;
    }
    InsertingDone(order, a[..], i, j);
  }

  /** `data.items.sort(compare…)`: sorts the array in place with the chosen
      comparator. */
  method SortItems(a: array<Item>, order: SortOrder)
    requires AllValid(a[..])
    modifies a
    ensures AllValid(a[..]) && Sorted(order, a[..])
    ensures multiset(a[..]) == multiset(old(a[..]))
  {
    var i := 0;
    while i < a.Length
      invariant 0 <= i <= a.Length
      invariant AllValid(a[..])
      invariant AdjacentSorted(order, a[..i])
      invariant multiset(a[..]) == multiset(old(a[..]))
    {
      InsertInto(a, order, i);
      i := i + 1;
    }
    AdjacentSortedIsSorted(order, a[..]);
  }
}
