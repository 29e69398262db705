/** Concrete layouts: the greedy outcome on small inputs. */
module Scenarios {
  import opened Wrappers
  import opened Items
  import opened Compare
  import opened Tracks

  /** A valid item spanning `[s, e]` with no steps. */
  function Span(s: int, e: int): (it: Item)
    requires s <= e
    ensures ItemValid(it)
  {
    Item(Some(s), Some(e), "", Some([]), 0, false)
  }

  /** The four items of the worked example, in `compareDescending` order. */
  function ExampleSorted(): (s: seq<Item>)
  {
    [Span(11, 20), Span(6, 9), Span(2, 5), Span(0, 10)]
  }

  /** The registry after each prefix of the sorted example. */
  lemma ExampleRegistries()
    ensures Registry(Backward, ExampleSorted()[..1]) == [11]
    ensures Registry(Backward, ExampleSorted()[..2]) == [6]
    ensures Registry(Backward, ExampleSorted()[..3]) == [2]
    ensures Registry(Backward, ExampleSorted()) == [2, 0]
  {
    var s := ExampleSorted();
    assert s[..1][..0] == [];
    assert s[..2][..1] == s[..1];
    assert s[..3][..2] == s[..2];
    assert s[..3] == s[..|s| - 1];
  }

  /** The lane of each item of the sorted example. */
  lemma ExampleLanes()
    ensures WithLanes(Backward, ExampleSorted()) ==
            [Span(11, 20), Span(6, 9), Span(2, 5), Span(0, 10).(track := 1)]
  {
    var s := ExampleSorted();
    ExampleRegistries();
    assert Lane(Backward, s, 0) == 0 by {
      assert s[..0] == [];
    }
    assert Lane(Backward, s, 1) == FirstFit(Backward, [11], s[1]) == 0;
    assert Lane(Backward, s, 2) == FirstFit(Backward, [6], s[2]) == 0;
    assert Lane(Backward, s, 3) == FirstFit(Backward, [2], s[3]) == 1 by {
      assert FirstFit(Backward, [2], s[3]) == 1 + FirstFit(Backward, [], s[3]);
    }
    var r := WithLanes(Backward, s);
    assert r[0] == s[0] && r[1] == s[1] && r[2] == s[2] && r[3] == s[3].(track := 1);
  }

  /** The four items of the worked example, in input order. */
  function ExampleInput(): (s: seq<Item>)
  {
    [Span(0, 10), Span(2, 5), Span(6, 9), Span(11, 20)]
  }

  /** The example order is the `compareDescending` order. */
  lemma ExampleSortedDescending()
    ensures Sorted(Descending, ExampleSorted())
  {
    var s := ExampleSorted();
    assert AdjacentSorted(Descending, s) by {
      assert Precedes(Descending, s[0], s[1]);
      assert Precedes(Descending, s[1], s[2]);
      assert Precedes(Descending, s[2], s[3]);
    }
    AdjacentSortedIsSorted(Descending, s);
  }

  /** The example order is a rearrangement of the input. */
  lemma ExamplePermutation()
    ensures multiset(ExampleSorted()) == multiset(ExampleInput())
  {
    var input := ExampleInput();
    assert ExampleSorted() == [input[3], input[2], input[1], input[0]];
  }

  /** No two items of the example share both start and end. */
  lemma ExampleDistinct()
    ensures AllValid(ExampleSorted()) && DistinctSpans(ExampleSorted())
  {
    var s := ExampleSorted();
    forall i, j | 0 <= i < j < |s|
      ensures s[i].start != s[j].start
    {
      assert s[0].start.value == 11 && s[1].start.value == 6;
      assert s[2].start.value == 2 && s[3].start.value == 0;
    }
  }

  /** Items (0,10), (2,5), (6,9), (11,20): sorted with `compareDescending`
      they come as (11,20), (6,9), (2,5), (0,10); the backward scan puts the
      first three in lane 0 and (0,10) in lane 1, so `nTracks` is 2. */
  lemma WorkedExample()
    ensures var s := ExampleSorted();
            && Sorted(Descending, s)
            && multiset(s) == multiset(ExampleInput())
            && Registry(Backward, s) == [2, 0]
            && WithLanes(Backward, s) == [s[0], s[1], s[2], s[3].(track := 1)]
  {
    ExampleSortedDescending();
    ExamplePermutation();
    ExampleRegistries();
    ExampleLanes();
  }

  /** The only order `compareDescending` allows for the four items. */
  lemma WorkedExampleOrder(sorted: seq<Item>)
    requires AllValid(sorted) && Sorted(Descending, sorted)
    requires multiset(sorted) == multiset(ExampleInput())
    ensures sorted == ExampleSorted()
  {
    ExampleSortedDescending();
    ExamplePermutation();
    ExampleDistinct();
    SortedUnique(Descending, ExampleSorted(), sorted);
  }

  /** The production configuration run on the four items above: whatever
      the sort does internally, the items end in lanes 0, 0, 0, 1 in the
      order (11,20), (6,9), (2,5), (0,10), and `nTracks` is 2. */
  method LayoutWorkedExample() returns (nTracks: nat, layout: seq<Item>)
    ensures nTracks == 2
    ensures layout == [Span(11, 20), Span(6, 9), Span(2, 5), Span(0, 10).(track := 1)]
  {
    var a := new Item[4];
    a[0], a[1], a[2], a[3] := Span(0, 10), Span(2, 5), Span(6, 9), Span(11, 20);
    assert a[..] == ExampleInput();
    var tracks;
    ghost var sorted;
    tracks, sorted := CalculateTracks(a, Descending, Backward);
    WorkedExampleOrder(sorted);
    ExampleRegistries();
    ExampleLanes();
    nTracks := |tracks|;
    layout := a[..];
  }

  /** (t0, t0+10) and (t0+2, t0+5) overlap: sorted, (t0+2, t0+5) comes first
      and gets lane 0, and (t0, t0+10) gets lane 1. */
  lemma OverlappingPair(t0: int)
    ensures var s := [Span(t0 + 2, t0 + 5), Span(t0, t0 + 10)];
            && Sorted(Descending, s)
            && Lane(Backward, s, 0) == 0 && Lane(Backward, s, 1) == 1
            && |Registry(Backward, s)| == 2
  {
    var s := [Span(t0 + 2, t0 + 5), Span(t0, t0 + 10)];
    assert s[..1][..0] == [];
    assert s[..1] == s[..|s| - 1];
  }

  /** (t0, t0+5) and (t0+10, t0+15) are disjoint: both get lane 0. */
  lemma DisjointPair(t0: int)
    ensures var s := [Span(t0 + 10, t0 + 15), Span(t0, t0 + 5)];
            && Sorted(Descending, s)
            && Lane(Backward, s, 0) == 0 && Lane(Backward, s, 1) == 0
            && |Registry(Backward, s)| == 1
  {
    var s := [Span(t0 + 10, t0 + 15), Span(t0, t0 + 5)];
    assert s[..1][..0] == [];
    assert s[..1] == s[..|s| - 1];
  }
}
