/** Greedy lane ("track") assignment of `calculateTracks`: after sorting,
    every item goes to the first lane it fits in, and the lane registry
    `tracks` remembers, per lane, the boundary claimed by the item placed
    there last. */
module Tracks {
  import opened Items
  import opened Compare

  /** `calculateTracks`'s `timeOrder`: `sortBackward` or `sortForward`. */
  datatype TimeOrder = Forward | Backward

  /** The scan's break test against the registry entry `bound` of a lane:
      backward `item.end < tracks[i]`, forward `item.start > tracks[i]`. */
  predicate Fits(order: TimeOrder, bound: int, it: Item)
    requires ItemValid(it)
  {
    match order
    case Backward => it.end.value < bound
    case Forward => it.start.value > bound
  }

  /** What the scan writes into `tracks[track]`: backward the item's start,
      forward its end. */
  function Boundary(order: TimeOrder, it: Item): (b: int)
    requires ItemValid(it)
  {
    match order
    case Backward => it.start.value
    case Forward => it.end.value
  }

  /** The least lane the item fits in, or `|tracks|` (a new lane) if none. */
  function FirstFit(order: TimeOrder, tracks: seq<int>, it: Item): (k: nat)
    requires ItemValid(it)
    ensures k <= |tracks|
    ensures forall i :: 0 <= i < k ==> !Fits(order, tracks[i], it)
    ensures k < |tracks| ==> Fits(order, tracks[k], it)
  {
    if tracks == [] then 0
    else if Fits(order, tracks[0], it) then 0
    else 1 + FirstFit(order, tracks[1..], it)
  }

  /** `tracks[track] = boundary`: overwrite a lane or append a new one. */
  function Place(tracks: seq<int>, k: nat, boundary: int): (r: seq<int>)
    requires k <= |tracks|
    ensures |r| == if k == |tracks| then |tracks| + 1 else |tracks|
    ensures r[k] == boundary
    ensures forall i :: 0 <= i < |tracks| && i != k ==> r[i] == tracks[i]
  {
    if k == |tracks| then tracks + [boundary] else tracks[k := boundary]
  }

  /** The registry after the scan has placed all of `items`, in order,
      starting from an empty one. */
  function Registry(order: TimeOrder, items: seq<Item>): (tracks: seq<int>)
    requires AllValid(items)
    ensures |tracks| <= |items|
    ensures |items| > 0 ==> |tracks| > 0
  {
    if items == [] then []
    else
      var before := Registry(order, items[..|items| - 1]);
      var it := items[|items| - 1];
      Place(before, FirstFit(order, before, it), Boundary(order, it))
  }

  /** The lane given to `items[k]`: its first fit in the registry left by
      the items before it. */
  function Lane(order: TimeOrder, items: seq<Item>, k: nat): (l: nat)
    requires AllValid(items) && k < |items|
  {
    FirstFit(order, Registry(order, items[..k]), items[k])
  }

  /** The items with their `track` fields written. */
  function WithLanes(order: TimeOrder, items: seq<Item>): (r: seq<Item>)
    requires AllValid(items)
    ensures |r| == |items| && AllValid(r)
  {
    seq(|items|, k requires 0 <= k < |items| => items[k].(track := Lane(order, items, k)))
  }

  /** Registry after one more item: the item's lane gets its boundary. */
  lemma RegistryStep(order: TimeOrder, s: seq<Item>, j: nat)
    requires AllValid(s) && j < |s|
    ensures Registry(order, s[..j + 1]) == Place(Registry(order, s[..j]), Lane(order, s, j), Boundary(order, s[j]))
  {
    assert s[..j + 1][..j] == s[..j];
  }

  /** The inner `for` loop of the scan: the first lane, counting up from 0,
      whose registry entry lets the item in; `|tracks|` if none does. */
  method FindLane(order: TimeOrder, tracks: seq<int>, item: Item) returns (track: nat)
    requires ItemValid(item)
    ensures track <= |tracks|
    ensures forall i :: 0 <= i < track ==> !Fits(order, tracks[i], item)
    ensures track < |tracks| ==> Fits(order, tracks[track], item)
  {
    track := 0;
    while track < |tracks| && !Fits(order, tracks[track], item)
      invariant track <= |tracks|
      invariant forall i :: 0 <= i < track ==> !Fits(order, tracks[i], item)
    {
      track := track + 1;
    }
  }

  /** The items after the scan has reached `j`: those before `j` carry
      their lanes, the rest are untouched. */
  function Scanned(order: TimeOrder, items: seq<Item>, j: nat): (r: seq<Item>)
    requires AllValid(items) && j <= |items|
    ensures |r| == |items|
    ensures j == |items| ==> r == WithLanes(order, items)
  {
    seq(|items|, k requires 0 <= k < |items| =>
      if k < j then items[k].(track := Lane(order, items, k)) else items[k])
  }

  /** Scanning one more item writes its lane and nothing else. */
  lemma ScannedStep(order: TimeOrder, s: seq<Item>, j: nat)
    requires AllValid(s) && j < |s|
    ensures Scanned(order, s, j + 1) == Scanned(order, s, j)[j := s[j].(track := Lane(order, s, j))]
  {
  }

  /** The scan loop of `sortBackward`/`sortForward`: each item, in array
      order, gets its first-fit lane written into `track`, and the registry
      entry of that lane is overwritten (or appended). Returns the registry,
      whose length is `data.nTracks`. */
  method AssignLanes(a: array<Item>, order: TimeOrder) returns (tracks: seq<int>)
    requires AllValid(a[..])
    modifies a
    ensures tracks == Registry(order, old(a[..]))
    ensures a[..] == WithLanes(order, old(a[..]))
  {
    ghost var orig := a[..];
    tracks := [];
    var j := 0;
    while j < a.Length
      invariant 0 <= j <= a.Length
      invariant tracks == Registry(order, orig[..j])
      invariant a[..] == Scanned(order, orig, j)
    {
      var item := a[j];
      assert item == orig[j];
      var track := FindLane(order, tracks, item);
      FirstFitIs(order, tracks, item, track);
      RegistryStep(order, orig, j);
      ScannedStep(order, orig, j);
      a[j] := item.(track := track);
      tracks := Place(tracks, track, Boundary(order, item));
      j := j + 1;
    }
    assert orig[..a.Length] == orig;
  }

  /** The first fit is the only lane index with its two defining properties. */
  lemma FirstFitIs(order: TimeOrder, tracks: seq<int>, it: Item, k: nat)
    requires ItemValid(it) && k <= |tracks|
    requires forall i :: 0 <= i < k ==> !Fits(order, tracks[i], it)
    requires k < |tracks| ==> Fits(order, tracks[k], it)
    ensures FirstFit(order, tracks, it) == k
  {
  }

  /** A lane's registry entry against an item placed in it earlier:
      backward, the entry is at most the item's start; forward, at least
      its end. */
  predicate Covers(order: TimeOrder, bound: int, it: Item)
    requires ItemValid(it)
  {
    match order
    case Backward => bound <= it.start.value
    case Forward => bound >= it.end.value
  }

  /** Two items placed in this order lie strictly apart in time: backward,
      the later-placed one ends before the earlier one starts; forward, the
      earlier-placed one ends before the later one starts. */
  predicate Apart(order: TimeOrder, first: Item, second: Item)
    requires ItemValid(first) && ItemValid(second)
  {
    match order
    case Backward => second.end.value < first.start.value
    case Forward => first.end.value < second.start.value
  }

  /** Lanes are decided once: extending the list does not change the lane of
      an item already placed. */
  lemma LanePrefix(order: TimeOrder, s: seq<Item>, m: nat, p: nat)
    requires AllValid(s) && p < m <= |s|
    ensures AllValid(s[..m]) && Lane(order, s[..m], p) == Lane(order, s, p)
  {
    assert s[..m][..p] == s[..p];
  }

  /** The registry invariant: every placed item's lane exists, and the lane's
      entry covers the item. */
  lemma {:induction false} RegistryCovers(order: TimeOrder, s: seq<Item>)
    requires AllValid(s)
    ensures forall p :: 0 <= p < |s| ==>
      Lane(order, s, p) < |Registry(order, s)| &&
      Covers(order, Registry(order, s)[Lane(order, s, p)], s[p])
  {
    if s != [] {
      var n := |s| - 1;
      var init := s[..n];
      RegistryCovers(order, init);
      forall p | 0 <= p < |s|
        ensures Lane(order, s, p) < |Registry(order, s)|
        ensures Covers(order, Registry(order, s)[Lane(order, s, p)], s[p])
      {
        RegistryCoversAt(order, s, p);
      }
    }
  }

  /** The registry invariant for the item at `p`. */
  lemma {:induction false} RegistryCoversAt(order: TimeOrder, s: seq<Item>, p: nat)
    requires AllValid(s) && p < |s|
    ensures Lane(order, s, p) < |Registry(order, s)|
    ensures Covers(order, Registry(order, s)[Lane(order, s, p)], s[p])
  {
    var n := |s| - 1;
    var init := s[..n];
    var before := Registry(order, init);
    var f := FirstFit(order, before, s[n]);
    assert Registry(order, s) == Place(before, f, Boundary(order, s[n]));
    if p < n {
      assert init[p] == s[p];
      RegistryCoversAt(order, init, p);
      LanePrefix(order, s, n, p);
      var l := Lane(order, init, p);
      if l == f {
        assert Fits(order, before[f], s[n]);
      }
    } else {
      assert s[..p] == init;
    }
  }

  /** Lanes never overlap: any two items that share a lane lie strictly
      apart in time, whatever order the items came in. */
  lemma NoOverlapInLane(order: TimeOrder, s: seq<Item>, p: nat, q: nat)
    requires AllValid(s) && p < q < |s|
    requires Lane(order, s, p) == Lane(order, s, q)
    ensures Apart(order, s[p], s[q])
    ensures s[p].end.value < s[q].start.value || s[q].end.value < s[p].start.value
  {
    var init := s[..q];
    RegistryCovers(order, init);
    LanePrefix(order, s, q, p);
    assert init[p] == s[p];
  }

  /** Some item was placed in lane `l`. */
  ghost predicate Occupied(order: TimeOrder, s: seq<Item>, l: nat)
    requires AllValid(s)
  {
    exists p :: 0 <= p < |s| && Lane(order, s, p) == l
  }

  /** No lane is empty: every lane index below the lane count is the lane
      of some item. */
  lemma {:induction false} LanesOccupied(order: TimeOrder, s: seq<Item>)
    requires AllValid(s)
    ensures forall l: nat :: l < |Registry(order, s)| ==> Occupied(order, s, l)
  {
    if s != [] {
      var n := |s| - 1;
      var init := s[..n];
      LanesOccupied(order, init);
      var before := Registry(order, init);
      assert s[..n] == init;
      forall l: nat | l < |Registry(order, s)|
        ensures Occupied(order, s, l)
      {
        if l < |before| {
          assert Occupied(order, init, l);
          var p :| 0 <= p < |init| && Lane(order, init, p) == l;
          LanePrefix(order, s, n, p);
        } else {
          assert Lane(order, s, n) == l;
        }
      }
    }
  }

  /** Every lane index lies in `[0, nTracks)`. */
  lemma LaneInRange(order: TimeOrder, s: seq<Item>, p: nat)
    requires AllValid(s) && p < |s|
    ensures Lane(order, s, p) < |Registry(order, s)| <= |s|
  {
    RegistryCovers(order, s);
  }

  /** `calculateTracks(items, sortOrder, timeOrder)`: sort `data.items` in
      place with the chosen comparator, then run the chosen scan over it.
      `sorted` is the order the sort produced. */
  method CalculateTracks(a: array<Item>, sortOrder: SortOrder, timeOrder: TimeOrder)
      returns (tracks: seq<int>, ghost sorted: seq<Item>)
    requires AllValid(a[..])
    modifies a
    ensures AllValid(sorted) && Sorted(sortOrder, sorted)
    ensures multiset(sorted) == multiset(old(a[..]))
    ensures a[..] == WithLanes(timeOrder, sorted)
    ensures tracks == Registry(timeOrder, sorted)
  {
    SortItems(a, sortOrder);
    sorted := a[..];
    tracks := AssignLanes(a, timeOrder);
  }

  /** Some item carries track `l`. */
  ghost predicate TrackUsed(r: seq<Item>, l: int)
  {
    exists p :: 0 <= p < |r| && r[p].track == l
  }

  /** The written `track` fields form a proper lane layout: every track is
      in `[0, nTracks)`, no lane is empty, `nTracks` is at most the number
      of items (0 for none), and two items on one track never overlap. */
  lemma LayoutSound(order: TimeOrder, s: seq<Item>)
    requires AllValid(s)
    ensures var r := WithLanes(order, s);
            var n := |Registry(order, s)|;
            && n <= |s| && (s == [] <==> n == 0)
            && (forall p :: 0 <= p < |r| ==> 0 <= r[p].track < n)
            && (forall l :: 0 <= l < n ==> TrackUsed(r, l))
            && (forall p, q :: 0 <= p < |r| && 0 <= q < |r| && p != q && r[p].track == r[q].track ==>
                  r[p].end.value < r[q].start.value || r[q].end.value < r[p].start.value)
  {
    var r := WithLanes(order, s);
    RegistryCovers(order, s);
    LanesOccupied(order, s);
    forall l | 0 <= l < |Registry(order, s)|
      ensures TrackUsed(r, l)
    {
      assert Occupied(order, s, l);
      var p :| 0 <= p < |s| && Lane(order, s, p) == l;
      assert r[p].track == l;
    }
    forall p, q | 0 <= p < |r| && 0 <= q < |r| && p != q && r[p].track == r[q].track
      ensures r[p].end.value < r[q].start.value || r[q].end.value < r[p].start.value
    {
      if p < q {
        NoOverlapInLane(order, s, p, q);
      } else {
        NoOverlapInLane(order, s, q, p);
      }
    }
  }
}
