/** The time domain `timeline.data` derives for the x scale: an explicit
    `dataRange`, or the earliest start and latest end among the items. */
module Domain {
  import opened Wrappers
  import opened Items

  /** `d3.min(items, d => d.start)`: the least start, skipping absent ones;
      `undefined` when there is none. */
  function MinStart(s: seq<Item>): (r: Option<int>)
    ensures r.None? <==> forall i :: 0 <= i < |s| ==> s[i].start.None?
    ensures r.Some? ==> exists i :: 0 <= i < |s| && s[i].start == r
    ensures r.Some? ==> forall i :: 0 <= i < |s| && s[i].start.Some? ==> r.value <= s[i].start.value
  {
    if s == [] then None
    else
      var rest := MinStart(s[1..]);
      if s[0].start.None? then rest
      else if rest.None? || s[0].start.value <= rest.value then s[0].start
      else rest
  }

  /** `d3.max(items, d => d.end)`: the greatest end, skipping absent ones;
      `undefined` when there is none. */
  function MaxEnd(s: seq<Item>): (r: Option<int>)
    ensures r.None? <==> forall i :: 0 <= i < |s| ==> s[i].end.None?
    ensures r.Some? ==> exists i :: 0 <= i < |s| && s[i].end == r
    ensures r.Some? ==> forall i :: 0 <= i < |s| && s[i].end.Some? ==> r.value >= s[i].end.value
  {
    if s == [] then None
    else
      var rest := MaxEnd(s[1..]);
      if s[0].end.None? then rest
      else if rest.None? || s[0].end.value >= rest.value then s[0].end
      else rest
  }

  /** `data.minDate`/`data.maxDate`: a given `dataRange` (any array, even a
      short one, is truthy) supplies its first two entries as they are;
      otherwise the extremes of the items. */
  datatype Bounds = Bounds(minDate: Option<int>, maxDate: Option<int>)

  function DomainBounds(items: seq<Item>, dataRange: Option<seq<Option<int>>>): (b: Bounds)
    ensures dataRange.Some? ==> b.minDate == At(dataRange.value, 0).GetOr(None)
    ensures dataRange.Some? ==> b.maxDate == At(dataRange.value, 1).GetOr(None)
  {
    match dataRange
    case Some(r) => Bounds(At(r, 0).GetOr(None), At(r, 1).GetOr(None))
    case None => Bounds(MinStart(items), MaxEnd(items))
  }

  /** For filtered items and no `dataRange`: both bounds are undefined
      exactly when there are no items; otherwise they are attained by some
      item's start and some item's end, bracket every item, and are
      ordered. */
  lemma ItemBounds(items: seq<Item>)
    requires AllValid(items)
    ensures var b := DomainBounds(items, None);
            && (b.minDate.None? <==> items == [])
            && (b.maxDate.None? <==> items == [])
            && (items != [] ==> b.minDate.value <= b.maxDate.value)
            && (forall i :: 0 <= i < |items| ==>
                  b.minDate.Some? && b.maxDate.Some? &&
                  b.minDate.value <= items[i].start.value && items[i].end.value <= b.maxDate.value)
  {
    if items != [] {
      assert ItemValid(items[0]);
    }
  }
}
