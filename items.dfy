/** Items and steps of a timeline, and the validity filter that
    `timeline.data` applies to both before laying anything out. */
module Items {
  import opened Wrappers

  /** A sub-interval of an item. */
  datatype Step = Step(start: Option<int>, end: Option<int>, className: string)

  /** A user-supplied timeline entry. Times are milliseconds since the epoch;
      `None` is a missing field or an Invalid Date. `steps` is `None` when the
      item has no `steps` array at all. `text` is the `label` field (`label` is a Dafny keyword). `track` is the lane written by the
      lane assignment; its value on input is irrelevant. */
  datatype Item = Item(
    start: Option<int>,
    end: Option<int>,
    text: string,
    steps: Option<seq<Step>>,
    track: int,
    instant: bool)

  /** `x.start && x.end && x.end.getTime() >= x.start.getTime()`: both
      instants present and the interval not reversed. */
  predicate ValidSpan(start: Option<int>, end: Option<int>)
  {
    start.Some? && end.Some? && end.value >= start.value
  }

  predicate ItemValid(it: Item)
  {
    ValidSpan(it.start, it.end)
  }

  predicate StepValid(st: Step)
  {
    ValidSpan(st.start, st.end)
  }

  predicate AllValid(s: seq<Item>)
  {
    forall i :: 0 <= i < |s| ==> ItemValid(s[i])
  }

  /** `Array.prototype.filter`: the entries `keep` accepts, in their order. */
  function Filter<T(!new)>(s: seq<T>, keep: T -> bool): (r: seq<T>)
    ensures |r| <= |s|
    ensures forall x :: x in r <==> x in s && keep(x)
  {
    if s == [] then []
    else (if keep(s[0]) then [s[0]] else []) + Filter(s[1..], keep)
  }

  /** Filtering distributes over concatenation, so the result keeps the input
      order: together with the one-element case this pins the result down
      as exactly the in-order subsequence of accepted entries. */
  lemma {:induction false} FilterAppend<T(!new)>(s: seq<T>, t: seq<T>, keep: T -> bool)
    ensures Filter(s + t, keep) == Filter(s, keep) + Filter(t, keep)
  {
    if s == [] {
      assert s + t == t;
    } else {
      assert (s + t)[1..] == s[1..] + t;
      FilterAppend(s[1..], t, keep);
    }
  }

  /** Every entry kept: the filter is the identity. */
  lemma {:induction false} FilterAllKept<T(!new)>(s: seq<T>, keep: T -> bool)
    requires forall i :: 0 <= i < |s| ==> keep(s[i])
    ensures Filter(s, keep) == s
  {
    if s != [] {
      FilterAllKept(s[1..], keep);
    }
  }

  /** The item filter of `timeline.data`. Invalid items are dropped (the
      source only logs them); no item object makes it fail. */
  function FilterItems(s: seq<Item>): (r: seq<Item>)
    ensures AllValid(r)
    ensures |r| <= |s|
    ensures forall x :: x in r <==> x in s && ItemValid(x)
  {
    Filter(s, ItemValid)
  }

  /** Filtering twice drops nothing more. */
  lemma FilterItemsIdempotent(s: seq<Item>)
    ensures FilterItems(FilterItems(s)) == FilterItems(s)
  {
    FilterAllKept(FilterItems(s), ItemValid);
  }

  /** The step filter applied to every item's `steps`. */
  function FilterSteps(s: seq<Step>): (r: seq<Step>)
    ensures |r| <= |s|
    ensures forall i :: 0 <= i < |r| ==> StepValid(r[i])
    ensures forall x :: x in r <==> x in s && StepValid(x)
  {
    Filter(s, StepValid)
  }

  /** What the per-item pass of `timeline.data` makes of an item that has a
      `steps` array: invalid steps dropped, `instant` cleared. */
  function Normalized(it: Item): (r: Item)
    requires it.steps.Some?
    ensures r.start == it.start && r.end == it.end && r.text == it.text && r.track == it.track
    ensures r.steps.Some? && !r.instant
    ensures forall x :: x in r.steps.value <==> x in it.steps.value && StepValid(x)
  {
    it.(steps := Some(FilterSteps(it.steps.value)), instant := false)
  }

  /** Every item has a `steps` array. */
  predicate AllHaveSteps(s: seq<Item>)
  {
    forall k :: 0 <= k < |s| ==> s[k].steps.Some?
  }

  /** Every item normalized. */
  function NormalizedAll(s: seq<Item>): (r: seq<Item>)
    requires AllHaveSteps(s)
    ensures |r| == |s| && forall k :: 0 <= k < |s| ==> r[k] == Normalized(s[k])
  {
    seq(|s|, k requires 0 <= k < |s| => Normalized(s[k]))
  }

  /** Index of the first item without a `steps` array (where
      `item.steps.filter` throws a TypeError), or `|s|` if there is none. */
  function FirstWithoutSteps(s: seq<Item>): (j: nat)
    ensures j <= |s|
    ensures forall k :: 0 <= k < j ==> s[k].steps.Some?
    ensures j < |s| ==> s[j].steps.None?
    ensures j == |s| <==> AllHaveSteps(s)
  {
    if s == [] then 0
    else if s[0].steps.None? then 0
    else 1 + FirstWithoutSteps(s[1..])
  }

  /** The items as the per-item pass leaves them: those before the first
      item without steps normalized, the rest as they were. Start and end
      are never touched. */
  function StepPass(s: seq<Item>): (r: seq<Item>)
    ensures |r| == |s|
    ensures forall k :: 0 <= k < |s| ==> r[k].start == s[k].start && r[k].end == s[k].end
    ensures AllHaveSteps(s) ==> r == NormalizedAll(s)
  {
    var j := FirstWithoutSteps(s);
    seq(|s|, k requires 0 <= k < |s| => if k < j then Normalized(s[k]) else s[k])
  }

  /** The per-item pass over `data.items` (source lines 239-277): each item
      gets its steps filtered and `instant` cleared, in place. An item without
      `steps` stops the pass with a TypeError (`ok` false); the items before
      it have already been rewritten and the rest are untouched. The step
      percentages are not modelled. */
  method NormalizeSteps(a: array<Item>) returns (ok: bool)
    modifies a
    ensures ok <==> AllHaveSteps(old(a[..]))
    ensures a[..] == StepPass(old(a[..]))
  {
    ghost var orig := a[..];
    var j := 0;
    while j < a.Length && a[j].steps.Some?
      invariant 0 <= j <= a.Length
      invariant forall k :: 0 <= k < j ==> orig[k].steps.Some? && a[k] == Normalized(orig[k])
      invariant forall k :: j <= k < a.Length ==> a[k] == orig[k]
    {
      a[j] := Normalized(a[j]);
      j := j + 1;
    }
    FirstWithoutStepsIs(orig, j);
    ok := j == a.Length;
  }

  /** The index where the pass stops is the first item without steps. */
  lemma {:induction false} FirstWithoutStepsIs(s: seq<Item>, j: nat)
    requires j <= |s|
    requires forall k :: 0 <= k < j ==> s[k].steps.Some?
    requires j < |s| ==> s[j].steps.None?
    ensures FirstWithoutSteps(s) == j
  {
    if s != [] && s[0].steps.Some? {
      FirstWithoutStepsIs(s[1..], j - 1);
    }
  }
}
