/** The `data` container of a timeline and `timeline.data`, which replaces
    the items, lays them out in lanes and derives the time domain. */
module Chart {
  import opened Wrappers
  import opened Items
  import opened Compare
  import opened Tracks
  import opened Domain

  /** A vertical marker line. */
  datatype Line = Line(date: Option<int>, className: string)

  class TimelineData {
    var items: array<Item>
    var lines: seq<Line>
    var nTracks: nat
    var minDate: Option<int>
    var maxDate: Option<int>

    /** A new timeline's `data`. The source starts from `data = {}`, whose
        fields are undefined until `timeline.data` fills them; the model
        starts from the state an empty load leaves. */
    constructor ()
      ensures items.Length == 0 && lines == [] && nTracks == 0
      ensures minDate.None? && maxDate.None?
    {
      items := new Item[0];
      lines := [];
      nTracks := 0;
      minDate, maxDate := None, None;
    }

    /** `timeline.lines(lines)`: absent lines become the empty list. */
    method SetLines(newLines: Option<seq<Line>>)
      modifies this`lines
      ensures lines == if newLines.Some? then newLines.value else []
    {
      lines := newLines.GetOr([]);
    }

    /** `timeline.data(items, dataRange)`. `data.items` becomes a fresh array
        of the valid items; each gets its steps filtered; the array is sorted
        with `compareDescending` (`sorted` is that order) and scanned
        backward, writing every `track`; `nTracks` is the lane count and
        the domain bounds come from `dataRange` or the items. A valid item
        without a `steps` array makes the step pass throw (`ok` false):
        `data.items` has then already been replaced and partly rewritten,
        and nothing after the pass happens. */
    method Load(input: seq<Item>, dataRange: Option<seq<Option<int>>>)
        returns (ok: bool, ghost sorted: seq<Item>)
      modifies this`items, this`nTracks, this`minDate, this`maxDate
      ensures fresh(items)
      ensures ok <==> AllHaveSteps(FilterItems(input))
      ensures ok ==>
                && AllValid(sorted) && Sorted(Descending, sorted)
                && multiset(sorted) == multiset(NormalizedAll(FilterItems(input)))
                && items[..] == WithLanes(Backward, sorted)
                && nTracks == |Registry(Backward, sorted)|
                && Bounds(minDate, maxDate) == DomainBounds(items[..], dataRange)
      ensures !ok ==>
                && items[..] == StepPass(FilterItems(input))
                && nTracks == old(nTracks) && minDate == old(minDate) && maxDate == old(maxDate)
    {
      var f := FilterItems(input);
      var a := NewArray(f);
      items := a;
      ok := NormalizeSteps(a);
      sorted := [];
      if !ok {
        return;
      }
      var n, b;
      n, b, sorted := LayOut(a, dataRange);
      nTracks := n;
      minDate, maxDate := b.minDate, b.maxDate;
    }
  }

  /** The end of `timeline.data` once the steps are prepared: the
      production `calculateTracks(data.items, "descending", "backward")`,
      `nTracks`, and the domain bounds of the laid-out items. */
  method LayOut(a: array<Item>, dataRange: Option<seq<Option<int>>>)
      returns (nTracks: nat, bounds: Bounds, ghost sorted: seq<Item>)
    requires AllValid(a[..])
    modifies a
    ensures AllValid(sorted) && Sorted(Descending, sorted)
    ensures multiset(sorted) == multiset(old(a[..]))
    ensures a[..] == WithLanes(Backward, sorted)
    ensures nTracks == |Registry(Backward, sorted)|
    ensures bounds == DomainBounds(a[..], dataRange)
  {
    var tracks;
    tracks, sorted := CalculateTracks(a, Descending, Backward);
    nTracks := |tracks|;
    bounds := DomainBounds(a[..], dataRange);
  }

  /** A fresh array holding `s` (the new array `filter` returns). */
  method NewArray(s: seq<Item>) returns (a: array<Item>)
    ensures fresh(a) && a[..] == s
  {
    a := new Item[|s|](k requires 0 <= k < |s| => s[k]);
  }
}
