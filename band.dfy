/** The main band's viewport state and its synchronisation with the brush:
    the x scale's domain, the last range the brush reported (`band.range`),
    the brush selection in pixels, and the redraw that follows a new domain.
    The time scale and its inverse are d3 library code; they are given as
    functions of the current domain, `None` standing for `NaN` or an
    Invalid Date. An absent instant always scales to `NaN`. */
module BandView {
  import opened Wrappers
  import opened Items
  import opened Redraw
  import opened Chart

  /** A time range or domain as JavaScript holds it: an array of instants.
      A `None` entry is an `undefined` one (also past the end of the array),
      `NaN` or an Invalid Date, all of which scale to `NaN`; a `null` entry,
      which d3 scales as the instant 0, is not modelled. */
  type Range = seq<Option<int>>

  /** The range the brush handlers report: a pixel selection inverted
      through the scale, or the whole current domain when the selection is
      cleared. */
  function BrushDomain(selection: Option<(real, real)>, domain: Range,
                       invert: (Range, real) -> Option<int>): (r: Range)
    ensures selection.None? ==> r == domain
    ensures selection.Some? ==> r == [invert(domain, selection.value.0), invert(domain, selection.value.1)]
  {
    match selection
    case None => domain
    case Some(sel) => [invert(domain, sel.0), invert(domain, sel.1)]
  }

  /** The decision of `updateBrushRange`: where the brush moves to, or
      `None` when it stays. It stays for an absent range, for the range the
      brush itself last reported, and when either endpoint (a missing one
      included) scales to `NaN`; otherwise it moves to the two scaled
      endpoints. */
  function BrushTarget(range: Option<Range>, bandRange: Option<Range>, scale: Scale): (r: Option<(real, real)>)
    ensures r.Some? <==>
              && range.Some? && range != bandRange
              && Pixel(scale, At(range.value, 0).GetOr(None)).Some?
              && Pixel(scale, At(range.value, 1).GetOr(None)).Some?
    ensures r.Some? ==>
              r.value == (Pixel(scale, At(range.value, 0).GetOr(None)).value,
                          Pixel(scale, At(range.value, 1).GetOr(None)).value)
  {
    if range.None? || range == bandRange then None
    else
      var start := Pixel(scale, At(range.value, 0).GetOr(None));
      var end := Pixel(scale, At(range.value, 1).GetOr(None));
      if start.Some? && end.Some? then Some((start.value, end.value)) else None
  }

  /** A range without two present endpoints never moves the brush, whatever
      the scale: its missing end scales to `NaN`. */
  lemma MissingEndpointStays(range: Range, bandRange: Option<Range>, scale: Scale)
    requires |range| < 2 || range[0].None? || range[1].None?
    ensures BrushTarget(Some(range), bandRange, scale).None?
  {
  }

  class Band {
    /** `band.w`: the pixel width, the end of the scale's range. */
    const w: real
    /** `band.xScale(t)` under a given domain. */
    const xScale: (Range, int) -> Option<real>
    /** `band.xScale.invert(p)` under a given domain. */
    const invert: (Range, real) -> Option<int>

    /** `band.xScale.domain()`. */
    var domain: Range
    /** `band.range`: the range the brush last reported, `None` for `null`. */
    var range: Option<Range>
    /** The brush selection in pixels, `None` when there is none. */
    var selection: Option<(real, real)>
    /** The items bound to the band's rectangles. */
    var items: seq<Item>
    /** The rectangles' `x`, `width` and `display`, one per bound item. */
    var geometry: seq<Geometry>

    /** The x scale under the current domain. */
    function Scale(): Scale
      reads this
    {
      var d := domain;
      t => xScale(d, t)
    }

    /** `timeline.band(…)` with `timeline.brush(…)`: the domain is
        `[minDate, maxDate]`, the data's items are bound, nothing is
        selected or redrawn yet. */
    constructor (w: real, xScale: (Range, int) -> Option<real>,
                 invert: (Range, real) -> Option<int>, data: TimelineData)
      ensures this.w == w && this.xScale == xScale && this.invert == invert
      ensures domain == [data.minDate, data.maxDate] && items == data.items[..]
      ensures range.None? && selection.None? && geometry == []
    {
      this.w, this.xScale, this.invert := w, xScale, invert;
      domain := [data.minDate, data.maxDate];
      items := data.items[..];
      range, selection := None, None;
      geometry := [];
    }

    /** `band.update`: forgets the brush range, resets the domain to the
        data's bounds and binds the current items. The geometry is left to
        the next redraw. */
    method Update(data: TimelineData)
      modifies this
      ensures range.None?
      ensures domain == [data.minDate, data.maxDate] && items == data.items[..]
      ensures selection == old(selection) && geometry == old(geometry)
    {
      range := None;
      domain := [data.minDate, data.maxDate];
      items := data.items[..];
    }

    /** `band.redraw`: every bound item is placed under the current scale.
        The result depends on the domain and the items only, so a second
        redraw changes nothing. */
    method Redraw()
      modifies this`geometry
      ensures geometry == RedrawAll(Scale(), w, items)
    {
      geometry := RedrawAll(Scale(), w, items);
    }

    /** `timeline.updateRange(domain)`: `null` is ignored; otherwise the
        domain is replaced and the band redrawn. The brush state is not
        touched. */
    method UpdateRange(newDomain: Option<Range>)
      modifies this`domain, this`geometry
      ensures newDomain.None? ==> domain == old(domain) && geometry == old(geometry)
      ensures newDomain.Some? ==> domain == newDomain.value && geometry == RedrawAll(Scale(), w, items)
    {
      if newDomain.None? {
        return;
      }
      domain := newDomain.value;
      Redraw();
    }

    /** The brush's `"brush"` handler. d3 calls it once the brush holds
        the new selection; the reported range becomes `band.range` and is
        what `onBrush` receives. */
    method OnBrush(brushSelection: Option<(real, real)>) returns (reported: Range)
      modifies this`range, this`selection
      ensures selection == brushSelection
      ensures reported == BrushDomain(brushSelection, domain, invert)
      ensures range == Some(reported)
    {
      selection := brushSelection;
      reported := BrushDomain(brushSelection, domain, invert);
      range := Some(reported);
    }

    /** The brush's `"end"` handler: with the brush holding the final
        selection, reports the range to `onBrushEnd` without recording it. */
    method OnBrushEnd(brushSelection: Option<(real, real)>) returns (reported: Range)
      modifies this`selection
      ensures selection == brushSelection
      ensures brushSelection.None? ==> reported == domain
      ensures brushSelection.Some? ==>
                reported == [invert(domain, brushSelection.value.0), invert(domain, brushSelection.value.1)]
    {
      selection := brushSelection;
      reported := BrushDomain(brushSelection, domain, invert);
    }

    /** `timeline.updateBrushRange(range)`: unless `BrushTarget` says the
        brush stays, `brush.move` puts the selection at the scaled range and
        dispatches the `"brush"` event at once, so the handler records the
        range read back through `invert` as `band.range` and reports it
        (the `"end"` event reports the same range). */
    method UpdateBrushRange(newRange: Option<Range>) returns (reported: Option<Range>)
      modifies this`selection, this`range
      ensures var target := BrushTarget(newRange, old(range), Scale());
              && (target.None? ==> selection == old(selection) && range == old(range) && reported.None?)
              && (target.Some? ==> && selection == target
                                   && range == Some(BrushDomain(target, domain, invert))
                                   && reported == range)
    {
      var target := BrushTarget(newRange, range, Scale());
      reported := None;
      if target.Some? {
        var r := OnBrush(target);
        reported := Some(r);
      }
    }
  }

  /** Feeding the range a brush gesture just reported back into
      `updateBrushRange` leaves the brush where the gesture put it: the
      guard that keeps the two from chasing each other. */
  method BrushThenSync(band: Band, brushSelection: Option<(real, real)>)
    modifies band
    ensures band.selection == brushSelection
    ensures band.range == Some(BrushDomain(brushSelection, band.domain, band.invert))
  {
    var reported := band.OnBrush(brushSelection);
    var moved := band.UpdateBrushRange(Some(reported));
  }

  /** A range whose ends the inverse scale reads back unchanged is applied
      at most once: after the first call has moved the brush, `band.range`
      equals the range, so a second call with it does nothing. */
  method RepeatedSync(band: Band, r: Range) returns (first: Option<Range>, second: Option<Range>)
    requires |r| == 2
    requires Pixel(band.Scale(), r[0]).Some? ==> band.invert(band.domain, Pixel(band.Scale(), r[0]).value) == r[0]
    requires Pixel(band.Scale(), r[1]).Some? ==> band.invert(band.domain, Pixel(band.Scale(), r[1]).value) == r[1]
    modifies band
    ensures first.Some? ==> first == Some(r) && band.range == Some(r)
    ensures second.None?
  {
    first := band.UpdateBrushRange(Some(r));
    if first.Some? {
      assert band.range.value == r;
    }
    second := band.UpdateBrushRange(Some(r));
  }

  /** After `band.update` any given range whose ends scale to numbers moves
      the brush, even one equal to the last brushed range. */
  method UpdateThenSync(band: Band, data: TimelineData, newRange: Range)
    modifies band
    ensures var s := band.Scale();
            var start, end := Pixel(s, At(newRange, 0).GetOr(None)), Pixel(s, At(newRange, 1).GetOr(None));
            start.Some? && end.Some? ==> band.selection == Some((start.value, end.value))
  {
    band.Update(data);
    var moved := band.UpdateBrushRange(Some(newRange));
  }
}
