/** The visibility rule of `band.redraw`: each item's rectangle is placed
    from the scaled start `x` and scaled end `y`, and an item whose span lies
    wholly left of pixel 0 or right of the band width is hidden rather than
    removed. Pixels are exact reals; `None` is `NaN`. */
module Redraw {
  import opened Wrappers
  import opened Items

  /** The `display` style: `null` (shown) or `'none'`. */
  datatype Display = Shown | Hidden

  /** The `x` and `width` attributes and `display` style of one item. */
  datatype Geometry = Geometry(x: Option<real>, width: Option<real>, display: Display)

  /** `y < 0 || x > band.w`; a comparison with `NaN` is false. */
  predicate OutOfView(x: Option<real>, y: Option<real>, w: real)
  {
    (y.Some? && y.value < 0.0) || (x.Some? && x.value > w)
  }

  /** The three attribute callbacks of `band.redraw` for one item. */
  function ItemGeometry(x: Option<real>, y: Option<real>, w: real): (g: Geometry)
    ensures g.display == Hidden <==> OutOfView(x, y, w)
    ensures g.display == Hidden ==> g.x == Some(-1000.0) && g.width == Some(0.0)
    ensures g.display == Shown ==> g.x == x
    ensures g.display == Shown ==> (g.width.Some? <==> x.Some? && y.Some?)
    ensures g.display == Shown && g.width.Some? ==> x.value + g.width.value == y.value
  {
    if OutOfView(x, y, w) then Geometry(Some(-1000.0), Some(0.0), Hidden)
    else Geometry(x, if x.Some? && y.Some? then Some(y.value - x.value) else None, Shown)
  }

  /** A time scale on instants: a pixel, or `NaN` (for instance under a
      domain with an Invalid Date in it). */
  type Scale = int -> Option<real>

  /** The scale applied to a value that may be absent: `+undefined` and an
      Invalid Date are `NaN`, and every d3 scale maps `NaN` to `NaN`. */
  function Pixel(scale: Scale, t: Option<int>): (p: Option<real>)
    ensures t.None? ==> p.None?
    ensures t.Some? ==> p == scale(t.value)
  {
    match t
    case None => None
    case Some(v) => scale(v)
  }

  /** Order-preserving wherever the scale is defined. */
  ghost predicate Monotone(scale: Scale)
  {
    forall t1: int, t2: int :: t1 <= t2 && scale(t1).Some? && scale(t2).Some? ==>
      scale(t1).value <= scale(t2).value
  }

  /** The geometry of `it` under `scale` in a band `w` pixels wide. */
  function Placement(scale: Scale, w: real, it: Item): (g: Geometry)
  {
    ItemGeometry(Pixel(scale, it.start), Pixel(scale, it.end), w)
  }

  /** `band.items.attr(…)`: every bound item placed. */
  function RedrawAll(scale: Scale, w: real, items: seq<Item>): (r: seq<Geometry>)
    ensures |r| == |items|
    ensures forall k :: 0 <= k < |items| ==> r[k] == Placement(scale, w, items[k])
  {
    seq(|items|, k requires 0 <= k < |items| => Placement(scale, w, items[k]))
  }

  /** Pixel `p` lies on the span from `x` to `y`. */
  predicate Between(x: real, p: real, y: real)
  {
    x <= p <= y
  }

  /** For a valid item under a monotone scale defined at both ends, in a
      band of non-negative width: the item is hidden exactly when no pixel
      of its span lies in `[0, w]`. A shown item has a non-negative width
      and a rectangle that meets the band. */
  lemma HiddenIffOffBand(scale: Scale, w: real, it: Item)
    requires Monotone(scale) && ItemValid(it) && 0.0 <= w
    requires Pixel(scale, it.start).Some? && Pixel(scale, it.end).Some?
    ensures var g := Placement(scale, w, it);
            var x, y := Pixel(scale, it.start).value, Pixel(scale, it.end).value;
            && (g.display == Hidden <==> forall p :: Between(x, p, y) ==> p < 0.0 || w < p)
            && (g.display == Shown ==>
                  0.0 <= g.width.value && g.x.value <= w && 0.0 <= g.x.value + g.width.value)
  {
    var x, y := Pixel(scale, it.start).value, Pixel(scale, it.end).value;
    assert x <= y by {
      assert it.start.value <= it.end.value;
    }
    if !OutOfView(Pixel(scale, it.start), Pixel(scale, it.end), w) {
      var p := if x < 0.0 then 0.0 else x;
      assert Between(x, p, y) && !(p < 0.0 || w < p);
    }
  }
}
