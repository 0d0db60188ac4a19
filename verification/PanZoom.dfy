/**
 * The pan and zoom transform of the tree canvas (`use-pan-zoom.ts`), driven by the gesture machine. A view maps the
 * world point `(u, v)` to the screen point `(left + x + u * scale, top + y + v * scale)`.
 */
module PanZoom {
  import opened Common
  import opened PointerGesture

  const MIN_SCALE := 0.15
  const MAX_SCALE := 1.5

  /** The three motion values. */
  datatype View = View(x: real, y: real, scale: real)

  /** The canvas on the screen. */
  datatype Rect = Rect(left: real, top: real, width: real, height: real)

  function Max(a: real, b: real): real {
    if a >= b then a else b
  }

  function Min(a: real, b: real): real {
    if a <= b then a else b
  }

  function ClampScale(s: real): (c: real)
    ensures MIN_SCALE <= c <= MAX_SCALE
    ensures c == s <==> MIN_SCALE <= s <= MAX_SCALE
  {
    Min(MAX_SCALE, Max(MIN_SCALE, s))
  }

  predicate Usable(v: View) {
    MIN_SCALE <= v.scale <= MAX_SCALE
  }

  /** Zoom to a scale around a screen point; without a mounted canvas only the scale changes. */
  function Zoomed(v: View, rect: Option<Rect>, at: Point, next: real): (r: View)
    requires Usable(v)
    ensures Usable(r)
  {
    var clamped := ClampScale(next);
    if rect.None? then v.(scale := clamped)
    else
      var localX, localY := at.x - rect.value.left, at.y - rect.value.top;
      var ratio := clamped / v.scale;
      View(localX - (localX - v.x) * ratio, localY - (localY - v.y) * ratio, clamped)
  }

  /** The scale a relative zoom asks for. */
  function Rescaled(v: View, factor: real): real {
    v.scale * factor
  }

  function Middle(rect: Rect): Point {
    Point(rect.left + rect.width / 2.0, rect.top + rect.height / 2.0)
  }

  function Panned(v: View, dx: real, dy: real): View {
    v.(x := v.x + dx, y := v.y + dy)
  }

  /** The world point under a screen point. */
  function World(v: View, rect: Rect, at: Point): Point
    requires Usable(v)
  {
    Point((at.x - rect.left - v.x) / v.scale, (at.y - rect.top - v.y) / v.scale)
  }

  // ---- zooming ----

  lemma ScaleOne(d: real, old_: real, new_: real)
    requires old_ > 0.0 && new_ > 0.0
    ensures d * (new_ / old_) / new_ == d / old_
  {
    var q := d / old_;
    assert q * old_ == d;
    var ratio := new_ / old_;
    assert ratio * old_ == new_;
    assert d * ratio == q * new_ by {
      assert d * ratio == q * (old_ * ratio);
    }
    assert q * new_ / new_ == q;
  }

  /** One axis of a zoom: the offset of the pointer from the origin grows with the scale. */
  lemma ZoomAxis(local: real, origin: real, old_: real, new_: real)
    requires old_ > 0.0 && new_ > 0.0
    ensures (local - (local - (local - origin) * (new_ / old_))) / new_ == (local - origin) / old_
  {
    var d := local - origin;
    assert local - (local - d * (new_ / old_)) == d * (new_ / old_);
    ScaleOne(d, old_, new_);
  }

  /** Zooming keeps the world point under the pointer where it is. */
  lemma ZoomKeepsPoint(v: View, rect: Rect, at: Point, next: real)
    requires Usable(v)
    ensures World(Zoomed(v, Some(rect), at, next), rect, at) == World(v, rect, at)
  {
    ZoomAxis(at.x - rect.left, v.x, v.scale, ClampScale(next));
    ZoomAxis(at.y - rect.top, v.y, v.scale, ClampScale(next));
  }

  /** It is the only screen point with that property, unless the scale did not change at all. */
  lemma ZoomMovesTheRest(v: View, rect: Rect, at: Point, next: real, other: Point)
    requires Usable(v)
    ensures World(Zoomed(v, Some(rect), at, next), rect, other) == World(v, rect, other)
       <==> other == at || ClampScale(next) == v.scale
  {
    var after := Zoomed(v, Some(rect), at, next);
    ZoomKeepsPoint(v, rect, at, next);
    Offset(at.x - rect.left - v.x, other.x - at.x, v.scale);
    Offset(at.y - rect.top - v.y, other.y - at.y, v.scale);
    Offset(at.x - rect.left - after.x, other.x - at.x, after.scale);
    Offset(at.y - rect.top - after.y, other.y - at.y, after.scale);
    SameQuotient(other.x - at.x, v.scale, after.scale);
    SameQuotient(other.y - at.y, v.scale, after.scale);
    if ClampScale(next) == v.scale {
      SelfRatio(v.scale);
    }
  }

  lemma Offset(a: real, b: real, s: real)
    requires s > 0.0
    ensures (a + b) / s == a / s + b / s
  {
  }

  lemma SameQuotient(d: real, s: real, t: real)
    requires s > 0.0 && t > 0.0
    ensures d / s == d / t <==> d == 0.0 || s == t
  {
    var q := d / s;
    assert q * s == d;
    if d / t == q {
      assert q * t == d;
      assert q * (s - t) == 0.0;
    }
  }

  /** Zooming back to the old scale at the same point undoes a zoom, clamped or not. */
  lemma ZoomBackRestores(v: View, rect: Rect, at: Point, next: real)
    requires Usable(v)
    ensures Zoomed(Zoomed(v, Some(rect), at, next), Some(rect), at, v.scale) == v
  {
    var mid := Zoomed(v, Some(rect), at, next);
    var a, b := mid.scale / v.scale, v.scale / mid.scale;
    assert a * b == 1.0 by {
      assert a * v.scale == mid.scale && b * mid.scale == v.scale;
      assert a * b * v.scale == v.scale;
    }
    var dx, dy := at.x - rect.left - v.x, at.y - rect.top - v.y;
    assert dx * a * b == dx && dy * a * b == dy;
  }

  /** Panning by a displacement moves the world along: what was under a point is now under the displaced point. */
  lemma PanCarriesPoint(v: View, rect: Rect, at: Point, d: Point)
    requires Usable(v)
    ensures World(Panned(v, d.x, d.y), rect, Plus(at, d)) == World(v, rect, at)
  {
  }

  // ---- the canvas under a gesture ----

  /** What one recognised movement does to the view. */
  function Apply(v: View, rect: Option<Rect>, move: Option<Move>): (r: View)
    requires Usable(v)
    ensures Usable(r)
  {
    match move
    case None => v
    case Some(Pan(dx, dy)) => Panned(v, dx, dy)
    case Some(Pinch(center, factor)) => Zoomed(v, rect, center, Rescaled(v, factor))
  }

  /** The view after a run of pointer events; the canvas does not move meanwhile. The scale never leaves its range. */
  function ViewAfter(hypot: Hypot, v: View, rect: Option<Rect>, g: Gesture, events: seq<Event>): (r: View)
    requires Usable(v) && g.Valid()
    ensures Usable(r)
  {
    if events == [] then v
    else
      var front := events[..|events| - 1];
      Apply(ViewAfter(hypot, v, rect, g, front), rect, Step(hypot, Run(hypot, g, front), events[|events| - 1]).1)
  }

  lemma SoleNeverPinches(hypot: Hypot, g: Gesture, e: Event, p: int)
    requires g.Valid() && g.Sole(p) && Step(hypot, g, e).0.Sole(p)
    ensures Step(hypot, g, e).1.Some? ==> Step(hypot, g, e).1.value.Pan?
  {
  }

  lemma {:induction false} OneFingerPans(hypot: Hypot, v: View, rect: Option<Rect>, g: Gesture, events: seq<Event>,
                                         p: int)
    requires Usable(v) && g.Valid() && OneFinger(hypot, g, events, p)
    ensures var sum := PanSum(hypot, g, events); ViewAfter(hypot, v, rect, g, events) == Panned(v, sum.x, sum.y)
  {
    if events != [] {
      var front, e := events[..|events| - 1], events[|events| - 1];
      OneFingerPans(hypot, v, rect, g, front, p);
      SoleBefore(hypot, g, front, p);
      SoleNeverPinches(hypot, Run(hypot, g, front), e, p);
      PanOn(v, rect, PanSum(hypot, g, front), Step(hypot, Run(hypot, g, front), e).1);
    }
  }

  lemma PanOn(v: View, rect: Option<Rect>, sum: Point, move: Option<Move>)
    requires Usable(v) && (move.Some? ==> move.value.Pan?)
    ensures var after := Plus(sum, Shift(move));
      Apply(Panned(v, sum.x, sum.y), rect, move) == Panned(v, after.x, after.y)
  {
  }

  lemma SoleBefore(hypot: Hypot, g: Gesture, events: seq<Event>, p: int)
    requires g.Valid() && OneFinger(hypot, g, events, p)
    ensures Run(hypot, g, events).Sole(p)
  {
  }

  /** While one finger is down, the world point under it stays under it, whatever other pointers do. */
  lemma FingerHoldsItsPoint(hypot: Hypot, v: View, rect: Rect, g: Gesture, events: seq<Event>, p: int)
    requires Usable(v) && g.Valid() && OneFinger(hypot, g, events, p)
    ensures g.Tracks(p) && Run(hypot, g, events).Tracks(p)
    ensures World(ViewAfter(hypot, v, Some(rect), g, events), rect, Run(hypot, g, events).pointers.at[p])
         == World(v, rect, g.pointers.at[p])
  {
    PansTelescope(hypot, g, events, p);
    OneFingerPans(hypot, v, Some(rect), g, events, p);
    PanCarriesPoint(v, rect, g.pointers.at[p], PanSum(hypot, g, events));
  }

  // ---- whole runs of the canvas ----

  /** What the canvas reacts to; the factor of a wheel event is `exp` of its movement, any number here. */
  datatype Action =
    | Touch(event: Event)
    | Wheel(at: Point, factor: real)
    | ZoomButton(factor: real)
    | ArrowKey(dx: real, dy: real)
    | Fit(bounds: Bounds, padding: Option<real>, insetRight: Option<real>)

  /** The view and the gesture after one action; `Fit` without an animation, as reduced motion asks for. */
  function Act(hypot: Hypot, rect: Option<Rect>, v: View, g: Gesture, a: Action): (r: (View, Gesture))
    requires Usable(v) && g.Valid()
    ensures Usable(r.0) && r.1.Valid()
  {
    match a
    case Touch(e) =>
      StepKeepsValid(hypot, g, e);
      var (after, move) := Step(hypot, g, e);
      (Apply(v, rect, move), after)
    case Wheel(at, factor) => (Zoomed(v, rect, at, Rescaled(v, factor)), g)
    case ZoomButton(factor) =>
      (if rect.None? then v else Zoomed(v, rect, Middle(rect.value), Rescaled(v, factor)), g)
    case ArrowKey(dx, dy) => (Panned(v, dx, dy), g)
    case Fit(bounds, padding, insetRight) =>
      (if rect.None? then v
       else ComputeFit(bounds, FrameOf(rect.value.width, rect.value.height, padding, insetRight)), g)
  }

  /** After any run of actions the scale is in its range and the gesture is valid; the canvas stays where it is. */
  function CanvasAfter(hypot: Hypot, rect: Option<Rect>, v: View, g: Gesture, actions: seq<Action>)
    : (r: (View, Gesture))
    requires Usable(v) && g.Valid()
    ensures Usable(r.0) && r.1.Valid()
  {
    if actions == [] then (v, g)
    else
      var (w, h) := CanvasAfter(hypot, rect, v, g, actions[..|actions| - 1]);
      Act(hypot, rect, w, h, actions[|actions| - 1])
  }

  function Touches(events: seq<Event>): (r: seq<Action>)
    ensures |r| == |events|
  {
    seq(|events|, i requires 0 <= i < |events| => Touch(events[i]))
  }

  /** Runs of pointer events are such runs, and `ViewAfter` is what they do. */
  lemma {:induction false} TouchesMoveTheView(hypot: Hypot, rect: Option<Rect>, v: View, g: Gesture, events: seq<Event>)
    requires Usable(v) && g.Valid()
    ensures CanvasAfter(hypot, rect, v, g, Touches(events)) ==
            (ViewAfter(hypot, v, rect, g, events), Run(hypot, g, events))
  {
    if events != [] {
      var front := events[..|events| - 1];
      assert Touches(events)[..|events| - 1] == Touches(front);
      TouchesMoveTheView(hypot, rect, v, g, front);
    }
  }

  /** The hook: the motion values, the mounted canvas and one gesture machine. */
  class Canvas {
    var x: real
    var y: real
    var scale: real
    var rect: Option<Rect>
    const gesture: Machine

    function Current(): View
      reads this
    {
      View(x, y, scale)
    }

    constructor (hypot: Hypot)
      ensures Current() == View(0.0, 0.0, 1.0) && rect == None
      ensures fresh(gesture) && gesture.State() == IDLE && gesture.hypot == hypot && gesture.threshold == 4.0
    {
      x, y, scale, rect := 0.0, 0.0, 1.0, None;
      gesture := new Machine(hypot, 4.0);
    }

    method ZoomAt(at: Point, next: real)
      requires Usable(Current())
      modifies `x, `y, `scale
      ensures Current() == Zoomed(old(Current()), rect, at, next)
      ensures scale == (if next > 1.5 then 1.5 else if next < 0.15 then 0.15 else next)
      ensures rect.Some? ==> World(Current(), rect.value, at) == World(old(Current()), rect.value, at)
      ensures rect.None? ==> x == old(x) && y == old(y)
    {
      if rect.Some? {
        ZoomKeepsPoint(Current(), rect.value, at, next);
      }
      var clamped := ClampScale(next);
      if rect.None? {
        scale := clamped;
        return;
      }
      var localX, localY := at.x - rect.value.left, at.y - rect.value.top;
      var ratio := clamped / scale;
      x := localX - (localX - x) * ratio;
      y := localY - (localY - y) * ratio;
      scale := clamped;
    }

    method PanBy(dx: real, dy: real)
      modifies `x, `y
      ensures Current() == Panned(old(Current()), dx, dy)
      ensures x == old(x) + dx && y == old(y) + dy
    {
      x := x + dx;
      y := y + dy;
    }

    /** Around the middle of the canvas; nothing happens before it is mounted. */
    method ZoomBy(factor: real)
      requires Usable(Current())
      modifies `x, `y, `scale
      ensures Usable(Current())
      ensures Current() == if rect.None? then old(Current())
                           else Zoomed(old(Current()), rect, Middle(rect.value), Rescaled(old(Current()), factor))
      ensures rect.Some? ==>
                var middle := Point(rect.value.left + rect.value.width / 2.0, rect.value.top + rect.value.height / 2.0);
                && World(Current(), rect.value, middle) == World(old(Current()), rect.value, middle)
                && (0.15 <= old(scale) * factor <= 1.5 ==> scale == old(scale) * factor)
    {
      if rect.None? {
        return;
      }
      ZoomAt(Middle(rect.value), Rescaled(Current(), factor));
    }

    method OnWheel(at: Point, factor: real)
      requires Usable(Current())
      modifies `x, `y, `scale
      ensures Current() == Zoomed(old(Current()), rect, at, Rescaled(old(Current()), factor))
      ensures 0.15 <= old(scale) * factor <= 1.5 ==> scale == old(scale) * factor
      ensures rect.Some? ==> World(Current(), rect.value, at) == World(old(Current()), rect.value, at)
    {
      ZoomAt(at, Rescaled(Current(), factor));
    }

    /** `fitToContent` without an animation. */
    method FitToContent(bounds: Bounds, padding: Option<real>, insetRight: Option<real>)
      modifies `x, `y, `scale
      ensures Current() ==
              if rect.None? then old(Current())
              else ComputeFit(bounds, FrameOf(rect.value.width, rect.value.height, padding, insetRight))
    {
      if rect.None? {
        return;
      }
      var next := ComputeFit(bounds, FrameOf(rect.value.width, rect.value.height, padding, insetRight));
      x, y, scale := next.x, next.y, next.scale;
    }

    /** The click that ends a drag is swallowed, and only that. */
    method OnClickCapture() returns (swallowed: bool)
      ensures swallowed <==> gesture.State().travelled.Exceeds(gesture.threshold)
    {
      swallowed := gesture.Dragged();
    }

    method OnPointerDown(s: Sample)
      requires gesture.State().Valid()
      modifies gesture
      ensures gesture.State() == Step(gesture.hypot, old(gesture.State()), PointerDown(s)).0 && gesture.State().Valid()
    {
      gesture.Down(s);
    }

    method OnPointerMove(s: Sample)
      requires gesture.State().Valid() && Usable(Current())
      modifies `x, `y, `scale, gesture
      ensures gesture.State() == Step(gesture.hypot, old(gesture.State()), PointerMove(s)).0 && gesture.State().Valid()
      ensures Current() == Apply(old(Current()), rect, Step(gesture.hypot, old(gesture.State()), PointerMove(s)).1)
    {
      var move := gesture.MoveTo(s);
      Follow(move);
    }

    /** What one recognised movement does to the motion values. */
    method Follow(move: Option<Move>)
      requires Usable(Current())
      modifies `x, `y, `scale
      ensures Current() == Apply(old(Current()), rect, move)
    {
      match move {
        case None =>
        case Some(Pinch(center, factor)) => ZoomAt(center, Rescaled(Current(), factor));
        case Some(Pan(dx, dy)) => PanBy(dx, dy);
      }
    }

    method OnPointerUp(id: int)
      requires gesture.State().Valid()
      modifies gesture
      ensures gesture.State() == Step(gesture.hypot, old(gesture.State()), PointerUp(id)).0 && gesture.State().Valid()
    {
      gesture.Up(id);
    }

    method OnLostPointerCapture()
      requires gesture.State().Valid()
      modifies gesture
      ensures gesture.State() == Step(gesture.hypot, old(gesture.State()), Clear).0 && gesture.State().Valid()
    {
      gesture.ClearAll();
    }

    /** The handlers of pointer events. */
    method ReactToTouch(e: Event)
      requires gesture.State().Valid() && Usable(Current())
      modifies `x, `y, `scale, gesture
      ensures gesture.State().Valid() && gesture.State() == Step(gesture.hypot, old(gesture.State()), e).0
      ensures Current() == Apply(old(Current()), rect, Step(gesture.hypot, old(gesture.State()), e).1)
    {
      match e {
        case PointerDown(s) => OnPointerDown(s);
        case PointerMove(s) => OnPointerMove(s);
        case PointerUp(id) => OnPointerUp(id);
        case Clear => OnLostPointerCapture();
      }
    }

    /** The handlers, one for each kind of action. */
    method React(a: Action)
      requires gesture.State().Valid() && Usable(Current())
      modifies `x, `y, `scale, gesture
      ensures gesture.State().Valid() && Usable(Current())
      ensures (Current(), gesture.State()) ==
              Act(gesture.hypot, rect, old(Current()), old(gesture.State()), a)
    {
      match a {
        case Touch(e) => ReactToTouch(e);
        case Wheel(at, factor) => OnWheel(at, factor);
        case ZoomButton(factor) => ZoomBy(factor);
        case ArrowKey(dx, dy) => PanBy(dx, dy);
        case Fit(bounds, padding, insetRight) => FitToContent(bounds, padding, insetRight);
      }
    }
  }

  // ---- framing the whole graph ----

  datatype Bounds = Bounds(minX: real, minY: real, maxX: real, maxY: real)

  /** The canvas size, the padding on every side and the covered strip on the right. */
  datatype Frame = Frame(width: real, height: real, padding: real, insetRight: real) {
    /** What is left for the graph. */
    function RoomX(): real { width - insetRight - padding * 2.0 }
    function RoomY(): real { height - padding * 2.0 }
  }

  function FrameOf(width: real, height: real, padding: Option<real>, insetRight: Option<real>): Frame {
    Frame(width, height, if padding.Some? then padding.value else 64.0,
          if insetRight.Some? then insetRight.value else 0.0)
  }

  function Extent(lo: real, hi: real): (e: real)
    ensures e >= 1.0
  {
    Max(1.0, hi - lo)
  }

  /** The scale that would fit exactly, before it is clamped; never above 1. */
  function IdealScale(b: Bounds, f: Frame): real {
    Min(1.0, Min(Max(1.0, f.RoomX()) / Extent(b.minX, b.maxX), Max(1.0, f.RoomY()) / Extent(b.minY, b.maxY)))
  }

  function ComputeFit(b: Bounds, f: Frame): (v: View)
    ensures Usable(v)
  {
    var scale := ClampScale(IdealScale(b, f));
    var centreX, centreY := (b.minX + b.maxX) / 2.0, (b.minY + b.maxY) / 2.0;
    View((f.width - f.insetRight) / 2.0 - centreX * scale, f.height / 2.0 - centreY * scale, scale)
  }

  /** Where a world point lands on the canvas. */
  function Screen(v: View, p: Point): Point {
    Point(v.x + p.x * v.scale, v.y + p.y * v.scale)
  }

  predicate InBounds(b: Bounds, p: Point) {
    b.minX <= p.x <= b.maxX && b.minY <= p.y <= b.maxY
  }

  /** Inside the padding and left of the covered strip. */
  predicate Visible(f: Frame, s: Point) {
    && f.padding <= s.x <= f.width - f.insetRight - f.padding
    && f.padding <= s.y <= f.height - f.padding
  }

  ghost predicate AllVisible(b: Bounds, f: Frame) {
    forall p :: InBounds(b, p) ==> Visible(f, Screen(ComputeFit(b, f), p))
  }

  /** The graph as drawn is no larger than the room there is. */
  predicate FitsRoom(b: Bounds, f: Frame) {
    var scale := ComputeFit(b, f).scale;
    (b.maxX - b.minX) * scale <= f.RoomX() && (b.maxY - b.minY) * scale <= f.RoomY()
  }

  /** One axis: an interval drawn around the middle of the room stays in the room if it is no longer than the room. */
  lemma AxisFits(lo: real, hi: real, u: real, scale: real, a: real, b: real)
    requires lo <= u <= hi && scale > 0.0 && (hi - lo) * scale <= b - a
    ensures a <= (a + b) / 2.0 - (lo + hi) / 2.0 * scale + u * scale <= b
  {
    var middle := (lo + hi) / 2.0;
    ProductNonNegative(hi - u, scale);
    ProductNonNegative(u - lo, scale);
    assert (hi - u) * scale == hi * scale - u * scale && (u - lo) * scale == u * scale - lo * scale;
    assert middle * scale == (lo * scale + hi * scale) / 2.0 && (hi - lo) * scale == hi * scale - lo * scale;
  }

  lemma ProductNonNegative(a: real, b: real)
    requires a >= 0.0 && b >= 0.0
    ensures a * b >= 0.0
  {
  }

  lemma AxisNeedsRoom(lo: real, hi: real, scale: real, a: real, b: real)
    requires a <= (a + b) / 2.0 - (lo + hi) / 2.0 * scale + lo * scale
    ensures (hi - lo) * scale <= b - a
  {
    var middle := (lo + hi) / 2.0;
    assert lo * scale - middle * scale == (lo - middle) * scale == -((hi - lo) * scale / 2.0);
  }

  /** Every point of a non-empty graph is visible exactly when the drawn graph is no larger than the room. */
  lemma VisibleIffRoom(b: Bounds, f: Frame)
    requires b.minX <= b.maxX && b.minY <= b.maxY
    ensures AllVisible(b, f) <==> FitsRoom(b, f)
  {
    if FitsRoom(b, f) {
      forall p | InBounds(b, p) ensures Visible(f, Screen(ComputeFit(b, f), p)) {
        PointVisible(b, f, p);
      }
    }
    if AllVisible(b, f) {
      CornerNeedsRoom(b, f);
    }
  }

  /** A view that puts the middle of the graph into the middle of the uncovered canvas. */
  ghost predicate Centred(b: Bounds, f: Frame, v: View) {
    && v.x == (f.padding + (f.width - f.insetRight - f.padding)) / 2.0 - (b.minX + b.maxX) / 2.0 * v.scale
    && v.y == (f.padding + (f.height - f.padding)) / 2.0 - (b.minY + b.maxY) / 2.0 * v.scale
  }

  lemma FitPosition(b: Bounds, f: Frame)
    ensures Centred(b, f, ComputeFit(b, f)) && ComputeFit(b, f).scale > 0.0
  {
    MiddleOfRoom(f.padding, f.width - f.insetRight, (b.minX + b.maxX) / 2.0 * ComputeFit(b, f).scale);
    MiddleOfRoom(f.padding, f.height, (b.minY + b.maxY) / 2.0 * ComputeFit(b, f).scale);
  }

  lemma MiddleOfRoom(padding: real, size: real, centre: real)
    ensures size / 2.0 - centre == (padding + (size - padding)) / 2.0 - centre
  {
  }

  lemma CentredShows(b: Bounds, f: Frame, v: View, p: Point)
    requires Centred(b, f, v) && v.scale > 0.0 && InBounds(b, p)
    requires (b.maxX - b.minX) * v.scale <= f.RoomX() && (b.maxY - b.minY) * v.scale <= f.RoomY()
    ensures Visible(f, Screen(v, p))
  {
    AxisFits(b.minX, b.maxX, p.x, v.scale, f.padding, f.width - f.insetRight - f.padding);
    AxisFits(b.minY, b.maxY, p.y, v.scale, f.padding, f.height - f.padding);
  }

  lemma PointVisible(b: Bounds, f: Frame, p: Point)
    requires FitsRoom(b, f) && InBounds(b, p)
    ensures Visible(f, Screen(ComputeFit(b, f), p))
  {
    FitPosition(b, f);
    CentredShows(b, f, ComputeFit(b, f), p);
  }

  lemma CornerNeedsRoom(b: Bounds, f: Frame)
    requires b.minX <= b.maxX && b.minY <= b.maxY && AllVisible(b, f)
    ensures FitsRoom(b, f)
  {
    var corner := Point(b.minX, b.minY);
    assert InBounds(b, corner);
    assert Visible(f, Screen(ComputeFit(b, f), corner));
    CornerShows(b, f, ComputeFit(b, f));
  }

  lemma CornerShows(b: Bounds, f: Frame, v: View)
    requires v == ComputeFit(b, f) && Visible(f, Screen(v, Point(b.minX, b.minY)))
    ensures FitsRoom(b, f)
  {
    FitPosition(b, f);
    CentredNeedsRoom(b, f, v);
  }

  lemma CentredNeedsRoom(b: Bounds, f: Frame, v: View)
    requires Centred(b, f, v) && Visible(f, Screen(v, Point(b.minX, b.minY)))
    ensures (b.maxX - b.minX) * v.scale <= f.RoomX() && (b.maxY - b.minY) * v.scale <= f.RoomY()
  {
    AxisNeedsRoom(b.minX, b.maxX, v.scale, f.padding, f.width - f.insetRight - f.padding);
    AxisNeedsRoom(b.minY, b.maxY, v.scale, f.padding, f.height - f.padding);
  }

  lemma QuotientBound(room: real, extent: real, scale: real)
    requires extent > 0.0
    ensures scale <= room / extent <==> scale * extent <= room
  {
    var q := room / extent;
    assert q * extent == room;
    if scale <= q {
      assert (q - scale) * extent >= 0.0;
    } else {
      assert (scale - q) * extent > 0.0;
    }
  }

  /**
   * With at least one pixel of room each way, `computeFit` shows every point of a non-empty graph exactly when the
   * scale that fits is not below the smallest one; only a larger graph is cut off.
   */
  lemma FitShowsEverything(b: Bounds, f: Frame)
    requires b.minX <= b.maxX && b.minY <= b.maxY && f.RoomX() >= 1.0 && f.RoomY() >= 1.0
    ensures AllVisible(b, f) <==> IdealScale(b, f) >= MIN_SCALE
  {
    VisibleIffRoom(b, f);
    AxisShown(b.minX, b.maxX, ComputeFit(b, f).scale, f.RoomX());
    AxisShown(b.minY, b.maxY, ComputeFit(b, f).scale, f.RoomY());
  }

  /** One axis is shown exactly when the scale is no larger than the one that fits it. */
  lemma AxisShown(lo: real, hi: real, scale: real, room: real)
    requires lo <= hi && 0.0 < scale <= 1.0 && room >= 1.0
    ensures (hi - lo) * scale <= room <==> scale <= Max(1.0, room) / Extent(lo, hi)
  {
    QuotientBound(room, Extent(lo, hi), scale);
    AxisRoom(lo, hi, scale, room);
  }

  /** Widening an interval to one unit does not change whether it fits one pixel or more at a scale of at most 1. */
  lemma AxisRoom(lo: real, hi: real, scale: real, room: real)
    requires lo <= hi && 0.0 < scale <= 1.0 && room >= 1.0
    ensures (hi - lo) * scale <= room <==> scale * Extent(lo, hi) <= room
  {
    var extent := Extent(lo, hi);
    if hi - lo < 1.0 {
      assert scale * extent == scale;
      ProductNonNegative(1.0 - (hi - lo), scale);
      assert (1.0 - (hi - lo)) * scale == scale - (hi - lo) * scale;
    } else {
      assert scale * extent == (hi - lo) * scale;
    }
  }

  /**
   * The unclamped scale is the largest one that is at most 1 and fits the graph into the room, where neither the graph
   * nor the room counts as smaller than a pixel.
   */
  lemma IdealScaleMeaning(b: Bounds, f: Frame, scale: real)
    ensures scale <= IdealScale(b, f) <==>
            && scale <= 1.0
            && scale * Max(1.0, b.maxX - b.minX) <= Max(1.0, f.width - f.insetRight - 2.0 * f.padding)
            && scale * Max(1.0, b.maxY - b.minY) <= Max(1.0, f.height - 2.0 * f.padding)
  {
    QuotientBound(Max(1.0, f.RoomX()), Extent(b.minX, b.maxX), scale);
    QuotientBound(Max(1.0, f.RoomY()), Extent(b.minY, b.maxY), scale);
  }

  /** The fitted scale is that one, kept within 0.15 and 1.5; without options 64 pixels are left free on every side. */
  lemma FitScale(b: Bounds, f: Frame, width: real, height: real)
    ensures IdealScale(b, f) >= 0.15 ==> ComputeFit(b, f).scale == IdealScale(b, f)
    ensures IdealScale(b, f) < 0.15 ==> ComputeFit(b, f).scale == 0.15
    ensures FrameOf(width, height, None, None) == Frame(width, height, 64.0, 0.0)
  {
  }

  /** The middle of the graph always lands in the middle of the uncovered canvas. */
  lemma FitIsCentred(b: Bounds, f: Frame)
    ensures Screen(ComputeFit(b, f), Point((b.minX + b.maxX) / 2.0, (b.minY + b.maxY) / 2.0))
         == Point((f.width - f.insetRight) / 2.0, f.height / 2.0)
  {
  }
}
