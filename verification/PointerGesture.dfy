/**
 * The gesture machine of the tree canvas (`pointer-gesture.ts`). Coordinates are reals; `Math.hypot` is a parameter
 * that is never negative.
 */
module PointerGesture {
  import opened Common

  datatype Point = Point(x: real, y: real)

  /** What the machine reads of a pointer event. */
  datatype Sample = Sample(id: int, at: Point, buttons: nat)

  datatype Move =
    | Pan(dx: real, dy: real)
    | Pinch(center: Point, factor: real)

  /** How far the gesture went; a pinch counts as infinitely far. */
  datatype Travel = Finite(px: real) | Infinite {
    predicate Exceeds(threshold: real) {
      Infinite? || px > threshold
    }

    function Plus(more: real): Travel {
      if Infinite? then Infinite else Finite(px + more)
    }
  }

  type Hypot = (real, real) -> real

  ghost predicate NonNegative(hypot: Hypot) {
    forall dx, dy :: hypot(dx, dy) >= 0.0
  }

  type Pointers = Table<int, Point>

  /** The four variables the machine closes over. */
  datatype Gesture = Gesture(pointers: Pointers, panOrigin: Option<Point>, pinchDistance: Option<real>,
                             travelled: Travel) {

    /** A sole pointer pans from where it was last seen, and there is a pan origin exactly while a pointer is down. */
    ghost predicate Valid() {
      && pointers.Valid()
      && (panOrigin.None? <==> pointers.keys == [])
      && (|pointers.keys| == 1 ==> panOrigin == Some(pointers.at[pointers.KeyAt(0)]))
      && (|pointers.keys| < 2 ==> pinchDistance.None?)
    }

    predicate Tracks(id: int) {
      id in pointers.at
    }

    /** The pointer that is down alone. */
    ghost predicate Sole(id: int) {
      pointers.keys == [id]
    }

    /** The distance between the two pointers that pressed first. */
    function Spread(hypot: Hypot): real
      requires pointers.Valid() && |pointers.keys| >= 2
    {
      var a, b := pointers.at[pointers.KeyAt(0)], pointers.at[pointers.KeyAt(1)];
      hypot(a.x - b.x, a.y - b.y)
    }
  }

  const IDLE := Gesture(Dict([], map[]), None, None, Finite(0.0))

  // ---- the steps ----

  /** Drop a pointer and pan from the first one that remains. */
  function Release(g: Gesture, id: int): Gesture
    requires g.Valid()
  {
    var rest := g.pointers.Without({id});
    Gesture(rest, if rest.keys == [] then None else Some(rest.at[rest.KeyAt(0)]), None, g.travelled)
  }

  function Pressed(hypot: Hypot, g: Gesture, s: Sample): Gesture
    requires g.Valid()
  {
    var down := g.(pointers := g.pointers.Put(s.id, s.at));
    if |down.pointers.keys| == 1 then down.(panOrigin := Some(s.at), travelled := Finite(0.0))
    else if |down.pointers.keys| == 2 then down.(pinchDistance := Some(down.Spread(hypot)))
    else down
  }

  /** Two or more pointers are down and one of them moved. */
  function Pinched(hypot: Hypot, g: Gesture): (r: (Gesture, Option<Move>))
    requires g.pointers.Valid() && |g.pointers.keys| >= 2
  {
    var a, b := g.pointers.at[g.pointers.KeyAt(0)], g.pointers.at[g.pointers.KeyAt(1)];
    var distance := g.Spread(hypot);
    var after := g.(pinchDistance := Some(distance));
    if g.pinchDistance.None? || g.pinchDistance.value == 0.0 || distance == 0.0 then (after, None)
    else (after.(travelled := Infinite),
          Some(Pinch(Point((a.x + b.x) / 2.0, (a.y + b.y) / 2.0), distance / g.pinchDistance.value)))
  }

  function Moved(hypot: Hypot, g: Gesture, s: Sample): (Gesture, Option<Move>)
    requires g.Valid()
  {
    if s.buttons == 0 then (if g.Tracks(s.id) then Release(g, s.id) else g, None)
    else if !g.Tracks(s.id) then (g, None)
    else
      var seen := g.(pointers := g.pointers.Put(s.id, s.at));
      if |seen.pointers.keys| >= 2 then Pinched(hypot, seen)
      else if seen.panOrigin.None? then (seen, None)
      else
        var dx, dy := s.at.x - seen.panOrigin.value.x, s.at.y - seen.panOrigin.value.y;
        (seen.(panOrigin := Some(s.at), travelled := seen.travelled.Plus(hypot(dx, dy))), Some(Pan(dx, dy)))
  }

  function Cleared(g: Gesture): Gesture {
    Gesture(Dict([], map[]), None, None, g.travelled)
  }

  datatype Event = PointerDown(s: Sample) | PointerMove(s: Sample) | PointerUp(id: int) | Clear

  function Step(hypot: Hypot, g: Gesture, e: Event): (Gesture, Option<Move>)
    requires g.Valid()
  {
    match e
    case PointerDown(s) => (Pressed(hypot, g, s), None)
    case PointerMove(s) => Moved(hypot, g, s)
    case PointerUp(id) => (Release(g, id), None)
    case Clear => (Cleared(g), None)
  }

  /** The object `createPointerGesture` returns. */
  class Machine {
    const hypot: Hypot
    const threshold: real
    var pointers: Pointers
    var panOrigin: Option<Point>
    var pinchDistance: Option<real>
    var travelled: Travel

    function State(): Gesture
      reads this
    {
      Gesture(pointers, panOrigin, pinchDistance, travelled)
    }

    constructor (hypot: Hypot, threshold: real)
      ensures State() == IDLE && State().Valid()
      ensures this.hypot == hypot && this.threshold == threshold
    {
      this.hypot, this.threshold := hypot, threshold;
      pointers, panOrigin, pinchDistance, travelled := Dict([], map[]), None, None, Finite(0.0);
      new;
      IdleIsValid();
    }

    method Down(s: Sample)
      requires State().Valid()
      modifies this
      ensures State() == Step(hypot, old(State()), PointerDown(s)).0 && State().Valid()
    {
      StepKeepsValid(hypot, State(), PointerDown(s));
      pointers := pointers.Put(s.id, s.at);
      if |pointers.keys| == 1 {
        panOrigin := Some(s.at);
        travelled := Finite(0.0);
      } else if |pointers.keys| == 2 {
        var a, b := pointers.at[pointers.KeyAt(0)], pointers.at[pointers.KeyAt(1)];
        pinchDistance := Some(hypot(a.x - b.x, a.y - b.y));
      }
    }

    method MoveTo(s: Sample) returns (move: Option<Move>)
      requires State().Valid()
      modifies this
      ensures (State(), move) == Step(hypot, old(State()), PointerMove(s)) && State().Valid()
    {
      StepKeepsValid(hypot, State(), PointerMove(s));
      if s.buttons == 0 {
        if s.id in pointers.at {
          Forget(s.id);
        }
        return None;
      }
      if s.id !in pointers.at {
        return None;
      }
      pointers := pointers.Put(s.id, s.at);
      if |pointers.keys| >= 2 {
        var a, b := pointers.at[pointers.KeyAt(0)], pointers.at[pointers.KeyAt(1)];
        var distance := hypot(a.x - b.x, a.y - b.y);
        var previous := pinchDistance;
        pinchDistance := Some(distance);
        if previous.None? || previous.value == 0.0 || distance == 0.0 {
          return None;
        }
        travelled := Infinite;
        return Some(Pinch(Point((a.x + b.x) / 2.0, (a.y + b.y) / 2.0), distance / previous.value));
      }
      if panOrigin.None? {
        return None;
      }
      var dx, dy := s.at.x - panOrigin.value.x, s.at.y - panOrigin.value.y;
      panOrigin := Some(s.at);
      travelled := travelled.Plus(hypot(dx, dy));
      return Some(Pan(dx, dy));
    }

    method Forget(id: int)
      requires State().Valid()
      modifies this
      ensures State() == Release(old(State()), id) && State().Valid()
    {
      StepKeepsValid(hypot, State(), PointerUp(id));
      pointers := pointers.Without({id});
      pinchDistance := None;
      panOrigin := if pointers.keys == [] then None else Some(pointers.at[pointers.KeyAt(0)]);
    }

    method Up(id: int)
      requires State().Valid()
      modifies this
      ensures State() == Step(hypot, old(State()), PointerUp(id)).0 && State().Valid()
    {
      Forget(id);
    }

    method ClearAll()
      requires State().Valid()
      modifies this
      ensures State() == Step(hypot, old(State()), Clear).0 && State().Valid()
    {
      pointers, panOrigin, pinchDistance := Dict([], map[]), None, None;
    }

    predicate Dragged()
      reads this
    {
      travelled.Exceeds(threshold)
    }
  }

  // ---- what every step keeps ----

  lemma IdleIsValid()
    ensures IDLE.Valid()
  {
  }

  lemma SizeOfPut(t: Pointers, id: int, p: Point)
    requires t.Valid()
    ensures |t.Put(id, p).keys| == if id in t.at then |t.keys| else |t.keys| + 1
    ensures t.Put(id, p).keys == if id in t.at then t.keys else t.keys + [id]
    ensures id in t.at ==> t.keys != []
  {
    assert id in t.at ==> id in ToSet(t.keys);
  }

  /** Every event keeps the machine's invariant, so a sole pointer always pans from its own last position. */
  lemma StepKeepsValid(hypot: Hypot, g: Gesture, e: Event)
    requires g.Valid()
    ensures Step(hypot, g, e).0.Valid()
  {
    match e {
      case PointerDown(s) =>
        SizeOfPut(g.pointers, s.id, s.at);
      case PointerMove(s) =>
        SizeOfPut(g.pointers, s.id, s.at);
      case PointerUp(id) =>
      case Clear =>
    }
  }

  // ---- runs ----

  function Run(hypot: Hypot, g: Gesture, events: seq<Event>): (r: Gesture)
    requires g.Valid()
    ensures r.Valid()
  {
    if events == [] then g
    else
      var before, e := Run(hypot, g, events[..|events| - 1]), events[|events| - 1];
      StepKeepsValid(hypot, before, e);
      Step(hypot, before, e).0
  }

  /** What event `k` of a run amounts to. */
  function Output(hypot: Hypot, g: Gesture, events: seq<Event>, k: nat): Option<Move>
    requires g.Valid() && k < |events|
  {
    Step(hypot, Run(hypot, g, events[..k]), events[k]).1
  }

  /** Whether the events alone say that a pointer is pressed: no release, no clear and no hover since its last press. */
  predicate Held(events: seq<Event>, id: int) {
    if events == [] then false
    else
      var e := events[|events| - 1];
      if e.PointerDown? && e.s.id == id then true
      else if e.Clear? || (e.PointerUp? && e.id == id) then false
      else if e.PointerMove? && e.s.id == id && e.s.buttons == 0 then false
      else Held(events[..|events| - 1], id)
  }

  /** Where the last press or move of a pointer was. */
  function LastSeen(events: seq<Event>, id: int): Option<Point> {
    if events == [] then None
    else
      var e := events[|events| - 1];
      if (e.PointerDown? || e.PointerMove?) && e.s.id == id then Some(e.s.at)
      else LastSeen(events[..|events| - 1], id)
  }

  /** The machine tracks exactly the pressed pointers, each at its last sample. */
  lemma {:induction false} TracksWhatIsHeld(hypot: Hypot, events: seq<Event>, id: int)
    ensures var g := Run(hypot, IDLE, events);
      && (g.Tracks(id) <==> Held(events, id))
      && (g.Tracks(id) ==> LastSeen(events, id) == Some(g.pointers.at[id]))
  {
    if events != [] {
      var front, e := events[..|events| - 1], events[|events| - 1];
      TracksWhatIsHeld(hypot, front, id);
      StepTracks(hypot, Run(hypot, IDLE, front), e, id);
    }
  }

  lemma StepTracks(hypot: Hypot, g: Gesture, e: Event, id: int)
    requires g.Valid()
    ensures var after := Step(hypot, g, e).0;
      var pressed := e.PointerDown? && e.s.id == id;
      var released := e.Clear? || (e.PointerUp? && e.id == id) || (e.PointerMove? && e.s.id == id && e.s.buttons == 0);
      && (after.Tracks(id) <==> pressed || (g.Tracks(id) && !released))
      && (after.Tracks(id) && (e.PointerDown? || e.PointerMove?) && e.s.id == id ==> after.pointers.at[id] == e.s.at)
      && (after.Tracks(id) && !((e.PointerDown? || e.PointerMove?) && e.s.id == id) ==>
            g.Tracks(id) && after.pointers.at[id] == g.pointers.at[id])
  {
  }

  lemma SoleMeans(t: Pointers, id: int)
    requires t.Valid()
    ensures t.keys == [id] <==> t.at.Keys == {id}
  {
    assert ToSet([id]) == {id};
    DistinctSize(t.keys);
    if t.at.Keys == {id} {
      assert t.keys[0] in ToSet(t.keys);
    }
  }

  lemma {:induction false} DistinctSize(s: seq<int>)
    requires Distinct(s)
    ensures |ToSet(s)| == |s|
  {
    if s != [] {
      var front, x := s[..|s| - 1], s[|s| - 1];
      DistinctSize(front);
      assert ToSet(s) == ToSet(front) + {x};
      assert x !in ToSet(front);
    }
  }

  /** An event pans exactly when it is a pressed move of the only pointer that is held. */
  ghost predicate PanningMove(events: seq<Event>, e: Event) {
    && e.PointerMove? && e.s.buttons != 0
    && OnlyHeld(events, e.s.id)
  }

  ghost predicate OnlyHeld(events: seq<Event>, p: int) {
    forall id :: Held(events, id) <==> id == p
  }

  /** One move of a machine: what it yields depends on the buttons and on which pointers are tracked. */
  lemma MoveYields(hypot: Hypot, g: Gesture, s: Sample)
    requires g.Valid()
    ensures var out := Moved(hypot, g, s).1;
      && ((out.Some? && out.value.Pan?) <==> s.buttons != 0 && g.Sole(s.id))
      && (out.Some? ==> s.buttons != 0 && g.Tracks(s.id))
    ensures s.buttons != 0 && g.Sole(s.id) ==>
              g.Tracks(s.id) &&
              Moved(hypot, g, s).1 == Some(Pan(s.at.x - g.pointers.at[s.id].x, s.at.y - g.pointers.at[s.id].y))
  {
    SizeOfPut(g.pointers, s.id, s.at);
    SoleMeans(g.pointers, s.id);
    if g.Tracks(s.id) && |g.pointers.keys| == 1 {
      assert s.id in ToSet(g.pointers.keys);
    }
  }

  lemma SoleIfOnlyOneHeld(hypot: Hypot, events: seq<Event>, p: int)
    ensures Run(hypot, IDLE, events).Sole(p) <==> OnlyHeld(events, p)
  {
    var g := Run(hypot, IDLE, events);
    SoleMeans(g.pointers, p);
    forall id ensures g.Tracks(id) <==> Held(events, id) {
      TracksWhatIsHeld(hypot, events, id);
    }
    if OnlyHeld(events, p) {
      forall id ensures id in g.pointers.at <==> id == p {
        assert g.Tracks(id) <==> Held(events, id);
      }
    } else {
      var id :| Held(events, id) != (id == p);
      assert g.Tracks(id) != (id == p);
    }
  }

  /**
   * In every event sequence, an event pans if and only if it is a move with a button down of the only held pointer,
   * and it then pans by that pointer's own displacement since its previous sample. Nothing else ever comes out of a
   * pointer that is not held, or of a move without buttons.
   */
  lemma GesturesFollowThePointer(hypot: Hypot, events: seq<Event>, e: Event)
    ensures var out := Step(hypot, Run(hypot, IDLE, events), e).1;
      && ((out.Some? && out.value.Pan?) <==> PanningMove(events, e))
      && (out.Some? ==> e.PointerMove? && e.s.buttons != 0 && Held(events, e.s.id))
    ensures PanningMove(events, e) ==> LastSeen(events, e.s.id).Some?
    ensures PanningMove(events, e) ==>
              var last := LastSeen(events, e.s.id).value;
              Step(hypot, Run(hypot, IDLE, events), e).1 == Some(Pan(e.s.at.x - last.x, e.s.at.y - last.y))
  {
    if e.PointerMove? {
      MoveFollows(hypot, events, e.s);
    }
  }

  lemma MoveFollows(hypot: Hypot, events: seq<Event>, s: Sample)
    ensures var out, e := Moved(hypot, Run(hypot, IDLE, events), s).1, PointerMove(s);
      && ((out.Some? && out.value.Pan?) <==> PanningMove(events, e))
      && (out.Some? ==> s.buttons != 0 && Held(events, s.id))
      && (PanningMove(events, e) ==>
            LastSeen(events, s.id).Some? &&
            var last := LastSeen(events, s.id).value; out == Some(Pan(s.at.x - last.x, s.at.y - last.y)))
  {
    MoveYields(hypot, Run(hypot, IDLE, events), s);
    TracksWhatIsHeld(hypot, events, s.id);
    SoleIfOnlyOneHeld(hypot, events, s.id);
  }

  // ---- telescoping ----

  function Shift(move: Option<Move>): Point {
    if move.Some? && move.value.Pan? then Point(move.value.dx, move.value.dy) else Point(0.0, 0.0)
  }

  function Plus(a: Point, b: Point): Point {
    Point(a.x + b.x, a.y + b.y)
  }

  /** The sum of the pans of a run. */
  function PanSum(hypot: Hypot, g: Gesture, events: seq<Event>): Point
    requires g.Valid()
  {
    if events == [] then Point(0.0, 0.0)
    else
      var front := events[..|events| - 1];
      Plus(PanSum(hypot, g, front), Shift(Step(hypot, Run(hypot, g, front), events[|events| - 1]).1))
  }

  /** `p` is the only pointer down before the first event and after each one, and is not pressed again. */
  ghost predicate OneFinger(hypot: Hypot, g: Gesture, events: seq<Event>, p: int)
    requires g.Valid()
  {
    if events == [] then g.Sole(p)
    else
      var e := events[|events| - 1];
      && OneFinger(hypot, g, events[..|events| - 1], p)
      && Run(hypot, g, events).Sole(p) && !(e.PointerDown? && e.s.id == p)
  }

  lemma SoleStep(hypot: Hypot, g: Gesture, e: Event, p: int)
    requires g.Valid() && g.Sole(p) && Step(hypot, g, e).0.Sole(p) && !(e.PointerDown? && e.s.id == p)
    ensures g.Tracks(p) && Step(hypot, g, e).0.Tracks(p)
    ensures var (after, move) := Step(hypot, g, e);
      && after.pointers.at[p] == Plus(g.pointers.at[p], Shift(move))
      && (after.travelled == g.travelled.Plus(hypot(Shift(move).x, Shift(move).y)) ||
          (after.travelled == g.travelled && Shift(move) == Point(0.0, 0.0)))
  {
    SoleMeans(g.pointers, p);
    assert g.Tracks(p);
    StepKeepsValid(hypot, g, e);
    SoleMeans(Step(hypot, g, e).0.pointers, p);
    if e.PointerDown? || e.PointerMove? {
      SizeOfPut(g.pointers, e.s.id, e.s.at);
    }
  }

  /** While one finger is down, the pans add up to its whole displacement, whatever other pointers hover or leave. */
  lemma {:induction false} PansTelescope(hypot: Hypot, g: Gesture, events: seq<Event>, p: int)
    requires g.Valid() && OneFinger(hypot, g, events, p)
    ensures g.Tracks(p) && Run(hypot, g, events).Tracks(p)
    ensures Run(hypot, g, events).pointers.at[p] == Plus(g.pointers.at[p], PanSum(hypot, g, events))
  {
    if events == [] {
      SoleMeans(g.pointers, p);
      assert g.Tracks(p);
    } else {
      var front := events[..|events| - 1];
      PansTelescope(hypot, g, front, p);
      assert Run(hypot, g, front).Sole(p);
      SoleStep(hypot, Run(hypot, g, front), events[|events| - 1], p);
    }
  }

  // ---- taps and drags ----

  ghost predicate IsNorm(hypot: Hypot) {
    && NonNegative(hypot)
    && hypot(0.0, 0.0) == 0.0
    && forall a, b :: Triangle(hypot, a, b)
  }

  predicate Triangle(hypot: Hypot, a: Point, b: Point) {
    hypot(a.x + b.x, a.y + b.y) <= hypot(a.x, a.y) + hypot(b.x, b.y)
  }

  /** The travelled distance grew by at least `net` from `before` to `after`. */
  predicate Travelled(before: Travel, after: Travel, net: real) {
    after.Finite? ==> before.Finite? && after.px >= before.px + net
  }

  lemma TravelOn(hypot: Hypot, start: Travel, mid: Travel, after: Travel, sum: Point, more: Point)
    requires Triangle(hypot, sum, more) && Travelled(start, mid, hypot(sum.x, sum.y))
    requires after == mid.Plus(hypot(more.x, more.y)) || (after == mid && more == Point(0.0, 0.0))
    ensures Travelled(start, after, hypot(Plus(sum, more).x, Plus(sum, more).y))
  {
  }

  /** A finger that is away from where it was by more than the threshold has dragged, however small its steps were. */
  lemma {:induction false} NetMovementIsDrag(hypot: Hypot, g: Gesture, events: seq<Event>, p: int)
    requires IsNorm(hypot) && g.Valid() && OneFinger(hypot, g, events, p)
    ensures var sum := PanSum(hypot, g, events);
      Travelled(g.travelled, Run(hypot, g, events).travelled, hypot(sum.x, sum.y))
  {
    if events != [] {
      var front, e := events[..|events| - 1], events[|events| - 1];
      NetMovementIsDrag(hypot, g, front, p);
      PansTelescope(hypot, g, front, p);
      NetStep(hypot, g.travelled, Run(hypot, g, front), e, p, PanSum(hypot, g, front));
    }
  }

  lemma NetStep(hypot: Hypot, start: Travel, g: Gesture, e: Event, p: int, sum: Point)
    requires IsNorm(hypot) && g.Valid() && g.Sole(p) && Step(hypot, g, e).0.Sole(p)
    requires !(e.PointerDown? && e.s.id == p) && Travelled(start, g.travelled, hypot(sum.x, sum.y))
    ensures var (after, move) := Step(hypot, g, e);
      Travelled(start, after.travelled, hypot(Plus(sum, Shift(move)).x, Plus(sum, Shift(move)).y))
  {
    SoleStep(hypot, g, e, p);
    var (after, move) := Step(hypot, g, e);
    assert Triangle(hypot, sum, Shift(move));
    TravelOn(hypot, start, g.travelled, after.travelled, sum, Shift(move));
  }

  /** The press that starts a gesture: afterwards exactly one pointer is down. */
  predicate StartsGesture(g: Gesture, e: Event)
    requires g.Valid()
  {
    e.PointerDown? && |g.pointers.Put(e.s.id, e.s.at).keys| == 1
  }

  lemma DragStep(hypot: Hypot, g: Gesture, e: Event, threshold: real)
    requires NonNegative(hypot) && g.Valid() && g.travelled.Exceeds(threshold) && !StartsGesture(g, e)
    ensures Step(hypot, g, e).0.travelled.Exceeds(threshold)
  {
  }

  ghost predicate NoNewGesture(hypot: Hypot, g: Gesture, events: seq<Event>)
    requires g.Valid()
  {
    events == [] ||
    (NoNewGesture(hypot, g, events[..|events| - 1]) &&
     !StartsGesture(Run(hypot, g, events[..|events| - 1]), events[|events| - 1]))
  }

  /** Once dragged, a gesture counts as a drag through releases and cancellation, until the next first press. */
  lemma {:induction false} DragLasts(hypot: Hypot, g: Gesture, events: seq<Event>, threshold: real)
    requires NonNegative(hypot) && g.Valid() && g.travelled.Exceeds(threshold) && NoNewGesture(hypot, g, events)
    ensures Run(hypot, g, events).travelled.Exceeds(threshold)
  {
    if events != [] {
      var front := events[..|events| - 1];
      DragLasts(hypot, g, front, threshold);
      DragStep(hypot, Run(hypot, g, front), events[|events| - 1], threshold);
    }
  }

  /** A pinch is never a tap, and neither is anything that follows it before the next first press. */
  lemma PinchIsNeverTap(hypot: Hypot, g: Gesture, e: Event, events: seq<Event>, threshold: real)
    requires NonNegative(hypot) && g.Valid()
    requires Step(hypot, g, e).1.Some? && Step(hypot, g, e).1.value.Pinch?
    requires Step(hypot, g, e).0.Valid() && NoNewGesture(hypot, Step(hypot, g, e).0, events)
    ensures Run(hypot, Step(hypot, g, e).0, events).travelled.Exceeds(threshold)
  {
    DragLasts(hypot, Step(hypot, g, e).0, events, threshold);
  }

  // ---- pinching ----

  /** The remembered pinch distance, if any, is the present distance of the first two pointers. */
  ghost predicate Fresh(hypot: Hypot, g: Gesture)
    requires g.Valid()
  {
    g.pinchDistance.Some? ==> g.pinchDistance == Some(g.Spread(hypot))
  }

  /** A press of one of the two pinching pointers although it is down already, with a third one down too. */
  predicate PressesPairAgain(g: Gesture, e: Event) {
    |g.pointers.keys| >= 3 && e.PointerDown? && e.s.id in g.pointers.keys[..2]
  }

  lemma FreshPress(hypot: Hypot, g: Gesture, s: Sample)
    requires g.Valid() && Fresh(hypot, g) && !PressesPairAgain(g, PointerDown(s)) && Pressed(hypot, g, s).Valid()
    ensures Fresh(hypot, Pressed(hypot, g, s))
  {
    SizeOfPut(g.pointers, s.id, s.at);
    if |g.pointers.keys| >= 2 {
      assert g.pointers.keys[..2] == [g.pointers.KeyAt(0), g.pointers.KeyAt(1)];
    }
  }

  lemma FreshMove(hypot: Hypot, g: Gesture, s: Sample)
    requires g.Valid() && Fresh(hypot, g) && Moved(hypot, g, s).0.Valid()
    ensures Fresh(hypot, Moved(hypot, g, s).0)
  {
    SizeOfPut(g.pointers, s.id, s.at);
  }

  /** Every other event keeps the remembered distance right. */
  lemma FreshStep(hypot: Hypot, g: Gesture, e: Event)
    requires g.Valid() && Fresh(hypot, g) && !PressesPairAgain(g, e) && Step(hypot, g, e).0.Valid()
    ensures Fresh(hypot, Step(hypot, g, e).0)
  {
    match e
    case PointerDown(s) => FreshPress(hypot, g, s);
    case PointerMove(s) => FreshMove(hypot, g, s);
    case _ =>
  }

  /**
   * Pressing a pinching pointer again leaves the old distance behind: it stays right only if the distance is the
   * same.
   */
  lemma RepeatedPressKeepsOldDistance(hypot: Hypot, g: Gesture, e: Event)
    requires g.Valid() && PressesPairAgain(g, e) && g.pinchDistance.Some?
    ensures var after := Step(hypot, g, e).0;
      after.Valid() && |after.pointers.keys| >= 2 && after.pinchDistance == g.pinchDistance
      && (Fresh(hypot, after) <==> after.Spread(hypot) == g.pinchDistance.value)
  {
    StepKeepsValid(hypot, g, e);
    assert e.s.id in ToSet(g.pointers.keys);
    SizeOfPut(g.pointers, e.s.id, e.s.at);
  }

  const FIRST := Sample(1, Point(0.0, 0.0), 1)
  const SECOND := Sample(2, Point(2.0, 0.0), 1)
  const THIRD := Sample(3, Point(5.0, 5.0), 1)
  const FIRST_AGAIN := Sample(1, Point(1.0, 0.0), 1)

  /** Such a run exists: fingers 1, 2 and 3 go down, then finger 1 is pressed again elsewhere. */
  lemma RepeatedPressIsStale(hypot: Hypot)
    requires hypot(-2.0, 0.0) != hypot(-1.0, 0.0)
    ensures var two := [PointerDown(FIRST), PointerDown(SECOND)];
      && Fresh(hypot, Run(hypot, IDLE, two + [PointerDown(THIRD)]))
      && !Fresh(hypot, Run(hypot, IDLE, two + [PointerDown(THIRD)] + [PointerDown(FIRST_AGAIN)]))
  {
    var two := [PointerDown(FIRST), PointerDown(SECOND)];
    var g := Run(hypot, IDLE, two);
    TwoFingers(hypot, FIRST, SECOND);
    ThirdAndAgain(hypot, g, THIRD, FIRST_AGAIN);
    RunSnoc(hypot, two, PointerDown(THIRD));
    RunSnoc(hypot, two + [PointerDown(THIRD)], PointerDown(FIRST_AGAIN));
  }

  lemma TwoFingers(hypot: Hypot, a: Sample, b: Sample)
    requires a.id == 1 && b.id == 2
    ensures var g := Run(hypot, IDLE, [PointerDown(a), PointerDown(b)]);
      && g.pointers.keys == [1, 2] && g.pointers.at == map[1 := a.at, 2 := b.at] && Fresh(hypot, g)
      && g.pinchDistance == Some(hypot(a.at.x - b.at.x, a.at.y - b.at.y))
  {
    RunSnoc(hypot, [], PointerDown(a));
    RunSnoc(hypot, [PointerDown(a)], PointerDown(b));
    assert [] + [PointerDown(a)] == [PointerDown(a)];
    assert [PointerDown(a)] + [PointerDown(b)] == [PointerDown(a), PointerDown(b)];
  }

  lemma ThirdAndAgain(hypot: Hypot, g: Gesture, c: Sample, d: Sample)
    requires g.Valid() && g.pointers.keys == [1, 2] && Fresh(hypot, g) && g.pinchDistance.Some?
    requires c.id == 3 && d.id == 1
    requires hypot(d.at.x - g.pointers.at[2].x, d.at.y - g.pointers.at[2].y) != g.pinchDistance.value
    ensures Pressed(hypot, g, c).Valid() && Pressed(hypot, Pressed(hypot, g, c), d).Valid()
    ensures Fresh(hypot, Pressed(hypot, g, c)) && !Fresh(hypot, Pressed(hypot, Pressed(hypot, g, c), d))
  {
    StepKeepsValid(hypot, g, PointerDown(c));
    var third := Pressed(hypot, g, c);
    SizeOfPut(g.pointers, c.id, c.at);
    assert 3 !in ToSet(g.pointers.keys);
    assert third.pointers.keys == [1, 2, 3];
    StepKeepsValid(hypot, third, PointerDown(d));
    SizeOfPut(third.pointers, d.id, d.at);
    assert 1 in ToSet(third.pointers.keys);
  }

  lemma RunSnoc(hypot: Hypot, events: seq<Event>, e: Event)
    ensures Run(hypot, IDLE, events + [e]) == Step(hypot, Run(hypot, IDLE, events), e).0
  {
    assert (events + [e])[..|events|] == events;
  }

  /** The zoom factors of a run multiplied up. */
  function Zoom(move: Option<Move>): real {
    if move.Some? && move.value.Pinch? then move.value.factor else 1.0
  }

  function Product(zs: seq<real>): real {
    if zs == [] then 1.0 else Product(zs[..|zs| - 1]) * zs[|zs| - 1]
  }

  /** The zoom factors of a run, one for each event. */
  function Zooms(hypot: Hypot, g: Gesture, events: seq<Event>): (zs: seq<real>)
    requires g.Valid()
    ensures |zs| == |events|
  {
    seq(|events|, k requires 0 <= k < |events| => Zoom(Output(hypot, g, events, k)))
  }

  /** Every factor leads from a distance to the next one. */
  ghost predicate AreFactors(zs: seq<real>, ds: seq<real>) {
    |ds| == |zs| + 1 && forall k :: 0 <= k < |zs| ==> Leads(ds[k], zs[k], ds[k + 1])
  }

  predicate Leads(d: real, z: real, next: real) {
    z * d == next
  }

  lemma {:induction false} ProductTelescopes(zs: seq<real>, ds: seq<real>)
    requires AreFactors(zs, ds)
    ensures Leads(ds[0], Product(zs), ds[|zs|])
  {
    if zs != [] {
      var n := |zs| - 1;
      FactorsBefore(zs, ds, n);
      ProductTelescopes(zs[..n], ds[..n + 1]);
      LeadsOn(ds[0], Product(zs[..n]), ds[n], zs[n], ds[n + 1]);
    }
  }

  lemma FactorsBefore(zs: seq<real>, ds: seq<real>, n: nat)
    requires AreFactors(zs, ds) && n < |zs|
    ensures AreFactors(zs[..n], ds[..n + 1]) && ds[..n + 1][n] == ds[n] && ds[..n + 1][0] == ds[0]
    ensures Leads(ds[n], zs[n], ds[n + 1])
  {
  }

  lemma LeadsOn(start: real, y: real, mid: real, z: real, end: real)
    requires Leads(start, y, mid) && Leads(mid, z, end)
    ensures Leads(start, y * z, end)
  {
    assert y * z * start == z * (y * start);
  }

  lemma QuotientIs(a: real, b: real, q: real)
    requires b != 0.0 && q * b == a
    ensures q == a / b
  {
    var r := a / b;
    assert r * b == a;
    assert (q - r) * b == 0.0;
  }

  lemma SelfRatio(d: real)
    requires d != 0.0
    ensures d / d == 1.0
  {
  }

  /** Two or more fingers are down, the first two apart, and their distance is remembered. */
  ghost predicate Apart(hypot: Hypot, g: Gesture)
    requires g.Valid()
  {
    |g.pointers.keys| >= 2 && g.Spread(hypot) > 0.0 && g.pinchDistance == Some(g.Spread(hypot))
  }

  function SpreadOf(hypot: Hypot, g: Gesture): real
    requires g.Valid()
  {
    if |g.pointers.keys| >= 2 then g.Spread(hypot) else 0.0
  }

  /** A pinch: fingers only move, and the first two never meet. */
  ghost predicate Pinching(hypot: Hypot, g: Gesture, events: seq<Event>)
    requires g.Valid()
  {
    && (forall k :: 0 <= k < |events| ==> events[k].PointerMove? && events[k].s.buttons != 0)
    && (forall k :: 0 <= k <= |events| ==> SpreadAfter(hypot, g, events, k) != 0.0)
  }

  /** The distance of the first two fingers after `k` events. */
  function SpreadAfter(hypot: Hypot, g: Gesture, events: seq<Event>, k: nat): real
    requires g.Valid() && k <= |events|
  {
    SpreadOf(hypot, Run(hypot, g, events[..k]))
  }

  lemma PinchStep(hypot: Hypot, g: Gesture, e: Event)
    requires NonNegative(hypot) && g.Valid() && Apart(hypot, g) && e.PointerMove? && e.s.buttons != 0
    requires Step(hypot, g, e).0.Valid() && SpreadOf(hypot, Step(hypot, g, e).0) != 0.0
    ensures var (after, move) := Step(hypot, g, e);
      Apart(hypot, after) && Zoom(move) == SpreadOf(hypot, after) / SpreadOf(hypot, g)
  {
    SizeOfPut(g.pointers, e.s.id, e.s.at);
    SelfRatio(g.Spread(hypot));
    if g.Tracks(e.s.id) {
      var seen := g.(pointers := g.pointers.Put(e.s.id, e.s.at));
      assert Step(hypot, g, e) == Pinched(hypot, seen);
      assert Step(hypot, g, e).0.Spread(hypot) == seen.Spread(hypot);
    }
  }

  lemma RunStep(hypot: Hypot, g: Gesture, events: seq<Event>, k: nat)
    requires g.Valid() && k < |events|
    ensures Run(hypot, g, events[..k + 1]) == Step(hypot, Run(hypot, g, events[..k]), events[k]).0
  {
    assert events[..k + 1][..k] == events[..k];
  }

  lemma {:induction false} StaysApart(hypot: Hypot, g: Gesture, events: seq<Event>, k: nat)
    requires NonNegative(hypot) && g.Valid() && Apart(hypot, g) && Pinching(hypot, g, events) && k <= |events|
    ensures Apart(hypot, Run(hypot, g, events[..k]))
  {
    if k == 0 {
      assert events[..0] == [];
    } else {
      StaysApart(hypot, g, events, k - 1);
      ApartOn(hypot, g, events, k - 1);
    }
  }

  lemma ApartOn(hypot: Hypot, g: Gesture, events: seq<Event>, k: nat)
    requires NonNegative(hypot) && g.Valid() && Pinching(hypot, g, events) && k < |events|
    requires Apart(hypot, Run(hypot, g, events[..k]))
    ensures Apart(hypot, Run(hypot, g, events[..k + 1]))
    ensures Zoom(Step(hypot, Run(hypot, g, events[..k]), events[k]).1) ==
            SpreadAfter(hypot, g, events, k + 1) / SpreadAfter(hypot, g, events, k)
  {
    RunStep(hypot, g, events, k);
    assert SpreadAfter(hypot, g, events, k + 1) != 0.0;
    PinchStep(hypot, Run(hypot, g, events[..k]), events[k]);
  }

  lemma ZoomIsRatio(hypot: Hypot, g: Gesture, events: seq<Event>, k: nat)
    requires NonNegative(hypot) && g.Valid() && Apart(hypot, g) && Pinching(hypot, g, events) && k < |events|
    ensures SpreadAfter(hypot, g, events, k) != 0.0
    ensures Zoom(Output(hypot, g, events, k)) == SpreadAfter(hypot, g, events, k + 1) / SpreadAfter(hypot, g, events, k)
  {
    StaysApart(hypot, g, events, k);
    ApartOn(hypot, g, events, k);
  }

  function Spreads(hypot: Hypot, g: Gesture, events: seq<Event>): (ds: seq<real>)
    requires g.Valid()
    ensures |ds| == |events| + 1
  {
    seq(|events| + 1, k requires 0 <= k <= |events| => SpreadAfter(hypot, g, events, k))
  }

  /** A pinch is around the middle between the two fingers that pressed first, by the ratio of their distances. */
  lemma PinchMeaning(hypot: Hypot, g: Gesture, e: Event)
    requires g.Valid() && Step(hypot, g, e).1.Some? && Step(hypot, g, e).1.value.Pinch?
    ensures var (after, move) := Step(hypot, g, e);
      && e.PointerMove? && after.pointers.Valid() && |after.pointers.keys| >= 2 && g.pinchDistance.Some?
      && var a, b := after.pointers.at[after.pointers.KeyAt(0)], after.pointers.at[after.pointers.KeyAt(1)];
      && move.value.center.x - a.x == b.x - move.value.center.x
      && move.value.center.y - a.y == b.y - move.value.center.y
      && move.value.factor * g.pinchDistance.value == hypot(a.x - b.x, a.y - b.y)
      && after.pinchDistance == Some(hypot(a.x - b.x, a.y - b.y))
  {
    SizeOfPut(g.pointers, e.s.id, e.s.at);
    var a, b := Step(hypot, g, e).0.pointers.at[Step(hypot, g, e).0.pointers.KeyAt(0)],
                Step(hypot, g, e).0.pointers.at[Step(hypot, g, e).0.pointers.KeyAt(1)];
    assert (hypot(a.x - b.x, a.y - b.y) / g.pinchDistance.value) * g.pinchDistance.value == hypot(a.x - b.x, a.y - b.y);
  }

  /** Through a pinch the zoom factors multiply up to the ratio of the finger distances at its end and its start. */
  lemma PinchesTelescope(hypot: Hypot, g: Gesture, events: seq<Event>)
    requires NonNegative(hypot) && g.Valid() && Apart(hypot, g) && Pinching(hypot, g, events)
    ensures SpreadAfter(hypot, g, events, 0) != 0.0
    ensures Product(Zooms(hypot, g, events))
         == SpreadAfter(hypot, g, events, |events|) / SpreadAfter(hypot, g, events, 0)
  {
    assert SpreadAfter(hypot, g, events, 0) != 0.0;
    PinchFactors(hypot, g, events);
    var zs, ds := Zooms(hypot, g, events), Spreads(hypot, g, events);
    ProductTelescopes(zs, ds);
    LeadsRatio(ds[0], Product(zs), ds[|zs|]);
  }

  lemma PinchFactors(hypot: Hypot, g: Gesture, events: seq<Event>)
    requires NonNegative(hypot) && g.Valid() && Apart(hypot, g) && Pinching(hypot, g, events)
    ensures AreFactors(Zooms(hypot, g, events), Spreads(hypot, g, events))
  {
    var zs, ds := Zooms(hypot, g, events), Spreads(hypot, g, events);
    forall k | 0 <= k < |zs| ensures Leads(ds[k], zs[k], ds[k + 1]) {
      ZoomLeads(hypot, g, events, k);
    }
  }

  lemma ZoomLeads(hypot: Hypot, g: Gesture, events: seq<Event>, k: nat)
    requires NonNegative(hypot) && g.Valid() && Apart(hypot, g) && Pinching(hypot, g, events) && k < |events|
    ensures Leads(SpreadAfter(hypot, g, events, k), Zoom(Output(hypot, g, events, k)),
                  SpreadAfter(hypot, g, events, k + 1))
  {
    ZoomIsRatio(hypot, g, events, k);
    RatioLeads(SpreadAfter(hypot, g, events, k), Zoom(Output(hypot, g, events, k)),
               SpreadAfter(hypot, g, events, k + 1));
  }

  lemma RatioLeads(d: real, z: real, next: real)
    requires d != 0.0 && z == next / d
    ensures Leads(d, z, next)
  {
  }

  lemma LeadsRatio(d: real, z: real, next: real)
    requires d != 0.0 && Leads(d, z, next)
    ensures z == next / d
  {
    QuotientIs(next, d, z);
  }
}
