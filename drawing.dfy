/** The freehand drawing closure installed on the canvas: `getOffset`, `startDrawing`,
    `draw` and `stopDrawing` around a local `isDrawing` flag, plus the "Clear Whiteboard"
    button. The canvas is modelled as the log of path commands sent to its 2D context. */
module Drawing {
  import opened Base

  /** The canvas's logical size (the `width` and `height` attributes). */
  const CanvasWidth: real := 800.0
  const CanvasHeight: real := 400.0

  /** A call on the canvas's 2D context. */
  datatype PathCommand =
    | BeginPath
    | MoveTo(p: Point)
    | LineTo(p: Point)
    | Stroke
    | ClosePath
    | ClearRect(x: real, y: real, w: real, h: real)

  /** What `getOffset` can read from an event: the client positions of its touches
      (none for a mouse event), the `nativeEvent` property, which only React's
      wrapped events have, and the event's own `offsetX`/`offsetY`. */
  datatype PointerEvent = PointerEvent(touches: seq<Point>, nativeEvent: Option<Point>, offset: Point)

  /** A mouse event as a listener registered with `addEventListener` receives it:
      no touches and no `nativeEvent`. */
  function DomMouseEvent(offset: Point): PointerEvent {
    PointerEvent([], None, offset)
  }

  /** A touch event as the canvas receives it, with the client position of its first touch. */
  function DomTouchEvent(first: Point, rest: seq<Point>): PointerEvent {
    PointerEvent([first] + rest, None, Origin)
  }

  /** `getOffset` as written: the first touch relative to the canvas's bounding
      rectangle, else `nativeEvent.offsetX/offsetY`, else the canvas origin. */
  function GetOffsetAsWritten(e: PointerEvent, canvas: Rect): (p: Point)
    ensures |e.touches| > 0 ==> p == Local(e.touches[0], canvas)
    ensures |e.touches| == 0 && e.nativeEvent.Some? ==> p == e.nativeEvent.value
    ensures |e.touches| == 0 && e.nativeEvent.None? ==> p == Origin
  {
    if |e.touches| > 0 then Local(e.touches[0], canvas)
    else if e.nativeEvent.Some? then e.nativeEvent.value
    else Origin
  }

  /** The discrepancy: every mouse event the canvas listeners receive is normalised to
      the canvas origin, wherever the pointer is. */
  lemma MouseEventsDrawAtOrigin(canvas: Rect)
    ensures forall o :: GetOffsetAsWritten(DomMouseEvent(o), canvas) == Origin
    ensures GetOffsetAsWritten(DomMouseEvent(Point(100.0, 50.0)), canvas) != Point(100.0, 50.0)
  {
  }

  /** `getOffset` as evidently intended: the same three-way choice, with a plain mouse
      event falling back to its own `offsetX`/`offsetY` instead of the origin. */
  function GetOffset(e: PointerEvent, canvas: Rect): (p: Point)
    ensures |e.touches| > 0 ==> p == Local(e.touches[0], canvas)
    ensures |e.touches| == 0 && e.nativeEvent.Some? ==> p == e.nativeEvent.value
    ensures |e.touches| == 0 && e.nativeEvent.None? ==> p == e.offset
  {
    if |e.touches| > 0 then Local(e.touches[0], canvas)
    else if e.nativeEvent.Some? then e.nativeEvent.value
    else e.offset
  }

  /** With the correction, mouse events are normalised to the pointer's canvas position
      and touch events to their first touch; the two versions agree on every event
      that has touches or a `nativeEvent`. */
  lemma GetOffsetCorrection(o: Point, first: Point, rest: seq<Point>, canvas: Rect, e: PointerEvent)
    ensures GetOffset(DomMouseEvent(o), canvas) == o
    ensures GetOffset(DomTouchEvent(first, rest), canvas) == Local(first, canvas)
    ensures |e.touches| > 0 || e.nativeEvent.Some? ==> GetOffset(e, canvas) == GetOffsetAsWritten(e, canvas)
  {
  }

  /** Which normaliser the handlers use: `getOffset` as written, or as corrected. */
  datatype Normaliser = AsWritten | Corrected

  function Normalise(n: Normaliser, e: PointerEvent, canvas: Rect): (p: Point)
    ensures n.AsWritten? ==> p == GetOffsetAsWritten(e, canvas)
    ensures n.Corrected? ==> p == GetOffset(e, canvas)
  {
    if n.AsWritten? then GetOffsetAsWritten(e, canvas) else GetOffset(e, canvas)
  }

  /** The closure's state: the `isDrawing` flag and the context's command log. */
  datatype Pen = Pen(isDrawing: bool, log: seq<PathCommand>)

  const Idle: Pen := Pen(false, [])

  /** `startDrawing`: always begins a fresh path at the event's normalised point, even
      when a stroke is already in progress. */
  function StartStep(p: Pen, e: PointerEvent, canvas: Rect, n: Normaliser): (r: Pen)
    ensures r.isDrawing
    ensures r.log == p.log + [BeginPath, MoveTo(Normalise(n, e, canvas))]
  {
    Pen(true, p.log + [BeginPath, MoveTo(Normalise(n, e, canvas))])
  }

  /** `draw`: a line to the event's normalised point and a stroke while drawing,
      nothing otherwise. */
  function DrawStep(p: Pen, e: PointerEvent, canvas: Rect, n: Normaliser): (r: Pen)
    ensures r.isDrawing == p.isDrawing
    ensures r.log == p.log + (if p.isDrawing then [LineTo(Normalise(n, e, canvas)), Stroke] else [])
  {
    if !p.isDrawing then p
    else p.(log := p.log + [LineTo(Normalise(n, e, canvas)), Stroke])
  }

  /** As written, a mouse stroke starts and continues at the canvas corner wherever the
      pointer is; with the correction it follows the pointer. */
  lemma MouseStrokeAtCorner(p: Pen, o: Point, q: Point, canvas: Rect)
    requires p.isDrawing
    ensures StartStep(p, DomMouseEvent(o), canvas, AsWritten).log == p.log + [BeginPath, MoveTo(Origin)]
    ensures DrawStep(p, DomMouseEvent(q), canvas, AsWritten).log == p.log + [LineTo(Origin), Stroke]
    ensures StartStep(p, DomMouseEvent(o), canvas, Corrected).log == p.log + [BeginPath, MoveTo(o)]
    ensures DrawStep(p, DomMouseEvent(q), canvas, Corrected).log == p.log + [LineTo(q), Stroke]
  {
  }

  /** `stopDrawing`: always Idle afterwards; it closes the path whether or not one
      was being drawn. */
  function StopStep(p: Pen): (r: Pen)
    ensures !r.isDrawing && r.log == p.log + [ClosePath]
  {
    Pen(false, p.log + [ClosePath])
  }

  /** `clearCanvas`: wipes the whole surface; the stroke flag is untouched. */
  function ClearStep(p: Pen): (r: Pen)
    ensures r.isDrawing == p.isDrawing
    ensures r.log == p.log + [ClearRect(0.0, 0.0, CanvasWidth, CanvasHeight)]
  {
    p.(log := p.log + [ClearRect(0.0, 0.0, CanvasWidth, CanvasHeight)])
  }

  /** The events the canvas listens to: mousedown/touchstart (`Down`),
      mousemove/touchmove (`Move`), mouseup/mouseout/touchend/touchcancel (`Up`),
      and the "Clear Whiteboard" button. */
  datatype CanvasEvent =
    | Down(e: PointerEvent, canvas: Rect)
    | Move(e: PointerEvent, canvas: Rect)
    | Up
    | ClearButton

  /** The listener wiring: a start sets the flag, a stop clears it, a move or a clear
      keeps it; every event appends to the log and only a move while drawing strokes. */
  function Handle(p: Pen, ev: CanvasEvent, n: Normaliser): (r: Pen)
    ensures r.isDrawing == (if ev.Down? then true else if ev.Up? then false else p.isDrawing)
    ensures |p.log| < |r.log| || (ev.Move? && !p.isDrawing && r == p)
    ensures r.log[..|p.log|] == p.log
    ensures Stroke in r.log[|p.log|..] <==> ev.Move? && p.isDrawing
  {
    match ev
    case Down(e, canvas) => StartStep(p, e, canvas, n)
    case Move(e, canvas) => DrawStep(p, e, canvas, n)
    case Up => StopStep(p)
    case ClearButton => ClearStep(p)
  }

  function Replay(p: Pen, evs: seq<CanvasEvent>, n: Normaliser): Pen
    decreases |evs|
  {
    if evs == [] then p else Replay(Handle(p, evs[0], n), evs[1..], n)
  }

  /** Whether a stroke is in progress after `evs`, starting from `drawing`: the last
      `Down` or `Up` decides. */
  function DrawingAfter(drawing: bool, evs: seq<CanvasEvent>): bool
    decreases |evs|
  {
    if evs == [] then drawing
    else DrawingAfter(if evs[0].Down? then true else if evs[0].Up? then false else drawing, evs[1..])
  }

  /** The number of `Move` events in `evs` that arrive while a stroke is in progress. */
  function ActiveMoves(drawing: bool, evs: seq<CanvasEvent>): nat
    decreases |evs|
  {
    if evs == [] then 0
    else
      (if evs[0].Move? && drawing then 1 else 0)
      + ActiveMoves(if evs[0].Down? then true else if evs[0].Up? then false else drawing, evs[1..])
  }

  function CountStrokes(log: seq<PathCommand>): nat
    decreases |log|
  {
    if log == [] then 0 else (if log[0] == Stroke then 1 else 0) + CountStrokes(log[1..])
  }

  lemma {:induction false} CountStrokesAppend(a: seq<PathCommand>, b: seq<PathCommand>)
    ensures CountStrokes(a + b) == CountStrokes(a) + CountStrokes(b)
    decreases |a|
  {
    if a == [] {
      assert a + b == b;
    } else {
      assert (a + b)[0] == a[0] && (a + b)[1..] == a[1..] + b;
      CountStrokesAppend(a[1..], b);
    }
  }

  /** After any sequence of events the flag says whether the last `Down` came after the
      last `Up`; the canvas log only grows; and exactly one stroke is rendered per move
      that arrives between a `Down` and the following `Up`. */
  lemma {:induction false} ReplayInvariant(p: Pen, evs: seq<CanvasEvent>, n: Normaliser)
    ensures Replay(p, evs, n).isDrawing == DrawingAfter(p.isDrawing, evs)
    ensures |p.log| <= |Replay(p, evs, n).log| && Replay(p, evs, n).log[..|p.log|] == p.log
    ensures CountStrokes(Replay(p, evs, n).log) == CountStrokes(p.log) + ActiveMoves(p.isDrawing, evs)
    decreases |evs|
  {
    if evs != [] {
      var q := Handle(p, evs[0], n);
      ReplayInvariant(q, evs[1..], n);
      var added := q.log[|p.log|..];
      assert q.log == p.log + added;
      CountStrokesAppend(p.log, added);
      assert CountStrokes(added) == if evs[0].Move? && p.isDrawing then 1 else 0 by {
        match evs[0]
        case Down(e, c) =>
          assert added == [BeginPath, MoveTo(Normalise(n, e, c))];
          assert added[1..] == [MoveTo(Normalise(n, e, c))] && added[1..][1..] == [];
          assert CountStrokes(added[1..]) == 0;
        case Move(e, c) =>
          if p.isDrawing {
            assert added == [LineTo(Normalise(n, e, c)), Stroke];
            assert added[1..] == [Stroke] && added[1..][1..] == [];
            assert CountStrokes(added[1..]) == 1;
          } else {
            assert added == [];
          }
        case Up =>
          assert added == [ClosePath] && added[1..] == [];
        case ClearButton =>
          assert added == [ClearRect(0.0, 0.0, CanvasWidth, CanvasHeight)] && added[1..] == [];
      }
      var r := Replay(q, evs[1..], n);
      assert r.log[..|p.log|] == r.log[..|q.log|][..|p.log|];
    }
  }

  /** From Idle, moves with no `Down` before them render nothing. */
  lemma {:induction false} NoStrokeWithoutStart(evs: seq<CanvasEvent>, n: Normaliser)
    requires forall i :: 0 <= i < |evs| ==> !evs[i].Down?
    ensures ActiveMoves(false, evs) == 0
    ensures CountStrokes(Replay(Idle, evs, n).log) == 0
    decreases |evs|
  {
    ReplayInvariant(Idle, evs, n);
    if evs != [] {
      NoStrokeWithoutStart(evs[1..], n);
    }
  }

  /** The canvas closure as written: `isDrawing` and the canvas context it draws on,
      with points normalised by `getOffset` as it stands. */
  class Canvas {
    var isDrawing: bool
    var log: seq<PathCommand>

    function State(): Pen
      reads this
    {
      Pen(isDrawing, log)
    }

    /** The effect that installs the listeners: a fresh, idle closure. */
    constructor ()
      ensures State() == Idle
    {
      isDrawing, log := false, [];
    }

    method StartDrawing(e: PointerEvent, canvas: Rect)
      modifies this
      ensures State() == StartStep(old(State()), e, canvas, AsWritten)
    {
      isDrawing := true;
      var offset := GetOffsetAsWritten(e, canvas);
      log := log + [BeginPath];
      log := log + [MoveTo(offset)];
    }

    method Draw(e: PointerEvent, canvas: Rect)
      modifies this
      ensures State() == DrawStep(old(State()), e, canvas, AsWritten)
    {
      if !isDrawing {
        return;
      }
      var offset := GetOffsetAsWritten(e, canvas);
      log := log + [LineTo(offset)];
      log := log + [Stroke];
    }

    method StopDrawing()
      modifies this
      ensures State() == StopStep(old(State()))
    {
      isDrawing := false;
      log := log + [ClosePath];
    }

    method ClearCanvas()
      modifies this
      ensures State() == ClearStep(old(State()))
    {
      log := log + [ClearRect(0.0, 0.0, CanvasWidth, CanvasHeight)];
    }
  }
}
