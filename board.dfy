/** The whiteboard's React state cells for the note layer (the note list, the note
    input, the Draw/Note mode flag and the drag gesture) and the drag state machine
    driven by `handleMouseDown`, `handleMouseMove` and `handleMouseUp`. */
module Board {
  import opened Base
  import Notes
  import JsString

  /** The state cells `stickyNotes`, `stickyNoteText`, `isDrawingMode`, `draggedNote`
      and `dragOffset`. The gesture is Idle when `draggedNote` is `None`. */
  datatype BoardState = BoardState(
    notes: seq<Notes.Note>,
    noteText: string,
    drawingMode: bool,
    draggedNote: Option<Notes.Note>,
    dragOffset: Point)

  /** The state on first render: no notes, empty input, Draw mode, no drag. */
  const Initial: BoardState := BoardState([], "", true, None, Origin)

  /** `handleMouseDown` on `note`: in Note mode it starts a drag, remembering the note
      and the pointer's offset from the note's origin in the container's coordinates;
      in Draw mode it does nothing. */
  function MouseDown(s: BoardState, client: Point, container: Rect, note: Notes.Note): (r: BoardState)
    ensures s.drawingMode ==> r == s
    ensures !s.drawingMode ==>
      && r.draggedNote == Some(note)
      && r.dragOffset.x + note.x == Local(client, container).x
      && r.dragOffset.y + note.y == Local(client, container).y
      && r.notes == s.notes && r.noteText == s.noteText && r.drawingMode == s.drawingMode
  {
    if !s.drawingMode then
      var grab := Local(client, container);
      s.(draggedNote := Some(note), dragOffset := Point(grab.x - note.x, grab.y - note.y))
    else
      s
  }

  /** `handleMouseMove` over the container: while a drag is active in Note mode, the
      dragged note's id is moved so that the grab offset stays under the pointer (no
      clamping); otherwise nothing changes. The drag itself is never changed. */
  function MouseMove(s: BoardState, client: Point, container: Rect): (r: BoardState)
    ensures s.draggedNote.None? || s.drawingMode ==> r == s
    ensures s.draggedNote.Some? && !s.drawingMode ==>
      && r.notes == Notes.MoveStickyNote(s.notes, s.draggedNote.value.id,
           Local(client, container).x - s.dragOffset.x, Local(client, container).y - s.dragOffset.y)
      && r.noteText == s.noteText && r.drawingMode == s.drawingMode
      && r.draggedNote == s.draggedNote && r.dragOffset == s.dragOffset
  {
    if s.draggedNote.Some? && !s.drawingMode then
      var p := Local(client, container);
      s.(notes := Notes.MoveStickyNote(s.notes, s.draggedNote.value.id, p.x - s.dragOffset.x, p.y - s.dragOffset.y))
    else
      s
  }

  /** `handleMouseUp` (also bound to mouse-leave): back to Idle with a zero offset,
      whatever the mode; the notes stay where the last move put them. */
  function MouseUp(s: BoardState): (r: BoardState)
    ensures r.draggedNote.None? && r.dragOffset == Origin
    ensures r.notes == s.notes && r.noteText == s.noteText && r.drawingMode == s.drawingMode
  {
    s.(draggedNote := None, dragOffset := Origin)
  }

  /** The two mode buttons only set the flag: an active drag is not ended by
      switching to Draw mode, it is only suspended until Note mode returns. */
  function SelectMode(s: BoardState, drawing: bool): (r: BoardState)
    ensures r.drawingMode == drawing
    ensures r.notes == s.notes && r.noteText == s.noteText
    ensures r.draggedNote == s.draggedNote && r.dragOffset == s.dragOffset
  {
    s.(drawingMode := drawing)
  }

  /** A mouse-down followed by a move with the same pointer and the same container
      origin leaves the note at the position it had: the grab offset stops the note
      from jumping to the pointer. */
  lemma GrabDoesNotJump(s: BoardState, client: Point, container: Rect, note: Notes.Note)
    requires !s.drawingMode
    ensures MouseMove(MouseDown(s, client, container, note), client, container).notes
         == Notes.MoveStickyNote(s.notes, note.id, note.x, note.y)
    ensures note in s.notes && Notes.UniqueIds(s.notes) ==>
      MouseMove(MouseDown(s, client, container, note), client, container).notes == s.notes
  {
    DragFollowsPointer(s, note, client, container, client, container);
    if note in s.notes && Notes.UniqueIds(s.notes) {
      Notes.MoveToOwnPosition(s.notes, note);
    }
  }

  /** Dragging moves the note by exactly the pointer's displacement measured in
      container coordinates, so a container that moved under the pointer is allowed for. */
  lemma DragFollowsPointer(s: BoardState, note: Notes.Note, c0: Point, r0: Rect, c1: Point, r1: Rect)
    requires !s.drawingMode
    ensures MouseMove(MouseDown(s, c0, r0, note), c1, r1).notes
         == Notes.MoveStickyNote(s.notes, note.id,
              note.x + (Local(c1, r1).x - Local(c0, r0).x),
              note.y + (Local(c1, r1).y - Local(c0, r0).y))
  {
    var d := MouseDown(s, c0, r0, note);
    assert Local(c1, r1).x - d.dragOffset.x == note.x + (Local(c1, r1).x - Local(c0, r0).x);
    assert Local(c1, r1).y - d.dragOffset.y == note.y + (Local(c1, r1).y - Local(c0, r0).y);
  }

  /** One pointer sample: where the pointer is and where the container is. */
  datatype Sample = Sample(client: Point, container: Rect)

  /** A run of mouse-move events. */
  function Moves(s: BoardState, samples: seq<Sample>): BoardState
    decreases |samples|
  {
    if samples == [] then s
    else Moves(MouseMove(s, samples[0].client, samples[0].container), samples[1..])
  }

  /** However many move events a drag receives, the note ends exactly where the last
      one alone would put it, and the gesture state is untouched. */
  lemma {:induction false} DragSessionLastMoveWins(s: BoardState, samples: seq<Sample>)
    requires s.draggedNote.Some? && !s.drawingMode && samples != []
    ensures Moves(s, samples) == MouseMove(s, samples[|samples| - 1].client, samples[|samples| - 1].container)
    decreases |samples|
  {
    var t := MouseMove(s, samples[0].client, samples[0].container);
    if |samples| > 1 {
      DragSessionLastMoveWins(t, samples[1..]);
      var last := samples[|samples| - 1];
      assert samples[1..][|samples[1..]| - 1] == last;
      var id := s.draggedNote.value.id;
      var p0, p1 := Local(samples[0].client, samples[0].container), Local(last.client, last.container);
      Notes.MoveLastWins(s.notes, id, p0.x - s.dragOffset.x, p0.y - s.dragOffset.y,
                         p1.x - s.dragOffset.x, p1.y - s.dragOffset.y);
    }
  }

  /** Once released, the board ignores move events until the next mouse-down. */
  lemma {:induction false} ReleasedIgnoresMoves(s: BoardState, samples: seq<Sample>)
    ensures Moves(MouseUp(s), samples) == MouseUp(s)
    decreases |samples|
  {
    if samples != [] {
      ReleasedIgnoresMoves(s, samples[1..]);
    }
  }

  /** The note layer as the component holds it: one field per state cell. */
  class Whiteboard {
    var stickyNotes: seq<Notes.Note>
    var stickyNoteText: string
    var isDrawingMode: bool
    var draggedNote: Option<Notes.Note>
    var dragOffset: Point

    function State(): BoardState
      reads this
    {
      BoardState(stickyNotes, stickyNoteText, isDrawingMode, draggedNote, dragOffset)
    }

    constructor ()
      ensures State() == Initial
    {
      stickyNotes, stickyNoteText, isDrawingMode := [], "", true;
      draggedNote, dragOffset := None, Origin;
    }

    /** The note input's `onChange`. */
    method SetStickyNoteText(text: string)
      modifies this
      ensures State() == old(State()).(noteText := text)
    {
      stickyNoteText := text;
    }

    /** `addStickyNote`, with `Date.now()` and the three `Math.random()` draws given.
        It keeps ids unique when `now` is not already in use. */
    method AddStickyNote(now: int, rx: real, ry: real, rc: real)
      requires Notes.IsRandom(rx) && Notes.IsRandom(ry) && Notes.IsRandom(rc)
      modifies this
      ensures (stickyNotes, stickyNoteText)
           == Notes.AddStickyNote(old(stickyNotes), old(stickyNoteText), now, rx, ry, rc)
      ensures isDrawingMode == old(isDrawingMode)
      ensures draggedNote == old(draggedNote) && dragOffset == old(dragOffset)
      ensures Notes.UniqueIds(old(stickyNotes)) && (forall n :: n in old(stickyNotes) ==> n.id != now)
              ==> Notes.UniqueIds(stickyNotes)
    {
      if Notes.UniqueIds(stickyNotes) && (forall n :: n in stickyNotes ==> n.id != now) {
        Notes.AddKeepsUniqueIds(stickyNotes, stickyNoteText, now, rx, ry, rc);
      }
      if JsString.Trim(stickyNoteText) != "" {
        var note := Notes.NewNote(now, stickyNoteText, rx, ry, rc);
        stickyNotes := stickyNotes + [note];
        stickyNoteText := "";
      }
    }

    /** The per-note delete button. */
    method DeleteStickyNote(id: int)
      modifies this
      ensures State() == old(State()).(notes := Notes.DeleteStickyNote(old(stickyNotes), id))
      ensures Notes.UniqueIds(old(stickyNotes)) ==> Notes.UniqueIds(stickyNotes)
    {
      if Notes.UniqueIds(stickyNotes) {
        Notes.DeleteKeepsUniqueIds(stickyNotes, id);
      }
      stickyNotes := Notes.DeleteStickyNote(stickyNotes, id);
    }

    /** The "Clear All Notes" button. */
    method ClearAllNotes()
      modifies this
      ensures State() == old(State()).(notes := [])
    {
      stickyNotes := [];
    }

    /** The "Drawing Mode" (`true`) and "Note Mode" (`false`) buttons. */
    method SetDrawingMode(drawing: bool)
      modifies this
      ensures State() == SelectMode(old(State()), drawing)
    {
      isDrawingMode := drawing;
    }

    method HandleMouseDown(client: Point, container: Rect, note: Notes.Note)
      modifies this
      ensures State() == MouseDown(old(State()), client, container, note)
    {
      if !isDrawingMode {
        var offsetX := client.x - container.left - note.x;
        var offsetY := client.y - container.top - note.y;
        draggedNote := Some(note);
        dragOffset := Point(offsetX, offsetY);
      }
    }

    method HandleMouseMove(client: Point, container: Rect)
      modifies this
      ensures State() == MouseMove(old(State()), client, container)
      ensures Notes.UniqueIds(old(stickyNotes)) ==> Notes.UniqueIds(stickyNotes)
    {
      if draggedNote.Some? && !isDrawingMode {
        var newX := client.x - container.left - dragOffset.x;
        var newY := client.y - container.top - dragOffset.y;
        assert Point(newX, newY) == Point(Local(client, container).x - dragOffset.x, Local(client, container).y - dragOffset.y);
        if Notes.UniqueIds(stickyNotes) {
          Notes.MoveKeepsUniqueIds(stickyNotes, draggedNote.value.id, newX, newY);
        }
        stickyNotes := Notes.MoveStickyNote(stickyNotes, draggedNote.value.id, newX, newY);
      }
    }

    /** Bound to both mouse-up and mouse-leave of the container. */
    method HandleMouseUp()
      modifies this
      ensures State() == MouseUp(old(State()))
    {
      draggedNote := None;
      dragOffset := Origin;
    }
  }
}
