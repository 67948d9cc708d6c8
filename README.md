# Development Strategy Whiteboard — a Dafny model of its component logic

The whiteboard is a single React component, `src/App.js`. It has four main parts:
- a freehand drawing canvas;
- a layer of draggable sticky notes over the canvas, with a Draw/Note mode switch;
- a grid of tasks in four fixed phases, whose cells are edited inline and saved through
  a debounced update;
- two forms, one to invite a team member and one to add a task.

This project models the logic inside those parts:
- how the component's state cells change;
- the path commands the drawing closure sends to the canvas;
- the requests the component issues.

Each part is modelled by pure transition functions, and the lemmas state what the
component promises about those transitions. Three parts also have a class that holds
their state cells: the canvas (`Drawing.Canvas`), the note layer (`Board.Whiteboard`)
and the grid (`TaskGrid.Grid`). Most class methods are proved to perform exactly their
transition function. `Board.Whiteboard.SetStickyNoteText` and
`Board.Whiteboard.ClearAllNotes` state their new cells directly, and
`TaskGrid.Grid.DeletePhaseItem` states its new cells and its alert directly. The forms
are modelled by functions only: each form's fields are a value passed in and returned.

Modules:

- `Base`: `Option`, points and rectangles, and client-to-local coordinates.
- `JsString`: the white space of `String.prototype.trim` and of the regular-expression
  class `\s` (one shared definition), and `trim`.
- `Notes`: the sticky-note list (`addStickyNote`, `deleteStickyNote`, `moveStickyNote`,
  "Clear All Notes").
- `Board`: the note layer's state cells and the drag gesture (`handleMouseDown`,
  `handleMouseMove`, `handleMouseUp`, the mode buttons). The class is `Board.Whiteboard`.
- `Drawing`: the canvas closure (`getOffset`, `startDrawing`, `draw`, `stopDrawing`) and
  "Clear Whiteboard", over a log of path commands. The steps take the point normaliser
  as a parameter: `getOffset` as written, or as corrected (see "## Findings"). The class
  `Drawing.Canvas` is the closure as written, so it uses the as-written `getOffset`.
- `Debounce`: the single shared timer slot of `debouncedUpdatePhaseItem`, over an
  abstract millisecond clock.
- `Tasks`: the task items as JSON objects, made of the following pieces.
  - Items are maps from field name to value. Object spread is map union, and a missing
    field is `undefined`.
  - The phase bucketing of `fetchPhases`.
  - The optimistic merge of `updatePhaseItem`.
  - The removal of `deletePhaseItem`.
  - The single-field updates of the inline cell editors.
- `TaskGrid`: the grid's `phases` cell together with the debounce slot and the log of
  update requests issued. The class is `TaskGrid.Grid`.
- `Forms`: the invite form with the email check of `addTeamMember`, and the new-task form
  with the goal check and the `assigned_to` default of `addNewTask`.

In these places the model follows the code, where a reader might expect otherwise:
- A drag is not clamped to the canvas.
- Notes have no width or height, and cannot be resized.
- There is no snapshot save or load.
- `startDrawing` begins a new path even while a stroke is in progress.
- Switching mode does not end a drag: `SelectMode` keeps `draggedNote`. A drag left
  active when Draw mode is chosen resumes when Note mode returns.
- Drawing is not gated by the mode. The canvas listeners are always installed, and in
  Draw mode the notes only stop taking pointer events.
- Note ids come from `Date.now()` and are not unique by construction. The id-uniqueness
  lemmas state the freshness they need.

## Model

| member | source | states |
|---|---|---|
| Base.Local | src/App.js:165-167 | the local point plus the rectangle's top-left corner is the client point, on each axis |
| JsString.Trim | src/App.js:135 | `trim()` yields the empty (falsy) string exactly when the input is all white space; otherwise it starts and ends with non-white-space; and it is a slice of the input with only white space cut off on either side |
| Notes.PaletteIndex | src/App.js:141 | `Math.floor(r * 5)` of a random draw in [0,1) is a valid index of the five-colour palette, and it is the floor |
| Notes.NewNote | src/App.js:136-142 | the new note has id `now`, the text exactly as typed, x in [50,650), y in [50,350) and a colour from the palette |
| Notes.AddStickyNote | src/App.js:134-146 | blank input: the list and the text are unchanged; otherwise exactly one note is appended after the unchanged old notes, with those contents, and the input becomes "" |
| Notes.DeleteStickyNote | src/App.js:148-150 | a note is kept iff it was there and its id differs; the list never grows; deleting an absent id changes nothing |
| Notes.DeleteConcat | src/App.js:148-150 | the delete filter distributes over concatenation, so the survivors keep their relative order |
| Notes.DeleteIdempotent | src/App.js:148-150 | deleting the same id a second time changes nothing |
| Notes.MoveStickyNote | src/App.js:155-161 | the length and order are kept, ids, texts and colours are kept, every matching note gets exactly (newX, newY) with no clamping, and every other note is untouched |
| Notes.MoveLastWins | src/App.js:155-161 | two moves of the same id equal the later move alone |
| Notes.AddKeepsUniqueIds | src/App.js:134-146 | adding with an id not yet in use keeps ids unique |
| Notes.DeleteKeepsUniqueIds | src/App.js:148-150 | deleting keeps ids unique |
| Notes.MoveKeepsUniqueIds | src/App.js:155-161 | moving keeps ids unique |
| Notes.MoveToOwnPosition | src/App.js:155-161 | with unique ids, moving a note to its own position leaves the list unchanged |
| Notes.ClearAllIsDeletingEveryNote | src/App.js:469 | "Clear All Notes" (the empty list) is the same as deleting every note's id in turn |
| Board.MouseDown | src/App.js:163-172 | in Draw mode nothing changes; in Note mode the gesture becomes Dragging that note, with offset = pointer − container corner − note position; the notes, the text and the mode are kept |
| Board.MouseMove | src/App.js:174-181 | while Idle or in Draw mode nothing changes; while dragging in Note mode the dragged id moves to pointer − corner − offset, and the gesture, the text and the mode are kept |
| Board.MouseUp | src/App.js:183-186 | back to Idle with a zero offset, in either mode; the notes, the text and the mode are kept |
| Board.SelectMode | src/App.js:317 | the mode buttons set only the flag; the notes, the text and the drag gesture are kept |
| Board.GrabDoesNotJump | src/App.js:163-181 | a mouse-down then a move with the same pointer and container moves the note to the position it already had, so with unique ids the list is unchanged |
| Board.DragFollowsPointer | src/App.js:163-181 | after a grab, a move displaces the note by exactly the pointer's displacement in container coordinates |
| Board.DragSessionLastMoveWins | src/App.js:174-181 | any non-empty run of moves during a drag ends in the state the last move alone gives |
| Board.ReleasedIgnoresMoves | src/App.js:183-186 | after mouse-up, any run of moves changes nothing |
| Board.Whiteboard.constructor | src/App.js:8-10 | the first render: no notes, empty input, Draw mode (lines 8-10), and no drag with a (0,0) offset (`draggedNote` and `dragOffset`, lines 152-153) |
| Board.Whiteboard.SetStickyNoteText | src/App.js:354 | only the input text changes |
| Board.Whiteboard.AddStickyNote | src/App.js:134-146 | performs `Notes.AddStickyNote` on the list and the text, keeps the rest, and keeps ids unique when `now` is fresh |
| Board.Whiteboard.DeleteStickyNote | src/App.js:148-150 | performs `Notes.DeleteStickyNote`, keeps the rest, and keeps ids unique |
| Board.Whiteboard.ClearAllNotes | src/App.js:469 | the list becomes empty; nothing else changes |
| Board.Whiteboard.SetDrawingMode | src/App.js:317 | performs `SelectMode` |
| Board.Whiteboard.HandleMouseDown | src/App.js:163-172 | performs `MouseDown` |
| Board.Whiteboard.HandleMouseMove | src/App.js:174-181 | performs `MouseMove` and keeps ids unique |
| Board.Whiteboard.HandleMouseUp | src/App.js:183-186 | performs `MouseUp` |
| Drawing.GetOffsetAsWritten | src/App.js:70-86 | the three-way choice as written: the first touch relative to the canvas rectangle, else `nativeEvent`'s offset, else (0,0) |
| Drawing.MouseEventsDrawAtOrigin | src/App.js:70-86 | every event a native mouse listener receives is normalised to (0,0); offset (100,50) is not kept |
| Drawing.GetOffset | src/App.js:70-86 | the corrected choice: a plain mouse event falls back to its own offset instead of (0,0) |
| Drawing.GetOffsetCorrection | src/App.js:70-86 | the correction maps mouse events to their own offset and touch events to their first touch, and agrees with the code on every event that has touches or a `nativeEvent` |
| Drawing.Normalise | src/App.js:70-86 | the chosen normaliser: `getOffset` as written, or the corrected one |
| Drawing.StartStep | src/App.js:88-93 | drawing afterwards, even if already drawing; the log gains exactly beginPath and moveTo(the point the chosen normaliser gives) |
| Drawing.DrawStep | src/App.js:95-100 | the flag is kept; the log gains lineTo(the normalised point) and stroke exactly when drawing, and nothing otherwise |
| Drawing.MouseStrokeAtCorner | src/App.js:88-100 | as written, a mouse stroke's moveTo and lineTo go to (0,0) wherever the pointer is; corrected, they go to the pointer's offset |
| Drawing.StopStep | src/App.js:102-105 | always Idle afterwards; the log gains exactly closePath |
| Drawing.ClearStep | src/App.js:128-132 | the log gains exactly clearRect(0, 0, 800, 400); the flag is kept |
| Drawing.Handle | src/App.js:107-114 | the listener wiring: mousedown/touchstart set the flag; mouseup/mouseout/touchend/touchcancel clear it; a move or a clear keeps it; the old log is kept as a prefix; the log grows except for a move while idle, which changes nothing; a stroke is added exactly for a move while drawing |
| Drawing.CountStrokesAppend | src/App.js:99 | the stroke count of a concatenated log is the sum of the counts |
| Drawing.ReplayInvariant | src/App.js:88-114 | with either normaliser, after any events the flag is true iff the last start came after the last stop; the log only grows; exactly one stroke is added per move that arrives between a start and the next stop |
| Drawing.NoStrokeWithoutStart | src/App.js:95-100 | from Idle, moves with no start render no stroke |
| Drawing.Canvas.constructor | src/App.js:68 | a fresh closure is Idle with an empty log |
| Drawing.Canvas.StartDrawing | src/App.js:88-93 | performs `StartStep` with `getOffset` as written |
| Drawing.Canvas.Draw | src/App.js:95-100 | performs `DrawStep` with `getOffset` as written |
| Drawing.Canvas.StopDrawing | src/App.js:102-105 | performs `StopStep` |
| Drawing.Canvas.ClearCanvas | src/App.js:128-132 | performs `ClearStep` |
| Debounce.Schedule | src/App.js:27-34 | a call always leaves exactly one pending timer, due 500 ms later with this call's arguments, whatever was pending; nothing is sent |
| Debounce.Elapse | src/App.js:31-33 | a pending timer that is due fires exactly once: its payload is appended to the sent log and the slot empties; otherwise nothing changes |
| Debounce.BurstKeepsLatest | src/App.js:27-34 | during a burst (calls less than 500 ms apart) nothing is sent and the slot holds only the latest call |
| Debounce.BurstCoalesces | src/App.js:27-34 | a burst followed by 500 ms of quiet sends exactly one update, with the last call's arguments |
| Debounce.RunAppend | src/App.js:27-34 | running two event runs one after the other is running their concatenation |
| Tasks.InPhase | src/App.js:47-50 | the filter keeps exactly the items whose `phase` equals the name |
| Tasks.InPhaseConcat | src/App.js:47-50 | the filter distributes over concatenation, so bucket order is data order |
| Tasks.BucketPhases | src/App.js:46-51 | four buckets named Design, Development, Alpha Usage, Beta Release (Web), in that order; an item is in a bucket iff its `phase` is the bucket's name |
| Tasks.Unbucketed | src/App.js:46-51 | the items whose `phase` matches none of the four names |
| Tasks.UnbucketedConcat | src/App.js:46-51 | dropping the bucketed items distributes over concatenation, so the unbucketed items keep data order |
| Tasks.BucketsPartition | src/App.js:46-51 | the four bucket sizes plus the unbucketed count add up to the number of items |
| Tasks.MapItems | src/App.js:219-221 | same length; each matching item becomes item merged with the patch; the others are untouched |
| Tasks.MergeUpdate | src/App.js:216-223 | every phase keeps its name, and its items are merged item by item |
| Tasks.SetItems | src/App.js:591-593 | same length; each matching item gets the one field set; the others are untouched |
| Tasks.SetCell | src/App.js:588-595 | every phase keeps its name, and its items get the one-field update |
| Tasks.RemoveItems | src/App.js:292 | the filtered list is never longer than the original |
| Tasks.RemoveMembers | src/App.js:292 | an item is kept iff it was there and its id differs from the deleted one |
| Tasks.RemoveConcat | src/App.js:292 | the removal distributes over concatenation, so the survivors keep their order and multiplicity |
| Tasks.DeletePhaseItem | src/App.js:289-294 | every phase keeps its name, and its items are filtered |
| Tasks.SetItemsIsMapItems | src/App.js:591-593 | a one-field update is the merge of a one-field patch |
| Tasks.SetCellIsMerge | src/App.js:588-595 | a cell edit of the local state is the optimistic merge of a one-field patch |
| Tasks.MergeIdempotent | src/App.js:216-223 | merging the same record twice is merging it once |
| Tasks.EchoAfterEdit | src/App.js:585-598 | when the item had not changed since it was rendered, the ok response to a cell edit leaves the local state as the edit made it |
| Tasks.RemoveIdempotent | src/App.js:292 | filtering out an id twice is filtering it once |
| Tasks.DeleteIdempotent | src/App.js:289-294 | deleting an id twice from every phase is deleting it once |
| Tasks.SetCellKeepsIds | src/App.js:588-595 | a cell edit of any field but `id` keeps every item's id |
| Tasks.MergeKeepsIds | src/App.js:216-223 | a merge whose record carries the matched id keeps the matched items matched |
| Tasks.MergeSetsFields | src/App.js:216-223 | after a merge every matched item holds the record's value for each of the record's fields |
| TaskGrid.PutBody | src/App.js:212 | the body is the item with `phase` set to the bucket's name; every other field is carried over |
| TaskGrid.CellChanged | src/App.js:585-724 | the local phases get the one-field edit at once; text columns (goal, need, comments, commentArea) go through the debounce with the rendered item plus the edit, and selects issue that update immediately |
| TaskGrid.ClockAdvanced | src/App.js:31-33 | time passing touches only the slot, as `Debounce.Elapse` |
| TaskGrid.UpdateCompleted | src/App.js:214-224 | an ok response merges the update's record into the local phases; anything else changes nothing |
| TaskGrid.TypingIsCoalesced | src/App.js:585-598 | typing "a", "ab", "abc" at t, t+100 and t+200 sends nothing by t+200 or by t+699, and by t+700 exactly one update, carrying "abc" |
| TaskGrid.SharedSlotDropsEarlierItem | src/App.js:26-34 | the slot is shared by all cells: text edits of two items less than 500 ms apart send only the second item's update |
| TaskGrid.TextThenSelectOrder | src/App.js:585-598 | a text edit then a select change within 500 ms issues the select's update first and the stale text update last |
| TaskGrid.StaleUpdateRevertsSelect | src/App.js:641-654 | merging the select's update and then the stale text update reverts the select on every item with that id |
| TaskGrid.Grid.constructor | src/App.js:4 | no phases, no pending timer, nothing sent |
| TaskGrid.Grid.PhasesFetched | src/App.js:43-52 | the phases become `BucketPhases(data)`; the slot is kept |
| TaskGrid.Grid.DebouncedUpdatePhaseItem | src/App.js:27-34 | performs `Debounce.Schedule` on the slot; the phases are kept |
| TaskGrid.Grid.EditCell | src/App.js:585-724 | performs `CellChanged` |
| TaskGrid.Grid.TimerElapsed | src/App.js:31-33 | performs `ClockAdvanced` |
| TaskGrid.Grid.UpdateResponse | src/App.js:214-224 | performs `UpdateCompleted` |
| TaskGrid.Grid.DeletePhaseItem | src/App.js:281-303 | the item leaves every phase only if the user confirmed and the response was ok; a confirmed delete that fails alerts "Failed to delete task", an unconfirmed one alerts nothing; the slot is kept |
| Forms.FindAt | src/App.js:189 | the index of the first `@`, absent exactly when there is none |
| Forms.ValidEmail | src/App.js:189 | `/^[^\s@]+@[^\s@]+\.[^\s@]+$/.test(email)` holds exactly for a plain run, `@`, a plain run, `.`, a plain run, where a plain run is non-empty with no white space and no `@` |
| Forms.EmailScanIsPattern | src/App.js:189 | the scan (no white space, a first `@` after at least one character, and a domain with no `@` and an inner `.`) accepts exactly the pattern's language |
| Forms.AcceptedEmails | src/App.js:189 | `a@b.c` and `a.b@c.d.e` are accepted |
| Forms.RejectedEmails | src/App.js:189 | `a@bc.`, `a@b@c.d` and `a @b.c` are rejected |
| Forms.CanInvite | src/App.js:189 | an invite is allowed iff the username is non-empty and the email is in the pattern's language |
| Forms.AddTeamMember | src/App.js:188-205 | a rejected form alerts and sends nothing; an accepted one posts exactly the username and the email; the fields clear only on an ok response; a failed response alerts "Failed to add user" and keeps them |
| Forms.NewTaskChanged | src/App.js:249-252 | the named field takes the value; every other field is kept |
| Forms.AddNewTask | src/App.js:254-279 | an empty goal alerts and sends nothing; otherwise the form is posted with an empty `assigned_to` replaced by "team" and every other field unchanged; the form resets to the default only on an ok response; a failed response alerts "Failed to add task" and keeps the form |
| Forms.DefaultFormNeedsGoal | src/App.js:14-23 | the default form cannot be submitted; filling in a goal makes it submit the default task with that goal |

## Left out

- The network: every `fetch` (phases, team, invite, add, update, delete) and the JSON
  parsing. A response is modelled only by whether it was ok, and a fetched phase list by
  its data. `fetchTeam` changes only the team list, which feeds the assignee options, so
  it is not modelled. A successful `addPhaseItem` and a successful `addNewTask` both end by calling
  `fetchPhases`. That reload replaces the local `phases` cell wholesale, dropping any
  optimistic edits, and it is `TaskGrid.Grid.PhasesFetched` applied to the server's data.
  What the server returns after the insert is not modelled.
- `alert` and `window.confirm`. An alert is modelled as the message that would be shown,
  and a confirmation as a boolean input. `deletePhaseItem` catches a rejected request
  and shows the same alert as for a failed response, so there `ok` false stands for both.
- Rendering, styles, JSX and the `useEffect` that adds and removes the canvas listeners.
  This includes the UI gating that hides the note input and the delete button in Draw
  mode and turns off the notes' pointer events there. The model keeps the transitions
  that those handlers perform.
- Canvas pixels, line width and colour. The canvas is the log of path commands it
  receives.
- JSON values other than strings and integers. `Tasks.Value` has no `null`, booleans
  or fractional numbers, so a field holding `null` can only be modelled as absent,
  although `null` and a missing field differ under `===` and in `JSON.stringify`. The
  model reads no field but `id` and `phase`, and treats the others as opaque values that
  are copied and merged, so none of the behaviour modelled here depends on that.
- Floating point. Coordinates and random draws are real numbers, and ids and times are
  unbounded integers. `Date.now()` and `Math.random()` are inputs.
- Real timers. The debounce uses an abstract clock supplied with each event. After a
  timer fires the slot is modelled as empty, whereas the code keeps the spent handle;
  clearing a spent handle does nothing, so the behaviour is the same.
- The component-level `let isDrawing` at `src/App.js:12` is unused, because the closure's
  own flag shadows it.
- Exceptions caught by `updatePhaseItem` and `deletePhaseItem`. They behave like a
  response that was not ok, apart from the console output.
- Forms.AddTeamMember, Forms.AddNewTask: a `fetch` that rejects is not caught in
  `addTeamMember` or `addNewTask`. No alert is shown and the form keeps its fields. With
  `ok` false, the model shows the "Failed to add" alert, so it does not capture the
  rejected-request path.

## Findings

| source | as written | input that shows it | evidently intended | confidence | as-written member | corrected member |
|---|---|---|---|---|---|---|
| src/App.js:70-86, 107-110 | `getOffset` reads `e.nativeEvent` and otherwise returns (0,0). The canvas listeners are registered with `addEventListener`, so their mouse events are native DOM events with no `nativeEvent` property. | a native `mousedown` with offsetX=100, offsetY=50 is normalised to (0,0), so every mouse stroke is drawn at the canvas corner | use the event's own `offsetX`/`offsetY` when there is no touch and no `nativeEvent` | not executed | Drawing.MouseEventsDrawAtOrigin | Drawing.GetOffset |
