/** The task grid as the component drives it: the `phases` state cell, the inline cell
    editors, the debounce slot of `debouncedUpdatePhaseItem` and the log of update
    requests (`PUT /api/phases/:id`) it has issued. The network is left out: a response
    is an input saying whether it was ok. */
module TaskGrid {
  import opened Base
  import opened Tasks
  import Debounce

  /** The editable columns. */
  datatype Field = Goal | Need | Comments | Execute | Stage | CommentArea | AssignedTo

  /** The item field each column edits. */
  function Key(f: Field): string {
    match f
    case Goal => "goal"
    case Need => "need"
    case Comments => "comments"
    case Execute => "execute"
    case Stage => "stage"
    case CommentArea => "commentArea"
    case AssignedTo => "assigned_to"
  }

  /** Free-text columns go through the debounce; the three selects update at once. */
  predicate Debounced(f: Field) {
    f.Goal? || f.Need? || f.Comments? || f.CommentArea?
  }

  /** One call of `updatePhaseItem(id, phase, updatedItem)`. */
  datatype Update = Update(id: Option<Value>, phase: string, item: Item)

  /** The request body `{ ...updatedItem, phase }`: the item with its `phase` field
      replaced by the bucket the edit was made in. */
  function PutBody(u: Update): (body: Item)
    ensures body.Keys == u.item.Keys + {"phase"}
    ensures body["phase"] == Str(u.phase)
    ensures forall k :: k in u.item && k != "phase" ==> body[k] == u.item[k]
  {
    u.item + map["phase" := Str(u.phase)]
  }

  /** The grid's state: the phases shown and the debounce slot, whose `sent` log holds
      every update request issued, debounced or immediate, oldest first. */
  datatype GridState = GridState(phases: seq<Phase>, slot: Debounce.Slot<Update>)

  const Initial: GridState := GridState([], Debounce.Slot(None, []))

  /** The update a cell editor issues: the rendered item with the edited field. */
  function CellUpdate(phaseName: string, rendered: Item, f: Field, value: string): Update {
    Update(IdOf(rendered), phaseName, rendered[Key(f) := Str(value)])
  }

  /** A cell editor's `onChange`: the local state is updated at once; the update is
      debounced for text columns and issued immediately for selects. */
  function CellChanged(s: GridState, now: int, phaseName: string, rendered: Item, f: Field, value: string)
    : (r: GridState)
    ensures r.phases == SetCell(s.phases, IdOf(rendered), Key(f), Str(value))
    ensures Debounced(f) ==>
      r.slot == Debounce.Schedule(s.slot, now, CellUpdate(phaseName, rendered, f, value))
    ensures !Debounced(f) ==>
      r.slot.current == s.slot.current && r.slot.sent == s.slot.sent + [CellUpdate(phaseName, rendered, f, value)]
  {
    var local := SetCell(s.phases, IdOf(rendered), Key(f), Str(value));
    var u := CellUpdate(phaseName, rendered, f, value);
    if Debounced(f) then GridState(local, Debounce.Schedule(s.slot, now, u))
    else GridState(local, s.slot.(sent := s.slot.sent + [u]))
  }

  /** The clock reaches `now`; a due debounce timer issues its update. */
  function ClockAdvanced(s: GridState, now: int): (r: GridState)
    ensures r.phases == s.phases && r.slot == Debounce.Elapse(s.slot, now)
  {
    s.(slot := Debounce.Elapse(s.slot, now))
  }

  /** An update request has completed; only an ok response touches the local state. */
  function UpdateCompleted(s: GridState, u: Update, ok: bool): (r: GridState)
    ensures r.slot == s.slot
    ensures ok ==> r.phases == MergeUpdate(s.phases, u.id, u.item)
    ensures !ok ==> r.phases == s.phases
  {
    if ok then s.(phases := MergeUpdate(s.phases, u.id, u.item)) else s
  }

  /** Typing "a", "ab", "abc" into a goal cell within 200 ms sends
      exactly one update, 500 ms after the last keystroke, carrying "abc". */
  lemma TypingIsCoalesced(s: GridState, t: int, phaseName: string, item: Item)
    requires s.slot.current.None?
    ensures
      var item1 := item["goal" := Str("a")];
      var item2 := item1["goal" := Str("ab")];
      var s1 := CellChanged(ClockAdvanced(s, t), t, phaseName, item, Goal, "a");
      var s2 := CellChanged(ClockAdvanced(s1, t + 100), t + 100, phaseName, item1, Goal, "ab");
      var s3 := CellChanged(ClockAdvanced(s2, t + 200), t + 200, phaseName, item2, Goal, "abc");
      var s4 := ClockAdvanced(s3, t + 700);
      && s3.slot.sent == s.slot.sent
      && ClockAdvanced(s3, t + 699).slot.sent == s.slot.sent
      && s4.slot.current.None?
      && s4.slot.sent == s.slot.sent + [Update(IdOf(item), phaseName, item2["goal" := Str("abc")])]
      && s4.slot.sent[|s.slot.sent|].item["goal"] == Str("abc")
  {
  }

  /** The slot is shared by every cell: text edits to two different items less than
      500 ms apart issue only the second item's update; the first is never sent. */
  lemma SharedSlotDropsEarlierItem(s: GridState, t0: int, t1: int, phaseName: string,
                                   a: Item, b: Item, f: Field, g: Field, va: string, vb: string)
    requires Debounced(f) && Debounced(g)
    requires s.slot.current.None? && t0 <= t1 < t0 + Debounce.Delay
    ensures
      var s1 := CellChanged(ClockAdvanced(s, t0), t0, phaseName, a, f, va);
      var s2 := CellChanged(ClockAdvanced(s1, t1), t1, phaseName, b, g, vb);
      ClockAdvanced(s2, t1 + Debounce.Delay).slot.sent == s.slot.sent + [CellUpdate(phaseName, b, g, vb)]
  {
    var evs := [Debounce.Call(t0, CellUpdate(phaseName, a, f, va)), Debounce.Call(t1, CellUpdate(phaseName, b, g, vb))];
    Debounce.BurstCoalesces(s.slot, evs, t1 + Debounce.Delay);
    assert evs + [Debounce.Wait(t1 + Debounce.Delay)] == [evs[0], evs[1], Debounce.Wait(t1 + Debounce.Delay)];
  }

  /** A text edit followed, within 500 ms, by a select change on the re-rendered item:
      the select's update goes out at once, the text's update only when its timer fires,
      so the stale text update is issued last. */
  lemma TextThenSelectOrder(s: GridState, t0: int, t1: int, phaseName: string,
                            item: Item, text: string, sel: string)
    requires s.slot.current.None? && t0 <= t1 < t0 + Debounce.Delay
    ensures
      var s1 := CellChanged(ClockAdvanced(s, t0), t0, phaseName, item, Goal, text);
      var rendered := item["goal" := Str(text)];
      var s2 := CellChanged(ClockAdvanced(s1, t1), t1, phaseName, rendered, Execute, sel);
      var s3 := ClockAdvanced(s2, t0 + Debounce.Delay);
      && s3.slot.current.None?
      && s3.slot.sent == s.slot.sent + [CellUpdate(phaseName, rendered, Execute, sel), CellUpdate(phaseName, item, Goal, text)]
      && s3.phases == SetCell(SetCell(s.phases, IdOf(item), "goal", Str(text)), IdOf(item), "execute", Str(sel))
  {
    var rendered := item["goal" := Str(text)];
    assert IdOf(rendered) == IdOf(item);
  }

  /** Each update carries the whole rendered item, so a pending text update overwrites a
      select changed after it: once the select's update and then the stale text update are
      merged, the select is back to the value it had when the text edit was rendered, on
      every item with that id. */
  lemma StaleUpdateRevertsSelect(phases: seq<Phase>, phaseName: string, item: Item, text: string, sel: string)
    requires "execute" in item
    ensures
      var id := IdOf(item);
      var rendered := item["goal" := Str(text)];
      var uSel := CellUpdate(phaseName, rendered, Execute, sel);
      var uGoal := CellUpdate(phaseName, item, Goal, text);
      var edited := SetCell(SetCell(phases, id, "goal", Str(text)), id, "execute", Str(sel));
      var merged := MergeUpdate(MergeUpdate(edited, uSel.id, uSel.item), uGoal.id, uGoal.item);
      forall k, i | 0 <= k < |phases| && 0 <= i < |phases[k].items| && IdOf(phases[k].items[i]) == id ::
        merged[k].items[i]["execute"] == item["execute"]
  {
    var id := IdOf(item);
    var rendered := item["goal" := Str(text)];
    var uSel := CellUpdate(phaseName, rendered, Execute, sel);
    var uGoal := CellUpdate(phaseName, item, Goal, text);
    assert uSel.id == id && uGoal.id == id;
    assert Get(uSel.item, "id") == id;
    assert "execute" in uGoal.item && uGoal.item["execute"] == item["execute"];
    var once := SetCell(phases, id, "goal", Str(text));
    var edited := SetCell(once, id, "execute", Str(sel));
    SetCellKeepsIds(phases, id, "goal", Str(text));
    SetCellKeepsIds(once, id, "execute", Str(sel));
    MergeKeepsIds(edited, id, uSel.item);
    MergeSetsFields(MergeUpdate(edited, id, uSel.item), id, uGoal.item, "execute");
  }

  /** The grid's state cells and the debounce slot, as the component holds them. */
  class Grid {
    var phases: seq<Phase>
    var current: Option<Debounce.Timer<Update>>
    var sent: seq<Update>

    function State(): GridState
      reads this
    {
      GridState(phases, Debounce.Slot(current, sent))
    }

    constructor ()
      ensures State() == Initial
    {
      phases, current, sent := [], None, [];
    }

    /** `fetchPhases`, once `/api/phases` has returned `data`. */
    method PhasesFetched(data: seq<Item>)
      modifies this
      ensures phases == BucketPhases(data)
      ensures current == old(current) && sent == old(sent)
    {
      phases := [
        Phase("Design", InPhase(data, "Design")),
        Phase("Development", InPhase(data, "Development")),
        Phase("Alpha Usage", InPhase(data, "Alpha Usage")),
        Phase("Beta Release (Web)", InPhase(data, "Beta Release (Web)"))
      ];
    }

    /** `debouncedUpdatePhaseItem(id, phase, updatedItem)` at time `now`. */
    method DebouncedUpdatePhaseItem(now: int, u: Update)
      modifies this
      ensures Debounce.Slot(current, sent) == Debounce.Schedule(old(Debounce.Slot(current, sent)), now, u)
      ensures phases == old(phases)
    {
      if current.Some? {
        current := None;
      }
      current := Some(Debounce.Timer(now + Debounce.Delay, u));
    }

    /** A cell editor's `onChange` handler. */
    method EditCell(now: int, phaseName: string, rendered: Item, f: Field, value: string)
      modifies this
      ensures State() == CellChanged(old(State()), now, phaseName, rendered, f, value)
    {
      phases := SetCell(phases, IdOf(rendered), Key(f), Str(value));
      var u := CellUpdate(phaseName, rendered, f, value);
      if Debounced(f) {
        DebouncedUpdatePhaseItem(now, u);
      } else {
        sent := sent + [u];
      }
    }

    /** The clock reaches `now`. */
    method TimerElapsed(now: int)
      modifies this
      ensures State() == ClockAdvanced(old(State()), now)
    {
      if current.Some? && current.value.due <= now {
        sent := sent + [current.value.payload];
        current := None;
      }
    }

    /** The end of `updatePhaseItem`: the optimistic merge on an ok response. */
    method UpdateResponse(u: Update, ok: bool)
      modifies this
      ensures State() == UpdateCompleted(old(State()), u, ok)
    {
      if ok {
        phases := MergeUpdate(phases, u.id, u.item);
      }
    }

    /** `deletePhaseItem`: the item leaves every phase only if the user confirmed and
        the delete request succeeded. A confirmed delete that fails, whether the
        response is not ok or the request is rejected (both are `ok` false here), shows
        "Failed to delete task"; an unconfirmed one shows nothing. */
    method DeletePhaseItem(id: Option<Value>, confirmed: bool, ok: bool) returns (alert: Option<string>)
      modifies this
      ensures confirmed && ok ==> phases == Tasks.DeletePhaseItem(old(phases), id)
      ensures !(confirmed && ok) ==> phases == old(phases)
      ensures alert == (if confirmed && !ok then Some("Failed to delete task") else None)
      ensures current == old(current) && sent == old(sent)
    {
      alert := None;
      if confirmed {
        if ok {
          phases := Tasks.DeletePhaseItem(phases, id);
        } else {
          alert := Some("Failed to delete task");
        }
      }
    }
  }
}
