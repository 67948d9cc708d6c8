/** The sticky-note list: an ordered sequence of note records and the three
    state updaters the component applies to it (append, filter by id, map by id). */
module Notes {
  import JsString

  /** One sticky note as the component stores it; notes carry no width or height. */
  datatype Note = Note(id: int, text: string, x: real, y: real, color: string)

  /** The five background colours a new note is drawn from. */
  const Palette: seq<string> := ["#ffeb3b", "#ff9800", "#4caf50", "#2196f3", "#e91e63"]

  /** A value `Math.random()` can return. */
  predicate IsRandom(r: real) {
    0.0 <= r < 1.0
  }

  /** `Math.floor(r * 5)`: the palette slot picked by one random draw. */
  function PaletteIndex(r: real): (k: nat)
    requires IsRandom(r)
    ensures k < |Palette|
    ensures k as real <= r * 5.0 < k as real + 1.0
  {
    (r * 5.0).Floor
  }

  /** The note `addStickyNote` builds; `now` stands for `Date.now()` and `rx`, `ry`,
      `rc` for the three `Math.random()` draws, in source order. */
  function NewNote(now: int, text: string, rx: real, ry: real, rc: real): (n: Note)
    requires IsRandom(rx) && IsRandom(ry) && IsRandom(rc)
    ensures n.id == now && n.text == text
    ensures 50.0 <= n.x < 650.0 && 50.0 <= n.y < 350.0
    ensures n.color in Palette
  {
    Note(now, text, rx * 600.0 + 50.0, ry * 300.0 + 50.0, Palette[PaletteIndex(rc)])
  }

  /** `addStickyNote`: the new note list and the new input text. A blank input
      (white space only) changes neither; otherwise the note built from the text,
      untrimmed, is appended and the input is cleared. */
  function AddStickyNote(notes: seq<Note>, text: string, now: int, rx: real, ry: real, rc: real)
    : (r: (seq<Note>, string))
    requires IsRandom(rx) && IsRandom(ry) && IsRandom(rc)
    ensures JsString.AllSpace(text) ==> r == (notes, text)
    ensures !JsString.AllSpace(text) ==>
      && |r.0| == |notes| + 1
      && r.0[..|notes|] == notes
      && r.0[|notes|].id == now && r.0[|notes|].text == text
      && 50.0 <= r.0[|notes|].x < 650.0 && 50.0 <= r.0[|notes|].y < 350.0
      && r.0[|notes|].color in Palette
      && r.1 == ""
  {
    if JsString.Trim(text) != "" then
      (notes + [NewNote(now, text, rx, ry, rc)], "")
    else
      (notes, text)
  }

  /** `deleteStickyNote`: keeps exactly the notes whose id differs from `id`. */
  function DeleteStickyNote(notes: seq<Note>, id: int): (r: seq<Note>)
    ensures |r| <= |notes|
    ensures forall n :: n in r <==> n in notes && n.id != id
    ensures (forall n :: n in notes ==> n.id != id) ==> r == notes
  {
    if notes == [] then []
    else if notes[0].id != id then [notes[0]] + DeleteStickyNote(notes[1..], id)
    else DeleteStickyNote(notes[1..], id)
  }

  /** `moveStickyNote`: every note with a matching id gets exactly the new position,
      without clamping; ids, texts, colours, the length and the order are kept. */
  function MoveStickyNote(notes: seq<Note>, id: int, x: real, y: real): (r: seq<Note>)
    ensures |r| == |notes|
    ensures forall i :: 0 <= i < |r| ==>
      r[i].id == notes[i].id && r[i].text == notes[i].text && r[i].color == notes[i].color
    ensures forall i :: 0 <= i < |r| && notes[i].id == id ==> r[i].x == x && r[i].y == y
    ensures forall i :: 0 <= i < |r| && notes[i].id != id ==> r[i] == notes[i]
  {
    if notes == [] then []
    else
      var head := if notes[0].id == id then notes[0].(x := x, y := y) else notes[0];
      [head] + MoveStickyNote(notes[1..], id, x, y)
  }

  /** Deleting keeps the relative order: it distributes over concatenation. */
  lemma {:induction false} DeleteConcat(a: seq<Note>, b: seq<Note>, id: int)
    ensures DeleteStickyNote(a + b, id) == DeleteStickyNote(a, id) + DeleteStickyNote(b, id)
  {
    if a != [] {
      var ab := a + b;
      assert ab[0] == a[0] && ab[1..] == a[1..] + b;
      DeleteConcat(a[1..], b, id);
      if a[0].id != id {
        calc {
          DeleteStickyNote(ab, id);
          [a[0]] + DeleteStickyNote(a[1..] + b, id);
          [a[0]] + (DeleteStickyNote(a[1..], id) + DeleteStickyNote(b, id));
          ([a[0]] + DeleteStickyNote(a[1..], id)) + DeleteStickyNote(b, id);
        }
      } else {
        calc {
          DeleteStickyNote(ab, id);
          DeleteStickyNote(a[1..] + b, id);
          DeleteStickyNote(a[1..], id) + DeleteStickyNote(b, id);
        }
      }
    } else {
      assert a + b == b;
    }
  }

  /** Deleting the same id twice is the same as deleting it once. */
  lemma DeleteIdempotent(notes: seq<Note>, id: int)
    ensures DeleteStickyNote(DeleteStickyNote(notes, id), id) == DeleteStickyNote(notes, id)
  {
  }

  /** Of two moves of the same id, the later one wins. */
  lemma {:induction false} MoveLastWins(notes: seq<Note>, id: int, x1: real, y1: real, x2: real, y2: real)
    ensures MoveStickyNote(MoveStickyNote(notes, id, x1, y1), id, x2, y2) == MoveStickyNote(notes, id, x2, y2)
  {
    if notes != [] {
      MoveLastWins(notes[1..], id, x1, y1, x2, y2);
    }
  }

  /** No two notes share an id. */
  ghost predicate UniqueIds(notes: seq<Note>) {
    forall i, j :: 0 <= i < j < |notes| ==> notes[i].id != notes[j].id
  }

  /** Adding with a fresh id, deleting and moving all keep ids unique. `Date.now()` is
      not fresh by construction: two additions within one millisecond collide. */
  lemma AddKeepsUniqueIds(notes: seq<Note>, text: string, now: int, rx: real, ry: real, rc: real)
    requires IsRandom(rx) && IsRandom(ry) && IsRandom(rc)
    requires UniqueIds(notes)
    requires forall n :: n in notes ==> n.id != now
    ensures UniqueIds(AddStickyNote(notes, text, now, rx, ry, rc).0)
  {
    var r := AddStickyNote(notes, text, now, rx, ry, rc).0;
    if !JsString.AllSpace(text) {
      forall i, j | 0 <= i < j < |r| ensures r[i].id != r[j].id {
        assert r[i] == notes[i];
        if j < |notes| {
          assert r[j] == notes[j];
        } else {
          assert notes[i] in notes;
        }
      }
    }
  }

  lemma {:induction false} DeleteKeepsUniqueIds(notes: seq<Note>, id: int)
    requires UniqueIds(notes)
    ensures UniqueIds(DeleteStickyNote(notes, id))
    decreases |notes|
  {
    if notes != [] {
      var tail := notes[1..];
      UniqueSplit(notes);
      DeleteKeepsUniqueIds(tail, id);
      var rest := DeleteStickyNote(tail, id);
      if notes[0].id != id {
        UniqueCons(notes[0], rest);
      }
    }
  }

  /** A list of unique ids is its head followed by a list of unique ids that does not
      contain the head's id. */
  lemma UniqueSplit(notes: seq<Note>)
    requires UniqueIds(notes) && notes != []
    ensures UniqueIds(notes[1..])
    ensures forall n :: n in notes[1..] ==> n.id != notes[0].id
  {
    var tail := notes[1..];
    forall i, j | 0 <= i < j < |tail| ensures tail[i].id != tail[j].id {
      assert tail[i] == notes[i + 1] && tail[j] == notes[j + 1];
    }
    forall n | n in tail ensures n.id != notes[0].id {
      var k :| 0 <= k < |tail| && tail[k] == n;
      assert notes[k + 1] == n;
    }
  }

  lemma UniqueCons(x: Note, rest: seq<Note>)
    requires UniqueIds(rest) && forall n :: n in rest ==> n.id != x.id
    ensures UniqueIds([x] + rest)
  {
    var r := [x] + rest;
    forall i, j | 0 <= i < j < |r| ensures r[i].id != r[j].id {
      assert r[j] == rest[j - 1];
      if i > 0 {
        assert r[i] == rest[i - 1];
      } else {
        assert r[j] in rest;
      }
    }
  }

  lemma MoveKeepsUniqueIds(notes: seq<Note>, id: int, x: real, y: real)
    requires UniqueIds(notes)
    ensures UniqueIds(MoveStickyNote(notes, id, x, y))
  {
  }

  /** Moving a note to the position it already has changes nothing,
      provided no other note shares its id. */
  lemma MoveToOwnPosition(notes: seq<Note>, n: Note)
    requires UniqueIds(notes) && n in notes
    ensures MoveStickyNote(notes, n.id, n.x, n.y) == notes
  {
    var r := MoveStickyNote(notes, n.id, n.x, n.y);
    var k :| 0 <= k < |notes| && notes[k] == n;
    forall i | 0 <= i < |notes| ensures r[i] == notes[i] {
      if notes[i].id == n.id {
        assert i == k;
      }
    }
  }

  /** Deletes `ids[0]`, then `ids[1]`, and so on. */
  function DeleteEach(notes: seq<Note>, ids: seq<int>): (r: seq<Note>)
    ensures forall n :: n in r <==> n in notes && n.id !in ids
    decreases |ids|
  {
    if ids == [] then notes else DeleteEach(DeleteStickyNote(notes, ids[0]), ids[1..])
  }

  function IdList(notes: seq<Note>): (ids: seq<int>)
    ensures |ids| == |notes| && forall i :: 0 <= i < |notes| ==> ids[i] == notes[i].id
  {
    if notes == [] then [] else [notes[0].id] + IdList(notes[1..])
  }

  /** "Clear All Notes" (`setStickyNotes([])`) ends in the same list as deleting
      every note one by one with its delete button. */
  lemma ClearAllIsDeletingEveryNote(notes: seq<Note>)
    ensures DeleteEach(notes, IdList(notes)) == []
  {
    var r, ids := DeleteEach(notes, IdList(notes)), IdList(notes);
    forall n | n in notes ensures n.id in ids {
      var k :| 0 <= k < |notes| && notes[k] == n;
      assert ids[k] == n.id;
    }
    forall n ensures multiset(r)[n] == 0 {
      assert n !in r;
    }
    assert multiset(r) == multiset{};
  }
}
