/** The task grid's local state: the four phase buckets and the map/filter updates the
    component applies to them. Task items are the backend's JSON objects, kept as maps
    from field name to value so that object spread (`{...a, ...b}`) is map union and a
    missing field is `undefined`. */
module Tasks {
  import opened Base

  datatype Value = Str(s: string) | Num(n: int)

  /** A task item as received from `/api/phases`. */
  type Item = map<string, Value>

  /** `item[key]`, with `None` standing for `undefined`. */
  function Get(item: Item, key: string): Option<Value> {
    if key in item then Some(item[key]) else None
  }

  /** `item.id`; two absent ids are equal under `===`, as `undefined === undefined`. */
  function IdOf(item: Item): Option<Value> {
    Get(item, "id")
  }

  datatype Phase = Phase(name: string, items: seq<Item>)

  /** The bucket names, in display order. */
  const PhaseNames: seq<string> := ["Design", "Development", "Alpha Usage", "Beta Release (Web)"]

  predicate HasPhase(item: Item, name: string) {
    Get(item, "phase") == Some(Str(name))
  }

  /** `data.filter((item) => item.phase === name)`. */
  function InPhase(data: seq<Item>, name: string): (r: seq<Item>)
    ensures |r| <= |data|
    ensures forall item :: item in r <==> item in data && HasPhase(item, name)
  {
    if data == [] then []
    else (if HasPhase(data[0], name) then [data[0]] else []) + InPhase(data[1..], name)
  }

  /** The filter keeps the items' relative order: it distributes over concatenation. */
  lemma {:induction false} InPhaseConcat(a: seq<Item>, b: seq<Item>, name: string)
    ensures InPhase(a + b, name) == InPhase(a, name) + InPhase(b, name)
  {
    if a == [] {
      assert a + b == b;
    } else {
      assert (a + b)[0] == a[0] && (a + b)[1..] == a[1..] + b;
      InPhaseConcat(a[1..], b, name);
    }
  }

  /** The phase list `fetchPhases` builds: one bucket per fixed name, in order. An item
      is in a bucket exactly when its `phase` is that bucket's name. */
  function BucketPhases(data: seq<Item>): (r: seq<Phase>)
    ensures |r| == |PhaseNames|
    ensures forall k :: 0 <= k < |r| ==> r[k].name == PhaseNames[k]
    ensures forall k, item :: 0 <= k < |r| ==>
      (item in r[k].items <==> item in data && HasPhase(item, PhaseNames[k]))
  {
    seq(|PhaseNames|, k requires 0 <= k < |PhaseNames| => Phase(PhaseNames[k], InPhase(data, PhaseNames[k])))
  }

  /** Items whose `phase` is none of the four names; the grid does not show them. */
  function Unbucketed(data: seq<Item>): (r: seq<Item>)
    ensures forall item :: item in r <==> item in data && forall k :: 0 <= k < |PhaseNames| ==> !HasPhase(item, PhaseNames[k])
  {
    if data == [] then []
    else
      var keep := forall k :: 0 <= k < |PhaseNames| ==> !HasPhase(data[0], PhaseNames[k]);
      (if keep then [data[0]] else []) + Unbucketed(data[1..])
  }

  /** The unbucketed items keep data order: dropping them distributes over
      concatenation. */
  lemma {:induction false} UnbucketedConcat(a: seq<Item>, b: seq<Item>)
    ensures Unbucketed(a + b) == Unbucketed(a) + Unbucketed(b)
  {
    if a == [] {
      assert a + b == b;
    } else {
      assert (a + b)[0] == a[0] && (a + b)[1..] == a[1..] + b;
      UnbucketedConcat(a[1..], b);
    }
  }

  /** Bucketing is a partition: every item lands in exactly one bucket or among the
      unbucketed ones, so the sizes add up. */
  lemma BucketsPartition(data: seq<Item>)
    ensures var r := BucketPhases(data);
      |r[0].items| + |r[1].items| + |r[2].items| + |r[3].items| + |Unbucketed(data)| == |data|
  {
    var r := BucketPhases(data);
    assert r[0].items == InPhase(data, "Design");
    assert r[1].items == InPhase(data, "Development");
    assert r[2].items == InPhase(data, "Alpha Usage");
    assert r[3].items == InPhase(data, "Beta Release (Web)");
    FilterSizes(data);
  }

  lemma {:induction false} FilterSizes(data: seq<Item>)
    ensures |InPhase(data, "Design")| + |InPhase(data, "Development")| + |InPhase(data, "Alpha Usage")|
          + |InPhase(data, "Beta Release (Web)")| + |Unbucketed(data)| == |data|
  {
    if data != [] {
      FilterSizes(data[1..]);
      var x := data[0];
      var hits := (if HasPhase(x, "Design") then 1 else 0) + (if HasPhase(x, "Development") then 1 else 0)
                + (if HasPhase(x, "Alpha Usage") then 1 else 0) + (if HasPhase(x, "Beta Release (Web)") then 1 else 0);
      var keep := forall k :: 0 <= k < |PhaseNames| ==> !HasPhase(x, PhaseNames[k]);
      assert keep <==> hits == 0 by {
        assert PhaseNames[0] == "Design" && PhaseNames[1] == "Development";
        assert PhaseNames[2] == "Alpha Usage" && PhaseNames[3] == "Beta Release (Web)";
      }
      assert hits <= 1;
    }
  }

  /** Items are mapped over every phase, keeping names and the number and order of items. */
  function MapItems(items: seq<Item>, id: Option<Value>, patch: Item): (r: seq<Item>)
    ensures |r| == |items|
    ensures forall i :: 0 <= i < |r| && IdOf(items[i]) == id ==> r[i] == items[i] + patch
    ensures forall i :: 0 <= i < |r| && IdOf(items[i]) != id ==> r[i] == items[i]
  {
    if items == [] then []
    else [if IdOf(items[0]) == id then items[0] + patch else items[0]] + MapItems(items[1..], id, patch)
  }

  /** The optimistic merge of `updatePhaseItem` (`{ ...item, ...updatedItem }` on every
      item whose id matches, in every phase). */
  function MergeUpdate(phases: seq<Phase>, id: Option<Value>, updated: Item): (r: seq<Phase>)
    ensures |r| == |phases|
    ensures forall k :: 0 <= k < |r| ==>
      r[k].name == phases[k].name && r[k].items == MapItems(phases[k].items, id, updated)
  {
    if phases == [] then []
    else [phases[0].(items := MapItems(phases[0].items, id, updated))] + MergeUpdate(phases[1..], id, updated)
  }

  /** `items.map(i => i.id === id ? { ...i, [key]: value } : i)`. */
  function SetItems(items: seq<Item>, id: Option<Value>, key: string, value: Value): (r: seq<Item>)
    ensures |r| == |items|
    ensures forall i :: 0 <= i < |r| && IdOf(items[i]) == id ==> r[i] == items[i][key := value]
    ensures forall i :: 0 <= i < |r| && IdOf(items[i]) != id ==> r[i] == items[i]
  {
    if items == [] then []
    else [if IdOf(items[0]) == id then items[0][key := value] else items[0]] + SetItems(items[1..], id, key, value)
  }

  /** An inline cell edit, applied to every phase. */
  function SetCell(phases: seq<Phase>, id: Option<Value>, key: string, value: Value): (r: seq<Phase>)
    ensures |r| == |phases|
    ensures forall k :: 0 <= k < |r| ==>
      r[k].name == phases[k].name && r[k].items == SetItems(phases[k].items, id, key, value)
  {
    if phases == [] then []
    else [phases[0].(items := SetItems(phases[0].items, id, key, value))] + SetCell(phases[1..], id, key, value)
  }

  /** The removal of `deletePhaseItem` (`items.filter(item => item.id !== id)`). */
  function RemoveItems(items: seq<Item>, id: Option<Value>): (r: seq<Item>)
    ensures |r| <= |items|
  {
    if items == [] then []
    else (if IdOf(items[0]) != id then [items[0]] else []) + RemoveItems(items[1..], id)
  }

  /** An item survives the removal exactly when it was there and its id differs. */
  lemma {:induction false} RemoveMembers(items: seq<Item>, id: Option<Value>)
    ensures forall item :: item in RemoveItems(items, id) <==> item in items && IdOf(item) != id
    decreases |items|
  {
    if items != [] {
      RemoveMembers(items[1..], id);
      assert items == [items[0]] + items[1..];
    }
  }

  /** The removal keeps the survivors' order and multiplicity: it distributes over
      concatenation. */
  lemma {:induction false} RemoveConcat(a: seq<Item>, b: seq<Item>, id: Option<Value>)
    ensures RemoveItems(a + b, id) == RemoveItems(a, id) + RemoveItems(b, id)
    decreases |a|
  {
    if a == [] {
      assert a + b == b;
    } else {
      var x, rest := a[0], a[1..];
      assert a == [x] + rest;
      assert a + b == [x] + (rest + b);
      var h := if IdOf(x) != id then [x] else [];
      calc {
        RemoveItems(a + b, id);
        { RemoveCons(x, rest + b, id); }
        h + RemoveItems(rest + b, id);
        { RemoveConcat(rest, b, id); }
        h + (RemoveItems(rest, id) + RemoveItems(b, id));
        (h + RemoveItems(rest, id)) + RemoveItems(b, id);
        { RemoveCons(x, rest, id); }
        RemoveItems(a, id) + RemoveItems(b, id);
      }
    }
  }

  lemma RemoveCons(x: Item, rest: seq<Item>, id: Option<Value>)
    ensures RemoveItems([x] + rest, id) == (if IdOf(x) != id then [x] else []) + RemoveItems(rest, id)
  {
    assert ([x] + rest)[0] == x && ([x] + rest)[1..] == rest;
  }

  function DeletePhaseItem(phases: seq<Phase>, id: Option<Value>): (r: seq<Phase>)
    ensures |r| == |phases|
    ensures forall k :: 0 <= k < |r| ==>
      r[k].name == phases[k].name && r[k].items == RemoveItems(phases[k].items, id)
  {
    if phases == [] then []
    else [phases[0].(items := RemoveItems(phases[0].items, id))] + DeletePhaseItem(phases[1..], id)
  }

  lemma UpdateIsUnion(item: Item, key: string, value: Value)
    ensures item[key := value] == item + map[key := value]
  {
  }

  lemma SetItemsIsMapItems(items: seq<Item>, id: Option<Value>, key: string, value: Value)
    ensures SetItems(items, id, key, value) == MapItems(items, id, map[key := value])
  {
    var x, y := SetItems(items, id, key, value), MapItems(items, id, map[key := value]);
    forall i | 0 <= i < |items| ensures x[i] == y[i] {
      UpdateIsUnion(items[i], key, value);
    }
  }

  /** A cell edit is the optimistic merge of a one-field patch. */
  lemma SetCellIsMerge(phases: seq<Phase>, id: Option<Value>, key: string, value: Value)
    ensures SetCell(phases, id, key, value) == MergeUpdate(phases, id, map[key := value])
  {
    var a, b := SetCell(phases, id, key, value), MergeUpdate(phases, id, map[key := value]);
    forall k | 0 <= k < |phases| ensures a[k] == b[k] {
      SetItemsIsMapItems(phases[k].items, id, key, value);
    }
  }

  /** Applying the same merge twice is applying it once, so a repeated update
      response changes nothing. */
  lemma MergeIdempotent(phases: seq<Phase>, id: Option<Value>, updated: Item)
    ensures MergeUpdate(MergeUpdate(phases, id, updated), id, updated) == MergeUpdate(phases, id, updated)
  {
    var once := MergeUpdate(phases, id, updated);
    var twice := MergeUpdate(once, id, updated);
    forall k | 0 <= k < |phases| ensures twice[k] == once[k] {
      MapItemsIdempotent(phases[k].items, id, updated);
    }
  }

  lemma MapItemsIdempotent(items: seq<Item>, id: Option<Value>, patch: Item)
    ensures MapItems(MapItems(items, id, patch), id, patch) == MapItems(items, id, patch)
  {
    var once := MapItems(items, id, patch);
    var twice := MapItems(once, id, patch);
    forall i | 0 <= i < |items| ensures twice[i] == once[i] {
      var item := items[i];
      if IdOf(item) == id {
        assert once[i] == item + patch;
        assert (item + patch) + patch == item + patch;
      } else {
        assert once[i] == item;
      }
    }
  }

  /** The server's echo of a cell edit is harmless: when the item had not changed since
      it was rendered, merging the edited record after the local edit leaves the local
      state as the edit made it. */
  lemma EchoAfterEdit(phases: seq<Phase>, rendered: Item, key: string, value: Value)
    requires key != "id"
    requires forall k, i |
      0 <= k < |phases| && 0 <= i < |phases[k].items| && IdOf(phases[k].items[i]) == IdOf(rendered) ::
        phases[k].items[i] == rendered
    ensures var edited := SetCell(phases, IdOf(rendered), key, value);
      MergeUpdate(edited, IdOf(rendered), rendered[key := value]) == edited
  {
    var id := IdOf(rendered);
    var edited := SetCell(phases, id, key, value);
    var merged := MergeUpdate(edited, id, rendered[key := value]);
    forall k | 0 <= k < |phases| ensures merged[k] == edited[k] {
      forall i | 0 <= i < |edited[k].items| ensures merged[k].items[i] == edited[k].items[i] {
        var item := phases[k].items[i];
        if IdOf(item) == id {
          var e := rendered[key := value];
          assert edited[k].items[i] == e;
          assert Get(e, "id") == Get(rendered, "id");
          assert e + e == e;
        }
      }
    }
  }

  /** Deleting an id removes it from every phase; doing it again changes nothing. */
  lemma {:induction false} RemoveIdempotent(items: seq<Item>, id: Option<Value>)
    ensures RemoveItems(RemoveItems(items, id), id) == RemoveItems(items, id)
  {
    if items != [] {
      RemoveIdempotent(items[1..], id);
      var rest := RemoveItems(items[1..], id);
      if IdOf(items[0]) != id {
        assert RemoveItems(items, id) == [items[0]] + rest;
        assert ([items[0]] + rest)[0] == items[0] && ([items[0]] + rest)[1..] == rest;
      } else {
        assert RemoveItems(items, id) == [] + rest == rest;
      }
    }
  }

  lemma DeleteIdempotent(phases: seq<Phase>, id: Option<Value>)
    ensures DeletePhaseItem(DeletePhaseItem(phases, id), id) == DeletePhaseItem(phases, id)
  {
    var once := DeletePhaseItem(phases, id);
    forall k | 0 <= k < |phases| ensures DeletePhaseItem(once, id)[k] == once[k] {
      RemoveIdempotent(phases[k].items, id);
    }
  }

  /** A cell edit of any field but `id` keeps every item's id. */
  lemma SetCellKeepsIds(phases: seq<Phase>, id: Option<Value>, key: string, value: Value)
    requires key != "id"
    ensures var r := SetCell(phases, id, key, value);
      forall k, i | 0 <= k < |phases| && 0 <= i < |phases[k].items| :: IdOf(r[k].items[i]) == IdOf(phases[k].items[i])
  {
  }

  /** A merge whose record carries the matched id keeps the matched items matched. */
  lemma MergeKeepsIds(phases: seq<Phase>, id: Option<Value>, updated: Item)
    requires Get(updated, "id") == id
    ensures var r := MergeUpdate(phases, id, updated);
      forall k, i | 0 <= k < |phases| && 0 <= i < |phases[k].items| && IdOf(phases[k].items[i]) == id ::
        IdOf(r[k].items[i]) == id
  {
  }

  /** After a merge, every matched item holds the merged record's value of each of its fields. */
  lemma MergeSetsFields(phases: seq<Phase>, id: Option<Value>, updated: Item, key: string)
    requires key in updated
    ensures var r := MergeUpdate(phases, id, updated);
      forall k, i | 0 <= k < |phases| && 0 <= i < |phases[k].items| && IdOf(phases[k].items[i]) == id ::
        key in r[k].items[i] && r[k].items[i][key] == updated[key]
  {
  }
}
