/** Purging removed zones: their rows go and their children move to the nearest surviving zone above. */
module ZonePurge {
  import opened Wrappers
  import opened DnsNames
  import opened ZoneForest

  const MAXIMUM_SUBZONE_DEPTH: nat := 128

  lemma {:induction false} StepUpFrom(rows: Rows, id: Id)
    requires Named(rows) && Linked(rows) && id in rows
    ensures rows[id].parent.Some? && rows[id].parent.value in rows ==>
      |rows[rows[id].parent.value].name| + 2 <= |rows[id].name|
  {
    if rows[id].parent.Some? && rows[id].parent.value in rows {
      StepUp(rows[id].name, rows[rows[id].parent.value].name);
    }
  }

  /** The first zone up the parent links that is not purged together with the child. */
  function Survivor(rows: Rows, batch: set<Id>, parent: Option<Id>): Option<Id>
    requires Named(rows) && Linked(rows) && batch <= rows.Keys
    decreases if parent.Some? && parent.value in rows then |rows[parent.value].name| + 1 else 0
  {
    if parent.Some? && parent.value in batch then
      StepUpFrom(rows, parent.value);
      Survivor(rows, batch, rows[parent.value].parent)
    else parent
  }

  /** Walks up with the depth guard that reports a loop. The guard never fires: zone names are too short
      for a path of that length. */
  method WalkUpZones(zonesById: Rows, batch: set<Id>, start: Id) returns (loop: bool, parent: Option<Id>)
    requires Named(zonesById) && Linked(zonesById) && start in batch && batch <= zonesById.Keys
    ensures !loop
    ensures parent == Survivor(zonesById, batch, zonesById[start].parent)
  {
    var current := start;
    var maxSteps := MAXIMUM_SUBZONE_DEPTH;
    while zonesById[current].parent.Some? && zonesById[current].parent.value in batch
      invariant current in zonesById && 2 <= |zonesById[current].name|
      invariant |zonesById[current].name| + 2 * (MAXIMUM_SUBZONE_DEPTH - maxSteps) <= 254
      invariant Survivor(zonesById, batch, zonesById[start].parent) ==
        Survivor(zonesById, batch, zonesById[current].parent)
      decreases |zonesById[current].name|
    {
      StepUpFrom(zonesById, current);
      current := zonesById[current].parent.value;
      maxSteps := maxSteps - 1;
      if maxSteps == 0 {
        return true, None;
      }
    }
    return false, zonesById[current].parent;
  }

  /** The survivor's name is above the purged zone's. */
  lemma {:induction false} SurvivorIsAbove(rows: Rows, batch: set<Id>, id: Id)
    requires Named(rows) && Linked(rows) && batch <= rows.Keys && id in rows
    ensures ParentMatches(rows, rows[id].name, Survivor(rows, batch, rows[id].parent))
    ensures var s := Survivor(rows, batch, rows[id].parent); s.Some? ==> s.value !in batch
    decreases |rows[id].name|
  {
    var parent := rows[id].parent;
    if parent.Some? && parent.value in batch {
      StepUpFrom(rows, id);
      SurvivorIsAbove(rows, batch, parent.value);
      var s := Survivor(rows, batch, parent);
      if s.Some? && s.value in rows {
        LikeBelowIsTransitive(rows[id].name, rows[parent.value].name, rows[s.value].name);
      }
    }
  }

  function IdSet(ids: seq<Id>): set<Id> { set id | id in ids }

  /** Moves the children of one zone and drops its row. */
  function PurgeOne(rows: Rows, id: Id, survivor: Option<Id>): Rows {
    map x | x in rows && x != id :: if rows[x].parent == Some(id) then rows[x].(parent := survivor) else rows[x]
  }

  /** Purges the zones of a batch one after the other; the batch was read once, at the start. */
  function PurgeAll(rows: Rows, start: Rows, batch: set<Id>, ids: seq<Id>): Rows
    requires Named(start) && Linked(start) && batch <= start.Keys && forall id :: id in ids ==> id in batch
  {
    if ids == [] then rows
    else
      var last := ids[|ids| - 1];
      PurgeOne(PurgeAll(rows, start, batch, ids[..|ids| - 1]), last, Survivor(start, batch, start[last].parent))
  }

  /** What the purge keeps after each zone: the remaining rows only lost or changed parents, and every
      parent link still leads to a matching name. */
  ghost predicate PurgedFrom(start: Rows, rows: Rows, gone: seq<Id>) {
    && Shrinks(start, rows)
    && (forall id :: id in rows ==> ParentMatches(start, rows[id].name, rows[id].parent))
    && (forall id :: id in gone ==> id !in rows)
  }

  lemma {:induction false} PurgeOneKeeps(start: Rows, rows: Rows, batch: set<Id>, gone: seq<Id>, id: Id)
    requires Forest(start) && batch <= start.Keys && id in batch && PurgedFrom(start, rows, gone)
    ensures PurgedFrom(start, PurgeOne(rows, id, Survivor(start, batch, start[id].parent)), gone + [id])
  {
    var survivor := Survivor(start, batch, start[id].parent);
    var rows' := PurgeOne(rows, id, survivor);
    SurvivorIsAbove(start, batch, id);
    forall x | x in rows' ensures ParentMatches(start, rows'[x].name, rows'[x].parent) {
      assert x in rows && rows'[x].name == rows[x].name;
      if rows[x].parent == Some(id) && survivor.Some? && survivor.value in start {
        assert ParentMatches(start, rows[x].name, Some(id));
        LikeBelowIsTransitive(rows[x].name, start[id].name, start[survivor.value].name);
      }
    }
  }

  lemma {:induction false} PurgeKeeps(start: Rows, batch: set<Id>, ids: seq<Id>)
    requires Forest(start) && batch <= start.Keys && forall id :: id in ids ==> id in batch
    ensures PurgedFrom(start, PurgeAll(start, start, batch, ids), ids)
  {
    if ids == [] {
    } else {
      var front, last := ids[..|ids| - 1], ids[|ids| - 1];
      PurgeKeeps(start, batch, front);
      PurgeOneKeeps(start, PurgeAll(start, start, batch, front), batch, front, last);
      assert front + [last] == ids;
    }
  }

  /** Purging keeps the forest. */
  lemma {:induction false} PurgeKeepsForest(rows: Rows, ids: seq<Id>)
    requires Forest(rows) && forall id :: id in ids ==> id in rows
    ensures var batch := IdSet(ids); batch <= rows.Keys && Forest(PurgeAll(rows, rows, batch, ids))
  {
    var batch := IdSet(ids);
    PurgeKeeps(rows, batch, ids);
    var rows' := PurgeAll(rows, rows, batch, ids);
    forall id | id in rows' && rows'[id].parent.Some? && rows'[id].parent.value in rows'
      ensures LikeBelow(rows'[id].name, rows'[rows'[id].parent.value].name)
    {
      assert ParentMatches(rows, rows'[id].name, rows'[id].parent);
    }
    ShrinkingKeepsForest(rows, rows');
  }

  /** No row is left pointing at a purged zone. */
  lemma {:induction false} PurgeLeavesNoOrphans(start: Rows, batch: set<Id>, ids: seq<Id>, x: Id)
    requires Forest(start) && batch <= start.Keys && forall id :: id in ids ==> id in batch
    requires x in PurgeAll(start, start, batch, ids)
    ensures var parent := PurgeAll(start, start, batch, ids)[x].parent; parent.Some? ==> parent.value !in ids
    ensures var parent := PurgeAll(start, start, batch, ids)[x].parent;
      x in start && (parent == start[x].parent || (parent.Some? ==> parent.value !in batch))
  {
    if ids == [] {
    } else {
      var front, last := ids[..|ids| - 1], ids[|ids| - 1];
      PurgeLeavesNoOrphans(start, batch, front, x);
      SurvivorIsAbove(start, batch, last);
      assert ids == front + [last];
    }
  }

  // ---------------------------------------------------------------- where the children go

  /** A path of parent links through zones of the batch. */
  ghost predicate WayUp(start: Rows, ids: seq<Id>, path: seq<Id>, from: Id) {
    && path != [] && path[0] == from
    && (forall i :: 0 <= i < |path| ==> path[i] in start && path[i] in ids)
    && forall i, j :: 0 <= i < j < |path| && j == i + 1 ==> start[path[i]].parent == Some(path[j])
  }

  /** The path goes up through the batch as far as it can: there, or to no zone at all. */
  ghost predicate LeadsTo(start: Rows, ids: seq<Id>, from: Id, to: Option<Id>) {
    && (to.Some? ==> to.value !in ids)
    && exists path :: WayUp(start, ids, path, from) && start[path[|path| - 1]].parent == to
  }

  /** What a purge of these zones makes of the rows. */
  ghost predicate Purged(start: Rows, ids: seq<Id>, rows: Rows) {
    && (forall x :: x in rows <==> x in start && x !in ids)
    && (forall x :: x in rows ==> rows[x] == start[x].(parent := rows[x].parent))
    && forall x :: x in rows ==>
         if start[x].parent.Some? && start[x].parent.value in ids
         then LeadsTo(start, ids, start[x].parent.value, rows[x].parent)
         else rows[x].parent == start[x].parent
  }

  lemma {:induction false} SurvivorIsUp(start: Rows, ids: seq<Id>, from: Id) returns (path: seq<Id>)
    requires Named(start) && Linked(start) && IdSet(ids) <= start.Keys && from in ids && from in start
    ensures var to := Survivor(start, IdSet(ids), start[from].parent);
      WayUp(start, ids, path, from) && start[path[|path| - 1]].parent == to && (to.Some? ==> to.value !in ids)
    decreases |start[from].name|
  {
    var parent := start[from].parent;
    if parent.Some? && parent.value in IdSet(ids) {
      StepUpFrom(start, from);
      var rest := SurvivorIsUp(start, ids, parent.value);
      path := [from] + rest;
    } else {
      path := [from];
    }
  }

  /** Halfway: the children of the zones purged so far have moved, the others have not. */
  lemma {:induction false} PurgedRow(start: Rows, batch: set<Id>, ids: seq<Id>, x: Id)
    requires Named(start) && Linked(start) && batch <= start.Keys && forall id :: id in ids ==> id in batch
    ensures var rows := PurgeAll(start, start, batch, ids);
      && (x in rows <==> x in start && x !in ids)
      && (x in rows ==>
          rows[x] == if start[x].parent.Some? && start[x].parent.value in ids
                     then start[x].(parent := Survivor(start, batch, start[x].parent)) else start[x])
  {
    if ids == [] {
    } else {
      var front, last := ids[..|ids| - 1], ids[|ids| - 1];
      PurgedRow(start, batch, front, x);
      assert ids == front + [last];
      if x in start && start[x].parent.Some? && start[x].parent.value in front {
        SurvivorIsAbove(start, batch, x);
      }
    }
  }

  /** Whatever the order of the batch: the rows of the batch go, a zone whose parent goes moves to the first zone
      outside the batch up the parent links, and all else stays. */
  lemma {:induction false} ChildrenMoveUp(start: Rows, ids: seq<Id>)
    requires Named(start) && Linked(start) && forall id :: id in ids ==> id in start
    ensures IdSet(ids) <= start.Keys && Purged(start, ids, PurgeAll(start, start, IdSet(ids), ids))
  {
    var batch := IdSet(ids);
    var rows := PurgeAll(start, start, batch, ids);
    forall x
      ensures x in rows <==> x in start && x !in ids
      ensures x in rows ==>
                rows[x] == if start[x].parent.Some? && start[x].parent.value in ids
                           then start[x].(parent := Survivor(start, batch, start[x].parent)) else start[x]
    {
      PurgedRow(start, batch, ids, x);
    }
    forall x | x in rows && start[x].parent.Some? && start[x].parent.value in ids
      ensures LeadsTo(start, ids, start[x].parent.value, rows[x].parent)
    {
      var path := SurvivorIsUp(start, ids, start[x].parent.value);
    }
  }

  /** The order of the batch and repetitions in it are of no consequence. */
  lemma {:induction false} PurgeOrderDoesNotMatter(start: Rows, ids: seq<Id>, ids': seq<Id>)
    requires Named(start) && Linked(start) && (forall id :: id in ids ==> id in start) && IdSet(ids) == IdSet(ids')
    ensures forall id :: id in ids' <==> id in ids
    ensures PurgeAll(start, start, IdSet(ids), ids) == PurgeAll(start, start, IdSet(ids), ids')
  {
    forall id ensures id in ids' <==> id in ids {
      assert id in ids' <==> id in IdSet(ids');
    }
    var a, b := PurgeAll(start, start, IdSet(ids), ids), PurgeAll(start, start, IdSet(ids), ids');
    forall x
      ensures x in a <==> x in b
      ensures x in a ==> a[x] == b[x]
    {
      PurgedRow(start, IdSet(ids), ids, x);
      PurgedRow(start, IdSet(ids), ids', x);
    }
  }

  // ---------------------------------------------------------------- the storage

  method PurgeZones(central: Central, batch: seq<Id>) returns (loop: bool)
    requires Forest(central.zones) && forall id :: id in batch ==> id in central.zones
    modifies central
    ensures !loop
    ensures central.zones == PurgeAll(old(central.zones), old(central.zones), IdSet(batch), batch)
    ensures Purged(old(central.zones), batch, central.zones)
  {
    var zonesById := central.zones;
    var ids := IdSet(batch);
    for k := 0 to |batch|
      invariant central.zones == PurgeAll(zonesById, zonesById, ids, batch[..k])
    {
      var survivor;
      loop, survivor := WalkUpZones(zonesById, ids, batch[k]);
      if loop {
        return;
      }
      assert batch[..k + 1][..k] == batch[..k];
      var rows := central.zones;
      central.zones := map x | x in rows && x != batch[k] ::
        if rows[x].parent == Some(batch[k]) then rows[x].(parent := survivor) else rows[x];
    }
    assert batch[..|batch|] == batch;
    ChildrenMoveUp(zonesById, batch);
    return false;
  }
}
