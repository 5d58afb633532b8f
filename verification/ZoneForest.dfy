/** Zones and the zones above and below them: who may create which name, and where parent links lead. */
module ZoneForest {
  import opened Wrappers
  import opened DnsNames
  import opened StorageCriteria

  type Id = nat

  /** Catalog zones have no tenant. */
  const NO_TENANT: nat := 0

  /** A zone row. A removed zone stays as a row marked deleted until it is purged. */
  datatype Zone = Zone(name: string, tenant: nat, pool: nat, parent: Option<Id>, deleting: bool, deleted: bool)

  type Rows = map<Id, Zone>

  predicate Live(rows: Rows, id: Id) { id in rows && !rows[id].deleted }

  // ---------------------------------------------------------------- what the database holds

  /** The unique constraint on name and pool, among rows that are not deleted. */
  ghost predicate Unique(rows: Rows) {
    forall a, b :: Live(rows, a) && Live(rows, b) && rows[a].name == rows[b].name && rows[a].pool == rows[b].pool ==>
      a == b
  }

  ghost predicate Named(rows: Rows) {
    forall id :: id in rows ==> ZoneName(rows[id].name)
  }

  predicate Related(a: string, b: string) {
    a == b || Below(a, b) || Below(b, a)
  }

  /** Live zones with equal or ancestor-related names, in whatever pools, have one tenant; those without a tenant
      are related among themselves only. */
  ghost predicate Owned(rows: Rows) {
    forall a, b :: Live(rows, a) && Live(rows, b) && Related(rows[a].name, rows[b].name) ==>
      rows[a].tenant == rows[b].tenant
  }

  /** A parent link that leads to a row leads to a shorter name that the child matches. */
  ghost predicate Linked(rows: Rows) {
    forall id :: id in rows && rows[id].parent.Some? && rows[id].parent.value in rows ==>
      LikeBelow(rows[id].name, rows[rows[id].parent.value].name)
  }

  ghost predicate Forest(rows: Rows) {
    Named(rows) && Unique(rows) && Linked(rows)
  }

  // ---------------------------------------------------------------- what the checks look for

  ghost predicate Above(rows: Rows, name: string, id: Id) {
    Live(rows, id) && Below(name, rows[id].name)
  }

  ghost predicate NearestAbove(rows: Rows, name: string, id: Id) {
    Above(rows, name, id) && forall other :: Above(rows, name, other) ==> |rows[other].name| <= |rows[id].name|
  }

  /** The zone with the longest name above, in one pool. */
  ghost predicate Nearest(rows: Rows, name: string, pool: nat, found: Option<Id>) {
    match found
    case None => forall id :: Above(rows, name, id) ==> rows[id].pool != pool
    case Some(z) =>
      Above(rows, name, z) && rows[z].pool == pool &&
      forall id :: Above(rows, name, id) && rows[id].pool == pool ==> |rows[id].name| <= |rows[z].name|
  }

  function Subzones(rows: Rows, name: string, pool: nat): set<Id> {
    set id | id in rows && !rows[id].deleted && rows[id].pool == pool && LikeBelow(rows[id].name, name)
  }

  ghost predicate NoForeignDuplicate(rows: Rows, name: string, tenant: nat) {
    forall id :: Live(rows, id) && rows[id].name == name ==> rows[id].tenant == tenant
  }

  ghost predicate NoForeignParent(rows: Rows, name: string, tenant: nat) {
    forall id :: NearestAbove(rows, name, id) ==> rows[id].tenant == tenant
  }

  ghost predicate NoForeignChild(rows: Rows, name: string, tenant: nat) {
    forall id :: Live(rows, id) && LikeBelow(rows[id].name, name) ==> rows[id].tenant == tenant
  }

  ghost predicate OwnershipClear(rows: Rows, name: string, tenant: nat) {
    NoForeignDuplicate(rows, name, tenant) && NoForeignParent(rows, name, tenant) && NoForeignChild(rows, name, tenant)
  }

  ghost predicate UnreadableAbove(name: string, above: string) {
    Below(name, above) && !Readable(above)
  }

  /** The search meets this text before it meets a zone above. */
  ghost predicate MetFirst(rows: Rows, name: string, text: string) {
    UnreadableAbove(name, text) && forall id :: Above(rows, name, id) ==> |rows[id].name| <= |text|
  }

  /** The search meets a text it cannot read before it meets a zone above. */
  ghost predicate MisreadAbove(rows: Rows, name: string) {
    exists text :: MetFirst(rows, name, text)
  }

  ghost predicate Misread(rows: Rows, name: string) {
    !Readable(name) || MisreadAbove(rows, name)
  }

  function OnlyPool(rows: Rows, pool: nat): Rows {
    map id | id in rows && rows[id].pool == pool :: rows[id]
  }

  lemma {:induction false} HasNearestAbove(rows: Rows, name: string, id: Id) returns (nearest: Id)
    requires Above(rows, name, id)
    ensures NearestAbove(rows, name, nearest) && |rows[nearest].name| >= |rows[id].name|
    decreases |name| - |rows[id].name|
  {
    if other :| Above(rows, name, other) && |rows[other].name| > |rows[id].name| {
      nearest := HasNearestAbove(rows, name, other);
    } else {
      nearest := id;
    }
  }

  /** The ownership check stops at the nearest level above, but ownership is inherited: passing it settles
      every level and every pool. */
  lemma {:induction false} ClearMeansNoForeignRelative(rows: Rows, name: string, tenant: nat, id: Id)
    requires Owned(rows) && OwnershipClear(rows, name, tenant)
    requires Live(rows, id) && (Related(rows[id].name, name) || LikeBelow(rows[id].name, name))
    ensures rows[id].tenant == tenant
  {
    if Below(name, rows[id].name) {
      var nearest := HasNearestAbove(rows, name, id);
      if |rows[id].name| < |rows[nearest].name| {
        AboveIsOrdered(name, rows[nearest].name, rows[id].name);
      } else {
        assert rows[id].name == rows[nearest].name;
      }
      assert rows[id].tenant == rows[nearest].tenant;
    } else if Below(rows[id].name, name) {
      BelowIsLikeBelow(rows[id].name, name);
    }
  }

  /** Hence the checks inside the chosen pool, which follow, can never refuse. */
  lemma {:induction false} PoolChecksNeverRefuse(rows: Rows, name: string, tenant: nat, pool: nat, parent: Option<Id>)
    requires Owned(rows) && OwnershipClear(rows, name, tenant) && Nearest(rows, name, pool, parent)
    ensures parent.Some? ==> rows[parent.value].tenant == tenant
    ensures forall id :: id in Subzones(rows, name, pool) ==> rows[id].tenant == tenant
  {
    if parent.Some? {
      ClearMeansNoForeignRelative(rows, name, tenant, parent.value);
    }
  }

  // ---------------------------------------------------------------- the new zone and its subzones

  predicate Taken(rows: Rows, name: string, pool: nat) {
    exists id :: id in rows && !rows[id].deleted && rows[id].name == name && rows[id].pool == pool
  }

  /** Updating a subzone's parent also makes its pending action an update. */
  function Adopt(rows: Rows, subs: set<Id>, parent: Id): Rows {
    map id | id in rows :: if id in subs then rows[id].(parent := Some(parent), deleting := false) else rows[id]
  }

  // ---------------------------------------------------------------- searching level by level

  lemma {:induction false} SubzonePatternAll(name: string, rows: Rows)
    requires '%' !in name
    ensures forall id :: id in rows ==> (Like("%." + name, rows[id].name) <==> LikeBelow(rows[id].name, name))
  {
    forall id | id in rows ensures Like("%." + name, rows[id].name) <==> LikeBelow(rows[id].name, name) {
      SubzonePattern(name, rows[id].name);
    }
  }

  lemma {:induction false} AncestorIsText(name: string, i: nat)
    requires ZoneText(name) && 1 <= i < |Labels(name)|
    ensures ZoneText(Ancestor(name, i))
  {
    AncestorIsAbove(name, i);
    var above := Ancestor(name, i);
    assert forall k :: 0 <= k < |above| ==> above[k] == name[|name| - |above| + k];
  }

  /** No live zone is met before level i. */
  ghost predicate NoneBefore(rows: Rows, name: string, i: nat)
    requires i <= |Labels(name)|
  {
    forall id :: Above(rows, name, id) ==> NotAmong(name, 1, i, rows[id].name)
  }

  ghost predicate ReadableBefore(name: string, i: nat)
    requires i <= |Labels(name)|
  {
    forall k :: 1 <= k < i ==> Readable(Ancestor(name, k))
  }

  lemma {:induction false} LaterIsShorter(name: string, i: nat, above: string)
    requires 1 <= i < |Labels(name)| && Below(name, above)
    requires NotAmong(name, 1, i, above)
    ensures |above| <= |Ancestor(name, i)|
  {
    var k := AboveIsAncestor(name, above);
    if i < k {
      AncestorsShrink(name, i, k);
    }
  }

  /** The first level with a zone is the nearest level, and all its zones are on it. */
  lemma {:induction false} NearestLevel(rows: Rows, name: string, i: nat)
    requires 1 <= i < |Labels(name)| && NoneBefore(rows, name, i)
    requires exists id :: Live(rows, id) && rows[id].name == Ancestor(name, i)
    ensures forall id :: NearestAbove(rows, name, id) <==> Live(rows, id) && rows[id].name == Ancestor(name, i)
  {
    var z :| Live(rows, z) && rows[z].name == Ancestor(name, i);
    AncestorIsAbove(name, i);
    forall id | Above(rows, name, id) ensures |rows[id].name| <= |Ancestor(name, i)| {
      LaterIsShorter(name, i, rows[id].name);
    }
    forall id | NearestAbove(rows, name, id) ensures rows[id].name == Ancestor(name, i) {
      assert Above(rows, name, z);
    }
  }

  lemma {:induction false} MisreadAtLevel(rows: Rows, name: string, i: nat)
    requires 1 <= i < |Labels(name)| && NoneBefore(rows, name, i) && !Readable(Ancestor(name, i))
    ensures MisreadAbove(rows, name)
  {
    AncestorIsAbove(name, i);
    assert UnreadableAbove(name, Ancestor(name, i));
    forall id | Above(rows, name, id) ensures |rows[id].name| <= |Ancestor(name, i)| {
      LaterIsShorter(name, i, rows[id].name);
    }
    assert MetFirst(rows, name, Ancestor(name, i));
  }

  lemma {:induction false} ReadAtLevel(rows: Rows, name: string, i: nat, z: Id)
    requires 1 <= i < |Labels(name)| && ReadableBefore(name, i + 1)
    requires Live(rows, z) && rows[z].name == Ancestor(name, i)
    ensures !MisreadAbove(rows, name)
  {
    AncestorIsAbove(name, i);
    forall a | UnreadableAbove(name, a) ensures |a| < |rows[z].name| {
      var k := AboveIsAncestor(name, a);
      AncestorsShrink(name, i, k);
    }
  }

  lemma {:induction false} NoneOnLevel(rows: Rows, name: string, i: nat)
    requires i < |Labels(name)| && NoneBefore(rows, name, i)
    requires forall id :: Live(rows, id) ==> rows[id].name != Ancestor(name, i)
    ensures NoneBefore(rows, name, i + 1)
  {
  }

  /** Where the first zones are met the search has read every text, and their tenants decide. */
  lemma {:induction false} LevelSettles(rows: Rows, name: string, tenant: nat, i: nat, ids: set<Id>)
    requires 1 <= i < |Labels(name)| && NoneBefore(rows, name, i) && ReadableBefore(name, i + 1)
    requires ids != {} && forall id: Id :: id in ids <==> Live(rows, id) && rows[id].name == Ancestor(name, i)
    ensures !MisreadAbove(rows, name)
    ensures NoForeignParent(rows, name, tenant) <==> forall id :: id in ids ==> rows[id].tenant == tenant
  {
    var z :| z in ids;
    NearestLevel(rows, name, i);
    ReadAtLevel(rows, name, i, z);
  }

  lemma {:induction false} NothingAbove(rows: Rows, name: string)
    requires NoneBefore(rows, name, |Labels(name)|) && ReadableBefore(name, |Labels(name)|)
    ensures !MisreadAbove(rows, name) && forall id :: !Above(rows, name, id)
  {
    forall a | Below(name, a) ensures Readable(a) {
      var k := AboveIsAncestor(name, a);
    }
    forall id ensures !Above(rows, name, id) {
      if Above(rows, name, id) {
        var k := AboveIsAncestor(name, rows[id].name);
      }
    }
  }

  lemma {:induction false} FoundInPool(rows: Rows, name: string, pool: nat, i: nat, z: Id)
    requires 1 <= i < |Labels(name)| && NoneBefore(OnlyPool(rows, pool), name, i) && ReadableBefore(name, i + 1)
    requires Live(rows, z) && rows[z].name == Ancestor(name, i) && rows[z].pool == pool
    ensures Nearest(rows, name, pool, Some(z)) && !MisreadAbove(OnlyPool(rows, pool), name)
  {
    var mine := OnlyPool(rows, pool);
    assert Live(mine, z);
    NearestLevel(mine, name, i);
    assert NearestAbove(mine, name, z);
    forall id | Above(rows, name, id) && rows[id].pool == pool ensures |rows[id].name| <= |rows[z].name| {
      assert Above(mine, name, id);
    }
    ReadAtLevel(mine, name, i, z);
  }

  lemma {:induction false} NoneOfPool(rows: Rows, name: string, pool: nat, i: nat)
    requires 1 <= i < |Labels(name)| && NoneBefore(OnlyPool(rows, pool), name, i)
    requires forall id :: Live(rows, id) && rows[id].name == Ancestor(name, i) ==> rows[id].pool != pool
    ensures NoneBefore(OnlyPool(rows, pool), name, i + 1)
  {
    NoneOnLevel(OnlyPool(rows, pool), name, i);
  }

  lemma {:induction false} NothingInPool(rows: Rows, name: string, pool: nat)
    requires var mine := OnlyPool(rows, pool);
      NoneBefore(mine, name, |Labels(name)|) && ReadableBefore(name, |Labels(name)|)
    ensures Nearest(rows, name, pool, None) && !MisreadAbove(OnlyPool(rows, pool), name)
  {
    var mine := OnlyPool(rows, pool);
    NothingAbove(mine, name);
    forall id | Above(rows, name, id) ensures rows[id].pool != pool {
      assert !Above(mine, name, id);
    }
  }

  // ---------------------------------------------------------------- the checks

  datatype Refusal =
    | MissingProjectId
    | InvalidZoneName
    | MalformedCriterion
    | DuplicateZone
    | IllegalChildZone
    | IllegalParentZone
    | PoolIllegalChild
    | PoolIllegalParent

  class Central {
    var zones: Rows

    constructor ()
      ensures zones == map[]
    {
      zones := map[];
    }

    method AnyForeign(ids: set<Id>, tenant: nat) returns (foreign: bool)
      requires ids <= zones.Keys
      ensures foreign <==> exists id :: id in ids && zones[id].tenant != tenant
    {
      var todo := ids;
      while todo != {}
        invariant todo <= ids
        invariant forall id :: id in ids - todo ==> zones[id].tenant == tenant
        decreases todo
      {
        var id :| id in todo;
        if zones[id].tenant != tenant {
          return true;
        }
        todo := todo - {id};
      }
      return false;
    }

    /** A name that begins like a range cannot be searched for. */
    method FindZones(name: string) returns (r: Result<set<Id>, Refusal>)
      requires ZoneText(name)
      ensures r.Err? <==> !Readable(name)
      ensures r.Err? ==> r.error == MalformedCriterion
      ensures r.Ok? ==> r.value <= zones.Keys
      ensures r.Ok? ==> forall id :: id in r.value <==> Live(zones, id) && zones[id].name == name
    {
      ZoneTextIsPlain(name);
      if !Readable(name) {
        return Err(MalformedCriterion);
      }
      forall id | id in zones ensures Hits(name, zones[id].name) <==> zones[id].name == name {
        PlainNamesHitThemselves(name, zones[id].name);
      }
      return Ok(set id | id in zones && !zones[id].deleted && Hits(name, zones[id].name));
    }

    method FindZone(name: string, pool: nat) returns (r: Result<Option<Id>, Refusal>)
      requires ZoneText(name) && Unique(zones)
      ensures r.Err? <==> !Readable(name)
      ensures r.Err? ==> r.error == MalformedCriterion
      ensures r.Ok? && r.value.Some? ==>
        Live(zones, r.value.value) && zones[r.value.value].name == name && zones[r.value.value].pool == pool
      ensures r == Ok(None) ==> forall id :: Live(zones, id) && zones[id].name == name ==> zones[id].pool != pool
    {
      var found := FindZones(name);
      if found.Err? {
        return Err(found.error);
      }
      var matches := set id | id in found.value && zones[id].pool == pool;
      if matches == {} {
        assert forall id :: id in found.value ==> id !in matches;
        return Ok(None);
      }
      var z :| z in matches;
      return Ok(Some(z));
    }

    /** Stops at the nearest level above. */
    method CheckAncestors(name: string, tenant: nat) returns (refusal: Option<Refusal>)
      requires ZoneText(name)
      ensures refusal == None <==> !MisreadAbove(zones, name) && NoForeignParent(zones, name, tenant)
      ensures refusal == Some(MalformedCriterion) <==> MisreadAbove(zones, name)
      ensures refusal.Some? ==> refusal.value in {MalformedCriterion, IllegalChildZone}
    {
      var labels := Labels(name);
      for i := 1 to |labels|
        invariant ReadableBefore(name, i) && NoneBefore(zones, name, i)
      {
        AncestorIsText(name, i);
        var ancestors := FindZones(Join(labels[i..], '.'));
        if ancestors.Err? {
          MisreadAtLevel(zones, name, i);
          return Some(ancestors.error);
        }
        if ancestors.value == {} {
          NoneOnLevel(zones, name, i);
          continue;
        }
        LevelSettles(zones, name, tenant, i, ancestors.value);
        var foreign := AnyForeign(ancestors.value, tenant);
        if foreign {
          return Some(IllegalChildZone);
        }
        return None;
      }
      NothingAbove(zones, name);
      return None;
    }

    method CheckZoneOwnershipConflicts(name: string, tenant: nat) returns (refusal: Option<Refusal>)
      requires ZoneText(name)
      ensures refusal == None <==> !Misread(zones, name) && OwnershipClear(zones, name, tenant)
      ensures refusal == Some(DuplicateZone) <==> Readable(name) && !NoForeignDuplicate(zones, name, tenant)
      ensures refusal == Some(MalformedCriterion) <==>
        !Readable(name) || (NoForeignDuplicate(zones, name, tenant) && MisreadAbove(zones, name))
      ensures refusal == Some(IllegalChildZone) <==>
        !Misread(zones, name) && NoForeignDuplicate(zones, name, tenant) && !NoForeignParent(zones, name, tenant)
      ensures refusal.Some? ==>
        refusal.value in {MalformedCriterion, DuplicateZone, IllegalChildZone, IllegalParentZone}
    {
      var same := FindZones(name);
      if same.Err? {
        return Some(same.error);
      }
      var foreign := AnyForeign(same.value, tenant);
      if foreign {
        return Some(DuplicateZone);
      }
      refusal := CheckAncestors(name, tenant);
      if refusal.Some? {
        return;
      }
      SubzonePatternAll(name, zones);
      var subzones := set id | id in zones && !zones[id].deleted && Like("%." + name, zones[id].name);
      foreign := AnyForeign(subzones, tenant);
      if foreign {
        return Some(IllegalParentZone);
      }
    }

    /** The nearest zone of the pool above a name, found by dropping one label at a time. */
    method IsSubzone(name: string, pool: nat) returns (r: Result<Option<Id>, Refusal>)
      requires ZoneText(name) && Unique(zones)
      ensures r.Err? <==> MisreadAbove(OnlyPool(zones, pool), name)
      ensures r.Err? ==> r.error == MalformedCriterion
      ensures r.Ok? ==> Nearest(zones, name, pool, r.value)
    {
      ghost var mine := OnlyPool(zones, pool);
      var labels := Labels(name);
      var i := 1;
      while i < |labels|
        invariant 1 <= i <= |labels|
        invariant ReadableBefore(name, i) && NoneBefore(mine, name, i)
      {
        AncestorIsText(name, i);
        var found := FindZone(Join(labels[i..], '.'), pool);
        if found.Err? {
          MisreadAtLevel(mine, name, i);
          return found;
        } else if found.value.Some? {
          FoundInPool(zones, name, pool, i, found.value.value);
          return found;
        } else {
          NoneOfPool(zones, name, pool, i);
          i := i + 1;
        }
      }
      NothingInPool(zones, name, pool);
      return Ok(None);
    }

    method IsSuperzone(name: string, pool: nat) returns (subzones: set<Id>)
      requires ZoneText(name)
      ensures subzones == Subzones(zones, name, pool)
    {
      SubzonePatternAll(name, zones);
      return set id | id in zones && !zones[id].deleted && zones[id].pool == pool && Like("%." + name, zones[id].name);
    }
  }

  // ---------------------------------------------------------------- what keeps the forest

  /** No zone of another tenant has a related name. */
  ghost predicate NoForeignRelative(rows: Rows, name: string, tenant: nat) {
    forall id :: Live(rows, id) && Related(rows[id].name, name) ==> rows[id].tenant == tenant
  }

  ghost predicate ParentMatches(rows: Rows, name: string, parent: Option<Id>) {
    parent.Some? && parent.value in rows ==> LikeBelow(name, rows[parent.value].name)
  }

  ghost predicate Unreferenced(rows: Rows, id: Id) {
    forall x :: x in rows ==> rows[x].parent != Some(id)
  }

  lemma {:induction false} InsertKeepsForest(rows: Rows, id: Id, z: Zone)
    requires Forest(rows) && id !in rows && Unreferenced(rows, id)
    requires ZoneName(z.name) && !Taken(rows, z.name, z.pool) && !z.deleted && z.parent != Some(id)
    requires ParentMatches(rows, z.name, z.parent)
    ensures Forest(rows[id := z])
  {
    var rows' := rows[id := z];
    assert Linked(rows');
    assert Unique(rows') by {
      forall a, b | Live(rows', a) && Live(rows', b) && rows'[a].name == rows'[b].name && rows'[a].pool == rows'[b].pool
        ensures a == b
      {
        if a != id && b != id {
          assert Live(rows, a) && Live(rows, b);
        }
      }
    }
  }

  lemma {:induction false} InsertKeepsOwned(rows: Rows, id: Id, z: Zone)
    requires Owned(rows) && id !in rows && NoForeignRelative(rows, z.name, z.tenant)
    ensures Owned(rows[id := z])
  {
    var rows' := rows[id := z];
    forall a, b | Live(rows', a) && Live(rows', b) && Related(rows'[a].name, rows'[b].name)
      ensures rows'[a].tenant == rows'[b].tenant
    {
      if a != id && b != id {
        assert Live(rows, a) && Live(rows, b);
      }
    }
  }

  lemma {:induction false} AdoptKeepsForest(rows: Rows, subs: set<Id>, parent: Id)
    requires Forest(rows)
    requires forall sub :: sub in subs && sub in rows ==> ParentMatches(rows, rows[sub].name, Some(parent))
    ensures Forest(Adopt(rows, subs, parent))
  {
    var rows' := Adopt(rows, subs, parent);
    forall a | Live(rows', a) ensures Live(rows, a) {
    }
    assert Unique(rows') && Named(rows');
    assert Linked(rows');
  }

  /** Rows may go, be removed, or change parent; names, tenants and pools stay. */
  ghost predicate Shrinks(rows: Rows, rows': Rows) {
    forall id :: id in rows' ==>
      id in rows && rows'[id].name == rows[id].name && rows'[id].tenant == rows[id].tenant &&
      rows'[id].pool == rows[id].pool && (rows[id].deleted ==> rows'[id].deleted)
  }

  lemma {:induction false} ShrinkingKeepsForest(rows: Rows, rows': Rows)
    requires Forest(rows) && Shrinks(rows, rows') && Linked(rows')
    ensures Forest(rows')
  {
    forall a | Live(rows', a) ensures Live(rows, a) {
    }
  }

  lemma {:induction false} ShrinkingKeepsOwned(rows: Rows, rows': Rows)
    requires Owned(rows) && Shrinks(rows, rows')
    ensures Owned(rows')
  {
    forall a | Live(rows', a) ensures Live(rows, a) {
    }
  }

  // ---------------------------------------------------------------- following parent links

  ghost predicate ParentPath(rows: Rows, path: seq<Id>) {
    && (forall i :: 0 <= i < |path| ==> path[i] in rows)
    && (forall i, j :: 0 <= i < j < |path| && j == i + 1 ==> rows[path[i]].parent == Some(path[j]))
  }

  lemma {:induction false} PathsShorten(rows: Rows, path: seq<Id>)
    requires Named(rows) && Linked(rows) && ParentPath(rows, path) && path != []
    ensures |rows[path[0]].name| >= |rows[path[|path| - 1]].name| + 2 * (|path| - 1)
    decreases |path|
  {
    if |path| <= 1 {
    } else {
      PathsShorten(rows, path[1..]);
      assert rows[path[0]].parent == Some(path[1]);
      StepUp(rows[path[0]].name, rows[path[1]].name);
    }
  }

  /** Following parent links ends: no path has more than 127 zones and none meets a zone twice. */
  lemma {:induction false} ParentPathsEnd(rows: Rows, path: seq<Id>)
    requires Forest(rows) && ParentPath(rows, path)
    ensures |path| <= 127
    ensures forall i, j :: 0 <= i < j < |path| ==> path[i] != path[j]
  {
    if path != [] {
      PathsShorten(rows, path);
      assert |rows[path[|path| - 1]].name| >= 2 && |rows[path[0]].name| <= 254;
    }
    forall i, j | 0 <= i < j < |path| ensures path[i] != path[j] {
      PathsShorten(rows, path[i..j + 1]);
    }
  }

  /** Without underscores in the parent's name a parent link leads to a strict label suffix. */
  lemma {:induction false} ParentIsSuffix(rows: Rows, id: Id)
    requires Forest(rows) && id in rows && rows[id].parent.Some? && rows[id].parent.value in rows
    requires '_' !in rows[rows[id].parent.value].name
    ensures Below(rows[id].name, rows[rows[id].parent.value].name)
  {
    PatternIsExact(rows[rows[id].parent.value].name);
  }

  // ---------------------------------------------------------------- creating a zone

  predicate TwoLabels(name: string) {
    name != "" && '.' in name[..|name| - 1]
  }

  /** The checks across all pools let the zone pass. */
  ghost predicate Admitted(rows: Rows, name: string, tenant: nat) {
    tenant != NO_TENANT && TwoLabels(name) && !Misread(rows, name) && OwnershipClear(rows, name, tenant)
  }

  /** So do the checks inside the pool. */
  ghost predicate PoolAdmits(rows: Rows, name: string, tenant: nat, pool: nat) {
    && !MisreadAbove(OnlyPool(rows, pool), name)
    && (forall parent: Id :: Nearest(rows, name, pool, Some(parent)) ==> rows[parent].tenant == tenant)
    && (forall id :: id in Subzones(rows, name, pool) ==> rows[id].tenant == tenant)
  }

  lemma {:induction false} NearestIsOne(rows: Rows, name: string, pool: nat, parent: Option<Id>)
    requires Unique(rows) && Nearest(rows, name, pool, parent)
    ensures forall z: Id :: Nearest(rows, name, pool, Some(z)) ==> parent == Some(z)
  {
    forall z: Id | Nearest(rows, name, pool, Some(z)) ensures parent == Some(z) {
      assert Above(rows, name, z) && rows[z].pool == pool;
      assert parent.Some? && |rows[parent.value].name| == |rows[z].name|;
      assert rows[parent.value].name == rows[z].name;
    }
  }

  /** The checks inside the pool, with the parent and the subzones they find. */
  method CheckPool(central: Central, name: string, tenant: nat, pool: nat)
    returns (refusal: Option<Refusal>, parent: Option<Id>, subzones: set<Id>)
    requires Unique(central.zones) && ZoneText(name) && OwnershipClear(central.zones, name, tenant)
    ensures refusal == None <==> PoolAdmits(central.zones, name, tenant, pool)
    ensures refusal == None ==> Nearest(central.zones, name, pool, parent)
    ensures refusal == None ==> subzones == Subzones(central.zones, name, pool)
    ensures refusal.Some? ==> refusal.value in {MalformedCriterion, PoolIllegalChild}
    ensures refusal == Some(MalformedCriterion) <==> MisreadAbove(OnlyPool(central.zones, pool), name)
    ensures refusal == Some(PoolIllegalChild) ==> !Owned(central.zones)
  {
    subzones := {};
    var found := central.IsSubzone(name, pool);
    if found.Err? {
      return Some(found.error), None, subzones;
    }
    parent := found.value;
    NearestIsOne(central.zones, name, pool, parent);
    if parent.Some? && central.zones[parent.value].tenant != tenant {
      if Owned(central.zones) {
        PoolChecksNeverRefuse(central.zones, name, tenant, pool, parent);
      }
      return Some(PoolIllegalChild), parent, subzones;
    }
    subzones := central.IsSuperzone(name, pool);
    var foreign := central.AnyForeign(subzones, tenant);
    if foreign {
      return Some(PoolIllegalParent), parent, subzones;
    }
    return None, parent, subzones;
  }

  /** Why a zone is not created: the first of these reasons that applies. */
  ghost predicate Refuses(rows: Rows, name: string, tenant: nat, pool: nat, refusal: Refusal) {
    if tenant == NO_TENANT then refusal == MissingProjectId
    else if name == "" || '.' !in name[..|name| - 1] then refusal == InvalidZoneName
    else if !Readable(name) then refusal == MalformedCriterion
    else if exists id :: Live(rows, id) && rows[id].name == name && rows[id].tenant != tenant
    then refusal == DuplicateZone
    else if MisreadAbove(rows, name) then refusal == MalformedCriterion
    else if exists id :: NearestAbove(rows, name, id) && rows[id].tenant != tenant then refusal == IllegalChildZone
    else if exists id :: Live(rows, id) && LikeBelow(rows[id].name, name) && rows[id].tenant != tenant
    then refusal == IllegalParentZone
    else if MisreadAbove(OnlyPool(rows, pool), name) then refusal == MalformedCriterion
    else if exists id :: Nearest(rows, name, pool, Some(id)) && rows[id].tenant != tenant
    then refusal == PoolIllegalChild
    else
      refusal == DuplicateZone &&
      exists id :: Live(rows, id) && rows[id].name == name && rows[id].pool == pool && rows[id].tenant == tenant
  }

  /** All checks in their order. */
  method Preflight(central: Central, name: string, tenant: nat, pool: nat)
    returns (refusal: Option<Refusal>, parent: Option<Id>, subzones: set<Id>)
    requires Unique(central.zones) && ZoneText(name)
    ensures refusal == None <==> Admitted(central.zones, name, tenant) && PoolAdmits(central.zones, name, tenant, pool)
    ensures refusal == None ==> Nearest(central.zones, name, pool, parent)
    ensures refusal == None ==> subzones == Subzones(central.zones, name, pool)
    ensures refusal.Some? ==> Refuses(central.zones, name, tenant, pool, refusal.value)
    ensures refusal == Some(PoolIllegalChild) ==> !Owned(central.zones)
  {
    if tenant == NO_TENANT {
      return Some(MissingProjectId), None, {};
    }
    if !TwoLabels(name) {
      return Some(InvalidZoneName), None, {};
    }
    refusal := central.CheckZoneOwnershipConflicts(name, tenant);
    if refusal.Some? {
      return refusal, None, {};
    }
    refusal, parent, subzones := CheckPool(central, name, tenant, pool);
  }

  lemma {:induction false} ClearIsNoForeignRelative(rows: Rows, name: string, tenant: nat)
    requires Owned(rows) && OwnershipClear(rows, name, tenant)
    ensures NoForeignRelative(rows, name, tenant)
  {
    forall id | Live(rows, id) && Related(rows[id].name, name) ensures rows[id].tenant == tenant {
      ClearMeansNoForeignRelative(rows, name, tenant, id);
    }
  }

  lemma {:induction false} AdoptOneMore(rows: Rows, done: set<Id>, sub: Id, parent: Id)
    requires sub in rows
    ensures var so := Adopt(rows, done, parent);
      && Adopt(rows, done + {sub}, parent) == Adopt(so, {sub}, parent)
      && Adopt(so, {sub}, parent) == so[sub := so[sub].(parent := Some(parent), deleting := false)]
  {
  }

  lemma {:induction false} AdoptNext(inserted: Rows, subzones: set<Id>, todo: set<Id>, sub: Id, id: Id)
    requires Forest(inserted) && id in inserted && todo <= subzones && sub in todo
    requires forall x :: x in subzones ==> x in inserted && LikeBelow(inserted[x].name, inserted[id].name)
    ensures var so := Adopt(inserted, subzones - todo, id);
      && sub in so
      && Adopt(inserted, subzones - (todo - {sub}), id) == so[sub := so[sub].(parent := Some(id), deleting := false)]
    ensures Forest(Adopt(inserted, subzones - (todo - {sub}), id))
  {
    assert subzones - (todo - {sub}) == (subzones - todo) + {sub};
    AdoptOneMore(inserted, subzones - todo, sub, id);
    AdoptKeepsForest(inserted, subzones - (todo - {sub}), id);
  }

  method HangSubzones(central: Central, subzones: set<Id>, id: Id)
    requires Forest(central.zones) && id in central.zones
    requires forall sub :: sub in subzones ==>
      sub in central.zones && LikeBelow(central.zones[sub].name, central.zones[id].name)
    modifies central
    ensures central.zones == Adopt(old(central.zones), subzones, id)
    ensures Forest(central.zones)
  {
    ghost var inserted := central.zones;
    var todo := subzones;
    assert Adopt(inserted, subzones - todo, id) == inserted;
    while todo != {}
      invariant todo <= subzones
      invariant central.zones == Adopt(inserted, subzones - todo, id)
      invariant Forest(Adopt(inserted, subzones - todo, id))
      decreases todo
    {
      var sub :| sub in todo;
      AdoptNext(inserted, subzones, todo, sub, id);
      central.zones := central.zones[sub := central.zones[sub].(parent := Some(id), deleting := false)];
      todo := todo - {sub};
    }
    assert subzones - todo == subzones;
  }

  method StoreZone(central: Central, id: Id, zone: Zone, subzones: set<Id>)
    requires var rows := central.zones;
      Forest(rows) && id !in rows && Unreferenced(rows, id) && !zone.deleted && zone.parent != Some(id) &&
      ZoneName(zone.name) && !Taken(rows, zone.name, zone.pool) && ParentMatches(rows, zone.name, zone.parent) &&
      OwnershipClear(rows, zone.name, zone.tenant)
    requires forall sub :: sub in subzones ==> sub in central.zones && LikeBelow(central.zones[sub].name, zone.name)
    modifies central
    ensures Forest(central.zones)
    ensures Owned(old(central.zones)) ==> Owned(central.zones)
    ensures central.zones == Adopt(old(central.zones)[id := zone], subzones, id)
  {
    if Owned(central.zones) {
      ClearIsNoForeignRelative(central.zones, zone.name, zone.tenant);
      InsertKeepsOwned(central.zones, id, zone);
    }
    InsertKeepsForest(central.zones, id, zone);
    central.zones := central.zones[id := zone];
    ghost var inserted := central.zones;
    HangSubzones(central, subzones, id);
    if Owned(inserted) {
      ShrinkingKeepsOwned(inserted, central.zones);
    }
  }

  lemma {:induction false} NearestMatches(rows: Rows, name: string, pool: nat, parent: Option<Id>)
    requires Nearest(rows, name, pool, parent)
    ensures ParentMatches(rows, name, parent)
  {
    if parent.Some? {
      BelowIsLikeBelow(name, rows[parent.value].name);
    }
  }

  /** What storing a zone and hanging its subzones comes to: live zones of its pool that its search pattern finds have
      it as their parent and are no longer being deleted; no other zone changes. */
  lemma {:induction false} NewZoneTakesItsSubzones(rows: Rows, id: Id, z: Zone, x: Id)
    requires id !in rows && !z.deleted
    ensures var rows' := Adopt(rows[id := z], Subzones(rows, z.name, z.pool), id);
      && (x in rows' <==> x in rows || x == id)
      && rows'[id] == z
      && (x in rows ==>
          rows'[x] == if !rows[x].deleted && rows[x].pool == z.pool && LikeBelow(rows[x].name, z.name)
                      then Zone(rows[x].name, rows[x].tenant, z.pool, Some(id), false, false) else rows[x])
  {
    var subs := Subzones(rows, z.name, z.pool);
    assert id !in subs;
    var rows' := Adopt(rows[id := z], subs, id);
    assert rows'.Keys == rows.Keys + {id};
  }

  /** Checks, stores and hangs subzones below the new zone, one update at a time. */
  method CreateZone(central: Central, name: string, tenant: nat, pool: nat, id: Id) returns (r: Result<Id, Refusal>)
    requires Forest(central.zones) && ZoneName(name)
    requires id !in central.zones && Unreferenced(central.zones, id)
    modifies central
    ensures Forest(central.zones)
    ensures Owned(old(central.zones)) ==> Owned(central.zones)
    ensures r.Ok? <==>
      Admitted(old(central.zones), name, tenant) && PoolAdmits(old(central.zones), name, tenant, pool) &&
      !Taken(old(central.zones), name, pool)
    ensures r.Err? ==> central.zones == old(central.zones) && Refuses(old(central.zones), name, tenant, pool, r.error)
    ensures r.Err? && r.error == PoolIllegalChild ==> !Owned(old(central.zones))
    ensures r.Ok? ==> r.value == id && exists parent ::
      Nearest(old(central.zones), name, pool, parent) &&
      central.zones == Adopt(old(central.zones)[id := Zone(name, tenant, pool, parent, false, false)],
                             Subzones(old(central.zones), name, pool), id)
  {
    var refusal, parent, subzones := Preflight(central, name, tenant, pool);
    if refusal.Some? {
      return Err(refusal.value);
    }
    if exists other :: other in central.zones && !central.zones[other].deleted &&
        central.zones[other].name == name && central.zones[other].pool == pool {
      return Err(DuplicateZone);
    }
    NearestMatches(central.zones, name, pool, parent);
    StoreZone(central, id, Zone(name, tenant, pool, parent, false, false), subzones);
    return Ok(id);
  }
}
