/** Whole runs of zone operations.

    Creations hold the create-new-zone lock, so at most one is under way. Between its ownership check, the
    lookups in its pool, the insertion and each subzone it hangs below the new zone, other zones are updated,
    deleted, removed, purged, transferred to other tenants and moved to other pools, and catalog zones are
    stored. */
module ZoneHistory {
  import opened Wrappers
  import opened DnsNames
  import opened StorageCriteria
  import opened ZoneForest
  import opened ZonePurge

  /** How far a creation has come since its ownership check. */
  datatype Phase =
    | Checked
    | Placed(pool: nat, parent: Option<Id>)
    | Collected(pool: nat, parent: Option<Id>, todo: set<Id>)
    | Stored(id: Id, todo: set<Id>)

  datatype Creation = Creation(name: string, tenant: nat, phase: Phase)

  /** Ids are never reused. */
  datatype State = State(rows: Rows, used: set<Id>, creating: Option<Creation>)

  datatype Action =
    | CheckOwnership(name: string, tenant: nat)
    | FindParent(pool: nat, parent: Option<Id>)
    | FindSubzones
    | Insert(id: Id)
    | Hang(sub: Id)
    | EndCreation
    | AddCatalog(id: Id, name: string, pool: nat)
    | TransferZone(id: Id, tenant: nat)
    | MoveZone(id: Id, pool: nat)
    | UpdateZone(id: Id)
    | DeleteZone(id: Id)
    | RemoveZone(id: Id)
    | Purge(ids: seq<Id>)

  const START := State(map[], {}, None)

  ghost predicate CatalogOf(rows: Rows, id: Id, pool: nat) {
    Live(rows, id) && rows[id].tenant == NO_TENANT && rows[id].pool == pool
  }

  /** A pool that has its catalog zone gets no other. */
  ghost predicate HasCatalog(rows: Rows, pool: nat) {
    exists id :: CatalogOf(rows, id, pool) && forall other :: CatalogOf(rows, other, pool) ==> other == id
  }

  /** The same tenant owns the parent found in the pool. */
  ghost predicate ParentIsOwn(rows: Rows, c: Creation, parent: Option<Id>) {
    parent.Some? ==> parent.value in rows && rows[parent.value].tenant == c.tenant
  }

  ghost predicate SubzonesAreOwn(rows: Rows, c: Creation, pool: nat) {
    forall id :: id in Subzones(rows, c.name, pool) ==> rows[id].tenant == c.tenant
  }

  ghost predicate CreationStep(s: State, c: Creation, a: Action, s': State) {
    match a
    case FindParent(pool, parent) =>
      c.phase.Checked? && !MisreadAbove(OnlyPool(s.rows, pool), c.name) && Nearest(s.rows, c.name, pool, parent) &&
      ParentIsOwn(s.rows, c, parent) && s' == s.(creating := Some(c.(phase := Placed(pool, parent))))
    case FindSubzones =>
      c.phase.Placed? && SubzonesAreOwn(s.rows, c, c.phase.pool) &&
      s' == s.(creating := Some(c.(phase := Collected(c.phase.pool, c.phase.parent,
        Subzones(s.rows, c.name, c.phase.pool)))))
    case Insert(id) =>
      c.phase.Collected? && id !in s.used && !Taken(s.rows, c.name, c.phase.pool) &&
      s' == State(s.rows[id := Zone(c.name, c.tenant, c.phase.pool, c.phase.parent, false, false)], s.used + {id},
                  Some(c.(phase := Stored(id, c.phase.todo))))
    case Hang(sub) =>
      c.phase.Stored? && sub in c.phase.todo && Live(s.rows, sub) &&
      s' == s.(rows := Adopt(s.rows, {sub}, c.phase.id),
        creating := Some(c.(phase := Stored(c.phase.id, c.phase.todo - {sub}))))
    case EndCreation => s' == s.(creating := None)
    case _ => false
  }

  /** The new row stands for the zone afterwards. */
  ghost predicate Rewrites(s: State, id: Id, z: Zone, s': State) {
    Live(s.rows, id) && s' == s.(rows := s.rows[id := z])
  }

  ghost predicate Step(s: State, a: Action, s': State) {
    match a
    case CheckOwnership(name, tenant) =>
      s.creating == None && ZoneName(name) && Admitted(s.rows, name, tenant) &&
      s' == s.(creating := Some(Creation(name, tenant, Checked)))
    case AddCatalog(id, name, pool) =>
      id !in s.used && ZoneName(name) && !Taken(s.rows, name, pool) && !HasCatalog(s.rows, pool) &&
      s' == s.(rows := s.rows[id := Zone(name, NO_TENANT, pool, None, false, false)], used := s.used + {id})
    case TransferZone(id, tenant) =>
      Live(s.rows, id) && s.rows[id].tenant != NO_TENANT && tenant != NO_TENANT && !s.rows[id].deleting &&
      Rewrites(s, id, s.rows[id].(tenant := tenant), s')
    case MoveZone(id, pool) =>
      Live(s.rows, id) && !Taken(s.rows, s.rows[id].name, pool) &&
        Rewrites(s, id, s.rows[id].(pool := pool, deleting := false), s')
    case UpdateZone(id) =>
      Live(s.rows, id) && Rewrites(s, id, s.rows[id].(deleting := false), s')
    case DeleteZone(id) =>
      Live(s.rows, id) && (forall x :: Live(s.rows, x) ==> s.rows[x].parent != Some(id)) &&
      Rewrites(s, id, s.rows[id].(deleting := true), s')
    case RemoveZone(id) =>
      Live(s.rows, id) && Rewrites(s, id, s.rows[id].(deleted := true), s')
    case Purge(ids) =>
      Forest(s.rows) && (forall id :: id in ids ==> id in s.rows && s.rows[id].deleted) &&
      var batch := IdSet(ids);
      batch <= s.rows.Keys && s' == s.(rows := PurgeAll(s.rows, s.rows, batch, ids))
    case _ => s.creating.Some? && CreationStep(s, s.creating.value, a, s')
  }

  // ---------------------------------------------------------------- the invariant

  /** Names under which a zone can be created when nothing else is there. */
  ghost predicate Creatable(name: string) {
    ZoneName(name) && TwoLabels(name) && NoRange(name)
  }

  /** Ids of zones that have tenants, or had rows that are gone. */
  ghost function Tenanted(s: State): set<Id> {
    set id | id in s.used && !(id in s.rows && s.rows[id].tenant == NO_TENANT)
  }

  ghost predicate ParentsTenanted(s: State) {
    forall id :: id in s.rows && s.rows[id].parent.Some? ==> s.rows[id].parent.value in Tenanted(s)
  }

  ghost predicate TenantsCreated(rows: Rows) {
    forall id :: id in rows && rows[id].tenant != NO_TENANT ==> Creatable(rows[id].name)
  }

  ghost predicate ParentKept(s: State, c: Creation, parent: Option<Id>) {
    (parent.Some? ==> parent.value in Tenanted(s)) && ParentMatches(s.rows, c.name, parent)
  }

  ghost predicate TodoKept(s: State, c: Creation, todo: set<Id>) {
    todo <= s.used && forall sub :: sub in todo && sub in s.rows ==> LikeBelow(s.rows[sub].name, c.name)
  }

  ghost predicate CreationInvariant(s: State, c: Creation) {
    && Creatable(c.name) && c.tenant != NO_TENANT
    && match c.phase
       case Checked => true
       case Placed(_, parent) => ParentKept(s, c, parent)
       case Collected(_, parent, todo) => ParentKept(s, c, parent) && TodoKept(s, c, todo)
       case Stored(id, todo) =>
         TodoKept(s, c, todo) && id in Tenanted(s) && (id in s.rows ==> s.rows[id].name == c.name)
  }

  ghost predicate Invariant(s: State) {
    && Forest(s.rows) && TenantsCreated(s.rows)
    && s.rows.Keys <= s.used && ParentsTenanted(s)
    && (s.creating.Some? ==> CreationInvariant(s, s.creating.value))
  }

  lemma {:induction false} UnreadableIsBehind(rows: Rows, name: string, tenant: nat, text: string)
    requires TenantsCreated(rows) && Admitted(rows, name, tenant) && UnreadableAbove(name, text)
    ensures !StartsWith(text, "BETWEEN")
  {
    assert !MetFirst(rows, name, text);
    var id :| Above(rows, name, id) && |rows[id].name| > |text|;
    var nearest := HasNearestAbove(rows, name, id);
    AboveIsOrdered(name, rows[nearest].name, text);
  }

  /** A name passes the ownership check only if every text above it can be read: the levels behind the nearest
      zone were read when that zone was created. */
  lemma {:induction false} AdmittedIsCreatable(rows: Rows, name: string, tenant: nat)
    requires TenantsCreated(rows) && ZoneName(name) && Admitted(rows, name, tenant)
    ensures Creatable(name)
  {
    forall text | text == name || Below(name, text) ensures !StartsWith(text, "BETWEEN") {
      LevelIsReadable(name, text);
      if UnreadableAbove(name, text) {
        UnreadableIsBehind(rows, name, tenant, text);
      }
    }
  }

  lemma {:induction false} FindSubzonesKeeps(s: State, c: Creation, s': State)
    requires Invariant(s) && s.creating == Some(c) && CreationStep(s, c, FindSubzones, s')
    ensures Invariant(s')
  {
  }

  lemma {:induction false} FindParentKeeps(s: State, c: Creation, pool: nat, parent: Option<Id>, s': State)
    requires Invariant(s) && s.creating == Some(c) && CreationStep(s, c, FindParent(pool, parent), s')
    ensures Invariant(s')
  {
    NearestMatches(s.rows, c.name, pool, parent);
  }

  /** Old rows keep their names, and rows that were gone stay away. */
  ghost predicate Extends(s: State, s': State) {
    && s.used <= s'.used && Tenanted(s) <= Tenanted(s')
    && forall id :: id in s'.rows && id in s.used ==> id in s.rows && s'.rows[id].name == s.rows[id].name
  }

  lemma {:induction false} ExtendingKeepsCreation(s: State, c: Creation, s': State)
    requires CreationInvariant(s, c) && Extends(s, s')
    ensures CreationInvariant(s', c)
  {
    if c.phase.Placed? || c.phase.Collected? {
      assert ParentKept(s', c, c.phase.parent);
    }
    if c.phase.Collected? || c.phase.Stored? {
      assert TodoKept(s', c, c.phase.todo);
    }
  }

  lemma {:induction false} NewRowKeeps(s: State, id: Id, z: Zone, s': State)
    requires s.rows.Keys <= s.used && ParentsTenanted(s) && TenantsCreated(s.rows) && id !in s.used
    requires s'.rows == s.rows[id := z] && s'.used == s.used + {id}
    requires z.parent.Some? ==> z.parent.value in Tenanted(s)
    requires z.tenant != NO_TENANT ==> Creatable(z.name)
    ensures s'.rows.Keys <= s'.used && ParentsTenanted(s') && TenantsCreated(s'.rows) && Extends(s, s')
    ensures id in Tenanted(s') <==> z.tenant != NO_TENANT
  {
    assert Tenanted(s) <= Tenanted(s');
  }

  lemma {:induction false} NewRowFits(s: State, id: Id, z: Zone)
    requires Forest(s.rows) && s.rows.Keys <= s.used && ParentsTenanted(s) && id !in s.used
    requires ZoneName(z.name) && !Taken(s.rows, z.name, z.pool) && !z.deleted
    requires (z.parent.Some? ==> z.parent.value in Tenanted(s)) && ParentMatches(s.rows, z.name, z.parent)
    ensures Forest(s.rows[id := z])
  {
    InsertKeepsForest(s.rows, id, z);
  }

  lemma {:induction false} InsertKeeps(s: State, c: Creation, id: Id, s': State)
    requires Invariant(s) && s.creating == Some(c) && CreationStep(s, c, Insert(id), s')
    ensures Invariant(s')
  {
    var z := Zone(c.name, c.tenant, c.phase.pool, c.phase.parent, false, false);
    NewRowFits(s, id, z);
    NewRowKeeps(s, id, z, s');
    assert TodoKept(s', s'.creating.value, c.phase.todo);
  }

  lemma {:induction false} HangKeepsParents(s: State, c: Creation, sub: Id, s': State)
    requires c.phase.Stored? && c.phase.id in Tenanted(s) && ParentsTenanted(s) && TenantsCreated(s.rows)
    requires s'.used == s.used && s'.rows == Adopt(s.rows, {sub}, c.phase.id)
    ensures ParentsTenanted(s') && TenantsCreated(s'.rows) && Tenanted(s') == Tenanted(s)
  {
    assert Tenanted(s') == Tenanted(s);
  }

  lemma {:induction false} HangKeeps(s: State, c: Creation, sub: Id, s': State)
    requires Invariant(s) && s.creating == Some(c) && CreationStep(s, c, Hang(sub), s')
    ensures Invariant(s')
  {
    AdoptKeepsForest(s.rows, {sub}, c.phase.id);
    HangKeepsParents(s, c, sub, s');
    assert TodoKept(s', s'.creating.value, c.phase.todo - {sub});
  }

  lemma {:induction false} AddCatalogKeeps(s: State, id: Id, name: string, pool: nat, s': State)
    requires Invariant(s) && Step(s, AddCatalog(id, name, pool), s')
    ensures Invariant(s')
  {
    var z := Zone(name, NO_TENANT, pool, None, false, false);
    NewRowFits(s, id, z);
    NewRowKeeps(s, id, z, s');
    if s.creating.Some? {
      ExtendingKeepsCreation(s, s.creating.value, s');
    }
  }

  /** Steps that leave names, links and the absence of tenants alone, or drop rows, keep what is known. */
  ghost predicate Preserves(s: State, s': State) {
    && s'.used == s.used && s'.creating == s.creating
    && forall id :: id in s'.rows ==>
         id in s.rows && s'.rows[id].name == s.rows[id].name &&
         (s'.rows[id].tenant == NO_TENANT <==> s.rows[id].tenant == NO_TENANT)
  }

  lemma {:induction false} PreservingKeeps(s: State, s': State)
    requires Invariant(s) && Preserves(s, s') && Forest(s'.rows)
    requires forall id :: id in s'.rows && s'.rows[id].parent.Some? ==> s'.rows[id].parent.value in Tenanted(s)
    ensures Invariant(s')
  {
    assert Tenanted(s) <= Tenanted(s');
    if s.creating.Some? {
      ExtendingKeepsCreation(s, s.creating.value, s');
    }
  }

  lemma {:induction false} RewritingKeepsForest(rows: Rows, id: Id, z: Zone)
    requires Forest(rows) && Live(rows, id) && z.name == rows[id].name && z.parent == rows[id].parent
    requires z.pool == rows[id].pool || !Taken(rows, z.name, z.pool)
    ensures Forest(rows[id := z])
  {
    var rows' := rows[id := z];
    assert Linked(rows');
    forall a, b | Live(rows', a) && Live(rows', b) && rows'[a].name == rows'[b].name && rows'[a].pool == rows'[b].pool
      ensures a == b
    {
      assert Live(rows, a) && Live(rows, b);
    }
  }

  lemma {:induction false} RewritingKeeps(s: State, id: Id, z: Zone, s': State)
    requires Invariant(s) && Rewrites(s, id, z, s')
    requires z.name == s.rows[id].name && z.parent == s.rows[id].parent
    requires z.tenant == NO_TENANT <==> s.rows[id].tenant == NO_TENANT
    requires z.pool == s.rows[id].pool || !Taken(s.rows, z.name, z.pool)
    ensures Invariant(s')
  {
    RewritingKeepsForest(s.rows, id, z);
    PreservingKeeps(s, s');
  }

  lemma {:induction false} SurvivorIsUsed(rows: Rows, batch: set<Id>, used: set<Id>, parent: Option<Id>)
    requires Named(rows) && Linked(rows) && batch <= rows.Keys
    requires forall id :: id in rows && rows[id].parent.Some? ==> rows[id].parent.value in used
    requires parent.Some? ==> parent.value in used
    ensures var s := Survivor(rows, batch, parent); s.Some? ==> s.value in used
    decreases if parent.Some? && parent.value in rows then |rows[parent.value].name| + 1 else 0
  {
    if parent.Some? && parent.value in batch {
      StepUpFrom(rows, parent.value);
      SurvivorIsUsed(rows, batch, used, rows[parent.value].parent);
    } else {
    }
  }

  lemma {:induction false} PurgedParentIsUsed(start: Rows, batch: set<Id>, ids: seq<Id>, used: set<Id>, x: Id)
    requires Forest(start) && batch <= start.Keys && forall id :: id in ids ==> id in batch
    requires forall id :: id in start && start[id].parent.Some? ==> start[id].parent.value in used
    requires x in PurgeAll(start, start, batch, ids)
    ensures var parent := PurgeAll(start, start, batch, ids)[x].parent; parent.Some? ==> parent.value in used
  {
    if ids == [] {
    } else {
      var last := ids[|ids| - 1];
      PurgedParentIsUsed(start, batch, ids[..|ids| - 1], used, x);
      SurvivorIsUsed(start, batch, used, start[last].parent);
    }
  }

  lemma {:induction false} PurgeStepKeeps(s: State, ids: seq<Id>, s': State)
    requires Invariant(s) && Step(s, Purge(ids), s')
    ensures Invariant(s')
  {
    PurgeKeepsForest(s.rows, ids);
    PurgeKeeps(s.rows, IdSet(ids), ids);
    forall id | id in s'.rows && s'.rows[id].parent.Some? ensures s'.rows[id].parent.value in Tenanted(s) {
      PurgedParentIsUsed(s.rows, IdSet(ids), ids, Tenanted(s), id);
    }
    PreservingKeeps(s, s');
  }

  lemma {:induction false} CreationStepKeeps(s: State, c: Creation, a: Action, s': State)
    requires Invariant(s) && s.creating == Some(c) && CreationStep(s, c, a, s')
    ensures Invariant(s')
  {
    match a
    case FindParent(pool, parent) => FindParentKeeps(s, c, pool, parent, s');
    case FindSubzones => FindSubzonesKeeps(s, c, s');
    case Insert(id) => InsertKeeps(s, c, id, s');
    case Hang(sub) => HangKeeps(s, c, sub, s');
    case EndCreation =>
  }

  lemma {:induction false} StepKeeps(s: State, a: Action, s': State)
    requires Invariant(s) && Step(s, a, s')
    ensures Invariant(s')
  {
    match a
    case CheckOwnership(name, tenant) => AdmittedIsCreatable(s.rows, name, tenant);
    case AddCatalog(id, name, pool) => AddCatalogKeeps(s, id, name, pool, s');
    case TransferZone(id, tenant) => RewritingKeeps(s, id, s'.rows[id], s');
    case MoveZone(id, pool) => RewritingKeeps(s, id, s'.rows[id], s');
    case UpdateZone(id) => RewritingKeeps(s, id, s'.rows[id], s');
    case DeleteZone(id) => RewritingKeeps(s, id, s'.rows[id], s');
    case RemoveZone(id) => RewritingKeeps(s, id, s'.rows[id], s');
    case Purge(ids) => PurgeStepKeeps(s, ids, s');
    case _ => CreationStepKeeps(s, s.creating.value, a, s');
  }

  // ---------------------------------------------------------------- one tenant per family of names

  ghost predicate Pending(s: State) {
    s.creating.Some? && !s.creating.value.phase.Stored?
  }

  /** A name that the ownership check for a new name looks at. */
  predicate Kin(other: string, name: string) {
    Related(other, name) || LikeBelow(other, name)
  }

  ghost predicate NoForeignKin(rows: Rows, name: string, tenant: nat) {
    forall id :: Live(rows, id) && Kin(rows[id].name, name) ==> rows[id].tenant == tenant
  }

  /** Live zones with related names have one tenant; the zone that is about to be stored counts as stored, and
      what the search for its subzones finds counts as related to it. */
  ghost predicate Shared(s: State) {
    Owned(s.rows) && (Pending(s) ==> NoForeignKin(s.rows, s.creating.value.name, s.creating.value.tenant))
  }

  /** The tenant of all other zones with names related to this one. */
  ghost predicate SoleTenant(s: State, id: Id, name: string, tenant: nat) {
    && (forall other :: Live(s.rows, other) && other != id && Related(s.rows[other].name, name) ==>
          s.rows[other].tenant == tenant)
    && (Pending(s) && Kin(name, s.creating.value.name) ==> s.creating.value.tenant == tenant)
  }

  /** Nothing checks these two operations. */
  ghost predicate Clean(s: State, a: Action) {
    match a
    case AddCatalog(id, name, _) => SoleTenant(s, id, name, NO_TENANT)
    case TransferZone(id, tenant) => id in s.rows ==> SoleTenant(s, id, s.rows[id].name, tenant)
    case _ => true
  }

  lemma {:induction false} AdmittedHasNoForeignKin(rows: Rows, name: string, tenant: nat)
    requires Owned(rows) && OwnershipClear(rows, name, tenant)
    ensures NoForeignKin(rows, name, tenant)
  {
    forall id | Live(rows, id) && Kin(rows[id].name, name) ensures rows[id].tenant == tenant {
      ClearMeansNoForeignRelative(rows, name, tenant, id);
    }
  }

  lemma {:induction false} InsertKeepsShared(s: State, c: Creation, id: Id, s': State)
    requires s.rows.Keys <= s.used && Shared(s) && s.creating == Some(c) && CreationStep(s, c, Insert(id), s')
    ensures Shared(s')
  {
    InsertKeepsOwned(s.rows, id, s'.rows[id]);
  }

  lemma {:induction false} CreationStepKeepsShared(s: State, c: Creation, a: Action, s': State)
    requires Invariant(s) && Shared(s) && s.creating == Some(c) && CreationStep(s, c, a, s')
    ensures Shared(s')
  {
    match a
    case FindParent(_, _) =>
    case FindSubzones =>
    case Insert(id) => InsertKeepsShared(s, c, id, s');
    case Hang(sub) => ShrinkingKeepsOwned(s.rows, s'.rows);
    case EndCreation =>
  }

  lemma {:induction false} RetaggingKeepsShared(s: State, id: Id, z: Zone, s': State)
    requires Shared(s) && Rewrites(s, id, z, s') && z.name == s.rows[id].name && SoleTenant(s, id, z.name, z.tenant)
    ensures Shared(s')
  {
    forall a, b | Live(s'.rows, a) && Live(s'.rows, b) && Related(s'.rows[a].name, s'.rows[b].name)
      ensures s'.rows[a].tenant == s'.rows[b].tenant
    {
      assert Live(s.rows, a) && Live(s.rows, b);
      assert Related(s.rows[b].name, s.rows[a].name);
    }
    assert forall other :: Live(s'.rows, other) ==> Live(s.rows, other);
  }

  lemma {:induction false} SharedMeansSole(s: State, id: Id)
    requires Shared(s) && Live(s.rows, id)
    ensures SoleTenant(s, id, s.rows[id].name, s.rows[id].tenant)
  {
  }

  lemma {:induction false} AddCatalogKeepsShared(s: State, id: Id, name: string, pool: nat, s': State)
    requires Invariant(s) && Shared(s) && Step(s, AddCatalog(id, name, pool), s') && SoleTenant(s, id, name, NO_TENANT)
    ensures Shared(s')
  {
    InsertKeepsOwned(s.rows, id, s'.rows[id]);
    if Pending(s) {
      assert CreationInvariant(s, s.creating.value);
    }
  }

  lemma {:induction false} PurgeKeepsShared(s: State, ids: seq<Id>, s': State)
    requires Invariant(s) && Shared(s) && Step(s, Purge(ids), s')
    ensures Shared(s')
  {
    PurgeKeeps(s.rows, IdSet(ids), ids);
    ShrinkingKeepsOwned(s.rows, s'.rows);
    assert forall id :: Live(s'.rows, id) ==> Live(s.rows, id);
  }

  lemma {:induction false} CleanKeepsShared(s: State, a: Action, s': State)
    requires Invariant(s) && Shared(s) && Step(s, a, s') && Clean(s, a)
    ensures Shared(s')
  {
    match a
    case CheckOwnership(name, tenant) => AdmittedHasNoForeignKin(s.rows, name, tenant);
    case AddCatalog(id, name, pool) => AddCatalogKeepsShared(s, id, name, pool, s');
    case TransferZone(id, _) => RetaggingKeepsShared(s, id, s'.rows[id], s');
    case MoveZone(id, _) =>
      SharedMeansSole(s, id);
      RetaggingKeepsShared(s, id, s'.rows[id], s');
    case UpdateZone(id) =>
      SharedMeansSole(s, id);
      RetaggingKeepsShared(s, id, s'.rows[id], s');
    case DeleteZone(id) =>
      SharedMeansSole(s, id);
      RetaggingKeepsShared(s, id, s'.rows[id], s');
    case RemoveZone(id) =>
      SharedMeansSole(s, id);
      RetaggingKeepsShared(s, id, s'.rows[id], s');
    case Purge(ids) => PurgeKeepsShared(s, ids, s');
    case _ => CreationStepKeepsShared(s, s.creating.value, a, s');
  }

  lemma {:induction false} UncleanBreaksShared(s: State, a: Action, s': State)
    requires Invariant(s) && Step(s, a, s') && !Clean(s, a)
    ensures !Shared(s')
  {
    var id := a.id;
    var name := s'.rows[id].name;
    assert Live(s'.rows, id);
    if other :| Live(s.rows, other) && other != id && Related(s.rows[other].name, name) &&
                s.rows[other].tenant != s'.rows[id].tenant {
      assert Live(s'.rows, other);
    } else {
      assert Pending(s');
    }
  }

  // ---------------------------------------------------------------- theorems over every run

  ghost predicate Run(states: seq<State>, actions: seq<Action>) {
    && |states| == |actions| + 1
    && states[0] == START
    && forall i :: 0 <= i < |actions| ==> Step(states[i], actions[i], states[i + 1])
  }

  lemma {:induction false} RunKeeps(states: seq<State>, actions: seq<Action>, n: nat)
    requires Run(states, actions) && n < |states|
    ensures Invariant(states[n])
  {
    if n == 0 {
    } else {
      var i := n - 1;
      RunKeeps(states, actions, i);
      assert Step(states[i], actions[i], states[i + 1]);
      StepKeeps(states[i], actions[i], states[n]);
    }
  }

  ghost predicate CleanUntil(states: seq<State>, actions: seq<Action>, n: nat)
    requires n <= |actions| < |states|
  {
    forall i :: 0 <= i < n ==> Clean(states[i], actions[i])
  }

  lemma {:induction false} CleanRunsShare(states: seq<State>, actions: seq<Action>, n: nat)
    requires Run(states, actions) && n < |states| && CleanUntil(states, actions, n)
    ensures Shared(states[n])
  {
    if n == 0 {
    } else {
      CleanRunsShare(states, actions, n - 1);
      RunKeeps(states, actions, n - 1);
      CleanKeepsShared(states[n - 1], actions[n - 1], states[n]);
    }
  }

  /** Related zones share their tenant in every state of a run exactly when no catalog zone is stored, and no zone
      transferred, next to a relative of another tenant. */
  lemma {:induction false} RelatedZonesShareTheirTenantExactly(states: seq<State>, actions: seq<Action>)
    requires Run(states, actions)
    ensures (forall n :: 0 <= n < |states| ==> Shared(states[n])) <==> CleanUntil(states, actions, |actions|)
  {
    if CleanUntil(states, actions, |actions|) {
      forall n | 0 <= n < |states| ensures Shared(states[n]) {
        CleanRunsShare(states, actions, n);
      }
    } else {
      var i :| 0 <= i < |actions| && !Clean(states[i], actions[i]);
      RunKeeps(states, actions, i);
      UncleanBreaksShared(states[i], actions[i], states[i + 1]);
    }
  }

  /** In every state of every run a live name is used once per pool. */
  lemma {:induction false} NamesAreUniquePerPool(states: seq<State>, actions: seq<Action>, n: nat, a: Id, b: Id)
    requires Run(states, actions) && n < |states|
    requires Live(states[n].rows, a) && Live(states[n].rows, b)
    requires states[n].rows[a].name == states[n].rows[b].name && states[n].rows[a].pool == states[n].rows[b].pool
    ensures a == b
  {
    RunKeeps(states, actions, n);
  }

  /** The zone keeps its name; its tenant, its pool and its removal change as these steps say and by no others. */
  ghost predicate KeepsZone(a: Action, x: Id, z: Zone, z': Zone) {
    && z'.name == z.name
    && z'.tenant == (if a.TransferZone? && a.id == x then a.tenant else z.tenant)
    && z'.pool == (if a.MoveZone? && a.id == x then a.pool else z.pool)
    && z'.deleted == (z.deleted || (a.RemoveZone? && a.id == x))
  }

  lemma {:induction false} CreationKeepsZone(s: State, c: Creation, a: Action, s': State, x: Id)
    requires CreationStep(s, c, a, s') && x in s.used && x in s'.rows
    ensures x in s.rows && KeepsZone(a, x, s.rows[x], s'.rows[x])
  {
  }

  lemma {:induction false} PurgeKeepsZone(s: State, ids: seq<Id>, s': State, x: Id)
    requires Step(s, Purge(ids), s') && x in s'.rows
    ensures x in s.rows && KeepsZone(Purge(ids), x, s.rows[x], s'.rows[x])
  {
    ChildrenMoveUp(s.rows, ids);
  }

  lemma {:induction false} StepKeepsZone(s: State, a: Action, s': State, x: Id)
    requires Step(s, a, s') && x in s.used && x in s'.rows
    ensures x in s.rows && KeepsZone(a, x, s.rows[x], s'.rows[x])
  {
    match a
    case CheckOwnership(_, _) =>
    case AddCatalog(_, _, _) =>
    case TransferZone(_, _) =>
    case MoveZone(_, _) =>
    case UpdateZone(_) =>
    case DeleteZone(_) =>
    case RemoveZone(_) =>
    case Purge(ids) => PurgeKeepsZone(s, ids, s', x);
    case _ => CreationKeepsZone(s, s.creating.value, a, s', x);
  }

  ghost predicate Transferred(actions: seq<Action>, m: nat, n: nat, x: Id)
    requires m <= n <= |actions|
  {
    exists k :: m <= k < n && actions[k].TransferZone? && actions[k].id == x
  }

  ghost predicate Moved(actions: seq<Action>, m: nat, n: nat, x: Id)
    requires m <= n <= |actions|
  {
    exists k :: m <= k < n && actions[k].MoveZone? && actions[k].id == x
  }

  lemma {:induction false} StepUsesMore(s: State, a: Action, s': State)
    requires Step(s, a, s')
    ensures s.used <= s'.used
  {
  }

  lemma {:induction false} RunKeepsZone(states: seq<State>, actions: seq<Action>, i: nat, x: Id)
    requires Run(states, actions) && i < |actions| && x in states[i].used && x in states[i + 1].rows
    ensures x in states[i].rows && KeepsZone(actions[i], x, states[i].rows[x], states[i + 1].rows[x])
  {
    StepKeepsZone(states[i], actions[i], states[i + 1], x);
  }

  lemma {:induction false} UsedGrows(states: seq<State>, actions: seq<Action>, m: nat, n: nat)
    requires Run(states, actions) && m <= n < |states|
    ensures states[m].used <= states[n].used
    decreases n
  {
    if m < n {
      var i := n - 1;
      UsedGrows(states, actions, m, i);
      StepUsesMore(states[i], actions[i], states[i + 1]);
    }
  }

  lemma {:induction false} RowsAreUsed(states: seq<State>, actions: seq<Action>, n: nat)
    requires Run(states, actions) && n < |states|
    ensures states[n].rows.Keys <= states[n].used
  {
    RunKeeps(states, actions, n);
  }

  /** Over every run: a zone that is there at two times was there in between, with the same name, and with the same
      tenant and in the same pool unless it was transferred or moved; a removed zone stays removed. */
  lemma {:induction false} ZonesStayThemselves(states: seq<State>, actions: seq<Action>, m: nat, n: nat, x: Id)
    requires Run(states, actions) && m <= n < |states| && x in states[m].rows && x in states[n].rows
    ensures var z, z' := states[m].rows[x], states[n].rows[x];
      && z'.name == z.name && (z.deleted ==> z'.deleted)
      && (z'.tenant != z.tenant ==> Transferred(actions, m, n, x))
      && (z'.pool != z.pool ==> Moved(actions, m, n, x))
    ensures forall k :: m <= k <= n ==> x in states[k].rows
    decreases n
  {
    if m < n {
      var i := n - 1;
      RowsAreUsed(states, actions, m);
      UsedGrows(states, actions, m, i);
      RunKeepsZone(states, actions, i, x);
      ZonesStayThemselves(states, actions, m, i, x);
    }
  }

  /** Between the check at m and state n the creation goes on and its row is not stored. */
  ghost predicate Underway(actions: seq<Action>, m: nat, n: nat) {
    m < n <= |actions| && actions[m].CheckOwnership? &&
    forall k :: m < k < n ==> !actions[k].EndCreation? && !actions[k].Insert?
  }

  lemma {:induction false} SameCreation(states: seq<State>, actions: seq<Action>, m: nat, n: nat)
    requires Run(states, actions) && Underway(actions, m, n)
    ensures var c := states[n].creating;
      c.Some? && !c.value.phase.Stored? && c.value.name == actions[m].name && c.value.tenant == actions[m].tenant
    decreases n
  {
    assert Step(states[n - 1], actions[n - 1], states[n]);
    if n == m + 1 {
    } else {
      SameCreation(states, actions, m, n - 1);
    }
  }

  /** Once a name has passed the ownership check, the lookups inside the pool, however many steps later, find only
      zones of its tenant. */
  lemma {:induction false} PoolRefusalsAreUnreachable(states: seq<State>, actions: seq<Action>, m: nat, n: nat,
                                                      pool: nat, parent: Option<Id>)
    requires Run(states, actions) && Underway(actions, m, n) && CleanUntil(states, actions, n)
    requires Nearest(states[n].rows, actions[m].name, pool, parent)
    ensures var c := Creation(actions[m].name, actions[m].tenant, Checked);
      ParentIsOwn(states[n].rows, c, parent) && SubzonesAreOwn(states[n].rows, c, pool)
  {
    CleanRunsShare(states, actions, n);
    SameCreation(states, actions, m, n);
  }

  /** In every state, also halfway through hanging subzones below a new zone, following parent links ends. */
  lemma {:induction false} ParentLinksEnd(states: seq<State>, actions: seq<Action>, n: nat, path: seq<Id>)
    requires Run(states, actions) && n < |states| && ParentPath(states[n].rows, path)
    ensures |path| <= 127
    ensures forall i, j :: 0 <= i < j < |path| ==> path[i] != path[j]
  {
    RunKeeps(states, actions, n);
    ParentPathsEnd(states[n].rows, path);
  }

  // ---------------------------------------------------------------- runs that show the limits

  function Last<T>(s: seq<T>): T
    requires s != []
  {
    s[|s| - 1]
  }

  lemma {:induction false} Extend(states: seq<State>, actions: seq<Action>, a: Action, s': State)
    requires Run(states, actions) && Step(Last(states), a, s')
    ensures Run(states + [s'], actions + [a])
  {
  }

  /** Nothing is above the new zone, and all zones are tenant 7's. */
  ghost predicate Free(s: State, name: string, id: Id) {
    && s.creating == None && Creatable(name) && id !in s.used && id !in s.rows
    && forall x :: x in s.rows ==> s.rows[x].tenant == 7 && s.rows[x].name != name && !Below(name, s.rows[x].name)
  }

  lemma {:induction false} CreatableIsRead(rows: Rows, name: string)
    requires Creatable(name)
    ensures !Misread(rows, name)
  {
    LevelIsReadable(name, name);
    forall text | Below(name, text) ensures Readable(text) {
      LevelIsReadable(name, text);
    }
  }

  lemma {:induction false} FreeIsAdmitted(s: State, name: string, pool: nat, id: Id)
    requires Free(s, name, id)
    ensures Admitted(s.rows, name, 7) && Nearest(s.rows, name, pool, None) &&
      !MisreadAbove(OnlyPool(s.rows, pool), name)
    ensures SubzonesAreOwn(s.rows, Creation(name, 7, Checked), pool) && !Taken(s.rows, name, pool)
  {
    CreatableIsRead(s.rows, name);
    CreatableIsRead(OnlyPool(s.rows, pool), name);
  }

  /** Creates a zone of tenant 7. */
  lemma {:induction false} CreationRun(states: seq<State>, actions: seq<Action>, name: string, pool: nat, id: Id)
    returns (states': seq<State>, actions': seq<Action>)
    requires Run(states, actions) && Free(Last(states), name, id)
    ensures Run(states', actions') && |states'| == |states| + 4
    ensures var s := Last(states);
      Last(states') == State(s.rows[id := Zone(name, 7, pool, None, false, false)], s.used + {id},
                             Some(Creation(name, 7, Stored(id, Subzones(s.rows, name, pool)))))
  {
    var s := Last(states);
    var c := Creation(name, 7, Checked);
    var todo := Subzones(s.rows, name, pool);
    FreeIsAdmitted(s, name, pool, id);
    var s1 := s.(creating := Some(c));
    Extend(states, actions, CheckOwnership(name, 7), s1);
    var s2 := s.(creating := Some(c.(phase := Placed(pool, None))));
    Extend(states + [s1], actions + [CheckOwnership(name, 7)], FindParent(pool, None), s2);
    var actions2 := actions + [CheckOwnership(name, 7)] + [FindParent(pool, None)];
    var s3 := s.(creating := Some(c.(phase := Collected(pool, None, todo))));
    Extend(states + [s1] + [s2], actions2, FindSubzones, s3);
    var s4 := State(s.rows[id := Zone(name, 7, pool, None, false, false)], s.used + {id},
                    Some(c.(phase := Stored(id, todo))));
    Extend(states + [s1] + [s2] + [s3], actions2 + [FindSubzones], Insert(id), s4);
    states' := states + [s1] + [s2] + [s3] + [s4];
    actions' := actions2 + [FindSubzones] + [Insert(id)];
  }

  function CatalogRows(top: string, mid: string): Rows {
    map[0 := Zone(mid, 7, 2, None, false, false), 1 := Zone(top, NO_TENANT, 1, None, false, false)]
  }

  lemma {:induction false} NearerZoneHides(rows: Rows, mid: string, low: string)
    requires rows.Keys == {0, 1} && rows[0] == Zone(mid, 7, 2, None, false, false)
    requires Below(low, mid) && |rows[1].name| < |mid|
    ensures OwnershipClear(rows, low, 7)
  {
    assert Above(rows, low, 0);
  }

  lemma {:induction false} CatalogIsOverlooked(top: string, mid: string, low: string)
    requires Creatable(low) && Below(low, mid) && Below(mid, top)
    ensures Admitted(CatalogRows(top, mid), low, 7) && Nearest(CatalogRows(top, mid), low, 1, Some(1))
  {
    var rows := CatalogRows(top, mid);
    BelowIsTransitive(low, mid, top);
    NearerZoneHides(rows, mid, low);
    CreatableIsRead(rows, low);
  }

  lemma {:induction false} CatalogRun(top: string, mid: string) returns (states: seq<State>, actions: seq<Action>)
    requires ZoneName(top) && Creatable(mid) && Below(mid, top)
    ensures Run(states, actions) && Last(states) == State(CatalogRows(top, mid), {0, 1}, None)
  {
    states, actions := CreationRun([START], [], mid, 2, 0);
    var s5 := Last(states).(creating := None);
    Extend(states, actions, EndCreation, s5);
    var s6 := State(CatalogRows(top, mid), s5.used + {1}, None);
    assert s6.rows == s5.rows[1 := Zone(top, NO_TENANT, 1, None, false, false)];
    Extend(states + [s5], actions + [EndCreation], AddCatalog(1, top, 1), s6);
    states, actions := states + [s5] + [s6], actions + [EndCreation] + [AddCatalog(1, top, 1)];
  }

  lemma {:induction false} CatalogSplitsOwnership(top: string, mid: string)
    requires Below(mid, top)
    ensures !Owned(CatalogRows(top, mid))
  {
    assert Related(CatalogRows(top, mid)[0].name, CatalogRows(top, mid)[1].name);
  }

  lemma {:induction false} CatalogStep(top: string, mid: string, low: string) returns (before: State, after: State)
    requires Creatable(low) && Below(mid, top) && Below(low, mid)
    ensures before == State(CatalogRows(top, mid), {0, 1}, None)
    ensures after.rows == CatalogRows(top, mid) && Step(before, CheckOwnership(low, 7), after)
  {
    before := State(CatalogRows(top, mid), {0, 1}, None);
    after := before.(creating := Some(Creation(low, 7, Checked)));
    CatalogIsOverlooked(top, mid, low);
  }

  /** A catalog zone stored above another tenant's zone: a name below both passes the ownership check, which stops
      at the nearer zone, and is refused in the catalog's pool. */
  lemma {:induction false} CatalogMakesPoolRefuse(top: string, mid: string, low: string)
    returns (states: seq<State>, actions: seq<Action>)
    requires ZoneName(top) && Creatable(mid) && Creatable(low) && Below(mid, top) && Below(low, mid)
    ensures Run(states, actions) && actions != [] && Last(actions) == CheckOwnership(low, 7)
    ensures Last(states).rows == CatalogRows(top, mid) && !Shared(Last(states))
    ensures Nearest(CatalogRows(top, mid), low, 1, Some(1))
    ensures !ParentIsOwn(CatalogRows(top, mid), Creation(low, 7, Checked), Some(1))
  {
    states, actions := CatalogRun(top, mid);
    CatalogIsOverlooked(top, mid, low);
    CatalogSplitsOwnership(top, mid);
    var before, after := CatalogStep(top, mid, low);
    Extend(states, actions, CheckOwnership(low, 7), after);
    states, actions := states + [after], actions + [CheckOwnership(low, 7)];
  }

  lemma {:induction false} NoNewRange(level: string, above: string)
    requires |level| == |above| && !StartsWith(level, "BETWEEN")
    requires forall k :: 0 <= k < |above| ==> above[k] == level[k] || above[k] == 'x'
    ensures !StartsWith(above, "BETWEEN")
  {
    var range := "BETWEEN";
    assert forall k :: 0 <= k < |range| ==> range[k] != 'x';
    if 7 <= |above| {
      var k :| 0 <= k < 7 && level[k] != range[k];
      assert above[..7][k] == above[k];
    }
  }

  /** Replacing an underscore makes no text look like a range. */
  lemma {:induction false} OddLevelIsNoRange(name: string, i: nat, text: string)
    requires NoRange(name) && i < |name| && name[i] == '_'
    requires text == name[i := 'x'] || Below(name[i := 'x'], text)
    ensures !StartsWith(text, "BETWEEN")
  {
    var other := name[i := 'x'];
    var p := |other| - |text|;
    var level := name[p..];
    assert text == other[p..];
    assert level == name || Below(name, level) by {
      if p > 0 {
        assert other[p - 1] == '.';
      }
    }
    NoNewRange(level, text);
  }

  lemma {:induction false} OddChildIsNoRange(name: string, i: nat, other: string)
    requires NoRange(name) && i < |name| && name[i] == '_' && other == name[i := 'x']
    ensures NoRange("x." + other)
  {
    var child := "x." + other;
    forall text | text == child || Below(child, text) ensures !StartsWith(text, "BETWEEN") {
      if text == child {
        assert |text| >= 7 ==> text[..7][0] == 'x';
      } else {
        BelowPrefixed(other, text);
        OddLevelIsNoRange(name, i, text);
      }
    }
  }

  /** A name that the search pattern for `name` finds although it is not below it. */
  lemma {:induction false} OddChild(name: string) returns (child: string)
    requires Creatable(name) && '_' in name && |name| <= 252
    ensures Creatable(child) && LikeBelow(child, name) && !Below(child, name) && !Below(name, child) && child != name
  {
    var i :| 0 <= i < |name| && name[i] == '_';
    var other := name[i := 'x'];
    child := "x." + other;
    ReplacedFits(name, i);
    PrefixedFits(other);
    OddChildIsNoRange(name, i, other);
    assert child[..|child| - 1][1] == '.';
    assert child[2..] == other;
    assert other[i] != name[i];
  }

  /** With an underscore in the new name, the search for its subzones can find a zone that is not below it,
      which is then hung below it. */
  lemma {:induction false} UnderscoreParentNeedNotBeSuffix(name: string)
    returns (states: seq<State>, actions: seq<Action>)
    requires Creatable(name) && '_' in name && |name| <= 252
    ensures Run(states, actions)
    ensures var rows := Last(states).rows;
      0 in rows && 1 in rows && rows[0].parent == Some(1) && rows[1].name == name && !Below(rows[0].name, name)
  {
    var child := OddChild(name);
    states, actions := CreationRun([START], [], child, 0, 0);
    var s5 := Last(states).(creating := None);
    Extend(states, actions, EndCreation, s5);
    states, actions := CreationRun(states + [s5], actions + [EndCreation], name, 0, 1);
    assert 0 in Subzones(s5.rows, name, 0);
    var s9 := Last(states);
    var c := s9.creating.value;
    var s10 := s9.(rows := Adopt(s9.rows, {0}, 1), creating := Some(c.(phase := Stored(1, c.phase.todo - {0}))));
    Extend(states, actions, Hang(0), s10);
    states, actions := states + [s10], actions + [Hang(0)];
  }

  ghost predicate LinksTo(rows: Rows, id: Id, name: string) {
    && id in rows && rows[id].parent.Some? && rows[id].parent.value in rows
    && rows[rows[id].parent.value].name == name
  }

  /** In every run, whatever hangs below a zone of this name has it as a strict label suffix. */
  ghost predicate HoldsOnlySuffixes(name: string) {
    forall states: seq<State>, actions: seq<Action>, n: nat, id: Id ::
      Run(states, actions) && n < |states| && LinksTo(states[n].rows, id, name) ==> Below(states[n].rows[id].name, name)
  }

  lemma {:induction false} LinkIsSuffix(s: State, id: Id, name: string)
    requires Invariant(s) && LinksTo(s.rows, id, name)
    requires '_' !in name || |name| > 252 || !Creatable(name)
    ensures Below(s.rows[id].name, name)
  {
    var parent := s.rows[id].parent.value;
    assert parent in Tenanted(s);
    if '_' !in name {
      ParentIsSuffix(s.rows, id);
    } else if |name| > 252 {
      StepUp(s.rows[id].name, name);
    }
  }

  /** Parent links lead to strict label suffixes exactly when the parent's name has no underscore, is too long to
      have anything below it, or is no name under which a zone can be created. */
  lemma {:induction false} ParentLinksAreSuffixesExactly(name: string)
    ensures HoldsOnlySuffixes(name) <==> '_' !in name || |name| > 252 || !Creatable(name)
  {
    if '_' !in name || |name| > 252 || !Creatable(name) {
      forall states: seq<State>, actions: seq<Action>, n: nat, id: Id
        | Run(states, actions) && n < |states| && LinksTo(states[n].rows, id, name)
        ensures Below(states[n].rows[id].name, name)
      {
        RunKeeps(states, actions, n);
        LinkIsSuffix(states[n], id, name);
      }
    } else {
      var states, actions := UnderscoreParentNeedNotBeSuffix(name);
      assert LinksTo(states[|states| - 1].rows, 0, name);
    }
  }
}
