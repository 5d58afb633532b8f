/** Changing the nameservers of a pool: the NS recordsets of all its zones are rewritten. */
module PoolNameservers {
  import opened Wrappers
  import opened ZoneStatus

  datatype Kind = Primary | Secondary | Catalog

  /** A zone and the hosts of the NS recordset at its apex, when it has one. */
  datatype Zone = Zone(pool: nat, kind: Kind, action: Action, status: Status,
                       incrementSerial: bool, delayedNotify: bool, ns: Option<set<string>>)

  type Zones = map<nat, Zone>

  datatype PoolError = PoolNotFound | DuplicateRecord | RecordSetNotFound | LastServerDeleteNotAllowed

  // ---------------------------------------------------------------- one zone

  predicate Live(z: Zone, pool: nat) {
    z.pool == pool && z.action != Delete
  }

  function Touched(z: Zone): Zone {
    z.(action := Update, status := Pending, incrementSerial := true, delayedNotify := true)
  }

  /** A zone without an NS recordset gets one if it is primary; the zone itself is not touched then. */
  function AddNs(z: Zone, host: string): Result<Zone, PoolError> {
    match z.ns
    case None => Ok(if z.kind == Primary then z.(ns := Some({host})) else z)
    case Some(hosts) => if host in hosts then Err(DuplicateRecord) else Ok(Touched(z).(ns := Some(hosts + {host})))
  }

  function DeleteNs(z: Zone, host: string): Result<Zone, PoolError> {
    match z.ns
    case None => Err(RecordSetNotFound)
    case Some(hosts) => Ok(Touched(z).(ns := Some(hosts - {host})))
  }

  /** What adding these hosts, in any order, comes to. */
  function AfterAdds(z: Zone, hosts: set<string>): Zone {
    if hosts == {} then z
    else match z.ns
      case None =>
        if z.kind != Primary then z
        else (if |hosts| > 1 then Touched(z) else z).(ns := Some(hosts))
      case Some(had) => Touched(z).(ns := Some(had + hosts))
  }

  function AfterDeletes(z: Zone, hosts: set<string>): Zone {
    if hosts == {} || z.ns.None? then z else Touched(z).(ns := Some(z.ns.value - hosts))
  }

  lemma {:induction false} OneMoreAdd(z: Zone, done: set<string>, host: string)
    requires host !in done && !(z.ns.Some? && host in z.ns.value)
    ensures AddNs(AfterAdds(z, done), host) == Ok(AfterAdds(z, done + {host}))
  {
    var all := done + {host};
    assert host in all;
    match z.ns
    case Some(had) =>
      assert had + done + {host} == had + all;
      assert done == {} ==> had + all == had + {host};
    case None =>
      assert |all| == |done| + 1;
      if done == {} {
        assert all == {host};
      } else {
        assert |done| > 0;
      }
  }

  lemma {:induction false} ClashingAdd(z: Zone, done: set<string>, host: string)
    requires z.ns.Some? && host in z.ns.value
    ensures AddNs(AfterAdds(z, done), host) == Err(DuplicateRecord)
  {
  }

  lemma {:induction false} OneMoreDelete(z: Zone, done: set<string>, host: string)
    requires z.ns.Some?
    ensures DeleteNs(AfterDeletes(z, done), host) == Ok(AfterDeletes(z, done + {host}))
  {
    assert host in done + {host};
    assert z.ns.value - done - {host} == z.ns.value - (done + {host});
    assert done == {} ==> z.ns.value - {host} == z.ns.value - (done + {host});
  }

  // ---------------------------------------------------------------- all zones of the pool

  /** The zone after a change of the pool's hosts from `had` to `wanted`: zones being deleted are left out of
      the additions but not of the removals. */
  function AfterChange(z: Zone, pool: nat, had: set<string>, wanted: set<string>): Zone {
    if z.pool != pool then z
    else AfterDeletes(if Live(z, pool) then AfterAdds(z, wanted - had) else z, had - wanted)
  }

  /** There is no NS recordset to remove hosts from, and the additions do not make one. */
  predicate Lacks(z: Zone, pool: nat, added: set<string>) {
    z.pool == pool && z.ns.None? && !(Live(z, pool) && z.kind == Primary && added != {})
  }

  /** A host to be added is there already. */
  predicate Clashes(z: Zone, pool: nat, added: set<string>) {
    Live(z, pool) && z.ns.Some? && z.ns.value * added != {}
  }

  /** Why the change is refused, if it is. */
  ghost function Problem(zones: Zones, pool: nat, had: set<string>, wanted: set<string>): Option<PoolError> {
    if exists id :: id in zones && Clashes(zones[id], pool, wanted - had) then Some(DuplicateRecord)
    else if wanted == {} && had != {} then Some(LastServerDeleteNotAllowed)
    else if had - wanted != {} && exists id :: id in zones && Lacks(zones[id], pool, wanted - had)
    then Some(RecordSetNotFound)
    else None
  }

  predicate Holds(z: Zone, pool: nat, host: string) {
    Live(z, pool) && z.ns.Some? && host in z.ns.value
  }

  /** A change that goes through leaves a primary zone with exactly the requested hosts if and only if the zone
      had none but old and requested hosts, and all that are both. */
  lemma {:induction false} ZonesFollowThePool(z: Zone, pool: nat, had: set<string>, wanted: set<string>)
    requires Live(z, pool) && z.ns.Some?
    ensures AfterChange(z, pool, had, wanted).ns == Some(wanted) <==>
            z.ns.value <= had + wanted && had * wanted <= z.ns.value
  {
    var result := z.ns.value + (wanted - had) - (had - wanted);
    var followed := AfterChange(z, pool, had, wanted);
    assert followed.ns == Some(result) by {
      if wanted - had == {} {
        assert z.ns.value + (wanted - had) == z.ns.value;
      }
      if had - wanted == {} {
        assert result == z.ns.value + (wanted - had);
      }
    }
    if z.ns.value <= had + wanted && had * wanted <= z.ns.value {
      forall h ensures h in result <==> h in wanted {
        assert h in had && h in wanted ==> h in had * wanted;
      }
      assert result == wanted;
    }
    if result == wanted {
      forall h | h in z.ns.value ensures h in had + wanted {
        assert h in result || h in had;
      }
      forall h | h in had * wanted ensures h in z.ns.value {
        assert h in result;
      }
    }
  }

  /** A zone that is being deleted is taken back into service exactly when the change removes a host. */
  lemma {:induction false} RemovalRevivesDeletingZones(z: Zone, pool: nat, had: set<string>, wanted: set<string>)
    requires z.pool == pool && z.action == Delete && z.ns.Some?
    ensures Live(AfterChange(z, pool, had, wanted), pool) <==> had - wanted != {}
  {
  }

  /** The zone is rewritten: it has an NS recordset that a host is added to or taken from, or gets one and is then
      changed again. */
  predicate IsRewritten(z: Zone, pool: nat, had: set<string>, wanted: set<string>) {
    && z.pool == pool
    && (had - wanted != {} || (z.action != Delete && if z.ns.Some? then wanted - had != {} else |wanted - had| > 1))
    && (z.ns.Some? || (z.action != Delete && z.kind == Primary && wanted - had != {}))
  }

  /** The hosts a zone has after the change, if it has any: what is added goes to zones in service alone. */
  function HostsAfter(z: Zone, pool: nat, had: set<string>, wanted: set<string>): Option<set<string>> {
    if z.pool != pool then z.ns
    else if z.action == Delete then (if z.ns.Some? then Some(z.ns.value - (had - wanted)) else None)
    else if z.ns.Some? then Some(z.ns.value + (wanted - had) - (had - wanted))
    else if z.kind == Primary && wanted - had != {} then Some(wanted - had)
    else None
  }

  /** What the change is to leave of a zone: the hosts, and, if the zone is rewritten at all, an update that is
      pending with a new serial to be given and a notification to be sent. Nothing else changes. */
  function Announced(z: Zone, pool: nat, had: set<string>, wanted: set<string>): Zone {
    if IsRewritten(z, pool, had, wanted)
    then Zone(z.pool, z.kind, Update, Pending, true, true, HostsAfter(z, pool, had, wanted))
    else z.(ns := HostsAfter(z, pool, had, wanted))
  }

  lemma {:induction false} SuppliedZoneIsAnnounced(z: Zone, pool: nat, had: set<string>, wanted: set<string>)
    requires z.pool == pool && z.ns.Some?
    ensures AfterChange(z, pool, had, wanted) == Announced(z, pool, had, wanted)
  {
    var hosts, added, removed := z.ns.value, wanted - had, had - wanted;
    if removed == {} {
      assert hosts - removed == hosts && hosts + added - removed == hosts + added;
    }
    if added == {} {
      assert hosts + added == hosts;
    }
  }

  lemma {:induction false} BareZoneIsAnnounced(z: Zone, pool: nat, had: set<string>, wanted: set<string>)
    requires z.pool == pool && z.ns.None? && (!Lacks(z, pool, wanted - had) || had - wanted == {})
    ensures AfterChange(z, pool, had, wanted) == Announced(z, pool, had, wanted)
  {
    assert (wanted - had) - (had - wanted) == wanted - had;
  }

  /** For every zone of a change that goes through. */
  lemma {:induction false} ChangesAreAnnounced(z: Zone, pool: nat, had: set<string>, wanted: set<string>)
    requires !Lacks(z, pool, wanted - had) || had - wanted == {}
    ensures AfterChange(z, pool, had, wanted) == Announced(z, pool, had, wanted)
  {
    if z.pool == pool {
      if z.ns.Some? {
        SuppliedZoneIsAnnounced(z, pool, had, wanted);
      } else {
        BareZoneIsAnnounced(z, pool, had, wanted);
      }
    }
  }

  // ---------------------------------------------------------------- in the middle of a change

  /** The additions are done for the hosts in `done` and, in the zones outside `left`, for one more. */
  ghost predicate Adding(zones: Zones, before: Zones, pool: nat, done: set<string>, host: string, left: set<nat>) {
    && zones.Keys == before.Keys
    && forall id :: id in before ==>
         zones[id] == if Live(before[id], pool) then AfterAdds(before[id], if id in left then done else done + {host})
                      else before[id]
  }

  ghost predicate Added(zones: Zones, before: Zones, pool: nat, done: set<string>) {
    && zones.Keys == before.Keys
    && forall id :: id in before ==>
         zones[id] == if Live(before[id], pool) then AfterAdds(before[id], done) else before[id]
  }

  ghost predicate Deleting(zones: Zones, mid: Zones, pool: nat, done: set<string>, host: string, left: set<nat>) {
    && zones.Keys == mid.Keys
    && forall id :: id in mid ==>
         zones[id] == if mid[id].pool == pool then AfterDeletes(mid[id], if id in left then done else done + {host})
                      else mid[id]
  }

  ghost predicate Removed(zones: Zones, mid: Zones, pool: nat, done: set<string>) {
    && zones.Keys == mid.Keys
    && forall id :: id in mid ==> zones[id] == if mid[id].pool == pool then AfterDeletes(mid[id], done) else mid[id]
  }

  lemma {:induction false} AddingGoesOn(zones: Zones, before: Zones, pool: nat, done: set<string>, host: string,
                                        left: set<nat>, id: nat)
    requires Adding(zones, before, pool, done, host, left) && id in left && id in before && Live(before[id], pool)
    ensures Adding(zones[id := AfterAdds(before[id], done + {host})], before, pool, done, host, left - {id})
  {
  }

  lemma {:induction false} DeletingGoesOn(zones: Zones, mid: Zones, pool: nat, done: set<string>, host: string,
                                          left: set<nat>, id: nat)
    requires Deleting(zones, mid, pool, done, host, left) && id in left && id in mid && mid[id].pool == pool
    ensures Deleting(zones[id := AfterDeletes(mid[id], done + {host})], mid, pool, done, host, left - {id})
  {
  }

  /** Every zone in service that had exactly the old hosts has some host. */
  ghost predicate Supplied(zones: Zones, before: Zones, pool: nat, had: set<string>) {
    forall id :: id in before && Live(before[id], pool) && before[id].ns == Some(had) ==>
      id in zones && zones[id].ns.Some? && zones[id].ns.value != {}
  }

  ghost predicate AlwaysSupplied(states: seq<Zones>, start: nat, before: Zones, pool: nat, had: set<string>) {
    had != {} ==> forall k :: start <= k < |states| ==> Supplied(states[k], before, pool, had)
  }

  lemma {:induction false} AddingKeepsSupply(zones: Zones, before: Zones, pool: nat, done: set<string>, host: string,
                                             left: set<nat>, had: set<string>)
    requires Adding(zones, before, pool, done, host, left) && had != {}
    ensures Supplied(zones, before, pool, had)
  {
    var h :| h in had;
    forall id | id in before && Live(before[id], pool) && before[id].ns == Some(had)
      ensures zones[id].ns.Some? && h in zones[id].ns.value
    {
    }
  }

  lemma {:induction false} DeletingKeepsSupply(zones: Zones, mid: Zones, before: Zones, pool: nat, done: set<string>,
                                               host: string, left: set<nat>, had: set<string>, wanted: set<string>)
    requires Added(mid, before, pool, wanted - had) && Deleting(zones, mid, pool, done, host, left)
    requires wanted != {} && done + {host} <= had - wanted
    ensures Supplied(zones, before, pool, had)
  {
    var h :| h in wanted;
    forall id | id in before && Live(before[id], pool) && before[id].ns == Some(had)
      ensures zones[id].ns.Some? && h in zones[id].ns.value
    {
      assert h in had || h in wanted - had;
    }
  }

  lemma {:induction false} SupplyGoesOn(states: seq<Zones>, zones: Zones, start: nat, before: Zones, pool: nat,
                                        had: set<string>)
    requires AlwaysSupplied(states, start, before, pool, had) && (had != {} ==> Supplied(zones, before, pool, had))
    ensures AlwaysSupplied(states + [zones], start, before, pool, had)
  {
  }

  lemma {:induction false} AddingGoesOnSupplied(states: seq<Zones>, zones: Zones, start: nat, before: Zones, pool: nat,
                                                done: set<string>, host: string, left: set<nat>, had: set<string>)
    requires AlwaysSupplied(states, start, before, pool, had) && Adding(zones, before, pool, done, host, left)
    ensures AlwaysSupplied(states + [zones], start, before, pool, had)
  {
    if had != {} {
      AddingKeepsSupply(zones, before, pool, done, host, left, had);
    }
    SupplyGoesOn(states, zones, start, before, pool, had);
  }

  lemma {:induction false} HeldHostsClash(zones: Zones, pool: nat, host: string, hosts: set<string>)
    requires host in hosts && exists id :: id in zones && Holds(zones[id], pool, host)
    ensures exists id :: id in zones && Clashes(zones[id], pool, hosts)
  {
    var id :| id in zones && Holds(zones[id], pool, host);
    assert host in zones[id].ns.value * hosts;
  }

  lemma {:induction false} NoClashWith(zones: Zones, pool: nat, done: set<string>, host: string)
    requires forall id :: id in zones ==> !Clashes(zones[id], pool, done)
    requires forall id :: id in zones ==> !Holds(zones[id], pool, host)
    ensures forall id :: id in zones ==> !Clashes(zones[id], pool, done + {host})
  {
    forall id | id in zones && Live(zones[id], pool) && zones[id].ns.Some?
      ensures zones[id].ns.value * (done + {host}) == zones[id].ns.value * done
    {
      assert !Holds(zones[id], pool, host);
    }
  }

  function Members(zones: Zones, pool: nat): set<nat> {
    set id | id in zones && zones[id].pool == pool
  }

  function LiveMembers(zones: Zones, pool: nat): set<nat> {
    set id | id in zones && Live(zones[id], pool)
  }

  lemma {:induction false} LackingAfterAdds(before: Zones, mid: Zones, pool: nat, hosts: set<string>)
    requires Added(mid, before, pool, hosts)
    ensures (exists id :: id in Members(mid, pool) && mid[id].ns.None?) <==>
            (exists id :: id in before && Lacks(before[id], pool, hosts))
  {
    forall id | id in before
      ensures (id in Members(mid, pool) && mid[id].ns.None?) <==> Lacks(before[id], pool, hosts)
    {
    }
  }

  lemma {:induction false} ChangedByBoth(before: Zones, mid: Zones, after: Zones, pool: nat, had: set<string>,
                                         wanted: set<string>)
    requires Added(mid, before, pool, wanted - had) && Removed(after, mid, pool, had - wanted)
    ensures after.Keys == before.Keys
    ensures forall id :: id in after ==> after[id] == AfterChange(before[id], pool, had, wanted)
  {
    forall id | id in before ensures mid[id].pool == before[id].pool {
    }
  }

  lemma {:induction false} NothingLeft(a: set<string>, b: set<string>)
    ensures a - b == {} <==> a <= b
  {
    if a - b == {} {
      forall x | x in a ensures x in b {
        assert x !in a - b;
      }
    }
  }

  /** A zone of the pool has no NS recordset and gets none: only a primary zone that is not being deleted does, when
      a host is added. */
  predicate WithoutHosts(z: Zone, pool: nat, nothingAdded: bool) {
    z.pool == pool && z.ns.None? && (z.action == Delete || z.kind != Primary || nothingAdded)
  }

  /** The first of these reasons to refuse a change that applies, or none: a zone in service has a host that is to be
      added, the last host is to go, or a host is to go and a zone has nothing to take it from. */
  lemma {:induction false} ChangesAreRefusedExactly(zones: Zones, pool: nat, had: set<string>, wanted: set<string>)
    ensures Problem(zones, pool, had, wanted) ==
            if exists id, host :: id in zones && Holds(zones[id], pool, host) && host in wanted && host !in had
            then Some(DuplicateRecord)
            else if had != {} && wanted == {} then Some(LastServerDeleteNotAllowed)
            else if !(had <= wanted) && exists id :: id in zones && WithoutHosts(zones[id], pool, wanted <= had)
            then Some(RecordSetNotFound)
            else None
  {
    forall id | id in zones
      ensures Clashes(zones[id], pool, wanted - had) <==>
              exists host :: Holds(zones[id], pool, host) && host in wanted && host !in had
    {
      if Clashes(zones[id], pool, wanted - had) {
        var host :| host in zones[id].ns.value * (wanted - had);
        assert Holds(zones[id], pool, host);
      }
      if host :| Holds(zones[id], pool, host) && host in wanted && host !in had {
        assert host in zones[id].ns.value * (wanted - had);
      }
    }
    NothingLeft(had, wanted);
    NothingLeft(wanted, had);
    forall id | id in zones
      ensures Lacks(zones[id], pool, wanted - had) <==> WithoutHosts(zones[id], pool, wanted <= had)
    {
    }
  }

  lemma {:induction false} AllAnnounced(before: Zones, pool: nat, had: set<string>, wanted: set<string>)
    requires Problem(before, pool, had, wanted) == None
    ensures forall id :: id in before ==>
              AfterChange(before[id], pool, had, wanted) == Announced(before[id], pool, had, wanted)
  {
    forall id | id in before
      ensures AfterChange(before[id], pool, had, wanted) == Announced(before[id], pool, had, wanted)
    {
      ChangesAreAnnounced(before[id], pool, had, wanted);
    }
  }

  // ---------------------------------------------------------------- the service

  class Central {
    var zones: Zones
    var pools: map<nat, set<string>>
    /** The zones after every single rewrite. */
    ghost var history: seq<Zones>

    constructor (zones: Zones, pools: map<nat, set<string>>)
      ensures this.zones == zones && this.pools == pools && history == []
    {
      this.zones, this.pools, history := zones, pools, [];
    }

    method UpdateZone(id: nat, z: Zone)
      modifies this`zones, this`history
      ensures zones == old(zones)[id := z] && history == old(history) + [zones]
    {
      zones := zones[id := z];
      history := history + [zones];
    }

    /** One host for one zone. */
    method AddNsTo(id: nat, pool: nat, host: string, ghost before: Zones, ghost done: set<string>, ghost left: set<nat>)
      returns (problem: Option<PoolError>)
      requires id in left && id in LiveMembers(before, pool) && host !in done
      requires Adding(zones, before, pool, done, host, left)
      modifies this`zones, this`history
      ensures problem == if Holds(before[id], pool, host) then Some(DuplicateRecord) else None
      ensures problem == None ==> Adding(zones, before, pool, done, host, left - {id})
      ensures history == if problem == None then old(history) + [zones] else old(history)
    {
      AddingGoesOn(zones, before, pool, done, host, left, id);
      if Holds(before[id], pool, host) {
        ClashingAdd(before[id], done, host);
      } else {
        OneMoreAdd(before[id], done, host);
      }
      var changed := AddNs(zones[id], host);
      if changed.Err? {
        return Some(changed.error);
      }
      UpdateZone(id, changed.value);
      return None;
    }

    /** One host for every zone of the pool that is not being deleted. */
    method AddNsEverywhere(pool: nat, host: string, ghost before: Zones, ghost done: set<string>,
                           ghost had: set<string>)
      returns (problem: Option<PoolError>)
      requires host !in done && Added(zones, before, pool, done)
      modifies this`zones, this`history
      ensures problem == None ==> Added(zones, before, pool, done + {host})
      ensures problem == None ==> forall id :: id in before ==> !Holds(before[id], pool, host)
      ensures problem != None ==>
                problem == Some(DuplicateRecord) && exists id :: id in before && Holds(before[id], pool, host)
      ensures old(history) <= history && AlwaysSupplied(history, |old(history)|, before, pool, had)
    {
      var left := LiveMembers(zones, pool);
      while left != {}
        invariant left <= LiveMembers(before, pool)
        invariant Adding(zones, before, pool, done, host, left)
        invariant forall id :: id in before && Holds(before[id], pool, host) ==> id in left
        invariant old(history) <= history && AlwaysSupplied(history, |old(history)|, before, pool, had)
        decreases left
      {
        var id :| id in left;
        ghost var seen := history;
        problem := AddNsTo(id, pool, host, before, done, left);
        if problem != None {
          return;
        }
        left := left - {id};
        AddingGoesOnSupplied(seen, zones, |old(history)|, before, pool, done, host, left, had);
      }
      return None;
    }

    /** One host less for one zone. */
    method DeleteNsFrom(id: nat, pool: nat, host: string, ghost mid: Zones, ghost done: set<string>,
                        ghost left: set<nat>)
      returns (problem: Option<PoolError>)
      requires id in left && id in mid && mid[id].pool == pool && Deleting(zones, mid, pool, done, host, left)
      modifies this`zones, this`history
      ensures problem == if mid[id].ns.None? then Some(RecordSetNotFound) else None
      ensures problem == None ==> Deleting(zones, mid, pool, done, host, left - {id})
      ensures history == if problem == None then old(history) + [zones] else old(history)
    {
      DeletingGoesOn(zones, mid, pool, done, host, left, id);
      var changed := DeleteNs(zones[id], host);
      if changed.Err? {
        return Some(changed.error);
      }
      OneMoreDelete(mid[id], done, host);
      UpdateZone(id, changed.value);
      return None;
    }

    /** One host less for every zone of the pool, those being deleted included. */
    method DeleteNsEverywhere(pool: nat, host: string, ghost mid: Zones, ghost done: set<string>,
                              ghost before: Zones, ghost had: set<string>, ghost wanted: set<string>)
      returns (problem: Option<PoolError>)
      requires Removed(zones, mid, pool, done) && Added(mid, before, pool, wanted - had)
      requires wanted != {} && done + {host} <= had - wanted
      modifies this`zones, this`history
      ensures problem == None ==> Removed(zones, mid, pool, done + {host})
      ensures problem == None ==> forall id :: id in Members(mid, pool) ==> mid[id].ns.Some?
      ensures problem != None ==>
                problem == Some(RecordSetNotFound) && exists id :: id in Members(mid, pool) && mid[id].ns.None?
      ensures old(history) <= history && AlwaysSupplied(history, |old(history)|, before, pool, had)
    {
      var left := Members(zones, pool);
      while left != {}
        invariant left <= Members(mid, pool)
        invariant Deleting(zones, mid, pool, done, host, left)
        invariant forall id :: id in Members(mid, pool) - left ==> mid[id].ns.Some?
        invariant old(history) <= history && AlwaysSupplied(history, |old(history)|, before, pool, had)
        decreases left
      {
        var id :| id in left;
        ghost var seen := history;
        problem := DeleteNsFrom(id, pool, host, mid, done, left);
        if problem != None {
          return;
        }
        left := left - {id};
        DeletingKeepsSupply(zones, mid, before, pool, done, host, left, had, wanted);
        SupplyGoesOn(seen, zones, |old(history)|, before, pool, had);
      }
      return None;
    }

    method AddHosts(pool: nat, had: set<string>, wanted: set<string>) returns (problem: Option<PoolError>)
      modifies this`zones, this`history
      ensures problem == None ==> Added(zones, old(zones), pool, wanted - had)
      ensures problem == None ==> forall id :: id in old(zones) ==> !Clashes(old(zones)[id], pool, wanted - had)
      ensures problem != None ==>
                && problem == Some(DuplicateRecord)
                && exists id :: id in old(zones) && Clashes(old(zones)[id], pool, wanted - had)
      ensures old(history) <= history && AlwaysSupplied(history, |old(history)|, old(zones), pool, had)
    {
      var create := wanted - had;
      ghost var done: set<string> := {};
      while create != {}
        invariant done + create == wanted - had && done !! create
        invariant Added(zones, old(zones), pool, done)
        invariant forall id :: id in old(zones) ==> !Clashes(old(zones)[id], pool, done)
        invariant old(history) <= history && AlwaysSupplied(history, |old(history)|, old(zones), pool, had)
        decreases create
      {
        var host :| host in create;
        problem := AddNsEverywhere(pool, host, old(zones), done, had);
        if problem != None {
          HeldHostsClash(old(zones), pool, host, wanted - had);
          return;
        }
        create := create - {host};
        NoClashWith(old(zones), pool, done, host);
        done := done + {host};
      }
      return None;
    }

    method DeleteHosts(pool: nat, had: set<string>, wanted: set<string>, ghost before: Zones)
      returns (problem: Option<PoolError>)
      requires Added(zones, before, pool, wanted - had)
      modifies this`zones, this`history
      ensures problem == None ==> Removed(zones, old(zones), pool, had - wanted)
      ensures problem == if had - wanted == {} then None
                         else if wanted == {} then Some(LastServerDeleteNotAllowed)
                         else if exists id :: id in Members(old(zones), pool) && old(zones)[id].ns.None?
                         then Some(RecordSetNotFound)
                         else None
      ensures old(history) <= history && AlwaysSupplied(history, |old(history)|, before, pool, had)
    {
      var obsolete := had - wanted;
      ghost var mid, done: set<string> := zones, {};
      while obsolete != {}
        invariant done + obsolete == had - wanted && done !! obsolete
        invariant Removed(zones, mid, pool, done)
        invariant done != {} ==> wanted != {} && forall id :: id in Members(mid, pool) ==> mid[id].ns.Some?
        invariant old(history) <= history && AlwaysSupplied(history, |old(history)|, before, pool, had)
        decreases obsolete
      {
        if wanted == {} {
          return Some(LastServerDeleteNotAllowed);
        }
        var host :| host in obsolete;
        problem := DeleteNsEverywhere(pool, host, mid, done, before, had, wanted);
        if problem != None {
          return;
        }
        obsolete := obsolete - {host};
        done := done + {host};
      }
      return None;
    }

    /** Sets the hosts of a pool. When any step fails, the transaction leaves everything as it was. */
    method UpdatePool(pool: nat, nsRecords: Option<set<string>>) returns (problem: Option<PoolError>)
      modifies this
      ensures problem == if pool !in old(pools) then Some(PoolNotFound)
                         else if nsRecords.None? then None
                         else Problem(old(zones), pool, old(pools)[pool], nsRecords.value)
      ensures problem != None || nsRecords.None? ==> zones == old(zones) && pools == old(pools)
      ensures problem == None && nsRecords.Some? ==>
                && pools == old(pools)[pool := nsRecords.value]
                && zones.Keys == old(zones).Keys
                && forall id :: id in zones ==>
                     zones[id] == AfterChange(old(zones)[id], pool, old(pools)[pool], nsRecords.value) ==
                     Announced(old(zones)[id], pool, old(pools)[pool], nsRecords.value)
      ensures pool in old(pools) ==>
                old(history) <= history && AlwaysSupplied(history, |old(history)|, old(zones), pool, old(pools)[pool])
    {
      if pool !in pools {
        return Some(PoolNotFound);
      }
      var saved, savedPools := zones, pools;
      var had := pools[pool];
      if nsRecords.None? {
        return None;
      }
      var wanted := nsRecords.value;
      pools := pools[pool := wanted];
      problem := AddHosts(pool, had, wanted);
      if problem != None {
        zones, pools := saved, savedPools;
        return;
      }
      ghost var mid := zones;
      problem := DeleteHosts(pool, had, wanted, saved);
      LackingAfterAdds(saved, mid, pool, wanted - had);
      if problem != None {
        zones, pools := saved, savedPools;
        return;
      }
      ChangedByBoth(saved, mid, zones, pool, had, wanted);
      AllAnnounced(saved, pool, had, wanted);
    }
  }
}
