/** Where recordsets may be placed in a zone: the check made when they are created or updated, over whole runs. */
module RecordSetPlacement {
  import opened Sequences
  import opened StorageCriteria
  import opened Wrappers

  import DnsNames

  const CNAME := "CNAME"

  /** A stored recordset. The reversed name is written when the row is created and not afterwards. */
  datatype RecordSet = RecordSet(name: string, kind: string, reverse: string, records: seq<string>)

  type Rows = map<nat, RecordSet>

  datatype Error = Refused | InvalidLocation | TooManyRecords | Duplicate | NotFound

  /** Requests on one zone; `admitted` stands for the checks that do not look at the recordsets of the zone and for
      names that the storage can search for.
      An update without records leaves the stored ones alone. */
  datatype Event =
    | Create(id: nat, name: string, kind: string, records: seq<string>, admitted: bool)
    | Update(id: nat, name: string, newRecords: Option<seq<string>>, admitted: bool)
    | Delete(id: nat, admitted: bool)

  // ---------------------------------------------------------------- looking recordsets up

  /** Names that begin with an asterisk are looked up by the reversed name. */
  predicate Matches(r: RecordSet, name: string) {
    if Wildcard(name) then r.reverse == Reverse(name) else r.name == name
  }

  function Found(rows: Rows, name: string, kind: string): set<nat> {
    set id | id in rows && Matches(rows[id], name) && (kind != CNAME ==> rows[id].kind == CNAME)
  }

  predicate InZone(apex: string, name: string) {
    name == apex || DnsNames.Below(name, apex)
  }

  /** Nothing under the name stands in the way: a CNAME is not at the apex, and two recordsets of which one is a
      CNAME are not found side by side. */
  ghost predicate StandsAlone(apex: string, rows: Rows, name: string, kind: string, own: Option<nat>) {
    && !(kind == CNAME && name == apex)
    && forall id :: id in rows && Matches(rows[id], name) && (kind == CNAME || rows[id].kind == CNAME) ==>
      own == Some(id)
  }

  /** Testing how many recordsets are found amounts to this: nothing but the recordset itself is found. */
  lemma {:induction false} PlacementMeansNoOther(rows: Rows, name: string, kind: string, own: Option<nat>)
    ensures var found := Found(rows, name, kind);
            !(|found| == 1 && (own == None || own.value !in found)) && !(|found| > 1) <==>
            forall id :: id in found ==> own == Some(id)
  {
    var found := Found(rows, name, kind);
    if !(|found| == 1 && (own == None || own.value !in found)) && !(|found| > 1) {
      forall id | id in found ensures own == Some(id) {
        assert |found - {id}| == 0;
        assert found == {id};
      }
    }
    if forall id :: id in found ==> own == Some(id) {
      if id :| id in found {
        assert found == {id};
      }
    }
  }

  // ---------------------------------------------------------------- requests

  predicate Taken(rows: Rows, name: string, kind: string, own: Option<nat>) {
    exists id :: id in rows && own != Some(id) && rows[id].name == name && rows[id].kind == kind
  }

  ghost function Misplaced(apex: string, rows: Rows, name: string, kind: string, own: Option<nat>,
                           records: Option<seq<string>>)
    : Option<Error>
  {
    if !InZone(apex, name) || !StandsAlone(apex, rows, name, kind, own) then Some(InvalidLocation)
    else if records.Some? && |records.value| > 1 && kind == CNAME then Some(TooManyRecords)
    else None
  }

  ghost function Validated(apex: string, rows: Rows, name: string, kind: string, own: Option<nat>,
                           records: Option<seq<string>>)
    : Option<Error>
  {
    var problem := Misplaced(apex, rows, name, kind, own, records);
    if problem.Some? then problem
    else if Taken(rows, name, kind, own) then Some(Duplicate)
    else None
  }

  ghost function Apply(apex: string, rows: Rows, e: Event): Result<Rows, Error> {
    if !e.admitted then Err(Refused)
    else match e
      case Create(id, name, kind, records, _) =>
        if id in rows then Err(Duplicate)
        else
          var problem := Validated(apex, rows, name, kind, None, Some(records));
          if problem.Some? then Err(problem.value)
          else Ok(rows[id := RecordSet(name, kind, Reverse(name), records)])
      case Update(id, name, newRecords, _) =>
        if id !in rows then Err(NotFound)
        else
          var was := rows[id];
          var problem := Validated(apex, rows, name, was.kind, Some(id), newRecords);
          if problem.Some? then Err(problem.value)
          else Ok(rows[id := was.(name := name, records := if newRecords.Some? then newRecords.value else was.records)])
      case Delete(id, _) =>
        if id !in rows then Err(NotFound) else Ok(rows - {id})
  }

  ghost function Step(apex: string, rows: Rows, e: Event): Rows {
    match Apply(apex, rows, e) case Ok(after) => after case Err(_) => rows
  }

  ghost function Run(apex: string, rows: Rows, events: seq<Event>): Rows
    decreases |events|
  {
    if events == [] then rows else Run(apex, Step(apex, rows, events[0]), events[1..])
  }

  // ---------------------------------------------------------------- what is kept

  /** A CNAME shares its name with nothing, is not at the apex, and has one record at most. */
  ghost predicate Placed(apex: string, rows: Rows) {
    && (forall id :: id in rows && rows[id].kind == CNAME ==> rows[id].name != apex && |rows[id].records| <= 1)
    && (forall id, other :: id in rows && other in rows && id != other && rows[id].kind == CNAME ==>
          rows[other].name != rows[id].name)
  }

  ghost predicate Sound(apex: string, rows: Rows) {
    && Placed(apex, rows)
    && forall id :: id in rows ==> InZone(apex, rows[id].name)
  }

  /** Recordsets with wildcard names can be found. */
  ghost predicate Indexed(rows: Rows) {
    forall id :: id in rows && Wildcard(rows[id].name) ==> rows[id].reverse == Reverse(rows[id].name)
  }

  /** Gives a recordset a wildcard name under which it cannot be looked up. */
  ghost predicate LosesIndex(apex: string, rows: Rows, e: Event) {
    && e.Update? && Wildcard(e.name) && Apply(apex, rows, e).Ok?
    && rows[e.id].reverse != Reverse(e.name)
  }

  lemma {:induction false} StoredIsPlaced(apex: string, rows: Rows, id: nat, r: RecordSet)
    requires Sound(apex, rows) && Indexed(rows)
    requires InZone(apex, r.name) && (r.kind == CNAME ==> |r.records| <= 1)
    requires StandsAlone(apex, rows, r.name, r.kind, if id in rows then Some(id) else None)
    ensures Sound(apex, rows[id := r])
  {
    forall other | other in rows && other != id && (r.kind == CNAME || rows[other].kind == CNAME)
      ensures rows[other].name != r.name
    {
      assert !Matches(rows[other], r.name);
    }
  }

  /** While every wildcard can be found, no request misplaces a recordset. */
  lemma {:induction false} RequestsKeepPlacement(apex: string, rows: Rows, e: Event)
    requires Sound(apex, rows) && Indexed(rows)
    ensures Sound(apex, Step(apex, rows, e))
    ensures Indexed(Step(apex, rows, e)) <==> !LosesIndex(apex, rows, e)
  {
    if Apply(apex, rows, e).Ok? {
      match e
      case Create(id, name, kind, records, _) =>
        StoredIsPlaced(apex, rows, id, RecordSet(name, kind, Reverse(name), records));
      case Update(id, name, newRecords, _) =>
        StoredIsPlaced(apex, rows, id, Step(apex, rows, e)[id]);
        assert Step(apex, rows, e)[id].reverse == rows[id].reverse;
      case Delete(id, _) =>
    }
  }

  ghost predicate KeepsIndex(apex: string, rows: Rows, events: seq<Event>) {
    forall k :: 0 <= k < |events| ==> !LosesIndex(apex, Run(apex, rows, events[..k]), events[k])
  }

  lemma {:induction false} RunKeepsPlacement(apex: string, rows: Rows, events: seq<Event>)
    requires Sound(apex, rows) && Indexed(rows) && KeepsIndex(apex, rows, events)
    ensures Sound(apex, Run(apex, rows, events)) && Indexed(Run(apex, rows, events))
    decreases |events|
  {
    if events == [] {
    } else {
      assert events[..0] == [];
      assert !LosesIndex(apex, Run(apex, rows, events[..0]), events[0]);
      RequestsKeepPlacement(apex, rows, events[0]);
      var next := Step(apex, rows, events[0]);
      forall k | 0 <= k < |events[1..]| ensures !LosesIndex(apex, Run(apex, next, events[1..][..k]), events[1..][k]) {
        assert events[..k + 1][1..] == events[1..][..k];
        assert !LosesIndex(apex, Run(apex, rows, events[..k + 1]), events[k + 1]);
      }
      RunKeepsPlacement(apex, next, events[1..]);
    }
  }

  /** Every run from an empty zone that gives no recordset a wildcard name it was not created with keeps CNAMEs
      alone, away from the apex and single. */
  lemma {:induction false} CnamesStandAlone(apex: string, events: seq<Event>)
    requires KeepsIndex(apex, map[], events)
    ensures Placed(apex, Run(apex, map[], events))
  {
    RunKeepsPlacement(apex, map[], events);
  }

  // ---------------------------------------------------------------- where it fails

  ghost predicate NoUpdates(events: seq<Event>) {
    forall k :: 0 <= k < |events| ==> !events[k].Update?
  }

  lemma {:induction false} RunAppend(apex: string, rows: Rows, events: seq<Event>, last: Event)
    ensures Run(apex, rows, events + [last]) == Step(apex, Run(apex, rows, events), last)
    decreases |events|
  {
    if events != [] {
      assert (events + [last])[0] == events[0] && (events + [last])[1..] == events[1..] + [last];
      RunAppend(apex, Step(apex, rows, events[0]), events[1..], last);
    } else {
      assert (events + [last])[1..] == [];
    }
  }

  lemma {:induction false} DeleteOthers(apex: string, rows: Rows, id: nat) returns (events: seq<Event>)
    requires id in rows
    ensures NoUpdates(events) && Run(apex, rows, events) == map[id := rows[id]]
    decreases rows.Keys
  {
    if other :| other in rows && other != id {
      var rest := rows - {other};
      assert other !in rest.Keys && rest.Keys < rows.Keys;
      var more := DeleteOthers(apex, rest, id);
      events := [Delete(other, true)] + more;
      assert events[1..] == more;
    } else {
      events := [];
      assert rows == map[id := rows[id]];
    }
  }

  /** Next to a wildcard recordset that cannot be found, a CNAME of the same name is let in. */
  lemma {:induction false} HiddenRecordSetIsJoined(apex: string, id: nat, r: RecordSet) returns (e: Event)
    requires Wildcard(r.name) && r.reverse != Reverse(r.name) && InZone(apex, r.name) && r.name != apex
    ensures e.Create? && !Placed(apex, Step(apex, map[id := r], e))
  {
    var kind := if r.kind == CNAME then "A" else CNAME;
    e := Create(id + 1, r.name, kind, [], true);
    var rows: Rows := map[id := r];
    assert !Taken(rows, r.name, kind, None);
    var after := Step(apex, rows, e);
    assert after == rows[id + 1 := RecordSet(r.name, kind, Reverse(r.name), [])];
    assert after[id].name == after[id + 1].name && (after[id].kind == CNAME || after[id + 1].kind == CNAME);
  }

  lemma {:induction false} UnindexedCanBeMisplaced(apex: string, rows: Rows) returns (events: seq<Event>)
    requires Sound(apex, rows) && !Wildcard(apex) && !Indexed(rows)
    ensures NoUpdates(events) && !Placed(apex, Run(apex, rows, events))
  {
    var id :| id in rows && Wildcard(rows[id].name) && rows[id].reverse != Reverse(rows[id].name);
    var deletes := DeleteOthers(apex, rows, id);
    var last := HiddenRecordSetIsJoined(apex, id, rows[id]);
    RunAppend(apex, rows, deletes, last);
    events := deletes + [last];
  }

  lemma {:induction false} CreatesAndDeletesKeepIndex(apex: string, rows: Rows, events: seq<Event>)
    requires NoUpdates(events)
    ensures KeepsIndex(apex, rows, events)
  {
  }

  /** From a sound state, creating and deleting recordsets can never misplace one exactly when every wildcard
      can be found; a rename to a wildcard name is what loses that. */
  lemma {:induction false} PlacementNeedsTheIndex(apex: string, rows: Rows)
    requires Sound(apex, rows) && !Wildcard(apex)
    ensures (forall events :: NoUpdates(events) ==> Placed(apex, Run(apex, rows, events))) <==> Indexed(rows)
  {
    if Indexed(rows) {
      forall events | NoUpdates(events) ensures Placed(apex, Run(apex, rows, events)) {
        CreatesAndDeletesKeepIndex(apex, rows, events);
        RunKeepsPlacement(apex, rows, events);
      }
    } else {
      var events := UnindexedCanBeMisplaced(apex, rows);
    }
  }

  /** The recordset under its new name, with the reversed old one. */
  function Renamed(name: string, kind: string, wild: string): Rows {
    map[1 := RecordSet(wild, kind, Reverse(name), [])]
  }

  lemma {:induction false} RenamedIsStored(apex: string, name: string, kind: string, wild: string)
    requires InZone(apex, name) && InZone(apex, wild) && name != wild && kind != CNAME
    ensures Step(apex, Step(apex, map[], Create(1, name, kind, [], true)), Update(1, wild, None, true)) ==
            Renamed(name, kind, wild)
  {
    var s1: Rows := map[1 := RecordSet(name, kind, Reverse(name), [])];
    assert Step(apex, map[], Create(1, name, kind, [], true)) == s1;
  }

  lemma {:induction false} CnameIsLetIn(apex: string, name: string, kind: string, wild: string, data: string)
    requires InZone(apex, wild) && wild != apex && Wildcard(wild) && name != wild && kind != CNAME
    ensures !Placed(apex, Step(apex, Renamed(name, kind, wild), Create(2, wild, CNAME, [data], true)))
  {
    ReverseDiffers(name, wild);
    var after := Step(apex, Renamed(name, kind, wild), Create(2, wild, CNAME, [data], true));
    assert after[1].name == after[2].name && after[2].kind == CNAME;
  }

  lemma {:induction false} ThreeSteps(apex: string, rows: Rows, e1: Event, e2: Event, e3: Event)
    ensures Run(apex, rows, [e1, e2, e3]) == Step(apex, Step(apex, Step(apex, rows, e1), e2), e3)
  {
    assert [e1, e2, e3][1..] == [e2, e3] && [e2, e3][1..] == [e3] && [e3][1..] == [];
    var s1 := Step(apex, rows, e1);
    var s2 := Step(apex, s1, e2);
    assert Run(apex, s2, [e3]) == Run(apex, Step(apex, s2, e3), []);
    assert Run(apex, s1, [e2, e3]) == Run(apex, s2, [e3]);
  }

  /** Create any recordset that is no CNAME, rename it to a wildcard and add a CNAME of that name: all three are
      let in. */
  lemma {:induction false} RenamedWildcardIsMissed(apex: string, name: string, kind: string, wild: string, data: string)
    requires InZone(apex, name) && InZone(apex, wild) && wild != apex && Wildcard(wild) && name != wild && kind != CNAME
    ensures var create, rename := Create(1, name, kind, [], true), Update(1, wild, None, true);
            var events := [create, rename, Create(2, wild, CNAME, [data], true)];
            !Placed(apex, Run(apex, map[], events))
  {
    var create, rename := Create(1, name, kind, [], true), Update(1, wild, None, true);
    ThreeSteps(apex, map[], create, rename, Create(2, wild, CNAME, [data], true));
    RenamedIsStored(apex, name, kind, wild);
    CnameIsLetIn(apex, name, kind, wild, data);
  }

  // ---------------------------------------------------------------- what is let in

  /** Every recordset is found under its own name and under no other. */
  ghost predicate UpToDate(rows: Rows) {
    forall id :: id in rows ==> rows[id].reverse == Reverse(rows[id].name)
  }

  /** The name, the type and the records of a recordset that could be added to these rows or replace one of them. */
  ghost predicate MayStand(apex: string, rows: Rows, name: string, kind: string, own: Option<nat>,
                           records: Option<seq<string>>) {
    && (name == apex || DnsNames.Below(name, apex))
    && (kind == CNAME ==> name != apex && (records.Some? ==> |records.value| <= 1))
    && forall id :: id in rows && own != Some(id) && rows[id].name == name ==>
         kind != CNAME && rows[id].kind != CNAME && rows[id].kind != kind
  }

  lemma {:induction false} FoundByName(rows: Rows, id: nat, name: string)
    requires UpToDate(rows) && id in rows
    ensures Matches(rows[id], name) <==> rows[id].name == name
  {
    if rows[id].name != name {
      ReverseDiffers(rows[id].name, name);
    }
  }

  lemma {:induction false} ValidExactly(apex: string, rows: Rows, name: string, kind: string, own: Option<nat>,
                                        records: Option<seq<string>>)
    requires UpToDate(rows)
    ensures Validated(apex, rows, name, kind, own, records) == None <==>
            MayStand(apex, rows, name, kind, own, records)
  {
    forall id | id in rows ensures Matches(rows[id], name) <==> rows[id].name == name {
      FoundByName(rows, id, name);
    }
  }

  /** A request is carried out exactly when it is admitted and what it makes may stand next to all other recordsets;
      it then stores what was asked for and changes nothing else. An update without records keeps the old ones. */
  lemma {:induction false} RequestsAreCarriedOutExactly(apex: string, rows: Rows, e: Event)
    requires UpToDate(rows) && (e.Create? ==> e.id !in rows)
    ensures Apply(apex, rows, e).Ok? <==>
            e.admitted && match e
                          case Create(_, name, kind, records, _) =>
                            MayStand(apex, rows, name, kind, None, Some(records))
                          case Update(id, name, records, _) =>
                            id in rows && MayStand(apex, rows, name, rows[id].kind, Some(id), records)
                          case Delete(id, _) => id in rows
    ensures Apply(apex, rows, e).Ok? ==>
      var after := Apply(apex, rows, e).value;
      && (forall id :: id in after <==> (id in rows && !(e.Delete? && id == e.id)) || (e.Create? && id == e.id))
      && (forall id :: id in rows && id != e.id ==> after[id] == rows[id])
      && (e.Create? ==> after[e.id] == RecordSet(e.name, e.kind, Reverse(e.name), e.records))
      && (e.Update? ==>
          after[e.id] == RecordSet(e.name, rows[e.id].kind, rows[e.id].reverse,
                                   if e.newRecords.Some? then e.newRecords.value else rows[e.id].records))
  {
    match e
    case Create(_, name, kind, records, _) => ValidExactly(apex, rows, name, kind, None, Some(records));
    case Update(id, name, records, _) =>
      if id in rows {
        ValidExactly(apex, rows, name, rows[id].kind, Some(id), records);
      }
    case Delete(_, _) =>
  }

  /** Recordsets stay up to date exactly as long as none is given another name. */
  lemma {:induction false} RenamesAreLeftBehind(apex: string, rows: Rows, e: Event)
    requires UpToDate(rows)
    ensures UpToDate(Step(apex, rows, e)) <==>
            !(e.Update? && Apply(apex, rows, e).Ok? && e.name != rows[e.id].name)
  {
    if e.Update? && Apply(apex, rows, e).Ok? {
      var after := Step(apex, rows, e);
      if e.name != rows[e.id].name {
        ReverseDiffers(e.name, rows[e.id].name);
        assert after[e.id].reverse == Reverse(rows[e.id].name);
      }
    }
  }

  ghost predicate DistinctKinds(rows: Rows) {
    forall a, b :: a in rows && b in rows && rows[a].name == rows[b].name && rows[a].kind == rows[b].kind ==> a == b
  }

  lemma {:induction false} RunKeepsDistinctKinds(apex: string, rows: Rows, events: seq<Event>)
    requires DistinctKinds(rows)
    ensures DistinctKinds(Run(apex, rows, events))
    decreases |events|
  {
    if events == [] {
    } else {
      RunKeepsDistinctKinds(apex, Step(apex, rows, events[0]), events[1..]);
    }
  }

  /** Over every run, renames included: a name has one recordset of a type. */
  lemma {:induction false} NamesAndTypesAreUnique(apex: string, events: seq<Event>, a: nat, b: nat)
    requires var rows := Run(apex, map[], events);
      a in rows && b in rows && rows[a].name == rows[b].name && rows[a].kind == rows[b].kind
    ensures a == b
  {
    RunKeepsDistinctKinds(apex, map[], events);
  }

  /** A recordset that was renamed away from a wildcard name still blocks that name: a CNAME is refused although
      nothing has the name any more. */
  lemma {:induction false} LeftWildcardIsBlocked(apex: string, name: string, wild: string, kind: string, data: string)
    requires InZone(apex, name) && InZone(apex, wild) && Wildcard(wild) && wild != apex && name != wild && kind != CNAME
    requires !Wildcard(name)
    ensures var rows := Run(apex, map[], [Create(1, wild, kind, [], true), Update(1, name, None, true)]);
      && rows.Keys == {1} && rows[1].name == name
      && MayStand(apex, rows, wild, CNAME, None, Some([data]))
      && Apply(apex, rows, Create(2, wild, CNAME, [data], true)) == Err(InvalidLocation)
  {
    var create, rename := Create(1, wild, kind, [], true), Update(1, name, None, true);
    RunAppend(apex, map[], [create], rename);
    RunAppend(apex, map[], [], create);
    assert [create] + [rename] == [create, rename] && [] + [create] == [create];
    RenamedIsStored(apex, wild, kind, name);
    assert Matches(Renamed(wild, kind, name)[1], wild);
  }

  // ---------------------------------------------------------------- the service

  class Central {
    const apex: string
    var rows: Rows

    constructor (apex: string)
      ensures rows == map[] && this.apex == apex
    {
      this.apex, rows := apex, map[];
    }

    /** Counts the recordsets that are found, as the storage returns them. */
    method IsValidRecordSetPlacement(name: string, kind: string, own: Option<nat>) returns (ok: bool)
      ensures kind == CNAME ==>
                (ok <==> name != apex && forall id :: id in rows && Matches(rows[id], name) ==> own == Some(id))
      ensures kind != CNAME ==>
                (ok <==> forall id :: id in rows && Matches(rows[id], name) && rows[id].kind == CNAME ==>
                  own == Some(id))
    {
      if kind == CNAME && name == apex {
        return false;
      }
      var found := Found(rows, name, kind);
      PlacementMeansNoOther(rows, name, kind, own);
      if (|found| == 1 && (own == None || own.value !in found)) || |found| > 1 {
        return false;
      }
      return true;
    }

    /** A misplaced recordset is refused for its place, whatever its records; a well-placed CNAME for having more
        than one record; nothing else is refused. */
    method ValidateRecordSet(name: string, kind: string, own: Option<nat>, records: Option<seq<string>>)
      returns (problem: Option<Error>)
      ensures problem == Some(InvalidLocation) <==> !(InZone(apex, name) && StandsAlone(apex, rows, name, kind, own))
      ensures problem == Some(TooManyRecords) <==>
                && InZone(apex, name) && StandsAlone(apex, rows, name, kind, own)
                && kind == CNAME && records.Some? && |records.value| > 1
      ensures problem.Some? ==> problem.value in {InvalidLocation, TooManyRecords}
    {
      if name != apex && !DnsNames.Below(name, apex) {
        return Some(InvalidLocation);
      }
      var ok := IsValidRecordSetPlacement(name, kind, own);
      if !ok {
        return Some(InvalidLocation);
      }
      if records.Some? && |records.value| > 1 && kind == CNAME {
        return Some(TooManyRecords);
      }
      return None;
    }

    method CreateRecordSet(id: nat, name: string, kind: string, records: seq<string>, admitted: bool)
      returns (problem: Option<Error>)
      requires id !in rows
      modifies this
      ensures match Apply(apex, old(rows), Create(id, name, kind, records, admitted))
              case Ok(after) => problem == None && rows == after
              case Err(e) => problem == Some(e) && rows == old(rows)
    {
      if !admitted {
        return Some(Refused);
      }
      problem := ValidateRecordSet(name, kind, None, Some(records));
      if problem.Some? {
        return;
      }
      if Taken(rows, name, kind, None) {
        return Some(Duplicate);
      }
      rows := rows[id := RecordSet(name, kind, Reverse(name), records)];
    }

    method UpdateRecordSet(id: nat, name: string, newRecords: Option<seq<string>>, admitted: bool)
      returns (problem: Option<Error>)
      modifies this
      ensures match Apply(apex, old(rows), Update(id, name, newRecords, admitted))
              case Ok(after) => problem == None && rows == after
              case Err(e) => problem == Some(e) && rows == old(rows)
    {
      if !admitted {
        return Some(Refused);
      }
      if id !in rows {
        return Some(NotFound);
      }
      var recordset := rows[id];
      problem := ValidateRecordSet(name, recordset.kind, Some(id), newRecords);
      if problem.Some? {
        return;
      }
      if Taken(rows, name, recordset.kind, Some(id)) {
        return Some(Duplicate);
      }
      recordset := recordset.(name := name);
      if newRecords.Some? {
        recordset := recordset.(records := newRecords.value);
      }
      rows := rows[id := recordset];
    }

    method DeleteRecordSet(id: nat, admitted: bool) returns (problem: Option<Error>)
      modifies this
      ensures match Apply(apex, old(rows), Delete(id, admitted))
              case Ok(after) => problem == None && rows == after
              case Err(e) => problem == Some(e) && rows == old(rows)
    {
      if !admitted {
        return Some(Refused);
      }
      if id !in rows {
        return Some(NotFound);
      }
      rows := rows - {id};
      return None;
    }
  }
}
