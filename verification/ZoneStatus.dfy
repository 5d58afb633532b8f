/** The status protocol between central and the workers.

    Edits stamp a zone and its records with an action, a status and a serial. Workers report later,
    in any order and any number of times, which serial the name servers reached. The zone is one row
    (absent once it is removed) and its records are rows under record ids. */
module ZoneStatus {
  import opened Wrappers

  datatype Action = Create | Update | Delete | NoAction
  datatype Status = Active | Pending | Failed | Deleted
  datatype Verdict = Success | Error | NoZone | Other

  type RecordId = nat

  /** The part of a zone row or of a record row that the protocol reads and writes. */
  datatype Row = Row(action: Action, status: Status, serial: nat)

  /** A worker's report. Without a tag it applies to whatever action is stored. */
  datatype Report = Report(verdict: Verdict, serial: nat, tag: Option<Action>)

  datatype State = State(zone: Option<Row>, records: map<RecordId, Row>)

  /** The records a recordset had and those it keeps or is given. */
  datatype Change = Change(have: set<RecordId>, keep: set<RecordId>)

  /** Moving a zone to another pool rewrites its NS recordset once for each nameserver that differs. Creating or
      deleting a zone schedules a new serial for the catalog zone of its pool; MemberChanged is that event as the
      catalog zone sees it. */
  datatype Event =
    | CreateRecordSet(ids: set<RecordId>, bump: bool, now: nat)
    | UpdateRecordSet(have: set<RecordId>, keep: set<RecordId>, bump: bool, now: nat)
    | RewriteNs(have: set<RecordId>, keep: set<RecordId>, now: nat)
    | DeleteRecordSet(ids: set<RecordId>, bump: bool, now: nat)
    | UpdateZone
    | DeleteZone
    | AbandonZone
    | MoveZone(changes: seq<Change>)
    | MemberChanged
    | IncrementSerial(soa: set<RecordId>, now: nat)
    | Reported(report: Report)

  // ---------------------------------------------------------------- one row, one report

  function Settled(row: Row): Row {
    match row.action
    case Create => row.(action := NoAction, status := Active)
    case Update => row.(action := NoAction, status := Active)
    case Delete => row.(action := NoAction, status := Deleted)
    case NoAction => row
  }

  /** What a report makes of one row. */
  function AfterReport(row: Row, verdict: Verdict, n: nat): Row {
    match verdict
    case Success =>
      if row.status in {Pending, Failed} && n >= row.serial then Settled(row) else row
    case Error =>
      if row.status == Pending && (n >= row.serial || n == 0) then row.(status := Failed) else row
    case NoZone =>
      if row.action in {Create, Update} then row.(action := Create, status := Failed)
      else if row.action == Delete then row.(action := NoAction, status := Deleted)
      else row
    case Other => row
  }

  /** The rows `_update_record_status` asks the storage for. */
  predicate Selected(row: Row, verdict: Verdict, n: nat) {
    match verdict
    case Success => row.status in {Pending, Failed} && row.serial <= n
    case Error => row.status == Pending && (n == 0 || row.serial <= n)
    case NoZone => true
    case Other => true
  }

  function AllAfterReport(records: map<RecordId, Row>, verdict: Verdict, n: nat): map<RecordId, Row> {
    map id | id in records :: AfterReport(records[id], verdict, n)
  }

  /** A zone or record as an object loaded from its row. */
  class Resource {
    var action: Action
    var status: Status
    var serial: nat
    var changed: bool

    constructor (row: Row)
      ensures AsRow() == row && !changed
    {
      action, status, serial, changed := row.action, row.status, row.serial, false;
    }

    function AsRow(): Row
      reads this
    {
      Row(action, status, serial)
    }

    method Assign(action: Action, status: Status)
      modifies this
      ensures this.action == action && this.status == status && changed && serial == old(serial)
    {
      this.action, this.status, changed := action, status, true;
    }

    method UpdateZoneOrRecordStatus(verdict: Verdict, n: nat)
      modifies this
      ensures AsRow() == AfterReport(old(AsRow()), verdict, n)
      ensures !changed ==> !old(changed) && AsRow() == old(AsRow())
    {
      if verdict == Success {
        if status in {Pending, Failed} && n >= serial {
          if action in {Create, Update} {
            Assign(NoAction, Active);
          } else if action == Delete {
            Assign(NoAction, Deleted);
          }
        }
      } else if verdict == Error {
        if status == Pending && (n >= serial || n == 0) {
          Assign(action, Failed);
        }
      } else if verdict == NoZone {
        if action in {Create, Update} {
          Assign(Create, Failed);
        } else if action == Delete {
          Assign(NoAction, Deleted);
        }
      }
    }
  }

  // ---------------------------------------------------------------- central

  predicate TagMatches(tag: Option<Action>, action: Action) {
    tag == None || tag.value == action
  }

  /** The verdict that the rest of `update_status` works with. */
  function EffectiveVerdict(zone: Row, r: Report): Verdict {
    if TagMatches(r.tag, zone.action) && zone.action == Delete && zone.status != Failed then NoZone else r.verdict
  }

  function ZoneAfterReport(zone: Row, r: Report): Row {
    if TagMatches(r.tag, zone.action) then AfterReport(zone, EffectiveVerdict(zone, r), r.serial) else zone
  }

  function Stored(zone: Row): Option<Row> {
    if zone.status == Deleted then None else Some(zone)
  }

  function Editing(zone: Option<Row>, bump: bool): Option<Row> {
    if zone.Some? && bump then Some(zone.value.(action := Update, status := Pending)) else zone
  }

  /** Records that are being deleted keep their stamp when their recordset is updated. */
  function Stamped(records: map<RecordId, Row>, ids: set<RecordId>, action: Action, serial: nat): map<RecordId, Row> {
    map id | id in records.Keys + ids ::
      if id in ids && !(action == Update && id in records && records[id].action == Delete)
      then Row(action, Pending, serial) else records[id]
  }

  lemma {:induction false} StampOneMore(records: map<RecordId, Row>, done: set<RecordId>, id: RecordId, action: Action,
                                        serial: nat)
    requires id !in done
    ensures var so := Stamped(records, done, action, serial);
      Stamped(records, done + {id}, action, serial) ==
      if action == Update && id in so && so[id].action == Delete then so else so[id := Row(action, Pending, serial)]
  {
  }

  predicate Editable(s: State) {
    s.zone.Some? && s.zone.value.action != Delete
  }

  /** A recordset keeps the records in `keep` and loses the others. */
  function Rewritten(s: State, have: set<RecordId>, keep: set<RecordId>, bump: bool, now: nat): State
    requires s.zone.Some?
  {
    State(Editing(s.zone, bump),
      Stamped(s.records - (have - keep), keep, Update, if bump then now else s.zone.value.serial))
  }

  /** Rewrites that leave the serial and the status of the zone alone. */
  function AllRewritten(s: State, changes: seq<Change>): (r: State)
    requires s.zone.Some?
    ensures r.zone == s.zone
  {
    if changes == [] then s
    else
      var front, last := changes[..|changes| - 1], changes[|changes| - 1];
      Rewritten(AllRewritten(s, front), last.have, last.keep, false, 0)
  }

  function Processed(s: State, r: Report): State {
    if s.zone.None? then s
    else State(Stored(ZoneAfterReport(s.zone.value, r)),
               AllAfterReport(s.records, EffectiveVerdict(s.zone.value, r), r.serial))
  }

  /** One operation of central. A missing or deleting zone refuses record edits, except that a change of the
      pool's nameservers rewrites the NS recordset of a deleting zone too. */
  function Apply(s: State, e: Event): State {
    match e
    case CreateRecordSet(ids, bump, now) =>
      if !Editable(s) then s else
      State(Editing(s.zone, bump && ids != {}),
        Stamped(s.records, ids, Create, if bump then now else s.zone.value.serial))
    case UpdateRecordSet(have, keep, bump, now) =>
      if !Editable(s) then s else Rewritten(s, have, keep, bump, now)
    case RewriteNs(have, keep, now) =>
      if s.zone.None? then s else Rewritten(s, have, keep, true, now)
    case DeleteRecordSet(ids, bump, _) =>
      if !Editable(s) then s else State(Editing(s.zone, bump), s.records - ids)
    case UpdateZone => s.(zone := Editing(s.zone, true))
    case DeleteZone =>
      if s.zone.None? then s else s.(zone := Some(s.zone.value.(action := Delete, status := Pending)))
    case AbandonZone => s.(zone := None)
    case MoveZone(changes) =>
      if s.zone.None? then s else AllRewritten(s, changes).(zone := Editing(s.zone, true))
    case MemberChanged => s.(zone := Editing(s.zone, true))
    case IncrementSerial(soa, now) =>
      if s.zone.None? then s else
      State(Some(s.zone.value.(serial := now)), Stamped(s.records, soa, Update, now))
    case Reported(r) => Processed(s, r)
  }

  /** Central's view of one zone: its row and its records' rows, rewritten in place. */
  class Central {
    var zone: Option<Row>
    var records: map<RecordId, Row>

    function View(): State
      reads this
    {
      State(zone, records)
    }

    constructor (serial: nat)
      ensures View() == State(Some(Row(Create, Pending, serial)), map[])
    {
      zone, records := Some(Row(Create, Pending, serial)), map[];
    }

    /** Only the selected records are loaded, and only changed ones are written back; the outcome is
        that of treating every record of the zone. */
    method UpdateRecordStatus(verdict: Verdict, n: nat)
      modifies this`records
      ensures records == AllAfterReport(old(records), verdict, n)
    {
      var found := set id | id in records && Selected(records[id], verdict, n);
      var todo := found;
      while todo != {}
        invariant todo <= found <= old(records).Keys == records.Keys
        invariant forall id :: id in records ==>
          records[id] ==
          if id in found && id !in todo then AfterReport(old(records)[id], verdict, n) else old(records)[id]
        decreases todo
      {
        var id :| id in todo;
        var record := new Resource(records[id]);
        record.UpdateZoneOrRecordStatus(verdict, n);
        if record.changed {
          records := records[id := record.AsRow()];
        }
        todo := todo - {id};
      }
    }

    method UpdateStatus(r: Report) returns (found: bool)
      modifies this
      ensures found == old(zone).Some?
      ensures View() == Apply(old(View()), Reported(r))
    {
      if zone.None? {
        return false;
      }
      var row := new Resource(zone.value);
      var verdict := r.verdict;
      if r.tag == None || row.action == r.tag.value {
        if row.action == Delete && row.status != Failed {
          verdict := NoZone;
        }
        row.UpdateZoneOrRecordStatus(verdict, r.serial);
      }
      if row.status == Deleted {
        zone := None;
      } else {
        zone := Some(row.AsRow());
      }
      UpdateRecordStatus(verdict, r.serial);
      return true;
    }

    method UpdateZoneInStorage(bump: bool)
      modifies this`zone
      ensures zone == Editing(old(zone), bump)
    {
      if zone.Some? && bump {
        zone := Some(zone.value.(action := Update, status := Pending));
      }
    }

    /** The loop that stamps the records of an edited recordset. */
    method StampRecords(ids: set<RecordId>, action: Action, serial: nat)
      modifies this`records
      ensures records == Stamped(old(records), ids, action, serial)
    {
      var todo := ids;
      assert Stamped(records, ids - todo, action, serial) == records;
      while todo != {}
        invariant todo <= ids
        invariant records == Stamped(old(records), ids - todo, action, serial)
        decreases todo
      {
        var id :| id in todo;
        StampOneMore(old(records), ids - todo, id, action, serial);
        assert ids - (todo - {id}) == (ids - todo) + {id};
        if !(action == Update && id in records && records[id].action == Delete) {
          records := records[id := Row(action, Pending, serial)];
        }
        todo := todo - {id};
      }
      assert ids - todo == ids;
    }

    method CreateRecordSetInStorage(ids: set<RecordId>, bump: bool, now: nat) returns (ok: bool)
      modifies this
      ensures ok == Editable(old(View()))
      ensures View() == Apply(old(View()), CreateRecordSet(ids, bump, now))
    {
      if zone.None? || zone.value.action == Delete {
        return false;
      }
      StampRecords(ids, Create, if bump then now else zone.value.serial);
      UpdateZoneInStorage(bump && ids != {});
      return true;
    }

    /** Does not ask whether the zone is being deleted; the callers that should, do. */
    method UpdateRecordSetInStorage(have: set<RecordId>, keep: set<RecordId>, bump: bool, now: nat)
      requires zone.Some?
      modifies this
      ensures View() == Rewritten(old(View()), have, keep, bump, now)
    {
      records := records - (have - keep);
      StampRecords(keep, Update, if bump then now else zone.value.serial);
      UpdateZoneInStorage(bump);
    }

    method UpdateRecordSet(have: set<RecordId>, keep: set<RecordId>, bump: bool, now: nat) returns (ok: bool)
      modifies this
      ensures ok == Editable(old(View()))
      ensures View() == Apply(old(View()), Event.UpdateRecordSet(have, keep, bump, now))
    {
      if zone.None? || zone.value.action == Delete {
        return false;
      }
      UpdateRecordSetInStorage(have, keep, bump, now);
      return true;
    }

    method DeleteRecordSetInStorage(ids: set<RecordId>, bump: bool, now: nat) returns (ok: bool)
      modifies this
      ensures ok == Editable(old(View()))
      ensures View() == Apply(old(View()), DeleteRecordSet(ids, bump, now))
    {
      if zone.None? || zone.value.action == Delete {
        return false;
      }
      StampRecords(ids, Delete, if bump then now else zone.value.serial);
      UpdateZoneInStorage(bump);
      records := records - ids;
      return true;
    }

    method DeleteZoneInStorage()
      modifies this`zone
      ensures View() == Apply(old(View()), DeleteZone)
    {
      if zone.Some? {
        zone := Some(zone.value.(action := Delete, status := Pending));
      }
    }

    /** Does not ask whether the zone is being deleted. */
    method PoolMoveZone(changes: seq<Change>)
      modifies this
      ensures View() == Apply(old(View()), MoveZone(changes))
    {
      if zone.None? {
        return;
      }
      for k := 0 to |changes|
        invariant zone.Some? && View() == AllRewritten(old(View()), changes[..k])
      {
        assert changes[..k + 1][..k] == changes[..k];
        UpdateRecordSetInStorage(changes[k].have, changes[k].keep, false, 0);
      }
      assert changes[..|changes|] == changes;
      UpdateZoneInStorage(true);
    }

    /** A catalog zone is put to an update whatever its action. */
    method EnsureCatalogZoneSerialIncrement()
      modifies this
      ensures View() == Apply(old(View()), MemberChanged)
    {
      UpdateZoneInStorage(true);
    }

    method IncrementZoneSerial(soa: set<RecordId>, now: nat)
      modifies this
      ensures View() == Apply(old(View()), IncrementSerial(soa, now))
    {
      if zone.Some? {
        zone := Some(zone.value.(serial := now));
        StampRecords(soa, Update, now);
      }
    }
  }

  // ---------------------------------------------------------------- confluence between edits

  /** Selecting rows in the storage query loses nothing: the rows left out are those a report keeps. */
  lemma {:induction false} SelectionIsExact(row: Row, verdict: Verdict, n: nat)
    ensures !Selected(row, verdict, n) ==> AfterReport(row, verdict, n) == row
    ensures verdict in {Success, Error} && Selected(row, verdict, n) && row.action != NoAction ==>
      AfterReport(row, verdict, n) != row
  {
  }

  predicate Routine(r: Report) { r.verdict in {Success, Error} }

  predicate AllRoutine(rs: seq<Report>) { forall r :: r in rs ==> Routine(r) }

  /** Rows as edits and reports leave them: what has an action is pending or has failed. */
  predicate Regular(row: Row) {
    row.action == NoAction || row.status in {Pending, Failed}
  }

  function Fold(row: Row, rs: seq<Report>): Row
    decreases |rs|
  {
    if rs == [] then row else Fold(AfterReport(row, rs[0].verdict, rs[0].serial), rs[1..])
  }

  ghost predicate Confirms(rs: seq<Report>, row: Row) {
    exists r :: r in rs && r.verdict == Success && r.serial >= row.serial
  }

  ghost predicate Complains(rs: seq<Report>, row: Row) {
    exists r :: r in rs && r.verdict == Error && (r.serial >= row.serial || r.serial == 0)
  }

  ghost predicate Misses(rs: seq<Report>) {
    exists r :: r in rs && r.verdict == NoZone
  }

  /** The order-free account of any number of reports. */
  ghost function Outcome(row: Row, rs: seq<Report>): Row {
    if row.status in {Pending, Failed} && row.action != NoAction && Confirms(rs, row) then Settled(row)
    else if row.action != NoAction && Misses(rs) then AfterReport(row, NoZone, 0)
    else if row.status == Pending && Complains(rs, row) then row.(status := Failed)
    else row
  }

  lemma {:induction false} OutcomeStep(row: Row, r: Report, rest: seq<Report>)
    requires Routine(r) || Regular(row)
    ensures Outcome(AfterReport(row, r.verdict, r.serial), rest) == Outcome(row, [r] + rest)
  {
    var next := AfterReport(row, r.verdict, r.serial);
    assert r in [r] + rest && forall x :: x in rest ==> x in [r] + rest;
    assert Confirms([r] + rest, row) == ((r.verdict == Success && r.serial >= row.serial) || Confirms(rest, next));
    assert Complains([r] + rest, row) ==
      ((r.verdict == Error && (r.serial >= row.serial || r.serial == 0)) || Complains(rest, next));
    assert Misses([r] + rest) == (r.verdict == NoZone || Misses(rest));
  }

  /** A row's fate depends on whether some success reached its serial, whether the zone was missing, and whether
      some error reached its serial; not on order and not on repetition. A success absorbs everything else, a
      missing zone absorbs errors. */
  lemma {:induction false} FoldIsOutcome(row: Row, rs: seq<Report>)
    requires AllRoutine(rs) || Regular(row)
    ensures Fold(row, rs) == Outcome(row, rs)
    decreases |rs|
  {
    if rs == [] {
    } else {
      FoldIsOutcome(AfterReport(row, rs[0].verdict, rs[0].serial), rs[1..]);
      OutcomeStep(row, rs[0], rs[1..]);
      assert rs == [rs[0]] + rs[1..];
    }
  }

  function BestSuccess(rs: seq<Report>): Option<nat> {
    if rs == [] then None
    else
      var best := BestSuccess(rs[1..]);
      if rs[0].verdict == Success && (best == None || best.value < rs[0].serial) then Some(rs[0].serial) else best
  }

  function ErrorSerials(rs: seq<Report>): set<nat> {
    set r | r in rs && r.verdict == Error :: r.serial
  }

  lemma {:induction false} BestSuccessIsLargest(rs: seq<Report>)
    ensures forall r :: r in rs && r.verdict == Success ==> BestSuccess(rs).Some? && r.serial <= BestSuccess(rs).value
    ensures BestSuccess(rs).Some? ==> exists r :: r in rs && r.verdict == Success && r.serial == BestSuccess(rs).value
  {
    if rs == [] {
    } else {
      BestSuccessIsLargest(rs[1..]);
      assert rs == [rs[0]] + rs[1..];
      if BestSuccess(rs).Some? {
        if BestSuccess(rs) == BestSuccess(rs[1..]) {
          var r :| r in rs[1..] && r.verdict == Success && r.serial == BestSuccess(rs).value;
          assert r in rs;
        } else {
          assert rs[0] in rs;
        }
      }
    }
  }

  lemma {:induction false} SummaryImplies(row: Row, rs: seq<Report>, rs': seq<Report>)
    requires BestSuccess(rs) == BestSuccess(rs') && ErrorSerials(rs) == ErrorSerials(rs')
    ensures Confirms(rs, row) ==> Confirms(rs', row)
    ensures Complains(rs, row) ==> Complains(rs', row)
  {
    BestSuccessIsLargest(rs);
    BestSuccessIsLargest(rs');
    if Complains(rs, row) {
      var r :| r in rs && r.verdict == Error && (r.serial >= row.serial || r.serial == 0);
      assert r.serial in ErrorSerials(rs');
    }
  }

  /** Two histories with the same largest success serial and the same error serials, both with or both without a
      missing zone, agree on every row. */
  lemma {:induction false} SummaryDecides(row: Row, rs: seq<Report>, rs': seq<Report>)
    requires (AllRoutine(rs) && AllRoutine(rs')) || Regular(row)
    requires BestSuccess(rs) == BestSuccess(rs') && ErrorSerials(rs) == ErrorSerials(rs')
    requires Misses(rs) <==> Misses(rs')
    ensures Fold(row, rs) == Fold(row, rs')
  {
    FoldIsOutcome(row, rs);
    FoldIsOutcome(row, rs');
    SummaryImplies(row, rs, rs');
    SummaryImplies(row, rs', rs);
  }

  // ---------------------------------------------------------------- runs

  function Run(s: State, es: seq<Event>): State {
    if es == [] then s else Apply(Run(s, es[..|es| - 1]), es[|es| - 1])
  }

  function Reports(rs: seq<Report>): (es: seq<Event>)
    ensures |es| == |rs| && forall i :: 0 <= i < |rs| ==> es[i] == Reported(rs[i])
  {
    seq(|rs|, i requires 0 <= i < |rs| => Reported(rs[i]))
  }

  function Matching(rs: seq<Report>, action: Action): seq<Report> {
    if rs == [] then []
    else (if TagMatches(rs[|rs| - 1].tag, action) then Matching(rs[..|rs| - 1], action) + [rs[|rs| - 1]]
          else Matching(rs[..|rs| - 1], action))
  }

  lemma {:induction false} MatchingMembers(rs: seq<Report>, action: Action)
    ensures forall r :: r in Matching(rs, action) <==> r in rs && TagMatches(r.tag, action)
  {
    if rs == [] {
    } else {
      MatchingMembers(rs[..|rs| - 1], action);
      assert rs == rs[..|rs| - 1] + [rs[|rs| - 1]];
    }
  }

  lemma {:induction false} FoldLast(row: Row, rs: seq<Report>, r: Report)
    ensures Fold(row, rs + [r]) == AfterReport(Fold(row, rs), r.verdict, r.serial)
    decreases |rs|
  {
    if rs == [] {
      assert [r][1..] == [];
    } else {
      assert (rs + [r])[1..] == rs[1..] + [r];
      FoldLast(AfterReport(row, rs[0].verdict, rs[0].serial), rs[1..], r);
    }
  }

  function FoldAll(records: map<RecordId, Row>, rs: seq<Report>): map<RecordId, Row> {
    map id | id in records :: Fold(records[id], rs)
  }

  lemma {:induction false} FoldAllLast(records: map<RecordId, Row>, rs: seq<Report>, r: Report)
    ensures FoldAll(records, rs + [r]) == AllAfterReport(FoldAll(records, rs), r.verdict, r.serial)
  {
    forall id | id in records
      ensures Fold(records[id], rs + [r]) == AfterReport(Fold(records[id], rs), r.verdict, r.serial)
    {
      FoldLast(records[id], rs, r);
    }
  }

  lemma {:induction false} LastReport(s: State, front: seq<Report>, r: Report)
    ensures Run(s, Reports(front + [r])) == Processed(Run(s, Reports(front)), r)
  {
    var es := Reports(front + [r]);
    assert es[..|es| - 1] == Reports(front) && es[|es| - 1] == Reported(r);
  }

  predicate Live(s: State) {
    s.zone.Some? && s.zone.value.action != Delete && s.zone.value.status != Deleted
  }

  // ---------------------------------------------------------------- reports on a zone that is not being deleted

  /** What reports of any kind make of the zone's own row, one after the other. */
  function ZoneFold(zone: Row, rs: seq<Report>): Row {
    if rs == [] then zone else ZoneAfterReport(ZoneFold(zone, rs[..|rs| - 1]), rs[|rs| - 1])
  }

  lemma {:induction false} ZoneFoldLast(zone: Row, front: seq<Report>, r: Report)
    ensures ZoneFold(zone, front + [r]) == ZoneAfterReport(ZoneFold(zone, front), r)
  {
    assert (front + [r])[..|front|] == front;
  }

  lemma {:induction false} ZoneStaysLive(zone: Row, rs: seq<Report>)
    requires zone.action != Delete && zone.status != Deleted
    ensures ZoneFold(zone, rs).action != Delete && ZoneFold(zone, rs).status != Deleted
  {
    if rs == [] {
    } else {
      ZoneStaysLive(zone, rs[..|rs| - 1]);
    }
  }

  lemma {:induction false} ProcessedAs(now: Row, records: map<RecordId, Row>, r: Report)
    requires now.action != Delete && now.status != Deleted
    ensures Processed(State(Some(now), records), r) ==
            State(Some(ZoneAfterReport(now, r)), AllAfterReport(records, r.verdict, r.serial))
  {
  }

  /** Reports act on the zone and on each of its records separately; the records see every report. */
  lemma {:induction false} ReportsActRowByRow(s: State, rs: seq<Report>)
    requires Live(s)
    ensures Run(s, Reports(rs)) == State(Some(ZoneFold(s.zone.value, rs)), FoldAll(s.records, rs))
  {
    if rs == [] {
      assert FoldAll(s.records, []) == s.records;
    } else {
      var r, front := rs[|rs| - 1], rs[..|rs| - 1];
      assert rs == front + [r];
      ReportsActRowByRow(s, front);
      LastReport(s, front, r);
      ZoneStaysLive(s.zone.value, front);
      ProcessedAs(ZoneFold(s.zone.value, front), FoldAll(s.records, front), r);
      FoldAllLast(s.records, front, r);
    }
  }

  /** A report that the zone is missing, applied to an update, turns the update into a creation. */
  ghost predicate Restarts(zone: Row, rs: seq<Report>) {
    zone.action == Update && exists r :: r in rs && r.verdict == NoZone && TagMatches(r.tag, Update)
  }

  /** The zone keeps the action it started from until that is settled. */
  ghost predicate Steady(zone: Row, rs: seq<Report>) {
    AllRoutine(rs) || (Regular(zone) && !Restarts(zone, rs))
  }

  lemma {:induction false} MatchingLast(front: seq<Report>, r: Report, action: Action)
    ensures Matching(front + [r], action) == Matching(front, action) + (if TagMatches(r.tag, action) then [r] else [])
  {
    assert (front + [r])[..|front|] == front;
  }

  lemma {:induction false} SteadyBefore(zone: Row, front: seq<Report>, r: Report)
    requires Steady(zone, front + [r])
    ensures Steady(zone, front)
  {
    assert forall x :: x in front ==> x in front + [r];
  }

  lemma {:induction false} SteadyAction(zone: Row, seen: seq<Report>)
    requires Steady(zone, seen) && forall x :: x in seen ==> TagMatches(x.tag, zone.action)
    requires zone.action != Delete
    ensures Fold(zone, seen).action in {zone.action, NoAction}
    ensures Fold(zone, seen).action == NoAction && zone.action != NoAction ==> Fold(zone, seen).status == Active
  {
    FoldIsOutcome(zone, seen);
  }

  lemma {:induction false} SteadyStep(zone: Row, front: seq<Report>, r: Report)
    requires zone.action != Delete && Steady(zone, front + [r])
    ensures ZoneAfterReport(Fold(zone, Matching(front, zone.action)), r) ==
      Fold(zone, Matching(front + [r], zone.action))
  {
    var seen := Matching(front, zone.action);
    var now := Fold(zone, seen);
    SteadyBefore(zone, front, r);
    MatchingMembers(front, zone.action);
    SteadyAction(zone, seen);
    MatchingLast(front, r, zone.action);
    FoldLast(zone, seen, r);
    assert seen + [] == seen;
  }

  /** A steady zone sees the reports tagged for the action it started from and no others. */
  lemma {:induction false} SteadyZoneSeesItsOwn(zone: Row, rs: seq<Report>)
    requires zone.action != Delete && Steady(zone, rs)
    ensures ZoneFold(zone, rs) == Fold(zone, Matching(rs, zone.action))
  {
    if rs == [] {
    } else {
      var r, front := rs[|rs| - 1], rs[..|rs| - 1];
      assert rs == front + [r];
      SteadyBefore(zone, front, r);
      SteadyZoneSeesItsOwn(zone, front);
      SteadyStep(zone, front, r);
    }
  }

  predicate Open(row: Row) {
    row.action in {Create, Update} && row.status in {Pending, Failed}
  }

  /** Nothing is left to be done about the record. */
  predicate Done(row: Row) {
    row.action == NoAction && row.status == Active
  }

  ghost predicate SameReports(rs: seq<Report>, rs': seq<Report>) {
    forall r :: r in rs <==> r in rs'
  }

  lemma {:induction false} FoldSeesTheSet(row: Row, rs: seq<Report>, rs': seq<Report>)
    requires (AllRoutine(rs) || Regular(row)) && SameReports(rs, rs')
    ensures Fold(row, rs) == Fold(row, rs')
  {
    FoldIsOutcome(row, rs);
    FoldIsOutcome(row, rs');
  }

  ghost predicate AllRegular(records: map<RecordId, Row>) {
    forall id :: id in records ==> Regular(records[id])
  }

  lemma {:induction false} RecordsSeeTheSet(records: map<RecordId, Row>, rs: seq<Report>, rs': seq<Report>)
    requires (AllRoutine(rs) || AllRegular(records)) && SameReports(rs, rs')
    ensures FoldAll(records, rs) == FoldAll(records, rs')
  {
    forall id | id in records ensures Fold(records[id], rs) == Fold(records[id], rs') {
      FoldSeesTheSet(records[id], rs, rs');
    }
  }

  /** Between edits the whole zone, row and records, ends the same way for every order and every duplication of
      the same reports, unless one of them can turn an update into a creation. */
  lemma {:induction false} ReportsAreConfluent(s: State, rs: seq<Report>, rs': seq<Report>)
    requires Live(s) && Steady(s.zone.value, rs) && (AllRoutine(rs) || AllRegular(s.records))
    requires SameReports(rs, rs')
    ensures Run(s, Reports(rs)) == Run(s, Reports(rs'))
  {
    var zone := s.zone.value;
    ReportsActRowByRow(s, rs);
    ReportsActRowByRow(s, rs');
    SteadyZoneSeesItsOwn(zone, rs);
    SteadyZoneSeesItsOwn(zone, rs');
    MatchingMembers(rs, zone.action);
    MatchingMembers(rs', zone.action);
    FoldSeesTheSet(zone, Matching(rs, zone.action), Matching(rs', zone.action));
    RecordsSeeTheSet(s.records, rs, rs');
  }

  /** Progress: once a success covers a record, an edit of it that was pending or had failed is settled, whatever
      other reports, also of a missing zone, came before or after it. */
  lemma {:induction false} ReportsSettle(s: State, rs: seq<Report>, r: Report, id: RecordId)
    requires Live(s) && r in rs && r.verdict == Success
    requires id in s.records && s.records[id].serial <= r.serial
    requires s.records[id].action != NoAction && s.records[id].status in {Pending, Failed}
    ensures id in Run(s, Reports(rs)).records
    ensures Run(s, Reports(rs)).records[id] == Settled(s.records[id])
  {
    ReportsActRowByRow(s, rs);
    FoldIsOutcome(s.records[id], rs);
  }

  // ---------------------------------------------------------------- when an update becomes a creation

  predicate Covers(r: Report, row: Row) {
    r.verdict == Success && r.serial >= row.serial
  }

  function Restarted(zone: Row): Row {
    zone.(action := Create, status := Failed)
  }

  /** The reports decide by their order: one of a missing zone turns the update into a creation, after which a
      success tagged for the update comes too late and before which one tagged for a creation comes too early,
      and no untagged success applies to both. */
  ghost predicate UpdateIsAmbiguous(zone: Row, rs: seq<Report>) {
    && Restarts(zone, rs)
    && (exists r :: r in rs && Covers(r, zone) && r.tag in {Some(Create), Some(Update)})
    && (forall r :: r in rs && Covers(r, zone) ==> r.tag != None)
  }

  lemma {:induction false} ZoneFoldOfSum(zone: Row, a: seq<Report>, b: seq<Report>)
    ensures ZoneFold(zone, a + b) == ZoneFold(ZoneFold(zone, a), b)
  {
    if b == [] {
      assert a + b == a;
    } else {
      var front, r := b[..|b| - 1], b[|b| - 1];
      ZoneFoldOfSum(zone, a, front);
      assert (a + b)[..|a + b| - 1] == a + front;
    }
  }

  lemma {:induction false} DoneZoneStays(zone: Row, rs: seq<Report>)
    requires Done(zone)
    ensures ZoneFold(zone, rs) == zone
  {
    if rs == [] {
    } else {
      DoneZoneStays(zone, rs[..|rs| - 1]);
    }
  }

  lemma {:induction false} OpenZoneMoves(zone: Row, rs: seq<Report>)
    requires Open(zone)
    ensures var now := ZoneFold(zone, rs); now == Settled(zone) || (Open(now) && now.serial == zone.serial)
  {
    if rs == [] {
    } else {
      OpenZoneMoves(zone, rs[..|rs| - 1]);
    }
  }

  /** An untagged success applies in any order. */
  lemma {:induction false} UntaggedSettles(zone: Row, rs: seq<Report>, r: Report)
    requires Open(zone) && r in rs && Covers(r, zone) && r.tag == None
    ensures ZoneFold(zone, rs) == Settled(zone)
  {
    var front := rs[..|rs| - 1];
    if r in front {
      UntaggedSettles(zone, front, r);
    } else {
      OpenZoneMoves(zone, front);
    }
  }

  ghost predicate NoneCovers(zone: Row, rs: seq<Report>) {
    forall r :: r in rs && Covers(r, zone) ==> r.tag !in {None, Some(Create), Some(Update)}
  }

  lemma {:induction false} UncoveredUpdateStays(zone: Row, rs: seq<Report>)
    requires Open(zone) && zone.action == Update && NoneCovers(zone, rs) && !Restarts(zone, rs)
    ensures var now := ZoneFold(zone, rs); Open(now) && now.action == Update && now.serial == zone.serial
  {
    if rs == [] {
    } else {
      var front, r := rs[..|rs| - 1], rs[|rs| - 1];
      assert r in rs && forall x :: x in front ==> x in rs;
      UncoveredUpdateStays(zone, front);
    }
  }

  /** Without a success that could apply, the update ends as a creation in any order. */
  lemma {:induction false} UncoveredUpdateRestarts(zone: Row, rs: seq<Report>)
    requires Open(zone) && NoneCovers(zone, rs) && Restarts(zone, rs)
    ensures ZoneFold(zone, rs) == Restarted(zone)
  {
    var front, r := rs[..|rs| - 1], rs[|rs| - 1];
    assert r in rs && forall x :: x in front ==> x in rs;
    if Restarts(zone, front) {
      UncoveredUpdateRestarts(zone, front);
    } else {
      UncoveredUpdateStays(zone, front);
      assert rs == front + [r];
    }
  }

  lemma {:induction false} UnambiguousZoneAgrees(zone: Row, rs: seq<Report>, rs': seq<Report>)
    requires (Open(zone) || Done(zone)) && SameReports(rs, rs') && !UpdateIsAmbiguous(zone, rs)
    ensures ZoneFold(zone, rs) == ZoneFold(zone, rs')
  {
    if !Restarts(zone, rs) {
      SteadyZoneSeesItsOwn(zone, rs);
      SteadyZoneSeesItsOwn(zone, rs');
      MatchingMembers(rs, zone.action);
      MatchingMembers(rs', zone.action);
      FoldSeesTheSet(zone, Matching(rs, zone.action), Matching(rs', zone.action));
    } else if r :| r in rs && Covers(r, zone) && r.tag == None {
      UntaggedSettles(zone, rs, r);
      UntaggedSettles(zone, rs', r);
    } else {
      UncoveredUpdateRestarts(zone, rs);
      UncoveredUpdateRestarts(zone, rs');
    }
  }

  /** The reports tagged for a creation, or the others. */
  function Sifted(rs: seq<Report>, creations: bool): seq<Report> {
    if rs == [] then []
    else (if (rs[0].tag == Some(Create)) == creations then [rs[0]] else []) + Sifted(rs[1..], creations)
  }

  lemma {:induction false} SiftedMembers(rs: seq<Report>, creations: bool)
    ensures forall r :: r in Sifted(rs, creations) <==> r in rs && (r.tag == Some(Create)) == creations
  {
    if rs == [] {
    } else {
      SiftedMembers(rs[1..], creations);
      assert rs == [rs[0]] + rs[1..];
    }
  }

  lemma {:induction false} UpdateIgnoresCreations(zone: Row, rs: seq<Report>)
    requires zone.action == Update && forall r :: r in rs ==> r.tag == Some(Create)
    ensures ZoneFold(zone, rs) == zone
  {
    if rs == [] {
    } else {
      assert rs[|rs| - 1] in rs;
      UpdateIgnoresCreations(zone, rs[..|rs| - 1]);
    }
  }

  lemma {:induction false} RestartedStays(zone: Row, rs: seq<Report>)
    requires forall r :: r in rs ==> r.tag != Some(Create) && !(Covers(r, zone) && r.tag == None)
    ensures ZoneFold(Restarted(zone), rs) == Restarted(zone)
  {
    if rs == [] {
    } else {
      assert rs[|rs| - 1] in rs;
      RestartedStays(zone, rs[..|rs| - 1]);
    }
  }

  /** First the reports tagged for a creation, then the missing zone, then all others. */
  lemma {:induction false} RestartingOrder(zone: Row, rs: seq<Report>) returns (order: seq<Report>)
    requires Open(zone) && UpdateIsAmbiguous(zone, rs)
    ensures SameReports(rs, order) && ZoneFold(zone, order) == Restarted(zone)
  {
    var x :| x in rs && x.verdict == NoZone && TagMatches(x.tag, Update);
    var early, late := Sifted(rs, true), Sifted(rs, false);
    SiftedMembers(rs, true);
    SiftedMembers(rs, false);
    order := (early + [x]) + late;
    UpdateIgnoresCreations(zone, early);
    ZoneFoldLast(zone, early, x);
    RestartedStays(zone, late);
    ZoneFoldOfSum(zone, early + [x], late);
  }

  lemma {:induction false} ZoneFoldOne(zone: Row, r: Report)
    ensures ZoneFold(zone, [r]) == ZoneAfterReport(zone, r)
  {
    assert [r][..0] == [];
  }

  lemma {:induction false} UpdateSettlesFirst(zone: Row, rs: seq<Report>, y: Report)
    requires Open(zone) && zone.action == Update && Covers(y, zone) && y.tag == Some(Update)
    ensures ZoneFold(zone, [y] + rs) == Settled(zone)
  {
    ZoneFoldOne(zone, y);
    DoneZoneStays(Settled(zone), rs);
    ZoneFoldOfSum(zone, [y], rs);
  }

  lemma {:induction false} CreationSettlesNext(zone: Row, rs: seq<Report>, x: Report, y: Report)
    requires Open(zone) && zone.action == Update && Covers(y, zone) && y.tag == Some(Create)
    requires x.verdict == NoZone && TagMatches(x.tag, Update)
    ensures ZoneFold(zone, [x] + ([y] + rs)) == Settled(zone)
  {
    ZoneFoldOne(zone, x);
    ZoneFoldOne(Restarted(zone), y);
    DoneZoneStays(Settled(zone), rs);
    ZoneFoldOfSum(Restarted(zone), [y], rs);
    ZoneFoldOfSum(zone, [x], [y] + rs);
  }

  /** A success tagged for the update first, or else the missing zone and then one tagged for a creation. */
  lemma {:induction false} SettlingOrder(zone: Row, rs: seq<Report>) returns (order: seq<Report>)
    requires Open(zone) && UpdateIsAmbiguous(zone, rs)
    ensures SameReports(rs, order) && ZoneFold(zone, order) == Settled(zone)
  {
    var x :| x in rs && x.verdict == NoZone && TagMatches(x.tag, Update);
    var y :| y in rs && Covers(y, zone) && y.tag in {Some(Create), Some(Update)};
    if y.tag == Some(Update) {
      order := [y] + rs;
      UpdateSettlesFirst(zone, rs, y);
    } else {
      order := [x] + ([y] + rs);
      CreationSettlesNext(zone, rs, x, y);
    }
  }

  // ---------------------------------------------------------------- every reachable state

  function Fresh(serial: nat): State {
    State(Some(Row(Create, Pending, serial)), map[])
  }

  /** A deletion under way, as it is in every reachable state. */
  predicate BeingDeleted(s: State) {
    s.zone.Some? && s.zone.value.action == Delete && s.zone.value.status == Pending
  }

  predicate ZoneInvariant(s: State) {
    s.zone.Some? ==> Open(s.zone.value) || Done(s.zone.value) || BeingDeleted(s)
  }

  lemma {:induction false} ZoneInvariantHolds(serial: nat, es: seq<Event>)
    ensures ZoneInvariant(Run(Fresh(serial), es))
  {
    if es == [] {
    } else {
      ZoneInvariantHolds(serial, es[..|es| - 1]);
    }
  }

  predicate RecordInvariant(records: map<RecordId, Row>) {
    forall id :: id in records ==> Open(records[id]) || Done(records[id])
  }

  lemma {:induction false} StampKeepsRecords(records: map<RecordId, Row>, ids: set<RecordId>, action: Action,
                                             serial: nat)
    requires RecordInvariant(records) && action in {Create, Update}
    ensures RecordInvariant(Stamped(records, ids, action, serial))
  {
  }

  lemma {:induction false} ReportKeepsRecords(records: map<RecordId, Row>, verdict: Verdict, n: nat)
    requires RecordInvariant(records)
    ensures RecordInvariant(AllAfterReport(records, verdict, n))
  {
  }

  lemma {:induction false} RewritesKeepRecords(s: State, changes: seq<Change>)
    requires s.zone.Some? && RecordInvariant(s.records)
    ensures RecordInvariant(AllRewritten(s, changes).records)
  {
    if changes == [] {
    } else {
      var front, last := changes[..|changes| - 1], changes[|changes| - 1];
      var before := AllRewritten(s, front);
      RewritesKeepRecords(s, front);
      StampKeepsRecords(before.records - (last.have - last.keep), last.keep, Update, s.zone.value.serial);
    }
  }

  lemma {:induction false} EventKeepsRecords(s: State, e: Event)
    requires RecordInvariant(s.records)
    ensures RecordInvariant(Apply(s, e).records)
  {
    match e
    case CreateRecordSet(ids, bump, now) =>
      StampKeepsRecords(s.records, ids, Create, now);
      if s.zone.Some? {
        StampKeepsRecords(s.records, ids, Create, s.zone.value.serial);
      }
    case UpdateRecordSet(have, keep, bump, now) =>
      StampKeepsRecords(s.records - (have - keep), keep, Update, now);
      if s.zone.Some? {
        StampKeepsRecords(s.records - (have - keep), keep, Update, s.zone.value.serial);
      }
    case RewriteNs(have, keep, now) => StampKeepsRecords(s.records - (have - keep), keep, Update, now);
    case MoveZone(changes) =>
      if s.zone.Some? {
        RewritesKeepRecords(s, changes);
      }
    case IncrementSerial(soa, now) => StampKeepsRecords(s.records, soa, Update, now);
    case Reported(r) =>
      if s.zone.Some? {
        ReportKeepsRecords(s.records, EffectiveVerdict(s.zone.value, r), r.serial);
      }
    case _ =>
  }

  lemma {:induction false} RecordInvariantHolds(serial: nat, es: seq<Event>)
    ensures RecordInvariant(Run(Fresh(serial), es).records)
  {
    if es == [] {
    } else {
      RecordInvariantHolds(serial, es[..|es| - 1]);
      EventKeepsRecords(Run(Fresh(serial), es[..|es| - 1]), es[|es| - 1]);
    }
  }

  // ---------------------------------------------------------------- reports on a zone that is being deleted

  /** The place of the first report that applies to a deletion, or the number of reports if there is none. */
  function FirstMatch(rs: seq<Report>): (m: nat)
    ensures m <= |rs|
  {
    if rs == [] then 0
    else
      var m := FirstMatch(rs[..|rs| - 1]);
      if m < |rs| - 1 || TagMatches(rs[|rs| - 1].tag, Delete) then m else |rs|
  }

  lemma {:induction false} FirstMatchIsFirst(rs: seq<Report>)
    ensures forall i :: 0 <= i < FirstMatch(rs) ==> !TagMatches(rs[i].tag, Delete)
    ensures FirstMatch(rs) < |rs| ==> TagMatches(rs[FirstMatch(rs)].tag, Delete)
  {
    if rs == [] {
    } else {
      FirstMatchIsFirst(rs[..|rs| - 1]);
    }
  }

  /** Reports tagged for something else act on the records alone. The first that applies to the deletion removes
      the zone and makes every open record one to be created again; after it nothing changes. */
  ghost function DeletionOutcome(s: State, rs: seq<Report>): State {
    var m := FirstMatch(rs);
    if m == |rs| then State(s.zone, FoldAll(s.records, rs))
    else State(None, AllAfterReport(FoldAll(s.records, rs[..m]), NoZone, 0))
  }

  lemma {:induction false} OneMoreOnDeletion(s: State, front: seq<Report>, r: Report)
    requires BeingDeleted(s)
    ensures Processed(DeletionOutcome(s, front), r) == DeletionOutcome(s, front + [r])
  {
    var rs, m := front + [r], FirstMatch(front);
    assert rs[..|rs| - 1] == front;
    assert rs[..m] == front[..m];
    if m == |front| {
      assert front[..m] == front;
      FoldAllLast(s.records, front, r);
    }
  }

  lemma {:induction false} ReportsOnDeletion(s: State, rs: seq<Report>)
    requires BeingDeleted(s)
    ensures Run(s, Reports(rs)) == DeletionOutcome(s, rs)
  {
    if rs == [] {
      assert FoldAll(s.records, []) == s.records;
    } else {
      var front, r := rs[..|rs| - 1], rs[|rs| - 1];
      assert rs == front + [r];
      ReportsOnDeletion(s, front);
      LastReport(s, front, r);
      OneMoreOnDeletion(s, front, r);
    }
  }

  /** What becomes of one record that is to be created or updated: it is settled by a success that comes before
      the deletion is reported on, and otherwise left to be created again. */
  lemma {:induction false} RecordsOfDeletion(s: State, rs: seq<Report>, id: RecordId)
    requires BeingDeleted(s) && id in s.records && Open(s.records[id])
    ensures id in Run(s, Reports(rs)).records
    ensures var row, m := s.records[id], FirstMatch(rs);
            Run(s, Reports(rs)).records[id] ==
            if m == |rs| then Outcome(row, rs)
            else if Confirms(rs[..m], row) then Settled(row)
            else row.(action := Create, status := Failed)
  {
    var row, m := s.records[id], FirstMatch(rs);
    ReportsOnDeletion(s, rs);
    FoldIsOutcome(row, rs);
    FoldIsOutcome(row, rs[..m]);
  }

  /** The reports decide by their order: one applies to the deletion, and a success tagged for something else
      covers an open record. */
  ghost predicate DeletionIsAmbiguous(records: map<RecordId, Row>, rs: seq<Report>) {
    && (exists r :: r in rs && TagMatches(r.tag, Delete))
    && exists id, r ::
         id in records && Open(records[id]) && r in rs && Covers(r, records[id]) && !TagMatches(r.tag, Delete)
  }

  lemma {:induction false} FirstMatchExists(rs: seq<Report>)
    ensures FirstMatch(rs) < |rs| <==> exists r :: r in rs && TagMatches(r.tag, Delete)
  {
    FirstMatchIsFirst(rs);
    if FirstMatch(rs) < |rs| {
      assert rs[FirstMatch(rs)] in rs;
    }
  }

  /** No prefix without a report on the deletion settles anything, so every record that is open is left open. */
  lemma {:induction false} UnambiguousRecord(records: map<RecordId, Row>, rs: seq<Report>, id: RecordId)
    requires !DeletionIsAmbiguous(records, rs) && FirstMatch(rs) < |rs| && id in records
    requires Open(records[id]) || Done(records[id])
    ensures AfterReport(Fold(records[id], rs[..FirstMatch(rs)]), NoZone, 0) == AfterReport(records[id], NoZone, 0)
  {
    var row, before := records[id], rs[..FirstMatch(rs)];
    FirstMatchIsFirst(rs);
    FirstMatchExists(rs);
    FoldIsOutcome(row, before);
    forall r | r in before ensures r in rs && !TagMatches(r.tag, Delete) {
      var i :| 0 <= i < |before| && before[i] == r;
      assert rs[i] == r;
    }
  }

  lemma {:induction false} UnambiguousDeletionOutcome(s: State, rs: seq<Report>)
    requires RecordInvariant(s.records) && !DeletionIsAmbiguous(s.records, rs)
    ensures DeletionOutcome(s, rs) ==
            if FirstMatch(rs) == |rs| then State(s.zone, FoldAll(s.records, rs))
            else State(None, AllAfterReport(s.records, NoZone, 0))
  {
    if FirstMatch(rs) < |rs| {
      forall id | id in s.records
        ensures AfterReport(Fold(s.records[id], rs[..FirstMatch(rs)]), NoZone, 0) ==
          AfterReport(s.records[id], NoZone, 0)
      {
        UnambiguousRecord(s.records, rs, id);
      }
    }
  }

  lemma {:induction false} UnambiguousDeletionAgrees(s: State, rs: seq<Report>, rs': seq<Report>)
    requires BeingDeleted(s) && RecordInvariant(s.records)
    requires SameReports(rs, rs') && !DeletionIsAmbiguous(s.records, rs)
    ensures Run(s, Reports(rs)) == Run(s, Reports(rs'))
  {
    ReportsOnDeletion(s, rs);
    ReportsOnDeletion(s, rs');
    UnambiguousDeletionOutcome(s, rs);
    UnambiguousDeletionOutcome(s, rs');
    FirstMatchExists(rs);
    FirstMatchExists(rs');
    RecordsSeeTheSet(s.records, rs, rs');
  }

  lemma {:induction false} FirstMatchInFront(r: Report, rs: seq<Report>)
    requires exists x :: x in rs && TagMatches(x.tag, Delete)
    ensures FirstMatch([r] + rs) < |[r] + rs|
    ensures FirstMatch([r] + rs) == 0 <==> TagMatches(r.tag, Delete)
  {
    var all := [r] + rs;
    FirstMatchExists(all);
    FirstMatchIsFirst(all);
    assert all[0] == r && forall x :: x in rs ==> x in all;
  }

  /** The success first settles the record, the report on the deletion first leaves it open. */
  lemma {:induction false} AmbiguousDeletion(s: State, rs: seq<Report>) returns (a: seq<Report>, b: seq<Report>)
    requires BeingDeleted(s) && DeletionIsAmbiguous(s.records, rs)
    ensures SameReports(rs, a) && SameReports(rs, b) && Run(s, Reports(a)) != Run(s, Reports(b))
  {
    var x :| x in rs && TagMatches(x.tag, Delete);
    var id, y :| id in s.records && Open(s.records[id]) && y in rs && Covers(y, s.records[id]) &&
      !TagMatches(y.tag, Delete);
    a, b := [y] + rs, [x] + rs;
    FirstMatchInFront(y, rs);
    FirstMatchInFront(x, rs);
    assert a[..FirstMatch(a)][0] == y;
    assert b[..0] == [] && !Confirms([], s.records[id]);
    RecordsOfDeletion(s, a, id);
    RecordsOfDeletion(s, b, id);
  }

  // ---------------------------------------------------------------- when the order of reports matters

  /** All orders and repetitions of the same reports lead to the same state. */
  ghost predicate OrdersAgree(s: State, rs: seq<Report>) {
    forall rs' :: SameReports(rs, rs') ==> Run(s, Reports(rs')) == Run(s, Reports(rs))
  }

  ghost predicate OrderMatters(s: State, rs: seq<Report>) {
    s.zone.Some? &&
    if s.zone.value.action == Delete then DeletionIsAmbiguous(s.records, rs) else UpdateIsAmbiguous(s.zone.value, rs)
  }

  lemma {:induction false} ReportsWithoutZone(s: State, rs: seq<Report>)
    requires s.zone.None?
    ensures Run(s, Reports(rs)) == s
  {
    if rs == [] {
    } else {
      var front, r := rs[..|rs| - 1], rs[|rs| - 1];
      assert rs == front + [r];
      ReportsWithoutZone(s, front);
      LastReport(s, front, r);
    }
  }

  lemma {:induction false} UnambiguousReportsAgree(s: State, rs: seq<Report>, rs': seq<Report>)
    requires ZoneInvariant(s) && RecordInvariant(s.records) && !OrderMatters(s, rs) && SameReports(rs, rs')
    ensures Run(s, Reports(rs)) == Run(s, Reports(rs'))
  {
    if s.zone.None? {
      ReportsWithoutZone(s, rs);
      ReportsWithoutZone(s, rs');
    } else if s.zone.value.action == Delete {
      UnambiguousDeletionAgrees(s, rs, rs');
    } else {
      ReportsActRowByRow(s, rs);
      ReportsActRowByRow(s, rs');
      UnambiguousZoneAgrees(s.zone.value, rs, rs');
      RecordsSeeTheSet(s.records, rs, rs');
    }
  }

  lemma {:induction false} AmbiguousReportsDiffer(s: State, rs: seq<Report>) returns (a: seq<Report>, b: seq<Report>)
    requires ZoneInvariant(s) && OrderMatters(s, rs)
    ensures SameReports(rs, a) && SameReports(rs, b) && Run(s, Reports(a)) != Run(s, Reports(b))
  {
    if s.zone.value.action == Delete {
      a, b := AmbiguousDeletion(s, rs);
    } else {
      a := SettlingOrder(s.zone.value, rs);
      b := RestartingOrder(s.zone.value, rs);
      ReportsActRowByRow(s, a);
      ReportsActRowByRow(s, b);
    }
  }

  /** In every reachable state, and for reports of every kind: their order and repetition are of no consequence
      exactly when they are not ambiguous for the update or the deletion under way. */
  lemma {:induction false} OrdersAgreeExactly(serial: nat, es: seq<Event>, rs: seq<Report>)
    ensures var s := Run(Fresh(serial), es); OrdersAgree(s, rs) <==> !OrderMatters(s, rs)
  {
    var s := Run(Fresh(serial), es);
    ZoneInvariantHolds(serial, es);
    RecordInvariantHolds(serial, es);
    if OrderMatters(s, rs) {
      var a, b := AmbiguousReportsDiffer(s, rs);
      assert Run(s, Reports(a)) != Run(s, Reports(rs)) || Run(s, Reports(b)) != Run(s, Reports(rs));
    } else {
      forall rs' | SameReports(rs, rs') ensures Run(s, Reports(rs')) == Run(s, Reports(rs)) {
        UnambiguousReportsAgree(s, rs, rs');
      }
    }
  }

  ghost predicate ReportsAgree(s: State) {
    forall rs :: OrdersAgree(s, rs)
  }

  /** In every reachable state the order of no reports is of consequence exactly when the zone is gone, or is
      neither being updated nor being deleted, or is being deleted and has no record left to be created or
      updated. */
  lemma {:induction false} ReportsAgreeExactly(serial: nat, es: seq<Event>)
    ensures var s := Run(Fresh(serial), es);
            ReportsAgree(s) <==>
            (s.zone.Some? ==>
               s.zone.value.action != Update &&
               (s.zone.value.action == Delete ==> forall id :: id in s.records ==> !Open(s.records[id])))
  {
    var s := Run(Fresh(serial), es);
    forall rs ensures OrdersAgree(s, rs) <==> !OrderMatters(s, rs) {
      OrdersAgreeExactly(serial, es, rs);
    }
    if s.zone.Some? && s.zone.value.action == Update {
      var a, b := Report(NoZone, 0, None), Report(Success, s.zone.value.serial, Some(Update));
      assert a in [a, b] && b in [a, b];
      assert OrderMatters(s, [a, b]);
    } else if s.zone.Some? && s.zone.value.action == Delete {
      if id :| id in s.records && Open(s.records[id]) {
        var a, b := Report(Success, s.records[id].serial, Some(Create)), Report(Error, 0, None);
        assert a in [a, b] && b in [a, b];
        assert OrderMatters(s, [a, b]);
      }
    }
  }

  lemma {:induction false} TwoReports(s: State, a: Report, b: Report)
    ensures Run(s, Reports([a, b])) == Processed(Processed(s, a), b)
  {
    assert [a, b] == [] + [a] + [b];
    LastReport(s, [], a);
    LastReport(s, [a], b);
    assert [] + [a] == [a];
  }

  /** A missing zone and a success for the update, in both orders. */
  lemma {:induction false} OrderMattersForUpdates(s: State)
    requires s.zone.Some? && s.zone.value.action == Update && Open(s.zone.value)
    ensures var zone := s.zone.value;
            var a, b := Report(NoZone, zone.serial, None), Report(Success, zone.serial, Some(Update));
            && Run(s, Reports([a, b])).zone == Some(zone.(action := Create, status := Failed))
            && Run(s, Reports([b, a])).zone == Some(zone.(action := NoAction, status := Active))
  {
    var zone := s.zone.value;
    var a, b := Report(NoZone, zone.serial, None), Report(Success, zone.serial, Some(Update));
    TwoReports(s, a, b);
    TwoReports(s, b, a);
  }

  function LeavingZone(action: Action, status: Status): State {
    State(Some(Row(Delete, Pending, 1)), map[0 := Row(action, status, 9)])
  }

  lemma {:induction false} SuccessFirst()
    ensures Run(LeavingZone(Create, Pending), Reports([Report(Success, 9, Some(Create)), Report(Error, 9, None)])) ==
            State(None, map[0 := Row(NoAction, Active, 9)])
  {
    var s := LeavingZone(Create, Pending);
    var a, b := Report(Success, 9, Some(Create)), Report(Error, 9, None);
    TwoReports(s, a, b);
    assert Processed(s, a) == LeavingZone(NoAction, Active);
  }

  lemma {:induction false} ErrorFirst()
    ensures Run(LeavingZone(Create, Pending), Reports([Report(Error, 9, None), Report(Success, 9, Some(Create))])) ==
            State(None, map[0 := Row(Create, Failed, 9)])
  {
    var s := LeavingZone(Create, Pending);
    var a, b := Report(Success, 9, Some(Create)), Report(Error, 9, None);
    TwoReports(s, b, a);
    assert Processed(s, b) == State(None, map[0 := Row(Create, Failed, 9)]);
  }

  lemma {:induction false} CreatedThenDeleted()
    ensures Run(Fresh(1), [CreateRecordSet({0}, true, 9), DeleteZone]) ==
            State(Some(Row(Delete, Pending, 1)), map[0 := Row(Create, Pending, 9)])
  {
    var es := [CreateRecordSet({0}, true, 9), DeleteZone];
    assert es[..1] == [CreateRecordSet({0}, true, 9)] && es[..1][..0] == [];
    assert Run(Fresh(1), []) == Fresh(1);
    assert Run(Fresh(1), es[..1]) == Apply(Fresh(1), es[0]);
  }

  /** A run in which the order matters: a record is created, the zone deleted, and then a success for the creation
      and an error come in. */
  lemma {:induction false} OrderMattersForDeletion()
    ensures var s := Run(Fresh(1), [CreateRecordSet({0}, true, 9), DeleteZone]);
            var a, b := Report(Success, 9, Some(Create)), Report(Error, 9, None);
            && Run(s, Reports([a, b])) == State(None, map[0 := Row(NoAction, Active, 9)])
            && Run(s, Reports([b, a])) == State(None, map[0 := Row(Create, Failed, 9)])
  {
    CreatedThenDeleted();
    SuccessFirst();
    ErrorFirst();
  }

  // ---------------------------------------------------------------- removal and confirmation over runs

  /** In every reachable state a report removes the zone exactly when the stored action is a deletion and
      the report is untagged or tagged for it; the verdict, even an error, plays no part. */
  lemma {:induction false} RemovalNeedsDeletion(serial: nat, es: seq<Event>, r: Report)
    ensures var s := Run(Fresh(serial), es);
      s.zone.Some? ==>
        (Apply(s, Reported(r)).zone.None? <==> s.zone.value.action == Delete && TagMatches(r.tag, Delete))
  {
    ZoneInvariantHolds(serial, es);
  }

  /** In every reachable state a deletion under way is called off by exactly these operations: an update of the
      zone, a move to another pool, a change of the pool's nameservers, and for a catalog zone the creation or
      deletion of another zone of its pool. None of them looks at the stored action. */
  lemma {:induction false} DeletionIsCalledOff(serial: nat, es: seq<Event>, e: Event)
    ensures var s := Run(Fresh(serial), es);
      s.zone.Some? && s.zone.value.action == Delete ==>
        (Apply(s, e).zone.Some? && Apply(s, e).zone.value.action != Delete <==>
          e.UpdateZone? || e.MoveZone? || e.RewriteNs? || e.MemberChanged?)
  {
    ZoneInvariantHolds(serial, es);
  }

  /** Report number k of the run was a success that reached serial n. */
  ghost predicate Confirmed(start: State, es: seq<Event>, k: nat, n: nat)
    requires k < |es|
  {
    var before := Run(start, es[..k]);
    es[k].Reported? && before.zone.Some? && es[k].report.serial >= n &&
    EffectiveVerdict(before.zone.value, es[k].report) == Success
  }

  ghost predicate UntouchedSince(start: State, es: seq<Event>, k: nat, id: RecordId, row: Row)
    requires k <= |es|
  {
    forall j :: k <= j <= |es| ==> var s := Run(start, es[..j]); id in s.records && s.records[id] == row
  }

  lemma {:induction false} RewritesActivateNothing(s: State, changes: seq<Change>, id: RecordId)
    requires s.zone.Some? && id in AllRewritten(s, changes).records
    requires AllRewritten(s, changes).records[id].status == Active
    ensures id in s.records && s.records[id] == AllRewritten(s, changes).records[id]
  {
    if changes == [] {
    } else {
      RewritesActivateNothing(s, changes[..|changes| - 1], id);
    }
  }

  /** A record becomes active, or changes while active, only by a success that reaches its serial. */
  lemma {:induction false} ActiveComesFromSuccess(s: State, e: Event, id: RecordId)
    requires id in Apply(s, e).records && Apply(s, e).records[id].status == Active
    requires !(id in s.records && s.records[id] == Apply(s, e).records[id])
    ensures e.Reported? && s.zone.Some? && EffectiveVerdict(s.zone.value, e.report) == Success
    ensures e.report.serial >= Apply(s, e).records[id].serial
  {
    if e.MoveZone? && s.zone.Some? {
      RewritesActivateNothing(s, e.changes, id);
    }
  }

  lemma {:induction false} ConfirmedStays(start: State, es: seq<Event>, k: nat, id: RecordId, row: Row)
    requires es != [] && k < |es| - 1
    requires Confirmed(start, es[..|es| - 1], k, row.serial) && UntouchedSince(start, es[..|es| - 1], k + 1, id, row)
    requires id in Run(start, es).records && Run(start, es).records[id] == row
    ensures Confirmed(start, es, k, row.serial) && UntouchedSince(start, es, k + 1, id, row)
  {
    var front := es[..|es| - 1];
    assert front[..k] == es[..k];
    forall j | k + 1 <= j <= |es|
      ensures var s := Run(start, es[..j]); id in s.records && s.records[id] == row
    {
      assert es[..j] == if j < |es| then front[..j] else es;
    }
  }

  /** An active record was confirmed after its last change: some success report that reached its serial
      has been processed, and nothing has touched the record since. */
  lemma {:induction false} ActiveMeansConfirmed(serial: nat, es: seq<Event>, id: RecordId)
    requires var s := Run(Fresh(serial), es); id in s.records && s.records[id].status == Active
    ensures var row := Run(Fresh(serial), es).records[id];
      exists k: nat :: k < |es| && Confirmed(Fresh(serial), es, k, row.serial)
        && UntouchedSince(Fresh(serial), es, k + 1, id, row)
  {
    var start := Fresh(serial);
    var row := Run(start, es).records[id];
    var front := es[..|es| - 1];
    var before := Run(start, front);
    if id in before.records && before.records[id] == row {
      ActiveMeansConfirmed(serial, front, id);
      var k: nat :| k < |front| && Confirmed(start, front, k, row.serial) &&
        UntouchedSince(start, front, k + 1, id, row);
      ConfirmedStays(start, es, k, id, row);
    } else {
      ActiveComesFromSuccess(before, es[|es| - 1], id);
      assert es[..|es|] == es;
      assert Confirmed(start, es, |es| - 1, row.serial);
      assert UntouchedSince(start, es, |es|, id, row);
    }
  }

  function LargestSuccess(start: State, es: seq<Event>): Option<nat> {
    if es == [] then None
    else
      var last := es[|es| - 1];
      var before := Run(start, es[..|es| - 1]);
      var best := LargestSuccess(start, es[..|es| - 1]);
      if last.Reported? && before.zone.Some? && EffectiveVerdict(before.zone.value, last.report) == Success
         && (best == None || best.value < last.report.serial)
      then Some(last.report.serial) else best
  }

  lemma {:induction false} LargestSuccessBounds(start: State, es: seq<Event>, k: nat, n: nat)
    requires k < |es| && Confirmed(start, es, k, n)
    ensures LargestSuccess(start, es).Some? && n <= LargestSuccess(start, es).value
  {
    var front := es[..|es| - 1];
    if k < |front| {
      assert front[..k] == es[..k];
      LargestSuccessBounds(start, front, k, n);
    } else {
      assert es[..k] == front;
    }
  }

  /** Over every run, no active record carries a serial above the largest success processed so far. */
  lemma {:induction false} ActiveSerialsAreConfirmed(serial: nat, es: seq<Event>, id: RecordId)
    requires var s := Run(Fresh(serial), es); id in s.records && s.records[id].status == Active
    ensures var best := LargestSuccess(Fresh(serial), es);
      best.Some? && Run(Fresh(serial), es).records[id].serial <= best.value
  {
    ActiveMeansConfirmed(serial, es, id);
    var row := Run(Fresh(serial), es).records[id];
    var k: nat :| k < |es| && Confirmed(Fresh(serial), es, k, row.serial);
    LargestSuccessBounds(Fresh(serial), es, k, row.serial);
  }

  /** Why nothing is claimed of the zone's own status: a confirmed zone can hold records that are not. */
  lemma {:induction false} ActiveZoneMayHoldPendingRecords()
    ensures exists es, id :: var s := Run(Fresh(1), es);
      s.zone.Some? && s.zone.value.status == Active && id in s.records && s.records[id].status == Pending
  {
    var es := [CreateRecordSet({0}, true, 9), Reported(Report(Success, 5, None))];
    assert es[..1] == [CreateRecordSet({0}, true, 9)] && es[..1][..0] == [];
    var s1 := Run(Fresh(1), es[..1]);
    assert Run(Fresh(1), []) == Fresh(1);
    assert s1 == Apply(Fresh(1), es[0]);
    assert s1.records[0] == Row(Create, Pending, 9);
    var s2 := Run(Fresh(1), es);
    assert s2.zone == Some(Row(NoAction, Active, 1));
    assert s2.records[0] == Row(Create, Pending, 9);
  }
}
