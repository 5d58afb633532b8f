/** What becomes of a zone and of each of its records, over every run of edits and reports: told by the events, with
    every condition spelled out here and none taken over from the steps themselves. */
module ZoneFate {
  import opened Wrappers
  import opened ZoneStatus

  function StateAt(serial: nat, es: seq<Event>, k: nat): State
    requires k <= |es|
  {
    Run(Fresh(serial), es[..k])
  }

  // ---------------------------------------------------------------- which events an edit is

  predicate InService(s: State) {
    s.zone.Some? && s.zone.value.action != Delete
  }

  /** The last of the changes that names the record keeps it. */
  predicate KeptBy(changes: seq<Change>, id: RecordId) {
    changes != [] &&
    var front, last := changes[..|changes| - 1], changes[|changes| - 1];
    id in last.keep || (id !in last.have && KeptBy(front, id))
  }

  /** The last of the changes that names the record takes it away. */
  predicate DroppedBy(changes: seq<Change>, id: RecordId) {
    changes != [] &&
    var front, last := changes[..|changes| - 1], changes[|changes| - 1];
    id !in last.keep && (id in last.have || DroppedBy(front, id))
  }

  /** The event creates, updates or stamps the record. */
  predicate Edits(s: State, e: Event, id: RecordId) {
    match e
    case CreateRecordSet(ids, _, _) => InService(s) && id in ids
    case UpdateRecordSet(_, keep, _, _) => InService(s) && id in keep
    case RewriteNs(_, keep, _) => s.zone.Some? && id in keep
    case MoveZone(changes) => s.zone.Some? && KeptBy(changes, id)
    case IncrementSerial(soa, _) => s.zone.Some? && id in soa
    case _ => false
  }

  predicate Drops(s: State, e: Event, id: RecordId) {
    match e
    case UpdateRecordSet(have, keep, _, _) => InService(s) && id in have && id !in keep
    case RewriteNs(have, keep, _) => s.zone.Some? && id in have && id !in keep
    case DeleteRecordSet(ids, _, _) => InService(s) && id in ids
    case MoveZone(changes) => s.zone.Some? && DroppedBy(changes, id)
    case _ => false
  }

  ghost predicate EditsAt(serial: nat, es: seq<Event>, k: nat, id: RecordId) {
    k < |es| && Edits(StateAt(serial, es, k), es[k], id)
  }

  ghost predicate DropsAt(serial: nat, es: seq<Event>, k: nat, id: RecordId) {
    k < |es| && Drops(StateAt(serial, es, k), es[k], id)
  }

  /** The serial the zone was last given. */
  function GivenSerial(serial: nat, es: seq<Event>): nat {
    if es == [] then serial
    else if es[|es| - 1].IncrementSerial? then es[|es| - 1].now
    else GivenSerial(serial, es[..|es| - 1])
  }

  /** What an edit waits for: the time of the edit when it schedules a new serial for the zone or comes with one,
      and otherwise the serial that the zone has. */
  function Awaited(serial: nat, es: seq<Event>, k: nat): nat
    requires k < |es|
  {
    match es[k]
    case CreateRecordSet(_, bump, now) => if bump then now else GivenSerial(serial, es[..k])
    case UpdateRecordSet(_, _, bump, now) => if bump then now else GivenSerial(serial, es[..k])
    case RewriteNs(_, _, now) => now
    case IncrementSerial(_, now) => now
    case _ => GivenSerial(serial, es[..k])
  }

  // ---------------------------------------------------------------- what the records are told

  /** A report with a tag applies to the action it is tagged for alone. */
  predicate AppliesTo(r: Report, action: Action) {
    r.tag.Some? ==> r.tag.value == action
  }

  /** Report number k reached the records with this verdict. Any report that applies to a deletion under way tells
      them that the zone is missing. */
  ghost predicate Told(serial: nat, es: seq<Event>, k: nat, verdict: Verdict) {
    k < |es| && es[k].Reported? &&
    var s, r := StateAt(serial, es, k), es[k].report;
    && s.zone.Some?
    && verdict == if s.zone.value.action == Delete && AppliesTo(r, Delete) then NoZone else r.verdict
  }

  ghost predicate ToldOfSuccess(serial: nat, es: seq<Event>, since: nat, awaited: nat) {
    exists k: nat :: since < k < |es| && Told(serial, es, k, Success) && es[k].report.serial >= awaited
  }

  ghost predicate ToldOfAbsence(serial: nat, es: seq<Event>, since: nat) {
    exists k: nat :: since < k < |es| && Told(serial, es, k, NoZone)
  }

  ghost predicate ToldOfError(serial: nat, es: seq<Event>, since: nat, awaited: nat) {
    exists k: nat :: since < k < |es| && Told(serial, es, k, Error) &&
      (es[k].report.serial >= awaited || es[k].report.serial == 0)
  }

  /** What a record is after event number `since` has edited it and none has after that. */
  ghost function Fate(serial: nat, es: seq<Event>, since: nat): Row
    requires since < |es|
  {
    var awaited := Awaited(serial, es, since);
    if ToldOfSuccess(serial, es, since, awaited) then Row(NoAction, Active, awaited)
    else if ToldOfAbsence(serial, es, since) then Row(Create, Failed, awaited)
    else Row(if es[since].CreateRecordSet? then Create else Update,
             if ToldOfError(serial, es, since, awaited) then Failed else Pending, awaited)
  }

  // ---------------------------------------------------------------- one event

  lemma {:induction false} SerialIsGiven(serial: nat, es: seq<Event>)
    ensures var s := Run(Fresh(serial), es); s.zone.Some? ==> s.zone.value.serial == GivenSerial(serial, es)
  {
    if es == [] {
    } else {
      SerialIsGiven(serial, es[..|es| - 1]);
    }
  }

  lemma {:induction false} RewritesStamp(s: State, changes: seq<Change>, id: RecordId)
    requires s.zone.Some? && RecordInvariant(s.records)
    ensures KeptBy(changes, id) ==>
              id in AllRewritten(s, changes).records &&
              AllRewritten(s, changes).records[id] == Row(Update, Pending, s.zone.value.serial)
    ensures DroppedBy(changes, id) ==> id !in AllRewritten(s, changes).records
    ensures !KeptBy(changes, id) && !DroppedBy(changes, id) ==>
              (id in AllRewritten(s, changes).records <==> id in s.records) &&
              (id in s.records ==> AllRewritten(s, changes).records[id] == s.records[id])
  {
    if changes == [] {
    } else {
      RewritesStamp(s, changes[..|changes| - 1], id);
      RewritesKeepRecords(s, changes[..|changes| - 1]);
    }
  }

  /** What an edit leaves. */
  lemma {:induction false} EditStamps(serial: nat, es: seq<Event>, id: RecordId)
    requires es != [] && EditsAt(serial, es, |es| - 1, id)
    ensures var s, e := Run(Fresh(serial), es), es[|es| - 1];
      id in s.records &&
      s.records[id] == Row(if e.CreateRecordSet? then Create else Update, Pending, Awaited(serial, es, |es| - 1))
  {
    var front, e := es[..|es| - 1], es[|es| - 1];
    var s := Run(Fresh(serial), front);
    SerialIsGiven(serial, front);
    RecordInvariantHolds(serial, front);
    if e.MoveZone? {
      RewritesStamp(s, e.changes, id);
    }
  }

  /** What any other event leaves of a record. */
  lemma {:induction false} OthersLeave(s: State, e: Event, id: RecordId)
    requires RecordInvariant(s.records) && !Edits(s, e, id)
    ensures id in Apply(s, e).records <==> id in s.records && !Drops(s, e, id)
    ensures id in Apply(s, e).records ==>
              Apply(s, e).records[id] ==
              if e.Reported? && s.zone.Some?
              then AfterReport(s.records[id], EffectiveVerdict(s.zone.value, e.report), e.report.serial)
              else s.records[id]
  {
    if e.MoveZone? && s.zone.Some? {
      RewritesStamp(s, e.changes, id);
    }
  }

  // ---------------------------------------------------------------- one event more

  lemma {:induction false} SameBefore(serial: nat, es: seq<Event>, k: nat)
    requires k + 1 < |es|
    ensures var front := es[..|es| - 1]; StateAt(serial, es, k) == StateAt(serial, front, k) && es[k] == front[k]
    ensures Awaited(serial, es, k) == Awaited(serial, es[..|es| - 1], k)
  {
    assert es[..|es| - 1][..k] == es[..k];
  }

  lemma {:induction false} ToldLast(serial: nat, es: seq<Event>, since: nat, awaited: nat)
    requires since + 1 < |es|
    ensures var front, last := es[..|es| - 1], |es| - 1;
      && (ToldOfSuccess(serial, es, since, awaited) <==>
          ToldOfSuccess(serial, front, since, awaited) ||
          (Told(serial, es, last, Success) && es[last].report.serial >= awaited))
      && (ToldOfAbsence(serial, es, since) <==>
          ToldOfAbsence(serial, front, since) || Told(serial, es, last, NoZone))
      && (ToldOfError(serial, es, since, awaited) <==>
          ToldOfError(serial, front, since, awaited) ||
          (Told(serial, es, last, Error) && (es[last].report.serial >= awaited || es[last].report.serial == 0)))
  {
    var front := es[..|es| - 1];
    forall k: nat, v | k < |front| ensures Told(serial, es, k, v) <==> Told(serial, front, k, v) {
      SameBefore(serial, es, k);
    }
  }

  lemma {:induction false} FateLast(serial: nat, es: seq<Event>, since: nat)
    requires since + 1 < |es|
    ensures var front, e := es[..|es| - 1], es[|es| - 1];
      var s := Run(Fresh(serial), front);
      Fate(serial, es, since) ==
      if e.Reported? && s.zone.Some?
      then AfterReport(Fate(serial, front, since), EffectiveVerdict(s.zone.value, e.report), e.report.serial)
      else Fate(serial, front, since)
  {
    SameBefore(serial, es, since);
    ToldLast(serial, es, since, Awaited(serial, es, since));
    ZoneInvariantHolds(serial, es[..|es| - 1]);
  }

  /** Over every run: a record that was created, updated or stamped, and not edited again, is what the reports since
      then say. It is active exactly when one of them was a success at or above the serial the edit waits for. */
  lemma {:induction false} RecordsFollowTheirFate(serial: nat, es: seq<Event>, since: nat, id: RecordId)
    requires EditsAt(serial, es, since, id) && forall k :: since < k < |es| ==> !EditsAt(serial, es, k, id)
    requires id in Run(Fresh(serial), es).records
    ensures Run(Fresh(serial), es).records[id] == Fate(serial, es, since)
  {
    if since == |es| - 1 {
      EditStamps(serial, es, id);
    } else {
      var front := es[..|es| - 1];
      RecordInvariantHolds(serial, front);
      assert !EditsAt(serial, es, |front|, id);
      OthersLeave(Run(Fresh(serial), front), es[|es| - 1], id);
      forall k: nat | k < |front| ensures EditsAt(serial, front, k, id) <==> EditsAt(serial, es, k, id) {
        SameBefore(serial, es, k);
      }
      RecordsFollowTheirFate(serial, front, since, id);
      FateLast(serial, es, since);
    }
  }

  /** Event number k gives the zone the record, and no later one takes it away. */
  ghost predicate KeptSince(serial: nat, es: seq<Event>, k: nat, id: RecordId) {
    EditsAt(serial, es, k, id) && forall j :: k < j < |es| ==> !DropsAt(serial, es, j, id)
  }

  lemma {:induction false} KeptSinceLast(serial: nat, es: seq<Event>, k: nat, id: RecordId)
    requires k + 1 < |es|
    ensures KeptSince(serial, es, k, id) <==>
            KeptSince(serial, es[..|es| - 1], k, id) && !DropsAt(serial, es, |es| - 1, id)
  {
    var front := es[..|es| - 1];
    forall j: nat | j < |front|
      ensures EditsAt(serial, front, j, id) <==> EditsAt(serial, es, j, id)
      ensures DropsAt(serial, front, j, id) <==> DropsAt(serial, es, j, id)
    {
      SameBefore(serial, es, j);
    }
  }

  /** Over every run: the zone holds exactly the records that an edit gave it and nothing took away afterwards. */
  lemma {:induction false} RecordsAreThoseKept(serial: nat, es: seq<Event>, id: RecordId)
    ensures id in Run(Fresh(serial), es).records <==> exists k: nat :: KeptSince(serial, es, k, id)
  {
    if es == [] {
    } else {
      var front, last := es[..|es| - 1], |es| - 1;
      RecordsAreThoseKept(serial, front, id);
      forall k: nat | k < last
        ensures KeptSince(serial, es, k, id) <==> KeptSince(serial, front, k, id) && !DropsAt(serial, es, last, id)
      {
        KeptSinceLast(serial, es, k, id);
      }
      if EditsAt(serial, es, last, id) {
        EditStamps(serial, es, id);
        assert KeptSince(serial, es, last, id);
      } else {
        RecordInvariantHolds(serial, front);
        OthersLeave(Run(Fresh(serial), front), es[last], id);
      }
    }
  }

  // ---------------------------------------------------------------- the zone itself

  /** The event sets the action and the status of the zone, or removes it, without a report. */
  predicate Sets(s: State, e: Event) {
    match e
    case CreateRecordSet(ids, bump, _) => InService(s) && bump && ids != {}
    case UpdateRecordSet(_, _, bump, _) => InService(s) && bump
    case DeleteRecordSet(_, bump, _) => InService(s) && bump
    case IncrementSerial(_, _) => false
    case Reported(_) => false
    case _ => s.zone.Some?
  }

  ghost predicate SetsAt(serial: nat, es: seq<Event>, k: nat) {
    k < |es| && Sets(StateAt(serial, es, k), es[k])
  }

  /** Report number k applied to what the zone had open. */
  ghost predicate Heard(serial: nat, es: seq<Event>, k: nat, verdict: Verdict) {
    k < |es| && es[k].Reported? &&
    var s, r := StateAt(serial, es, k), es[k].report;
    s.zone.Some? && r.verdict == verdict && AppliesTo(r, s.zone.value.action)
  }

  ghost predicate HeardOfSuccess(serial: nat, es: seq<Event>, from: nat) {
    exists k: nat :: from <= k < |es| && Heard(serial, es, k, Success) &&
      es[k].report.serial >= GivenSerial(serial, es[..k])
  }

  ghost predicate HeardOfAbsence(serial: nat, es: seq<Event>, from: nat) {
    exists k: nat :: from <= k < |es| && Heard(serial, es, k, NoZone)
  }

  ghost predicate HeardOfError(serial: nat, es: seq<Event>, from: nat) {
    exists k: nat :: from <= k < |es| && Heard(serial, es, k, Error) &&
      (es[k].report.serial >= GivenSerial(serial, es[..k]) || es[k].report.serial == 0)
  }

  predicate Answered(es: seq<Event>, from: nat) {
    exists k :: from <= k < |es| && es[k].Reported? && AppliesTo(es[k].report, Delete)
  }

  /** What reports that applied make of a creation or an update. */
  function Resolved(created: bool, given: nat, success: bool, absence: bool, error: bool): Row {
    if success then Row(NoAction, Active, given)
    else if absence then Row(Create, Failed, given)
    else Row(if created then Create else Update, if error then Failed else Pending, given)
  }

  /** What the zone is when none of the events from number `from` on sets it: the one before did, or the zone is
      as it was created. */
  ghost function ZoneFate(serial: nat, es: seq<Event>, from: nat): Option<Row>
    requires from <= |es|
  {
    var given := GivenSerial(serial, es);
    if from > 0 && es[from - 1].AbandonZone? then None
    else if from > 0 && es[from - 1].DeleteZone? then
      if Answered(es, from) then None else Some(Row(Delete, Pending, given))
    else
      Some(Resolved(from == 0, given, HeardOfSuccess(serial, es, from), HeardOfAbsence(serial, es, from),
                    HeardOfError(serial, es, from)))
  }

  lemma {:induction false} HeardBefore(serial: nat, es: seq<Event>, k: nat, verdict: Verdict)
    requires k + 1 < |es|
    ensures Heard(serial, es, k, verdict) <==> Heard(serial, es[..|es| - 1], k, verdict)
    ensures GivenSerial(serial, es[..k]) == GivenSerial(serial, es[..|es| - 1][..k])
  {
    assert es[..|es| - 1][..k] == es[..k];
  }

  lemma {:induction false} HeardOfSuccessLast(serial: nat, es: seq<Event>, from: nat)
    requires from < |es|
    ensures var front, last := es[..|es| - 1], |es| - 1;
      HeardOfSuccess(serial, es, from) <==>
      HeardOfSuccess(serial, front, from) ||
      (Heard(serial, es, last, Success) && es[last].report.serial >= GivenSerial(serial, front))
  {
    forall k: nat | k < |es| - 1
      ensures Heard(serial, es, k, Success) <==> Heard(serial, es[..|es| - 1], k, Success)
      ensures GivenSerial(serial, es[..k]) == GivenSerial(serial, es[..|es| - 1][..k])
    {
      HeardBefore(serial, es, k, Success);
    }
  }

  lemma {:induction false} HeardOfAbsenceLast(serial: nat, es: seq<Event>, from: nat)
    requires from < |es|
    ensures HeardOfAbsence(serial, es, from) <==>
            HeardOfAbsence(serial, es[..|es| - 1], from) || Heard(serial, es, |es| - 1, NoZone)
  {
    var front := es[..|es| - 1];
    if HeardOfAbsence(serial, es, from) && !Heard(serial, es, |es| - 1, NoZone) {
      var k: nat :| from <= k < |es| && Heard(serial, es, k, NoZone);
      HeardBefore(serial, es, k, NoZone);
    }
    if HeardOfAbsence(serial, front, from) {
      var k: nat :| from <= k < |front| && Heard(serial, front, k, NoZone);
      HeardBefore(serial, es, k, NoZone);
    }
  }

  lemma {:induction false} HeardOfErrorLast(serial: nat, es: seq<Event>, from: nat)
    requires from < |es|
    ensures var front, last := es[..|es| - 1], |es| - 1;
      HeardOfError(serial, es, from) <==>
      HeardOfError(serial, front, from) ||
      (Heard(serial, es, last, Error) &&
       (es[last].report.serial >= GivenSerial(serial, front) || es[last].report.serial == 0))
  {
    forall k: nat | k < |es| - 1
      ensures Heard(serial, es, k, Error) <==> Heard(serial, es[..|es| - 1], k, Error)
      ensures GivenSerial(serial, es[..k]) == GivenSerial(serial, es[..|es| - 1][..k])
    {
      HeardBefore(serial, es, k, Error);
    }
  }

  /** One report more on a creation or an update. */
  lemma {:induction false} ResolvedStep(created: bool, given: nat, success: bool, absence: bool, error: bool, r: Report)
    ensures var row := Resolved(created, given, success, absence, error);
      var applies := AppliesTo(r, row.action);
      ZoneAfterReport(row, r) ==
      Resolved(created, given, success || (applies && r.verdict == Success && r.serial >= given),
               absence || (applies && r.verdict == NoZone),
               error || (applies && r.verdict == Error && (r.serial >= given || r.serial == 0)))
  {
    var row := Resolved(created, given, success, absence, error);
    assert EffectiveVerdict(row, r) == r.verdict;
    if AppliesTo(r, row.action) {
      match r.verdict
      case Success => assert ZoneAfterReport(row, r) == if !success && r.serial >= given then Settled(row) else row;
      case Error =>
      case NoZone =>
      case Other =>
    }
  }

  /** One event more that does not set a zone created or edited. */
  lemma {:induction false} OneMoreHeard(serial: nat, es: seq<Event>, from: nat)
    requires from < |es| && (from == 0 || !(es[from - 1].AbandonZone? || es[from - 1].DeleteZone?))
    requires Run(Fresh(serial), es[..|es| - 1]).zone == ZoneFate(serial, es[..|es| - 1], from)
    requires !SetsAt(serial, es, |es| - 1)
    ensures Run(Fresh(serial), es).zone == ZoneFate(serial, es, from)
  {
    var front, e := es[..|es| - 1], es[|es| - 1];
    HeardOfSuccessLast(serial, es, from);
    HeardOfAbsenceLast(serial, es, from);
    HeardOfErrorLast(serial, es, from);
    if e.Reported? {
      ResolvedStep(from == 0, GivenSerial(serial, front), HeardOfSuccess(serial, front, from),
                   HeardOfAbsence(serial, front, from), HeardOfError(serial, front, from), e.report);
    }
  }

  /** One event more that does not set a zone deleted or abandoned. */
  lemma {:induction false} OneMoreAnswered(serial: nat, es: seq<Event>, from: nat)
    requires 0 < from < |es| && (es[from - 1].AbandonZone? || es[from - 1].DeleteZone?)
    requires Run(Fresh(serial), es[..|es| - 1]).zone == ZoneFate(serial, es[..|es| - 1], from)
    requires !SetsAt(serial, es, |es| - 1)
    ensures Run(Fresh(serial), es).zone == ZoneFate(serial, es, from)
  {
    var front, e := es[..|es| - 1], es[|es| - 1];
    assert Answered(es, from) <==> Answered(front, from) || (e.Reported? && AppliesTo(e.report, Delete));
  }

  lemma {:induction false} SetZone(serial: nat, es: seq<Event>)
    requires es != [] && SetsAt(serial, es, |es| - 1)
    ensures Run(Fresh(serial), es).zone == ZoneFate(serial, es, |es|)
  {
    SerialIsGiven(serial, es[..|es| - 1]);
  }

  /** Over every run: a zone that was created, edited, deleted or abandoned, and not set again, is what the reports
      since then say. It is active exactly when one of them was a success, tagged for the action it then had or not
      at all, at or above the serial it then had; a deleted one is gone exactly when a report applied to that. */
  lemma {:induction false} ZonesFollowTheirFate(serial: nat, es: seq<Event>, from: nat)
    requires from <= |es| && (from == 0 || SetsAt(serial, es, from - 1))
    requires forall k :: from <= k < |es| ==> !SetsAt(serial, es, k)
    ensures Run(Fresh(serial), es).zone == ZoneFate(serial, es, from)
  {
    if es == [] {
    } else if from == |es| {
      SetZone(serial, es);
    } else {
      var front, last := es[..|es| - 1], |es| - 1;
      forall k: nat | k < last ensures SetsAt(serial, front, k) <==> SetsAt(serial, es, k) {
        SameBefore(serial, es, k);
      }
      ZonesFollowTheirFate(serial, front, from);
      if from > 0 && (es[from - 1].AbandonZone? || es[from - 1].DeleteZone?) {
        OneMoreAnswered(serial, es, from);
      } else {
        OneMoreHeard(serial, es, from);
      }
    }
  }
}
