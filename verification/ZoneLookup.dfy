/** Finding the zone that answers for a name, inside the scope a request's TSIG key grants. */
module ZoneLookup {
  import opened Wrappers
  import opened DnsNames
  import opened Sequences
  import opened StorageCriteria
  import opened ZoneForest

  datatype TsigScope = PoolScope | ZoneScope | OtherScope

  datatype TsigKey = TsigKey(scope: TsigScope, resource: Id)

  datatype Criterion = InPool(pool: nat) | OnlyZone(id: Id)

  datatype LookupError = Forbidden | NotImplemented | IndexError

  function ZoneCriterion(key: Option<TsigKey>, enforceTsig: bool, defaultPool: nat): Result<Criterion, LookupError> {
    match key
    case None => if enforceTsig then Err(Forbidden) else Ok(InPool(defaultPool))
    case Some(TsigKey(PoolScope, pool)) => Ok(InPool(pool))
    case Some(TsigKey(ZoneScope, id)) => Ok(OnlyZone(id))
    case Some(TsigKey(OtherScope, _)) => Err(NotImplemented)
  }

  /** The zones a request may be answered from: those of the pool its key is for, the zone its key is for, or, if
      keys are not insisted on, those of the default pool when it has none. */
  predicate Granted(rows: Rows, key: Option<TsigKey>, enforceTsig: bool, defaultPool: nat, id: Id) {
    Live(rows, id) &&
    if key.Some? then
      (key.value.scope.PoolScope? && rows[id].pool == key.value.resource) ||
      (key.value.scope.ZoneScope? && id == key.value.resource)
    else !enforceTsig && rows[id].pool == defaultPool
  }

  predicate InScope(rows: Rows, id: Id, c: Criterion) {
    Live(rows, id) && match c case InPool(pool) => rows[id].pool == pool case OnlyZone(z) => id == z
  }

  // ---------------------------------------------------------------- the walk

  /** A search for one zone accepts exactly one hit. */
  ghost predicate OnlyHit(rows: Rows, c: Criterion, text: string, id: Id) {
    && InScope(rows, id, c) && Hits(text, rows[id].name)
    && forall other :: InScope(rows, other, c) && Hits(text, rows[other].name) ==> other == id
  }

  /** The search for the text finds no zone. */
  ghost predicate Passed(rows: Rows, c: Criterion, text: string) {
    Readable(text) && forall id :: !OnlyHit(rows, c, text, id)
  }

  /** The number of names the walk tries: the last label alone is not tried. */
  function Levels(name: string): nat { |Labels(name)| - 1 }

  ghost predicate EndsAt(rows: Rows, c: Criterion, name: string, i: nat)
    requires i <= Levels(name)
  {
    forall k :: 0 <= k < i ==> Passed(rows, c, Ancestor(name, k))
  }

  /** The walk ends at the first level whose text finds exactly one zone or cannot be read. */
  ghost predicate Answers(rows: Rows, c: Criterion, name: string, r: Result<Option<Id>, LookupError>) {
    match r
    case Ok(None) => forall i :: 0 <= i < Levels(name) ==> Passed(rows, c, Ancestor(name, i))
    case Ok(Some(z)) => exists i :: 0 <= i < Levels(name) && EndsAt(rows, c, name, i) &&
                                    Readable(Ancestor(name, i)) && OnlyHit(rows, c, Ancestor(name, i), z)
    case Err(e) => e == IndexError && exists i :: 0 <= i < Levels(name) && EndsAt(rows, c, name, i) &&
                                                  !Readable(Ancestor(name, i))
  }

  lemma {:induction false} SingleHit(rows: Rows, c: Criterion, text: string, hits: set<Id>)
    requires forall id: Id :: id in hits <==> InScope(rows, id, c) && Hits(text, rows[id].name)
    ensures |hits| == 1 <==> exists id :: OnlyHit(rows, c, text, id)
    ensures |hits| == 1 ==> forall id :: id in hits ==> OnlyHit(rows, c, text, id)
  {
    if id: Id :| OnlyHit(rows, c, text, id) {
      assert hits == {id};
    }
    if |hits| == 1 {
      var z :| z in hits;
      assert |hits - {z}| == 0;
      assert OnlyHit(rows, c, text, z);
    }
  }

  method FindZone(rows: Rows, c: Criterion, text: string) returns (r: Result<Option<Id>, LookupError>)
    ensures r.Err? <==> !Readable(text)
    ensures r.Err? ==> r.error == IndexError
    ensures r.Ok? && r.value.Some? ==> OnlyHit(rows, c, text, r.value.value)
    ensures r == Ok(None) <==> Passed(rows, c, text)
  {
    if !Readable(text) {
      return Err(IndexError);
    }
    var hits := set id | id in rows && InScope(rows, id, c) && Hits(text, rows[id].name);
    SingleHit(rows, c, text, hits);
    if |hits| != 1 {
      return Ok(None);
    }
    var z :| z in hits;
    return Ok(Some(z));
  }

  /** Starts at the name itself and drops one label at a time. */
  method FindZoneByAncestorWalk(rows: Rows, key: Option<TsigKey>, enforceTsig: bool, defaultPool: nat, name: string)
    returns (r: Result<Option<Id>, LookupError>)
    ensures var c := ZoneCriterion(key, enforceTsig, defaultPool);
      if c.Err? then r == Err(c.error) else Answers(rows, c.value, name, r)
    ensures r == Err(Forbidden) <==> key.None? && enforceTsig
    ensures r == Err(NotImplemented) <==> key.Some? && key.value.scope.OtherScope?
    ensures r.Ok? && r.value.Some? ==> Granted(rows, key, enforceTsig, defaultPool, r.value.value)
  {
    var criterion := ZoneCriterion(key, enforceTsig, defaultPool);
    if criterion.Err? {
      return Err(criterion.error);
    }
    var c := criterion.value;
    var labels := Labels(name);
    for i := 0 to |labels| - 1
      invariant EndsAt(rows, c, name, i)
    {
      var found := FindZone(rows, c, Join(labels[i..], '.'));
      if found != Ok(None) {
        return found;
      }
    }
    return Ok(None);
  }

  // ---------------------------------------------------------------- names in questions

  /** A name as its labels are shown: a dot within a label stands behind a backslash, blanks are written as
      numbers. */
  function Shown(labels: seq<string>): string {
    if labels == [] then "" else labels[0] + "." + Shown(labels[1..])
  }

  function NameText(labels: seq<string>): string {
    if labels == [] then "." else Shown(labels)
  }

  /** The texts that the walk tries. */
  predicate Level(name: string, text: string) {
    text != "" && (text == name || Below(name, text))
  }

  /** The labels of a question: what follows a dot of the text has no blanks and keeps the limits of names,
      having without escapes as many bytes as characters. */
  ghost predicate Question(labels: seq<string>) {
    forall text :: Level(NameText(labels), text) ==> QueryText(text)
  }

  /** The zone answers for the name: it is the name's own zone or one above it. */
  ghost predicate Answerable(labels: seq<string>, zone: string) {
    exists i :: 0 <= i < |labels| && zone == Shown(labels[i..])
  }

  ghost predicate Covers(rows: Rows, id: Id, labels: seq<string>) {
    id in rows && Answerable(labels, rows[id].name)
  }

  /** The zone in scope with the longest name that answers for the name. */
  ghost predicate Right(rows: Rows, c: Criterion, labels: seq<string>, r: Result<Option<Id>, LookupError>) {
    match r
    case Ok(None) => forall id :: InScope(rows, id, c) ==> !Covers(rows, id, labels)
    case Ok(Some(z)) =>
      InScope(rows, z, c) && Covers(rows, z, labels) &&
      forall id :: InScope(rows, id, c) && Covers(rows, id, labels) && id != z ==> |rows[id].name| < |rows[z].name|
    case Err(_) => false
  }

  /** A text behind some dot of the name that finds zones which do not answer for the name, or cannot be read. */
  ghost predicate Strays(labels: seq<string>, text: string) {
    || !Readable(text)
    || FindsOthers(text)
    || (Plain(text) && ZoneName(text) && !Answerable(labels, text))
  }

  lemma {:induction false} LevelIsAncestor(name: string, text: string) returns (i: nat)
    requires Level(name, text) && name[|name| - 1] == '.'
    ensures i < Levels(name) && Ancestor(name, i) == text
  {
    var labels := Labels(name);
    if text == name {
      i := 0;
      assert labels[0..] == labels;
      JoinOfSplit(name, '.');
    } else {
      i := AboveIsAncestor(name, text);
    }
    assert text[|text| - 1] == '.';
    SplitParts(name, '.');
    assert labels[|labels| - 1..] == [labels[|labels| - 1]];
  }

  lemma {:induction false} AncestorIsLevel(name: string, i: nat)
    requires i < Levels(name)
    ensures Level(name, Ancestor(name, i))
  {
    var labels := Labels(name);
    if i == 0 {
      assert labels[0..] == labels;
      JoinOfSplit(name, '.');
    } else {
      AncestorIsAbove(name, i);
    }
    AncestorsShrink(name, i, |labels| - 1);
  }

  lemma {:induction false} AnswerableIsLevel(labels: seq<string>, i: nat)
    requires i < |labels|
    ensures Level(Shown(labels), Shown(labels[i..]))
  {
    if i == 0 {
      assert labels[0..] == labels;
    } else {
      AnswerableIsLevel(labels[1..], i - 1);
      assert labels[1..][i - 1..] == labels[i..];
      var head, rest, text := labels[0], Shown(labels[1..]), Shown(labels[i..]);
      assert Shown(labels) == head + "." + rest;
      assert Below(Shown(labels), rest);
      if text != rest {
        BelowIsTransitive(Shown(labels), rest, text);
      }
    }
  }

  // ---------------------------------------------------------------- when the answer is right

  lemma {:induction false} FindsOnlyItself(labels: seq<string>, text: string, zone: string)
    requires QueryText(text) && !Strays(labels, text) && ZoneName(zone) && Hits(text, zone)
    ensures zone == text && Answerable(labels, zone)
  {
    if Plain(text) {
      PlainNamesHitThemselves(text, zone);
    } else {
      FoundMeansFinds(text, zone);
    }
  }

  ghost predicate Straight(labels: seq<string>) {
    forall text :: Level(NameText(labels), text) ==> QueryText(text) && !Strays(labels, text)
  }

  /** A zone in scope that answers for the name is the only hit on its level. */
  lemma {:induction false} AnswerableIsFound(rows: Rows, c: Criterion, labels: seq<string>, id: Id) returns (i: nat)
    requires Straight(labels) && Named(rows) && Unique(rows) && InScope(rows, id, c) && Covers(rows, id, labels)
    ensures var name := NameText(labels);
      i < Levels(name) && Ancestor(name, i) == rows[id].name && !Passed(rows, c, Ancestor(name, i))
  {
    var name, zone := NameText(labels), rows[id].name;
    var k :| 0 <= k < |labels| && zone == Shown(labels[k..]);
    AnswerableIsLevel(labels, k);
    i := LevelIsAncestor(name, zone);
    ZoneTextIsPlain(zone);
    forall other | InScope(rows, other, c) && Hits(zone, rows[other].name) ensures other == id {
      PlainNamesHitThemselves(zone, rows[other].name);
    }
    PlainNamesHitThemselves(zone, zone);
    assert OnlyHit(rows, c, zone, id);
  }

  lemma {:induction false} StraightMissIsRight(rows: Rows, c: Criterion, labels: seq<string>)
    requires Straight(labels) && Named(rows) && Unique(rows) && Answers(rows, c, NameText(labels), Ok(None))
    ensures Right(rows, c, labels, Ok(None))
  {
    forall id | InScope(rows, id, c) ensures !Covers(rows, id, labels) {
      if Covers(rows, id, labels) {
        var i := AnswerableIsFound(rows, c, labels, id);
      }
    }
  }

  lemma {:induction false} LaterIsShorter(rows: Rows, c: Criterion, labels: seq<string>, i: nat, z: Id, id: Id)
    requires Straight(labels) && Named(rows) && Unique(rows)
    requires z in rows && OnlyHit(rows, c, rows[z].name, z)
    requires var name := NameText(labels);
      i < Levels(name) && EndsAt(rows, c, name, i) && rows[z].name == Ancestor(name, i)
    requires InScope(rows, id, c) && Covers(rows, id, labels) && id != z
    ensures |rows[id].name| < |rows[z].name|
  {
    var k := AnswerableIsFound(rows, c, labels, id);
    if i < k {
      AncestorsShrink(NameText(labels), i, k);
    }
  }

  lemma {:induction false} StraightHitIsRight(rows: Rows, c: Criterion, labels: seq<string>, z: Id)
    requires Straight(labels) && Named(rows) && Unique(rows) && Answers(rows, c, NameText(labels), Ok(Some(z)))
    ensures Right(rows, c, labels, Ok(Some(z)))
  {
    var name := NameText(labels);
    var i :| 0 <= i < Levels(name) && EndsAt(rows, c, name, i) && OnlyHit(rows, c, Ancestor(name, i), z);
    AncestorIsLevel(name, i);
    FindsOnlyItself(labels, Ancestor(name, i), rows[z].name);
    forall id | InScope(rows, id, c) && Covers(rows, id, labels) && id != z
      ensures |rows[id].name| < |rows[z].name|
    {
      LaterIsShorter(rows, c, labels, i, z, id);
    }
  }

  lemma {:induction false} StraightIsRight(rows: Rows, c: Criterion, labels: seq<string>,
                                           r: Result<Option<Id>, LookupError>)
    requires Straight(labels) && Named(rows) && Unique(rows) && Answers(rows, c, NameText(labels), r)
    ensures Right(rows, c, labels, r)
  {
    match r
    case Ok(None) => StraightMissIsRight(rows, c, labels);
    case Ok(Some(z)) => StraightHitIsRight(rows, c, labels, z);
    case Err(_) =>
      var name := NameText(labels);
      var i :| 0 <= i < Levels(name) && !Readable(Ancestor(name, i));
      AncestorIsLevel(name, i);
  }

  /** In every store. */
  ghost predicate AlwaysRight(labels: seq<string>) {
    forall rows, c, r ::
      Named(rows) && Unique(rows) && Answers(rows, c, NameText(labels), r) ==> Right(rows, c, labels, r)
  }

  ghost predicate FirstStray(labels: seq<string>, i: nat) {
    var name := NameText(labels);
    && i < Levels(name) && Strays(labels, Ancestor(name, i))
    && forall k :: 0 <= k < i ==> !Strays(labels, Ancestor(name, k))
  }

  lemma {:induction false} HasFirstStray(labels: seq<string>, i: nat) returns (first: nat)
    requires i < Levels(NameText(labels)) && Strays(labels, Ancestor(NameText(labels), i))
    ensures FirstStray(labels, first)
  {
    if k :| 0 <= k < i && Strays(labels, Ancestor(NameText(labels), k)) {
      first := HasFirstStray(labels, k);
    } else {
      first := i;
    }
  }

  lemma {:induction false} SameLengthSameName(labels: seq<string>, a: string, b: string)
    requires Answerable(labels, a) && Answerable(labels, b) && |a| == |b|
    ensures a == b
  {
    var i :| 0 <= i < |labels| && a == Shown(labels[i..]);
    var k :| 0 <= k < |labels| && b == Shown(labels[k..]);
    AnswerableIsLevel(labels, i);
    AnswerableIsLevel(labels, k);
  }

  /** A zone that a text finds although it does not answer for the name. */
  lemma {:induction false} StrayZone(labels: seq<string>, text: string) returns (zone: string)
    requires Question(labels) && Level(NameText(labels), text) && Readable(text) && Strays(labels, text)
    ensures ZoneName(zone) && Hits(text, zone) && !Answerable(labels, zone)
  {
    if FindsOthers(text) {
      var a, b := FindingTwo(text);
      zone := if Answerable(labels, a) then b else a;
      if Answerable(labels, a) && Answerable(labels, b) {
        SameLengthSameName(labels, a, b);
      }
    } else {
      zone := text;
      PlainNamesHitThemselves(text, text);
    }
  }

  /** The store that holds only the stray zone. */
  lemma {:induction false} StrayIsFound(labels: seq<string>, i: nat, zone: string) returns (rows: Rows)
    requires Question(labels) && FirstStray(labels, i) && ZoneName(zone) && !Answerable(labels, zone)
    requires Readable(Ancestor(NameText(labels), i)) && Hits(Ancestor(NameText(labels), i), zone)
    ensures Named(rows) && Unique(rows)
    ensures Answers(rows, InPool(0), NameText(labels), Ok(Some(0))) && !Right(rows, InPool(0), labels, Ok(Some(0)))
  {
    var name, c := NameText(labels), InPool(0);
    rows := map[0 := Zone(zone, 1, 0, None, false, false)];
    forall k | 0 <= k < i ensures Passed(rows, c, Ancestor(name, k)) {
      AncestorIsLevel(name, k);
      if Hits(Ancestor(name, k), zone) {
        FindsOnlyItself(labels, Ancestor(name, k), zone);
      }
    }
    assert OnlyHit(rows, c, Ancestor(name, i), 0);
  }

  /** The empty store. */
  lemma {:induction false} UnreadableIsMet(labels: seq<string>, i: nat)
    requires Question(labels) && FirstStray(labels, i) && !Readable(Ancestor(NameText(labels), i))
    ensures Answers(map[], InPool(0), NameText(labels), Err(IndexError))
  {
  }

  lemma {:induction false} StrayIsWrong(labels: seq<string>, i: nat)
    requires Question(labels) && FirstStray(labels, i)
    ensures !AlwaysRight(labels)
  {
    var text := Ancestor(NameText(labels), i);
    AncestorIsLevel(NameText(labels), i);
    if Readable(text) {
      var zone := StrayZone(labels, text);
      var rows := StrayIsFound(labels, i, zone);
    } else {
      UnreadableIsMet(labels, i);
    }
  }

  /** The walk finds the zone with the longest name that answers for a name, in every store, exactly when no
      text behind a dot of the name strays. */
  lemma {:induction false} LookupIsRightExactly(labels: seq<string>)
    requires Question(labels)
    ensures AlwaysRight(labels) <==> forall text :: Level(NameText(labels), text) ==> !Strays(labels, text)
  {
    var name := NameText(labels);
    if Straight(labels) {
      forall rows, c, r | Named(rows) && Unique(rows) && Answers(rows, c, name, r)
        ensures Right(rows, c, labels, r)
      {
        StraightIsRight(rows, c, labels, r);
      }
    } else {
      var text :| Level(name, text) && Strays(labels, text);
      var i := LevelIsAncestor(name, text);
      var first := HasFirstStray(labels, i);
      StrayIsWrong(labels, first);
    }
  }

  // ---------------------------------------------------------------- what a key grants

  lemma {:induction false} ScopeIsGrant(rows: Rows, key: Option<TsigKey>, enforceTsig: bool, defaultPool: nat, id: Id)
    ensures var c := ZoneCriterion(key, enforceTsig, defaultPool);
      Granted(rows, key, enforceTsig, defaultPool, id) <==> c.Ok? && InScope(rows, id, c.value)
  {
  }

  /** The zone that answers is, of those the request's key grants, the one with the longest name; there is none only
      if none of those answers for the name. */
  lemma {:induction false} AnswersComeFromTheGrant(rows: Rows, key: Option<TsigKey>, enforceTsig: bool,
                                                   defaultPool: nat, labels: seq<string>,
                                                   r: Result<Option<Id>, LookupError>)
    requires Straight(labels) && Named(rows) && Unique(rows)
    requires var c := ZoneCriterion(key, enforceTsig, defaultPool);
      c.Ok? && Answers(rows, c.value, NameText(labels), r)
    ensures r.Ok?
    ensures r.value.None? ==>
              forall id :: Granted(rows, key, enforceTsig, defaultPool, id) ==> !Covers(rows, id, labels)
    ensures r.value.Some? ==>
              && Granted(rows, key, enforceTsig, defaultPool, r.value.value) && Covers(rows, r.value.value, labels)
              && forall id :: id != r.value.value && Granted(rows, key, enforceTsig, defaultPool, id) &&
                              Covers(rows, id, labels) ==>
                |rows[id].name| < |rows[r.value.value].name|
  {
    StraightIsRight(rows, ZoneCriterion(key, enforceTsig, defaultPool).value, labels, r);
    forall id
      ensures Granted(rows, key, enforceTsig, defaultPool, id) <==>
        InScope(rows, id, ZoneCriterion(key, enforceTsig, defaultPool).value)
    {
      ScopeIsGrant(rows, key, enforceTsig, defaultPool, id);
    }
  }

  // ---------------------------------------------------------------- ordinary and odd names

  lemma {:induction false} WithoutDotsAnswerable(labels: seq<string>, text: string)
    requires forall i :: 0 <= i < |labels| ==> '.' !in labels[i]
    requires Level(Shown(labels), text)
    ensures Answerable(labels, text)
  {
    var name := Shown(labels);
    if text == name {
      assert labels[0..] == labels;
    } else {
      var head, rest := labels[0], Shown(labels[1..]);
      var dot := |name| - |text| - 1;
      assert name == head + "." + rest;
      assert forall k :: 0 <= k < |head| ==> name[k] == head[k];
      if dot == |head| {
        assert name[dot + 1..] == rest;
        assert text == Shown(labels[1..][0..]) by { assert labels[1..][0..] == labels[1..]; }
      } else {
        assert Below(rest, text) by {
          assert name[|name| - |text|..] == rest[|rest| - |text|..];
        }
        WithoutDotsAnswerable(labels[1..], text);
        var i :| 0 <= i < |labels[1..]| && text == Shown(labels[1..][i..]);
        assert labels[1..][i..] == labels[i + 1..];
      }
    }
  }

  predicate Operator(text: string) {
    text != "" && text[0] in {'!', '<', '>'}
  }

  /** Nothing in the name is escaped, a pattern, a comparison or a range. */
  ghost predicate Ordinary(labels: seq<string>) {
    && (forall i :: 0 <= i < |labels| ==> '.' !in labels[i])
    && '%' !in NameText(labels)
    && forall text :: Level(NameText(labels), text) ==> !Operator(text) && !StartsWith(text, "BETWEEN")
  }

  lemma {:induction false} OrdinaryTextIsPlain(text: string)
    requires QueryText(text) && '%' !in text && !Operator(text) && !StartsWith(text, "BETWEEN")
    ensures Plain(text)
  {
    if Wildcard(text) {
      WildcardClause(text);
      ReverseMembers(text);
      assert '%' !in Reverse(text) by {
        assert '%' in multiset(Reverse(text)) <==> '%' in multiset(text);
      }
    }
  }

  /** The condition a reader would expect, on the name alone. */
  lemma {:induction false} OrdinaryNamesAreRight(labels: seq<string>)
    requires Question(labels) && Ordinary(labels)
    ensures AlwaysRight(labels)
  {
    var name := NameText(labels);
    forall text | Level(name, text) ensures !Strays(labels, text) {
      assert '%' !in text by {
        assert text == name[|name| - |text|..];
      }
      assert QueryText(text);
      OrdinaryTextIsPlain(text);
      if ZoneName(text) {
        WithoutDotsAnswerable(labels, text);
      }
    }
    LookupIsRightExactly(labels);
  }

  lemma {:induction false} FirstLevel(name: string)
    requires name != "" && name[|name| - 1] == '.'
    ensures Levels(name) > 0 && Ancestor(name, 0) == name
  {
    var i := LevelIsAncestor(name, name);
    assert Labels(name)[0..] == Labels(name);
    JoinOfSplit(name, '.');
  }

  lemma {:induction false} PercentHits(zone: string, text: string)
    requires ZoneName(zone)
    ensures Readable("%." + zone) && (Hits("%." + zone, text) <==> LikeBelow(text, zone))
  {
    SubzonePattern(zone, text);
    assert ("%." + zone)[0] == '%';
  }

  lemma {:induction false} PercentCovers(labels: seq<string>, sub: string)
    requires labels != [] && Below(sub, Shown(labels)) && sub[0] != '.' && '%' !in sub
    ensures var odd := ["%"] + labels;
      Answerable(odd, Shown(labels)) && !Answerable(odd, sub)
  {
    var odd := ["%"] + labels;
    assert odd[1..] == labels;
    assert Shown(odd) == "%." + Shown(labels);
    if i :| 0 <= i < |odd| && sub == Shown(odd[i..]) {
      AnswerableIsLevel(odd, i);
    }
  }

  function TwoZones(zone: string, sub: string): Rows {
    map[0 := Zone(zone, 1, 0, None, false, false), 1 := Zone(sub, 1, 0, None, false, false)]
  }

  lemma {:induction false} PercentHitsSubzone(zone: string, sub: string)
    requires ZoneName(zone) && Below(sub, zone)
    ensures Readable("%." + zone) && OnlyHit(TwoZones(zone, sub), InPool(0), "%." + zone, 1)
  {
    PercentHits(zone, zone);
    PercentHits(zone, sub);
    BelowIsLikeBelow(sub, zone);
  }

  lemma {:induction false} FirstLevelAnswers(rows: Rows, c: Criterion, name: string, z: Id)
    requires name != "" && name[|name| - 1] == '.' && Readable(name) && OnlyHit(rows, c, name, z)
    ensures Answers(rows, c, name, Ok(Some(z)))
  {
    FirstLevel(name);
    assert EndsAt(rows, c, name, 0);
  }

  lemma {:induction false} TwoZonesAreStored(zone: string, sub: string)
    requires ZoneName(zone) && ZoneName(sub) && zone != sub
    ensures Named(TwoZones(zone, sub)) && Unique(TwoZones(zone, sub))
  {
  }

  lemma {:induction false} PercentText(labels: seq<string>)
    ensures NameText(["%"] + labels) == "%." + Shown(labels)
  {
    assert (["%"] + labels)[1..] == labels;
  }

  /** A name that begins with a percent sign finds a subzone although the zone itself is there to answer. */
  lemma {:induction false} PercentFindsSubzone(labels: seq<string>, sub: string)
    requires ZoneName(Shown(labels)) && ZoneName(sub) && Below(sub, Shown(labels))
    ensures var rows, odd := TwoZones(Shown(labels), sub), ["%"] + labels;
      && Named(rows) && Unique(rows)
      && Covers(rows, 0, odd) && !Covers(rows, 1, odd)
      && Answers(rows, InPool(0), NameText(odd), Ok(Some(1)))
  {
    var zone := Shown(labels);
    TwoZonesAreStored(zone, sub);
    PercentCovers(labels, sub);
    PercentText(labels);
    PercentHitsSubzone(zone, sub);
    FirstLevelAnswers(TwoZones(zone, sub), InPool(0), "%." + zone, 1);
  }
}
