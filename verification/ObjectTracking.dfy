/** Change tracking of objects: which fields were assigned, and what they held before. */
module ObjectTracking {
  import opened Wrappers

  // ---------------------------------------------------------------- values

  /** The values that are assigned. A moment is naive or has an offset from UTC; a thing is any other object. */
  datatype Value =
    | Null
    | Text(text: string)
    | Number(number: int)
    | Truth(truth: bool)
    | Moment(seconds: int, offset: Option<int>)
    | Thing(id: nat)

  function NumberOf(v: Value): Option<int> {
    match v
    case Number(n) => Some(n)
    case Truth(t) => Some(if t then 1 else 0)
    case _ => None
  }

  /** Whether the language takes two values to be equal: truth values are numbers, and moments with an offset are
      compared in UTC. */
  predicate Same(a: Value, b: Value) {
    || a == b
    || (NumberOf(a).Some? && NumberOf(a) == NumberOf(b))
    || (a.Moment? && b.Moment? && a.offset.Some? && b.offset.Some? &&
      a.seconds - a.offset.value == b.seconds - b.offset.value)
  }

  lemma {:induction false} SameIsTransitive(a: Value, b: Value, c: Value)
    requires Same(a, b) && Same(b, c)
    ensures Same(a, c)
  {
  }

  // ---------------------------------------------------------------- how fields bring values into shape

  /** What the libraries do that read and write values: numbers, times and addresses as text. */
  datatype Library = Library(
    show: Value -> string,
    readNumber: string -> Option<int>,
    readTime: string -> Option<Value>,
    readAddress: Value -> Option<int>,
    showAddress: int -> string,
    isHex: string -> bool)

  /** A written number or address is read back as what it was; a time that is read is a time. */
  ghost predicate Lawful(lib: Library) {
    && (forall n: int :: lib.readNumber(lib.show(Number(n))) == Some(n))
    && (forall a: int :: lib.readAddress(Text(lib.showAddress(a))) == Some(a))
    && (forall t: string :: lib.readTime(t).Some? ==> lib.readTime(t).value.Moment?)
  }

  /** The kinds of fields. Fields for domains, hosts, addresses of mail, keys, tags and the like differ only in the
      texts they accept. */
  datatype Kind =
    | Plain
    | Texts(accepts: string -> bool)
    | Integers(minimum: int, maximum: Option<int>)
    | Booleans
    | OneOf(choices: set<string>)
    | Times(aware: bool)
    | Uuids
    | Addresses(allows: Value -> bool)
    | AddressesOrHosts(isHost: string -> bool)

  const UUID_COUNT: int := 0x1_0000_0000_0000_0000_0000_0000_0000_0000

  function AsText(lib: Library, v: Value): Option<string> {
    match v
    case Text(t) => Some(t)
    case Null => None
    case Thing(_) => None
    case _ => Some(lib.show(v))
  }

  function AsNumber(lib: Library, v: Value): Option<int> {
    match v
    case Text(t) => lib.readNumber(t)
    case _ => NumberOf(v)
  }

  /** What a field makes of a value other than null, or nothing if it refuses it. */
  function Shape(lib: Library, kind: Kind, raw: Value): Option<Value> {
    match kind
    case Plain => Some(raw)
    case Texts(accepts) =>
      (match AsText(lib, raw)
       case Some(t) => if accepts(t) then Some(Text(t)) else None
       case None => None)
    case Integers(minimum, maximum) =>
      (match AsNumber(lib, raw)
       case Some(n) => if n < minimum || (maximum.Some? && n > maximum.value) then None else Some(Number(n))
       case None => None)
    case Booleans =>
      Some(Truth(match raw
                 case Text(t) => t != ""
                 case Number(n) => n != 0
                 case Truth(t) => t
                 case _ => true))
    case OneOf(choices) => if raw.Text? && raw.text in choices then Some(raw) else None
    case Times(aware) =>
      var read := if raw.Text? then lib.readTime(raw.text) else Some(raw);
      if read.None? || !read.value.Moment? then None
      else if !aware then Some(read.value.(offset := None))
      else if read.value.offset.None? then Some(read.value.(offset := Some(0)))
      else read
    case Uuids =>
      (match AsNumber(lib, raw)
       case Some(n) => if 0 <= n < UUID_COUNT then Some(Text(lib.show(Number(n)))) else None
       case None => if raw.Text? && lib.isHex(raw.text) then Some(raw) else None)
    case Addresses(allows) =>
      (match lib.readAddress(raw)
       case Some(a) => if allows(raw) then Some(Text(lib.showAddress(a))) else None
       case None => None)
    case AddressesOrHosts(isHost) =>
      (match lib.readAddress(raw)
       case Some(a) => Some(Text(lib.showAddress(a)))
       case None => if raw.Text? && isHost(raw.text) then Some(raw) else None)
  }

  /** A field brings any value into shape, or refuses it. */
  datatype Field = Field(readOnly: bool, coerce: Value -> Option<Value>)

  /** A field as the objects declare it. */
  datatype Declaration = Declaration(kind: Kind, nullable: bool, readOnly: bool)

  function Declared(lib: Library, d: Declaration): Field {
    Field(d.readOnly,
          (raw: Value) => if raw.Null? then (if d.nullable then Some(Null) else None) else Shape(lib, d.kind, raw))
  }

  function DeclaredFields(lib: Library, ds: map<string, Declaration>): map<string, Field> {
    map name | name in ds :: Declared(lib, ds[name])
  }

  // ---------------------------------------------------------------- one step

  datatype Error = InvalidValue | ReadOnlyField | KeyError

  datatype State = State(values: map<string, Value>, changed: set<string>, originals: map<string, Value>)

  datatype Event = Assign(name: string, raw: Value) | Reset(fields: seq<string>)

  function Assigned(field: Field, s: State, name: string, raw: Value): Result<State, Error> {
    match field.coerce(raw)
    case None => Err(InvalidValue)
    case Some(value) =>
      if field.readOnly && name in s.values then
        if !Same(s.values[name], value) then Err(ReadOnlyField) else Ok(s)
      else
        var originals :=
          if name in s.values && !Same(raw, s.values[name]) && name !in s.originals
          then s.originals[name := s.values[name]]
          else s.originals;
        Ok(State(s.values[name := value], s.changed + {name}, originals))
  }

  predicate Covers(fields: seq<string>, name: string) {
    fields == [] || name in fields
  }

  function NameSet(fields: seq<string>): set<string> {
    set name | name in fields
  }

  /** Without field names everything is reset. */
  function AfterReset(s: State, fields: seq<string>): State {
    if fields == [] then State(s.values, {}, map[])
    else State(s.values, s.changed - NameSet(fields), s.originals - NameSet(fields))
  }

  function Step(fields: map<string, Field>, s: State, e: Event): State {
    match e
    case Reset(names) => AfterReset(s, names)
    case Assign(name, raw) =>
      if name !in fields then s
      else match Assigned(fields[name], s, name, raw) case Ok(t) => t case Err(_) => s
  }

  function Run(fields: map<string, Field>, events: seq<Event>): State {
    if events == [] then State(map[], {}, map[])
    else Step(fields, Run(fields, events[..|events| - 1]), events[|events| - 1])
  }

  function OriginalValue(s: State, name: string): Result<Value, Error> {
    if name in s.originals then Ok(s.originals[name])
    else if name in s.values then Ok(s.values[name])
    else Err(KeyError)
  }

  // ---------------------------------------------------------------- what the original value should be

  function ValueOf(s: State, name: string): Option<Value> {
    if name in s.values then Some(s.values[name]) else None
  }

  /** The value at the last reset of the field or, when it had none then, the first one since. */
  function Baseline(fields: map<string, Field>, events: seq<Event>, name: string): Option<Value> {
    if events == [] then None
    else
      var e, before := events[|events| - 1], events[..|events| - 1];
      if e.Reset? && Covers(e.fields, name) then ValueOf(Run(fields, before), name)
      else match Baseline(fields, before, name)
        case Some(value) => Some(value)
        case None => ValueOf(Run(fields, events), name)
  }

  /** An assignment that is neither refused nor one that repeats the value of a read-only field. */
  predicate TakesEffect(fields: map<string, Field>, s: State, name: string, raw: Value) {
    && name in fields
    && fields[name].coerce(raw).Some?
    && !(fields[name].readOnly && name in s.values)
  }

  /** Whether the field was assigned since its last reset. */
  function AssignedSinceReset(fields: map<string, Field>, events: seq<Event>, name: string): bool {
    if events == [] then false
    else
      var e, before := events[|events| - 1], events[..|events| - 1];
      match e
      case Reset(names) => !Covers(names, name) && AssignedSinceReset(fields, before, name)
      case Assign(other, raw) =>
        AssignedSinceReset(fields, before, name) ||
          (other == name && TakesEffect(fields, Run(fields, before), name, raw))
  }

  /** A value equal to one that the field brought into shape is refused or brought into an equal shape. */
  ghost predicate Settles(field: Field) {
    forall raw, value, again :: field.coerce(raw) == Some(value) && Same(again, value) ==>
      field.coerce(again).None? || Same(field.coerce(again).value, value)
  }

  ghost predicate Trackable(field: Field) {
    field.readOnly || Settles(field)
  }

  /** The field's original value is the one it should be. */
  predicate Agrees(fields: map<string, Field>, events: seq<Event>, name: string) {
    match Baseline(fields, events, name)
    case Some(value) =>
      OriginalValue(Run(fields, events), name).Ok? && Same(OriginalValue(Run(fields, events), name).value, value)
    case None => OriginalValue(Run(fields, events), name) == Err(KeyError)
  }

  // ---------------------------------------------------------------- every kind of field settles

  lemma {:induction false} KindSettles(lib: Library, kind: Kind, raw: Value, value: Value, again: Value)
    requires Lawful(lib) && !raw.Null? && Shape(lib, kind, raw) == Some(value) && Same(again, value)
    ensures Shape(lib, kind, again).None? || Same(Shape(lib, kind, again).value, value)
  {
    match kind
    case Uuids =>
      var n := AsNumber(lib, raw);
      if n.Some? {
        assert lib.readNumber(lib.show(Number(n.value))) == n;
      }
    case Addresses(allows) =>
      var a := lib.readAddress(raw);
      assert lib.readAddress(Text(lib.showAddress(a.value))) == a;
    case AddressesOrHosts(isHost) =>
      var a := lib.readAddress(raw);
      if a.Some? {
        assert lib.readAddress(Text(lib.showAddress(a.value))) == a;
      }
    case _ =>
  }

  /** Whatever its kind, a declared field that is given a value it holds keeps it. */
  lemma {:induction false} DeclaredFieldsSettle(lib: Library, d: Declaration)
    requires Lawful(lib)
    ensures Settles(Declared(lib, d))
  {
    var field := Declared(lib, d);
    forall raw, value, again | field.coerce(raw) == Some(value) && Same(again, value)
      ensures field.coerce(again).None? || Same(field.coerce(again).value, value)
    {
      if raw.Null? {
        assert again.Null?;
      } else if again.Null? {
        assert value.Null?;
      } else {
        KindSettles(lib, d.kind, raw, value, again);
      }
    }
  }

  // ---------------------------------------------------------------- every run

  ghost predicate Shaped(field: Field, value: Value) {
    exists raw :: field.coerce(raw) == Some(value)
  }

  /** What holds of every field after every run. */
  ghost predicate Tracked(fields: map<string, Field>, s: State, name: string, baseline: Option<Value>) {
    && (name in s.values ==> name in fields && Shaped(fields[name], s.values[name]))
    && (name in s.originals ==> name in s.values && name in s.changed)
    && (name in s.originals ==> baseline.Some? && Same(s.originals[name], baseline.value))
    && (name !in s.originals && name in s.values ==> baseline.Some? && Same(s.values[name], baseline.value))
    && (name !in s.originals && name !in s.values ==> baseline.None?)
  }

  lemma {:induction false} AssignKeepsTracked(fields: map<string, Field>, s: State, name: string,
                                              baseline: Option<Value>, raw: Value)
    requires name in fields && Trackable(fields[name]) && Tracked(fields, s, name, baseline)
    ensures var t := Step(fields, s, Assign(name, raw));
            Tracked(fields, t, name, if baseline.Some? then baseline else ValueOf(t, name))
  {
    var field := fields[name];
    var value := field.coerce(raw);
    if value.Some? && !(field.readOnly && name in s.values) {
      assert Shaped(field, value.value);
      if name in s.values && name !in s.originals && Same(raw, s.values[name]) {
        var first :| field.coerce(first) == Some(s.values[name]);
        assert Same(value.value, s.values[name]);
        SameIsTransitive(value.value, s.values[name], baseline.value);
      }
    }
  }

  lemma {:induction false} OtherStepsKeepTracked(fields: map<string, Field>, s: State, name: string,
                                                 baseline: Option<Value>, e: Event)
    requires Tracked(fields, s, name, baseline)
    requires !(e.Assign? && e.name == name && name in fields)
    ensures Tracked(fields, Step(fields, s, e), name,
                    if e.Reset? && Covers(e.fields, name) then ValueOf(s, name) else baseline)
    ensures ValueOf(Step(fields, s, e), name) == ValueOf(s, name)
  {
    if e.Reset? && e.fields != [] {
      assert name in NameSet(e.fields) <==> name in e.fields;
    }
  }

  lemma {:induction false} RunKeepsTracked(fields: map<string, Field>, events: seq<Event>, name: string)
    requires name in fields ==> Trackable(fields[name])
    ensures Tracked(fields, Run(fields, events), name, Baseline(fields, events, name))
  {
    if events == [] {
    } else {
      var e, before := events[|events| - 1], events[..|events| - 1];
      var s := Run(fields, before);
      RunKeepsTracked(fields, before, name);
      if e.Assign? && e.name == name && name in fields {
        AssignKeepsTracked(fields, s, name, Baseline(fields, before, name), e.raw);
      } else {
        OtherStepsKeepTracked(fields, s, name, Baseline(fields, before, name), e);
      }
    }
  }

  /** After every run the original value of every declared field is the one at its last reset or the first since. */
  lemma {:induction false} OriginalsAreExact(lib: Library, ds: map<string, Declaration>, events: seq<Event>,
                                             name: string)
    requires Lawful(lib)
    ensures Agrees(DeclaredFields(lib, ds), events, name)
  {
    if name in ds {
      DeclaredFieldsSettle(lib, ds[name]);
    }
    RunKeepsTracked(DeclaredFields(lib, ds), events, name);
  }

  lemma {:induction false} UnsettledFieldIsLost(fields: map<string, Field>, name: string, raw: Value, value: Value,
                                                again: Value)
    requires name in fields && !fields[name].readOnly
    requires fields[name].coerce(raw) == Some(value) && Same(again, value)
    requires fields[name].coerce(again).Some? && !Same(fields[name].coerce(again).value, value)
    ensures !Agrees(fields, [Assign(name, raw), Assign(name, again)], name)
  {
    var one, two := [Assign(name, raw)], [Assign(name, raw), Assign(name, again)];
    assert one[..0] == [] && two[..1] == one;
    assert Run(fields, []) == State(map[], {}, map[]);
    assert Run(fields, one) == State(map[name := value], {name}, map[]);
    assert Baseline(fields, one, name) == Some(value);
    assert Baseline(fields, two, name) == Some(value);
    assert ValueOf(Run(fields, two), name) == fields[name].coerce(again);
  }

  /** What settling is needed for: a field of any other make has right originals after every run exactly when it
      is read-only or settles. */
  lemma {:induction false} TrackingNeedsSettling(fields: map<string, Field>, name: string)
    requires name in fields
    ensures (forall events :: Agrees(fields, events, name)) <==> Trackable(fields[name])
  {
    var field := fields[name];
    if Trackable(field) {
      forall events ensures Agrees(fields, events, name) {
        RunKeepsTracked(fields, events, name);
      }
    } else {
      var raw, value, again :| field.coerce(raw) == Some(value) && Same(again, value) &&
        field.coerce(again).Some? && !Same(field.coerce(again).value, value);
      UnsettledFieldIsLost(fields, name, raw, value, again);
    }
  }

  /** A field counts as changed exactly when it was assigned since its last reset. */
  lemma {:induction false} ChangedMeansAssigned(fields: map<string, Field>, events: seq<Event>, name: string)
    ensures name in Run(fields, events).changed <==> AssignedSinceReset(fields, events, name)
  {
    if events == [] {
    } else {
      var e, before := events[|events| - 1], events[..|events| - 1];
      ChangedMeansAssigned(fields, before, name);
      if e.Reset? {
        assert name in NameSet(e.fields) <==> name in e.fields;
      }
    }
  }

  /** A field that does not count as changed holds the very value it had at its last reset, whatever its make. */
  lemma {:induction false} UnchangedFieldsKeepTheirValue(fields: map<string, Field>, events: seq<Event>, name: string)
    requires name !in Run(fields, events).changed
    ensures ValueOf(Run(fields, events), name) == Baseline(fields, events, name)
  {
    if events == [] {
    } else {
      var e, before := events[|events| - 1], events[..|events| - 1];
      if e.Reset? && Covers(e.fields, name) {
      } else {
        if e.Reset? {
          assert name in NameSet(e.fields) <==> name in e.fields;
        }
        UnchangedFieldsKeepTheirValue(fields, before, name);
      }
    }
  }

  /** A read-only field never changes once it is set. */
  lemma {:induction false} ReadOnlyFieldsStay(fields: map<string, Field>, events: seq<Event>, more: seq<Event>,
                                              name: string)
    requires name in fields && fields[name].readOnly && name in Run(fields, events).values
    ensures ValueOf(Run(fields, events + more), name) == ValueOf(Run(fields, events), name)
  {
    if more == [] {
      assert events + more == events;
    } else {
      var before := more[..|more| - 1];
      ReadOnlyFieldsStay(fields, events, before, name);
      assert (events + more)[..|events + more| - 1] == events + before;
    }
  }

  // ---------------------------------------------------------------- what the fields hold

  /** Assignment number k gives the field a value that it accepts. */
  predicate Gives(fields: map<string, Field>, events: seq<Event>, k: nat, name: string) {
    k < |events| && events[k].Assign? && events[k].name == name && name in fields &&
    fields[name].coerce(events[k].raw).Some?
  }

  /** The assignment that counts: the first one to a read-only field, the last one to any other. */
  ghost predicate Counts(fields: map<string, Field>, events: seq<Event>, k: nat, name: string) {
    Gives(fields, events, k, name) &&
    forall j :: 0 <= j < |events| && Gives(fields, events, j, name) ==>
      if fields[name].readOnly then k <= j else j <= k
  }

  lemma {:induction false} CountsLast(fields: map<string, Field>, events: seq<Event>, name: string)
    requires events != []
    ensures var front, last := events[..|events| - 1], |events| - 1;
      && (forall k :: 0 <= k < last ==> (Gives(fields, events, k, name) <==> Gives(fields, front, k, name)))
      && (Gives(fields, events, last, name) && !fields[name].readOnly ==> Counts(fields, events, last, name))
  {
  }

  lemma {:induction false} SomeCounts(fields: map<string, Field>, events: seq<Event>, k: nat, name: string)
    returns (best: nat)
    requires Gives(fields, events, k, name)
    ensures Counts(fields, events, best, name)
    decreases if fields[name].readOnly then k else |events| - k
  {
    if j: nat :| j < |events| && Gives(fields, events, j, name) && if fields[name].readOnly then j < k else k < j {
      best := SomeCounts(fields, events, j, name);
    } else {
      best := k;
    }
  }

  lemma {:induction false} GivenLast(fields: map<string, Field>, events: seq<Event>, name: string) returns (k: nat)
    requires events != [] && Gives(fields, events, |events| - 1, name)
    requires var front := events[..|events| - 1];
      name in Run(fields, front).values <==> exists j: nat :: Counts(fields, front, j, name)
    ensures Counts(fields, events, k, name)
    ensures var front := events[..|events| - 1];
      if fields[name].readOnly && name in Run(fields, front).values then Counts(fields, front, k, name)
      else k == |events| - 1
  {
    var front, last := events[..|events| - 1], |events| - 1;
    CountsLast(fields, events, name);
    if fields[name].readOnly && name in Run(fields, front).values {
      k :| Counts(fields, front, k, name);
    } else {
      k := last;
      forall j | 0 <= j < last && fields[name].readOnly ensures !Gives(fields, events, j, name) {
        if Gives(fields, front, j, name) {
          var best := SomeCounts(fields, front, j, name);
        }
      }
    }
  }

  lemma {:induction false} OneCounts(fields: map<string, Field>, events: seq<Event>, k: nat, j: nat, name: string)
    requires Counts(fields, events, k, name) && Counts(fields, events, j, name)
    ensures k == j
  {
  }

  /** A field has a value exactly when it was given one that it accepts, whatever else was assigned or reset; it is
      what the field makes of the assignment that counts. */
  lemma {:induction false} FieldsHoldWhatTheyWereGiven(fields: map<string, Field>, events: seq<Event>, name: string)
    ensures name in Run(fields, events).values <==> exists k: nat :: Counts(fields, events, k, name)
    ensures forall k: nat :: Counts(fields, events, k, name) ==>
              name in Run(fields, events).values &&
              fields[name].coerce(events[k].raw) == Some(Run(fields, events).values[name])
  {
    if events == [] {
    } else {
      var front, last := events[..|events| - 1], |events| - 1;
      FieldsHoldWhatTheyWereGiven(fields, front, name);
      CountsLast(fields, events, name);
      if Gives(fields, events, last, name) {
        var best := GivenLast(fields, events, name);
        forall k: nat | Counts(fields, events, k, name) ensures k == best {
          OneCounts(fields, events, k, best, name);
        }
      } else {
        forall k: nat ensures Counts(fields, events, k, name) <==> Counts(fields, front, k, name) {
        }
      }
    }
  }

  /** The values a field of this kind may hold. */
  ghost predicate Fits(lib: Library, kind: Kind, value: Value) {
    match kind
    case Plain => true
    case Texts(accepts) => value.Text? && accepts(value.text)
    case Integers(minimum, maximum) =>
      value.Number? && minimum <= value.number && (maximum.Some? ==> value.number <= maximum.value)
    case Booleans => value.Truth?
    case OneOf(choices) => value.Text? && value.text in choices
    case Times(aware) => value.Moment? && (value.offset.Some? <==> aware)
    case Uuids =>
      value.Text? &&
      (lib.isHex(value.text) || exists n :: 0 <= n < UUID_COUNT && value.text == lib.show(Number(n)))
    case Addresses(_) => value.Text? && lib.readAddress(value).Some?
    case AddressesOrHosts(isHost) => value.Text? && (lib.readAddress(value).Some? || isHost(value.text))
  }

  /** What a field makes of a value fits its kind. */
  lemma {:induction false} ShapedFits(lib: Library, kind: Kind, raw: Value)
    requires Lawful(lib) && Shape(lib, kind, raw).Some?
    ensures Fits(lib, kind, Shape(lib, kind, raw).value)
  {
    match kind
    case Addresses(allows) =>
      var a := lib.readAddress(raw);
      assert lib.readAddress(Text(lib.showAddress(a.value))) == a;
    case AddressesOrHosts(isHost) =>
      var a := lib.readAddress(raw);
      if a.Some? {
        assert lib.readAddress(Text(lib.showAddress(a.value))) == a;
      }
    case _ =>
  }

  /** The number that a value stands for where a number is wanted: itself, 0 or 1, or what its text says. */
  predicate ReadsAs(lib: Library, raw: Value, n: int) {
    raw == Number(n) || (raw == Truth(true) && n == 1) || (raw == Truth(false) && n == 0) ||
    (raw.Text? && lib.readNumber(raw.text) == Some(n))
  }

  /** The values other than null that a field of this kind takes. */
  ghost predicate Takes(lib: Library, kind: Kind, raw: Value) {
    match kind
    case Plain => true
    case Texts(accepts) => !raw.Null? && !raw.Thing? && accepts(if raw.Text? then raw.text else lib.show(raw))
    case Integers(minimum, maximum) =>
      exists n :: ReadsAs(lib, raw, n) && minimum <= n && (maximum.Some? ==> n <= maximum.value)
    case Booleans => true
    case OneOf(choices) => raw.Text? && raw.text in choices
    case Times(_) => raw.Moment? || (raw.Text? && lib.readTime(raw.text).Some?)
    case Uuids =>
      if exists n :: ReadsAs(lib, raw, n) then exists n :: ReadsAs(lib, raw, n) && 0 <= n < UUID_COUNT
      else raw.Text? && lib.isHex(raw.text)
    case Addresses(allows) => lib.readAddress(raw).Some? && allows(raw)
    case AddressesOrHosts(isHost) => lib.readAddress(raw).Some? || (raw.Text? && isHost(raw.text))
  }

  lemma {:induction false} NumbersAreRead(lib: Library, raw: Value, n: int)
    ensures ReadsAs(lib, raw, n) <==> AsNumber(lib, raw) == Some(n)
  {
  }

  /** A field refuses a value exactly when its kind does not take it, and null exactly when it may not be null. */
  lemma {:induction false} FieldsRefuseExactly(lib: Library, d: Declaration, raw: Value)
    requires Lawful(lib)
    ensures Declared(lib, d).coerce(raw).Some? <==> if raw.Null? then d.nullable else Takes(lib, d.kind, raw)
  {
    forall n ensures ReadsAs(lib, raw, n) <==> AsNumber(lib, raw) == Some(n) {
      NumbersAreRead(lib, raw, n);
    }
    if AsNumber(lib, raw).Some? {
      assert ReadsAs(lib, raw, AsNumber(lib, raw).value);
    }
  }

  /** Only what is empty or zero is false; a time without an offset is taken to be in UTC, and a field for such times
      drops the offset. */
  lemma {:induction false} TruthAndTime(lib: Library, raw: Value)
    ensures !raw.Null? ==>
              (Shape(lib, Booleans, raw) == Some(Truth(false)) <==> raw in {Text(""), Number(0), Truth(false)})
    ensures raw.Moment? ==> Shape(lib, Times(false), raw) == Some(Moment(raw.seconds, None))
    ensures raw.Moment? ==>
              Shape(lib, Times(true), raw) == Some(if raw.offset.None? then Moment(raw.seconds, Some(0)) else raw)
  {
  }

  /** A value that fits is taken as it is, but for identifiers and addresses, which are rewritten. */
  lemma {:induction false} FittingIsTaken(lib: Library, kind: Kind, value: Value)
    requires Fits(lib, kind, value) && !kind.Uuids? && !kind.Addresses? && !kind.AddressesOrHosts?
    ensures Shape(lib, kind, value) == Some(value)
  {
    if kind.Times? && !kind.aware {
      assert value.(offset := None) == value;
    }
  }

  /** After every run every declared field that is set holds null, if it may, or a value that fits its kind. */
  lemma {:induction false} DeclaredFieldsFit(lib: Library, ds: map<string, Declaration>, events: seq<Event>,
                                             name: string)
    requires Lawful(lib) && name in Run(DeclaredFields(lib, ds), events).values
    ensures name in ds
    ensures var value := Run(DeclaredFields(lib, ds), events).values[name];
      if value.Null? && ds[name].nullable then true else Fits(lib, ds[name].kind, value)
  {
    var fields := DeclaredFields(lib, ds);
    FieldsHoldWhatTheyWereGiven(fields, events, name);
    var k: nat :| Counts(fields, events, k, name);
    var raw := events[k].raw;
    if !raw.Null? {
      ShapedFits(lib, ds[name].kind, raw);
    }
  }

  // ---------------------------------------------------------------- the object

  class TrackedObject {
    const lib: Library
    const declarations: map<string, Declaration>
    const fields: map<string, Field>
    var values: map<string, Value>
    var changed: set<string>
    var originals: map<string, Value>
    ghost var events: seq<Event>

    ghost predicate Valid()
      reads this
    {
      && fields == DeclaredFields(lib, declarations)
      && State(values, changed, originals) == Run(fields, events)
    }

    constructor (lib: Library, declarations: map<string, Declaration>)
      ensures Valid() && this.lib == lib && this.declarations == declarations && events == []
    {
      this.lib, this.declarations, fields := lib, declarations, DeclaredFields(lib, declarations);
      values, changed, originals, events := map[], {}, map[], [];
    }

    method Assign(name: string, raw: Value) returns (r: Result<(), Error>)
      requires Valid() && name in fields
      modifies this
      ensures Valid() && events == old(events) + [Event.Assign(name, raw)]
      ensures r == match Assigned(fields[name], Run(fields, old(events)), name, raw)
                   case Ok(_) => Ok(())
                   case Err(e) => Err(e)
      ensures r == Err(InvalidValue) <==> fields[name].coerce(raw).None?
      ensures r == Err(ReadOnlyField) <==>
                fields[name].coerce(raw).Some? && fields[name].readOnly && name in old(values) &&
                !Same(old(values)[name], fields[name].coerce(raw).value)
      ensures r.Err? ==> values == old(values) && changed == old(changed) && originals == old(originals)
    {
      events := events + [Event.Assign(name, raw)];
      assert events[..|events| - 1] == old(events);
      var value := fields[name].coerce(raw);
      if value.None? {
        return Err(InvalidValue);
      }
      if fields[name].readOnly && name in values {
        if !Same(values[name], value.value) {
          return Err(ReadOnlyField);
        }
        return Ok(());
      }
      changed := changed + {name};
      if name in values && !Same(raw, values[name]) && name !in originals {
        originals := originals[name := values[name]];
      }
      values := values[name := value.value];
      return Ok(());
    }

    method PopOriginals(names: seq<string>)
      modifies this`originals
      ensures originals == old(originals) - NameSet(names)
    {
      var i := 0;
      while i < |names|
        invariant i <= |names|
        invariant originals == old(originals) - NameSet(names[..i])
      {
        originals := originals - {names[i]};
        assert NameSet(names[..i + 1]) == NameSet(names[..i]) + {names[i]};
        i := i + 1;
      }
      assert names[..i] == names;
    }

    method ResetChanges(names: seq<string>)
      requires Valid()
      modifies this
      ensures Valid() && events == old(events) + [Reset(names)]
    {
      events := events + [Reset(names)];
      assert events[..|events| - 1] == old(events);
      if names != [] {
        changed := changed - NameSet(names);
        PopOriginals(names);
      } else {
        changed, originals := {}, map[];
      }
    }

    method GetOriginalValue(name: string) returns (r: Result<Value, Error>)
      requires Valid()
      ensures r == OriginalValue(Run(fields, events), name)
      ensures Lawful(lib) ==>
                match Baseline(fields, events, name)
                case Some(value) => r.Ok? && Same(r.value, value)
                case None => r == Err(KeyError)
    {
      if Lawful(lib) {
        OriginalsAreExact(lib, declarations, events, name);
      }
      if name in originals {
        return Ok(originals[name]);
      } else if name in values {
        return Ok(values[name]);
      }
      return Err(KeyError);
    }
  }
}
