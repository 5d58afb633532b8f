/** The re-entrant zone locks around central's operations, first as one thread runs them, then for any
    interleaving of threads. */
module ZoneLock {
  import opened Wrappers

  datatype Lock = CreateNewZone | OfZone(id: nat)

  /** A synchronized operation and the synchronized operations it calls, as far as it gets. */
  datatype Call = Call(lock: Lock, calls: seq<Call>)

  datatype Event = Acquire(lock: Lock) | Enter(lock: Lock) | Leave(lock: Lock) | Free(lock: Lock)

  // ---------------------------------------------------------------- one thread

  /** What one thread does: it takes a lock only for the outermost call on it. */
  function Trace(call: Call, held: set<Lock>): seq<Event>
    decreases call, 1
  {
    if call.lock in held then [Enter(call.lock)] + TraceAll(call.calls, held) + [Leave(call.lock)]
    else
      [Acquire(call.lock), Enter(call.lock)] + TraceAll(call.calls, held + {call.lock}) +
        [Leave(call.lock), Free(call.lock)]
  }

  function TraceAll(calls: seq<Call>, held: set<Lock>): seq<Event>
    decreases calls, 0
  {
    if calls == [] then [] else Trace(calls[0], held) + TraceAll(calls[1..], held)
  }

  /** The names of the locks a thread holds. */
  class ZoneLockLocal {
    var held: set<Lock>

    constructor ()
      ensures held == {}
    {
      held := {};
    }

    method Hold(name: Lock)
      modifies this
      ensures held == old(held) + {name}
    {
      held := held + {name};
    }

    /** Releasing a name that is not held is a key error. */
    method Release(name: Lock)
      requires name in held
      modifies this
      ensures held == old(held) - {name}
    {
      held := held - {name};
    }

    predicate HasLock(name: Lock)
      reads this
    {
      name in held
    }
  }

  /** The decorator: runs the operation, taking and releasing the lock unless the thread has it. */
  method SyncWrapper(local: ZoneLockLocal, call: Call) returns (events: seq<Event>)
    modifies local
    ensures local.held == old(local.held)
    ensures events == Trace(call, old(local.held))
    decreases call, 1
  {
    if local.HasLock(call.lock) {
      var inner := RunAll(local, call.calls);
      return [Enter(call.lock)] + inner + [Leave(call.lock)];
    }
    local.Hold(call.lock);
    var inner := RunAll(local, call.calls);
    local.Release(call.lock);
    return [Acquire(call.lock), Enter(call.lock)] + inner + [Leave(call.lock), Free(call.lock)];
  }

  method RunAll(local: ZoneLockLocal, calls: seq<Call>) returns (events: seq<Event>)
    modifies local
    ensures local.held == old(local.held)
    ensures events == TraceAll(calls, old(local.held))
    decreases calls, 0
  {
    if calls == [] {
      return [];
    }
    var first := SyncWrapper(local, calls[0]);
    var rest := RunAll(local, calls[1..]);
    return first + rest;
  }

  // ---------------------------------------------------------------- what is carried out

  /** Where operations begin and end, whatever locks are taken. */
  function Visible(es: seq<Event>): seq<Event> {
    if es == [] then []
    else Visible(es[..|es| - 1]) + (if es[|es| - 1].Enter? || es[|es| - 1].Leave? then [es[|es| - 1]] else [])
  }

  /** An operation as if there were no locks: it begins, makes its calls in turn, each as a whole, and ends. */
  function Plainly(call: Call): seq<Event>
    decreases call, 1
  {
    [Enter(call.lock)] + AllPlainly(call.calls) + [Leave(call.lock)]
  }

  function AllPlainly(calls: seq<Call>): seq<Event>
    decreases calls, 0
  {
    if calls == [] then [] else Plainly(calls[0]) + AllPlainly(calls[1..])
  }

  lemma {:induction false} VisibleOfSum(a: seq<Event>, b: seq<Event>)
    ensures Visible(a + b) == Visible(a) + Visible(b)
  {
    if b == [] {
      assert a + b == a;
    } else {
      VisibleOfSum(a, b[..|b| - 1]);
      assert (a + b)[..|a + b| - 1] == a + b[..|b| - 1];
    }
  }

  lemma {:induction false} VisibleEnds(lock: Lock)
    ensures Visible([Enter(lock)]) == [Enter(lock)] && Visible([Acquire(lock), Enter(lock)]) == [Enter(lock)]
    ensures Visible([Leave(lock)]) == [Leave(lock)] && Visible([Leave(lock), Free(lock)]) == [Leave(lock)]
  {
    assert [Enter(lock)][..0] == [] && [Leave(lock)][..0] == [] && [Acquire(lock)][..0] == [];
    assert [Acquire(lock), Enter(lock)][..1] == [Acquire(lock)];
    assert [Leave(lock), Free(lock)][..1] == [Leave(lock)];
    assert Visible([Acquire(lock)]) == [];
  }

  /** Locking leaves nothing out and adds nothing: a thread begins and ends the operation and everything it calls,
      inner calls inside outer ones, in the order of a run without locks. */
  lemma {:induction false} OperationsAreCarriedOut(call: Call, held: set<Lock>)
    ensures Visible(Trace(call, held)) == Plainly(call)
    decreases call, 1
  {
    var n := call.lock;
    var inner := TraceAll(call.calls, held + {n});
    VisibleEnds(n);
    AllAreCarriedOut(call.calls, held + {n});
    if n in held {
      assert held + {n} == held;
      VisibleOfSum([Enter(n)] + inner, [Leave(n)]);
      VisibleOfSum([Enter(n)], inner);
    } else {
      VisibleOfSum([Acquire(n), Enter(n)] + inner, [Leave(n), Free(n)]);
      VisibleOfSum([Acquire(n), Enter(n)], inner);
    }
  }

  lemma {:induction false} AllAreCarriedOut(calls: seq<Call>, held: set<Lock>)
    ensures Visible(TraceAll(calls, held)) == AllPlainly(calls)
    decreases calls, 0
  {
    if calls == [] {
    } else {
      OperationsAreCarriedOut(calls[0], held);
      AllAreCarriedOut(calls[1..], held);
      VisibleOfSum(Trace(calls[0], held), TraceAll(calls[1..], held));
    }
  }

  /** The locks of the operations that are begun. */
  function Entered(es: seq<Event>): seq<Lock> {
    if es == [] then []
    else Entered(es[..|es| - 1]) + (if es[|es| - 1].Enter? then [es[|es| - 1].lock] else [])
  }

  /** The locks of a call and of all calls below it, each call once, the outer before the inner. */
  function PreOrder(call: Call): seq<Lock>
    decreases call, 1
  {
    [call.lock] + AllPreOrder(call.calls)
  }

  function AllPreOrder(calls: seq<Call>): seq<Lock>
    decreases calls, 0
  {
    if calls == [] then [] else PreOrder(calls[0]) + AllPreOrder(calls[1..])
  }

  lemma {:induction false} EnteredOfSum(a: seq<Event>, b: seq<Event>)
    ensures Entered(a + b) == Entered(a) + Entered(b)
  {
    if b == [] {
      assert a + b == a;
    } else {
      EnteredOfSum(a, b[..|b| - 1]);
      assert (a + b)[..|a + b| - 1] == a + b[..|b| - 1];
    }
  }

  lemma {:induction false} EnteredIsVisible(es: seq<Event>)
    ensures Entered(Visible(es)) == Entered(es)
  {
    if es == [] {
    } else {
      var front, last := es[..|es| - 1], es[|es| - 1];
      EnteredIsVisible(front);
      EnteredOfSum(Visible(front), [last]);
      assert [last][..0] == [];
      assert Visible(front) + [] == Visible(front);
    }
  }

  lemma {:induction false} PlainlyEnters(call: Call)
    ensures Entered(Plainly(call)) == PreOrder(call)
    decreases call, 1
  {
    var n := call.lock;
    AllPlainlyEnter(call.calls);
    EnteredOfSum([Enter(n)] + AllPlainly(call.calls), [Leave(n)]);
    EnteredOfSum([Enter(n)], AllPlainly(call.calls));
    assert [Enter(n)][..0] == [] && [Leave(n)][..0] == [];
  }

  lemma {:induction false} AllPlainlyEnter(calls: seq<Call>)
    ensures Entered(AllPlainly(calls)) == AllPreOrder(calls)
    decreases calls, 0
  {
    if calls == [] {
    } else {
      PlainlyEnters(calls[0]);
      AllPlainlyEnter(calls[1..]);
      EnteredOfSum(Plainly(calls[0]), AllPlainly(calls[1..]));
    }
  }

  /** Whatever the thread holds already, it begins the operation and every call below it exactly once, the outer
      before the inner and calls in their order. */
  lemma {:induction false} EveryCallIsEntered(call: Call, held: set<Lock>)
    ensures Entered(Trace(call, held)) == PreOrder(call)
  {
    OperationsAreCarriedOut(call, held);
    EnteredIsVisible(Trace(call, held));
    PlainlyEnters(call);
  }

  // ---------------------------------------------------------------- the nesting central performs

  /** A lock may be taken by a thread that holds none, and a zone's lock during a creation. */
  predicate Allowed(held: set<Lock>, lock: Lock) {
    held == {} || (held == {CreateNewZone} && lock.OfZone?)
  }

  predicate Disciplined(call: Call, held: set<Lock>)
    decreases call, 1
  {
    (call.lock in held || Allowed(held, call.lock)) && AllDisciplined(call.calls, held + {call.lock})
  }

  predicate AllDisciplined(calls: seq<Call>, held: set<Lock>)
    decreases calls, 0
  {
    calls == [] || (Disciplined(calls[0], held) && AllDisciplined(calls[1..], held))
  }

  datatype Operation =
    | IncrementZoneSerial(zone: nat)
    | CreateZone(subzones: seq<nat>)
    | UpdateZone(zone: nat)
    | DeleteZone(zone: nat)
    | UpdateStatus(zone: nat)

  function Updates(zones: seq<nat>): seq<Call> {
    if zones == [] then [] else [Call(OfZone(zones[0]), [])] + Updates(zones[1..])
  }

  /** Creating a zone updates its subzones one at a time; no other operation calls a synchronized one. */
  function AsCall(op: Operation): Call {
    match op
    case CreateZone(subzones) => Call(CreateNewZone, Updates(subzones))
    case _ => Call(OfZone(op.zone), [])
  }

  lemma {:induction false} UpdatesAreDisciplined(zones: seq<nat>)
    ensures AllDisciplined(Updates(zones), {CreateNewZone})
  {
    if zones == [] {
    } else {
      UpdatesAreDisciplined(zones[1..]);
      assert Updates(zones)[1..] == Updates(zones[1..]);
      assert Disciplined(Call(OfZone(zones[0]), []), {CreateNewZone});
    }
  }

  lemma {:induction false} OperationsAreDisciplined(op: Operation)
    ensures Disciplined(AsCall(op), {})
  {
    if op.CreateZone? {
      UpdatesAreDisciplined(op.subzones);
      assert {} + {CreateNewZone} == {CreateNewZone};
    }
  }

  lemma {:induction false} UpdatesEnter(zones: seq<nat>)
    ensures |AllPreOrder(Updates(zones))| == |zones|
    ensures forall i :: 0 <= i < |zones| ==> AllPreOrder(Updates(zones))[i] == OfZone(zones[i])
  {
    if zones == [] {
    } else {
      UpdatesEnter(zones[1..]);
      assert Updates(zones)[1..] == Updates(zones[1..]);
      assert PreOrder(Call(OfZone(zones[0]), [])) == [OfZone(zones[0])];
    }
  }

  /** Creating a zone enters the creation and then an update of each subzone; any other operation enters itself. */
  lemma {:induction false} OperationsEnter(op: Operation)
    ensures var entered := PreOrder(AsCall(op));
      if op.CreateZone?
      then && |entered| == |op.subzones| + 1 && entered[0] == CreateNewZone
           && forall i :: 0 <= i < |op.subzones| ==> entered[i + 1] == OfZone(op.subzones[i])
      else entered == [OfZone(op.zone)]
  {
    if op.CreateZone? {
      UpdatesEnter(op.subzones);
    } else {
      assert AllPreOrder([]) == [];
    }
  }

  function Program(ops: seq<Operation>): seq<Call> {
    if ops == [] then [] else [AsCall(ops[0])] + Program(ops[1..])
  }

  lemma {:induction false} ProgramIsDisciplined(ops: seq<Operation>)
    ensures AllDisciplined(Program(ops), {})
  {
    if ops == [] {
    } else {
      OperationsAreDisciplined(ops[0]);
      ProgramIsDisciplined(ops[1..]);
      assert Program(ops)[1..] == Program(ops[1..]);
    }
  }

  /** Programs of operations that call back into locks they hold in any way, and otherwise keep the discipline. */
  predicate AllPrograms(programs: seq<seq<Call>>) {
    forall t :: 0 <= t < |programs| ==> AllDisciplined(programs[t], {})
  }

  /** The theorems about threads below apply to any threads that run central's operations. */
  lemma {:induction false} CentralIsDisciplined(runs: seq<seq<Operation>>)
    ensures AllPrograms(seq(|runs|, i requires 0 <= i < |runs| => Program(runs[i])))
  {
    forall t | 0 <= t < |runs| ensures AllDisciplined(Program(runs[t]), {}) {
      ProgramIsDisciplined(runs[t]);
    }
  }

  // ---------------------------------------------------------------- proper event sequences

  /** A thread's locks and the operations it is inside of. */
  datatype Local = Local(held: set<Lock>, open: seq<Lock>)

  const IDLE := Local({}, [])

  /** Executes one event, or fails: nothing is taken twice or out of order, nothing absent is released,
      no lock is released inside an operation on it, and operations run only under their lock. */
  function After(l: Local, e: Event): Option<Local> {
    match e
    case Acquire(n) => if n !in l.held && Allowed(l.held, n) then Some(l.(held := l.held + {n})) else None
    case Enter(n) => if n in l.held then Some(l.(open := l.open + [n])) else None
    case Leave(n) =>
      if l.open != [] && l.open[|l.open| - 1] == n then Some(l.(open := l.open[..|l.open| - 1])) else None
    case Free(n) => if n in l.held && n !in l.open then Some(l.(held := l.held - {n})) else None
  }

  function Execute(l: Local, es: seq<Event>): Option<Local>
    decreases |es|
  {
    if es == [] then Some(l)
    else match After(l, es[0])
      case None => None
      case Some(next) => Execute(next, es[1..])
  }

  lemma {:induction false} ExecuteConcat(l: Local, a: seq<Event>, b: seq<Event>)
    requires Execute(l, a).Some?
    ensures Execute(l, a + b) == Execute(Execute(l, a).value, b)
    decreases |a|
  {
    if a == [] {
      assert a + b == b;
    } else {
      assert (a + b)[1..] == a[1..] + b;
      ExecuteConcat(After(l, a[0]).value, a[1..], b);
    }
  }

  lemma {:induction false} EnterNew(l: Local, n: Lock, rest: seq<Event>)
    requires n !in l.held && Allowed(l.held, n)
    ensures Execute(l, [Acquire(n), Enter(n)] + rest) == Execute(Local(l.held + {n}, l.open + [n]), rest)
  {
    var es := [Acquire(n), Enter(n)] + rest;
    assert es[1..] == [Enter(n)] + rest && es[1..][1..] == rest;
  }

  lemma {:induction false} LeaveAndFree(l: Local, n: Lock)
    requires n !in l.held && forall x :: x in l.open ==> x in l.held
    ensures Execute(Local(l.held + {n}, l.open + [n]), [Leave(n), Free(n)]) == Some(l)
  {
    var inside := Local(l.held + {n}, l.open + [n]);
    assert inside.open[..|inside.open| - 1] == l.open;
    assert [Leave(n), Free(n)][1..] == [Free(n)] && [Free(n)][1..] == [];
    assert l.held + {n} - {n} == l.held;
    assert Execute(Local(l.held + {n}, l.open), [Free(n)]) == Execute(l, []);
  }

  /** A disciplined operation executes properly and leaves the thread as it was. */
  lemma {:induction false} TraceExecutes(call: Call, l: Local)
    requires Disciplined(call, l.held) && forall n :: n in l.open ==> n in l.held
    ensures Execute(l, Trace(call, l.held)) == Some(l)
    decreases call, 1
  {
    var n := call.lock;
    var inside := Local(l.held + {n}, l.open + [n]);
    TraceAllExecutes(call.calls, inside);
    var body := TraceAll(call.calls, l.held + {n});
    assert inside.open[..|inside.open| - 1] == l.open;
    if n in l.held {
      assert l.held + {n} == l.held;
      ExecuteConcat(inside, body, [Leave(n)]);
      assert Execute(inside, [Leave(n)]) == Some(l) by {
        assert [Leave(n)][1..] == [];
      }
      assert Trace(call, l.held) == [Enter(n)] + (body + [Leave(n)]);
      assert ([Enter(n)] + (body + [Leave(n)]))[1..] == body + [Leave(n)];
    } else {
      var last := [Leave(n), Free(n)];
      ExecuteConcat(inside, body, last);
      LeaveAndFree(l, n);
      assert Trace(call, l.held) == [Acquire(n), Enter(n)] + (body + last);
      EnterNew(l, n, body + last);
    }
  }

  lemma {:induction false} TraceAllExecutes(calls: seq<Call>, l: Local)
    requires AllDisciplined(calls, l.held) && forall n :: n in l.open ==> n in l.held
    ensures Execute(l, TraceAll(calls, l.held)) == Some(l)
    decreases calls, 0
  {
    if calls == [] {
    } else {
      TraceExecutes(calls[0], l);
      TraceAllExecutes(calls[1..], l);
      ExecuteConcat(l, Trace(calls[0], l.held), TraceAll(calls[1..], l.held));
    }
  }

  // ---------------------------------------------------------------- threads

  datatype Thread = Thread(local: Local, todo: seq<Event>)

  datatype State = State(threads: seq<Thread>, owner: map<Lock, nat>)

  /** Each thread is to run its own sequence of operations. */
  function Initial(programs: seq<seq<Call>>): State {
    State(seq(|programs|, i requires 0 <= i < |programs| => Thread(IDLE, TraceAll(programs[i], {}))), map[])
  }

  /** A thread can run unless it waits for a lock that has an owner. */
  predicate Enabled(s: State, t: nat) {
    t < |s.threads| && s.threads[t].todo != [] &&
    (s.threads[t].todo[0].Acquire? ==> s.threads[t].todo[0].lock !in s.owner)
  }

  function Shorter(open: seq<Lock>): seq<Lock> {
    if open == [] then [] else open[..|open| - 1]
  }

  /** One event of one thread, as the code executes it, whether or not it is proper. */
  function Apply(s: State, t: nat): State
    requires t < |s.threads| && s.threads[t].todo != []
  {
    var thread, e := s.threads[t], s.threads[t].todo[0];
    var local := match e
      case Acquire(n) => thread.local.(held := thread.local.held + {n})
      case Enter(n) => thread.local.(open := thread.local.open + [n])
      case Leave(n) => thread.local.(open := Shorter(thread.local.open))
      case Free(n) => thread.local.(held := thread.local.held - {n});
    var owner := match e
      case Acquire(n) => s.owner[n := t]
      case Free(n) => s.owner - {n}
      case _ => s.owner;
    State(s.threads[t := Thread(local, thread.todo[1..])], owner)
  }

  ghost predicate Run(programs: seq<seq<Call>>, states: seq<State>, schedule: seq<nat>) {
    && AllPrograms(programs)
    && |states| == |schedule| + 1
    && states[0] == Initial(programs)
    && forall i :: 0 <= i < |schedule| ==>
      Enabled(states[i], schedule[i]) && states[i + 1] == Apply(states[i], schedule[i])
  }

  /** What each thread has still to do is proper and leaves it idle. */
  ghost predicate Proper(s: State) {
    forall t :: 0 <= t < |s.threads| ==> Execute(s.threads[t].local, s.threads[t].todo) == Some(IDLE)
  }

  ghost predicate OpenHeld(s: State) {
    forall t, n :: 0 <= t < |s.threads| && n in s.threads[t].local.open ==> n in s.threads[t].local.held
  }

  predicate HolderOwns(s: State, t: nat, n: Lock) {
    t < |s.threads| ==> (n in s.threads[t].local.held <==> n in s.owner && s.owner[n] == t)
  }

  ghost predicate Invariant(s: State) {
    && Proper(s) && OpenHeld(s)
    && (forall t, n :: HolderOwns(s, t, n))
    && (forall n :: n in s.owner ==> s.owner[n] < |s.threads|)
  }

  lemma {:induction false} HeldMeansOwned(s: State)
    requires forall t, n :: HolderOwns(s, t, n)
    ensures forall t, n :: 0 <= t < |s.threads| ==>
              (n in s.threads[t].local.held <==> n in s.owner && s.owner[n] == t)
  {
    forall t, n | 0 <= t < |s.threads| ensures n in s.threads[t].local.held <==> n in s.owner && s.owner[n] == t {
      assert HolderOwns(s, t, n);
    }
  }

  lemma {:induction false} InitialInvariant(programs: seq<seq<Call>>)
    requires AllPrograms(programs)
    ensures Invariant(Initial(programs))
  {
    var s := Initial(programs);
    forall t | 0 <= t < |s.threads| ensures Execute(s.threads[t].local, s.threads[t].todo) == Some(IDLE) {
      TraceAllExecutes(programs[t], IDLE);
    }
  }

  /** The event that is next is proper, and the thread that runs it comes out as it should. */
  lemma {:induction false} NextIsProper(s: State, t: nat)
    requires Invariant(s) && Enabled(s, t)
    ensures After(s.threads[t].local, s.threads[t].todo[0]) == Some(Apply(s, t).threads[t].local)
    ensures Execute(Apply(s, t).threads[t].local, Apply(s, t).threads[t].todo) == Some(IDLE)
    ensures forall u :: 0 <= u < |s.threads| && u != t ==> Apply(s, t).threads[u] == s.threads[u]
  {
    var thread := s.threads[t];
    assert Execute(thread.local, thread.todo) == Some(IDLE);
  }

  lemma {:induction false} OwnersAgree(s: State, t: nat, u: nat, n: Lock)
    requires Invariant(s) && Enabled(s, t)
    ensures HolderOwns(Apply(s, t), u, n)
  {
    NextIsProper(s, t);
    assert HolderOwns(s, u, n) && HolderOwns(s, t, n);
  }

  lemma {:induction false} OpenStaysHeld(s: State, t: nat)
    requires Invariant(s) && Enabled(s, t)
    ensures OpenHeld(Apply(s, t))
  {
    var s' := Apply(s, t);
    NextIsProper(s, t);
    forall u, n | 0 <= u < |s'.threads| && n in s'.threads[u].local.open ensures n in s'.threads[u].local.held {
      assert forall m :: m in s.threads[u].local.open ==> m in s.threads[u].local.held;
    }
  }

  lemma {:induction false} StaysProper(s: State, t: nat)
    requires Invariant(s) && Enabled(s, t)
    ensures Proper(Apply(s, t))
  {
    NextIsProper(s, t);
  }

  lemma {:induction false} StepKeeps(s: State, t: nat)
    requires Invariant(s) && Enabled(s, t)
    ensures Invariant(Apply(s, t))
  {
    StaysProper(s, t);
    OpenStaysHeld(s, t);
    forall u, n ensures HolderOwns(Apply(s, t), u, n) {
      OwnersAgree(s, t, u, n);
    }
  }

  lemma {:induction false} RunKeeps(programs: seq<seq<Call>>, states: seq<State>, schedule: seq<nat>, i: nat)
    requires Run(programs, states, schedule) && i < |states|
    ensures Invariant(states[i])
  {
    if i == 0 {
      InitialInvariant(programs);
    } else {
      RunKeeps(programs, states, schedule, i - 1);
      StepKeeps(states[i - 1], schedule[i - 1]);
    }
  }

  // ---------------------------------------------------------------- theorems over every interleaving

  /** At most one thread is inside operations on a given zone, or creating a zone. */
  lemma {:induction false} MutualExclusion(programs: seq<seq<Call>>, states: seq<State>, schedule: seq<nat>, i: nat,
                                           t: nat, u: nat, n: Lock)
    requires Run(programs, states, schedule) && i < |states| && t < |states[i].threads| && u < |states[i].threads|
    requires n in states[i].threads[t].local.open && n in states[i].threads[u].local.open
    ensures t == u
  {
    RunKeeps(programs, states, schedule, i);
    HeldMeansOwned(states[i]);
    var s := states[i];
    assert n in s.threads[t].local.held && n in s.owner && s.owner[n] == t;
    assert n in s.threads[u].local.held && s.owner[n] == u;
  }

  /** A thread about to release a lock holds it and owns it, and is inside no operation on it; a thread
      about to take a lock does not have it already. */
  lemma {:induction false} ReleasesAndAcquiresAreProper(programs: seq<seq<Call>>, states: seq<State>,
                                                        schedule: seq<nat>, i: nat, t: nat)
    requires Run(programs, states, schedule) && i < |states| && t < |states[i].threads| &&
      states[i].threads[t].todo != []
    ensures var s, local, e := states[i], states[i].threads[t].local, states[i].threads[t].todo[0];
      && (e.Free? ==> e.lock in local.held && e.lock in s.owner && s.owner[e.lock] == t && e.lock !in local.open)
      && (e.Acquire? ==> e.lock !in local.held)
      && (e.Enter? ==> e.lock in local.held)
  {
    RunKeeps(programs, states, schedule, i);
    HeldMeansOwned(states[i]);
    assert After(states[i].threads[t].local, states[i].threads[t].todo[0]).Some?;
  }

  predicate WaitsFor(s: State, t: nat, u: nat) {
    t < |s.threads| && s.threads[t].todo != [] && s.threads[t].todo[0].Acquire? &&
    s.threads[t].todo[0].lock in s.owner && s.owner[s.threads[t].todo[0].lock] == u
  }

  /** Waiting chains are short: the owner two steps away never waits. */
  lemma {:induction false} WaitingEndsInTwoSteps(s: State, t: nat, u: nat, v: nat)
    requires Invariant(s) && WaitsFor(s, t, u) && WaitsFor(s, u, v)
    ensures v < |s.threads| && Enabled(s, v)
  {
    var a, b, c := s.threads[t], s.threads[u], s.threads[v];
    HeldMeansOwned(s);
    assert After(a.local, a.todo[0]).Some? && After(b.local, b.todo[0]).Some?;
    assert b.local.held == {CreateNewZone} && b.todo[0].lock.OfZone?;
    assert b.todo[0].lock in c.local.held;
    if c.todo != [] {
      assert After(c.local, c.todo[0]).Some?;
    }
  }

  /** A chain of waiting threads that comes back to its start. */
  ghost predicate CircularWait(s: State, chain: seq<nat>) {
    |chain| > 1 && chain[0] == chain[|chain| - 1] &&
    forall j, k :: 0 <= j < k < |chain| && k == j + 1 ==> WaitsFor(s, chain[j], chain[k])
  }

  /** No circular wait is reachable. */
  lemma {:induction false} NoCircularWait(programs: seq<seq<Call>>, states: seq<State>, schedule: seq<nat>, i: nat,
                                          chain: seq<nat>)
    requires Run(programs, states, schedule) && i < |states|
    ensures !CircularWait(states[i], chain)
  {
    if CircularWait(states[i], chain) {
      var second, third := chain[1], if |chain| == 2 then chain[1] else chain[2];
      var fourth := if |chain| <= 3 then second else chain[3];
      assert WaitsFor(states[i], chain[0], second) && WaitsFor(states[i], second, third);
      assert WaitsFor(states[i], third, fourth);
      RunKeeps(programs, states, schedule, i);
      WaitingEndsInTwoSteps(states[i], chain[0], second, third);
    }
  }

  /** No deadlock: as long as some thread has work left, some thread can go on. */
  lemma {:induction false} SomeThreadCanRun(programs: seq<seq<Call>>, states: seq<State>, schedule: seq<nat>, i: nat,
                                            t: nat)
    requires Run(programs, states, schedule) && i < |states|
    requires t < |states[i].threads| && states[i].threads[t].todo != []
    ensures exists u :: Enabled(states[i], u)
  {
    var s := states[i];
    RunKeeps(programs, states, schedule, i);
    HeldMeansOwned(states[i]);
    if !Enabled(s, t) {
      var u := s.owner[s.threads[t].todo[0].lock];
      assert WaitsFor(s, t, u) && s.threads[u].local.held != {};
      if !Enabled(s, u) {
        assert s.threads[u].todo != [];
        var v := s.owner[s.threads[u].todo[0].lock];
        WaitingEndsInTwoSteps(s, t, u, v);
      }
    }
  }

  // ---------------------------------------------------------------- what threads have done

  /** What a thread has done in the first n steps of a run. */
  ghost function History(programs: seq<seq<Call>>, states: seq<State>, schedule: seq<nat>, t: nat, n: nat): seq<Event>
    requires Run(programs, states, schedule) && n <= |schedule|
  {
    if n == 0 then []
    else
      History(programs, states, schedule, t, n - 1) +
      (if schedule[n - 1] == t then [states[n - 1].threads[t].todo[0]] else [])
  }

  lemma {:induction false} WorkLeft(s: State, u: nat, t: nat)
    requires Enabled(s, u) && t < |s.threads|
    ensures |Apply(s, u).threads| == |s.threads|
    ensures Apply(s, u).threads[t].todo == if u == t then s.threads[t].todo[1..] else s.threads[t].todo
  {
  }

  lemma {:induction false} OneMoreDone(done: seq<Event>, todo: seq<Event>)
    requires todo != []
    ensures (done + [todo[0]]) + todo[1..] == done + todo
  {
  }

  lemma {:induction false} InitialWork(programs: seq<seq<Call>>, t: nat)
    requires t < |programs|
    ensures |Initial(programs).threads| == |programs|
    ensures Initial(programs).threads[t].todo == TraceAll(programs[t], {})
  {
  }

  /** One step moves at most one event of a thread from what is left to what is done. */
  lemma {:induction false} HistoryGrows(programs: seq<seq<Call>>, states: seq<State>, schedule: seq<nat>, t: nat,
                                        n: nat)
    requires Run(programs, states, schedule) && n < |schedule| && t < |states[n].threads|
    ensures |states[n + 1].threads| == |states[n].threads|
    ensures History(programs, states, schedule, t, n + 1) + states[n + 1].threads[t].todo ==
            History(programs, states, schedule, t, n) + states[n].threads[t].todo
  {
    var before, done := states[n], History(programs, states, schedule, t, n);
    assert Enabled(before, schedule[n]) && states[n + 1] == Apply(before, schedule[n]);
    WorkLeft(before, schedule[n], t);
    if schedule[n] == t {
      OneMoreDone(done, before.threads[t].todo);
    } else {
      assert done + [] == done;
    }
  }

  lemma {:induction false} HistoryIsTrace(programs: seq<seq<Call>>, states: seq<State>, schedule: seq<nat>, t: nat,
                                          n: nat)
    requires Run(programs, states, schedule) && n <= |schedule| && t < |programs|
    ensures |states[n].threads| == |programs|
    ensures History(programs, states, schedule, t, n) + states[n].threads[t].todo == TraceAll(programs[t], {})
  {
    if n == 0 {
      InitialWork(programs, t);
    } else {
      HistoryIsTrace(programs, states, schedule, t, n - 1);
      HistoryGrows(programs, states, schedule, t, n - 1);
    }
  }

  /** However threads are interleaved: one that has no work left has carried out its program, every operation with
      everything it calls, once and in order. */
  lemma {:induction false} FinishedThreadsDidEverything(programs: seq<seq<Call>>, states: seq<State>,
                                                        schedule: seq<nat>, t: nat, n: nat)
    requires Run(programs, states, schedule) && n <= |schedule| && t < |programs|
    requires t < |states[n].threads| ==> states[n].threads[t].todo == []
    ensures var done := History(programs, states, schedule, t, n);
      Visible(done) == AllPlainly(programs[t]) && Entered(done) == AllPreOrder(programs[t])
  {
    var done := History(programs, states, schedule, t, n);
    HistoryIsTrace(programs, states, schedule, t, n);
    assert done + [] == done;
    AllAreCarriedOut(programs[t], {});
    EnteredIsVisible(done);
    AllPlainlyEnter(programs[t]);
  }
}
