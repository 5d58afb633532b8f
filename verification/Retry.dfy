/** Nested retry decorators: only the outermost one tries again. */
module Retry {
  import opened Wrappers

  datatype Outcome = Returned | Deadlock | Failure

  /** A decorated call. The body does bodies[i] when it is run for the i-th time and the last of them from
      then on; `filtered` means that only deadlocks are tried again. */
  datatype Call = Call(id: nat, limit: int, deep: bool, filtered: bool, bodies: seq<Body>)

  datatype Body = Body(steps: seq<Step>, ending: Outcome)

  /** A body changes the argument it was handed, or makes a decorated call with it. */
  datatype Step = Write(content: int) | Nested(call: Call, caught: bool)

  /** One run of a body: whose, the argument it started from, and the runs inside it. */
  datatype Run = Run(call: nat, start: int, inner: seq<Run>)

  /** What a call does: the runs, the argument of the caller afterwards, and how it ended. */
  datatype Effect = Effect(runs: seq<Run>, content: int, outcome: Outcome)

  // ---------------------------------------------------------------- what the calls do

  function BodyAt(c: Call, i: nat): (b: Body)
    ensures c.bodies != [] ==> b in c.bodies
    ensures c.bodies == [] ==> b == Body([], Returned)
  {
    if c.bodies == [] then Body([], Returned)
    else if i < |c.bodies| then c.bodies[i]
    else c.bodies[|c.bodies| - 1]
  }

  function Invoke(held: bool, c: Call, content: int): Effect
    decreases c, 3
  {
    if held then Attempt(c, 0, content) else Attempts(c, 0, content)
  }

  /** After this attempt there is no other. */
  predicate GivesUp(c: Call, tried: nat, outcome: Outcome) {
    outcome == Returned || tried + 1 >= c.limit || (c.filtered && outcome != Deadlock)
  }

  function Attempts(c: Call, tried: nat, content: int): Effect
    decreases c, 2, c.limit - tried
  {
    var e := Attempt(c, tried, content);
    if GivesUp(c, tried, e.outcome) then e
    else
      var rest := Attempts(c, tried + 1, e.content);
      Effect(e.runs + rest.runs, rest.content, rest.outcome)
  }

  function Attempt(c: Call, i: nat, content: int): Effect
    decreases c, 1
  {
    if c.bodies == [] then Effect([Run(c.id, content, [])], content, Returned)
    else
      var e := RunSteps(BodyAt(c, i), 0, content);
      Effect([Run(c.id, content, e.runs)], if c.deep then content else e.content, e.outcome)
  }

  function RunSteps(b: Body, k: nat, content: int): Effect
    requires k <= |b.steps|
    decreases b, |b.steps| - k
  {
    if k == |b.steps| then Effect([], content, b.ending)
    else match b.steps[k]
      case Write(changed) => RunSteps(b, k + 1, changed)
      case Nested(call, caught) =>
        var e := Invoke(true, call, content);
        if e.outcome != Returned && !caught then e
        else
          var rest := RunSteps(b, k + 1, e.content);
          Effect(e.runs + rest.runs, rest.content, rest.outcome)
  }

  // ---------------------------------------------------------------- what the decorator promises

  /** The outermost body runs at least once and at most `limit` times. */
  lemma {:induction false} OutermostRunsAtMostLimit(c: Call, tried: nat, content: int)
    ensures 1 <= |Attempts(c, tried, content).runs|
    ensures |Attempts(c, tried, content).runs| <= if c.limit > tried then c.limit - tried else 1
    decreases c.limit - tried
  {
    var e := Attempt(c, tried, content);
    if GivesUp(c, tried, e.outcome) {
    } else {
      OutermostRunsAtMostLimit(c, tried + 1, e.content);
    }
  }

  /** The calls a body makes when nothing stops it. */
  function CallsFrom(b: Body, k: nat): seq<Call>
    requires k <= |b.steps|
    decreases |b.steps| - k
  {
    if k == |b.steps| then []
    else if b.steps[k].Nested? then [b.steps[k].call] + CallsFrom(b, k + 1)
    else CallsFrom(b, k + 1)
  }

  /** This run is one run of that body: the j-th run inside it is the only run of the j-th call it makes,
      and so on inside. */
  ghost predicate RunOf(r: Run, c: Call, b: Body)
    decreases r
  {
    && r.call == c.id
    && |r.inner| <= |CallsFrom(b, 0)|
    && forall j :: 0 <= j < |r.inner| ==> RunOf(r.inner[j], CallsFrom(b, 0)[j], BodyAt(CallsFrom(b, 0)[j], 0))
  }

  ghost predicate RunsOfCalls(runs: seq<Run>, calls: seq<Call>) {
    && |runs| <= |calls|
    && forall j :: 0 <= j < |runs| ==> RunOf(runs[j], calls[j], BodyAt(calls[j], 0))
  }

  lemma {:induction false} StepsRunEachCallOnce(b: Body, k: nat, content: int)
    requires k <= |b.steps|
    ensures RunsOfCalls(RunSteps(b, k, content).runs, CallsFrom(b, k))
    decreases b, |b.steps| - k
  {
    if k == |b.steps| {
    } else {
      match b.steps[k]
      case Write(changed) =>
        StepsRunEachCallOnce(b, k + 1, changed);
      case Nested(call, caught) =>
        AttemptIsOneRun(call, 0, content);
        var e := Attempt(call, 0, content);
        if e.outcome == Returned || caught {
          StepsRunEachCallOnce(b, k + 1, e.content);
        }
    }
  }

  lemma {:induction false} AttemptIsOneRun(c: Call, i: nat, content: int)
    ensures |Attempt(c, i, content).runs| == 1
    ensures RunOf(Attempt(c, i, content).runs[0], c, BodyAt(c, i))
    ensures Attempt(c, i, content).runs[0].start == content
    decreases c, 0
  {
    if c.bodies != [] {
      StepsRunEachCallOnce(BodyAt(c, i), 0, content);
    }
  }

  /** Retries do not multiply: the i-th run of the outermost body is a run of what the body does for the i-th
      time, and every decorated body inside runs once for each call made. */
  lemma {:induction false} NestedCallsAreNotRetried(c: Call, tried: nat, content: int, i: nat)
    requires i < |Attempts(c, tried, content).runs|
    ensures RunOf(Attempts(c, tried, content).runs[i], c, BodyAt(c, tried + i))
    decreases i
  {
    AttemptIsOneRun(c, tried, content);
    if i == 0 {
    } else {
      NestedCallsAreNotRetried(c, tried + 1, Attempt(c, tried, content).content, i - 1);
    }
  }

  /** The same calls with nested decorators that never try again. */
  function Plain(c: Call): Call
    decreases c
  {
    Call(c.id, 1, c.deep, false, seq(|c.bodies|, i requires 0 <= i < |c.bodies| => PlainBody(c.bodies[i])))
  }

  function PlainBody(b: Body): Body
    decreases b
  {
    Body(seq(|b.steps|, i requires 0 <= i < |b.steps| => PlainStep(b.steps[i])), b.ending)
  }

  function PlainStep(s: Step): Step
    decreases s
  {
    match s
    case Write(_) => s
    case Nested(call, caught) => Nested(Plain(call), caught)
  }

  lemma {:induction false} PlainSteps(b: Body, k: nat, content: int)
    requires k <= |b.steps|
    ensures RunSteps(PlainBody(b), k, content) == RunSteps(b, k, content)
    decreases b, |b.steps| - k
  {
    if k == |b.steps| {
    } else {
      match b.steps[k]
      case Write(changed) =>
        PlainSteps(b, k + 1, changed);
      case Nested(call, caught) =>
        PlainAttempt(call, 0, content);
        PlainSteps(b, k + 1, Attempt(call, 0, content).content);
    }
  }

  lemma {:induction false} PlainAttempt(c: Call, i: nat, content: int)
    ensures Attempt(Plain(c), i, content) == Attempt(c, i, content)
    decreases c
  {
    if c.bodies != [] {
      assert BodyAt(Plain(c), i) == PlainBody(BodyAt(c, i));
      PlainSteps(BodyAt(c, i), 0, content);
    }
  }

  /** What the decorators of nested calls allow makes no difference: the outermost call does the same when none
      of them would ever try again. */
  lemma {:induction false} NestedLimitsDoNotMatter(c: Call, tried: nat, content: int)
    ensures Attempts(c.(bodies := Plain(c).bodies), tried, content) == Attempts(c, tried, content)
    decreases c.limit - tried
  {
    var plain := c.(bodies := Plain(c).bodies);
    if c.bodies != [] {
      assert BodyAt(plain, tried) == PlainBody(BodyAt(c, tried));
      PlainSteps(BodyAt(c, tried), 0, content);
    }
    var e := Attempt(c, tried, content);
    assert Attempt(plain, tried, content) == e;
    if GivesUp(c, tried, e.outcome) {
    } else {
      NestedLimitsDoNotMatter(c, tried + 1, e.content);
    }
  }

  /** With deep copies every attempt starts from the original argument, which the caller keeps unchanged. */
  lemma {:induction false} DeepCopiesStartAfresh(c: Call, tried: nat, content: int)
    requires c.deep
    ensures Attempts(c, tried, content).content == content
    ensures forall i :: 0 <= i < |Attempts(c, tried, content).runs| ==>
      Attempts(c, tried, content).runs[i].start == content
    decreases c.limit - tried
  {
    AttemptIsOneRun(c, tried, content);
    if GivesUp(c, tried, Attempt(c, tried, content).outcome) {
    } else {
      DeepCopiesStartAfresh(c, tried + 1, content);
    }
  }

  /** The argument the i-th further attempt starts from. */
  function StartOf(c: Call, tried: nat, content: int, i: nat): int
    decreases i
  {
    if i == 0 then content else StartOf(c, tried + 1, Attempt(c, tried, content).content, i - 1)
  }

  /** With or without copies: the i-th attempt starts from what the attempts before it left, the call ends as
      its last attempt does, and it was the last because it returned, failed for good, or used up the limit. */
  lemma {:induction false} LastAttemptDecides(c: Call, tried: nat, content: int, i: nat)
    requires i < |Attempts(c, tried, content).runs|
    ensures var e := Attempts(c, tried, content);
            var own := Attempt(c, tried + i, StartOf(c, tried, content, i));
            && e.runs[i].start == StartOf(c, tried, content, i)
            && (GivesUp(c, tried + i, own.outcome) <==> i == |e.runs| - 1)
            && (i == |e.runs| - 1 ==> e.outcome == own.outcome && e.content == own.content)
    decreases i
  {
    AttemptIsOneRun(c, tried, content);
    var first := Attempt(c, tried, content);
    if GivesUp(c, tried, first.outcome) {
    } else {
      OutermostRunsAtMostLimit(c, tried + 1, first.content);
      if i > 0 {
        LastAttemptDecides(c, tried + 1, first.content, i - 1);
      }
    }
  }

  /** Whether every run of the outermost body starts from the argument of the call. */
  ghost predicate StartsAfresh(c: Call, content: int) {
    forall r :: r in Attempts(c, 0, content).runs ==> r.start == content
  }

  predicate LeavesUnchanged(c: Call, content: int, i: nat) {
    Attempt(c, i, content).content == content
  }

  /** Whether none of the first n attempts, started from that argument, leaves it changed for the next. */
  ghost predicate LeaveUnchanged(c: Call, content: int, n: int) {
    forall i: nat :: i < n ==> LeavesUnchanged(c, content, i)
  }

  lemma {:induction false} StartAfter(c: Call, tried: nat, content: int, i: nat)
    ensures StartOf(c, tried, content, i + 1) == Attempt(c, tried + i, StartOf(c, tried, content, i)).content
    decreases i
  {
    if i == 0 {
    } else {
      StartAfter(c, tried + 1, Attempt(c, tried, content).content, i - 1);
    }
  }

  lemma {:induction false} StartUnchanged(c: Call, content: int, i: nat)
    requires LeaveUnchanged(c, content, i)
    ensures StartOf(c, 0, content, i) == content
  {
    if i == 0 {
    } else {
      StartUnchanged(c, content, i - 1);
      assert LeavesUnchanged(c, content, i - 1);
      StartAfter(c, 0, content, i - 1);
    }
  }

  lemma {:induction false} UnchangedStartsAfresh(c: Call, content: int)
    requires LeaveUnchanged(c, content, |Attempts(c, 0, content).runs| - 1)
    ensures StartsAfresh(c, content)
  {
    var runs := Attempts(c, 0, content).runs;
    forall r | r in runs ensures r.start == content {
      var i :| 0 <= i < |runs| && runs[i] == r;
      LastAttemptDecides(c, 0, content, i);
      StartUnchanged(c, content, i);
    }
  }

  lemma {:induction false} NextStart(c: Call, content: int, i: nat)
    requires i + 1 < |Attempts(c, 0, content).runs|
    ensures Attempts(c, 0, content).runs[i + 1].start == Attempt(c, i, StartOf(c, 0, content, i)).content
  {
    LastAttemptDecides(c, 0, content, i + 1);
    StartAfter(c, 0, content, i);
  }

  lemma {:induction false} UnchangedMeansAfresh(c: Call, content: int)
    ensures StartsAfresh(c, content) <==> LeaveUnchanged(c, content, |Attempts(c, 0, content).runs| - 1)
  {
    if StartsAfresh(c, content) {
      forall i: nat | i < |Attempts(c, 0, content).runs| - 1 ensures LeavesUnchanged(c, content, i) {
        NextStart(c, content, i);
        LastAttemptDecides(c, 0, content, i);
        var runs := Attempts(c, 0, content).runs;
        assert runs[i] in runs && runs[i + 1] in runs;
      }
    }
    if LeaveUnchanged(c, content, |Attempts(c, 0, content).runs| - 1) {
      UnchangedStartsAfresh(c, content);
    }
  }

  // ---------------------------------------------------------------- what the bodies say before they are run

  /** How the first run of a nested call ends, whatever its argument. */
  function EndOfCall(c: Call, i: nat): Outcome
    decreases c, 1
  {
    if c.bodies == [] then Returned else EndOfBody(BodyAt(c, i), 0)
  }

  /** A body ends where the first nested call fails without being caught, or as it says at its end. */
  function EndOfBody(b: Body, k: nat): Outcome
    requires k <= |b.steps|
    decreases b, |b.steps| - k
  {
    if k == |b.steps| then b.ending
    else match b.steps[k]
      case Write(_) => EndOfBody(b, k + 1)
      case Nested(call, caught) =>
        if EndOfCall(call, 0) != Returned && !caught then EndOfCall(call, 0) else EndOfBody(b, k + 1)
  }

  /** What the i-th run of a body leaves in the argument it is handed, if it writes to it at all. */
  function LeftByCall(c: Call, i: nat): Option<int>
    decreases c, 1
  {
    if c.bodies == [] then None else LeftByBody(BodyAt(c, i), 0)
  }

  function Later(first: Option<int>, second: Option<int>): Option<int> {
    if second.Some? then second else first
  }

  /** The last value that is written on the way: by the body itself, or by a nested call that is handed the same
      argument because it copies shallowly. */
  function LeftByBody(b: Body, k: nat): Option<int>
    requires k <= |b.steps|
    decreases b, |b.steps| - k
  {
    if k == |b.steps| then None
    else match b.steps[k]
      case Write(content) => Later(Some(content), LeftByBody(b, k + 1))
      case Nested(call, caught) =>
        var own := if call.deep then None else LeftByCall(call, 0);
        if EndOfCall(call, 0) != Returned && !caught then own else Later(own, LeftByBody(b, k + 1))
  }

  predicate NetWrites(b: Body) {
    LeftByBody(b, 0).Some?
  }

  /** How many attempts are followed by another. */
  function Retried(c: Call, tried: nat): nat
    decreases c.limit - tried
  {
    if GivesUp(c, tried, EndOfCall(c, tried)) then 0 else 1 + Retried(c, tried + 1)
  }

  function Or(left: Option<int>, content: int): int {
    if left.Some? then left.value else content
  }

  lemma {:induction false} StepsLeave(b: Body, k: nat, content: int)
    requires k <= |b.steps|
    ensures RunSteps(b, k, content).outcome == EndOfBody(b, k)
    ensures RunSteps(b, k, content).content == Or(LeftByBody(b, k), content)
    decreases b, |b.steps| - k
  {
    if k == |b.steps| {
    } else {
      match b.steps[k]
      case Write(changed) =>
        StepsLeave(b, k + 1, changed);
      case Nested(call, caught) =>
        AttemptLeaves(call, 0, content);
        StepsLeave(b, k + 1, Attempt(call, 0, content).content);
    }
  }

  lemma {:induction false} AttemptLeaves(c: Call, i: nat, content: int)
    ensures Attempt(c, i, content).outcome == EndOfCall(c, i)
    ensures Attempt(c, i, content).content == if c.deep then content else Or(LeftByCall(c, i), content)
    decreases c, 1
  {
    if c.bodies == [] {
    } else {
      StepsLeave(BodyAt(c, i), 0, content);
    }
  }

  lemma {:induction false} RunsAreCounted(c: Call, tried: nat, content: int)
    ensures |Attempts(c, tried, content).runs| == Retried(c, tried) + 1
    decreases c.limit - tried
  {
    AttemptLeaves(c, tried, content);
    AttemptIsOneRun(c, tried, content);
    var e := Attempt(c, tried, content);
    if GivesUp(c, tried, e.outcome) {
    } else {
      RunsAreCounted(c, tried + 1, e.content);
    }
  }

  // ---------------------------------------------------------------- how bodies end and how often they are run

  /** The body goes no further than this step: the call made there fails and is not caught. */
  predicate StopsAt(b: Body, k: nat) {
    k < |b.steps| && b.steps[k].Nested? && !b.steps[k].caught &&
    EndOfBody(BodyAt(b.steps[k].call, 0), 0) != Returned
  }

  /** The first step that the body goes no further than. */
  ghost predicate FirstStop(b: Body, from: nat, k: nat) {
    from <= k && StopsAt(b, k) && forall j :: from <= j < k ==> !StopsAt(b, j)
  }

  lemma {:induction false} EndOfCallIsEndOfBody(c: Call, i: nat)
    ensures EndOfCall(c, i) == EndOfBody(BodyAt(c, i), 0)
  {
  }

  /** A body ends as the first call that stops it, or as it says at its end when none does. */
  lemma {:induction false} BodiesEndWhereStopped(b: Body, from: nat, k: nat)
    requires from <= k <= |b.steps|
    requires if k < |b.steps| then FirstStop(b, from, k) else forall j :: from <= j ==> !StopsAt(b, j)
    ensures EndOfBody(b, from) == if k < |b.steps| then EndOfBody(BodyAt(b.steps[k].call, 0), 0) else b.ending
    decreases k - from
  {
    if from == k {
      if k < |b.steps| {
        EndOfCallIsEndOfBody(b.steps[k].call, 0);
      }
    } else {
      assert !StopsAt(b, from);
      BodiesEndWhereStopped(b, from + 1, k);
      if b.steps[from].Nested? {
        EndOfCallIsEndOfBody(b.steps[from].call, 0);
      }
    }
  }

  /** Every call up to that step is made, and none behind it. */
  lemma {:induction false} CallsAreMadeUntilStopped(b: Body, from: nat, k: nat, content: int)
    requires from <= k <= |b.steps|
    requires if k < |b.steps| then FirstStop(b, from, k) else forall j :: from <= j ==> !StopsAt(b, j)
    ensures |RunSteps(b, from, content).runs| ==
            |CallsFrom(b, from)| - if k < |b.steps| then |CallsFrom(b, k + 1)| else 0
    decreases k - from
  {
    if from < |b.steps| {
      match b.steps[from]
      case Write(changed) =>
        assert from < k;
        CallsAreMadeUntilStopped(b, from + 1, k, changed);
      case Nested(call, caught) =>
        AttemptIsOneRun(call, 0, content);
        AttemptLeaves(call, 0, content);
        EndOfCallIsEndOfBody(call, 0);
        if from < k {
          assert !StopsAt(b, from);
          CallsAreMadeUntilStopped(b, from + 1, k, Attempt(call, 0, content).content);
        }
    }
  }

  /** Run number i, counted from zero, is followed by another: it did not return, was below the limit, and was a
      deadlock if only those are tried again. */
  predicate TriedAgain(c: Call, i: nat) {
    var end := EndOfBody(BodyAt(c, i), 0);
    end != Returned && i + 1 < c.limit && (c.filtered ==> end == Deadlock)
  }

  /** The first n runs are followed by others, and no more. */
  ghost predicate TriedAgainExactly(c: Call, n: nat) {
    !TriedAgain(c, n) && forall i :: 0 <= i < n ==> TriedAgain(c, i)
  }

  lemma {:induction false} RetriedAreTriedAgain(c: Call, tried: nat)
    ensures !TriedAgain(c, tried + Retried(c, tried))
    ensures forall i :: tried <= i < tried + Retried(c, tried) ==> TriedAgain(c, i)
    decreases c.limit - tried
  {
    EndOfCallIsEndOfBody(c, tried);
    if GivesUp(c, tried, EndOfCall(c, tried)) {
    } else {
      RetriedAreTriedAgain(c, tried + 1);
    }
  }

  /** How often an outermost call runs its body, told by the ends of its runs alone: again after every run that did
      not return, up to the limit, and, if it is filtered, only after deadlocks. It ends as its last run. */
  lemma {:induction false} RunsAreExact(c: Call, content: int, n: nat)
    ensures |Invoke(false, c, content).runs| == n + 1 <==> TriedAgainExactly(c, n)
    ensures TriedAgainExactly(c, n) ==> Invoke(false, c, content).outcome == EndOfBody(BodyAt(c, n), 0)
  {
    var m := Retried(c, 0);
    RunsAreCounted(c, 0, content);
    RetriedAreTriedAgain(c, 0);
    if TriedAgainExactly(c, n) {
      LastAttemptDecides(c, 0, content, n);
      AttemptLeaves(c, n, StartOf(c, 0, content, n));
      EndOfCallIsEndOfBody(c, n);
    }
  }

  /** A call inside another runs once, whatever its limit and its end. */
  lemma {:induction false} NestedCallsRunOnce(c: Call, content: int)
    ensures |Invoke(true, c, content).runs| == 1
    ensures Invoke(true, c, content).outcome == EndOfBody(BodyAt(c, 0), 0)
  {
    AttemptIsOneRun(c, 0, content);
    AttemptLeaves(c, 0, content);
    EndOfCallIsEndOfBody(c, 0);
  }

  // ---------------------------------------------------------------- which arguments the runs start from

  /** Whether none of the first n runs leaves anything but this value in an argument it shares with the caller. */
  ghost predicate LeaveOnly(c: Call, content: int, n: nat) {
    forall i: nat :: i < n ==> LeftByCall(c, i) in {None, Some(content)}
  }

  /** Whatever the copying: every attempt starts from the original argument exactly when the copies are deep or no
      body that is to be run again leaves another value in the argument. */
  lemma {:induction false} AttemptsStartAfresh(c: Call, content: int)
    ensures StartsAfresh(c, content) <==> c.deep || LeaveOnly(c, content, Retried(c, 0))
  {
    var n := Retried(c, 0);
    RunsAreCounted(c, 0, content);
    UnchangedMeansAfresh(c, content);
    forall i: nat ensures LeavesUnchanged(c, content, i) <==> c.deep || LeftByCall(c, i) in {None, Some(content)} {
      AttemptLeaves(c, i, content);
    }
    if StartsAfresh(c, content) && !c.deep {
      forall i: nat | i < n ensures LeftByCall(c, i) in {None, Some(content)} {
        assert LeavesUnchanged(c, content, i);
      }
    }
  }

  /** A call starts every attempt from its original argument, whatever that is, exactly when it copies deeply or
      no body that is to be run again writes to its argument. */
  lemma {:induction false} CopiesAreSafeExactly(c: Call)
    ensures (forall content :: StartsAfresh(c, content)) <==>
            c.deep || forall i: nat :: i < Retried(c, 0) ==> !NetWrites(BodyAt(c, i))
  {
    var n := Retried(c, 0);
    if c.deep || forall i: nat :: i < n ==> !NetWrites(BodyAt(c, i)) {
      forall content ensures StartsAfresh(c, content) {
        AttemptsStartAfresh(c, content);
      }
    } else {
      var i: nat :| i < n && NetWrites(BodyAt(c, i));
      var other := LeftByCall(c, i).value + 1;
      AttemptsStartAfresh(c, other);
      assert LeftByCall(c, i) !in {None, Some(other)};
    }
  }

  /** A body that changes its argument and then deadlocks once: with shallow copies the second attempt starts
      from the changed argument. */
  lemma {:induction false} ShallowCopyKeepsChanges()
    ensures var c := Call(0, 150, false, true, [Body([Write(1)], Deadlock), Body([], Returned)]);
            Invoke(false, c, 0) == Effect([Run(0, 0, []), Run(0, 1, [])], 1, Returned)
  {
    var b0, b1 := Body([Write(1)], Deadlock), Body([], Returned);
    var c := Call(0, 150, false, true, [b0, b1]);
    assert BodyAt(c, 0) == b0 && BodyAt(c, 1) == b1;
    assert RunSteps(b0, 1, 1) == Effect([], 1, Deadlock);
    assert RunSteps(b0, 0, 0) == Effect([], 1, Deadlock);
    assert Attempt(c, 0, 0) == Effect([Run(0, 0, [])], 1, Deadlock);
    assert RunSteps(b1, 0, 1) == Effect([], 1, Returned);
    assert Attempt(c, 1, 1) == Effect([Run(0, 1, [])], 1, Returned);
    assert Attempts(c, 1, 1) == Attempt(c, 1, 1);
  }

  /** What a nested call writes to its argument is there when the calling body goes on, unless the call copies
      deeply. */
  lemma {:induction false} SharedArgumentsKeepWrites(call: Call, value: int, content: int)
    requires BodyAt(call, 0).steps == [Write(value)]
    ensures RunSteps(Body([Nested(call, true)], Returned), 0, content).content == if call.deep then content else value
  {
    var b := Body([Nested(call, true)], Returned);
    var inner := BodyAt(call, 0);
    assert RunSteps(inner, 1, value).content == value;
    assert RunSteps(inner, 0, content).content == value;
    assert RunSteps(b, 1, Attempt(call, 0, content).content).content == Attempt(call, 0, content).content;
  }

  // ---------------------------------------------------------------- the decorator

  function Prefixed(runs: seq<Run>, e: Effect): Effect {
    Effect(runs + e.runs, e.content, e.outcome)
  }

  lemma {:induction false} OneMoreAttempt(c: Call, whole: Effect, runs: seq<Run>, tried: nat, content: int)
    requires whole == Prefixed(runs, Attempts(c, tried, content))
    ensures var e := Attempt(c, tried, content);
            whole == if GivesUp(c, tried, e.outcome) then Prefixed(runs, e)
                     else Prefixed(runs + e.runs, Attempts(c, tried + 1, e.content))
  {
    var e := Attempt(c, tried, content);
    if !GivesUp(c, tried, e.outcome) {
      var rest := Attempts(c, tried + 1, e.content);
      assert runs + (e.runs + rest.runs) == (runs + e.runs) + rest.runs;
    }
  }

  /** A nested call, as the step of a body that is next. */
  lemma {:induction false} OneMoreCall(b: Body, whole: Effect, inner: seq<Run>, k: nat, content: int)
    requires k < |b.steps| && b.steps[k].Nested? && whole == Prefixed(inner, RunSteps(b, k, content))
    ensures var step := b.steps[k];
            var e := Invoke(true, step.call, content);
            whole == if e.outcome != Returned && !step.caught then Prefixed(inner, e)
                     else Prefixed(inner + e.runs, RunSteps(b, k + 1, e.content))
  {
    var e := Invoke(true, b.steps[k].call, content);
    if e.outcome == Returned || b.steps[k].caught {
      var rest := RunSteps(b, k + 1, e.content);
      assert inner + (e.runs + rest.runs) == (inner + e.runs) + rest.runs;
    }
  }

  lemma {:induction false} LastStep(b: Body, whole: Effect, inner: seq<Run>, content: int)
    requires whole == Prefixed(inner, RunSteps(b, |b.steps|, content))
    ensures whole == Effect(inner, content, b.ending)
  {
    assert inner + [] == inner;
  }

  /** An argument object; bodies change it in place. */
  class Argument {
    var content: int

    constructor (content: int)
      ensures this.content == content
    {
      this.content := content;
    }
  }

  /** The retry state of one thread. */
  class RetryState {
    var held: bool
    var retries: nat

    constructor ()
      ensures !held && retries == 0
    {
      held, retries := false, 0;
    }

    method Copy(deep: bool, arg: Argument) returns (copy: Argument)
      ensures copy.content == arg.content
      ensures if deep then fresh(copy) else copy == arg
    {
      if deep {
        copy := new Argument(arg.content);
      } else {
        copy := arg;
      }
    }

    /** Outside any other decorated call the body is tried again and again and the state is left as it was
        found; inside one it is run once and the state is not touched. */
    method Wrapper(c: Call, arg: Argument) returns (outcome: Outcome, runs: seq<Run>)
      requires held || retries == 0
      modifies this, arg
      ensures Effect(runs, arg.content, outcome) == Invoke(old(held), c, old(arg.content))
      ensures held == old(held) && retries == old(retries)
      decreases c, 3
    {
      if !held {
        held := true;
        outcome, runs := TryAgainAndAgain(c, arg);
        held, retries := false, 0;
      } else {
        outcome, runs := Once(c, 0, arg);
      }
    }

    method TryAgainAndAgain(c: Call, arg: Argument) returns (outcome: Outcome, runs: seq<Run>)
      requires held && retries == 0
      modifies this, arg
      ensures Effect(runs, arg.content, outcome) == Attempts(c, 0, old(arg.content))
      decreases c, 2
    {
      runs := [];
      ghost var whole := Attempts(c, 0, arg.content);
      while true
        invariant held && whole == Prefixed(runs, Attempts(c, retries, arg.content))
        decreases c.limit - retries
      {
        OneMoreAttempt(c, whole, runs, retries, arg.content);
        var more;
        outcome, more := Once(c, retries, arg);
        runs := runs + more;
        if outcome == Returned {
          break;
        }
        retries := retries + 1;
        if retries >= c.limit {
          break;
        } else if c.filtered && outcome != Deadlock {
          break;
        }
      }
    }

    method Once(c: Call, i: nat, arg: Argument) returns (outcome: Outcome, runs: seq<Run>)
      requires held
      modifies this, arg
      ensures Effect(runs, arg.content, outcome) == Attempt(c, i, old(arg.content))
      ensures held && retries == old(retries)
      decreases c, 1
    {
      var mine := Copy(c.deep, arg);
      outcome, runs := RunBody(c, i, mine);
    }

    method RunBody(c: Call, i: nat, mine: Argument) returns (outcome: Outcome, runs: seq<Run>)
      requires held
      modifies this, mine
      ensures held && retries == old(retries)
      ensures outcome == Attempt(c, i, old(mine.content)).outcome
      ensures runs == Attempt(c, i, old(mine.content)).runs
      ensures !c.deep ==> mine.content == Attempt(c, i, old(mine.content)).content
      decreases c, 0
    {
      if c.bodies == [] {
        return Returned, [Run(c.id, mine.content, [])];
      }
      var b := BodyAt(c, i);
      var start := mine.content;
      var inner := [];
      ghost var whole := RunSteps(b, 0, start);
      var k := 0;
      while k < |b.steps|
        invariant k <= |b.steps| && held && retries == old(retries)
        invariant whole == Prefixed(inner, RunSteps(b, k, mine.content))
      {
        match b.steps[k] {
          case Write(content) =>
            mine.content := content;
          case Nested(call, caught) =>
            OneMoreCall(b, whole, inner, k, mine.content);
            var ended, more := Wrapper(call, mine);
            inner := inner + more;
            if ended != Returned && !caught {
              return ended, [Run(c.id, start, inner)];
            }
        }
        k := k + 1;
      }
      LastStep(b, whole, inner, mine.content);
      return b.ending, [Run(c.id, start, inner)];
    }
  }
}
