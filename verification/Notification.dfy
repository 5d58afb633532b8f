/** Notifications of nested calls: queued while any decorated call is open, sent when the outermost one leaves. */
module Notification {
  import opened Sequences
  import opened Wrappers

  datatype Message = Message(context: Option<nat>, kind: nat, payload: nat)

  /** A decorated call: the decorated calls its body makes in turn, and how the body then ends. */
  datatype Call = Call(context: Option<nat>, kind: nat, steps: seq<Step>, ending: Ending)

  datatype Step = Step(call: Call, caught: bool)

  datatype Ending = Returns(payloads: seq<nat>) | Raises

  // ---------------------------------------------------------------- which calls are heard of

  /** A call succeeds when its body returns: no call it makes fails without being caught. */
  predicate Succeeds(c: Call)
    decreases c
  {
    c.ending.Returns? && forall i :: 0 <= i < |c.steps| ==> c.steps[i].caught || Succeeds(c.steps[i].call)
  }

  /** The body gets as far as the i-th call: nothing before it failed without being caught. */
  predicate Reaches(c: Call, i: nat) {
    i < |c.steps| && forall j :: 0 <= j < i ==> c.steps[j].caught || Succeeds(c.steps[j].call)
  }

  /** None of the first k calls fails without being caught. */
  ghost predicate Passed(c: Call, k: nat)
    requires k <= |c.steps|
  {
    forall j :: 0 <= j < k ==> c.steps[j].caught || Succeeds(c.steps[j].call)
  }

  ghost predicate Within(d: Call, c: Call)
    decreases c
  {
    d == c || exists i: nat :: Reaches(c, i) && Within(d, c.steps[i].call)
  }

  function Messages(c: Call, payloads: seq<nat>): (ms: seq<Message>)
    ensures |ms| == |payloads|
  {
    seq(|payloads|, i requires 0 <= i < |payloads| => Message(c.context, c.kind, payloads[i]))
  }

  function Own(c: Call): seq<Message> {
    if Succeeds(c) then Messages(c, c.ending.payloads) else []
  }

  /** The messages of the calls that succeed, each call after those it makes. */
  function PostOrder(c: Call): seq<Message>
    decreases c, 1
  {
    PostOrderFrom(c, 0) + Own(c)
  }

  function PostOrderFrom(c: Call, k: nat): seq<Message>
    requires k <= |c.steps|
    decreases c, 0, |c.steps| - k
  {
    if k == |c.steps| then []
    else
      var step := c.steps[k];
      PostOrder(step.call) + (if step.caught || Succeeds(step.call) then PostOrderFrom(c, k + 1) else [])
  }

  lemma {:induction false} ReverseOnto(done: seq<Message>, more: seq<Message>, queue: seq<Message>)
    ensures Reverse(done + more) + queue == Reverse(more) + (Reverse(done) + queue)
  {
    ReverseOfSum(done, more);
  }

  /** The first k calls have been made and have queued these messages. */
  ghost predicate Halfway(c: Call, k: nat, done: seq<Message>)
    requires k <= |c.steps|
  {
    Passed(c, k) && PostOrderFrom(c, 0) == done + PostOrderFrom(c, k)
  }

  lemma {:induction false} NextStep(c: Call, k: nat, whole: seq<Message>, done: seq<Message>)
    requires k < |c.steps| && whole == done + PostOrderFrom(c, k)
    ensures var step := c.steps[k];
            var more := done + PostOrder(step.call);
            whole == if step.caught || Succeeds(step.call) then more + PostOrderFrom(c, k + 1) else more
  {
    var own := PostOrder(c.steps[k].call);
    var rest := PostOrderFrom(c, k + 1);
    assert done + (own + rest) == (done + own) + rest;
    assert own + [] == own;
  }

  lemma {:induction false} OneStep(c: Call, k: nat, done: seq<Message>)
    requires k < |c.steps| && Halfway(c, k, done)
    ensures var step, more := c.steps[k], done + PostOrder(c.steps[k].call);
            if step.caught || Succeeds(step.call) then Halfway(c, k + 1, more)
            else PostOrderFrom(c, 0) == more && !Succeeds(c)
  {
    NextStep(c, k, PostOrderFrom(c, 0), done);
  }

  lemma {:induction false} AllSteps(c: Call, done: seq<Message>)
    requires Halfway(c, |c.steps|, done)
    ensures PostOrderFrom(c, 0) == done && Succeeds(c) == c.ending.Returns?
  {
    assert done + [] == done;
  }

  /** What a call adds to the queue: its own messages go before those of the calls it made. */
  lemma {:induction false} OwnGoFirst(c: Call, queue: seq<Message>)
    ensures var inner := Reverse(PostOrderFrom(c, 0)) + queue;
            && Reverse(PostOrder(c)) + queue == Reverse(Own(c)) + inner
            && (Own(c) == [] ==> Reverse(PostOrder(c)) + queue == inner)
  {
    var own, before := Own(c), PostOrderFrom(c, 0);
    ReverseOnto(before, own, queue);
    assert [] + (Reverse(before) + queue) == Reverse(before) + queue;
  }

  lemma {:induction false} HeardOfFrom(c: Call, k: nat, m: Message)
    requires k <= |c.steps| && (k < |c.steps| ==> Reaches(c, k))
    ensures m in PostOrderFrom(c, k) <==> exists i: nat :: k <= i && Reaches(c, i) && m in PostOrder(c.steps[i].call)
    decreases c, 0, |c.steps| - k
  {
    if k == |c.steps| {
    } else {
      var step := c.steps[k];
      if step.caught || Succeeds(step.call) {
        HeardOfFrom(c, k + 1, m);
      } else {
        forall i: nat | k < i ensures !Reaches(c, i) {
        }
      }
    }
  }

  lemma {:induction false} HeardOf(c: Call, m: Message)
    ensures m in PostOrder(c) <==> exists d :: Within(d, c) && m in Own(d)
    decreases c, 1
  {
    HeardOfFrom(c, 0, m);
    if m in Own(c) {
      assert Within(c, c);
    }
    if exists d :: Within(d, c) && m in Own(d) {
      var d :| Within(d, c) && m in Own(d);
      if d != c {
        var i: nat :| Reaches(c, i) && Within(d, c.steps[i].call);
        HeardOf(c.steps[i].call, m);
      }
    }
    if m in PostOrderFrom(c, 0) {
      var i: nat :| Reaches(c, i) && m in PostOrder(c.steps[i].call);
      HeardOf(c.steps[i].call, m);
      var d :| Within(d, c.steps[i].call) && m in Own(d);
      assert Within(d, c);
    }
  }

  lemma {:induction false} OwnMessages(d: Call, m: Message)
    ensures m in Own(d) <==>
            Succeeds(d) && m.context == d.context && m.kind == d.kind && m.payload in d.ending.payloads
  {
    if Succeeds(d) && m.context == d.context && m.kind == d.kind && m.payload in d.ending.payloads {
      var i :| 0 <= i < |d.ending.payloads| && d.ending.payloads[i] == m.payload;
      assert Own(d)[i] == m;
    }
  }

  /** What an outermost call sends comes from exactly the calls that were reached and succeeded, even when the
      outermost call itself fails: for each of their payloads a message with the context and the kind of the call.
      Nothing is sent more often than it was queued. */
  lemma {:induction false} SentBySuccessfulCalls(c: Call, m: Message)
    ensures m in Reverse(PostOrder(c)) <==>
      exists d :: Within(d, c) && Succeeds(d) && m.context == d.context && m.kind == d.kind &&
                  m.payload in d.ending.payloads
    ensures multiset(Reverse(PostOrder(c))) == multiset(PostOrder(c))
  {
    ReverseMembers(PostOrder(c));
    assert m in Reverse(PostOrder(c)) <==> m in multiset(PostOrder(c));
    HeardOf(c, m);
    forall d
      ensures m in Own(d) <==>
              Succeeds(d) && m.context == d.context && m.kind == d.kind && m.payload in d.ending.payloads
    {
      OwnMessages(d, m);
    }
  }

  ghost function DueFor(c: Call, payloads: seq<nat>): multiset<Message> {
    if payloads == [] then multiset{}
    else multiset{Message(c.context, c.kind, payloads[0])} + DueFor(c, payloads[1..])
  }

  ghost function OwnDue(c: Call): multiset<Message> {
    if Succeeds(c) then DueFor(c, c.ending.payloads) else multiset{}
  }

  /** What is due to be sent for a call: a message for each of its payloads if it succeeds, and what is due for each
      call it reaches. */
  ghost function Due(c: Call): multiset<Message>
    decreases c, 1
  {
    DueFrom(c, 0) + OwnDue(c)
  }

  ghost function DueFrom(c: Call, k: nat): multiset<Message>
    requires k <= |c.steps|
    decreases c, 0, |c.steps| - k
  {
    if Reaches(c, k) then Due(c.steps[k].call) + DueFrom(c, k + 1) else multiset{}
  }

  lemma {:induction false} MessagesAreDue(c: Call, payloads: seq<nat>)
    ensures multiset(Messages(c, payloads)) == DueFor(c, payloads)
  {
    var ms := Messages(c, payloads);
    if payloads == [] {
    } else {
      MessagesAreDue(c, payloads[1..]);
      assert ms == [ms[0]] + Messages(c, payloads[1..]);
    }
  }

  lemma {:induction false} Members(a: seq<Message>, b: seq<Message>)
    ensures multiset(a + b) == multiset(a) + multiset(b)
  {
  }

  lemma {:induction false} ReachesNext(c: Call, k: nat)
    requires Reaches(c, k)
    ensures Reaches(c, k + 1) <==> k + 1 < |c.steps| && (c.steps[k].caught || Succeeds(c.steps[k].call))
  {
  }

  lemma {:induction false} DueNext(c: Call, k: nat)
    requires Reaches(c, k)
    ensures var step := c.steps[k];
      DueFrom(c, k) ==
      Due(step.call) + if step.caught || Succeeds(step.call) then DueFrom(c, k + 1) else multiset{}
  {
    ReachesNext(c, k);
  }

  lemma {:induction false} QueuedIsDueFrom(c: Call, k: nat)
    requires k <= |c.steps| && (k < |c.steps| ==> Reaches(c, k))
    ensures multiset(PostOrderFrom(c, k)) == DueFrom(c, k)
    decreases c, 0, |c.steps| - k
  {
    if k < |c.steps| {
      var step := c.steps[k];
      var go := step.caught || Succeeds(step.call);
      DueNext(c, k);
      ReachesNext(c, k);
      QueuedIsDue(step.call);
      if go {
        QueuedIsDueFrom(c, k + 1);
      }
      Members(PostOrder(step.call), if go then PostOrderFrom(c, k + 1) else []);
    }
  }

  lemma {:induction false} QueuedIsDue(c: Call)
    ensures multiset(PostOrder(c)) == Due(c)
    decreases c, 1
  {
    QueuedIsDueFrom(c, 0);
    if Succeeds(c) {
      MessagesAreDue(c, c.ending.payloads);
    }
    Members(PostOrderFrom(c, 0), Own(c));
  }

  /** What an outermost call sends is what is due, nothing more than once. */
  lemma {:induction false} SentIsDue(c: Call)
    ensures multiset(Reverse(PostOrder(c))) == Due(c)
  {
    ReverseMembers(PostOrder(c));
    QueuedIsDue(c);
  }

  lemma {:induction false} ReverseAt(ms: seq<Message>, i: nat)
    requires i < |ms|
    ensures Reverse(ms)[i] == ms[|ms| - 1 - i]
  {
    if i < |ms| - 1 {
      ReverseAt(ms[1..], i);
    }
  }

  /** A call that succeeds sends its own messages first, the last payload before the others. */
  lemma {:induction false} OwnMessagesAreSentFirst(c: Call, i: nat)
    requires Succeeds(c) && i < |c.ending.payloads|
    ensures i < |PostOrder(c)|
    ensures Reverse(PostOrder(c))[i] == Message(c.context, c.kind, c.ending.payloads[|c.ending.payloads| - 1 - i])
  {
    ReverseOfSum(PostOrderFrom(c, 0), Own(c));
    ReverseAt(Own(c), i);
  }

  /** The calls from the k-th on queue something, and then what the calls from a later one on queue. */
  lemma {:induction false} PostOrderUpTo(c: Call, k: nat, i: nat) returns (before: seq<Message>)
    requires k <= i < |c.steps| && Reaches(c, i)
    ensures PostOrderFrom(c, k) == before + PostOrderFrom(c, i)
    decreases i - k
  {
    if k == i {
      before := [];
    } else {
      var rest := PostOrderUpTo(c, k + 1, i);
      before := PostOrder(c.steps[k].call) + rest;
      assert before + PostOrderFrom(c, i) == PostOrder(c.steps[k].call) + (rest + PostOrderFrom(c, i));
    }
  }

  lemma {:induction false} Regroup(a: seq<Message>, b: seq<Message>, c: seq<Message>)
    ensures (a + b) + c == a + (b + c)
  {
  }

  /** What a call queues, cut at two of the calls it makes in turn. */
  lemma {:induction false} PostOrderCut(c: Call, i: nat, j: nat)
    returns (a: seq<Message>, mid: seq<Message>, tail: seq<Message>)
    requires i < j && Reaches(c, j)
    ensures PostOrder(c) ==
            a + (PostOrder(c.steps[i].call) + (mid + (PostOrder(c.steps[j].call) + (tail + Own(c)))))
  {
    var first, second, own := PostOrder(c.steps[i].call), PostOrder(c.steps[j].call), Own(c);
    assert Reaches(c, i);
    a := PostOrderUpTo(c, 0, i);
    mid := PostOrderUpTo(c, i + 1, j);
    var back := PostOrderFrom(c, j);
    tail := back[|second|..];
    assert back == second + tail;
    Regroup(a, first + (mid + back), own);
    Regroup(first, mid + back, own);
    Regroup(mid, back, own);
    Regroup(second, tail, own);
  }

  lemma {:induction false} ReverseOfThree(a: seq<Message>, b: seq<Message>, c: seq<Message>)
    ensures Reverse(a + (b + c)) == Reverse(c) + Reverse(b) + Reverse(a)
  {
    ReverseOfSum(a, b + c);
    ReverseOfSum(b, c);
  }

  /** Of two calls made in turn, the later one's messages are sent first, those of the calls inside it included; the
      messages of the call that makes them are sent before both. */
  lemma {:induction false} LaterCallsAreSentFirst(c: Call, i: nat, j: nat)
    returns (before: seq<Message>, between: seq<Message>, after: seq<Message>)
    requires i < j && Reaches(c, j)
    ensures Reverse(PostOrder(c)) ==
            (Reverse(Own(c)) + before + Reverse(PostOrder(c.steps[j].call))) + between +
            Reverse(PostOrder(c.steps[i].call)) + after
  {
    var first, second, own := PostOrder(c.steps[i].call), PostOrder(c.steps[j].call), Own(c);
    var a, mid, tail := PostOrderCut(c, i, j);
    ReverseOfThree(second, tail, own);
    ReverseOfThree(first, mid, second + (tail + own));
    ReverseOfSum(a, first + (mid + (second + (tail + own))));
    before, between, after := Reverse(tail), Reverse(mid), Reverse(a);
  }

  // ---------------------------------------------------------------- the thread's state

  /** A message broker connection: takes `accepts` more messages, or any number, and then raises. */
  class Notifier {
    var sent: seq<Message>
    var accepts: Option<nat>

    constructor (accepts: Option<nat>)
      ensures sent == [] && this.accepts == accepts
    {
      sent, this.accepts := [], accepts;
    }

    method Info(m: Message) returns (ok: bool)
      modifies this
      ensures ok == (old(accepts) != Some(0))
      ensures sent == if ok then old(sent) + [m] else old(sent)
      ensures accepts == if ok && old(accepts).Some? then Some(old(accepts).value - 1) else old(accepts)
    {
      if accepts == Some(0) {
        return false;
      }
      sent := sent + [m];
      if accepts.Some? {
        accepts := Some(accepts.value - 1);
      }
      return true;
    }
  }

  /** How many of these messages a notifier takes. */
  function Taken(accepts: Option<nat>, queue: seq<Message>): (n: nat)
    ensures n <= |queue|
  {
    if accepts.Some? && accepts.value < |queue| then accepts.value else |queue|
  }

  class NotificationThreadLocal {
    var stack: nat
    var queue: seq<Message>

    constructor ()
      ensures stack == 0 && queue == []
    {
      stack, queue := 0, [];
    }

    method AppendAllLeft(ms: seq<Message>)
      modifies this`queue
      ensures queue == Reverse(ms) + old(queue)
    {
      var i := 0;
      while i < |ms|
        invariant i <= |ms|
        invariant queue == Reverse(ms[..i]) + old(queue)
      {
        queue := [ms[i]] + queue;
        ReverseOfSum(ms[..i], [ms[i]]);
        assert ms[..i + 1] == ms[..i] + [ms[i]];
        i := i + 1;
      }
      assert ms[..i] == ms;
    }

    /** Sends the queue from the left and empties it; when the notifier raises, the queue is left whole. */
    method Emit(notifier: Notifier) returns (ok: bool)
      modifies this`queue, notifier
      ensures ok == (Taken(old(notifier.accepts), old(queue)) == |old(queue)|)
      ensures notifier.sent == old(notifier.sent) + old(queue)[..Taken(old(notifier.accepts), old(queue))]
      ensures queue == if ok then [] else old(queue)
    {
      var i := 0;
      while i < |queue|
        invariant i <= |queue| && queue == old(queue)
        invariant i <= Taken(old(notifier.accepts), queue)
        invariant notifier.sent == old(notifier.sent) + queue[..i]
        invariant notifier.accepts ==
                  if old(notifier.accepts).Some? then Some(old(notifier.accepts).value - i) else None
      {
        var taken := notifier.Info(queue[i]);
        if !taken {
          return false;
        }
        i := i + 1;
      }
      queue := [];
      return true;
    }

    /** A decorated call. Inside another one it only queues; the outermost one sends everything queued when it
        leaves, whether it succeeded or not. */
    method Wrapper(c: Call, notifier: Notifier) returns (ok: bool)
      modifies this, notifier
      ensures stack == old(stack)
      ensures old(stack) > 0 ==> queue == Reverse(PostOrder(c)) + old(queue) && ok == Succeeds(c)
      ensures old(stack) > 0 ==> notifier.sent == old(notifier.sent) && notifier.accepts == old(notifier.accepts)
      ensures old(stack) == 0 ==>
                var pending := Reverse(PostOrder(c)) + old(queue);
                var taken := Taken(old(notifier.accepts), pending);
                && notifier.sent == old(notifier.sent) + pending[..taken]
                && queue == (if taken == |pending| then [] else pending)
                && ok == (Succeeds(c) && taken == |pending|)
      decreases c, 1
    {
      stack := stack + 1;
      ok := RunBody(c, notifier);
      if ok {
        AppendAllLeft(Messages(c, c.ending.payloads));
      }
      OwnGoFirst(c, old(queue));
      stack := stack - 1;
      if stack == 0 {
        var all := Emit(notifier);
        ok := ok && all;
      }
    }

    method RunBody(c: Call, notifier: Notifier) returns (ok: bool)
      requires stack > 0
      modifies this, notifier
      ensures stack == old(stack) && ok == Succeeds(c)
      ensures queue == Reverse(PostOrderFrom(c, 0)) + old(queue)
      ensures notifier.sent == old(notifier.sent) && notifier.accepts == old(notifier.accepts)
      decreases c, 0
    {
      var k := 0;
      ghost var done: seq<Message> := [];
      while k < |c.steps|
        invariant k <= |c.steps| && stack == old(stack)
        invariant Halfway(c, k, done)
        invariant queue == Reverse(done) + old(queue)
        invariant notifier.sent == old(notifier.sent) && notifier.accepts == old(notifier.accepts)
      {
        var step := c.steps[k];
        var returned := Wrapper(step.call, notifier);
        OneStep(c, k, done);
        ReverseOnto(done, PostOrder(step.call), old(queue));
        done := done + PostOrder(step.call);
        if !returned && !step.caught {
          return false;
        }
        k := k + 1;
      }
      AllSteps(c, done);
      return c.ending.Returns?;
    }
  }

  /** When the notifier gives up in the middle, the messages it took stay queued: the next outermost call sends
      them again behind its own. */
  method RefusedMessagesAreRepeated(thread: NotificationThreadLocal, notifier: Notifier, first: Call, second: Call)
    returns (sent: seq<Message>)
    requires thread.stack == 0 && thread.queue == [] && notifier.sent == []
    requires notifier.accepts.Some? && notifier.accepts.value < |PostOrder(first)|
    modifies thread, notifier
    ensures var pending := Reverse(PostOrder(first));
            sent == pending[..old(notifier.accepts).value] + (Reverse(PostOrder(second)) + pending)
  {
    ghost var pending := Reverse(PostOrder(first));
    assert pending + [] == pending;
    var _ := thread.Wrapper(first, notifier);
    assert thread.queue == pending;
    assert notifier.sent == pending[..old(notifier.accepts).value];
    notifier.accepts := None;
    ghost var again := Reverse(PostOrder(second)) + pending;
    assert again[..|again|] == again;
    var _ := thread.Wrapper(second, notifier);
    sent := notifier.sent;
  }
}
