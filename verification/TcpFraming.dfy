/** DNS messages over TCP: each is preceded by its length in two bytes; received data may be cut anywhere. */
module TcpFraming {
  import opened Sequences
  import opened Wrappers

  newtype byte = x: int | 0 <= x < 256

  type Bytes = seq<byte>

  const TCP_RECV_MAX_SIZE: nat := 65535
  const MAX_LENGTH: nat := 65535

  /** How the peer leaves after its last byte: it closes, or says nothing more until the timeout. */
  datatype Ending = Closed | Silent

  datatype Outcome = EndOfStream | TimedOut | StructError

  // ---------------------------------------------------------------- framing

  /** The high byte comes first (section 4.2.2 of RFC 1035). */
  function Pack(n: nat): (b: Bytes)
    requires n <= MAX_LENGTH
    ensures |b| == 2 && b[0] as nat * 256 + b[1] as nat == n
  {
    [(n / 256) as byte, (n % 256) as byte]
  }

  function Unpack(hi: byte, lo: byte): (n: nat)
    ensures n <= MAX_LENGTH
  {
    hi as nat * 256 + lo as nat
  }

  lemma {:induction false} UnpackPack(n: nat)
    requires n <= 65535
    ensures Unpack(Pack(n)[0], Pack(n)[1]) == n
  {
  }

  predicate Sendable(message: Bytes) {
    |message| <= MAX_LENGTH
  }

  function Frame(message: Bytes): (b: Bytes)
    requires Sendable(message)
    ensures |b| == 2 + |message|
  {
    Pack(|message|) + message
  }

  function Stream(messages: seq<Bytes>): Bytes
    requires forall m :: m in messages ==> Sendable(m)
  {
    if messages == [] then [] else Frame(messages[0]) + Stream(messages[1..])
  }

  // ---------------------------------------------------------------- receiving

  /** The end of what one call for at most n bytes returns: data up to the next cut. */
  function RecvEnd(cuts: set<nat>, pos: nat, end: nat): (e: nat)
    requires pos < end
    ensures pos < e <= end
    ensures e == end || e in cuts
    ensures forall i :: pos < i < e ==> i !in cuts
    decreases end - pos
  {
    if pos + 1 == end || pos + 1 in cuts then pos + 1 else RecvEnd(cuts, pos + 1, end)
  }

  /** What the responses of the application put on the wire; a response that is too long ends the connection. */
  function Replies(responses: seq<Option<Bytes>>): (r: (Bytes, bool)) {
    if responses == [] then ([], true)
    else match responses[0]
      case None => Replies(responses[1..])
      case Some(m) =>
        if !Sendable(m) then ([], false)
        else var rest := Replies(responses[1..]); (Frame(m) + rest.0, rest.1)
  }

  /** What a connection amounts to: messages handed to the application, bytes sent back, and how it ended. */
  datatype Session = Session(delivered: seq<Bytes>, sent: Bytes, outcome: Outcome)

  datatype Peer = Peer(stream: Bytes, cuts: set<nat>, ending: Ending)

  type Application = Bytes -> seq<Option<Bytes>>

  /** The connection from this position on, independent of how the bodies are cut. */
  function Serve(peer: Peer, app: Application, pos: nat): Session
    requires pos <= |peer.stream|
    decreases |peer.stream| - pos
  {
    var left := |peer.stream| - pos;
    if left == 0 then
      Session([], [], if peer.ending == Closed then EndOfStream else TimedOut)
    else if left == 1 || pos + 1 in peer.cuts then
      Session([], [], StructError)
    else
      var next := pos + 2 + Unpack(peer.stream[pos], peer.stream[pos + 1]);
      if next > |peer.stream| && peer.ending == Silent then
        Session([], [], TimedOut)
      else
        var end := Min(next, |peer.stream|);
        var message := peer.stream[pos + 2..end];
        var replies := Replies(app(message));
        if !replies.1 then Session([message], replies.0, StructError)
        else
          var rest := Serve(peer, app, end);
          Session([message] + rest.delivered, replies.0 + rest.sent, rest.outcome)
  }

  function Onto(delivered: seq<Bytes>, sent: Bytes, rest: Session): Session {
    Session(delivered + rest.delivered, sent + rest.sent, rest.outcome)
  }

  /** The message that begins here ends there: its length is not cut, and its body is complete or the peer has
      closed. */
  predicate MessageEnds(peer: Peer, pos: nat, end: nat) {
    && pos + 2 <= |peer.stream| && pos + 1 !in peer.cuts
    && var next := pos + 2 + Unpack(peer.stream[pos], peer.stream[pos + 1]);
       end == Min(next, |peer.stream|) && (peer.ending == Closed || next <= |peer.stream|)
  }

  lemma {:induction false} NextMessage(peer: Peer, app: Application, pos: nat, end: nat, message: Bytes)
    requires MessageEnds(peer, pos, end) && message == peer.stream[pos + 2..end]
    ensures Serve(peer, app, pos) ==
            if Replies(app(message)).1 then Onto([message], Replies(app(message)).0, Serve(peer, app, end))
            else Session([message], Replies(app(message)).0, StructError)
  {
  }

  lemma {:induction false} OntoOnto(a: seq<Bytes>, s: Bytes, b: seq<Bytes>, t: Bytes, rest: Session)
    ensures Onto(a, s, Onto(b, t, rest)) == Onto(a + b, s + t, rest)
  {
    assert a + (b + rest.delivered) == (a + b) + rest.delivered;
    assert s + (t + rest.sent) == (s + t) + rest.sent;
  }

  /** Asking for a length gives two bytes unless the stream ends or is cut after the first. */
  lemma {:induction false} LengthArrives(peer: Peer, pos: nat)
    requires pos < |peer.stream|
    ensures RecvEnd(peer.cuts, pos, Min(pos + 2, |peer.stream|)) ==
            if pos + 1 == |peer.stream| || pos + 1 in peer.cuts then pos + 1 else pos + 2
  {
  }

  class Client {
    const peer: Peer
    var pos: nat
    var sent: Bytes

    ghost predicate Valid()
      reads this
    {
      pos <= |peer.stream|
    }

    constructor (peer: Peer)
      ensures Valid() && this.peer == peer && pos == 0 && sent == []
    {
      this.peer, pos, sent := peer, 0, [];
    }

    /** Nothing at all means that the peer has closed; no result means a timeout. */
    method Recv(n: nat) returns (data: Option<Bytes>)
      requires Valid() && n > 0
      modifies this`pos
      ensures Valid()
      ensures old(pos) == |peer.stream| ==> pos == old(pos) && data == if peer.ending == Closed then Some([]) else None
      ensures old(pos) < |peer.stream| ==>
                && pos == RecvEnd(peer.cuts, old(pos), Min(old(pos) + n, |peer.stream|))
                && data == Some(peer.stream[old(pos)..pos])
    {
      if pos == |peer.stream| {
        return if peer.ending == Closed then Some([]) else None;
      }
      var end := RecvEnd(peer.cuts, pos, Min(pos + n, |peer.stream|));
      data := Some(peer.stream[pos..end]);
      pos := end;
    }

    method SendAll(data: Bytes)
      modifies this`sent
      ensures sent == old(sent) + data
    {
      sent := sent + data;
    }
  }

  /** Collects a body piece by piece; a peer that closes early leaves it short. */
  method ReadBody(client: Client, expected: nat) returns (body: Option<Bytes>)
    requires client.Valid() && expected <= MAX_LENGTH
    modifies client`pos
    ensures client.Valid()
    ensures var stream, start := client.peer.stream, old(client.pos);
            var end := Min(start + expected, |stream|);
            && client.pos == end
            && body == if end < start + expected && client.peer.ending == Silent then None else Some(stream[start..end])
  {
    ghost var start := client.pos;
    var buf: Bytes := [];
    while |buf| < expected
      invariant client.Valid() && |buf| <= expected
      invariant client.pos == start + |buf| && buf == client.peer.stream[start..client.pos]
      decreases expected - |buf|
    {
      var data := client.Recv(Min(expected - |buf|, TCP_RECV_MAX_SIZE));
      if data.None? {
        return None;
      }
      if data.value == [] {
        break;
      }
      buf := buf + data.value;
    }
    return Some(buf);
  }

  method SendReplies(client: Client, responses: seq<Option<Bytes>>) returns (ok: bool)
    requires client.Valid()
    modifies client`sent
    ensures client.sent == old(client.sent) + Replies(responses).0 && ok == Replies(responses).1
  {
    var i := 0;
    ghost var done: Bytes := [];
    assert responses[0..] == responses;
    while i < |responses|
      invariant i <= |responses|
      invariant client.sent == old(client.sent) + done
      invariant Replies(responses).0 == done + Replies(responses[i..]).0
      invariant Replies(responses).1 == Replies(responses[i..]).1
    {
      assert responses[i..][1..] == responses[i + 1..];
      if responses[i].Some? {
        var message := responses[i].value;
        if |message| > MAX_LENGTH {
          return false;
        }
        client.SendAll(Frame(message));
        done := done + Frame(message);
      }
      i := i + 1;
    }
    return true;
  }

  /** The two bytes of a length, if they come in one piece. */
  method ReadLength(client: Client) returns (r: Result<nat, Outcome>)
    requires client.Valid()
    modifies client`pos
    ensures client.Valid() && (r.Ok? ==> r.value <= MAX_LENGTH)
    ensures var peer, pos := client.peer, old(client.pos);
            if pos == |peer.stream| then r == Err(if peer.ending == Closed then EndOfStream else TimedOut)
            else if pos + 1 == |peer.stream| || pos + 1 in peer.cuts then r == Err(StructError)
            else client.pos == pos + 2 && r == Ok(Unpack(peer.stream[pos], peer.stream[pos + 1]))
  {
    if client.pos < |client.peer.stream| {
      LengthArrives(client.peer, client.pos);
    }
    var raw := client.Recv(2);
    if raw.None? {
      return Err(TimedOut);
    }
    if |raw.value| == 0 {
      return Err(EndOfStream);
    }
    if |raw.value| != 2 {
      return Err(StructError);
    }
    return Ok(Unpack(raw.value[0], raw.value[1]));
  }

  /** One message, or how the connection ends without it. */
  method ReadMessage(client: Client, ghost app: Application) returns (r: Result<Bytes, Outcome>)
    requires client.Valid()
    modifies client`pos
    ensures client.Valid()
    ensures r.Err? ==> Serve(client.peer, app, old(client.pos)) == Session([], [], r.error)
    ensures r.Ok? ==>
      && MessageEnds(client.peer, old(client.pos), client.pos)
      && r.value == client.peer.stream[old(client.pos) + 2..client.pos]
  {
    var expected := ReadLength(client);
    if expected.Err? {
      return Err(expected.error);
    }
    var body := ReadBody(client, expected.value);
    if body.None? {
      return Err(TimedOut);
    }
    return Ok(body.value);
  }

  /** Takes one message and sends its responses back, or ends. */
  method ServeOne(client: Client, app: Application, delivered: seq<Bytes>, ghost whole: Session)
    returns (more: seq<Bytes>, end: Option<Outcome>)
    requires client.Valid() && whole == Onto(delivered, client.sent, Serve(client.peer, app, client.pos))
    modifies client
    ensures client.Valid()
    ensures end.Some? ==> whole == Session(more, client.sent, end.value)
    ensures end.None? ==> old(client.pos) < client.pos
    ensures end.None? ==> whole == Onto(more, client.sent, Serve(client.peer, app, client.pos))
  {
    ghost var start, sent := client.pos, client.sent;
    var message := ReadMessage(client, app);
    if message.Err? {
      return delivered, Some(message.error);
    }
    NextMessage(client.peer, app, start, client.pos, message.value);
    more := delivered + [message.value];
    var ok := SendReplies(client, app(message.value));
    if !ok {
      return more, Some(StructError);
    }
    OntoOnto(delivered, sent, [message.value], Replies(app(message.value)).0, Serve(client.peer, app, client.pos));
    return more, None;
  }

  /** Whatever the cuts inside the bodies, the connection does what Serve says. */
  method HandleTcpConn(client: Client, app: Application) returns (delivered: seq<Bytes>, outcome: Outcome)
    requires client.Valid() && client.pos == 0 && client.sent == []
    modifies client
    ensures Session(delivered, client.sent, outcome) == Serve(client.peer, app, 0)
  {
    delivered := [];
    ghost var whole := Serve(client.peer, app, 0);
    while true
      invariant client.Valid()
      invariant whole == Onto(delivered, client.sent, Serve(client.peer, app, client.pos))
      decreases |client.peer.stream| - client.pos
    {
      var end;
      delivered, end := ServeOne(client, app, delivered, whole);
      if end.Some? {
        return delivered, end.value;
      }
    }
  }

  // ---------------------------------------------------------------- which messages arrive

  ghost predicate AllSendable(messages: seq<Bytes>) {
    forall m :: m in messages ==> Sendable(m)
  }

  lemma {:induction false} SendableSum(a: seq<Bytes>, b: seq<Bytes>)
    requires AllSendable(a) && AllSendable(b)
    ensures AllSendable(a + b)
  {
  }

  lemma {:induction false} StreamOfSum(a: seq<Bytes>, b: seq<Bytes>)
    requires AllSendable(a) && AllSendable(b)
    ensures AllSendable(a + b) && Stream(a + b) == Stream(a) + Stream(b)
  {
    SendableSum(a, b);
    if a == [] {
      assert a + b == b;
    } else {
      var first, rest := a[0], a[1..];
      SendableSum(rest, b);
      StreamOfSum(rest, b);
      assert (a + b)[0] == first && (a + b)[1..] == rest + b;
      assert Frame(first) + (Stream(rest) + Stream(b)) == (Frame(first) + Stream(rest)) + Stream(b);
    }
  }

  /** The responses that are sent back: those that are present. */
  function Present(responses: seq<Option<Bytes>>): seq<Bytes> {
    if responses == [] then []
    else (if responses[0].Some? then [responses[0].value] else []) + Present(responses[1..])
  }

  lemma {:induction false} RepliesAreFrames(responses: seq<Option<Bytes>>)
    ensures Replies(responses).1 <==> AllSendable(Present(responses))
    ensures Replies(responses).1 ==> Replies(responses).0 == Stream(Present(responses))
  {
    if responses == [] {
    } else {
      RepliesAreFrames(responses[1..]);
      if responses[0].Some? {
        var m, rest := responses[0].value, Present(responses[1..]);
        assert Present(responses) == [m] + rest && ([m] + rest)[1..] == rest;
        assert m in Present(responses);
        if Replies(responses).1 {
          assert AllSendable(rest) && Sendable(m);
        } else if Sendable(m) {
          var long :| long in rest && !Sendable(long);
          assert long in Present(responses);
        }
      } else {
        assert Present(responses) == Present(responses[1..]);
      }
    }
  }

  /** The responses to these messages, in order. */
  function Answers(app: Application, messages: seq<Bytes>): seq<Bytes> {
    if messages == [] then [] else Present(app(messages[0])) + Answers(app, messages[1..])
  }

  ghost predicate AnswersFit(app: Application, messages: seq<Bytes>) {
    forall m :: m in messages ==> AllSendable(Present(app(m)))
  }

  lemma {:induction false} FittingAnswers(app: Application, messages: seq<Bytes>)
    requires AnswersFit(app, messages)
    ensures AllSendable(Answers(app, messages))
  {
    if messages == [] {
    } else {
      FittingAnswers(app, messages[1..]);
    }
  }

  /** How many of these messages arrive before a cut falls inside a length. */
  function Unsplit(cuts: set<nat>, pos: nat, messages: seq<Bytes>): (k: nat)
    ensures k <= |messages|
    decreases |messages|
  {
    if messages == [] || pos + 1 in cuts then 0 else 1 + Unsplit(cuts, pos + 2 + |messages[0]|, messages[1..])
  }

  lemma {:induction false} FrameAt(stream: Bytes, pos: nat, message: Bytes, rest: Bytes)
    requires pos <= |stream| && Sendable(message) && stream[pos..] == Frame(message) + rest
    ensures pos + 2 + |message| <= |stream|
    ensures Unpack(stream[pos], stream[pos + 1]) == |message|
    ensures stream[pos + 2..pos + 2 + |message|] == message && stream[pos + 2 + |message|..] == rest
  {
    var left := stream[pos..];
    UnpackPack(|message|);
    assert left[0] == stream[pos] && left[1] == stream[pos + 1];
    assert stream[pos + 2..pos + 2 + |message|] == left[2..2 + |message|] == message;
    assert stream[pos + 2 + |message|..] == left[2 + |message|..] == rest;
  }

  lemma {:induction false} FirstFrame(peer: Peer, app: Application, pos: nat, message: Bytes, rest: Bytes)
    requires pos <= |peer.stream| && Sendable(message) && peer.stream[pos..] == Frame(message) + rest
    requires pos + 1 !in peer.cuts && AllSendable(Present(app(message)))
    ensures pos + 2 + |message| <= |peer.stream| && peer.stream[pos + 2 + |message|..] == rest
    ensures Serve(peer, app, pos) ==
            Onto([message], Stream(Present(app(message))), Serve(peer, app, pos + 2 + |message|))
  {
    FrameAt(peer.stream, pos, message, rest);
    RepliesAreFrames(app(message));
  }

  lemma {:induction false} StreamStarts(messages: seq<Bytes>, rest: Bytes)
    requires AllSendable(messages) && messages != []
    ensures Stream(messages) + rest == Frame(messages[0]) + (Stream(messages[1..]) + rest)
  {
  }

  lemma {:induction false} AnswersStart(app: Application, messages: seq<Bytes>)
    requires AnswersFit(app, messages) && messages != []
    ensures AllSendable(Present(app(messages[0]))) && AllSendable(Answers(app, messages[1..]))
    ensures AllSendable(Answers(app, messages))
    ensures Stream(Answers(app, messages)) == Stream(Present(app(messages[0]))) + Stream(Answers(app, messages[1..]))
  {
    FittingAnswers(app, messages[1..]);
    StreamOfSum(Present(app(messages[0])), Answers(app, messages[1..]));
  }

  lemma {:induction false} TailFits(app: Application, messages: seq<Bytes>)
    requires AllSendable(messages) && AnswersFit(app, messages) && messages != []
    ensures Sendable(messages[0]) && AllSendable(messages[1..]) && AnswersFit(app, messages[1..])
  {
    forall m | m in messages[1..] ensures m in messages {
    }
  }

  lemma {:induction false} OneMoreArrives(peer: Peer, app: Application, pos: nat, messages: seq<Bytes>, rest: Bytes,
                                          tail: Session)
    requires messages != [] && AllSendable(messages) && AnswersFit(app, messages) && pos + 1 !in peer.cuts
    requires pos <= |peer.stream| && peer.stream[pos..] == Frame(messages[0]) + rest
    requires AllSendable(Answers(app, messages[1..]))
    requires pos + 2 + |messages[0]| <= |peer.stream| ==>
               Serve(peer, app, pos + 2 + |messages[0]|) ==
                 Onto(messages[1..], Stream(Answers(app, messages[1..])), tail)
    ensures AllSendable(Answers(app, messages))
    ensures Serve(peer, app, pos) == Onto(messages, Stream(Answers(app, messages)), tail)
  {
    var first, others := messages[0], messages[1..];
    AnswersStart(app, messages);
    var one, more := Stream(Present(app(first))), Stream(Answers(app, others));
    FirstFrame(peer, app, pos, first, rest);
    assert [first] + others == messages;
    OntoOnto([first], one, others, more, tail);
  }

  /** The messages in front of the first split length arrive as they were sent, whatever the cuts inside them,
      and their responses go back in frames; then the connection goes on with what follows them. */
  lemma {:induction false} MessagesArrive(peer: Peer, app: Application, pos: nat, messages: seq<Bytes>, rest: Bytes,
                                          end: nat)
    requires AllSendable(messages) && AnswersFit(app, messages)
    requires pos <= |peer.stream| && peer.stream[pos..] == Stream(messages) + rest
    requires end + |rest| == |peer.stream|
    requires Unsplit(peer.cuts, pos, messages) == |messages|
    ensures AllSendable(Answers(app, messages))
    ensures Serve(peer, app, pos) == Onto(messages, Stream(Answers(app, messages)), Serve(peer, app, end))
    decreases |messages|
  {
    if messages == [] {
    } else {
      var others := messages[1..];
      StreamStarts(messages, rest);
      TailFits(app, messages);
      FrameAt(peer.stream, pos, messages[0], Stream(others) + rest);
      MessagesArrive(peer, app, pos + 2 + |messages[0]|, others, rest, end);
      OneMoreArrives(peer, app, pos, messages, Stream(others) + rest, Serve(peer, app, end));
    }
  }

  /** How a connection ends behind the last message. */
  function EndOfPeer(peer: Peer): Outcome {
    match peer.ending
    case Closed => EndOfStream
    case Silent => TimedOut
  }

  lemma {:induction false} Stops(peer: Peer, app: Application, pos: nat)
    requires pos <= |peer.stream| && (pos < |peer.stream| ==> pos + 1 in peer.cuts)
    ensures Serve(peer, app, pos) ==
            Session([], [], if pos == |peer.stream| then EndOfPeer(peer) else StructError)
  {
  }

  lemma {:induction false} StreamIsEmpty(messages: seq<Bytes>)
    requires AllSendable(messages)
    ensures |Stream(messages)| == 0 <==> messages == []
  {
  }

  lemma {:induction false} ArriveThenStop(peer: Peer, app: Application, arrived: seq<Bytes>, lost: seq<Bytes>, end: nat)
    requires AllSendable(arrived) && AllSendable(lost) && AnswersFit(app, arrived)
    requires peer.stream == Stream(arrived) + Stream(lost)
    requires Unsplit(peer.cuts, 0, arrived) == |arrived|
    requires end == |Stream(arrived)| && (lost != [] ==> end + 1 in peer.cuts)
    ensures Serve(peer, app, 0).delivered == arrived
    ensures Serve(peer, app, 0).outcome == if lost == [] then EndOfPeer(peer) else StructError
  {
    assert peer.stream[0..] == peer.stream;
    MessagesArrive(peer, app, 0, arrived, Stream(lost), end);
    StreamIsEmpty(lost);
    Stops(peer, app, end);
  }

  lemma {:induction false} PartsFit(app: Application, messages: seq<Bytes>, k: nat)
    requires AllSendable(messages) && AnswersFit(app, messages) && k <= |messages|
    ensures AllSendable(messages[..k]) && AllSendable(messages[k..]) && AnswersFit(app, messages[..k])
    ensures Stream(messages) == Stream(messages[..k]) + Stream(messages[k..])
  {
    assert messages[..k] + messages[k..] == messages;
    StreamOfSum(messages[..k], messages[k..]);
  }

  /** The messages in front of the first split length, and where it is. */
  lemma {:induction false} UnsplitPrefix(cuts: set<nat>, pos: nat, messages: seq<Bytes>) returns (end: nat)
    requires AllSendable(messages)
    ensures var k := Unsplit(cuts, pos, messages);
            && Unsplit(cuts, pos, messages[..k]) == k
            && end == pos + |Stream(messages[..k])|
            && (k < |messages| ==> end + 1 in cuts)
    decreases |messages|
  {
    var k := Unsplit(cuts, pos, messages);
    if k > 0 {
      var others := messages[1..];
      end := UnsplitPrefix(cuts, pos + 2 + |messages[0]|, others);
      assert messages[..k][1..] == others[..k - 1];
    } else {
      end := pos;
    }
  }

  /** A peer that sends these messages and then closes or says nothing more has all of them answered exactly when no
      cut falls inside a length; otherwise those before the first such cut arrive and the connection ends in an
      error. */
  lemma {:induction false} CutLengthsLoseMessages(peer: Peer, app: Application, messages: seq<Bytes>)
    requires AllSendable(messages) && AnswersFit(app, messages)
    requires peer.stream == Stream(messages)
    ensures var session := Serve(peer, app, 0);
            var k := Unsplit(peer.cuts, 0, messages);
            && session.delivered == messages[..k]
            && session.outcome == (if k == |messages| then EndOfPeer(peer) else StructError)
  {
    var k := Unsplit(peer.cuts, 0, messages);
    PartsFit(app, messages, k);
    var end := UnsplitPrefix(peer.cuts, 0, messages);
    ArriveThenStop(peer, app, messages[..k], messages[k..], end);
  }

  lemma {:induction false} ShortFrame(peer: Peer, app: Application, pos: nat, last: Bytes, part: nat)
    requires Sendable(last) && part < |last| && pos + 1 !in peer.cuts && peer.ending == Closed
    requires pos <= |peer.stream| && peer.stream[pos..] == Pack(|last|) + last[..part]
    requires AllSendable(Present(app(last[..part])))
    ensures Serve(peer, app, pos) == Session([last[..part]], Stream(Present(app(last[..part]))), EndOfStream)
  {
    var left := peer.stream[pos..];
    UnpackPack(|last|);
    assert peer.stream[pos] == left[0] && peer.stream[pos + 1] == left[1];
    assert peer.stream[pos + 2..] == left[2..] == last[..part];
    assert peer.stream[pos + 2..|peer.stream|] == peer.stream[pos + 2..];
    RepliesAreFrames(app(last[..part]));
    assert Serve(peer, app, |peer.stream|) == Session([], [], EndOfStream);
  }

  /** A peer that closes inside the last body: the application is handed the part that came. */
  lemma {:induction false} ShortBodyIsDelivered(peer: Peer, app: Application, messages: seq<Bytes>, last: Bytes,
                                                part: nat)
    requires AllSendable(messages) && Sendable(last) && part < |last|
    requires AnswersFit(app, messages) && AllSendable(Present(app(last[..part])))
    requires peer.stream == Stream(messages) + (Pack(|last|) + last[..part]) && peer.ending == Closed
    requires Unsplit(peer.cuts, 0, messages) == |messages| && |Stream(messages)| + 1 !in peer.cuts
    ensures Serve(peer, app, 0).delivered == messages + [last[..part]]
    ensures Serve(peer, app, 0).outcome == EndOfStream
  {
    var rest := Pack(|last|) + last[..part];
    assert peer.stream[0..] == Stream(messages) + rest;
    MessagesArrive(peer, app, 0, messages, rest, |Stream(messages)|);
    assert peer.stream[|Stream(messages)|..] == rest;
    ShortFrame(peer, app, |Stream(messages)|, last, part);
  }

  /** How a connection ends that stops in the middle of a frame: with nothing after the last message, after one byte
      of a length, or inside a body. */
  function EndInFrame(peer: Peer, part: nat): Outcome {
    if part == 1 then StructError else EndOfPeer(peer)
  }

  lemma {:induction false} BrokenFrame(peer: Peer, app: Application, pos: nat, last: Bytes, part: nat)
    requires Sendable(last) && part < |Frame(last)| && (part > 1 ==> pos + 1 !in peer.cuts)
    requires pos <= |peer.stream| && peer.stream[pos..] == Frame(last)[..part]
    requires part <= 1 || peer.ending == Silent
    ensures Serve(peer, app, pos) == Session([], [], EndInFrame(peer, part))
  {
    var left := peer.stream[pos..];
    assert |left| == part;
    if part > 1 {
      UnpackPack(|last|);
      assert peer.stream[pos] == left[0] == Frame(last)[0] && peer.stream[pos + 1] == left[1] == Frame(last)[1];
    }
  }

  /** What arrives of a stream that stops in the middle of a frame: the messages before it, and, if the peer closes
      inside a body, the part of that body; a peer that falls silent there has it thrown away. */
  lemma {:induction false} BrokenStreamsEnd(peer: Peer, app: Application, messages: seq<Bytes>, last: Bytes, part: nat)
    requires AllSendable(messages) && Sendable(last) && part < |Frame(last)|
    requires AnswersFit(app, messages) && forall n :: 0 <= n < |last| ==> AllSendable(Present(app(last[..n])))
    requires peer.stream == Stream(messages) + Frame(last)[..part]
    requires Unsplit(peer.cuts, 0, messages) == |messages| && (part > 1 ==> |Stream(messages)| + 1 !in peer.cuts)
    ensures Serve(peer, app, 0).delivered ==
            messages + if part > 1 && peer.ending == Closed then [last[..part - 2]] else []
    ensures Serve(peer, app, 0).outcome == EndInFrame(peer, part)
  {
    var end := |Stream(messages)|;
    assert peer.stream[0..] == Stream(messages) + Frame(last)[..part];
    MessagesArrive(peer, app, 0, messages, Frame(last)[..part], end);
    assert peer.stream[end..] == Frame(last)[..part];
    if part > 1 && peer.ending == Closed {
      assert Frame(last)[..part] == Pack(|last|) + last[..part - 2];
      ShortFrame(peer, app, end, last, part - 2);
    } else {
      BrokenFrame(peer, app, end, last, part);
    }
  }

  lemma {:induction false} RepliesUntilLong(before: seq<Option<Bytes>>, long: Bytes, after: seq<Option<Bytes>>)
    requires AllSendable(Present(before)) && !Sendable(long)
    ensures Replies(before + [Some(long)] + after) == (Stream(Present(before)), false)
  {
    var all := before + [Some(long)] + after;
    if before == [] {
      assert all[0] == Some(long);
    } else {
      assert all[0] == before[0] && all[1..] == before[1..] + [Some(long)] + after;
      if before[0].Some? {
        var m, rest := before[0].value, Present(before[1..]);
        assert Present(before) == [m] + rest && ([m] + rest)[1..] == rest;
        assert m in Present(before) && forall x :: x in rest ==> x in Present(before);
      } else {
        assert Present(before) == Present(before[1..]);
      }
      RepliesUntilLong(before[1..], long, after);
    }
  }

  lemma {:induction false} LongResponse(peer: Peer, app: Application, pos: nat, bad: Bytes, rest: Bytes)
    requires Sendable(bad) && pos + 1 !in peer.cuts && !AllSendable(Present(app(bad)))
    requires pos <= |peer.stream| && peer.stream[pos..] == Frame(bad) + rest
    ensures Serve(peer, app, pos) == Session([bad], Replies(app(bad)).0, StructError)
  {
    FrameAt(peer.stream, pos, bad, rest);
    RepliesAreFrames(app(bad));
  }

  lemma {:induction false} LongIsPresent(before: seq<Option<Bytes>>, long: Bytes, after: seq<Option<Bytes>>)
    ensures long in Present(before + [Some(long)] + after)
  {
    var all := before + [Some(long)] + after;
    if before == [] {
      assert all[0] == Some(long);
    } else {
      LongIsPresent(before[1..], long, after);
      assert all[1..] == before[1..] + [Some(long)] + after;
    }
  }

  /** The first message with a response too long for its length is delivered, the responses before that one are
      sent, and the connection ends there whatever follows. */
  lemma {:induction false} LongResponseEndsConnection(peer: Peer, app: Application, messages: seq<Bytes>, bad: Bytes,
                                                      rest: Bytes, before: seq<Option<Bytes>>, long: Bytes,
                                                      after: seq<Option<Bytes>>)
    requires AllSendable(messages) && AnswersFit(app, messages)
    requires Sendable(bad) && app(bad) == before + [Some(long)] + after
    requires AllSendable(Present(before)) && |long| > 65535
    requires peer.stream == Stream(messages) + (Frame(bad) + rest)
    requires Unsplit(peer.cuts, 0, messages) == |messages| && |Stream(messages)| + 1 !in peer.cuts
    ensures Serve(peer, app, 0).delivered == messages + [bad]
    ensures AllSendable(Answers(app, messages))
    ensures Serve(peer, app, 0).sent == Stream(Answers(app, messages)) + Stream(Present(before))
    ensures Serve(peer, app, 0).outcome == StructError
  {
    assert peer.stream[0..] == Stream(messages) + (Frame(bad) + rest);
    MessagesArrive(peer, app, 0, messages, Frame(bad) + rest, |Stream(messages)|);
    assert peer.stream[|Stream(messages)|..] == Frame(bad) + rest;
    LongIsPresent(before, long, after);
    LongResponse(peer, app, |Stream(messages)|, bad, rest);
    RepliesUntilLong(before, long, after);
  }

  /** Whoever reads the responses of a connection back with the same framing, nothing being cut inside a
      length, gets the responses. */
  lemma {:induction false} ResponsesReadBack(peer: Peer, app: Application, messages: seq<Bytes>, reader: Peer,
                                             ignore: Application)
    requires AllSendable(messages) && AnswersFit(app, messages)
    requires peer.stream == Stream(messages) && Unsplit(peer.cuts, 0, messages) == |messages|
    requires reader.stream == Serve(peer, app, 0).sent
    requires Unsplit(reader.cuts, 0, Answers(app, messages)) == |Answers(app, messages)|
    requires forall m :: ignore(m) == []
    ensures Serve(reader, ignore, 0).delivered == Answers(app, messages)
  {
    assert peer.stream[0..] == Stream(messages) + [];
    MessagesArrive(peer, app, 0, messages, [], |peer.stream|);
    CutLengthsLoseMessages(reader, ignore, Answers(app, messages));
  }
}
