/** The zone transfer packetiser of the mini DNS server.

    Resource records are rendered one at a time into a bounded renderer, and a packet is yielded each time
    the next record does not fit. A record costs a fixed number of bytes: name compression is abstracted. */
module AxfrPacketiser {
  import opened Wrappers

  /** Bytes kept free for the TSIG record while a packet is filled. */
  const TSIG_RRSIZE: nat := 10 + 64 + 160 + 1

  const MESSAGE_LIMIT: nat := 65535

  datatype Rr = Rr(id: nat, cost: nat)

  /** A row of the storage query: its text either parses to a resource record or it does not. */
  datatype Row = Parsable(rr: Rr) | Unparsable

  /** The context of a multi-message signature is the number of the packet signed before, if any. */
  datatype Signature = Unsigned | Single | Multi(context: Option<nat>)

  datatype Packet = Packet(answers: seq<Rr>, size: nat, signature: Signature)

  datatype Message = Transfer(packet: Packet) | ServFail

  /** A crash is the AttributeError raised when not even the question fits into a packet; signing fails when the
      TSIG record does not fit into what is left of a packet, and the error leaves the handler. */
  datatype End = Done | Aborted | Crashed | SigningFailed

  /** What the request and the configuration fix: the header and question take `base` bytes. */
  datatype Request = Request(hadTsig: bool, base: nat, tsigSize: nat, configured: int) {
    /** Whether a packet may have that many bytes before it is signed: with the bytes kept free for the signature, if
        there is to be one, it is within the limit of messages (section 4.2.2 of RFC 1035) and the configured one. */
    predicate MayTake(bytes: int) {
      var signed := if hadTsig then bytes + TSIG_RRSIZE else bytes;
      signed <= 65535 && signed <= configured
    }

    function MaxMessageSize(): (m: int)
      ensures forall bytes: int :: MayTake(bytes) <==> bytes <= m
    {
      (if configured > MESSAGE_LIMIT then MESSAGE_LIMIT else configured) - (if hadTsig then TSIG_RRSIZE else 0)
    }

    /** Bytes the signature adds to a packet. */
    function Signing(): nat { if hadTsig then tsigSize else 0 }

    /** The limit on a packet with its signature. */
    function Limit(): int { MaxMessageSize() + (if hadTsig then TSIG_RRSIZE else 0) }

    /** Bytes left for answers. */
    function Room(): int { MaxMessageSize() - base }
  }

  function Parsed(rows: seq<Row>): seq<Rr> {
    if rows == [] then []
    else Parsed(rows[..|rows| - 1]) + (if rows[|rows| - 1].Parsable? then [rows[|rows| - 1].rr] else [])
  }

  function Cost(rrs: seq<Rr>): nat {
    if rrs == [] then 0 else Cost(rrs[..|rrs| - 1]) + rrs[|rrs| - 1].cost
  }

  function Flatten(groups: seq<seq<Rr>>): seq<Rr> {
    if groups == [] then [] else Flatten(groups[..|groups| - 1]) + groups[|groups| - 1]
  }

  /** The records before the first one that is too big even for an empty packet. */
  function Sendable(rrs: seq<Rr>, room: int): seq<Rr> {
    if rrs == [] then []
    else
      var front := Sendable(rrs[..|rrs| - 1], room);
      if |front| == |rrs| - 1 && rrs[|rrs| - 1].cost <= room then rrs else front
  }

  lemma {:induction false} SendableIsPrefix(rrs: seq<Rr>, room: int)
    ensures Sendable(rrs, room) <= rrs
    ensures forall i :: 0 <= i < |Sendable(rrs, room)| ==> rrs[i].cost <= room
    ensures |Sendable(rrs, room)| < |rrs| ==> rrs[|Sendable(rrs, room)|].cost > room
  {
    if rrs == [] {
    } else {
      SendableIsPrefix(rrs[..|rrs| - 1], room);
    }
  }

  lemma {:induction false} SendableExtends(rrs: seq<Rr>, more: seq<Rr>, room: int)
    requires Sendable(rrs, room) != rrs
    ensures Sendable(rrs + more, room) == Sendable(rrs, room)
  {
    SendableIsPrefix(rrs, room);
    if more == [] {
      assert rrs + more == rrs;
    } else {
      SendableExtends(rrs, more[..|more| - 1], room);
      assert (rrs + more)[..|rrs + more| - 1] == rrs + more[..|more| - 1];
    }
  }

  lemma {:induction false} ParsedConcat(a: seq<Row>, b: seq<Row>)
    ensures Parsed(a + b) == Parsed(a) + Parsed(b)
  {
    if b == [] {
      assert a + b == a;
    } else {
      ParsedConcat(a, b[..|b| - 1]);
      assert (a + b)[..|a + b| - 1] == a + b[..|b| - 1];
    }
  }

  // ---------------------------------------------------------------- greedy packing

  predicate Fits(group: seq<Rr>, room: int) { Cost(group) <= room }

  /** No group is empty, each fits, and the record that opens a group would not have fitted before it. */
  ghost predicate Greedy(groups: seq<seq<Rr>>, room: int) {
    && (forall i :: 0 <= i < |groups| ==> groups[i] != [] && Fits(groups[i], room))
    && (forall i, j :: 0 <= i < j < |groups| && j == i + 1 ==> Cost(groups[i]) + groups[j][0].cost > room)
  }

  lemma {:induction false} CostConcat(a: seq<Rr>, b: seq<Rr>)
    ensures Cost(a + b) == Cost(a) + Cost(b)
  {
    if b == [] {
      assert a + b == a;
    } else {
      CostConcat(a, b[..|b| - 1]);
      assert (a + b)[..|a + b| - 1] == a + b[..|b| - 1];
    }
  }

  lemma {:induction false} CostSnoc(a: seq<Rr>, rr: Rr)
    ensures Cost(a + [rr]) == Cost(a) + rr.cost
  {
    assert (a + [rr])[..|a|] == a;
  }

  lemma {:induction false} FlattenHead(groups: seq<seq<Rr>>)
    requires groups != []
    ensures Flatten(groups) == groups[0] + Flatten(groups[1..])
  {
    if |groups| == 1 {
      assert groups[..0] == [] && groups[1..] == [];
    } else {
      var front, last, tail := groups[..|groups| - 1], groups[|groups| - 1], groups[1..];
      FlattenHead(front);
      assert tail[..|tail| - 1] == front[1..] && tail[|tail| - 1] == last;
      assert groups[0] + Flatten(front[1..]) + last == groups[0] + (Flatten(front[1..]) + last);
    }
  }

  predicate IsSuffix(a: seq<Rr>, b: seq<Rr>) {
    |a| <= |b| && b[|b| - |a|..] == a
  }

  lemma {:induction false} Overlap<T>(s: seq<T>, s': seq<T>, g: seq<T>, g': seq<T>)
    requires |s + s'| >= |g + g'| && (s + s')[|s + s'| - |g + g'|..] == g + g'
    requires |s| > |s + s'| - |g'|
    ensures var behind := |s + s'| - |g + g'|; s == s[..behind] + g + g'[..|s| - behind - |g|]
  {
    var behind, all := |s + s'| - |g + g'|, s + s';
    forall i | 0 <= i < |s| ensures s[i] == (s[..behind] + g + g'[..|s| - behind - |g|])[i] {
      assert s[i] == all[i];
      if i >= behind {
        assert all[i] == all[behind..][i - behind] == (g + g')[i - behind];
      }
    }
  }

  lemma {:induction false} FirstOfRest(greedy: seq<seq<Rr>>, room: int)
    requires greedy != [] && Greedy(greedy, room)
    ensures var rest := Flatten(greedy[1..]); rest != [] ==> Cost(greedy[0]) + rest[0].cost > room
  {
    if |greedy| > 1 {
      FlattenHead(greedy[1..]);
      assert greedy[1..][0] == greedy[1];
    }
  }

  lemma {:induction false} OversizedGroup(before: seq<Rr>, group: seq<Rr>, after: seq<Rr>, room: int)
    requires after != [] && Cost(group) + after[0].cost > room
    ensures Cost(before + group + after) > room
  {
    assert after == [after[0]] + after[1..];
    CostConcat(before + group, after);
    CostConcat(before, group);
    CostConcat([after[0]], after[1..]);
    assert [after[0]][..0] == [];
  }

  /** A group that starts no later than a greedy one and fits the limit ends no later either. */
  lemma {:induction false} NoFurther(greedy: seq<seq<Rr>>, s: seq<Rr>, s': seq<Rr>, room: int)
    requires greedy != [] && Greedy(greedy, room) && Fits(s, room)
    requires IsSuffix(Flatten(greedy), s + s')
    ensures |s| <= |s + s'| - |Flatten(greedy)| + |greedy[0]|
  {
    FlattenHead(greedy);
    FirstOfRest(greedy, room);
    var g, g' := greedy[0], Flatten(greedy[1..]);
    var behind := |s + s'| - |g + g'|;
    if |s| > behind + |g| {
      Overlap(s, s', g, g');
      OversizedGroup(s[..behind], g, g'[..|s| - behind - |g|], room);
    }
  }

  /** Greedy packing never falls behind: whatever remains for it, any other packing that still has that
      much to send needs at least as many packets. */
  lemma {:induction false} GreedyStaysAhead(greedy: seq<seq<Rr>>, other: seq<seq<Rr>>, room: int)
    requires Greedy(greedy, room) && forall g :: g in other ==> Fits(g, room)
    requires IsSuffix(Flatten(greedy), Flatten(other))
    ensures |greedy| <= |other|
    decreases |greedy|
  {
    if greedy == [] {
    } else {
      FlattenHead(greedy);
      assert other != [];
      FlattenHead(other);
      var g, g', s, s' := greedy[0], Flatten(greedy[1..]), other[0], Flatten(other[1..]);
      assert s in other;
      NoFurther(greedy, s, s', room);
      assert s' == (s + s')[|s|..] && g' == (g + g')[|g|..];
      assert IsSuffix(g', s');
      GreedyStaysAhead(greedy[1..], other[1..], room);
    }
  }

  /** The packetiser uses as few packets as any order-preserving split within the size limit. */
  lemma {:induction false} GreedyIsMinimal(greedy: seq<seq<Rr>>, other: seq<seq<Rr>>, room: int)
    requires Greedy(greedy, room) && forall g :: g in other ==> Fits(g, room)
    requires Flatten(greedy) == Flatten(other)
    ensures |greedy| <= |other|
  {
    GreedyStaysAhead(greedy, other, room);
  }

  lemma {:induction false} GreedyTail(greedy: seq<seq<Rr>>, room: int)
    requires greedy != [] && Greedy(greedy, room)
    ensures Greedy(greedy[1..], room)
  {
  }

  lemma {:induction false} SameFirstGroup(a: seq<seq<Rr>>, b: seq<seq<Rr>>, room: int)
    requires Greedy(a, room) && Greedy(b, room) && Flatten(a) == Flatten(b) && a != [] && b != []
    ensures a[0] == b[0] && Flatten(a[1..]) == Flatten(b[1..])
  {
    FlattenHead(a);
    FlattenHead(b);
    NoFurther(a, b[0], Flatten(b[1..]), room);
    NoFurther(b, a[0], Flatten(a[1..]), room);
    assert a[0] == Flatten(a)[..|a[0]|] && b[0] == Flatten(b)[..|b[0]|];
    assert Flatten(a[1..]) == Flatten(a)[|a[0]|..] && Flatten(b[1..]) == Flatten(b)[|b[0]|..];
  }

  /** Greediness fixes the packets completely. */
  lemma {:induction false} GreedyIsUnique(a: seq<seq<Rr>>, b: seq<seq<Rr>>, room: int)
    requires Greedy(a, room) && Greedy(b, room) && Flatten(a) == Flatten(b)
    ensures a == b
    decreases |a|
  {
    GreedyStaysAhead(a, b, room);
    GreedyStaysAhead(b, a, room);
    if a == [] {
    } else {
      SameFirstGroup(a, b, room);
      GreedyTail(a, room);
      GreedyTail(b, room);
      GreedyIsUnique(a[1..], b[1..], room);
      assert a == [a[0]] + a[1..] && b == [b[0]] + b[1..];
    }
  }

  // ---------------------------------------------------------------- filling packets one record at a time

  /** The packets that are full, and the one being filled. */
  datatype Fill = Fill(full: seq<seq<Rr>>, current: seq<Rr>)

  function Pour(fill: Fill, rr: Rr, room: int): Fill {
    if Cost(fill.current) + rr.cost <= room then fill.(current := fill.current + [rr])
    else Fill(fill.full + [fill.current], [rr])
  }

  function PourAll(rrs: seq<Rr>, room: int): Fill {
    if rrs == [] then Fill([], []) else Pour(PourAll(rrs[..|rrs| - 1], room), rrs[|rrs| - 1], room)
  }

  function Groups(fill: Fill): seq<seq<Rr>> {
    if fill.current == [] then fill.full else fill.full + [fill.current]
  }

  ghost predicate Proper(fill: Fill, room: int) {
    Greedy(Groups(fill), room) && (fill.current == [] ==> fill.full == [])
  }

  lemma {:induction false} LastGroupGrows(full: seq<seq<Rr>>, current: seq<Rr>, rr: Rr, room: int)
    requires Greedy(full + [current], room) && current != [] && Cost(current) + rr.cost <= room
    ensures Greedy(full + [current + [rr]], room)
  {
    CostSnoc(current, rr);
    var before, after := full + [current], full + [current + [rr]];
    assert forall i :: 0 <= i < |full| ==> after[i] == before[i];
    assert forall i :: 0 <= i < |before| ==> after[i][0] == before[i][0];
  }

  lemma {:induction false} NextGroupOpens(groups: seq<seq<Rr>>, rr: Rr, room: int)
    requires Greedy(groups, room) && rr.cost <= room
    requires groups != [] ==> Cost(groups[|groups| - 1]) + rr.cost > room
    ensures Greedy(groups + [[rr]], room)
  {
    CostSnoc([], rr);
    assert [] + [rr] == [rr];
    assert forall i :: 0 <= i < |groups| ==> (groups + [[rr]])[i] == groups[i];
  }

  lemma {:induction false} PourKeepsProper(fill: Fill, rr: Rr, room: int)
    requires Proper(fill, room) && rr.cost <= room
    ensures Proper(Pour(fill, rr, room), room) && Pour(fill, rr, room).current != []
  {
    if fill.current == [] {
      NextGroupOpens([], rr, room);
      assert [] + [rr] == [rr] && [] + [[rr]] == [[rr]];
    } else if Cost(fill.current) + rr.cost <= room {
      LastGroupGrows(fill.full, fill.current, rr, room);
    } else {
      NextGroupOpens(fill.full + [fill.current], rr, room);
    }
  }

  /** Filling packets record by record is greedy packing. */
  lemma {:induction false} PouringIsProper(rrs: seq<Rr>, room: int)
    requires forall rr :: rr in rrs ==> rr.cost <= room
    ensures Proper(PourAll(rrs, room), room) && (rrs != [] <==> PourAll(rrs, room).current != [])
  {
    if rrs == [] {
    } else {
      PouringIsProper(rrs[..|rrs| - 1], room);
      PourKeepsProper(PourAll(rrs[..|rrs| - 1], room), rrs[|rrs| - 1], room);
    }
  }

  function Poured(fill: Fill): seq<Rr> {
    Flatten(fill.full) + fill.current
  }

  lemma {:induction false} PouredGroups(fill: Fill)
    ensures Flatten(Groups(fill)) == Poured(fill)
  {
    assert (fill.full + [fill.current])[..|fill.full|] == fill.full;
  }

  lemma {:induction false} PourAddsLast(fill: Fill, rr: Rr, room: int)
    ensures Poured(Pour(fill, rr, room)) == Poured(fill) + [rr]
  {
    assert (fill.full + [fill.current])[..|fill.full|] == fill.full;
    assert Flatten(fill.full + [fill.current]) == Flatten(fill.full) + fill.current;
  }

  /** It keeps every record in place. */
  lemma {:induction false} PouringKeepsOrder(rrs: seq<Rr>, room: int)
    ensures Poured(PourAll(rrs, room)) == rrs
  {
    if rrs == [] {
    } else {
      PouringKeepsOrder(rrs[..|rrs| - 1], room);
      PourAddsLast(PourAll(rrs[..|rrs| - 1], room), rrs[|rrs| - 1], room);
      assert rrs == rrs[..|rrs| - 1] + [rrs[|rrs| - 1]];
    }
  }

  lemma {:induction false} PouringIsGreedy(rrs: seq<Rr>, room: int)
    requires forall rr :: rr in rrs ==> rr.cost <= room
    ensures var groups := Groups(PourAll(rrs, room)); Greedy(groups, room) && Flatten(groups) == rrs
  {
    PouringIsProper(rrs, room);
    PouringKeepsOrder(rrs, room);
    PouredGroups(PourAll(rrs, room));
  }

  // ---------------------------------------------------------------- rendering

  /** dnspython's renderer: a record that would push the message past the limit is rolled back. */
  class Renderer {
    var maxSize: int
    var size: nat
    var answers: seq<Rr>

    constructor (base: nat, maxSize: int)
      ensures this.maxSize == maxSize && size == base && answers == []
    {
      this.maxSize, size, answers := maxSize, base, [];
    }

    method AddRrset(rr: Rr) returns (tooBig: bool)
      modifies this`size, this`answers
      ensures tooBig == (old(size) + rr.cost > maxSize)
      ensures tooBig ==> size == old(size) && answers == old(answers)
      ensures !tooBig ==> size == old(size) + rr.cost && answers == old(answers) + [rr]
    {
      var start := size;
      size := size + rr.cost;
      if size > maxSize {
        size := start;
        return true;
      }
      answers := answers + [rr];
      return false;
    }
  }

  /** The renderer for a new packet, or none when the question itself is too big. */
  method CreateAxfrRenderer(request: Request) returns (renderer: Renderer?)
    ensures renderer == null <==> request.Room() < 0
    ensures renderer != null ==> fresh(renderer) && renderer.answers == []
    ensures renderer != null ==> renderer.size == request.base && renderer.maxSize == request.MaxMessageSize()
  {
    if request.base > request.MaxMessageSize() {
      return null;
    }
    renderer := new Renderer(request.base, request.MaxMessageSize());
  }

  /** Releases the reserve and adds the signature; a TSIG record that does not fit even then is rolled back and
      there is no packet. */
  method FinalizePacket(renderer: Renderer, request: Request, multi: bool, context: Option<nat>, number: nat)
    returns (packet: Option<Packet>, context': Option<nat>)
    modifies renderer`maxSize, renderer`size
    ensures packet.None? <==>
      request.hadTsig && old(renderer.size) + request.tsigSize > old(renderer.maxSize) + TSIG_RRSIZE
    ensures packet.Some? ==>
      packet.value == Packet(renderer.answers, old(renderer.size) + request.Signing(),
                             if !request.hadTsig then Unsigned else if multi then Multi(context) else Single)
    ensures packet.Some? ==> context' == if request.hadTsig && multi then Some(number) else context
    ensures renderer.maxSize == old(renderer.maxSize) + if request.hadTsig then TSIG_RRSIZE else 0
  {
    var signature := Unsigned;
    context' := context;
    if request.hadTsig {
      renderer.maxSize := renderer.maxSize + TSIG_RRSIZE;
      if renderer.size + request.tsigSize > renderer.maxSize {
        return None, context;
      }
      renderer.size := renderer.size + request.tsigSize;
      if multi {
        signature := Multi(context);
        context' := Some(number);
      } else {
        signature := Single;
      }
    }
    packet := Some(Packet(renderer.answers, renderer.size, signature));
  }

  // ---------------------------------------------------------------- the transfer

  /** Packet number i of the answer; the context of its signature is the packet before. */
  function PacketOf(request: Request, group: seq<Rr>, i: nat, many: bool): Message {
    Transfer(Packet(group, request.base + Cost(group) + request.Signing(),
      if !request.hadTsig then Unsigned
      else if many then Multi(if i == 0 then None else Some(i - 1))
      else Single))
  }

  function Wire(request: Request, groups: seq<seq<Rr>>, many: bool): (ms: seq<Message>)
    ensures |ms| == |groups|
    ensures forall i :: 0 <= i < |ms| ==> ms[i] == PacketOf(request, groups[i], i, many)
  {
    seq(|groups|, i requires 0 <= i < |groups| => PacketOf(request, groups[i], i, many))
  }

  /** Whether the signature of a packet with these answers fits. */
  predicate CanSign(request: Request, group: seq<Rr>) {
    request.hadTsig ==> request.base + Cost(group) + request.tsigSize <= request.Limit()
  }

  /** How many packets are signed before one that cannot be. */
  function SignedCount(request: Request, groups: seq<seq<Rr>>): (n: nat)
    ensures n <= |groups|
  {
    if groups == [] then 0
    else
      var n := SignedCount(request, groups[..|groups| - 1]);
      if n == |groups| - 1 && CanSign(request, groups[|groups| - 1]) then n + 1 else n
  }

  lemma {:induction false} SignedCountIsFirst(request: Request, groups: seq<seq<Rr>>)
    ensures forall i :: 0 <= i < SignedCount(request, groups) ==> CanSign(request, groups[i])
    ensures SignedCount(request, groups) < |groups| ==> !CanSign(request, groups[SignedCount(request, groups)])
  {
    if groups == [] {
    } else {
      SignedCountIsFirst(request, groups[..|groups| - 1]);
    }
  }

  /** The packets a transfer is cut into when every signature fits. */
  function Packing(request: Request, rrs: seq<Rr>): seq<seq<Rr>> {
    Groups(PourAll(Sendable(rrs, request.Room()), request.Room()))
  }

  /** The messages that carry these packets, when they are all there is to send or when an abort follows. */
  function Sent(request: Request, groups: seq<seq<Rr>>, all: bool): (seq<Message>, End) {
    var n := SignedCount(request, groups);
    if n < |groups| then (Wire(request, groups[..n], true), SigningFailed)
    else if all then (Wire(request, groups, |groups| > 1), Done)
    else (Wire(request, groups, true) + [ServFail], Aborted)
  }

  /** The messages that answer a transfer of the given records, and how the transfer ends. */
  function Answer(request: Request, rrs: seq<Rr>): (seq<Message>, End) {
    if request.Room() < 0 then ([], if rrs == [] then Done else Crashed)
    else Sent(request, Packing(request, rrs), Sendable(rrs, request.Room()) == rrs)
  }

  predicate AllSigned(request: Request, groups: seq<seq<Rr>>) {
    SignedCount(request, groups) == |groups|
  }

  lemma {:induction false} OneMoreSigned(request: Request, groups: seq<seq<Rr>>, group: seq<Rr>)
    requires AllSigned(request, groups)
    ensures AllSigned(request, groups + [group]) <==> CanSign(request, group)
  {
    assert (groups + [group])[..|groups|] == groups;
  }

  /** The first packet that cannot be signed is where it is, whatever packets would follow. */
  lemma {:induction false} FirstUnsigned(request: Request, groups: seq<seq<Rr>>, full: seq<seq<Rr>>, next: seq<Rr>)
    requires AllSigned(request, full) && !CanSign(request, next) && full + [next] <= groups
    ensures SignedCount(request, groups) == |full| && groups[..|full|] == full
  {
    SignedCountIsFirst(request, full);
    SignedCountIsFirst(request, groups);
    assert forall i :: 0 <= i < |full| ==> groups[i] == full[i];
    assert groups[|full|] == next;
  }

  predicate Chained(request: Request, messages: seq<Message>, multi: bool, context: Option<nat>) {
    (multi <==> messages != []) &&
    (request.hadTsig ==> context == if messages == [] then None else Some(|messages| - 1))
  }

  ghost predicate InUse(request: Request, renderer: Renderer, current: seq<Rr>)
    reads renderer
  {
    renderer.answers == current && renderer.maxSize == request.MaxMessageSize() &&
    renderer.size == request.base + Cost(current)
  }

  /** Signs and yields the packet in use, of which there will be another. */
  method YieldPacket(request: Request, renderer: Renderer, messages: seq<Message>, context: Option<nat>,
                     ghost full: seq<seq<Rr>>, ghost current: seq<Rr>)
    returns (messages': seq<Message>, context': Option<nat>, ok: bool)
    requires Chained(request, messages, messages != [], context) && messages == Wire(request, full, true)
    requires InUse(request, renderer, current)
    modifies renderer
    ensures ok == CanSign(request, current)
    ensures ok ==> messages' == Wire(request, full + [current], true) && Chained(request, messages', true, context')
    ensures !ok ==> messages' == messages
  {
    var packet;
    packet, context' := FinalizePacket(renderer, request, true, context, |messages|);
    if packet.None? {
      return messages, context', false;
    }
    messages' := messages + [Transfer(packet.value)];
    ok := true;
  }

  /** The next record has to wait for a new packet. */
  predicate Closes(fill: Fill, rr: Rr, room: int) {
    fill.current != [] && Cost(fill.current) + rr.cost > room
  }

  /** Renders one record into the packet in use, or into a new one after yielding a packet that is full. */
  method RenderRecord(request: Request, rr: Rr, renderer: Renderer?, messages: seq<Message>, multi: bool,
                      context: Option<nat>, ghost fill: Fill)
    returns (renderer': Renderer?, messages': seq<Message>, multi': bool, context': Option<nat>, end: End)
    requires Chained(request, messages, multi, context)
    requires messages == Wire(request, fill.full, true)
    requires renderer == null <==> fill.current == []
    requires renderer == null ==> fill.full == []
    requires renderer != null ==> InUse(request, renderer, fill.current) && request.Room() >= 0
    modifies renderer
    ensures end == Crashed <==> request.Room() < 0
    ensures end == Crashed ==> messages' == messages == []
    ensures end == SigningFailed <==>
              request.Room() >= 0 && Closes(fill, rr, request.Room()) && !CanSign(request, fill.current)
    ensures end == SigningFailed ==> messages' == messages
    ensures end == Aborted <==> 0 <= request.Room() < rr.cost && (fill.current == [] || CanSign(request, fill.current))
    ensures end == Aborted ==> messages' == Wire(request, Groups(fill), true) + [ServFail]
    ensures end == Done ==> Chained(request, messages', multi', context')
    ensures end == Done ==> messages' == Wire(request, Pour(fill, rr, request.Room()).full, true)
    ensures end == Done ==>
      renderer' != null && (renderer' == renderer || fresh(renderer')) &&
      InUse(request, renderer', Pour(fill, rr, request.Room()).current)
  {
    renderer', messages', multi', context' := renderer, messages, multi, context;
    ghost var yielded := Wire(request, Groups(fill), true);
    while true
      invariant Chained(request, messages', multi', context')
      invariant renderer' == null ==> messages' == yielded
      invariant renderer' == null ==>
        fill.current == [] || (Closes(fill, rr, request.Room()) && request.Room() >= 0 &&
          CanSign(request, fill.current))
      invariant renderer' != null ==>
        renderer' == renderer && messages' == messages && InUse(request, renderer', fill.current)
      decreases if renderer' == null then 0 else 1
    {
      var attempt := renderer';
      if attempt == null {
        attempt := CreateAxfrRenderer(request);
        if attempt == null {
          end := Crashed;
          return;
        }
      }
      ghost var had := attempt.answers;
      var tooBig := attempt.AddRrset(rr);
      if !tooBig {
        CostSnoc(had, rr);
        renderer', end := attempt, Done;
        return;
      }
      multi' := true;
      if |attempt.answers| == 0 {
        messages' := messages' + [ServFail];
        end := Aborted;
        return;
      }
      var ok;
      messages', context', ok := YieldPacket(request, attempt, messages', context', fill.full, fill.current);
      if !ok {
        end := SigningFailed;
        return;
      }
      renderer' := null;
    }
  }

  ghost predicate Packed(request: Request, done: seq<Rr>, fill: Fill) {
    && Sendable(done, request.Room()) == done
    && fill == PourAll(done, request.Room())
    && (done == [] <==> fill.current == [])
    && (done == [] ==> fill.full == [])
    && AllSigned(request, fill.full)
  }

  /** What the loop knows after some rows: the records in them, all sendable, and how they were packed; the full
      packets have been signed. */
  ghost predicate SoFar(request: Request, done: seq<Rr>, seen: seq<Row>, fill: Fill) {
    && done == Parsed(seen)
    && Packed(request, done, fill)
  }

  lemma {:induction false} Parsing(seen: seq<Row>, records: seq<Row>)
    requires records != []
    ensures seen + records == seen + [records[0]] + records[1..]
    ensures Parsed(seen + [records[0]]) == Parsed(seen) + (if records[0].Parsable? then [records[0].rr] else [])
    ensures Parsed(seen + [records[0]]) <= Parsed(seen + records)
  {
    assert (seen + [records[0]])[..|seen|] == seen;
    assert seen + records == seen + [records[0]] + records[1..];
    ParsedConcat(seen + [records[0]], records[1..]);
  }

  lemma {:induction false} Rendered(request: Request, done: seq<Rr>, rr: Rr, fill: Fill)
    requires Packed(request, done, fill) && rr.cost <= request.Room()
    requires Closes(fill, rr, request.Room()) ==> CanSign(request, fill.current)
    ensures Packed(request, done + [rr], Pour(fill, rr, request.Room()))
  {
    var next, room := done + [rr], request.Room();
    assert next[..|next| - 1] == done && next[|next| - 1] == rr;
    assert Sendable(next, room) == next;
    assert PourAll(next, room) == Pour(fill, rr, room);
    OneMoreSigned(request, fill.full, fill.current);
    CostSnoc(fill.current, rr);
  }

  lemma {:induction false} FullStays(a: seq<Rr>, b: seq<Rr>, room: int)
    ensures PourAll(a, room).full <= PourAll(a + b, room).full
  {
    if b == [] {
      assert a + b == a;
    } else {
      FullStays(a, b[..|b| - 1], room);
      assert (a + b)[..|a + b| - 1] == a + b[..|b| - 1];
    }
  }

  lemma {:induction false} SendablePrefix(rrs: seq<Rr>, more: seq<Rr>, room: int)
    requires Sendable(rrs, room) == rrs
    ensures rrs <= Sendable(rrs + more, room)
  {
    SendableIsPrefix(rrs + more, room);
    SendableIsPrefix(rrs, room);
    assert forall i :: 0 <= i < |rrs| ==> (rrs + more)[i] == rrs[i];
  }

  /** The packet in use is closed by a record: it is one of the packets of the whole transfer. */
  lemma {:induction false} ClosedPacketIsSent(request: Request, done: seq<Rr>, rr: Rr, fill: Fill, all: seq<Rr>)
    requires Packed(request, done, fill) && Closes(fill, rr, request.Room()) && done + [rr] <= all
    ensures fill.full + [fill.current] <= Packing(request, all)
  {
    var room := request.Room();
    var next, more := done + [rr], all[|done| + 1..];
    assert all == next + more && next[..|next| - 1] == done;
    if rr.cost <= room {
      assert Sendable(next, room) == next;
      SendablePrefix(next, more, room);
      var rest := Sendable(all, room)[|next|..];
      assert Sendable(all, room) == next + rest;
      FullStays(next, rest, room);
      assert PourAll(next, room).full == fill.full + [fill.current];
    } else {
      SendableExtends(next, more, room);
    }
  }

  /** A record that ends the transfer: nothing fits, the packet it closes cannot be signed, or it does not fit into
      an empty packet. */
  lemma {:induction false} Stopped(request: Request, done: seq<Rr>, rr: Rr, fill: Fill, all: seq<Rr>)
    requires Packed(request, done, fill) && done + [rr] <= all
    ensures request.Room() < 0 ==> Answer(request, all) == ([], Crashed)
    ensures request.Room() >= 0 && Closes(fill, rr, request.Room()) && !CanSign(request, fill.current) ==>
              Answer(request, all) == (Wire(request, fill.full, true), SigningFailed)
    ensures 0 <= request.Room() < rr.cost && (fill.current == [] || CanSign(request, fill.current)) ==>
              Answer(request, all) == (Wire(request, Groups(fill), true) + [ServFail], Aborted)
  {
    var room := request.Room();
    if room < 0 {
    } else if Closes(fill, rr, room) && !CanSign(request, fill.current) {
      ClosedPacketIsSent(request, done, rr, fill, all);
      FirstUnsigned(request, Packing(request, all), fill.full, fill.current);
    } else if room < rr.cost {
      var more := all[|done| + 1..];
      assert all == (done + [rr]) + more && (done + [rr])[..|done|] == done;
      SendableExtends(done + [rr], more, room);
      OneMoreSigned(request, fill.full, fill.current);
    }
  }

  method FinishTransfer(request: Request, renderer: Renderer, messages: seq<Message>, multi: bool,
                        context: Option<nat>, ghost fill: Fill)
    returns (messages': seq<Message>, end: End)
    requires Chained(request, messages, multi, context) && messages == Wire(request, fill.full, true)
    requires fill.current != [] && InUse(request, renderer, fill.current)
    modifies renderer
    ensures end == if CanSign(request, fill.current) then Done else SigningFailed
    ensures messages' == if end == Done then Wire(request, Groups(fill), |Groups(fill)| > 1) else messages
  {
    var packet, _ := FinalizePacket(renderer, request, multi, context, |messages|);
    if packet.None? {
      return messages, SigningFailed;
    }
    return messages + [Transfer(packet.value)], Done;
  }

  lemma {:induction false} Finished(request: Request, done: seq<Rr>, fill: Fill)
    requires Packed(request, done, fill) && (done != [] ==> request.Room() >= 0)
    ensures Answer(request, done) ==
            if fill.current == [] || CanSign(request, fill.current)
            then (Wire(request, Groups(fill), |Groups(fill)| > 1), Done)
            else (Wire(request, fill.full, true), SigningFailed)
  {
    if fill.current == [] {
    } else {
      OneMoreSigned(request, fill.full, fill.current);
      if !CanSign(request, fill.current) {
        FirstUnsigned(request, Groups(fill), fill.full, fill.current);
      }
    }
  }

  method HandleAxfr(request: Request, rows: seq<Row>) returns (messages: seq<Message>, end: End)
    ensures (messages, end) == Answer(request, Parsed(rows))
  {
    var multi, context: Option<nat> := false, None;
    var renderer: Renderer? := null;
    var records := rows;
    ghost var seen: seq<Row>, done: seq<Rr>, fill := [], [], Fill([], []);
    messages := [];
    while records != []
      invariant rows == seen + records
      invariant SoFar(request, done, seen, fill)
      invariant Chained(request, messages, multi, context)
      invariant messages == Wire(request, fill.full, true)
      invariant renderer == null <==> fill.current == []
      invariant renderer != null ==> fresh(renderer) && request.Room() >= 0 && InUse(request, renderer, fill.current)
    {
      var record := records[0];
      Parsing(seen, records);
      seen := seen + [record];
      records := records[1..];
      if record.Unparsable? {
        continue;
      }
      renderer, messages, multi, context, end :=
        RenderRecord(request, record.rr, renderer, messages, multi, context, fill);
      if end != Done {
        Stopped(request, done, record.rr, fill, Parsed(rows));
        return;
      }
      Rendered(request, done, record.rr, fill);
      done, fill := done + [record.rr], Pour(fill, record.rr, request.Room());
    }
    assert seen == rows;
    end := Done;
    if renderer != null {
      messages, end := FinishTransfer(request, renderer, messages, multi, context, fill);
    }
    Finished(request, done, fill);
  }

  // ---------------------------------------------------------------- what a client receives

  /** The answers of the packets among the messages, packet by packet. */
  function Received(messages: seq<Message>): seq<seq<Rr>> {
    if messages == [] then []
    else
      var last := messages[|messages| - 1];
      Received(messages[..|messages| - 1]) + (if last.Transfer? then [last.packet.answers] else [])
  }

  lemma {:induction false} ReceivedOfWire(request: Request, groups: seq<seq<Rr>>, many: bool)
    ensures Received(Wire(request, groups, many)) == groups
  {
    if groups == [] {
    } else {
      var front := groups[..|groups| - 1];
      ReceivedOfWire(request, front, many);
      assert Wire(request, groups, many)[..|groups| - 1] == Wire(request, front, many);
      assert groups == front + [groups[|groups| - 1]];
    }
  }

  lemma {:induction false} ReceivedOfSent(request: Request, groups: seq<seq<Rr>>, all: bool)
    ensures Received(Sent(request, groups, all).0) == groups[..SignedCount(request, groups)]
  {
    var n := SignedCount(request, groups);
    if n < |groups| {
      ReceivedOfWire(request, groups[..n], true);
    } else {
      assert groups[..|groups|] == groups;
      if all {
        ReceivedOfWire(request, groups, |groups| > 1);
      } else {
        ReceivedOfWire(request, groups, true);
        var wire := Wire(request, groups, true);
        assert (wire + [ServFail])[..|wire|] == wire;
      }
    }
  }

  /** The client receives the packets of the packing, up to the first that cannot be signed. */
  lemma {:induction false} ReceivedIsPacked(request: Request, rrs: seq<Rr>)
    requires request.Room() >= 0
    ensures var groups := Packing(request, rrs);
      Received(Answer(request, rrs).0) == groups[..SignedCount(request, groups)]
  {
    ReceivedOfSent(request, Packing(request, rrs), Sendable(rrs, request.Room()) == rrs);
  }

  lemma {:induction false} SendableFits(rrs: seq<Rr>, room: int)
    ensures Sendable(Sendable(rrs, room), room) == Sendable(rrs, room)
    ensures forall rr :: rr in Sendable(rrs, room) ==> rr.cost <= room
    ensures Sendable(rrs, room) == rrs <==> forall rr :: rr in rrs ==> rr.cost <= room
  {
    var sent := Sendable(rrs, room);
    SendableIsPrefix(rrs, room);
    SendableIsPrefix(sent, room);
    if |sent| < |rrs| {
      assert rrs[|sent|] in rrs;
    }
  }

  lemma {:induction false} PackingIsGreedy(request: Request, rrs: seq<Rr>)
    ensures Greedy(Packing(request, rrs), request.Room())
    ensures Flatten(Packing(request, rrs)) == Sendable(rrs, request.Room())
  {
    SendableFits(rrs, request.Room());
    PouringIsGreedy(Sendable(rrs, request.Room()), request.Room());
  }

  lemma {:induction false} FlattenPrefix(groups: seq<seq<Rr>>, n: nat)
    requires n <= |groups| && forall i :: 0 <= i < |groups| ==> groups[i] != []
    ensures Flatten(groups[..n]) <= Flatten(groups)
    ensures Flatten(groups[..n]) == Flatten(groups) <==> n == |groups|
    decreases |groups|
  {
    if n == |groups| {
      assert groups[..n] == groups;
    } else {
      var front := groups[..|groups| - 1];
      FlattenPrefix(front, n);
      assert front[..n] == groups[..n];
      assert |Flatten(groups)| == |Flatten(front)| + |groups[|groups| - 1]|;
    }
  }

  /** Nothing is lost, doubled or moved: the packets carry the parsable records in order, all of them if the
      transfer ends well; it does exactly when none is too big even for an empty packet and every signature fits. */
  lemma {:induction false} TransferIsFaithful(request: Request, rrs: seq<Rr>)
    requires request.Room() >= 0
    ensures var (messages, end) := Answer(request, rrs);
      && Flatten(Received(messages)) <= Sendable(rrs, request.Room()) <= rrs
      && (Flatten(Received(messages)) == Sendable(rrs, request.Room()) <==> end != SigningFailed)
      && (end == Done <==> end != SigningFailed && forall rr :: rr in rrs ==> rr.cost <= request.Room())
      && (end == Done <==> Flatten(Received(messages)) == rrs)
  {
    var groups := Packing(request, rrs);
    ReceivedIsPacked(request, rrs);
    PackingIsGreedy(request, rrs);
    FlattenPrefix(groups, SignedCount(request, groups));
    SendableFits(rrs, request.Room());
    SendableIsPrefix(rrs, request.Room());
  }

  lemma {:induction false} WireHasNoServFail(request: Request, groups: seq<seq<Rr>>, many: bool)
    ensures ServFail !in Wire(request, groups, many)
  {
    var wire := Wire(request, groups, many);
    forall i | 0 <= i < |wire| ensures wire[i] != ServFail {
      assert wire[i] == PacketOf(request, groups[i], i, many);
    }
  }

  /** What a transfer sends when it has a SERVFAIL exactly at its end if it was aborted, and none otherwise. */
  ghost predicate EndsInServFail(messages: seq<Message>, end: End) {
    if end == Aborted then
      messages != [] && messages[|messages| - 1] == ServFail && ServFail !in messages[..|messages| - 1]
    else
      ServFail !in messages
  }

  lemma {:induction false} SentEndsInServFail(request: Request, groups: seq<seq<Rr>>, all: bool)
    ensures var (messages, end) := Sent(request, groups, all); EndsInServFail(messages, end)
  {
    var wire := Wire(request, groups, true);
    WireHasNoServFail(request, groups, true);
    WireHasNoServFail(request, groups, |groups| > 1);
    WireHasNoServFail(request, groups[..SignedCount(request, groups)], true);
    assert (wire + [ServFail])[..|wire|] == wire;
  }

  /** An aborted transfer ends in its only SERVFAIL; any other has none. */
  lemma {:induction false} AbortedTransfersEndInServFail(request: Request, rrs: seq<Rr>)
    ensures var (messages, end) := Answer(request, rrs); EndsInServFail(messages, end)
  {
    if request.Room() >= 0 {
      SentEndsInServFail(request, Packing(request, rrs), Sendable(rrs, request.Room()) == rrs);
    }
  }

  lemma {:induction false} MessageIsPacket(request: Request, groups: seq<seq<Rr>>, all: bool, i: nat)
    requires var (messages, _) := Sent(request, groups, all); i < |messages| && messages[i].Transfer?
    ensures i < |groups| && CanSign(request, groups[i])
    ensures var (messages, end) := Sent(request, groups, all);
      messages[i] == PacketOf(request, groups[i], i, |messages| > 1 || end != Done)
  {
    SignedCountIsFirst(request, groups);
  }

  /** No packet is empty, and each is within the limit once its signature has been added, whatever the size of
      the signature. */
  lemma {:induction false} PacketsAreWithinLimit(request: Request, rrs: seq<Rr>, i: nat)
    requires request.Room() >= 0
    requires var (messages, _) := Answer(request, rrs); i < |messages| && messages[i].Transfer?
    ensures var packet := Answer(request, rrs).0[i].packet;
      packet.answers != [] && packet.size <= 65535 && packet.size <= request.configured &&
      packet.size == request.base + Cost(packet.answers) + if request.hadTsig then request.tsigSize else 0
  {
    PackingIsGreedy(request, rrs);
    MessageIsPacket(request, Packing(request, rrs), Sendable(rrs, request.Room()) == rrs, i);
    assert Packing(request, rrs)[i] != [] && Fits(Packing(request, rrs)[i], request.Room());
  }

  /** A transfer stops for want of room for a signature exactly when some packet of its packing is that full; the
      packets before the first such have been sent. */
  lemma {:induction false} SigningFailsExactly(request: Request, rrs: seq<Rr>)
    requires request.Room() >= 0
    ensures var (messages, end) := Answer(request, rrs);
      var groups := Packing(request, rrs);
      && (end == SigningFailed <==>
          request.hadTsig && exists i ::
            0 <= i < |groups| && request.base + Cost(groups[i]) + request.tsigSize > request.Limit())
      && (end == SigningFailed ==>
          |messages| < |groups| && !CanSign(request, groups[|messages|]) &&
          forall i :: 0 <= i < |messages| ==> CanSign(request, groups[i]))
  {
    SignedCountIsFirst(request, Packing(request, rrs));
  }

  lemma {:induction false} PackingOfOne(request: Request, rr: Rr)
    requires rr.cost <= request.Room()
    ensures Packing(request, [rr]) == [[rr]] && Sendable([rr], request.Room()) == [rr]
  {
    var room := request.Room();
    assert [rr][..0] == [] && Sendable([rr], room) == [rr];
    assert PourAll([rr], room) == Pour(PourAll([], room), rr, room);
    assert [] + [rr] == [rr];
  }

  /** One record that fills a packet leaves room for the reserve and no more. */
  lemma {:induction false} FullPacketIsNotSigned(request: Request)
    requires request.Room() >= 0 && request.hadTsig && request.tsigSize > TSIG_RRSIZE
    ensures Answer(request, [Rr(0, request.Room())]) == ([], SigningFailed)
  {
    var rr := Rr(0, request.Room());
    PackingOfOne(request, rr);
    assert [[rr]][..0] == [] && [rr][..0] == [] && Cost([rr]) == rr.cost;
    assert SignedCount(request, [[rr]]) == 0;
  }

  /** No transfer of a request stops for that reason exactly when it is not signed or its TSIG record fits the
      reserve, provided that packets can be made at all. */
  lemma {:induction false} SigningNeverFailsExactly(request: Request)
    requires request.Room() >= 0
    ensures (forall rrs :: Answer(request, rrs).1 != SigningFailed) <==>
      !request.hadTsig || request.tsigSize <= TSIG_RRSIZE
  {
    if !request.hadTsig || request.tsigSize <= TSIG_RRSIZE {
      forall rrs ensures Answer(request, rrs).1 != SigningFailed {
        SigningFailsExactly(request, rrs);
        PackingIsGreedy(request, rrs);
        forall i | 0 <= i < |Packing(request, rrs)| ensures CanSign(request, Packing(request, rrs)[i]) {
          assert Fits(Packing(request, rrs)[i], request.Room());
        }
      }
    } else {
      FullPacketIsNotSigned(request);
    }
  }

  // ---------------------------------------------------------------- which keys fit the reserve

  datatype Algorithm = HmacMd5 | HmacSha1 | HmacSha224 | HmacSha256 | HmacSha384 | HmacSha512

  /** A key is known by its name, here the bytes that takes, and its algorithm. */
  datatype TsigKey = TsigKey(nameBytes: nat, algorithm: Algorithm)

  /** A key name has at most 160 characters; a length in front and the root behind make two more bytes. */
  const LONGEST_KEY_NAME: nat := 160 + 2

  /** Bytes of a message authentication code (section 3 of RFC 4635). */
  function MacBytes(algorithm: Algorithm): nat {
    match algorithm
    case HmacMd5 => 16
    case HmacSha1 => 20
    case HmacSha224 => 28
    case HmacSha256 => 32
    case HmacSha384 => 48
    case HmacSha512 => 64
  }

  /** Bytes of the algorithm's name: HMAC-MD5.SIG-ALG.REG.INT, hmac-sha1, or hmac-sha and three digits. */
  function AlgorithmBytes(algorithm: Algorithm): nat {
    match algorithm
    case HmacMd5 => 9 + 8 + 4 + 4 + 1
    case HmacSha1 => 10 + 1
    case _ => 12 + 1
  }

  /** Owner name, type, class, TTL and length, then algorithm, time, fudge, the code and its length, original id,
      error and the length of no other data (section 4.2 of RFC 8945). */
  function TsigBytes(key: TsigKey): nat {
    var owner, code := key.nameBytes, MacBytes(key.algorithm);
    owner + (2 + 2 + 4 + 2) + AlgorithmBytes(key.algorithm) + (6 + 2) + (2 + code) + (2 + 2 + 2)
  }

  /** Codes up to SHA-256 go with every name, longer ones with names of at most 146 and 130 characters. */
  predicate ShortEnough(key: TsigKey) {
    match key.algorithm
    case HmacSha384 => key.nameBytes <= 146 + 2
    case HmacSha512 => key.nameBytes <= 130 + 2
    case _ => true
  }

  /** The keys whose record fits the reserve. */
  lemma {:induction false} KeysThatFit(key: TsigKey)
    requires key.nameBytes <= LONGEST_KEY_NAME
    ensures TsigBytes(key) <= TSIG_RRSIZE <==> ShortEnough(key)
  {
    match key.algorithm
    case HmacMd5 => assert TsigBytes(key) == key.nameBytes + 68;
    case HmacSha1 => assert TsigBytes(key) == key.nameBytes + 57;
    case HmacSha224 => assert TsigBytes(key) == key.nameBytes + 67;
    case HmacSha256 => assert TsigBytes(key) == key.nameBytes + 71;
    case HmacSha384 => assert TsigBytes(key) == key.nameBytes + 87;
    case HmacSha512 => assert TsigBytes(key) == key.nameBytes + 103;
  }

  /** With these keys, and with no others, every transfer can be signed. */
  lemma {:induction false} TransfersCanBeSignedExactly(request: Request, key: TsigKey)
    requires request.Room() >= 0 && request.hadTsig && request.tsigSize == TsigBytes(key)
    requires key.nameBytes <= LONGEST_KEY_NAME
    ensures (forall rrs :: Answer(request, rrs).1 != SigningFailed) <==> ShortEnough(key)
  {
    SigningNeverFailsExactly(request);
    KeysThatFit(key);
  }

  // ---------------------------------------------------------------- signatures and the number of packets

  /** A signed transfer uses the multi-message form for every packet, each signature continuing the one before,
      unless its one packet is all there is to send. An unsigned one has no signatures. */
  lemma {:induction false} SignaturesAreChained(request: Request, rrs: seq<Rr>, i: nat)
    requires var (messages, _) := Answer(request, rrs); i < |messages| && messages[i].Transfer?
    ensures var (messages, end) := Answer(request, rrs);
      messages[i].packet.signature ==
        (if !request.hadTsig then Unsigned
         else if |messages| == 1 && end == Done then Single
         else if i == 0 then Multi(None)
         else Multi(Some(i - 1)))
  {
    if request.Room() >= 0 {
      MessageIsPacket(request, Packing(request, rrs), Sendable(rrs, request.Room()) == rrs, i);
    }
  }

  lemma {:induction false} PackingUsesFewestPackets(request: Request, rrs: seq<Rr>, other: seq<seq<Rr>>)
    requires request.MayTake(request.base) && Flatten(other) == Sendable(rrs, request.Room())
    requires forall g :: g in other ==> request.MayTake(request.base + Cost(g))
    ensures |Received(Answer(request, rrs).0)| <= |Packing(request, rrs)| <= |other|
  {
    ReceivedIsPacked(request, rrs);
    PackingIsGreedy(request, rrs);
    forall g: seq<Rr> | g in other ensures Fits(g, request.Room()) {
    }
    GreedyIsMinimal(Packing(request, rrs), other, request.Room());
  }

  lemma {:induction false} GreedyPrefix(groups: seq<seq<Rr>>, n: nat, room: int)
    requires Greedy(groups, room) && n <= |groups|
    ensures Greedy(groups[..n], room)
  {
  }

  /** However a transfer ends: no order-preserving split of the records that were sent, into packets that may be
      sent, is shorter. */
  lemma {:induction false} TransferUsesFewestPackets(request: Request, rrs: seq<Rr>, other: seq<seq<Rr>>)
    requires Flatten(other) == Flatten(Received(Answer(request, rrs).0))
    requires forall g :: g in other ==> request.MayTake(request.base + Cost(g))
    ensures |Received(Answer(request, rrs).0)| <= |other|
  {
    if request.Room() >= 0 {
      var groups := Packing(request, rrs);
      ReceivedIsPacked(request, rrs);
      PackingIsGreedy(request, rrs);
      GreedyPrefix(groups, SignedCount(request, groups), request.Room());
      forall g: seq<Rr> | g in other ensures Fits(g, request.Room()) {
      }
      GreedyIsMinimal(groups[..SignedCount(request, groups)], other, request.Room());
    }
  }

  /** When not even the question fits, the first record to be rendered crashes the handler, and only then. */
  lemma {:induction false} CrashesExactlyWithoutRoom(request: Request, rrs: seq<Rr>)
    ensures Answer(request, rrs).1 == Crashed <==> !request.MayTake(request.base) && rrs != []
  {
  }

  /** Where packets can be made, and signed if they are to be, a transfer is aborted exactly when some record is too
      big for a packet of its own, and is complete otherwise. Without a signature it never fails to sign. */
  lemma {:induction false} AbortsExactlyOnBigRecords(request: Request, rrs: seq<Rr>)
    requires request.MayTake(request.base)
    ensures var (messages, end) := Answer(request, rrs);
      && (end != SigningFailed ==>
          (end == Aborted <==> exists rr :: rr in rrs && !request.MayTake(request.base + rr.cost)))
      && (end == Aborted ==> exists rr :: rr in rrs && !request.MayTake(request.base + rr.cost))
      && (end != SigningFailed && end != Aborted ==> end == Done && Flatten(Received(messages)) == rrs)
      && (!request.hadTsig ==> end != SigningFailed)
  {
    SendableFits(rrs, request.Room());
    TransferIsFaithful(request, rrs);
    SigningFailsExactly(request, rrs);
    forall rr: Rr ensures request.MayTake(request.base + rr.cost) <==> rr.cost <= request.Room() {
    }
  }

  // ---------------------------------------------------------------- the start of authority

  /** The rows of a primary or secondary zone: its start of authority opens and closes the list. A zone
      without one fails with an index error. */
  function ZoneRows(soa: seq<Row>, others: seq<Row>): Option<seq<Row>> {
    if soa == [] then None else Some([soa[0]] + others + [soa[0]])
  }

  lemma {:induction false} LastOfFlatten(groups: seq<seq<Rr>>)
    requires groups != [] && forall i :: 0 <= i < |groups| ==> groups[i] != []
    ensures Flatten(groups) != []
    ensures Flatten(groups)[0] == groups[0][0]
    ensures var last := groups[|groups| - 1]; Flatten(groups)[|Flatten(groups)| - 1] == last[|last| - 1]
  {
    FlattenHead(groups);
  }

  lemma {:induction false} SoaRows(soa: seq<Row>, others: seq<Row>)
    requires soa != [] && soa[0].Parsable?
    ensures Parsed(ZoneRows(soa, others).value) == [soa[0].rr] + Parsed(others) + [soa[0].rr]
  {
    ParsedConcat([soa[0]] + others, [soa[0]]);
    ParsedConcat([soa[0]], others);
    assert [soa[0]][..0] == [] && Parsed([soa[0]]) == [soa[0].rr];
  }

  lemma {:induction false} CompleteTransfer(request: Request, rrs: seq<Rr>)
    ensures Answer(request, rrs).1 == Done && rrs != [] ==>
      Received(Answer(request, rrs).0) == Packing(request, rrs) != [] && Flatten(Packing(request, rrs)) == rrs
  {
    if Answer(request, rrs).1 == Done && rrs != [] {
      ReceivedIsPacked(request, rrs);
      PackingIsGreedy(request, rrs);
      assert Flatten([]) == [];
      var groups := Packing(request, rrs);
      assert groups[..|groups|] == groups;
    }
  }

  /** A complete transfer opens and closes with the zone's start of authority when that parses
      (section 2.2 of RFC 5936). */
  lemma {:induction false} TransferOpensAndClosesWithSoa(request: Request, soa: seq<Row>, others: seq<Row>)
    requires soa != [] && soa[0].Parsable?
    requires var rows := ZoneRows(soa, others).value; Answer(request, Parsed(rows)).1 == Done
    ensures var packets := Received(Answer(request, Parsed(ZoneRows(soa, others).value)).0);
      && packets != [] && packets[0] != [] && packets[|packets| - 1] != []
      && packets[0][0] == soa[0].rr
      && packets[|packets| - 1][|packets[|packets| - 1]| - 1] == soa[0].rr
  {
    var rrs := Parsed(ZoneRows(soa, others).value);
    SoaRows(soa, others);
    CompleteTransfer(request, rrs);
    PackingIsGreedy(request, rrs);
    LastOfFlatten(Packing(request, rrs));
  }
}
