/**
 * Two established ends of the TCP client over a network that loses, repeats and
 * reorders segments in both directions: each application receives exactly the
 * bytes the other side's tcp_send accepted.
 */
module TcpPair {
  import opened Words
  import opened Tcp

  /**
   * One end.  `sent` is what tcp_send accepted, `una` how much of it this end
   * believes acknowledged, `got` what its application was given; `iss` is its
   * initial sequence number.
   */
  datatype End = End(t: Tcb, iss: uint32, sent: seq<Byte>, una: nat, got: seq<Byte>)

  /** A segment under way: the stream position of its data, and the position it acknowledges. */
  datatype Packet = Packet(s: Segment, off: nat, acked: nat)

  /** The two ends and every packet ever sent by each; any may arrive at any time, any number of times, or never. */
  datatype Pair = Pair(a: End, b: End, fromA: set<Packet>, fromB: set<Packet>)

  /** The packets in these outputs; `off` is the stream position of their data. */
  function Packets(e: End, out: seq<Output>, off: nat): set<Packet> {
    set o | o in out && o.Sent? ::
      Packet(Segment(e.t.localPort, e.t.remotePort, o.seqNo, o.ackNo, o.flags, o.data), off, |e.got|)
  }

  // ----- what one end does

  function SendAt(e: End, data: seq<Byte>, now: uint32): (End, set<Packet>) {
    var (t, out) := Send(e.t, data, now);
    var f := e.(t := t, sent := if MaySend(e.t, data) then e.sent + data else e.sent);
    (f, Packets(f, out, e.una))
  }

  function PollAt(e: End, now: uint32): (End, set<Packet>) {
    var (t, out) := Poll(e.t, now);
    (e.(t := t), Packets(e, out, e.una))
  }

  function ReceiveAt(e: End, p: Packet, now: uint32): (End, set<Packet>) {
    var (t, out) := HandleSegment(e.t, e.t.remoteIp, p.s, now);
    var f := e.(t := t, got := e.got + Delivered(out),
                una := if e.t.txPending && !t.txPending && t.state == Established then |e.sent| else e.una);
    (f, Packets(f, out, |e.sent|))
  }

  datatype Step =
    | SendA(data: seq<Byte>, now: uint32) | SendB(data: seq<Byte>, now: uint32)
    | PollA(now: uint32) | PollB(now: uint32)
    | ArriveA(p: Packet, now: uint32) | ArriveB(p: Packet, now: uint32)

  function Flip(s: Pair): Pair { Pair(s.b, s.a, s.fromB, s.fromA) }

  function Put(s: Pair, r: (End, set<Packet>)): Pair { s.(a := r.0, fromA := s.fromA + r.1) }

  function Next(s: Pair, step: Step): Pair {
    match step
    case SendA(data, now) => Put(s, SendAt(s.a, data, now))
    case PollA(now) => Put(s, PollAt(s.a, now))
    case ArriveA(p, now) => Put(s, ReceiveAt(s.a, p, now))
    case SendB(data, now) => Flip(Put(Flip(s), SendAt(s.b, data, now)))
    case PollB(now) => Flip(Put(Flip(s), PollAt(s.b, now)))
    case ArriveB(p, now) => Flip(Put(Flip(s), ReceiveAt(s.b, p, now)))
  }

  /**
   * What may arrive: a packet the other end sent, whose data is within one turn
   * of the sequence space and whose acknowledgement is not older than the
   * outstanding segment.
   */
  predicate MayArrive(e: End, others: set<Packet>, p: Packet) {
    && p in others
    && NoAlias(p.off, |p.s.data|, |e.got|)
    && (e.t.txPending ==> p.acked >= e.una)
  }

  predicate Enabled(s: Pair, step: Step) {
    match step
    case ArriveA(p, _) => MayArrive(s.a, s.fromB, p)
    case ArriveB(p, _) => MayArrive(s.b, s.fromA, p)
    case _ => true
  }

  // ----- the invariant, one direction at a time

  function At(iss: uint32, n: nat): uint32 { Wrap32(iss + 1 + n) }

  /** The sending half of an end: what is unacknowledged is the one tracked segment. */
  predicate Sender(x: End) {
    && x.t.handler == (x.t.state != Closed)
    && x.una <= |x.sent| && |x.sent| - x.una <= MAX_PAYLOAD
    && (x.t.state == Established || x.t.state == Closed)
    && (x.t.state == Established ==>
          && x.t.sndNxt == At(x.iss, |x.sent|)
          && (if x.t.txPending then
                x.t.txSeq == At(x.iss, x.una) && x.t.txFlags == PSH_ACK && x.t.txData == x.sent[x.una..]
              else x.una == |x.sent|))
  }

  /** The receiving half: all that is acknowledged, and perhaps the segment under way, but nothing else. */
  predicate Receiver(x: End, y: End) {
    && y.got <= x.sent && x.una <= |y.got| && (|y.got| == x.una || |y.got| == |x.sent|)
    && (y.t.state == Established ==> y.t.rcvNxt == At(x.iss, |y.got|))
  }

  /** A packet from `x` to `y`. */
  predicate PacketOk(x: End, y: End, p: Packet) {
    && p.s.srcPort == y.t.remotePort && p.s.dstPort == y.t.localPort
    && p.s.flags.ack && !p.s.flags.syn && !p.s.flags.fin && !p.s.flags.rst
    && p.acked <= |x.got| && p.s.ackNo == At(y.iss, p.acked)
    && (p.s.data != [] ==>
          && p.off + |p.s.data| <= |x.sent| && p.s.seqNo == At(x.iss, p.off)
          && p.s.data == x.sent[p.off..p.off + |p.s.data|]
          && (p.off + |p.s.data| <= x.una || (p.off == x.una && p.off + |p.s.data| == |x.sent|)))
  }

  ghost predicate Half(x: End, y: End, fromX: set<Packet>) {
    && Sender(x) && Receiver(x, y)
    && x.t.localPort == y.t.remotePort && x.t.remotePort == y.t.localPort
    && forall p | p in fromX :: PacketOk(x, y, p)
  }

  ghost predicate Inv(s: Pair) {
    Half(s.a, s.b, s.fromA) && Half(s.b, s.a, s.fromB)
  }

  // ----- sending and retransmitting

  lemma SendKeeps(s: Pair, data: seq<Byte>, now: uint32)
    requires Inv(s)
    ensures Inv(Next(s, SendA(data, now)))
  {
    var (e, packets) := SendAt(s.a, data, now);
    if MaySend(s.a.t, data) {
      WrapAdd(s.a.iss + 1 + |s.a.sent|, |data|);
      assert e.sent[e.una..] == data;
      forall p | p in packets ensures PacketOk(e, s.b, p) {
        assert e.sent[p.off..p.off + |data|] == data;
      }
      forall p | p in s.fromA ensures PacketOk(e, s.b, p) {
        assert PacketOk(s.a, s.b, p);
      }
    }
  }

  lemma PollKeeps(s: Pair, now: uint32)
    requires Inv(s)
    ensures Inv(Next(s, PollA(now)))
  {
    var (e, packets) := PollAt(s.a, now);
    forall p | p in packets ensures PacketOk(e, s.b, p) {
      assert s.a.sent[s.a.una..|s.a.sent|] == s.a.sent[s.a.una..];
    }
    forall p | p in s.fromA ensures PacketOk(e, s.b, p) {
      assert PacketOk(s.a, s.b, p);
    }
  }

  // ----- receiving

  /** An acknowledgement that is not too old is accepted exactly when it covers everything sent. */
  lemma AckCoversAll(x: End, acked: nat, n: nat)
    requires Sender(x) && x.t.state == Established && x.t.txPending
    requires x.una <= acked <= n <= |x.sent|
    ensures ProcessAck(x.t, At(x.iss, acked)).1 <==> acked == |x.sent|
  {
    WrapAdd(x.iss + 1 + x.una, acked - x.una);
    AckAccepted(x.t, acked - x.una);
  }

  /** What the acknowledgement of an arriving packet does to the sending half. */
  lemma AckPart(x: End, y: End, p: Packet, t: Tcb)
    requires Sender(x) && Receiver(x, y) && x.t.state == Established
    requires p.acked <= |y.got| && p.s.ackNo == At(x.iss, p.acked) && p.s.flags.ack
    requires x.t.txPending ==> p.acked >= x.una
    requires t == ProcessAck(x.t, p.s.ackNo).0
    ensures var una := if x.t.txPending && !t.txPending then |x.sent| else x.una;
            Sender(x.(t := t, una := una)) && Receiver(x.(t := t, una := una), y)
  {
    if x.t.txPending {
      AckCoversAll(x, p.acked, |y.got|);
    }
  }

  /** What the data of an arriving packet does: delivered when it is the next piece, which is all there is. */
  lemma DataPart(x: End, y: End, p: Packet, t: Tcb)
    requires Sender(x) && Receiver(x, y) && PacketOk(x, y, p) && NoAlias(p.off, |p.s.data|, |y.got|)
    requires t.state == Established && t.handler && t.rcvNxt == At(x.iss, |y.got|)
    ensures var (u, out) := ReceiveData(t, p.s);
            && u == t.(rcvNxt := u.rcvNxt)
            && Receiver(x, y.(t := u, got := y.got + Delivered(out)))
            && forall o | o in out && o.Sent? ::
                 o == Sent(t.sndNxt, At(x.iss, |y.got + Delivered(out)|), ACK, [])
  {
    if p.s.data != [] && p.off == |y.got| {
      PieceCompletes(x, y, p);
      InSequence(t, p.s, x.iss, |y.got|);
    } else {
      OtherPiece(x, y, p, t);
      assert y.got + [] == y.got;
    }
  }

  /** Any other piece is at most answered. */
  lemma OtherPiece(x: End, y: End, p: Packet, t: Tcb)
    requires PacketOk(x, y, p) && NoAlias(p.off, |p.s.data|, |y.got|) && (p.s.data == [] || p.off != |y.got|)
    requires t.rcvNxt == At(x.iss, |y.got|)
    ensures var (u, out) := ReceiveData(t, p.s);
            u == t && Delivered(out) == [] && (out == [] || out == [Sent(t.sndNxt, t.rcvNxt, ACK, [])])
  {
    if p.s.data != [] {
      SamePosition(x.iss, p.off, |y.got|);
    }
    NoData(ReceiveData(t, p.s).1);
  }

  /** A piece that follows what has been delivered completes it. */
  lemma PieceCompletes(x: End, y: End, p: Packet)
    requires Receiver(x, y) && PacketOk(x, y, p) && p.s.data != [] && p.off == |y.got|
    ensures y.got + p.s.data == x.sent && p.s.seqNo == At(x.iss, |y.got|)
  {
    Joined(x.sent, y.got, p.s.data);
  }

  lemma Joined(all: seq<Byte>, front: seq<Byte>, rest: seq<Byte>)
    requires |front| + |rest| == |all| && front == all[..|front|] && rest == all[|front|..|front| + |rest|]
    ensures front + rest == all
  {
  }

  lemma AtMoves(iss: uint32, n: nat, k: nat)
    ensures Wrap32(At(iss, n) + k) == At(iss, n + k)
  {
    WrapAdd(iss + 1 + n, k);
  }

  /** A piece in sequence is delivered and acknowledged to its end. */
  lemma InSequence(t: Tcb, s: Segment, iss: uint32, n: nat)
    requires t.handler && s.data != [] && s.seqNo == t.rcvNxt == At(iss, n)
    ensures var (u, out) := ReceiveData(t, s);
            && u == t.(rcvNxt := At(iss, n + |s.data|)) && Delivered(out) == s.data
            && out == [Sent(t.sndNxt, u.rcvNxt, ACK, []), DataEvent(s.data)]
  {
    AtMoves(iss, n, |s.data|);
    DeliveredData(ReceiveData(t, s).0, s.data);
  }

  /** An arriving packet: its acknowledgement, then its data. */
  lemma ArrivalIsTwoParts(x: End, p: Packet, now: uint32)
    requires x.t.state == Established && Sender(x)
    requires p.s.srcPort == x.t.remotePort && p.s.dstPort == x.t.localPort
    requires p.s.flags.ack && !p.s.flags.fin && !p.s.flags.rst
    ensures var (u, out) := ReceiveData(ProcessAck(x.t, p.s.ackNo).0, p.s);
            HandleSegment(x.t, x.t.remoteIp, p.s, now) == (u, out)
  {
    var (u, out) := ReceiveData(ProcessAck(x.t, p.s.ackNo).0, p.s);
    assert out + [] == out;
  }

  /** Its answer, and every packet already under way, fit the end as it is afterwards. */
  lemma ReceivedPackets(s: Pair, p: Packet, now: uint32)
    requires Inv(s) && MayArrive(s.a, s.fromB, p) && s.a.t.state == Established
    ensures var (e, packets) := ReceiveAt(s.a, p, now);
            forall q | q in s.fromA + packets :: PacketOk(e, s.b, q)
  {
    assert PacketOk(s.b, s.a, p);
    var (e, packets) := ReceiveAt(s.a, p, now);
    var t1 := ProcessAck(s.a.t, p.s.ackNo).0;
    DataPart(s.b, s.a, p, t1);
    ArrivalIsTwoParts(s.a, p, now);
    forall q | q in s.fromA ensures PacketOk(e, s.b, q) {
      assert PacketOk(s.a, s.b, q);
    }
  }

  lemma ReceiveKeeps(s: Pair, p: Packet, now: uint32)
    requires Inv(s) && MayArrive(s.a, s.fromB, p)
    ensures Inv(Next(s, ArriveA(p, now)))
  {
    assert PacketOk(s.b, s.a, p);
    var (e, packets) := ReceiveAt(s.a, p, now);
    if s.a.t.state == Established {
      var t1 := ProcessAck(s.a.t, p.s.ackNo).0;
      AckPart(s.a, s.b, p, t1);
      DataPart(s.b, s.a, p, t1);
      ArrivalIsTwoParts(s.a, p, now);
      ReceivedPackets(s, p, now);
    } else {
      assert s.a.got + [] == s.a.got;
      assert e == s.a && packets == {};
    }
  }

  lemma StepKeepsInv(s: Pair, step: Step)
    requires Inv(s) && Enabled(s, step)
    ensures Inv(Next(s, step))
  {
    match step
    case SendA(data, now) => SendKeeps(s, data, now);
    case PollA(now) => PollKeeps(s, now);
    case ArriveA(p, now) => ReceiveKeeps(s, p, now);
    case SendB(data, now) => SendKeeps(Flip(s), data, now);
    case PollB(now) => PollKeeps(Flip(s), now);
    case ArriveB(p, now) => ReceiveKeeps(Flip(s), p, now);
  }

  // ----- whole runs

  function Run(s: Pair, steps: seq<Step>): Pair
    decreases |steps|
  {
    if steps == [] then s else Run(Next(s, steps[0]), steps[1..])
  }

  ghost predicate Possible(s: Pair, steps: seq<Step>)
    decreases |steps|
  {
    steps == [] || (Enabled(s, steps[0]) && Possible(Next(s, steps[0]), steps[1..]))
  }

  lemma {:induction false} RunKeepsInv(s: Pair, steps: seq<Step>)
    requires Inv(s) && Possible(s, steps)
    ensures Inv(Run(s, steps))
    decreases |steps|
  {
    if steps != [] {
      StepKeepsInv(s, steps[0]);
      RunKeepsInv(Next(s, steps[0]), steps[1..]);
    }
  }

  /** Both ends right after the handshake: connected to each other, nothing sent. */
  predicate Fresh(x: End, y: End) {
    && x.t.state == Established && x.t.handler && !x.t.txPending
    && x.t.localPort == y.t.remotePort && x.t.remotePort == y.t.localPort
    && x.t.sndNxt == At(x.iss, 0) && y.t.rcvNxt == At(x.iss, 0)
    && x.sent == [] && x.una == 0 && x.got == []
  }

  predicate Start(s: Pair) {
    Fresh(s.a, s.b) && Fresh(s.b, s.a) && s.fromA == {} && s.fromB == {}
  }

  lemma StartIsInv(s: Pair)
    requires Start(s)
    ensures Inv(s)
  {
  }

  /** The peer's end once it has answered our SYN with its own: it waits for an acknowledgement of `iss`. */
  predicate Answered(x: Tcb, y: End) {
    && y.t.state == Established && y.t.handler && !y.t.txPending
    && y.t.localPort == x.remotePort && y.t.remotePort == x.localPort
    && y.t.sndNxt == At(y.iss, 0) && y.t.rcvNxt == Wrap32(x.txSeq + 1)
    && y.sent == [] && y.una == 0 && y.got == []
  }

  /** Its SYN and ACK. */
  function SynAck(x: Tcb, y: End): Segment {
    Segment(y.t.localPort, y.t.remotePort, y.iss, Wrap32(x.txSeq + 1), Flags(false, true, false, false, true), [])
  }

  /**
   * The handshake leads to such a pair: our SYN, the peer's answer, and one
   * segment from us that carries the numbers the peer waits for.
   */
  lemma HandshakeStarts(t: Tcb, ip: uint32, y: End, now: uint32, later: uint32)
    requires t.state == Closed && Answered(Connect(t, ip, y.t.localPort, y.t.remotePort, now).0, y)
    ensures var x := Connect(t, ip, y.t.localPort, y.t.remotePort, now).0;
            var (u, out) := HandleSegment(x, ip, SynAck(x, y), later);
            && Start(Pair(End(u, x.txSeq, [], 0, []), y, {}, {}))
            && out == [Sent(y.t.rcvNxt, y.t.sndNxt, ACK, []), EstablishedEvent]
  {
    var x := Connect(t, ip, y.t.localPort, y.t.remotePort, now).0;
    ConnectSendsSyn(t, ip, y.t.localPort, y.t.remotePort, now);
    OpensExactlyWhen(x, x.txSeq, ip, SynAck(x, y), later);
  }

  /**
   * `y` has a prefix of what `x` accepted, at most one segment behind; nothing
   * is missing once `x` waits for nothing.
   */
  predicate Delivers(x: End, y: End) {
    && y.got <= x.sent
    && |x.sent| - |y.got| <= MAX_PAYLOAD
    && (x.t.state == Established && !x.t.txPending ==> y.got == x.sent)
  }

  /**
   * Over every run in which segments are lost, repeated and reordered, each
   * application receives exactly the bytes the other side's tcp_send accepted,
   * in order and once, up to the segment that is still outstanding.
   */
  lemma EachSideReceivesWhatWasAccepted(s: Pair, steps: seq<Step>)
    requires Start(s) && Possible(s, steps)
    ensures var u := Run(s, steps);
            Delivers(u.a, u.b) && Delivers(u.b, u.a)
  {
    RunKeepsInv(s, steps);
  }

  // ----- the condition on acknowledgements is needed

  /**
   * An arriving acknowledgement leaves its receiver right about what was
   * delivered, whatever state the other end may be in, exactly when it is not
   * older than the outstanding segment or that segment is empty.
   */
  lemma AckIsHarmlessExactlyWhen(s: Pair, p: Packet, now: uint32)
    requires Inv(s) && s.a.t.state == Established && s.a.t.txPending && p in s.fromB
    requires NoAlias(p.off, |p.s.data|, |s.a.got|) && s.a.una - p.acked <= TWO_32 - MAX_PAYLOAD - 2
    ensures (forall t | Inv(t) && t.a == s.a && p in t.fromB :: Delivers(Next(t, ArriveA(p, now)).a, t.b)) <==>
            p.acked >= s.a.una || s.a.t.txData == []
  {
    forall t | Inv(t) && t.a == s.a && p in t.fromB && (p.acked >= s.a.una || s.a.t.txData == [])
      ensures Delivers(Next(t, ArriveA(p, now)).a, t.b)
    {
      HarmlessAck(t, p, now);
    }
    if p.acked < s.a.una && s.a.t.txData != [] {
      var t := NotYetArrived(s, p);
      NotYetArrivedKeeps(s, p);
      StaleAckEndsTheWait(t, p, now);
      assert Next(t, ArriveA(p, now)).a.sent == s.a.sent != t.b.got;
    }
  }

  lemma HarmlessAck(s: Pair, p: Packet, now: uint32)
    requires Inv(s) && s.a.t.state == Established && s.a.t.txPending && p in s.fromB
    requires NoAlias(p.off, |p.s.data|, |s.a.got|) && (p.acked >= s.a.una || s.a.t.txData == [])
    ensures Delivers(Next(s, ArriveA(p, now)).a, s.b)
  {
    if p.acked >= s.a.una {
      ReceiveKeeps(s, p, now);
    } else {
      assert s.b.got == s.a.sent;
    }
  }

  /** The same end `a`, and a `b` that its outstanding segment has not reached. */
  function NotYetArrived(s: Pair, p: Packet): Pair
    requires s.a.una <= |s.a.sent|
  {
    Pair(s.a, s.b.(got := s.a.sent[..s.a.una], t := s.b.t.(rcvNxt := At(s.a.iss, s.a.una))), {}, {p})
  }

  lemma NotYetArrivedKeeps(s: Pair, p: Packet)
    requires Inv(s) && p in s.fromB && p.acked <= s.a.una
    ensures Inv(NotYetArrived(s, p))
  {
    var t := NotYetArrived(s, p);
    assert PacketOk(s.b, s.a, p);
    assert PacketOk(t.b, t.a, p);
    assert Receiver(t.a, t.b);
  }

  lemma OldAck(t: Tcb, ackNo: uint32, distance: int)
    requires t.txPending && |t.txData| <= MAX_PAYLOAD && ackNo == Wrap32(t.txSeq + distance)
    requires -TWO_32 + MAX_PAYLOAD + 2 <= distance < 0
    ensures ProcessAck(t, ackNo).1
  {
    AckAccepted(t, distance);
  }

  lemma AtBack(iss: uint32, una: nat, acked: nat)
    ensures At(iss, acked) == Wrap32(At(iss, una) + (acked - una))
  {
    WrapAdd(iss + 1 + una, acked - una);
  }

  /** An acknowledgement older than the outstanding segment is taken for an acknowledgement of it. */
  lemma StaleAckEndsTheWait(s: Pair, p: Packet, now: uint32)
    requires Inv(s) && s.a.t.state == Established && s.a.t.txPending && p in s.fromB
    requires p.acked < s.a.una && s.a.una - p.acked <= TWO_32 - MAX_PAYLOAD - 2
    ensures var t := Next(s, ArriveA(p, now)).a.t; t.state == Established && !t.txPending
  {
    assert PacketOk(s.b, s.a, p);
    AtBack(s.a.iss, s.a.una, p.acked);
    OldAck(s.a.t, p.s.ackNo, p.acked - s.a.una);
    ArrivalIsTwoParts(s.a, p, now);
  }

  /** The only packet of these outputs. */
  lemma OnePacket(e: End, o: Output, off: nat)
    requires o.Sent?
    ensures Packets(e, [o], off) ==
            {Packet(Segment(e.t.localPort, e.t.remotePort, o.seqNo, o.ackNo, o.flags, o.data), off, |e.got|)}
  {
    var p := Packet(Segment(e.t.localPort, e.t.remotePort, o.seqNo, o.ackNo, o.flags, o.data), off, |e.got|);
    assert [o][0] == o;
    assert p in Packets(e, [o], off);
  }

  /** What tcp_send puts on the network. */
  function Piece(x: End, data: seq<Byte>): Packet {
    Packet(Segment(x.t.localPort, x.t.remotePort, x.t.sndNxt, x.t.rcvNxt, PSH_ACK, data), x.una, |x.got|)
  }

  /** What the receiver of the next piece answers. */
  function Answer(y: End, n: nat): Packet {
    Packet(Segment(y.t.localPort, y.t.remotePort, y.t.sndNxt, Wrap32(y.t.rcvNxt + n), ACK, []), |y.sent|, |y.got| + n)
  }

  lemma SendPuts(x: End, data: seq<Byte>, now: uint32)
    requires MaySend(x.t, data)
    ensures SendAt(x, data, now) ==
            (x.(t := SendTracked(x.t, PSH_ACK, data, now).0, sent := x.sent + data), {Piece(x, data)})
  {
    OnePacket(x.(t := SendTracked(x.t, PSH_ACK, data, now).0, sent := x.sent + data),
              Emit(x.t, x.t.sndNxt, PSH_ACK, data), x.una);
  }

  /** The next piece arrives at an end whose own segment it does not acknowledge. */
  lemma PieceIsAnswered(y: End, p: Packet, now: uint32)
    requires y.t.state == Established && y.t.handler && p.s.data != []
    requires p.s.srcPort == y.t.remotePort && p.s.dstPort == y.t.localPort && p.s.flags == PSH_ACK
    requires p.s.seqNo == y.t.rcvNxt && !ProcessAck(y.t, p.s.ackNo).1
    ensures ReceiveAt(y, p, now) ==
            (y.(t := y.t.(rcvNxt := Wrap32(y.t.rcvNxt + |p.s.data|)), got := y.got + p.s.data),
             {Answer(y, |p.s.data|)})
  {
    var u := y.t.(rcvNxt := Wrap32(y.t.rcvNxt + |p.s.data|));
    var out := [SendAck(u)] + Notify(u, DataEvent(p.s.data));
    DeliveredData(u, p.s.data);
    assert HandleSegment(y.t, y.t.remoteIp, p.s, now) == (u, out + []);
    assert out + [] == out;
    var e := y.(t := u, got := y.got + p.s.data);
    OnePacket(e, SendAck(u), |y.sent|);
    assert Packets(e, out, |y.sent|) == Packets(e, [SendAck(u)], |y.sent|);
  }

  /** `b` sends `y`; `a` sends `x`, which arrives and is acknowledged; then `a` sends `z`. */
  function Exchange(s: Pair, x: seq<Byte>, y: seq<Byte>, z: seq<Byte>, now: uint32): seq<Step> {
    [SendB(y, now), SendA(x, now), ArriveB(Piece(s.a, x), now),
     ArriveA(Answer(SendAt(s.b, y, now).0, |x|), now), SendA(z, now)]
  }

  /** After the first three steps `b` has `x`, and `a` does not know it yet. */
  lemma AfterArrival(s: Pair, x: seq<Byte>, y: seq<Byte>, z: seq<Byte>, now: uint32)
    requires Start(s) && 0 < |x| <= MAX_PAYLOAD && |y| <= MAX_PAYLOAD && y != []
    ensures var steps := Exchange(s, x, y, z, now);
            var u := Next(Next(Next(s, steps[0]), steps[1]), steps[2]);
            && Enabled(Next(Next(s, steps[0]), steps[1]), steps[2])
            && Piece(s.b, y) in u.fromB && steps[3].p in u.fromB
            && u.a == SendAt(s.a, x, now).0 && u.a.t.state == Established && u.a.t.txPending
            && u.a.una == 0 && u.a.got == [] && u.a.sent == x && u.b.got == x
  {
    var steps := Exchange(s, x, y, z, now);
    SendPuts(s.b, y, now);
    SendPuts(s.a, x, now);
    var s2 := Next(Next(s, steps[0]), steps[1]);
    assert s2.b == SendAt(s.b, y, now).0 && s2.a == SendAt(s.a, x, now).0;
    assert s2.fromA == {Piece(s.a, x)} && s2.fromB == {Piece(s.b, y)};
    NothingNewAcked(s, y, now);
    PieceIsAnswered(s2.b, Piece(s.a, x), now);
  }

  /** The fresh end `a` has not acknowledged what `b` sent. */
  lemma NothingNewAcked(s: Pair, y: seq<Byte>, now: uint32)
    requires Start(s) && y != [] && |y| <= MAX_PAYLOAD
    ensures !ProcessAck(SendAt(s.b, y, now).0.t, s.a.t.rcvNxt).1
  {
    OwnNumberIsNotAccepted(SendAt(s.b, y, now).0.t);
  }

  /** The tracked segment's own number acknowledges nothing of it. */
  lemma OwnNumberIsNotAccepted(t: Tcb)
    requires t.txData != []
    ensures !ProcessAck(t, t.txSeq).1
  {
    assert Wrap32(t.txSeq - t.txSeq) == 0;
  }

  lemma FirstStep(s: Pair, step: Step, rest: seq<Step>)
    ensures Run(s, [step] + rest) == Run(Next(s, step), rest)
    ensures Possible(s, [step] + rest) <==> Enabled(s, step) && Possible(Next(s, step), rest)
  {
    assert ([step] + rest)[1..] == rest;
  }

  lemma TwoSteps(s: Pair, d: Step, e: Step)
    ensures Run(s, [d, e]) == Next(Next(s, d), e)
    ensures Possible(s, [d, e]) <==> Enabled(s, d) && Enabled(Next(s, d), e)
  {
    FirstStep(s, d, [e]);
    FirstStep(Next(s, d), e, []);
    assert [d] + [e] == [d, e] && [e] + [] == [e];
  }

  lemma FiveSteps(s: Pair, a: Step, b: Step, c: Step, d: Step, e: Step)
    ensures var s3 := Next(Next(Next(s, a), b), c);
            && Run(s, [a, b, c, d, e]) == Next(Next(s3, d), e)
            && (Possible(s, [a, b, c, d, e]) <==>
                  && Enabled(s, a) && Enabled(Next(s, a), b) && Enabled(Next(Next(s, a), b), c)
                  && Enabled(s3, d) && Enabled(Next(s3, d), e))
  {
    FirstStep(s, a, [b, c, d, e]);
    FirstStep(Next(s, a), b, [c, d, e]);
    FirstStep(Next(Next(s, a), b), c, [d, e]);
    TwoSteps(Next(Next(Next(s, a), b), c), d, e);
    assert [a] + [b, c, d, e] == [a, b, c, d, e] && [b] + [c, d, e] == [b, c, d, e] && [c] + [d, e] == [c, d, e];
  }

  /** The state all these steps lead to. */
  lemma AfterExchange(s: Pair, x: seq<Byte>, y: seq<Byte>, z: seq<Byte>, now: uint32)
    requires Start(s) && 0 < |x| <= MAX_PAYLOAD && |y| <= MAX_PAYLOAD && |z| <= MAX_PAYLOAD && y != []
    ensures var steps := Exchange(s, x, y, z, now);
            var u := Run(s, steps);
            && Possible(s, steps) && Inv(u) && Piece(s.b, y) in u.fromB
            && u.a.t.state == Established && u.a.t.txPending && u.a.una == |x|
            && u.a.got == [] && u.a.sent == x + z && u.b.got == x
  {
    var steps := Exchange(s, x, y, z, now);
    AfterArrival(s, x, y, z, now);
    StartIsInv(s);
    StepKeepsInv(s, steps[0]);
    StepKeepsInv(Next(s, steps[0]), steps[1]);
    StepKeepsInv(Next(Next(s, steps[0]), steps[1]), steps[2]);
    var u := Next(Next(Next(s, steps[0]), steps[1]), steps[2]);
    AckArrives(u, steps[3].p, now);
    StepKeepsInv(u, steps[3]);
    var v := Next(u, steps[3]);
    SendPuts(v.a, z, now);
    StepKeepsInv(v, steps[4]);
    FiveSteps(s, steps[0], steps[1], steps[2], steps[3], steps[4]);
  }

  /** An acknowledgement of everything sent arrives. */
  lemma AckArrives(u: Pair, r: Packet, now: uint32)
    requires Inv(u) && u.a.t.state == Established && u.a.t.txPending && r in u.fromB
    requires r.s.data == [] && r.acked == |u.a.sent| && NoAlias(r.off, 0, |u.a.got|)
    ensures var v := Next(u, ArriveA(r, now));
            && Enabled(u, ArriveA(r, now))
            && v.a.t.state == Established && !v.a.t.txPending && v.a.una == |u.a.sent| && v.a.sent == u.a.sent
            && v.a.got == u.a.got && v.b == u.b && v.fromB == u.fromB
  {
    assert PacketOk(u.b, u.a, r);
    AckCoversAll(u.a, r.acked, |u.b.got|);
    ArrivalIsTwoParts(u.a, r, now);
    assert u.a.got + [] == u.a.got;
  }

  /**
   * So a delayed acknowledgement can end the wait for data that has not
   * arrived: the first piece of `b` comes late, `a` takes it for an
   * acknowledgement of `z`, and stops waiting while `b` has only `x`.
   */
  lemma DelayedAckLosesData(s: Pair, x: seq<Byte>, y: seq<Byte>, z: seq<Byte>, now: uint32)
    requires Start(s) && 0 < |x| <= MAX_PAYLOAD && 0 < |y| <= MAX_PAYLOAD && 0 < |z| <= MAX_PAYLOAD
    ensures var u := Run(s, Exchange(s, x, y, z, now));
            && Possible(s, Exchange(s, x, y, z, now)) && Piece(s.b, y) in u.fromB
            && var a := Next(u, ArriveA(Piece(s.b, y), now)).a;
               a.t.state == Established && !a.t.txPending && a.sent == x + z && u.b.got == x
  {
    AfterExchange(s, x, y, z, now);
    StaleAckEndsTheWait(Run(s, Exchange(s, x, y, z, now)), Piece(s.b, y), now);
  }
}
