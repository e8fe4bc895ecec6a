/**
 * The TCP client of sw/apps/net/tcp.c: one connection, one unacknowledged
 * segment at a time, 32-bit sequence numbers and a doubling retransmit timer.
 */
module Tcp {
  import opened Words

  const HDR_LEN: int := 20
  const MAX_PAYLOAD: int := 536
  const RTO_BASE: int := 366
  const MAX_RETRIES: int := 7
  const TIME_WAIT_TICKS: int := 732 * 3

  datatype State = Closed | SynSent | Established | FinWait1 | FinWait2 | Closing | TimeWait | LastAck

  datatype Flags = Flags(fin: bool, syn: bool, rst: bool, psh: bool, ack: bool)

  const SYN: Flags := Flags(false, true, false, false, false)
  const ACK: Flags := Flags(false, false, false, false, true)
  const RST: Flags := Flags(false, false, true, false, false)
  const PSH_ACK: Flags := Flags(false, false, false, true, true)
  const FIN_ACK: Flags := Flags(true, false, false, false, true)

  /** tcp_tcb_t as a value; `txData` stands for tx_buf and tx_len. */
  datatype Tcb = Tcb(
    state: State, remoteIp: uint32, remotePort: uint16, localPort: uint16,
    sndUna: uint32, sndNxt: uint32, rcvNxt: uint32,
    txPending: bool, txSeq: uint32, txFlags: Flags, txData: seq<Byte>, lastSend: uint32, retries: int,
    timeWaitStart: uint32, handler: bool)

  /** A received segment after its header has been taken apart. */
  datatype Segment = Segment(
    srcPort: uint16, dstPort: uint16, seqNo: uint32, ackNo: uint32, flags: Flags, data: seq<Byte>)

  /** What the code does to the outside: segments sent and events reported, in order. */
  datatype Output =
    | Sent(seqNo: uint32, ackNo: uint32, flags: Flags, data: seq<Byte>)
    | EstablishedEvent
    | DataEvent(data: seq<Byte>)
    | ClosedEvent

  // ----- header parsing

  function Be16(p: seq<Byte>, i: int): uint16
    requires 0 <= i && i + 1 < |p|
  {
    p[i] as int * 256 + p[i + 1]
  }

  function Be32(p: seq<Byte>, i: int): uint32
    requires 0 <= i && i + 3 < |p|
  {
    Be16(p, i) as int * 0x1_0000 + Be16(p, i + 2)
  }

  predicate BitSet(b: Byte, weight: int)
    requires weight > 0
  {
    b as int / weight % 2 == 1
  }

  function FlagsOf(b: Byte): Flags {
    Flags(BitSet(b, 1), BitSet(b, 2), BitSet(b, 4), BitSet(b, 8), BitSet(b, 16))
  }

  /** None for a segment that is too short or has an impossible data offset. */
  function Parse(p: seq<Byte>): Option<Segment> {
    if |p| < HDR_LEN then None
    else
      var offset := p[12] as int / 16 * 4;
      if offset < HDR_LEN || offset > |p| then None
      else Some(Segment(Be16(p, 0), Be16(p, 2), Be32(p, 4), Be32(p, 8), FlagsOf(p[13]), p[offset..]))
  }

  // ----- sending

  /** tcp_send_segment: every segment carries the latest rcv_nxt. */
  function Emit(t: Tcb, seqNo: uint32, flags: Flags, data: seq<Byte>): Output {
    Sent(seqNo, t.rcvNxt, flags, data)
  }

  /** Sequence numbers a segment occupies. */
  function Consumed(flags: Flags, data: seq<Byte>): nat {
    |data| + (if flags.syn then 1 else 0) + (if flags.fin then 1 else 0)
  }

  function SendTracked(t: Tcb, flags: Flags, data: seq<Byte>, now: uint32): (Tcb, seq<Output>) {
    (t.(txPending := true, txSeq := t.sndNxt, txFlags := flags, txData := data, lastSend := now, retries := 0,
        sndNxt := Wrap32(t.sndNxt + Consumed(flags, data))),
     [Emit(t, t.sndNxt, flags, data)])
  }

  function SendAck(t: Tcb): Output { Emit(t, t.sndNxt, ACK, []) }

  function Reset(t: Tcb): Tcb { t.(state := Closed, txPending := false, handler := false) }

  /** notify: events without a registered handler are dropped. */
  function Notify(t: Tcb, e: Output): seq<Output> { if t.handler then [e] else [] }

  /** process_ack */
  function ProcessAck(t: Tcb, ackNo: uint32): (Tcb, bool) {
    var consumed := Consumed(t.txFlags, t.txData);
    if !t.txPending || Wrap32(ackNo - t.txSeq) < consumed then (t, false)
    else (t.(sndUna := Wrap32(t.txSeq + consumed), txPending := false), true)
  }

  // ----- the public operations

  function Connect(t: Tcb, ip: uint32, port: uint16, localPort: uint16, now: uint32): (Tcb, seq<Output>) {
    if t.state != Closed then (t, [])
    else
      var isn := Wrap32(now * 2654435761);
      SendTracked(t.(remoteIp := ip, remotePort := port, localPort := localPort, sndUna := isn, sndNxt := isn,
                     rcvNxt := 0, handler := true, txPending := false, state := SynSent), SYN, [], now)
  }

  predicate MaySend(t: Tcb, data: seq<Byte>) {
    t.state == Established && !t.txPending && |data| <= MAX_PAYLOAD
  }

  function Send(t: Tcb, data: seq<Byte>, now: uint32): (Tcb, seq<Output>) {
    if !MaySend(t, data) then (t, []) else SendTracked(t, PSH_ACK, data, now)
  }

  function CloseActive(t: Tcb, now: uint32): (Tcb, seq<Output>) {
    if !MaySend(t, []) then (t, [])
    else
      var (u, out) := SendTracked(t, FIN_ACK, [], now);
      (u.(state := FinWait1), out)
  }

  function Abort(t: Tcb): (Tcb, seq<Output>) {
    (Reset(t), if t.state != Closed then [Emit(t, t.sndNxt, RST, [])] else [])
  }

  // ----- tcp_handle

  predicate Ours(t: Tcb, srcIp: uint32, s: Segment) {
    t.state != Closed && srcIp == t.remoteIp && s.srcPort == t.remotePort && s.dstPort == t.localPort
  }

  function HandleSynSent(t: Tcb, s: Segment): (Tcb, seq<Output>) {
    if !s.flags.syn || !s.flags.ack then (t, [])
    else
      var (u, acked) := ProcessAck(t, s.ackNo);
      if !acked then (t, [])
      else
        var v := u.(rcvNxt := Wrap32(s.seqNo + 1), state := Established);
        (v, [SendAck(v)] + Notify(v, EstablishedEvent))
  }

  /** The data part of the ESTABLISHED case: only the next expected segment is delivered. */
  function ReceiveData(t: Tcb, s: Segment): (Tcb, seq<Output>) {
    if s.data == [] then (t, [])
    else if s.seqNo == t.rcvNxt then
      var u := t.(rcvNxt := Wrap32(t.rcvNxt + |s.data|));
      (u, [SendAck(u)] + Notify(u, DataEvent(s.data)))
    else if s.seqNo < t.rcvNxt then (t, [SendAck(t)])
    else (t, [])
  }

  /** The FIN part of the ESTABLISHED case: our own FIN is the immediate answer. */
  function ReceiveFin(t: Tcb, s: Segment, now: uint32): (Tcb, seq<Output>) {
    if !s.flags.fin || Wrap32(s.seqNo + |s.data|) != t.rcvNxt then (t, [])
    else
      var u := t.(rcvNxt := Wrap32(t.rcvNxt + 1));
      var (v, out) := if u.txPending then (u, []) else SendTracked(u, FIN_ACK, [], now);
      (v.(state := LastAck), [SendAck(u)] + out + Notify(v, ClosedEvent))
  }

  function HandleEstablished(t: Tcb, s: Segment, now: uint32): (Tcb, seq<Output>) {
    var t1 := if s.flags.ack then ProcessAck(t, s.ackNo).0 else t;
    var (t2, out2) := ReceiveData(t1, s);
    var (t3, out3) := ReceiveFin(t2, s, now);
    (t3, out2 + out3)
  }

  function HandleFinWait1(t: Tcb, s: Segment, now: uint32): (Tcb, seq<Output>) {
    var (u, acked) := if s.flags.ack then ProcessAck(t, s.ackNo) else (t, false);
    if s.flags.fin then
      var v := u.(rcvNxt := Wrap32(s.seqNo + 1));
      (if acked then v.(state := TimeWait, timeWaitStart := now) else v.(state := Closing), [SendAck(v)])
    else (if acked then u.(state := FinWait2) else u, [])
  }

  function HandleOther(t: Tcb, s: Segment, now: uint32): (Tcb, seq<Output>) {
    match t.state
    case FinWait2 =>
      if !s.flags.fin then (t, [])
      else
        var v := t.(rcvNxt := Wrap32(s.seqNo + 1), state := TimeWait, timeWaitStart := now);
        (v, [SendAck(v)])
    case Closing =>
      var (u, acked) := if s.flags.ack then ProcessAck(t, s.ackNo) else (t, false);
      (if acked then u.(state := TimeWait, timeWaitStart := now) else u, [])
    case LastAck =>
      var (u, acked) := if s.flags.ack then ProcessAck(t, s.ackNo) else (t, false);
      (if acked then Reset(u) else u, [])
    case TimeWait => (t, if s.flags.fin then [SendAck(t)] else [])
    case _ => (t, [])
  }

  function Handle(t: Tcb, srcIp: uint32, p: seq<Byte>, now: uint32): (Tcb, seq<Output>) {
    match Parse(p)
    case None => (t, [])
    case Some(s) => HandleSegment(t, srcIp, s, now)
  }

  function HandleSegment(t: Tcb, srcIp: uint32, s: Segment, now: uint32): (Tcb, seq<Output>) {
    if !Ours(t, srcIp, s) then (t, [])
    else if s.flags.rst then (Reset(t), Notify(t, ClosedEvent))
    else if t.state == SynSent then HandleSynSent(t, s)
    else if t.state == Established then HandleEstablished(t, s, now)
    else if t.state == FinWait1 then HandleFinWait1(t, s, now)
    else HandleOther(t, s, now)
  }

  // ----- tcp_poll

  /** The retransmit timeout after `retries` retries: doubling, capped at 16 times the base. */
  function Rto(retries: int): int {
    if retries <= 0 then RTO_BASE
    else if retries == 1 then 2 * RTO_BASE
    else if retries == 2 then 4 * RTO_BASE
    else if retries == 3 then 8 * RTO_BASE
    else 16 * RTO_BASE
  }

  function Poll(t: Tcb, now: uint32): (Tcb, seq<Output>) {
    if t.state == Closed then (t, [])
    else if t.state == TimeWait then
      (if Wrap32(now - t.timeWaitStart) >= TIME_WAIT_TICKS then Reset(t) else t, [])
    else if !t.txPending || Wrap32(now - t.lastSend) < Rto(t.retries) then (t, [])
    else if t.retries >= MAX_RETRIES then (Reset(t), Notify(t, ClosedEvent))
    else (t.(lastSend := now, retries := t.retries + 1), [Emit(t, t.txSeq, t.txFlags, t.txData)])
  }

  // ----- one step of a run

  datatype Event =
    | DoConnect(ip: uint32, port: uint16, localPort: uint16)
    | DoSend(data: seq<Byte>)
    | DoClose
    | DoAbort
    | DoPoll
    | Arrives(srcIp: uint32, s: Segment)

  function Step(t: Tcb, e: Event, now: uint32): (Tcb, seq<Output>) {
    match e
    case DoConnect(ip, port, localPort) => Connect(t, ip, port, localPort, now)
    case DoSend(data) => Send(t, data, now)
    case DoClose => CloseActive(t, now)
    case DoAbort => Abort(t)
    case DoPoll => Poll(t, now)
    case Arrives(srcIp, s) => HandleSegment(t, srcIp, s, now)
  }

  // ----- the sender's sequence numbers

  /** In every open state the counters agree with the one tracked segment. */
  ghost predicate TxInv(t: Tcb) {
    && 0 <= t.retries <= MAX_RETRIES
    && (t.state != Closed ==>
          if t.txPending then t.sndUna == t.txSeq && t.sndNxt == Wrap32(t.txSeq + Consumed(t.txFlags, t.txData))
          else t.sndUna == t.sndNxt)
  }

  lemma StepKeepsTxInv(t: Tcb, e: Event, now: uint32)
    requires TxInv(t)
    ensures TxInv(Step(t, e, now).0)
  {
    if e.Arrives? && Ours(t, e.srcIp, e.s) && !e.s.flags.rst {
      if t.state == Established {
        EstablishedKeepsTxInv(t, e.s, now);
      } else {
        OtherStatesKeepTxInv(t, e.s, now);
      }
    }
  }

  lemma EstablishedKeepsTxInv(t: Tcb, s: Segment, now: uint32)
    requires TxInv(t) && t.state == Established
    ensures TxInv(HandleEstablished(t, s, now).0)
  {
    var t1 := if s.flags.ack then ProcessAck(t, s.ackNo).0 else t;
    assert TxInv(t1);
    var t2 := ReceiveData(t1, s).0;
    assert TxInv(t2);
  }

  lemma OtherStatesKeepTxInv(t: Tcb, s: Segment, now: uint32)
    requires TxInv(t) && t.state != Established && t.state != Closed
    ensures TxInv(HandleSynSent(t, s).0) && TxInv(HandleFinWait1(t, s, now).0) && TxInv(HandleOther(t, s, now).0)
  {
  }

  /**
   * An acknowledgement that points `distance` past the start of the tracked
   * segment is accepted exactly when it covers the segment or is older than it.
   */
  lemma AckAccepted(t: Tcb, distance: int)
    requires t.txPending && -TWO_32 + |t.txData| + 2 <= distance < TWO_32
    ensures ProcessAck(t, Wrap32(t.txSeq + distance)).1 <==>
            distance >= Consumed(t.txFlags, t.txData) || distance < 0
  {
  }

  /** So the claim that stale acknowledgements are ignored is false: this one is a byte too old. */
  lemma StaleAckIsAccepted(t: Tcb)
    requires t.txPending && |t.txData| < TWO_16
    ensures ProcessAck(t, Wrap32(t.txSeq - 1)).1
  {
  }

  // ----- receiving: every byte of the peer's stream once, in order

  /**
   * What the network may deliver, any number of times and in any order: pieces
   * of the peer's stream at their true sequence numbers.  A FIN comes only
   * after the last byte, and a SYN carries no data.
   */
  ghost predicate FromPeer(stream: seq<Byte>, irs: uint32, s: Segment, off: int) {
    if s.flags.syn then s.seqNo == irs && s.data == [] && !s.flags.fin
    else
      && 0 <= off && off + |s.data| <= |stream|
      && s.seqNo == Wrap32(irs + 1 + off) && s.data == stream[off..off + |s.data|]
      && (s.flags.fin ==> off + |s.data| == |stream|)
  }

  /** The segment is within one turn of the sequence space around position `n`. */
  predicate NoAlias(off: int, len: int, n: int) {
    n - TWO_32 < off && off + len < n + TWO_32
  }

  /** The bytes handed to the application by these outputs. */
  function Delivered(out: seq<Output>): seq<Byte> {
    if out == [] then []
    else (if out[0].DataEvent? then out[0].data else []) + Delivered(out[1..])
  }

  lemma {:induction false} DeliveredAppend(a: seq<Output>, b: seq<Output>)
    ensures Delivered(a + b) == Delivered(a) + Delivered(b)
  {
    if a == [] {
      assert a + b == b;
    } else {
      assert (a + b)[1..] == a[1..] + b;
      DeliveredAppend(a[1..], b);
    }
  }

  lemma {:induction false} NoData(out: seq<Output>)
    requires forall o | o in out :: !o.DataEvent?
    ensures Delivered(out) == []
  {
    if out != [] {
      NoData(out[1..]);
    }
  }

  /** `got` has been delivered; while established, the next expected byte is the next one of the stream. */
  ghost predicate RxInv(t: Tcb, stream: seq<Byte>, irs: uint32, got: seq<Byte>) {
    && got <= stream
    && (t.state != Closed ==> t.handler)
    && (t.state == SynSent ==> got == [])
    && (t.state == Established ==> t.rcvNxt == Wrap32(irs + 1 + |got|))
  }

  /** Equal sequence numbers mean equal stream positions, across the wrap. */
  lemma SamePosition(irs: uint32, off: int, n: int)
    requires -TWO_32 < off - n < TWO_32
    ensures Wrap32(irs + 1 + off) == Wrap32(irs + 1 + n) <==> off == n
  {
  }

  /** What one acknowledged data event delivers. */
  lemma DeliveredData(u: Tcb, data: seq<Byte>)
    requires u.handler
    ensures Delivered([SendAck(u)] + Notify(u, DataEvent(data))) == data
  {
    var event := [DataEvent(data)];
    DeliveredAppend([SendAck(u)], event);
    NoData([SendAck(u)]);
    assert event[1..] == [];
    assert Delivered(event) == data;
  }

  /** In sequence: delivered, and the next expected byte moves on. */
  lemma NextDataDelivers(t: Tcb, s: Segment, stream: seq<Byte>, irs: uint32, got: seq<Byte>)
    requires t.state == Established && RxInv(t, stream, irs, got)
    requires !s.flags.syn && s.data != [] && FromPeer(stream, irs, s, |got|)
    ensures var (u, out) := ReceiveData(t, s);
            Delivered(out) == s.data && u.state == Established && RxInv(u, stream, irs, got + s.data)
  {
    var (u, out) := ReceiveData(t, s);
    DeliveredData(u, s.data);
    assert got + s.data == stream[..|got| + |s.data|];
    WrapAdd(irs + 1 + |got|, |s.data|);
  }

  /**
   * A piece that has been received before is acknowledged again exactly when it
   * starts in the same turn of the sequence space as the next expected byte;
   * otherwise it is dropped like a piece behind a gap.
   */
  lemma SeenPieceIsAnsweredExactlyWhen(t: Tcb, s: Segment, irs: uint32, off: nat, n: nat)
    requires t.rcvNxt == Wrap32(irs + 1 + n) && s.seqNo == Wrap32(irs + 1 + off) && s.data != []
    requires off < n < off + TWO_32
    ensures ReceiveData(t, s) == (t, [SendAck(t)]) || ReceiveData(t, s) == (t, [])
    ensures ReceiveData(t, s).1 != [] <==> SameTurn(irs + 1 + off, irs + 1 + n)
  {
  }

  predicate SameTurn(a: nat, b: nat) { a / 0x1_0000_0000 == b / 0x1_0000_0000 }

  /** So this repeated segment is not answered, against the comment in the code. */
  lemma SeenPieceAcrossWrapIsDropped(t: Tcb, s: Segment)
    requires t.rcvNxt == 0x10 && s.seqNo == 0xFFFF_FFF0 && |s.data| == 32
    ensures ReceiveData(t, s) == (t, [])
  {
  }

  lemma ReceiveDataDelivers(t: Tcb, s: Segment, stream: seq<Byte>, irs: uint32, got: seq<Byte>, off: int)
    requires t.state == Established && RxInv(t, stream, irs, got)
    requires !s.flags.syn && FromPeer(stream, irs, s, off) && NoAlias(off, |s.data|, |got|)
    ensures Delivered(ReceiveData(t, s).1) == if s.data != [] && off == |got| then s.data else []
    ensures var (u, out) := ReceiveData(t, s);
            RxInv(u, stream, irs, got + Delivered(out)) && u.state == Established
  {
    SamePosition(irs, off, |got|);
    if s.data != [] && off == |got| {
      NextDataDelivers(t, s, stream, irs, got);
    } else {
      var (u, out) := ReceiveData(t, s);
      assert u == t;
      NoData(out);
      assert got + [] == got;
    }
  }

  /** The close event of a received FIN comes only when the whole stream has been delivered. */
  lemma ReceiveFinIsLast(t: Tcb, s: Segment, now: uint32, stream: seq<Byte>, irs: uint32, got: seq<Byte>, off: int)
    requires t.state == Established && RxInv(t, stream, irs, got)
    requires !s.flags.syn && FromPeer(stream, irs, s, off) && -TWO_32 < off + |s.data| - |got| < TWO_32
    ensures var (u, out) := ReceiveFin(t, s, now);
            && RxInv(u, stream, irs, got) && Delivered(out) == []
            && (u.state != Established ==> got == stream)
  {
    var (u, out) := ReceiveFin(t, s, now);
    WrapAdd(irs + 1 + off, |s.data|);
    SamePosition(irs, off + |s.data|, |got|);
    if u.state != Established {
      NoDataInFin(t, s, now);
    }
  }

  lemma NoDataInFin(t: Tcb, s: Segment, now: uint32)
    ensures Delivered(ReceiveFin(t, s, now).1) == []
  {
    NoData(ReceiveFin(t, s, now).1);
  }

  /** Where a run may go next: anything local, and from the peer's address only pieces of its stream. */
  ghost predicate Plausible(t: Tcb, e: Event, stream: seq<Byte>, irs: uint32, got: seq<Byte>) {
    match e
    case DoConnect(_, _, _) => false
    case Arrives(srcIp, s) =>
      Ours(t, srcIp, s) && !s.flags.rst && t.state in {SynSent, Established} ==>
        exists off :: FromPeer(stream, irs, s, off) && (s.flags.syn || NoAlias(off, |s.data|, |got|))
    case _ => true
  }

  lemma StepDelivers(t: Tcb, e: Event, now: uint32, stream: seq<Byte>, irs: uint32, got: seq<Byte>)
    requires RxInv(t, stream, irs, got) && Plausible(t, e, stream, irs, got)
    ensures var (u, out) := Step(t, e, now); RxInv(u, stream, irs, got + Delivered(out))
  {
    if e.Arrives? && Ours(t, e.srcIp, e.s) && !e.s.flags.rst && t.state == Established {
      EstablishedDelivers(t, e.s, now, stream, irs, got);
    } else {
      NothingElseDelivers(t, e, now);
    }
  }

  /** Outside ESTABLISHED no data event is ever reported. */
  lemma NothingElseDelivers(t: Tcb, e: Event, now: uint32)
    requires e.Arrives? && Ours(t, e.srcIp, e.s) && !e.s.flags.rst ==> t.state != Established
    ensures Delivered(Step(t, e, now).1) == []
  {
    NoData(Step(t, e, now).1);
  }

  lemma EstablishedDelivers(t: Tcb, s: Segment, now: uint32, stream: seq<Byte>, irs: uint32, got: seq<Byte>)
    requires t.state == Established && RxInv(t, stream, irs, got)
    requires exists off :: FromPeer(stream, irs, s, off) && (s.flags.syn || NoAlias(off, |s.data|, |got|))
    ensures var (u, out) := HandleEstablished(t, s, now); RxInv(u, stream, irs, got + Delivered(out))
  {
    var t1 := if s.flags.ack then ProcessAck(t, s.ackNo).0 else t;
    assert RxInv(t1, stream, irs, got) && t1.state == Established;
    if s.flags.syn {
      SynDeliversNothing(t1, s, now, stream, irs, got);
    } else {
      var off :| FromPeer(stream, irs, s, off) && NoAlias(off, |s.data|, |got|);
      DataAndFinDeliver(t1, s, now, stream, irs, got, off);
    }
  }

  /** A repeated SYN does nothing. */
  lemma SynDeliversNothing(t: Tcb, s: Segment, now: uint32, stream: seq<Byte>, irs: uint32, got: seq<Byte>)
    requires RxInv(t, stream, irs, got) && s.flags.syn && FromPeer(stream, irs, s, 0)
    ensures var (t2, out2) := ReceiveData(t, s);
            var (t3, out3) := ReceiveFin(t2, s, now);
            RxInv(t3, stream, irs, got + Delivered(out2 + out3))
  {
  }

  lemma DataAndFinDeliver(t: Tcb, s: Segment, now: uint32, stream: seq<Byte>, irs: uint32, got: seq<Byte>, off: int)
    requires t.state == Established && RxInv(t, stream, irs, got)
    requires !s.flags.syn && FromPeer(stream, irs, s, off) && NoAlias(off, |s.data|, |got|)
    ensures var (t2, out2) := ReceiveData(t, s);
            var (t3, out3) := ReceiveFin(t2, s, now);
            RxInv(t3, stream, irs, got + Delivered(out2 + out3))
  {
    var (t2, out2) := ReceiveData(t, s);
    var out3 := ReceiveFin(t2, s, now).1;
    ReceiveDataDelivers(t, s, stream, irs, got, off);
    ReceiveFinIsLast(t2, s, now, stream, irs, got + Delivered(out2), off);
    DeliveredAppend(out2, out3);
    assert Delivered(out2) + [] == Delivered(out2);
  }

  // ----- whole runs

  /** The data delivered by a run of timed events. */
  function RunDelivers(t: Tcb, events: seq<(Event, uint32)>): seq<Byte>
    decreases |events|
  {
    if events == [] then []
    else
      var (u, out) := Step(t, events[0].0, events[0].1);
      Delivered(out) + RunDelivers(u, events[1..])
  }

  function RunState(t: Tcb, events: seq<(Event, uint32)>): Tcb
    decreases |events|
  {
    if events == [] then t else RunState(Step(t, events[0].0, events[0].1).0, events[1..])
  }

  ghost predicate PlausibleRun(t: Tcb, events: seq<(Event, uint32)>, stream: seq<Byte>, irs: uint32, got: seq<Byte>)
    decreases |events|
  {
    events == [] ||
      (Plausible(t, events[0].0, stream, irs, got)
       && var (u, out) := Step(t, events[0].0, events[0].1);
          PlausibleRun(u, events[1..], stream, irs, got + Delivered(out)))
  }

  lemma {:induction false} RunKeepsRxInv(t: Tcb, events: seq<(Event, uint32)>, stream: seq<Byte>, irs: uint32,
      got: seq<Byte>)
    requires RxInv(t, stream, irs, got) && PlausibleRun(t, events, stream, irs, got)
    ensures RxInv(RunState(t, events), stream, irs, got + RunDelivers(t, events))
    decreases |events|, 1
  {
    if events == [] {
      assert got + [] == got;
    } else {
      var (u, out) := Step(t, events[0].0, events[0].1);
      StepDelivers(t, events[0].0, events[0].1, stream, irs, got);
      RestKeepsRxInv(u, events[1..], stream, irs, got, Delivered(out));
    }
  }

  /** The induction step, with the first delivery `d` set apart. */
  lemma {:induction false} RestKeepsRxInv(u: Tcb, rest: seq<(Event, uint32)>, stream: seq<Byte>, irs: uint32,
      got: seq<Byte>, d: seq<Byte>)
    requires RxInv(u, stream, irs, got + d) && PlausibleRun(u, rest, stream, irs, got + d)
    ensures RxInv(RunState(u, rest), stream, irs, got + (d + RunDelivers(u, rest)))
    decreases |rest|, 2
  {
    RunKeepsRxInv(u, rest, stream, irs, got + d);
    assert got + d + RunDelivers(u, rest) == got + (d + RunDelivers(u, rest));
  }

  /**
   * Over a network that loses, repeats and reorders the peer's segments, the
   * application receives a prefix of the peer's stream, and while the
   * connection is established that prefix ends exactly at rcv_nxt.
   */
  lemma ApplicationSeesPeerStream(t: Tcb, ip: uint32, port: uint16, localPort: uint16, now: uint32,
      events: seq<(Event, uint32)>, stream: seq<Byte>, irs: uint32)
    requires t.state == Closed
    requires PlausibleRun(Connect(t, ip, port, localPort, now).0, events, stream, irs, [])
    ensures var connected := Connect(t, ip, port, localPort, now).0;
            var got := RunDelivers(connected, events);
            var u := RunState(connected, events);
            && got <= stream
            && (u.state == Established ==> u.rcvNxt == Wrap32(irs + 1 + |got|))
  {
    var connected := Connect(t, ip, port, localPort, now).0;
    RunKeepsRxInv(connected, events, stream, irs, []);
    assert [] + RunDelivers(connected, events) == RunDelivers(connected, events);
  }

  /** The next piece of the stream is delivered whole and acknowledged up to its end. */
  lemma NextSegmentIsDelivered(t: Tcb, srcIp: uint32, s: Segment, now: uint32, stream: seq<Byte>, irs: uint32,
      got: seq<Byte>)
    requires t.state == Established && RxInv(t, stream, irs, got) && Ours(t, srcIp, s)
    requires !s.flags.rst && !s.flags.syn && s.data != [] && FromPeer(stream, irs, s, |got|) && |s.data| < TWO_32
    ensures var out := HandleSegment(t, srcIp, s, now).1;
            && Delivered(out) == s.data
            && out != [] && out[0].Sent? && out[0].ackNo == Wrap32(irs + 1 + |got| + |s.data|)
  {
    var t1 := if s.flags.ack then ProcessAck(t, s.ackNo).0 else t;
    var (t2, out2) := ReceiveData(t1, s);
    ReceiveDataDelivers(t1, s, stream, irs, got, |got|);
    NoDataInFin(t2, s, now);
    DeliveredAppend(out2, ReceiveFin(t2, s, now).1);
    WrapAdd(irs + 1 + |got|, |s.data|);
  }

  // ----- retransmission: eight copies, then the connection is given up

  /** The connection waits for its tracked segment to be acknowledged. */
  predicate Waiting(t: Tcb) {
    t.state != Closed && t.state != TimeWait && t.txPending
  }

  predicate SameSegment(t: Tcb, u: Tcb) {
    t.txSeq == u.txSeq && t.txFlags == u.txFlags && t.txData == u.txData
  }

  /** The event acknowledges the tracked segment. */
  predicate Answers(t: Tcb, e: Event) {
    e.Arrives? && Ours(t, e.srcIp, e.s) && e.s.flags.ack && ProcessAck(t, e.s.ackNo).1
      && (t.state == SynSent ==> e.s.flags.syn)
  }

  /** While it waits, nothing but a poll touches the tracked segment or its timer. */
  lemma OnlyPollsRetransmit(t: Tcb, e: Event, now: uint32)
    requires Waiting(t) && e != DoPoll && !Answers(t, e) && Waiting(Step(t, e, now).0)
    ensures var u := Step(t, e, now).0;
            SameSegment(t, u) && u.lastSend == t.lastSend && u.retries == t.retries
  {
  }

  /** Ticks from the first transmission until `r` retries are due, at the earliest. */
  function WaitSum(r: nat): nat {
    if r == 0 then 0 else WaitSum(r - 1) + Rto(r - 1)
  }

  /** The segment was first sent at `first` and last sent at `last`, in unwrapped ticks. */
  ghost predicate Clock(t: Tcb, first: nat, last: nat) {
    && 0 <= t.retries <= MAX_RETRIES
    && t.lastSend == Wrap32(last)
    && last >= first + WaitSum(t.retries)
  }

  /** One poll: nothing yet, one more copy of the segment, or giving up. */
  lemma PollStep(t: Tcb, now: nat, first: nat, last: nat)
    requires Waiting(t) && Clock(t, first, last) && now >= last
    ensures var (u, out) := Poll(t, Wrap32(now));
            || (u == t && out == [] && (now < last + Rto(t.retries) || now >= last + TWO_32))
            || (now >= last + Rto(t.retries) && t.retries == MAX_RETRIES && u == Reset(t)
                && out == Notify(t, ClosedEvent) && now >= first + 79 * RTO_BASE)
            || (now >= last + Rto(t.retries) && u == t.(lastSend := Wrap32(now), retries := t.retries + 1)
                && out == [Sent(t.txSeq, t.rcvNxt, t.txFlags, t.txData)] && Clock(u, first, now))
  {
    TickDistance(now, last);
    if t.retries == MAX_RETRIES {
      assert WaitSum(4) == 15 * RTO_BASE;
    }
  }

  lemma TickDistance(now: nat, last: nat)
    requires now >= last
    ensures Wrap32(Wrap32(now) - Wrap32(last)) <= now - last
    ensures now - last < TWO_32 ==> Wrap32(Wrap32(now) - Wrap32(last)) == now - last
  {
  }

  /** What happens to the tracked segment in a run: its further copies, and when it is abandoned. */
  datatype Fate = Fate(copies: seq<Output>, abandoned: Option<nat>)

  function FateOf(t: Tcb, events: seq<(Event, nat)>): Fate
    decreases |events|
  {
    if events == [] then Fate([], None)
    else
      var (e, now) := events[0];
      var (u, out) := Step(t, e, Wrap32(now));
      if e != DoPoll then FateOf(u, events[1..])
      else if u.state == Closed then Fate([], Some(now))
      else
        var rest := FateOf(u, events[1..]);
        Fate(out + rest.copies, rest.abandoned)
  }

  /** Time does not run backwards, no event acknowledges the segment, and nothing but a poll ends the wait. */
  ghost predicate Unanswered(t: Tcb, events: seq<(Event, nat)>, since: nat)
    decreases |events|
  {
    events == [] ||
      var (e, now) := events[0];
      var u := Step(t, e, Wrap32(now)).0;
      && now >= since
      && !Answers(t, e)
      && (if e == DoPoll && u.state == Closed then true else Waiting(u) && Unanswered(u, events[1..], now))
  }

  lemma {:induction false} NeverAckedIsSentAtMostSeven(t: Tcb, events: seq<(Event, nat)>, first: nat, last: nat,
      since: nat)
    requires Waiting(t) && Clock(t, first, last) && last <= since && Unanswered(t, events, since)
    ensures var f := FateOf(t, events);
            && (forall o | o in f.copies :: o.Sent? && o.seqNo == t.txSeq && o.flags == t.txFlags && o.data == t.txData)
            && (if f.abandoned == None then t.retries + |f.copies| <= MAX_RETRIES
                else t.retries + |f.copies| == MAX_RETRIES && f.abandoned.value >= first + 79 * RTO_BASE)
    decreases |events|
  {
    if events != [] {
      var (e, now) := events[0];
      var u := Step(t, e, Wrap32(now)).0;
      if e == DoPoll {
        PollStep(t, now, first, last);
        if u.state != Closed {
          NeverAckedIsSentAtMostSeven(u, events[1..], first, if u == t then last else now, now);
        }
      } else {
        OnlyPollsRetransmit(t, e, Wrap32(now));
        NeverAckedIsSentAtMostSeven(u, events[1..], first, last, now);
      }
    }
  }

  /**
   * A segment that is never acknowledged is sent exactly eight times, unchanged
   * except for the acknowledgement number, before the connection is abandoned,
   * and that is no earlier than 79 * 366 ticks after the first copy.
   */
  lemma EightCopiesThenAbandoned(t: Tcb, flags: Flags, data: seq<Byte>, first: nat, events: seq<(Event, nat)>)
    requires var u := SendTracked(t, flags, data, Wrap32(first)).0; Waiting(u) && Unanswered(u, events, first)
    ensures var (u, out) := SendTracked(t, flags, data, Wrap32(first));
            var f := FateOf(u, events);
            && (forall o | o in out + f.copies :: o.Sent? && o.seqNo == t.sndNxt && o.flags == flags && o.data == data)
            && |out + f.copies| <= 8
            && (f.abandoned.Some? ==> |out + f.copies| == 8 && f.abandoned.value >= first + 79 * RTO_BASE)
  {
    NeverAckedIsSentAtMostSeven(SendTracked(t, flags, data, Wrap32(first)).0, events, first, first, first);
  }

  /** Polls come at most `gap` ticks apart, starting from `since`. */
  ghost predicate PolledWithin(events: seq<(Event, nat)>, since: nat, gap: nat)
    decreases |events|
  {
    events == [] ||
      if events[0].0 == DoPoll then events[0].1 <= since + gap && PolledWithin(events[1..], events[0].1, gap)
      else PolledWithin(events[1..], since, gap)
  }

  /** The last poll among the events, or `since`. */
  function LastPoll(events: seq<(Event, nat)>, since: nat): nat
    decreases |events|
  {
    if events == [] then since
    else LastPoll(events[1..], if events[0].0 == DoPoll then events[0].1 else since)
  }

  /** Ticks from the first transmission until `r` retries have been made, at the latest. */
  function LatestSend(r: nat, gap: nat): nat {
    if r == 0 then 0 else LatestSend(r - 1, gap) + Rto(r - 1) + gap
  }

  lemma TotalLatest(gap: nat)
    ensures LatestSend(MAX_RETRIES + 1, gap) == 79 * RTO_BASE + 8 * gap
  {
    assert LatestSend(1, gap) == RTO_BASE + gap;
    assert LatestSend(2, gap) == 3 * RTO_BASE + 2 * gap;
    assert LatestSend(4, gap) == 15 * RTO_BASE + 4 * gap;
    assert LatestSend(6, gap) == 47 * RTO_BASE + 6 * gap;
  }

  lemma {:induction false} LatestSendGrows(m: nat, n: nat, gap: nat)
    requires m <= n
    ensures LatestSend(m, gap) <= LatestSend(n, gap)
  {
    if m < n {
      LatestSendGrows(m, n - 1, gap);
    }
  }

  /** The `retries`-th copy was not late, and the last poll found it was too early for another. */
  ghost predicate OnTime(t: Tcb, first: nat, last: nat, polled: nat, gap: nat) {
    && 0 <= t.retries <= MAX_RETRIES && t.lastSend == Wrap32(last)
    && last <= polled < last + Rto(t.retries)
    && last <= first + LatestSend(t.retries, gap)
  }

  lemma PollIsInTime(t: Tcb, now: nat, first: nat, last: nat, polled: nat, gap: nat)
    requires Waiting(t) && OnTime(t, first, last, polled, gap)
    requires polled <= now <= polled + gap && gap + 16 * RTO_BASE < TWO_32
    ensures var u := Poll(t, Wrap32(now)).0;
            if u.state == Closed then now <= first + LatestSend(MAX_RETRIES + 1, gap)
            else Waiting(u) && OnTime(u, first, if u == t then last else now, now, gap)
  {
    TickDistance(now, last);
    assert now < last + Rto(t.retries) + gap;
    assert LatestSend(t.retries + 1, gap) == LatestSend(t.retries, gap) + Rto(t.retries) + gap;
  }

  lemma {:induction false} AbandonedInTime(t: Tcb, events: seq<(Event, nat)>, first: nat, last: nat, since: nat,
      polled: nat, gap: nat)
    requires Waiting(t) && OnTime(t, first, last, polled, gap) && polled <= since && Unanswered(t, events, since)
    requires PolledWithin(events, polled, gap) && gap + 16 * RTO_BASE < TWO_32
    ensures var f := FateOf(t, events);
            if f.abandoned.Some? then f.abandoned.value <= first + LatestSend(MAX_RETRIES + 1, gap)
            else LastPoll(events, polled) < first + LatestSend(MAX_RETRIES + 1, gap)
    decreases |events|
  {
    if events == [] {
      LatestSendGrows(t.retries + 1, MAX_RETRIES + 1, gap);
    } else {
      var (e, now) := events[0];
      var u := Step(t, e, Wrap32(now)).0;
      if e == DoPoll {
        PollIsInTime(t, now, first, last, polled, gap);
        if u.state != Closed {
          AbandonedInTime(u, events[1..], first, if u == t then last else now, now, now, gap);
        }
      } else {
        OnlyPollsRetransmit(t, e, Wrap32(now));
        AbandonedInTime(u, events[1..], first, last, now, polled, gap);
      }
    }
  }

  /** With polls at most `gap` ticks apart, the connection is abandoned within 79 * 366 ticks and eight gaps. */
  lemma AbandonedWithinEightGaps(t: Tcb, flags: Flags, data: seq<Byte>, first: nat, events: seq<(Event, nat)>, gap: nat)
    requires var u := SendTracked(t, flags, data, Wrap32(first)).0; Waiting(u) && Unanswered(u, events, first)
    requires PolledWithin(events, first, gap) && gap + 16 * RTO_BASE < TWO_32
    ensures var f := FateOf(SendTracked(t, flags, data, Wrap32(first)).0, events);
            if f.abandoned.Some? then f.abandoned.value <= first + 79 * RTO_BASE + 8 * gap
            else LastPoll(events, first) < first + 79 * RTO_BASE + 8 * gap
  {
    TotalLatest(gap);
    AbandonedInTime(SendTracked(t, flags, data, Wrap32(first)).0, events, first, first, first, first, gap);
  }

  // ----- opening

  /** Our SYN is outstanding and nothing has been received. */
  predicate Opening(t: Tcb, isn: uint32) {
    && t.state == SynSent && t.handler && t.txPending && t.txSeq == isn && t.txFlags == SYN && t.txData == []
    && t.sndNxt == Wrap32(isn + 1)
  }

  /** A connect puts one SYN on the network, or is refused on an open connection. */
  lemma ConnectSendsSyn(t: Tcb, ip: uint32, port: uint16, localPort: uint16, now: uint32)
    ensures var (u, out) := Connect(t, ip, port, localPort, now);
            if t.state != Closed then u == t && out == []
            else
              && (u.remoteIp, u.remotePort, u.localPort) == (ip, port, localPort) && Opening(u, u.txSeq)
              && out == [Sent(u.txSeq, 0, SYN, [])]
  {
  }

  /** The segment answers a SYN in the way section 3.4 of RFC 793 describes. */
  predicate IsSynAck(s: Segment) { s.flags.syn && s.flags.ack && !s.flags.rst }

  /**
   * The connection is established exactly by a SYN and ACK from the peer that
   * acknowledges anything but our initial number; it is then acknowledged at
   * once and reported once.  A reset ends it, and no other segment changes
   * anything.
   */
  lemma OpensExactlyWhen(t: Tcb, isn: uint32, srcIp: uint32, s: Segment, now: uint32)
    requires Opening(t, isn)
    ensures var (u, out) := HandleSegment(t, srcIp, s, now);
            && (u.state == Established <==> Ours(t, srcIp, s) && IsSynAck(s) && s.ackNo != isn)
            && (u.state == Established ==>
                  && u.rcvNxt == Wrap32(s.seqNo + 1) && u.sndNxt == Wrap32(isn + 1) && !u.txPending
                  && out == [Sent(Wrap32(isn + 1), Wrap32(s.seqNo + 1), ACK, []), EstablishedEvent])
            && (u.state == Closed <==> Ours(t, srcIp, s) && s.flags.rst)
            && (u.state == Closed ==> out == [ClosedEvent])
            && (u.state !in {Established, Closed} ==> u == t && out == [])
  {
    AckAccepted(t, Wrap32(s.ackNo - isn));
  }

  /** So an acknowledgement of something never sent opens the connection as well. */
  lemma AckOfNothingSentOpens(t: Tcb, isn: uint32, srcIp: uint32, s: Segment, now: uint32)
    requires Opening(t, isn) && Ours(t, srcIp, s) && IsSynAck(s) && s.ackNo == Wrap32(isn + 1000)
    ensures HandleSegment(t, srcIp, s, now).0.state == Established
  {
    OpensExactlyWhen(t, isn, srcIp, s, now);
  }

  /** A segment without the ACK flag acknowledges nothing, whatever number it carries. */
  lemma NoAckFlagNoAck(t: Tcb, srcIp: uint32, s: Segment, now: uint32)
    requires t.txPending && !s.flags.ack && !s.flags.rst
    ensures var u := HandleSegment(t, srcIp, s, now).0;
            u.txPending && u.sndUna == t.sndUna && SameSegment(t, u)
  {
  }

  /** In every open state a reset ends the connection, and the application hears of it once. */
  lemma ResetEndsConnection(t: Tcb, srcIp: uint32, s: Segment, now: uint32)
    requires Ours(t, srcIp, s) && s.flags.rst
    ensures var (u, out) := HandleSegment(t, srcIp, s, now);
            u.state == Closed && !u.txPending && !u.handler && out == if t.handler then [ClosedEvent] else []
  {
  }

  /** An abort resets the peer, silently for the application; a closed connection sends nothing. */
  lemma AbortResetsPeer(t: Tcb)
    ensures var (u, out) := Abort(t);
            && u.state == Closed && !u.txPending && !u.handler
            && out == if t.state == Closed then [] else [Sent(t.sndNxt, t.rcvNxt, RST, [])]
  {
  }

  /** Segments of a closed or another connection change nothing. */
  lemma StrangersAreIgnored(t: Tcb, srcIp: uint32, s: Segment, now: uint32)
    requires || t.state == Closed || srcIp != t.remoteIp || s.srcPort != t.remotePort || s.dstPort != t.localPort
    ensures HandleSegment(t, srcIp, s, now) == (t, [])
  {
  }

  // ----- closing

  /** The segment acknowledges a FIN sent as the next sequence number of `t`. */
  predicate AcksFin(t: Tcb, s: Segment) {
    s.flags.ack && s.ackNo == Wrap32(t.sndNxt + 1)
  }

  /** What a peer may acknowledge once our FIN is on its way: everything before it, or the FIN as well. */
  predicate PlausibleAck(t: Tcb, s: Segment) {
    s.flags.ack ==> s.ackNo == t.sndNxt || s.ackNo == Wrap32(t.sndNxt + 1)
  }

  /** After an active close: first the acknowledgement of our FIN, then the peer's FIN. */
  lemma AckThenFinCloses(t: Tcb, srcIp: uint32, a: Segment, f: Segment, now: uint32, later: uint32)
    requires MaySend(t, []) && Ours(t, srcIp, a) && Ours(t, srcIp, f) && !a.flags.rst && !f.flags.rst
    requires AcksFin(t, a) && !a.flags.fin && f.flags.fin
    ensures var half := HandleSegment(CloseActive(t, now).0, srcIp, a, now).0;
            var (u, out) := HandleSegment(half, srcIp, f, later);
            && half.state == FinWait2 && u.state == TimeWait && !u.txPending
            && u.timeWaitStart == later && u.rcvNxt == Wrap32(f.seqNo + 1) && out == [SendAck(u)]
  {
  }

  /**
   * Or the peer's FIN first, alone or with the acknowledgement of ours: the
   * connection ends in TIME_WAIT all the same, and the FIN is acknowledged.
   */
  lemma FinThenAckCloses(t: Tcb, srcIp: uint32, f: Segment, a: Segment, now: uint32, later: uint32)
    requires MaySend(t, []) && Ours(t, srcIp, a) && Ours(t, srcIp, f) && !a.flags.rst && !f.flags.rst
    requires AcksFin(t, a) && f.flags.fin && PlausibleAck(t, f)
    ensures var (half, out) := HandleSegment(CloseActive(t, now).0, srcIp, f, now);
            var u := HandleSegment(half, srcIp, a, later).0;
            && half.rcvNxt == Wrap32(f.seqNo + 1) && out == [SendAck(half)]
            && half.state == (if AcksFin(t, f) then TimeWait else Closing)
            && u.state == TimeWait && !u.txPending && u.rcvNxt == half.rcvNxt
  {
    var closing := CloseActive(t, now).0;
    assert closing.state == FinWait1 && Consumed(closing.txFlags, closing.txData) == 1;
  }

  /** An active close sends one FIN, at the next sequence number. */
  lemma CloseSendsFin(t: Tcb, now: uint32)
    ensures var (u, out) := CloseActive(t, now);
            if t.state == Established && !t.txPending then
              u.state == FinWait1 && u.sndNxt == Wrap32(t.sndNxt + 1) && out == [Sent(t.sndNxt, t.rcvNxt, FIN_ACK, [])]
            else u == t && out == []
  {
  }

  /** A FIN that is repeated because our acknowledgement was lost is acknowledged again. */
  lemma TimeWaitAnswersFin(t: Tcb, srcIp: uint32, s: Segment, now: uint32)
    requires t.state == TimeWait && Ours(t, srcIp, s) && !s.flags.rst
    ensures HandleSegment(t, srcIp, s, now) ==
            (t, if s.flags.fin then [Sent(t.sndNxt, t.rcvNxt, ACK, [])] else [])
  {
  }

  /** TIME_WAIT outlasts everything but a reset, an abort, and a poll after 2196 ticks. */
  lemma TimeWaitEnds(t: Tcb, e: Event, now: uint32)
    requires t.state == TimeWait
    ensures var u := Step(t, e, now).0;
            if e == DoAbort || (e.Arrives? && Ours(t, e.srcIp, e.s) && e.s.flags.rst)
               || (e == DoPoll && Wrap32(now - t.timeWaitStart) >= TIME_WAIT_TICKS)
            then u == Reset(t) else u == t
  {
  }

  /**
   * A peer that closes first is answered with our own FIN at once, the
   * application hears of it once, and the acknowledgement ends the connection.
   */
  lemma PassiveCloseCompletes(t: Tcb, srcIp: uint32, f: Segment, a: Segment, now: uint32, later: uint32)
    requires MaySend(t, []) && t.handler && Ours(t, srcIp, f) && Ours(t, srcIp, a)
    requires f.flags.fin && !f.flags.rst && f.data == [] && f.seqNo == t.rcvNxt
    requires AcksFin(t, a) && !a.flags.rst
    ensures var (u, out) := HandleSegment(t, srcIp, f, now);
            && u.state == LastAck && u.rcvNxt == Wrap32(t.rcvNxt + 1)
            && out == [SendAck(t.(rcvNxt := u.rcvNxt)), Sent(t.sndNxt, u.rcvNxt, FIN_ACK, []), ClosedEvent]
            && HandleSegment(u, srcIp, a, later) == (Reset(u.(sndUna := u.sndNxt)), [])
  {
  }
}
