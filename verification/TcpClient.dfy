/**
 * The mutable side of sw/apps/net/tcp.c: the one static control block, changed
 * field by field, the static packet buffer, and the bytes on the wire.  Every
 * method is proved against the value-level operation of module `Tcp`.
 */
module TcpClient {
  import opened Words
  import opened Tcp
  import Checksum

  // ----- the bytes of a segment

  function FlagByte(f: Flags): (b: Byte) {
    (if f.fin then 1 else 0) + (if f.syn then 2 else 0) + (if f.rst then 4 else 0)
      + (if f.psh then 8 else 0) + (if f.ack then 16 else 0)
  }

  lemma FlagsRoundTrip(f: Flags)
    ensures FlagsOf(FlagByte(f)) == f
  {
  }

  /** The 20-byte header, its checksum field still zero. */
  function Header(local: uint16, remote: uint16, seqNo: uint32, ackNo: uint32, flags: Flags): (h: seq<Byte>)
    ensures |h| == HDR_LEN && h[16] == 0 && h[17] == 0
  {
    Checksum.BigEndian16(local) + Checksum.BigEndian16(remote)
      + Checksum.BigEndian32(seqNo) + Checksum.BigEndian32(ackNo)
      + [0x50, FlagByte(flags)] + Checksum.BigEndian16(2048) + [0, 0, 0, 0]
  }

  function SegmentChecksum(srcIp: uint32, dstIp: uint32, seg: seq<Byte>): uint16
    requires |seg| < TWO_16
  {
    Checksum.Complement(Checksum.OnesSum(Checksum.Norm(Checksum.PseudoHeader(srcIp, dstIp, |seg|)), seg))
  }

  /** What tcp_send_segment hands to the IP layer. */
  function Wire(ourIp: uint32, remoteIp: uint32, s: Segment): (w: seq<Byte>)
    requires |s.data| <= MAX_PAYLOAD
    ensures |w| == HDR_LEN + |s.data|
  {
    var seg := Header(s.srcPort, s.dstPort, s.seqNo, s.ackNo, s.flags) + s.data;
    Checksum.Store(seg, 16, SegmentChecksum(ourIp, remoteIp, seg))
  }

  /** A receiver that runs the same parser reads back the segment that was meant. */
  lemma WireParsesBack(ourIp: uint32, remoteIp: uint32, s: Segment)
    requires |s.data| <= MAX_PAYLOAD
    ensures Parse(Wire(ourIp, remoteIp, s)) == Some(s)
  {
    var w := Wire(ourIp, remoteIp, s);
    var h := Header(s.srcPort, s.dstPort, s.seqNo, s.ackNo, s.flags);
    assert w[..16] == h[..16];
    FlagsRoundTrip(s.flags);
    assert w[13] == FlagByte(s.flags) && w[12] == 0x50;
    assert w[20..] == s.data;
    assert Be16(w, 0) == Be16(h, 0) == s.srcPort;
    assert Be16(w, 2) == Be16(h, 2) == s.dstPort;
    assert Be32(w, 4) == Be32(h, 4) == s.seqNo;
    assert Be32(w, 8) == Be32(h, 8) == s.ackNo;
  }

  /** Every field is where section 3.1 of RFC 793 puts it. */
  lemma WireLayout(ourIp: uint32, remoteIp: uint32, s: Segment)
    requires |s.data| <= MAX_PAYLOAD
    ensures var w := Wire(ourIp, remoteIp, s);
            && Checksum.Field16(w, 0) == s.srcPort && Checksum.Field16(w, 2) == s.dstPort
            && Checksum.Field32(w, 4) == s.seqNo && Checksum.Field32(w, 8) == s.ackNo
            && w[12] as int / 16 * 4 == 20 && Checksum.Field16(w, 14) == 2048 && Checksum.Field16(w, 18) == 0
            && (BitSet(w[13], 1) <==> s.flags.fin) && (BitSet(w[13], 2) <==> s.flags.syn)
            && (BitSet(w[13], 4) <==> s.flags.rst) && (BitSet(w[13], 8) <==> s.flags.psh)
            && (BitSet(w[13], 16) <==> s.flags.ack) && w[13] < 32
            && w[20..] == s.data
  {
    var w, h := Wire(ourIp, remoteIp, s), Header(s.srcPort, s.dstPort, s.seqNo, s.ackNo, s.flags);
    assert w[..16] == h[..16] && w[18..20] == h[18..20] && w[20..] == s.data;
    HeaderLayout(s.srcPort, s.dstPort, s.seqNo, s.ackNo, s.flags);
    SameHeader(w, h);
    FlagsRoundTrip(s.flags);
  }

  /** Two packets that differ in their checksums at most. */
  lemma SameHeader(w: seq<Byte>, h: seq<Byte>)
    requires |w| >= 20 && |h| >= 20 && w[..16] == h[..16] && w[18..20] == h[18..20]
    ensures forall i: nat | i < 16 || 18 <= i < 20 :: w[i] == h[i]
  {
    forall i: nat | i < 16 || 18 <= i < 20 ensures w[i] == h[i] {
      assert if i < 16 then w[..16][i] == h[..16][i] else w[18..20][i - 18] == h[18..20][i - 18];
    }
  }

  lemma HeaderLayout(local: uint16, remote: uint16, seqNo: uint32, ackNo: uint32, flags: Flags)
    ensures var h := Header(local, remote, seqNo, ackNo, flags);
            && Checksum.Field16(h, 0) == local && Checksum.Field16(h, 2) == remote
            && Checksum.Field32(h, 4) == seqNo && Checksum.Field32(h, 8) == ackNo
            && h[12] == 0x50 && h[13] == FlagByte(flags) && Checksum.Field16(h, 14) == 2048 && h[18] == h[19] == 0
  {
  }

  /** And its checksum over the pseudo-header comes out as zero. */
  lemma WireVerifies(ourIp: uint32, remoteIp: uint32, s: Segment)
    requires |s.data| <= MAX_PAYLOAD
    ensures SegmentChecksum(ourIp, remoteIp, Wire(ourIp, remoteIp, s)) == 0
  {
    var seg := Header(s.srcPort, s.dstPort, s.seqNo, s.ackNo, s.flags) + s.data;
    Checksum.TcpSegmentVerifies(ourIp, remoteIp, seg);
  }

  // ----- the control block

  class Client {
    const ourIp: uint32
    var nextLocalPort: uint16
    var state: State
    var remoteIp: uint32
    var remotePort: uint16
    var localPort: uint16
    var sndUna: uint32
    var sndNxt: uint32
    var rcvNxt: uint32
    var txPending: bool
    var txSeq: uint32
    var txFlags: Flags
    var txLen: uint16
    const txBuf: array<Byte>
    ghost var txData: seq<Byte>   // the used part of txBuf
    var lastSend: uint32
    var retries: int
    var timeWaitStart: uint32
    var handler: bool
    const pkt: array<Byte>   // the static packet of tcp_send_segment
    var log: seq<Output>     // what reached the IP layer and the handler

    ghost predicate Valid()
      reads this, txBuf
    {
      && txBuf.Length == MAX_PAYLOAD && pkt.Length == HDR_LEN + MAX_PAYLOAD && txBuf != pkt
      && txLen <= MAX_PAYLOAD && txData == txBuf[..txLen]
    }

    ghost function View(): Tcb
      reads this
    {
      Tcb(state, remoteIp, remotePort, localPort, sndUna, sndNxt, rcvNxt, txPending, txSeq, txFlags, txData,
          lastSend, retries, timeWaitStart, handler)
    }

    /** tcp_init */
    constructor (ip: uint32, now: uint32)
      ensures Valid() && state == Closed && !txPending && !handler && log == [] && ourIp == ip
      ensures 49152 <= nextLocalPort && fresh(txBuf) && fresh(pkt)
    {
      ourIp, state, txPending, handler := ip, Closed, false, false;
      nextLocalPort := 49152 + now % 16384;
      remoteIp, remotePort, localPort, sndUna, sndNxt, rcvNxt := 0, 0, 0, 0, 0, 0;
      txSeq, txFlags, txLen, lastSend, retries, timeWaitStart := 0, ACK, 0, 0, 0, 0;
      txBuf := new Byte[MAX_PAYLOAD];
      txData := [];
      pkt := new Byte[HDR_LEN + MAX_PAYLOAD];
      log := [];
    }

    /** tcp_send_segment: the packet buffer holds the segment; nothing else changes. */
    method SendSegment(seqNo: uint32, flags: Flags, data: seq<Byte>)
      requires Valid() && |data| <= MAX_PAYLOAD
      modifies `log, pkt
      ensures Valid() && View() == old(View())
      ensures pkt[..HDR_LEN + |data|]
              == Wire(ourIp, remoteIp, Segment(localPort, remotePort, seqNo, rcvNxt, flags, data))
      ensures log == old(log) + [Emit(View(), seqNo, flags, data)]
    {
      Checksum.CopyInto(pkt, 0, Header(localPort, remotePort, seqNo, rcvNxt, flags));
      Checksum.CopyInto(pkt, HDR_LEN, data);
      ghost var seg := Header(localPort, remotePort, seqNo, rcvNxt, flags) + data;
      assert pkt[..HDR_LEN + |data|] == seg;
      var csum := Checksum.TcpChecksum(ourIp, remoteIp, pkt[..HDR_LEN + |data|]);
      pkt[16] := csum / 256;
      pkt[17] := csum % 256;
      assert pkt[..HDR_LEN + |data|] == Checksum.Store(seg, 16, csum);
      log := log + [Sent(seqNo, rcvNxt, flags, data)];
    }

    /** The second half of send_tracked: the segment is kept for retransmission. */
    method Remember(seqNo: uint32, flags: Flags, data: seq<Byte>, now: uint32)
      requires Valid() && |data| <= MAX_PAYLOAD
      modifies `txPending, `txSeq, `txFlags, `txLen, `txData, `lastSend, `retries, txBuf
      ensures Valid()
      ensures View() == old(View()).(txPending := true, txSeq := seqNo, txFlags := flags, txData := data,
                                     lastSend := now, retries := 0)
    {
      KeepData(data);
      txPending, txSeq, txFlags := true, seqNo, flags;
      RestartTimer(now, 0);
    }

    method KeepData(data: seq<Byte>)
      requires Valid() && |data| <= MAX_PAYLOAD
      modifies `txLen, `txData, txBuf
      ensures Valid() && View() == old(View()).(txData := data)
    {
      Checksum.CopyInto(txBuf, 0, data);
      txLen, txData := |data|, data;
    }

    method RestartTimer(now: uint32, count: int)
      requires Valid()
      modifies `lastSend, `retries
      ensures Valid() && View() == old(View()).(lastSend := now, retries := count)
    {
      lastSend, retries := now, count;
    }

    /** send_tracked: send, remember the segment for retransmission, advance snd_nxt. */
    method Track(flags: Flags, data: seq<Byte>, now: uint32)
      requires Valid() && |data| <= MAX_PAYLOAD
      modifies this, txBuf, pkt
      ensures Valid() && nextLocalPort == old(nextLocalPort)
      ensures View() == SendTracked(old(View()), flags, data, now).0
      ensures log == old(log) + SendTracked(old(View()), flags, data, now).1
    {
      var seqNo := sndNxt;
      SendSegment(seqNo, flags, data);
      Remember(seqNo, flags, data, now);
      var consumed := |data|;
      if flags.syn { consumed := consumed + 1; }
      if flags.fin { consumed := consumed + 1; }
      sndNxt := Wrap32(sndNxt + consumed);
    }

    method ResetToClosed()
      requires Valid()
      modifies `state, `txPending, `handler
      ensures Valid() && View() == Reset(old(View()))
    {
      state, txPending, handler := Closed, false, false;
    }

    method EnterTimeWait(now: uint32)
      requires Valid()
      modifies `state, `timeWaitStart
      ensures Valid() && View() == old(View()).(state := TimeWait, timeWaitStart := now)
    {
      state, timeWaitStart := TimeWait, now;
    }

    method NotifyHandler(e: Output)
      requires Valid()
      modifies `log
      ensures Valid() && View() == old(View())
      ensures log == old(log) + (if handler then [e] else [])
    {
      if handler {
        log := log + [e];
      }
    }

    /** tcp_connect */
    method ConnectTo(ip: uint32, port: uint16, now: uint32) returns (ok: bool)
      requires Valid()
      modifies this, txBuf, pkt
      ensures Valid() && ok == (old(state) == Closed)
      ensures View() == Connect(old(View()), ip, port, old(nextLocalPort), now).0
      ensures log == old(log) + Connect(old(View()), ip, port, old(nextLocalPort), now).1
      ensures old(state) == Closed ==> nextLocalPort != 0
    {
      if state != Closed { return false; }
      remoteIp, remotePort := ip, port;
      TakeLocalPort();
      StartFrom(Wrap32(now * 2654435761));
      Track(SYN, [], now);
      ok := true;
    }

    /** The next local port; the counter wraps past port 0. */
    method TakeLocalPort()
      requires Valid()
      modifies `localPort, `nextLocalPort
      ensures Valid() && View() == old(View()).(localPort := old(nextLocalPort))
      ensures nextLocalPort == if old(nextLocalPort) == TWO_16 - 1 then 49152 else old(nextLocalPort) + 1
    {
      localPort := nextLocalPort;
      nextLocalPort := if nextLocalPort == TWO_16 - 1 then 49152 else nextLocalPort + 1;
    }

    /** The sequence numbers and the state of a connection about to send its SYN. */
    method StartFrom(isn: uint32)
      requires Valid()
      modifies `sndUna, `sndNxt, `rcvNxt, `handler, `txPending, `state
      ensures Valid()
      ensures View() == old(View()).(sndUna := isn, sndNxt := isn, rcvNxt := 0, handler := true, txPending := false,
                                     state := SynSent)
    {
      sndUna, sndNxt, rcvNxt, handler, txPending := isn, isn, 0, true, false;
      state := SynSent;
    }

    /** tcp_send */
    method SendBytes(data: seq<Byte>, now: uint32) returns (ok: bool)
      requires Valid()
      modifies this, txBuf, pkt
      ensures Valid() && ok == MaySend(old(View()), data)
      ensures View() == Send(old(View()), data, now).0 && log == old(log) + Send(old(View()), data, now).1
    {
      if state != Established || txPending || |data| > MAX_PAYLOAD { return false; }
      Track(PSH_ACK, data, now);
      ok := true;
    }

    /** tcp_close */
    method CloseConnection(now: uint32) returns (ok: bool)
      requires Valid()
      modifies this, txBuf, pkt
      ensures Valid() && ok == MaySend(old(View()), [])
      ensures View() == CloseActive(old(View()), now).0 && log == old(log) + CloseActive(old(View()), now).1
    {
      if state != Established || txPending { return false; }
      Track(FIN_ACK, [], now);
      state := FinWait1;
      ok := true;
    }

    /** tcp_abort */
    method AbortConnection()
      requires Valid()
      modifies this, pkt
      ensures Valid() && View() == Abort(old(View())).0 && log == old(log) + Abort(old(View())).1
    {
      if state != Closed { SendSegment(sndNxt, RST, []); }
      ResetToClosed();
    }

    /** process_ack */
    method AcceptAck(ackNo: uint32) returns (acked: bool)
      requires Valid()
      modifies `sndUna, `txPending
      ensures Valid() && (View(), acked) == ProcessAck(old(View()), ackNo)
    {
      if !txPending { return false; }
      var consumed: int := txLen;
      if txFlags.syn { consumed := consumed + 1; }
      if txFlags.fin { consumed := consumed + 1; }
      if Wrap32(ackNo - txSeq) < consumed { return false; }
      sndUna := Wrap32(txSeq + consumed);
      txPending := false;
      acked := true;
    }

    method AnswerSynAck(s: Segment)
      requires Valid()
      modifies this, pkt
      ensures Valid() && View() == HandleSynSent(old(View()), s).0
      ensures log == old(log) + HandleSynSent(old(View()), s).1
    {
      if !s.flags.syn || !s.flags.ack { return; }
      var acked := AcceptAck(s.ackNo);
      if !acked { return; }
      rcvNxt := Wrap32(s.seqNo + 1);
      state := Established;
      SendSegment(sndNxt, ACK, []);
      NotifyHandler(EstablishedEvent);
    }

    method TakeData(s: Segment)
      requires Valid()
      modifies `rcvNxt, `log, pkt
      ensures View() == ReceiveData(old(View()), s).0 && log == old(log) + ReceiveData(old(View()), s).1
    {
      if |s.data| > 0 {
        if s.seqNo == rcvNxt {
          rcvNxt := Wrap32(rcvNxt + |s.data|);
          SendSegment(sndNxt, ACK, []);
          NotifyHandler(DataEvent(s.data));
        } else if s.seqNo < rcvNxt {
          SendSegment(sndNxt, ACK, []);
        }
      }
    }

    /** Our own FIN, unless a segment is outstanding. */
    method AnswerFin(now: uint32)
      requires Valid()
      modifies this, txBuf, pkt
      ensures Valid()
      ensures var (v, out) := if old(txPending) then (old(View()), []) else SendTracked(old(View()), FIN_ACK, [], now);
              View() == v.(state := LastAck) && log == old(log) + (out + Notify(old(View()), ClosedEvent))
    {
      if !txPending { Track(FIN_ACK, [], now); }
      state := LastAck;
      NotifyHandler(ClosedEvent);
    }

    method TakeFin(s: Segment, now: uint32)
      requires Valid()
      modifies this, txBuf, pkt
      ensures Valid() && View() == ReceiveFin(old(View()), s, now).0
      ensures log == old(log) + ReceiveFin(old(View()), s, now).1
    {
      if s.flags.fin {
        var finSeq := Wrap32(s.seqNo + |s.data|);
        if finSeq == rcvNxt {
          rcvNxt := Wrap32(rcvNxt + 1);
          SendSegment(sndNxt, ACK, []);
          AnswerFin(now);
        }
      }
    }

    method ContinueEstablished(s: Segment, now: uint32)
      requires Valid()
      modifies this, txBuf, pkt
      ensures Valid() && View() == HandleEstablished(old(View()), s, now).0
      ensures log == old(log) + HandleEstablished(old(View()), s, now).1
    {
      if s.flags.ack {
        var _ := AcceptAck(s.ackNo);
      }
      TakeData(s);
      TakeFin(s, now);
    }

    method ContinueFinWait1(s: Segment, now: uint32)
      requires Valid()
      modifies this, pkt
      ensures Valid() && View() == HandleFinWait1(old(View()), s, now).0
      ensures log == old(log) + HandleFinWait1(old(View()), s, now).1
    {
      var acked := false;
      if s.flags.ack { acked := AcceptAck(s.ackNo); }
      if s.flags.fin {
        rcvNxt := Wrap32(s.seqNo + 1);
        SendSegment(sndNxt, ACK, []);
        if acked { EnterTimeWait(now); } else { state := Closing; }
      } else if acked {
        state := FinWait2;
      }
    }

    /** FIN_WAIT_2: only the peer's FIN matters. */
    method AwaitFin(s: Segment, now: uint32)
      requires Valid() && state == FinWait2
      modifies this, pkt
      ensures Valid() && View() == HandleOther(old(View()), s, now).0
      ensures log == old(log) + HandleOther(old(View()), s, now).1
    {
      if s.flags.fin {
        rcvNxt := Wrap32(s.seqNo + 1);
        SendSegment(sndNxt, ACK, []);
        EnterTimeWait(now);
      }
    }

    /** CLOSING and LAST_ACK: only the acknowledgement of our FIN matters. */
    method AwaitAck(s: Segment, now: uint32)
      requires Valid() && (state == Closing || state == LastAck)
      modifies this, pkt
      ensures Valid() && View() == HandleOther(old(View()), s, now).0
      ensures log == old(log) + HandleOther(old(View()), s, now).1
    {
      if s.flags.ack {
        var acked := AcceptAck(s.ackNo);
        if acked && state == Closing {
          EnterTimeWait(now);
        } else if acked {
          ResetToClosed();
        }
      }
    }

    method ContinueClosing(s: Segment, now: uint32)
      requires Valid()
      modifies this, pkt
      ensures Valid() && View() == HandleOther(old(View()), s, now).0
      ensures log == old(log) + HandleOther(old(View()), s, now).1
    {
      match state {
        case FinWait2 => AwaitFin(s, now);
        case Closing => AwaitAck(s, now);
        case LastAck => AwaitAck(s, now);
        case TimeWait =>
          if s.flags.fin { SendSegment(sndNxt, ACK, []); }
        case _ =>
      }
    }

    /** tcp_handle */
    method HandlePacket(srcIp: uint32, p: seq<Byte>, now: uint32)
      requires Valid() && |p| < TWO_16
      modifies this, txBuf, pkt
      ensures Valid() && View() == Handle(old(View()), srcIp, p, now).0
      ensures log == old(log) + Handle(old(View()), srcIp, p, now).1
    {
      if state == Closed || |p| < HDR_LEN { return; }
      var s := Segment(Be16(p, 0), Be16(p, 2), Be32(p, 4), Be32(p, 8), FlagsOf(p[13]), []);
      if srcIp != remoteIp || s.srcPort != remotePort || s.dstPort != localPort { return; }
      var offset := p[12] as int / 16 * 4;
      if offset < HDR_LEN || offset > |p| { return; }
      s := s.(data := p[offset..]);
      assert Parse(p) == Some(s);
      Dispatch(srcIp, s, now);
    }

    method Dispatch(ghost srcIp: uint32, s: Segment, now: uint32)
      requires Valid() && Ours(View(), srcIp, s)
      modifies this, txBuf, pkt
      ensures Valid() && View() == HandleSegment(old(View()), srcIp, s, now).0
      ensures log == old(log) + HandleSegment(old(View()), srcIp, s, now).1
    {
      if s.flags.rst {
        NotifyHandler(ClosedEvent);
        ResetToClosed();
        return;
      }
      if state == SynSent {
        AnswerSynAck(s);
      } else if state == Established {
        ContinueEstablished(s, now);
      } else if state == FinWait1 {
        ContinueFinWait1(s, now);
      } else {
        ContinueClosing(s, now);
      }
    }

    /** tcp_poll */
    method PollTimer(now: uint32)
      requires Valid()
      modifies this, pkt
      ensures Valid() && View() == Poll(old(View()), now).0 && log == old(log) + Poll(old(View()), now).1
    {
      if state == Closed { return; }
      if state == TimeWait {
        if Wrap32(now - timeWaitStart) >= TIME_WAIT_TICKS { ResetToClosed(); }
        return;
      }
      if !txPending { return; }
      var rto := Rto(retries);
      if Wrap32(now - lastSend) < rto { return; }
      if retries >= MAX_RETRIES {
        NotifyHandler(ClosedEvent);
        ResetToClosed();
        return;
      }
      SendSegment(txSeq, txFlags, txBuf[..txLen]);
      RestartTimer(now, retries + 1);
    }
  }
}
