/**
 * The acknowledged data path of sw/common/zport.c.  A DATA message carries only
 * the address of a blob in the sender's heap; the sender may free that blob
 * once the receiver has acknowledged it, and acknowledgements are matched to
 * blobs by order alone.  The model proves that this never frees a blob too
 * early, in every interleaving of the two processes and of unrelated traffic,
 * even when acknowledgements are lost.
 */
module Port {
  import opened Words
  import opened Mailbox

  const MAX_PENDING: int := 8
  const SUBJECT_DATA: uint32 := 123
  const SUBJECT_ACK: uint32 := 125

  /** z_msg_envelope_t; `blob` is the payload header's address in the sender's memory. */
  datatype Envelope = Envelope(from: uint32, subject: uint32, tag: uint32, blob: Option<int>)

  type Addr = int
  type Heap = map<Addr, seq<Byte>>

  /** z_port_t as a value: `pending` lists the unacknowledged blobs, oldest first. */
  datatype PortState = PortState(self: uint32, peer: uint32, connId: uint32, connected: bool, pending: seq<Addr>)

  function DataMsg(p: PortState, a: Addr): Envelope {
    Envelope(p.self, SUBJECT_DATA, p.connId, Some(a))
  }

  function AckMsg(from: uint32, tag: uint32): Envelope {
    Envelope(from, SUBJECT_ACK, tag, None)
  }

  /** z_port_handle_ack: frees the oldest pending blob, whatever the message says. */
  function HandleAck(p: PortState, heap: Heap, m: Envelope): (PortState, Heap) {
    if !Frees(p, m) then (p, heap)
    else (p.(pending := p.pending[1..]), heap - {p.pending[0]})
  }

  predicate Frees(p: PortState, m: Envelope) {
    p.connected && m.tag == p.connId && p.pending != []
  }

  /** z_port_send's checks before it allocates anything. */
  predicate MaySend(p: PortState) {
    p.connected && |p.pending| < MAX_PENDING
  }

  /**
   * z_port_send, run without interruption: `alloc` is what the allocator
   * returns, `peerAlive` whether the peer's process slot is in use.
   */
  function Send(p: PortState, heap: Heap, mailbox: seq<Envelope>, data: seq<Byte>, alloc: Option<Addr>,
      peerAlive: bool):
      (PortState, Heap, seq<Envelope>, bool)
  {
    if !MaySend(p) || alloc == None then (p, heap, mailbox, false)
    else
      var (q, ok) := Push(mailbox, DataMsg(p, alloc.value));
      if !peerAlive || !ok then (p, heap - {alloc.value}, mailbox, false)
      else (p.(pending := p.pending + [alloc.value]), heap[alloc.value := data], q, true)
  }

  // ----- the code

  class SenderPort {
    const self: uint32
    var peer: uint32
    var connId: uint32
    var connected: bool
    const slots: array<Addr>   // pending[]
    var head: int              // pending_head
    var count: int             // pending_count
    var heap: Heap
    ghost var pending: seq<Addr>

    static function Slot(head: int, i: int): int {
      if head + i < MAX_PENDING then head + i else head + i - MAX_PENDING
    }

    ghost predicate Valid()
      reads this, slots
    {
      && slots.Length == MAX_PENDING && 0 <= head < MAX_PENDING && 0 <= count <= MAX_PENDING
      && |pending| == count
      && forall i | 0 <= i < count :: slots[Slot(head, i)] == pending[i]
    }

    ghost function View(): PortState
      reads this
    {
      PortState(self, peer, connId, connected, pending)
    }

    /** z_port_accept, or z_port_connect after CONNECTED arrived. */
    constructor (self: uint32, peer: uint32, connId: uint32)
      ensures Valid() && View() == PortState(self, peer, connId, true, []) && heap == map[] && fresh(slots)
    {
      this.self, this.peer, this.connId, connected := self, peer, connId, true;
      slots := new Addr[MAX_PENDING];
      head, count, pending, heap := 0, 0, [], map[];
    }

    /** z_port_send */
    method SendData(data: seq<Byte>, alloc: Option<Addr>, peerAlive: bool, mailbox: Ring<Envelope>) returns (ok: bool)
      requires Valid() && mailbox.Valid() && slots.Length == MAX_PENDING
      requires alloc.Some? ==> alloc.value !in heap
      modifies this, slots, mailbox, mailbox.msgs
      ensures Valid() && mailbox.Valid()
      ensures (View(), heap, mailbox.queue, ok)
              == Send(old(View()), old(heap), old(mailbox.queue), data, alloc, peerAlive)
    {
      if !connected || count >= MAX_PENDING || alloc == None {
        return false;
      }
      var a := alloc.value;
      heap := heap[a := data];
      ok := peerAlive;
      if peerAlive {
        ok := mailbox.PushMessage(Envelope(self, SUBJECT_DATA, connId, Some(a)));
      }
      if !ok {
        heap := heap - {a};
        assert heap == old(heap) - {a};
        return;
      }
      Remember(a);
    }

    /** Appends to the ring of pending blobs. */
    method Remember(a: Addr)
      requires Valid() && count < MAX_PENDING
      modifies this`count, this`pending, slots
      ensures Valid() && pending == old(pending) + [a]
    {
      slots[(head + count) % MAX_PENDING] := a;
      count := count + 1;
      pending := pending + [a];
    }

    /** z_port_handle_ack */
    method HandleAckMessage(m: Envelope)
      requires Valid()
      modifies this
      ensures Valid()
      ensures (View(), heap) == HandleAck(old(View()), old(heap), m)
    {
      if !connected || m.tag != connId || count == 0 {
        return;
      }
      heap := heap - {slots[head]};
      head := (head + 1) % MAX_PENDING;
      count := count - 1;
      pending := pending[1..];
    }

    /** z_port_close, apart from the CLOSE message. */
    method Close()
      requires Valid()
      modifies this`connected
      ensures Valid() && View() == old(View()).(connected := false) && heap == old(heap)
    {
      connected := false;
    }
  }

  const ACK_RETRY_TICKS: int := 732 / 2

  /** The retry window of z_port_send_ack is over at this clock reading. */
  predicate WindowOver(start: uint32, now: uint32) {
    Wrap32(now - start) >= ACK_RETRY_TICKS
  }

  /**
   * z_port_send_ack: tries until the mailbox of the sender takes the message or
   * the window is over.  `taken[i]` is what the i-th attempt returns and
   * `clock[i]` the tick count after it.
   */
  method SendAck(isBlob: bool, start: uint32, taken: seq<bool>, clock: seq<uint32>) returns (sent: bool, tries: nat)
    requires |taken| == |clock| && exists i | 0 <= i < |taken| :: taken[i] || WindowOver(start, clock[i])
    ensures !isBlob ==> !sent && tries == 0
    ensures isBlob ==> 0 < tries <= |taken| && (sent <==> taken[tries - 1])
    ensures isBlob && !sent ==> WindowOver(start, clock[tries - 1])
    ensures forall j | 0 <= j < tries - 1 :: !taken[j] && !WindowOver(start, clock[j])
  {
    sent, tries := false, 0;
    if !isBlob {
      return;
    }
    while true
      invariant !sent && 0 <= tries < |taken|
      invariant forall j | 0 <= j < tries :: !taken[j] && !WindowOver(start, clock[j])
      decreases |taken| - tries
    {
      sent := taken[tries];
      tries := tries + 1;
      if sent || Wrap32(clock[tries - 1] - start) >= ACK_RETRY_TICKS {
        return;
      }
    }
  }

  /** A port that is not connected sends nothing and frees nothing. */
  lemma ClosedPortIsInert(p: PortState, heap: Heap, mailbox: seq<Envelope>, data: seq<Byte>, alloc: Option<Addr>,
      peerAlive: bool, m: Envelope)
    requires !p.connected
    ensures Send(p, heap, mailbox, data, alloc, peerAlive) == (p, heap, mailbox, false)
    ensures HandleAck(p, heap, m) == (p, heap)
  {
  }

  // ----- sender, receiver and everyone else, interleaved

  /** Where the sender is inside z_port_send; it can be preempted at each point. */
  datatype Sender = Ready | Built(a: Addr) | Pushed(a: Addr)

  /** Where the receiver is between z_msg_read and the end of z_port_send_ack. */
  datatype Receiver = Waiting | Reading(a: Addr, copied: seq<Byte>) | Acking

  datatype System = System(
    port: PortState, heap: Heap, sender: Sender,
    toReceiver: seq<Envelope>, toSender: seq<Envelope>, receiver: Receiver,
    ghost sent: seq<seq<Byte>>,    // the contents of every DATA message accepted so far
    ghost got: seq<seq<Byte>>,     // what the receiver has read completely
    ghost freed: nat,              // how many accepted blobs have been freed
    ghost missed: nat)             // acknowledgements that never freed a blob

  datatype Step =
    | Build(data: seq<Byte>, a: Addr)   // z_obj_blob inside z_port_send
    | PushData(peerAlive: bool)         // z_msg_new_send, and z_obj_free when it fails
    | Record                            // the append to pending[]
    | Poll                              // the sender's own message loop
    | Read                              // the receiver takes a message
    | ReadByte                          // ... and reads its payload
    | FinishRead
    | TryAck                            // one attempt of z_port_send_ack
    | GiveUp                            // its retry window is over
    | OtherToReceiver(e: Envelope)      // traffic of other connections and processes
    | OtherToSender(e: Envelope)
    | CloseConnection

  predicate IsData(s: PortState, e: Envelope) {
    e.subject == SUBJECT_DATA && e.tag == s.connId && e.from == s.self && e.blob.Some?
  }

  /** The sender's own loop hands every DATA_ACK to z_port_handle_ack; this connection's carry its tag. */
  predicate IsAck(s: PortState, e: Envelope) {
    e.subject == SUBJECT_ACK && e.tag == s.connId
  }

  predicate Enabled(s: System, step: Step) {
    match step
    case Build(_, a) => s.sender.Ready? && MaySend(s.port) && a !in s.heap
    case PushData(_) => s.sender.Built? && s.sender.a in s.heap
    case Record => s.sender.Pushed?
    case Poll => s.sender.Ready? && s.toSender != []
    case Read => s.receiver.Waiting? && s.toReceiver != []
    case ReadByte => s.receiver.Reading? && s.receiver.a in s.heap && |s.receiver.copied| < |s.heap[s.receiver.a]|
    case FinishRead => s.receiver.Reading? && s.receiver.a in s.heap && |s.receiver.copied| == |s.heap[s.receiver.a]|
    case TryAck => s.receiver.Acking?
    case GiveUp => s.receiver.Acking?
    case OtherToReceiver(e) => !IsData(s.port, e)
    case OtherToSender(e) => !IsAck(s.port, e)
    case CloseConnection => s.sender.Ready?
  }

  function Next(s: System, step: Step): System
    requires Enabled(s, step)
  {
    match step
    case Build(data, a) => s.(sender := Built(a), heap := s.heap[a := data])
    case PushData(peerAlive) =>
      var a := s.sender.a;
      var (q, ok) := Push(s.toReceiver, DataMsg(s.port, a));
      if peerAlive && ok then s.(sender := Pushed(a), toReceiver := q, sent := s.sent + [s.heap[a]])
      else s.(sender := Ready, heap := s.heap - {a})
    case Record => s.(sender := Ready, port := s.port.(pending := s.port.pending + [s.sender.a]))
    case Poll =>
      var m := s.toSender[0];
      var rest := s.(toSender := s.toSender[1..]);
      if m.subject != SUBJECT_ACK then rest
      else
        var (p, h) := HandleAck(s.port, s.heap, m);
        rest.(port := p, heap := h, freed := s.freed + (if Frees(s.port, m) then 1 else 0),
              missed := s.missed + (if IsAck(s.port, m) && !Frees(s.port, m) then 1 else 0))
    case Read =>
      var m := s.toReceiver[0];
      var rest := s.(toReceiver := s.toReceiver[1..]);
      if IsData(s.port, m) then rest.(receiver := Reading(m.blob.value, [])) else rest
    case ReadByte =>
      s.(receiver := Reading(s.receiver.a, s.receiver.copied + [s.heap[s.receiver.a][|s.receiver.copied|]]))
    case FinishRead => s.(receiver := Acking, got := s.got + [s.receiver.copied])
    case TryAck =>
      var (q, ok) := Push(s.toSender, AckMsg(s.port.peer, s.port.connId));
      if ok then s.(receiver := Waiting, toSender := q) else s
    case GiveUp => s.(receiver := Waiting, missed := s.missed + 1)
    case OtherToReceiver(e) => s.(toReceiver := Push(s.toReceiver, e).0)
    case OtherToSender(e) => s.(toSender := Push(s.toSender, e).0)
    case CloseConnection => s.(port := s.port.(connected := false))
  }

  // ----- the invariant

  /** The blobs of this connection's DATA messages still queued. */
  ghost function QueuedBlobs(p: PortState, q: seq<Envelope>): seq<Addr> {
    if q == [] then []
    else (if IsData(p, q[0]) then [q[0].blob.value] else []) + QueuedBlobs(p, q[1..])
  }

  ghost function QueuedAcks(p: PortState, q: seq<Envelope>): nat {
    if q == [] then 0 else (if IsAck(p, q[0]) then 1 else 0) + QueuedAcks(p, q[1..])
  }

  /** The blobs the receiver may still read, oldest first. */
  ghost function InFlight(s: System): seq<Addr> {
    (if s.receiver.Reading? then [s.receiver.a] else []) + QueuedBlobs(s.port, s.toReceiver)
  }

  /** Accepted blobs not yet freed, oldest first. */
  ghost function Outstanding(s: System): seq<Addr> {
    s.port.pending + (if s.sender.Pushed? then [s.sender.a] else [])
  }

  /** How many of them have been read: acknowledged, about to be, or never to be. */
  ghost function ReadCount(s: System): nat {
    QueuedAcks(s.port, s.toSender) + (if s.receiver.Acking? then 1 else 0) + s.missed
  }

  /** `all` are distinct live blobs, holding the messages sent[freed..] in order. */
  ghost predicate Ledger(all: seq<Addr>, heap: Heap, sent: seq<seq<Byte>>, freed: nat)
    decreases |all|
  {
    if all == [] then |sent| == freed
    else
      && freed < |sent| && all[0] in heap && heap[all[0]] == sent[freed]
      && all[0] !in all[1..] && Ledger(all[1..], heap, sent, freed + 1)
  }

  lemma {:induction false} LedgerAccepts(all: seq<Addr>, heap: Heap, sent: seq<seq<Byte>>, freed: nat, a: Addr)
    requires Ledger(all, heap, sent, freed) && a in heap && a !in all
    ensures Ledger(all + [a], heap, sent + [heap[a]], freed)
    decreases |all|
  {
    if all == [] {
      assert all + [a] == [a] && [a][1..] == [];
    } else {
      LedgerAccepts(all[1..], heap, sent, freed + 1, a);
      assert (all + [a])[1..] == all[1..] + [a];
    }
  }

  /** Blobs outside the ledger may come and go. */
  lemma {:induction false} LedgerElsewhere(all: seq<Addr>, heap: Heap, sent: seq<seq<Byte>>, freed: nat, a: Addr,
      data: seq<Byte>)
    requires Ledger(all, heap, sent, freed) && a !in all
    ensures Ledger(all, heap - {a}, sent, freed) && Ledger(all, heap[a := data], sent, freed)
    decreases |all|
  {
    if all != [] {
      LedgerElsewhere(all[1..], heap, sent, freed + 1, a, data);
    }
  }

  lemma {:induction false} LedgerAt(all: seq<Addr>, heap: Heap, sent: seq<seq<Byte>>, freed: nat, i: nat)
    requires Ledger(all, heap, sent, freed) && i < |all|
    ensures all[i] in heap && freed + i < |sent| && heap[all[i]] == sent[freed + i]
    decreases i
  {
    if i > 0 {
      LedgerAt(all[1..], heap, sent, freed + 1, i - 1);
    }
  }

  /**
   * Of the outstanding blobs `all`, the first `k` have been read and the rest is
   * in flight; the heap holds them and at most one blob not yet sent.
   */
  ghost predicate Core(all: seq<Addr>, k: nat, inFlight: seq<Addr>, heap: Heap,
                       sent: seq<seq<Byte>>, got: seq<seq<Byte>>, freed: nat, unsent: Option<Addr>) {
    && |all| <= MAX_PENDING && (unsent.Some? ==> |all| < MAX_PENDING)
    && k <= |all| && inFlight == all[k..]
    && |sent| == freed + |all| && Ledger(all, heap, sent, freed)
    && (unsent.Some? ==> unsent.value in heap && unsent.value !in all)
    && (forall x | x in heap :: x in all || Some(x) == unsent)
    && got == sent[..freed + k]
  }

  lemma CorePush(all: seq<Addr>, k: nat, inFlight: seq<Addr>, heap: Heap,
                 sent: seq<seq<Byte>>, got: seq<seq<Byte>>, freed: nat, a: Addr)
    requires Core(all, k, inFlight, heap, sent, got, freed, Some(a))
    ensures Core(all + [a], k, inFlight + [a], heap, sent + [heap[a]], got, freed, None)
    ensures Core(all, k, inFlight, heap - {a}, sent, got, freed, None)
  {
    LedgerAccepts(all, heap, sent, freed, a);
    LedgerElsewhere(all, heap, sent, freed, a, []);
  }

  lemma CoreBuild(all: seq<Addr>, k: nat, inFlight: seq<Addr>, heap: Heap,
                  sent: seq<seq<Byte>>, got: seq<seq<Byte>>, freed: nat, a: Addr, data: seq<Byte>)
    requires Core(all, k, inFlight, heap, sent, got, freed, None) && |all| < MAX_PENDING && a !in heap
    ensures Core(all, k, inFlight, heap[a := data], sent, got, freed, Some(a))
  {
    if a in all {
      CoreAt(all, k, inFlight, heap, sent, got, freed, None, a);
    }
    LedgerElsewhere(all, heap, sent, freed, a, data);
  }

  lemma CoreFree(all: seq<Addr>, k: nat, inFlight: seq<Addr>, heap: Heap,
                 sent: seq<seq<Byte>>, got: seq<seq<Byte>>, freed: nat)
    requires Core(all, k, inFlight, heap, sent, got, freed, None) && k > 0
    ensures Core(all[1..], k - 1, inFlight, heap - {all[0]}, sent, got, freed + 1, None)
    ensures all[0] !in inFlight
  {
    LedgerElsewhere(all[1..], heap, sent, freed + 1, all[0], []);
    assert forall x | x in all :: x == all[0] || x in all[1..];
    assert inFlight == all[1..][k - 1..];
  }

  lemma CoreRead(all: seq<Addr>, k: nat, inFlight: seq<Addr>, heap: Heap,
                 sent: seq<seq<Byte>>, got: seq<seq<Byte>>, freed: nat, unsent: Option<Addr>)
    requires Core(all, k, inFlight, heap, sent, got, freed, unsent) && inFlight != []
    ensures inFlight[0] in heap
    ensures Core(all, k + 1, inFlight[1..], heap, sent, got + [heap[inFlight[0]]], freed, unsent)
  {
    assert inFlight[0] == all[k];
    LedgerAt(all, heap, sent, freed, k);
  }

  /** Every outstanding blob is live. */
  lemma CoreAt(all: seq<Addr>, k: nat, inFlight: seq<Addr>, heap: Heap,
               sent: seq<seq<Byte>>, got: seq<seq<Byte>>, freed: nat, unsent: Option<Addr>, a: Addr)
    requires Core(all, k, inFlight, heap, sent, got, freed, unsent) && a in all
    ensures a in heap && Some(a) != unsent
  {
    var i :| 0 <= i < |all| && all[i] == a;
    LedgerAt(all, heap, sent, freed, i);
  }

  ghost function Unsent(s: System): Option<Addr> {
    if s.sender.Built? then Some(s.sender.a) else None
  }

  ghost predicate Inv(s: System) {
    && Core(Outstanding(s), ReadCount(s), InFlight(s), s.heap, s.sent, s.got, s.freed, Unsent(s))
    && (s.receiver.Reading? ==> s.receiver.a in s.heap && s.receiver.copied <= s.heap[s.receiver.a])
  }

  /** The payload being read never changes under the reader. */
  lemma InFlightIsLive(s: System, a: Addr)
    requires Inv(s) && a in InFlight(s)
    ensures a in Outstanding(s) && a in s.heap && Some(a) != Unsent(s)
  {
    assert a in Outstanding(s)[ReadCount(s)..];
    CoreAt(Outstanding(s), ReadCount(s), InFlight(s), s.heap, s.sent, s.got, s.freed, Unsent(s), a);
  }

  /** A state whose ledger is this one satisfies the invariant. */
  lemma InvFrom(t: System, all: seq<Addr>, k: nat, inFlight: seq<Addr>, unsent: Option<Addr>)
    requires Outstanding(t) == all && ReadCount(t) == k && InFlight(t) == inFlight && Unsent(t) == unsent
    requires Core(all, k, inFlight, t.heap, t.sent, t.got, t.freed, unsent)
    requires t.receiver.Reading? ==> t.receiver.a in t.heap && t.receiver.copied <= t.heap[t.receiver.a]
    ensures Inv(t)
  {
  }

  lemma {:induction false} QueuedBlobsAppend(p: PortState, q: seq<Envelope>, e: Envelope)
    ensures QueuedBlobs(p, q + [e]) == QueuedBlobs(p, q) + (if IsData(p, e) then [e.blob.value] else [])
  {
    if q == [] {
      assert [e][1..] == [];
    } else {
      assert (q + [e])[1..] == q[1..] + [e];
      QueuedBlobsAppend(p, q[1..], e);
    }
  }

  lemma {:induction false} QueuedAcksAppend(p: PortState, q: seq<Envelope>, e: Envelope)
    ensures QueuedAcks(p, q + [e]) == QueuedAcks(p, q) + (if IsAck(p, e) then 1 else 0)
  {
    if q == [] {
      assert [e][1..] == [];
    } else {
      assert (q + [e])[1..] == q[1..] + [e];
      QueuedAcksAppend(p, q[1..], e);
    }
  }

  /** The queues are counted by the connection's identity alone. */
  lemma {:induction false} CountsDependOnTag(p: PortState, p': PortState, q: seq<Envelope>)
    requires p'.self == p.self && p'.connId == p.connId
    ensures QueuedBlobs(p', q) == QueuedBlobs(p, q) && QueuedAcks(p', q) == QueuedAcks(p, q)
  {
    if q != [] {
      CountsDependOnTag(p, p', q[1..]);
    }
  }

  /** The message has been taken by the mailbox. */
  ghost function AfterPush(s: System): System
    requires s.sender.Built? && s.sender.a in s.heap
  {
    var a := s.sender.a;
    s.(sender := Pushed(a), toReceiver := s.toReceiver + [DataMsg(s.port, a)], sent := s.sent + [s.heap[a]])
  }

  /** It has been refused, and the blob is freed again. */
  ghost function AfterRefusal(s: System): System
    requires s.sender.Built?
  {
    s.(sender := Ready, heap := s.heap - {s.sender.a})
  }

  lemma PushKeepsInv(s: System, peerAlive: bool)
    requires Inv(s) && Enabled(s, PushData(peerAlive))
    ensures Inv(Next(s, PushData(peerAlive)))
  {
    BuiltBlob(s);
    if Next(s, PushData(peerAlive)).sender.Pushed? {
      PushedKeepsInv(s);
      assert Next(s, PushData(peerAlive)) == AfterPush(s);
    } else {
      RefusalKeepsInv(s);
      assert Next(s, PushData(peerAlive)) == AfterRefusal(s);
    }
  }

  /** The blob built is not the one being read. */
  lemma BuiltBlob(s: System)
    requires Inv(s) && s.sender.Built?
    ensures s.sender.a in s.heap && (s.receiver.Reading? ==> s.receiver.a in s.heap && s.receiver.a != s.sender.a)
  {
    if s.receiver.Reading? {
      assert s.receiver.a == InFlight(s)[0];
      InFlightIsLive(s, s.receiver.a);
    }
  }

  lemma PushedLedger(s: System)
    requires s.sender.Built? && s.sender.a in s.heap
    ensures var t, a := AfterPush(s), s.sender.a;
            && Outstanding(t) == Outstanding(s) + [a] && ReadCount(t) == ReadCount(s)
            && InFlight(t) == InFlight(s) + [a] && Unsent(t) == None
  {
    QueuedBlobsAppend(s.port, s.toReceiver, DataMsg(s.port, s.sender.a));
  }

  lemma PushedKeepsInv(s: System)
    requires Inv(s) && s.sender.Built? && s.sender.a in s.heap
    ensures Inv(AfterPush(s))
  {
    var a := s.sender.a;
    CorePush(Outstanding(s), ReadCount(s), InFlight(s), s.heap, s.sent, s.got, s.freed, a);
    PushedLedger(s);
    InvFrom(AfterPush(s), Outstanding(s) + [a], ReadCount(s), InFlight(s) + [a], None);
  }

  lemma RefusalKeepsInv(s: System)
    requires Inv(s) && s.sender.Built? && s.sender.a in s.heap
    ensures Inv(AfterRefusal(s))
  {
    BuiltBlob(s);
    CorePush(Outstanding(s), ReadCount(s), InFlight(s), s.heap, s.sent, s.got, s.freed, s.sender.a);
    InvFrom(AfterRefusal(s), Outstanding(s), ReadCount(s), InFlight(s), None);
  }

  lemma RecordKeepsInv(s: System)
    requires Inv(s) && Enabled(s, Record)
    ensures Inv(Next(s, Record))
  {
    var t := Next(s, Record);
    CountsDependOnTag(s.port, t.port, s.toReceiver);
    CountsDependOnTag(s.port, t.port, s.toSender);
    assert Outstanding(t) == Outstanding(s);
  }

  /** The heart of the protocol: the oldest pending blob has always been read when an acknowledgement arrives. */
  lemma FreeingPollKeepsInv(s: System)
    requires Inv(s) && Enabled(s, Poll) && IsAck(s.port, s.toSender[0]) && Frees(s.port, s.toSender[0])
    ensures Inv(Next(s, Poll))
  {
    var all := s.port.pending;
    var t := Next(s, Poll);
    FreedLedger(s);
    CoreFree(all, ReadCount(s), InFlight(s), s.heap, s.sent, s.got, s.freed);
    assert s.receiver.Reading? ==> s.receiver.a == InFlight(s)[0];
    InvFrom(t, all[1..], ReadCount(s) - 1, InFlight(s), None);
  }

  lemma FreedLedger(s: System)
    requires Enabled(s, Poll) && IsAck(s.port, s.toSender[0]) && Frees(s.port, s.toSender[0])
    ensures var t := Next(s, Poll);
            && Outstanding(s) == s.port.pending && Outstanding(t) == s.port.pending[1..]
            && ReadCount(t) == ReadCount(s) - 1 && InFlight(t) == InFlight(s) && Unsent(t) == None == Unsent(s)
  {
    var t := Next(s, Poll);
    CountsDependOnTag(s.port, t.port, s.toReceiver);
    CountsDependOnTag(s.port, t.port, t.toSender);
  }

  lemma PollKeepsInv(s: System)
    requires Inv(s) && Enabled(s, Poll)
    ensures Inv(Next(s, Poll))
  {
    if IsAck(s.port, s.toSender[0]) && Frees(s.port, s.toSender[0]) {
      FreeingPollKeepsInv(s);
    } else {
      var missed := if IsAck(s.port, s.toSender[0]) then s.missed + 1 else s.missed;
      var t := s.(toSender := s.toSender[1..], missed := missed);
      assert Next(s, Poll) == t;
      MovedLedger(s, t);
      InvFrom(t, Outstanding(s), ReadCount(s), InFlight(s), None);
    }
  }

  /** A message that frees nothing is taken; if it was an acknowledgement, it is counted as missed. */
  lemma MovedLedger(s: System, t: System)
    requires s.toSender != [] && s.sender.Ready?
    requires t == s.(toSender := s.toSender[1..],
                     missed := if IsAck(s.port, s.toSender[0]) then s.missed + 1 else s.missed)
    ensures Outstanding(t) == Outstanding(s) && ReadCount(t) == ReadCount(s) && InFlight(t) == InFlight(s)
    ensures Unsent(t) == Unsent(s) == None
  {
  }

  lemma ReadKeepsInv(s: System)
    requires Inv(s) && Enabled(s, Read)
    ensures Inv(Next(s, Read))
  {
    var t := Next(s, Read);
    assert InFlight(t) == InFlight(s);
    if t.receiver.Reading? {
      assert InFlight(s)[0] == t.receiver.a;
      InFlightIsLive(s, t.receiver.a);
    }
    InvFrom(t, Outstanding(s), ReadCount(s), InFlight(s), Unsent(s));
  }

  lemma FinishReadKeepsInv(s: System)
    requires Inv(s) && Enabled(s, FinishRead)
    ensures Inv(Next(s, FinishRead))
  {
    var all, k, flying := Outstanding(s), ReadCount(s), InFlight(s);
    var t, queued := Next(s, FinishRead), QueuedBlobs(s.port, s.toReceiver);
    assert flying == [s.receiver.a] + queued;
    assert flying[0] == s.receiver.a && flying[1..] == queued;
    CoreRead(all, k, flying, s.heap, s.sent, s.got, s.freed, Unsent(s));
    assert s.receiver.copied == s.heap[s.receiver.a];
    InvFrom(t, all, k + 1, queued, Unsent(s));
  }

  lemma TryAckKeepsInv(s: System)
    requires Inv(s) && Enabled(s, TryAck)
    ensures Inv(Next(s, TryAck))
  {
    QueuedAcksAppend(s.port, s.toSender, AckMsg(s.port.peer, s.port.connId));
    var t := Next(s, TryAck);
    InvFrom(t, Outstanding(s), ReadCount(s), InFlight(s), Unsent(s));
  }

  lemma BuildKeepsInv(s: System, data: seq<Byte>, a: Addr)
    requires Inv(s) && Enabled(s, Build(data, a))
    ensures Inv(Next(s, Build(data, a)))
  {
    CoreBuild(Outstanding(s), ReadCount(s), InFlight(s), s.heap, s.sent, s.got, s.freed, a, data);
    InvFrom(Next(s, Build(data, a)), Outstanding(s), ReadCount(s), InFlight(s), Some(a));
  }

  /** Traffic of others and closing the port leave the ledger alone. */
  lemma TrafficKeepsInv(s: System, step: Step)
    requires Inv(s) && Enabled(s, step) && (step.OtherToReceiver? || step.OtherToSender?)
    ensures Inv(Next(s, step))
  {
    if step.OtherToReceiver? {
      QueuedBlobsAppend(s.port, s.toReceiver, step.e);
      var t := s.(toReceiver := Push(s.toReceiver, step.e).0);
      assert InFlight(t) == InFlight(s);
      InvFrom(t, Outstanding(s), ReadCount(s), InFlight(s), Unsent(s));
    } else {
      QueuedAcksAppend(s.port, s.toSender, step.e);
      var t := s.(toSender := Push(s.toSender, step.e).0);
      InvFrom(t, Outstanding(s), ReadCount(s), InFlight(s), Unsent(s));
    }
  }

  lemma CloseKeepsInv(s: System)
    requires Inv(s) && Enabled(s, CloseConnection)
    ensures Inv(Next(s, CloseConnection))
  {
    var t := Next(s, CloseConnection);
    CountsDependOnTag(s.port, t.port, s.toReceiver);
    CountsDependOnTag(s.port, t.port, s.toSender);
    InvFrom(t, Outstanding(s), ReadCount(s), InFlight(s), Unsent(s));
  }

  lemma ReceiverStepsKeepInv(s: System, step: Step)
    requires Inv(s) && Enabled(s, step) && (step.GiveUp? || step.ReadByte?)
    ensures Inv(Next(s, step))
  {
    var t := Next(s, step);
    InvFrom(t, Outstanding(s), ReadCount(s), InFlight(s), Unsent(s));
  }

  lemma StepKeepsInv(s: System, step: Step)
    requires Inv(s) && Enabled(s, step)
    ensures Inv(Next(s, step))
  {
    match step {
      case Build(data, a) => BuildKeepsInv(s, data, a);
      case PushData(peerAlive) => PushKeepsInv(s, peerAlive);
      case Record => RecordKeepsInv(s);
      case Poll => PollKeepsInv(s);
      case Read => ReadKeepsInv(s);
      case FinishRead => FinishReadKeepsInv(s);
      case TryAck => TryAckKeepsInv(s);
      case ReadByte => ReceiverStepsKeepInv(s, step);
      case GiveUp => ReceiverStepsKeepInv(s, step);
      case CloseConnection => CloseKeepsInv(s);
      case _ => TrafficKeepsInv(s, step);
    }
  }

  // ----- whole runs

  /** A fresh connection: nothing pending, and no message of it in either mailbox. */
  ghost predicate Initial(s: System) {
    && s.port.pending == [] && s.sender.Ready? && s.receiver.Waiting? && s.heap == map[]
    && QueuedBlobs(s.port, s.toReceiver) == [] && QueuedAcks(s.port, s.toSender) == 0
    && s.sent == [] && s.got == [] && s.freed == 0 && s.missed == 0
  }

  ghost predicate Possible(s: System, steps: seq<Step>)
    decreases |steps|
  {
    steps == [] || (Enabled(s, steps[0]) && Possible(Next(s, steps[0]), steps[1..]))
  }

  function Run(s: System, steps: seq<Step>): System
    requires Possible(s, steps)
    decreases |steps|
  {
    if steps == [] then s else Run(Next(s, steps[0]), steps[1..])
  }

  lemma {:induction false} RunKeepsInv(s: System, steps: seq<Step>)
    requires Inv(s) && Possible(s, steps)
    ensures Inv(Run(s, steps))
    decreases |steps|
  {
    if steps != [] {
      StepKeepsInv(s, steps[0]);
      RunKeepsInv(Next(s, steps[0]), steps[1..]);
    }
  }

  /**
   * Every DATA message still queued or being read refers to a live blob that
   * holds exactly the bytes that were sent, however many acknowledgements were
   * lost; what was read is a prefix of what was sent, in order; blobs are freed
   * in that order and only after they were read; at most eight are outstanding.
   */
  ghost predicate Safe(s: System) {
    && (forall i | 0 <= i < |InFlight(s)| ::
          InFlight(s)[i] in s.heap && |s.got| + i < |s.sent| && s.heap[InFlight(s)[i]] == s.sent[|s.got| + i])
    && s.got <= s.sent
    && s.freed <= |s.got|
    && |Outstanding(s)| <= MAX_PENDING
  }

  lemma InvIsSafe(s: System)
    requires Inv(s)
    ensures Safe(s)
  {
    var all, k := Outstanding(s), ReadCount(s);
    forall i | 0 <= i < |InFlight(s)|
      ensures InFlight(s)[i] in s.heap && s.heap[InFlight(s)[i]] == s.sent[|s.got| + i]
    {
      assert InFlight(s)[i] == all[k + i];
      LedgerAt(all, s.heap, s.sent, s.freed, k + i);
    }
  }

  lemma InitialIsInv(s: System)
    requires Initial(s)
    ensures Inv(s)
  {
    InvFrom(s, [], 0, [], None);
  }

  lemma EveryRunIsSafe(s: System, steps: seq<Step>)
    requires Initial(s) && Possible(s, steps)
    ensures Safe(Run(s, steps))
  {
    InitialIsInv(s);
    RunKeepsInv(s, steps);
    InvIsSafe(Run(s, steps));
  }

  /** Nothing in flight is ever freed, by any step. */
  lemma NothingInFlightIsFreed(s: System, step: Step, a: Addr)
    requires Inv(s) && Enabled(s, step) && a in InFlight(s)
    ensures a in s.heap && a in Next(s, step).heap && Next(s, step).heap[a] == s.heap[a]
  {
    InFlightIsLive(s, a);
    if step == Poll && IsAck(s.port, s.toSender[0]) && Frees(s.port, s.toSender[0]) {
      CoreFree(Outstanding(s), ReadCount(s), InFlight(s), s.heap, s.sent, s.got, s.freed);
    }
  }

  lemma OnlyPollFrees(s: System, step: Step)
    requires Enabled(s, step) && Next(s, step).freed != s.freed
    ensures step == Poll && IsAck(s.port, s.toSender[0]) && Frees(s.port, s.toSender[0])
  {
  }

  /** A freed blob is the oldest unfreed one that was sent, and it has been read. */
  lemma FreesInSendOrder(s: System, step: Step)
    requires Inv(s) && Enabled(s, step) && Next(s, step).freed != s.freed
    ensures var t := Next(s, step);
            && t.freed == s.freed + 1 && s.freed < |s.got|
            && s.port.pending != [] && s.port.pending[0] in s.heap
            && s.heap[s.port.pending[0]] == s.sent[s.freed]
            && t.heap == s.heap - {s.port.pending[0]} && t.port.pending == s.port.pending[1..]
  {
    OnlyPollFrees(s, step);
    assert ReadCount(s) > 0;
    OldestWasSentFirst(s);
  }

  lemma OldestWasSentFirst(s: System)
    requires Inv(s) && s.sender.Ready? && s.port.pending != []
    ensures s.port.pending[0] in s.heap && s.freed < |s.sent| && s.heap[s.port.pending[0]] == s.sent[s.freed]
    ensures |s.got| == s.freed + ReadCount(s)
  {
  }

  /** When every acknowledgement was delivered and handled, nothing is left allocated. */
  lemma NothingLeaksWhenQuiet(s: System)
    requires Inv(s) && s.missed == 0 && s.sender.Ready? && s.receiver.Waiting?
    requires QueuedBlobs(s.port, s.toReceiver) == [] && QueuedAcks(s.port, s.toSender) == 0
    ensures s.port.pending == [] && s.heap == map[] && s.got == s.sent
  {
    assert ReadCount(s) == 0 && Outstanding(s) == InFlight(s) == [];
    assert s.sent[..s.freed] == s.sent;
    assert forall x :: x !in s.heap;
  }

  /** z_port_send as one call is its three steps in a row. */
  lemma SendIsItsSteps(s: System, data: seq<Byte>, a: Addr, peerAlive: bool)
    requires s.sender.Ready? && MaySend(s.port) && a !in s.heap
    ensures var s1 := Next(s, Build(data, a));
            var s2 := Next(s1, PushData(peerAlive));
            var s3 := if s2.sender.Pushed? then Next(s2, Record) else s2;
            var (p, heap, q, ok) := Send(s.port, s.heap, s.toReceiver, data, Some(a), peerAlive);
            && s3.sender.Ready? && s3.port == p && s3.heap == heap && s3.toReceiver == q
            && s3.sent == if ok then s.sent + [data] else s.sent
  {
  }
}
