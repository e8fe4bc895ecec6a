/**
 * The pull-based stream of sw/common/zstream.c: a consumer asks for one chunk
 * at a time, and the producer keeps the last chunk's blob alive until the next
 * pull proves that it arrived.
 */
module Stream {
  import opened Words

  type Addr = int
  type Heap = map<Addr, seq<Byte>>

  const NO_SEQ: uint32 := 0xFFFF_FFFF  // no chunk sent yet

  /** ZSTREAM_TAG: both halves are cut to 16 bits. */
  function Tag(id: uint32, n: int): uint32 {
    id % 0x1_0000 * 0x1_0000 + n % 0x1_0000
  }

  function TagId(tag: uint32): int { tag / 0x1_0000 }
  function TagSeq(tag: uint32): int { tag % 0x1_0000 }

  lemma TagParts(id: uint32, n: int)
    ensures TagId(Tag(id, n)) == id % 0x1_0000 && TagSeq(Tag(id, n)) == n % 0x1_0000
  {
  }

  /** A stream message; `Chunk` carries the blob's address, or nothing when the payload is Z_NONE. */
  datatype Msg =
    | OpenReply(tag: uint32, id: Option<uint32>)  // None: an error text or a malformed reply
    | Pull(tag: uint32)
    | Abort(tag: uint32)
    | Chunk(tag: uint32, blob: Option<Addr>)
    | Eof(tag: uint32)
    | Failed(tag: uint32)

  // ----- producer

  /** zstream_producer_t; `last` is the live blob of last_chunk. */
  datatype Producer = Producer(id: uint32, seqNo: uint32, active: bool, last: Option<Addr>)

  datatype Event = NoEvent | PullEvent | AbortEvent

  function NextSeq(p: Producer): uint32 {
    if p.seqNo == NO_SEQ then 0 else p.seqNo + 1
  }

  function FreeLast(p: Producer, heap: Heap): Heap {
    if p.last.Some? then heap - {p.last.value} else heap
  }

  /** What a call did: the new struct, the heap, the messages it sent, the event it reported. */
  datatype Done = Done(p: Producer, heap: Heap, out: seq<Msg>, event: Event)

  /** zstream_producer_handle */
  function ProducerHandle(p: Producer, heap: Heap, m: Msg): Done {
    if !p.active || TagId(m.tag) != p.id % 0x1_0000 then Done(p, heap, [], NoEvent)
    else if m.Abort? then Done(p, heap, [], AbortEvent)
    else if !m.Pull? then Done(p, heap, [], NoEvent)
    else if TagSeq(m.tag) == NextSeq(p) then Done(p.(last := None), FreeLast(p, heap), [], PullEvent)
    else if p.seqNo != NO_SEQ && TagSeq(m.tag) == p.seqNo then
      Done(p, heap, [Chunk(Tag(p.id, p.seqNo), p.last)], NoEvent)
    else Done(p, heap, [], NoEvent)
  }

  /** zstream_send_chunk; `alloc` is what the allocator returns. */
  function SendChunk(p: Producer, heap: Heap, data: seq<Byte>, alloc: Option<Addr>): Done {
    Done(p.(seqNo := NextSeq(p), last := alloc),
         if alloc.Some? then heap[alloc.value := data] else heap,
         [Chunk(Tag(p.id, NextSeq(p)), alloc)], NoEvent)
  }

  /** zstream_send_eof and zstream_send_error */
  function SendEnd(p: Producer, heap: Heap, failed: bool): Done {
    var tag := Tag(p.id, NextSeq(p));
    Done(p.(seqNo := NextSeq(p), last := None), FreeLast(p, heap), [if failed then Failed(tag) else Eof(tag)], NoEvent)
  }

  /** zstream_producer_close */
  function Close(p: Producer, heap: Heap): Done {
    Done(p.(active := false, last := None), FreeLast(p, heap), [], NoEvent)
  }

  class ProducerStream {
    var p: Producer
    var heap: Heap

    /** zstream_accept */
    constructor (id: uint32)
      ensures p == Producer(id, NO_SEQ, true, None) && heap == map[]
    {
      p, heap := Producer(id, NO_SEQ, true, None), map[];
    }

    method ReleaseLast()
      modifies this
      ensures p == old(p).(last := None) && heap == FreeLast(old(p), old(heap))
    {
      if p.last.Some? {
        heap := heap - {p.last.value};
      }
      p := p.(last := None);
    }

    method Handle(m: Msg) returns (event: Event, out: seq<Msg>)
      modifies this
      ensures Done(p, heap, out, event) == ProducerHandle(old(p), old(heap), m)
    {
      event, out := NoEvent, [];
      if !p.active || TagId(m.tag) != p.id % 0x1_0000 {
        return;
      }
      if m.Abort? {
        return AbortEvent, [];
      }
      if !m.Pull? {
        return;
      }
      var n := TagSeq(m.tag);
      if n == NextSeq(p) {
        ReleaseLast();
        event := PullEvent;
      } else if p.seqNo != NO_SEQ && n == p.seqNo {
        out := [Chunk(Tag(p.id, p.seqNo), p.last)];
      }
    }

    method SendData(data: seq<Byte>, alloc: Option<Addr>) returns (out: seq<Msg>)
      modifies this
      ensures Done(p, heap, out, NoEvent) == SendChunk(old(p), old(heap), data, alloc)
    {
      var n := NextSeq(p);
      if alloc.Some? {
        heap := heap[alloc.value := data];
      }
      out := [Chunk(Tag(p.id, n), alloc)];
      p := p.(seqNo := n, last := alloc);
    }

    method SendLast(failed: bool) returns (out: seq<Msg>)
      modifies this
      ensures Done(p, heap, out, NoEvent) == SendEnd(old(p), old(heap), failed)
    {
      ReleaseLast();
      var n := NextSeq(p);
      out := [if failed then Failed(Tag(p.id, n)) else Eof(Tag(p.id, n))];
      p := p.(seqNo := n);
    }

    method CloseStream()
      modifies this
      ensures Done(p, heap, [], NoEvent) == Close(old(p), old(heap))
    {
      ReleaseLast();
      p := p.(active := false);
    }
  }

  // ----- consumer

  /** zstream_consumer_t; an id of zero means that the stream is still opening. */
  datatype Consumer = Consumer(id: uint32, seqNo: uint32, active: bool, openTag: uint32)

  datatype ConsumerEvent = CNone | COpened | COpenFailed | CChunk(blob: Addr) | CEof | CError

  /** zstream_consumer_handle */
  function ConsumerHandle(c: Consumer, m: Msg): (Consumer, ConsumerEvent) {
    if !c.active && c.id == 0 then
      if !m.OpenReply? || m.tag != c.openTag then (c, CNone)
      else if m.id.Some? then (c.(id := m.id.value, seqNo := 0, active := true), COpened)
      else (c, COpenFailed)
    else if !c.active || m.tag != Tag(c.id, c.seqNo) then (c, CNone)
    else
      match m
      case Chunk(_, Some(a)) => (c.(seqNo := Wrap32(c.seqNo + 1)), CChunk(a))
      case Chunk(_, None) => (c.(active := false), CError)
      case Eof(_) => (c.(active := false), CEof)
      case Failed(_) => (c.(active := false), CError)
      case _ => (c, CNone)
  }

  class ConsumerStream {
    var c: Consumer

    /** zstream_open_async */
    constructor (openTag: uint32)
      ensures c == Consumer(0, 0, false, openTag)
    {
      c := Consumer(0, 0, false, openTag);
    }

    /** zstream_pull_async */
    method PullNext() returns (out: seq<Msg>)
      ensures out == if c.active then [Pull(Tag(c.id, c.seqNo))] else []
      // the one producer event it can cause, and when
      ensures forall p: Producer, heap | out != [] && p.active && p.id == c.id ::
                ProducerHandle(p, heap, out[0]).event ==
                if NextSeq(p) == c.seqNo % 0x1_0000 then PullEvent else NoEvent
    {
      TagParts(c.id, c.seqNo);
      out := if c.active then [Pull(Tag(c.id, c.seqNo))] else [];
    }

    method Handle(m: Msg) returns (event: ConsumerEvent)
      modifies this
      ensures (c, event) == ConsumerHandle(old(c), m)
    {
      event := CNone;
      if !c.active && c.id == 0 {
        if !m.OpenReply? || m.tag != c.openTag {
          return;
        }
        if m.id.Some? {
          c := c.(id := m.id.value, seqNo := 0, active := true);
          return COpened;
        }
        return COpenFailed;
      }
      if !c.active || m.tag != Tag(c.id, c.seqNo) {
        return;
      }
      match m {
        case Chunk(_, blob) =>
          if blob == None {
            c := c.(active := false);
            event := CError;
          } else {
            c := c.(seqNo := Wrap32(c.seqNo + 1));
            event := CChunk(blob.value);
          }
        case Eof(_) =>
          c := c.(active := false);
          event := CEof;
        case Failed(_) =>
          c := c.(active := false);
          event := CError;
        case _ =>
      }
    }
  }

  // ----- both ends over a channel that loses, repeats and reorders

  /**
   * `toProducer` and `toConsumer` hold every message ever sent; any of them may
   * be delivered at any time, any number of times, or never.
   */
  datatype System = System(
    p: Producer, heap: Heap, wanted: bool,          // a reported pull not answered yet
    c: Consumer, borrowed: Option<Addr>,            // the chunk the consumer is still using
    toProducer: set<Msg>, toConsumer: set<Msg>,
    ghost sent: seq<seq<Byte>>,                     // chunks sent
    ghost got: seq<seq<Byte>>,                      // chunks the consumer was given
    ended: bool, aborted: bool, sawEof: bool)

  datatype Step =
    | DoPull                                         // zstream_pull_async, at any time
    | DoAbort                                        // zstream_abort
    | DeliverToProducer(m: Msg)
    | DoSendChunk(data: seq<Byte>, alloc: Option<Addr>)
    | DoSendEnd(failed: bool)
    | DoClose
    | DeliverToConsumer(m: Msg)

  /** Streams of at most 65535 chunks: sequence numbers keep their 16 bits. */
  const MAX_SEQ: int := 65535

  /** A message of another stream. */
  predicate Foreign(id: uint32, m: Msg) {
    TagId(m.tag) != id % 0x1_0000
  }

  /**
   * The callers keep zstream.h's rules: exactly one chunk, EOF or error answers
   * each reported pull, and a stream is closed only after its end or an abort.
   */
  predicate Enabled(s: System, step: Step) {
    match step
    case DoPull => s.c.active
    case DoAbort => s.c.active
    case DeliverToProducer(m) => m in s.toProducer || Foreign(s.p.id, m)
    case DoSendChunk(_, alloc) =>
      s.wanted && s.p.active && !s.ended && NextSeq(s.p) < MAX_SEQ && (alloc.Some? ==> alloc.value !in s.heap)
    case DoSendEnd(_) => s.wanted && s.p.active && !s.ended && NextSeq(s.p) <= MAX_SEQ
    case DoClose => s.p.active && (s.ended || s.aborted)
    case DeliverToConsumer(m) => m in s.toConsumer || Foreign(s.c.id, m)
  }

  function Elements(out: seq<Msg>): set<Msg> {
    set m | m in out
  }

  function Next(s: System, step: Step): System
    requires Enabled(s, step)
  {
    match step
    case DoPull => s.(toProducer := s.toProducer + {Pull(Tag(s.c.id, s.c.seqNo))}, borrowed := None)
    case DoAbort =>
      s.(toProducer := s.toProducer + {Abort(Tag(s.c.id, s.c.seqNo))}, borrowed := None, c := s.c.(active := false))
    case DeliverToProducer(m) =>
      var d := ProducerHandle(s.p, s.heap, m);
      s.(p := d.p, heap := d.heap, toConsumer := s.toConsumer + Elements(d.out),
         wanted := s.wanted || d.event == PullEvent, aborted := s.aborted || d.event == AbortEvent)
    case DoSendChunk(data, alloc) =>
      var d := SendChunk(s.p, s.heap, data, alloc);
      s.(p := d.p, heap := d.heap, toConsumer := s.toConsumer + Elements(d.out), wanted := false,
         sent := s.sent + [data])
    case DoSendEnd(failed) =>
      var d := SendEnd(s.p, s.heap, failed);
      s.(p := d.p, heap := d.heap, toConsumer := s.toConsumer + Elements(d.out), wanted := false, ended := true)
    case DoClose =>
      var d := Close(s.p, s.heap);
      s.(p := d.p, heap := d.heap, wanted := false)
    case DeliverToConsumer(m) =>
      var (c, e) := ConsumerHandle(s.c, m);
      match e
      case CChunk(a) =>
        s.(c := c, borrowed := Some(a), got := s.got + [if a in s.heap then s.heap[a] else []])
      case CEof => s.(c := c, sawEof := true)
      case _ => s.(c := c)
  }

  // ----- the invariant

  /** The number of messages the producer has numbered so far. */
  function Numbered(s: System): int {
    if s.p.seqNo == NO_SEQ then 0 else s.p.seqNo + 1
  }

  /** What a message in the channel towards the consumer may be. */
  ghost predicate ReplyOk(s: System, m: Msg) {
    var n := TagSeq(m.tag);
    && TagId(m.tag) == s.p.id % 0x1_0000 && n < Numbered(s)
    && match m
       case Chunk(_, blob) =>
         && (n < |s.sent| || blob == None)
         && (s.c.active && |s.got| == n == |s.sent| - 1 ==> blob == s.p.last)
       case Eof(_) => s.ended && n == |s.sent|
       case Failed(_) => s.ended && n == |s.sent|
       case _ => false
  }

  ghost predicate RequestOk(s: System, m: Msg) {
    var n := TagSeq(m.tag);
    match m
    case Pull(_) => n <= |s.got| && (s.borrowed.Some? ==> n < |s.got|)
    case Abort(_) => !s.c.active
    case _ => false
  }

  ghost predicate Inv(s: System) {
    // numbering
    && s.c.id == s.p.id && s.c.id != 0
    && Numbered(s) == |s.sent| + (if s.ended then 1 else 0) <= MAX_SEQ + 1
    && |s.sent| <= MAX_SEQ
    && s.c.seqNo == |s.got|
    // delivery
    && |s.sent| - 1 <= |s.got| <= |s.sent| && s.got == s.sent[..|s.got|]
    && (s.sawEof ==> s.ended && s.got == s.sent)
    && (s.wanted ==> |s.got| == |s.sent| && !s.ended && s.p.last == None)
    // the one live blob
    && s.heap.Keys == (if s.p.last.Some? then {s.p.last.value} else {})
    && (s.p.last.Some? ==> !s.ended && |s.sent| > 0 && s.heap[s.p.last.value] == s.sent[|s.sent| - 1])
    && (s.borrowed.Some? ==> s.borrowed == s.p.last && |s.got| == |s.sent| && !s.wanted)
    && (s.c.active && |s.got| < |s.sent| ==> !s.ended)
    && (s.aborted ==> !s.c.active) && (!s.p.active ==> s.ended || s.aborted)
    && (s.borrowed.Some? ==> s.c.active && s.p.active)
    // messages
    && (forall m | m in s.toConsumer :: ReplyOk(s, m))
    && (forall m | m in s.toProducer :: RequestOk(s, m))
  }

  lemma PullKeepsInv(s: System)
    requires Inv(s) && Enabled(s, DoPull)
    ensures Inv(Next(s, DoPull))
  {
  }

  lemma AbortKeepsInv(s: System)
    requires Inv(s) && Enabled(s, DoAbort)
    ensures Inv(Next(s, DoAbort))
  {
  }

  /**
   * A pull for the next number is proof that everything sent has been delivered,
   * so the freed chunk is no longer in use.
   */
  lemma FreshPullFreesDeliveredChunk(s: System, m: Msg)
    requires Inv(s) && Enabled(s, DeliverToProducer(m))
    requires ProducerHandle(s.p, s.heap, m).event == PullEvent
    ensures s.got == s.sent && s.borrowed == None && !s.ended
  {
  }

  lemma DeliverToProducerKeepsInv(s: System, m: Msg)
    requires Inv(s) && Enabled(s, DeliverToProducer(m))
    ensures Inv(Next(s, DeliverToProducer(m)))
  {
    var t, d := Next(s, DeliverToProducer(m)), ProducerHandle(s.p, s.heap, m);
    if d.event == PullEvent {
      FreshPullFreesDeliveredChunk(s, m);
    }
    if d.event == AbortEvent {
      assert RequestOk(s, m);
    }
    TagParts(s.p.id, s.p.seqNo);
    forall x | x in t.toConsumer ensures ReplyOk(t, x) {
      assert x in s.toConsumer ==> ReplyOk(s, x);
    }
    forall x | x in t.toProducer ensures RequestOk(t, x) {
      assert RequestOk(s, x);
    }
  }

  lemma SendChunkKeepsInv(s: System, data: seq<Byte>, alloc: Option<Addr>)
    requires Inv(s) && Enabled(s, DoSendChunk(data, alloc))
    ensures Inv(Next(s, DoSendChunk(data, alloc)))
  {
    var t := Next(s, DoSendChunk(data, alloc));
    TagParts(s.p.id, NextSeq(s.p));
    forall x | x in t.toConsumer ensures ReplyOk(t, x) {
      assert x in s.toConsumer ==> ReplyOk(s, x);
    }
    forall x | x in t.toProducer ensures RequestOk(t, x) {
      assert RequestOk(s, x);
    }
  }

  lemma SendEndKeepsInv(s: System, failed: bool)
    requires Inv(s) && Enabled(s, DoSendEnd(failed))
    ensures Inv(Next(s, DoSendEnd(failed)))
  {
    var t := Next(s, DoSendEnd(failed));
    TagParts(s.p.id, NextSeq(s.p));
    forall x | x in t.toConsumer ensures ReplyOk(t, x) {
      assert x in s.toConsumer ==> ReplyOk(s, x);
    }
    forall x | x in t.toProducer ensures RequestOk(t, x) {
      assert RequestOk(s, x);
    }
  }

  lemma CloseKeepsInv(s: System)
    requires Inv(s) && Enabled(s, DoClose)
    ensures Inv(Next(s, DoClose))
  {
  }

  /** The consumer accepts exactly the chunk it is missing, while its blob is alive. */
  lemma AcceptedChunkIsNext(s: System, m: Msg, a: Addr)
    requires Inv(s) && Enabled(s, DeliverToConsumer(m)) && ConsumerHandle(s.c, m).1 == CChunk(a)
    ensures |s.got| == |s.sent| - 1 && s.p.last == Some(a) && a in s.heap && s.heap[a] == s.sent[|s.got|]
    ensures s.p.active
  {
  }

  lemma ChunkKeepsInv(s: System, m: Msg, a: Addr)
    requires Inv(s) && Enabled(s, DeliverToConsumer(m)) && ConsumerHandle(s.c, m).1 == CChunk(a)
    ensures Inv(Next(s, DeliverToConsumer(m)))
  {
  }

  /** Any other delivery is ignored or ends the stream on the consumer's side, with nothing borrowed. */
  lemma OtherDelivery(s: System, m: Msg)
    requires Inv(s) && Enabled(s, DeliverToConsumer(m)) && !ConsumerHandle(s.c, m).1.CChunk?
    ensures var t := Next(s, DeliverToConsumer(m));
            || t == s
            || (t == Left(s, s.sawEof) && s.borrowed == None)
            || (t == Left(s, true) && s.borrowed == None && s.ended && s.got == s.sent)
  {
    TagParts(s.c.id, s.c.seqNo);
    if ConsumerHandle(s.c, m).1 in {CEof, CError} {
      assert ReplyOk(s, m);
    }
  }

  function Left(s: System, sawEof: bool): System { s.(c := s.c.(active := false), sawEof := sawEof) }

  lemma LeavingKeepsInv(s: System, sawEof: bool)
    requires Inv(s) && s.borrowed == None && (sawEof ==> s.ended && s.got == s.sent)
    ensures Inv(Left(s, sawEof))
  {
    var t := Left(s, sawEof);
    forall x | x in t.toConsumer ensures ReplyOk(t, x) {
      assert ReplyOk(s, x);
    }
    forall x | x in t.toProducer ensures RequestOk(t, x) {
      assert RequestOk(s, x);
    }
  }

  lemma OtherDeliveryKeepsInv(s: System, m: Msg)
    requires Inv(s) && Enabled(s, DeliverToConsumer(m)) && !ConsumerHandle(s.c, m).1.CChunk?
    ensures Inv(Next(s, DeliverToConsumer(m)))
  {
    OtherDelivery(s, m);
    var t := Next(s, DeliverToConsumer(m));
    if t != s {
      LeavingKeepsInv(s, t.sawEof);
    }
  }

  lemma StepKeepsInv(s: System, step: Step)
    requires Inv(s) && Enabled(s, step)
    ensures Inv(Next(s, step))
  {
    match step {
      case DoPull => PullKeepsInv(s);
      case DoAbort => AbortKeepsInv(s);
      case DeliverToProducer(m) => DeliverToProducerKeepsInv(s, m);
      case DoSendChunk(data, alloc) => SendChunkKeepsInv(s, data, alloc);
      case DoSendEnd(failed) => SendEndKeepsInv(s, failed);
      case DoClose => CloseKeepsInv(s);
      case DeliverToConsumer(m) =>
        var e := ConsumerHandle(s.c, m).1;
        if e.CChunk? { ChunkKeepsInv(s, m, e.blob); } else { OtherDeliveryKeepsInv(s, m); }
    }
  }

  // ----- whole runs

  ghost predicate Initial(s: System) {
    && s.p == Producer(s.c.id, NO_SEQ, true, None) && s.heap == map[] && !s.wanted
    && s.c.id != 0 && s.c.seqNo == 0 && s.c.active && s.borrowed == None
    && s.toProducer == {} && s.toConsumer == {} && s.sent == [] && s.got == []
    && !s.ended && !s.aborted && !s.sawEof
  }

  ghost predicate Possible(s: System, steps: seq<Step>)
    decreases |steps|
  {
    steps == [] || (Enabled(s, steps[0]) && Possible(Next(s, steps[0]), steps[1..]))
  }

  function Run(s: System, steps: seq<Step>): System
    requires Possible(s, steps)
    decreases |steps|
  {
    if steps == [] then s else Run(Next(s, steps[0]), steps[1..])
  }

  lemma {:induction false} RunKeepsInv(s: System, steps: seq<Step>)
    requires Inv(s) && Possible(s, steps)
    ensures Inv(Run(s, steps))
    decreases |steps|
  {
    if steps != [] {
      StepKeepsInv(s, steps[0]);
      RunKeepsInv(Next(s, steps[0]), steps[1..]);
    }
  }

  /**
   * The consumer is given the chunks in order, none twice and none skipped, at
   * most one behind; the end is reported only after all of them; at most one
   * blob is allocated, and the one the consumer is using is intact.
   */
  ghost predicate Safe(s: System) {
    && s.got <= s.sent && |s.sent| - |s.got| <= 1
    && (s.sawEof ==> s.ended && s.got == s.sent)
    && |s.heap.Keys| <= 1
    && (s.borrowed.Some? ==> |s.got| > 0 && s.borrowed.value in s.heap
                             && s.heap[s.borrowed.value] == s.got[|s.got| - 1])
  }

  lemma EveryRunIsSafe(s: System, steps: seq<Step>)
    requires Initial(s) && Possible(s, steps)
    ensures Safe(Run(s, steps))
  {
    RunKeepsInv(s, steps);
  }

  /** Before any message: the producer has accepted stream `id`, and the consumer has asked for it. */
  function Asked(id: uint32, openTag: uint32): System {
    System(Producer(id, NO_SEQ, true, None), map[], false, Consumer(0, 0, false, openTag), None, {}, {}, [], [],
           false, false, false)
  }

  /** The reply to the open request, and nothing else, leads to a stream that can run. */
  lemma OpenReplyStartsStream(id: uint32, openTag: uint32, m: Msg)
    requires id != 0
    ensures var s := Asked(id, openTag);
            var (c, e) := ConsumerHandle(s.c, m);
            && (e == COpened <==> m.OpenReply? && m.tag == openTag && m.id.Some?)
            && (e == COpenFailed <==> m == OpenReply(openTag, None))
            && (e !in {COpened, COpenFailed} ==> e == CNone)
            && (m == OpenReply(openTag, Some(id)) ==> Initial(s.(c := c)))
            && (e != COpened ==> c == s.c)
  {
  }

  /** An abort is reported exactly when it is for an active stream's own number, and changes nothing. */
  lemma AbortReportedExactlyWhen(p: Producer, heap: Heap, m: Msg)
    ensures var d := ProducerHandle(p, heap, m);
            && (d.event == AbortEvent <==> p.active && m.Abort? && m.tag / 0x1_0000 == p.id % 0x1_0000)
            && (d.event == AbortEvent ==> d.p == p && d.heap == heap && d.out == [])
  {
  }

  /**
   * The tag of a pull is one both sides know: the producer either asks for the
   * chunk of that number or sends its last message again, and what it sends
   * then is a reply the consumer is waiting for.
   */
  lemma PullIsUnderstood(s: System)
    requires Inv(s) && s.c.active && s.p.active && |s.got| <= MAX_SEQ
    ensures var pull := Pull(Tag(s.c.id, s.c.seqNo));
            var d := ProducerHandle(s.p, s.heap, pull);
            && (d.event == PullEvent <==> |s.got| == Numbered(s))
            && (if d.event == PullEvent then d.out == [] && NextSeq(s.p) == s.c.seqNo && d.p.last == None
                else |d.out| == 1 && d.out[0].tag == pull.tag && ConsumerHandle(s.c, d.out[0]).1 != CNone)
  {
    TagParts(s.c.id, s.c.seqNo);
  }

  /** A chunk whose message was lost is recovered by pulling again. */
  lemma LostChunkIsRecovered(s: System)
    requires Inv(s) && s.c.active && |s.got| < |s.sent| && s.p.last.Some?
    ensures var pull := Pull(Tag(s.c.id, s.c.seqNo));
            var s1 := Next(s, DoPull);
            && Enabled(s1, DeliverToProducer(pull))
            && var s2 := Next(s1, DeliverToProducer(pull));
               var chunk := Chunk(pull.tag, s.p.last);
               && Enabled(s2, DeliverToConsumer(chunk))
               && Next(s2, DeliverToConsumer(chunk)).got == s.sent
  {
  }

  /** A reply is under way when the producer has numbered more than the consumer has taken. */
  ghost predicate ReplyOutstanding(s: System) { s.c.active && s.p.active && Numbered(s) == |s.got| + 1 }

  /**
   * Pulling again after a reply was lost gives the consumer the same event
   * exactly when that reply was not the end of the stream, which comes back as
   * an error; a lost chunk comes back with its bytes.
   */
  lemma RetryRepeatsAllButEof(s: System, lost: Msg)
    requires Inv(s) && ReplyOutstanding(s) && lost in s.toConsumer && lost.tag == Tag(s.c.id, s.c.seqNo)
    ensures var again := ProducerHandle(s.p, s.heap, Pull(lost.tag)).out;
            var e, f := ConsumerHandle(s.c, lost).1, ConsumerHandle(s.c, again[0]).1;
            && |again| == 1
            && (e == f <==> !lost.Eof?)
            && (lost.Eof? ==> e == CEof && f == CError)
            && (e.CChunk? ==> e.blob in s.heap && s.heap[e.blob] == s.sent[|s.got|])
  {
    TagParts(s.c.id, s.c.seqNo);
    assert ReplyOk(s, lost);
    PullIsUnderstood(s);
  }

  // ----- where the protocol stops working

  /** The producer recognises the pull for chunk `n` exactly while `n` has 16 bits. */
  lemma PullRecognisedExactlyBelow65536(p: Producer, heap: Heap, n: nat)
    requires p.active && 0 < n < TWO_32 && p.seqNo == n - 1 && p.seqNo != NO_SEQ
    ensures ProducerHandle(p, heap, Pull(Tag(p.id, n))).event == PullEvent <==> n < TWO_16
  {
  }

  /** A repeated pull after a lost EOF is answered with an empty chunk, which the consumer takes for an error. */
  lemma LostEofIsNotRecovered(p: Producer, heap: Heap, c: Consumer)
    requires p.active && p.id == c.id && c.active && NextSeq(p) < TWO_16 && c.seqNo == NextSeq(p)
    ensures var ended := SendEnd(p, heap, false);
            var again := ProducerHandle(ended.p, ended.heap, Pull(Tag(c.id, c.seqNo)));
            |again.out| == 1 && ConsumerHandle(c, again.out[0]).1 == CError
  {
  }

  /** What the producer side becomes when it ends the stream, whether or not a pull is waiting for an answer. */
  function EndNow(s: System, failed: bool): System {
    var d := SendEnd(s.p, s.heap, failed);
    s.(p := d.p, heap := d.heap, toConsumer := s.toConsumer + Elements(d.out), wanted := false, ended := true)
  }

  /** Every chunk the consumer is using, or would accept from the channel, is alive. */
  ghost predicate ChunksAlive(s: System) {
    && (s.borrowed.Some? ==> s.borrowed.value in s.heap)
    && forall m, a | m in s.toConsumer && ConsumerHandle(s.c, m).1 == CChunk(a) :: a in s.heap
  }

  lemma InvKeepsChunksAlive(s: System)
    requires Inv(s)
    ensures ChunksAlive(s)
  {
    forall m, a | m in s.toConsumer && ConsumerHandle(s.c, m).1 == CChunk(a) ensures a in s.heap {
      AcceptedChunkIsNext(s, m, a);
    }
  }

  /**
   * Answering one pull with a chunk and then ending the stream at once leaves a
   * chunk in the channel that the consumer will accept, with its blob freed.
   */
  lemma EarlyEofFreesUndeliveredChunk(s: System, data: seq<Byte>, a: Addr)
    requires Inv(s) && s.c.active && Enabled(s, DoSendChunk(data, Some(a)))
    ensures var t := EndNow(Next(s, DoSendChunk(data, Some(a))), false);
            var chunk := Chunk(Tag(s.c.id, s.c.seqNo), Some(a));
            chunk in t.toConsumer && ConsumerHandle(t.c, chunk).1 == CChunk(a) && a !in t.heap && !ChunksAlive(t)
  {
    var t := EndNow(Next(s, DoSendChunk(data, Some(a))), false);
    var chunk := Chunk(Tag(s.c.id, s.c.seqNo), Some(a));
    assert chunk in t.toConsumer && ConsumerHandle(t.c, chunk).1 == CChunk(a);
  }

  /** The same producer with a consumer that has not read its last chunk yet. */
  ghost function Behind(s: System, a: Addr): System
    requires 0 < |s.sent| <= MAX_SEQ
  {
    var n := |s.sent| - 1;
    s.(c := Consumer(s.p.id, n, true, s.c.openTag), got := s.sent[..n], borrowed := None,
       toConsumer := {Chunk(Tag(s.p.id, n), Some(a))}, toProducer := {}, wanted := false,
       aborted := false, sawEof := false)
  }

  lemma BehindIsConsistent(s: System, a: Addr)
    requires Inv(s) && s.p.active && s.p.last == Some(a)
    ensures var t := Behind(s, a);
            && Inv(t) && t.p == s.p && t.heap == s.heap
            && ConsumerHandle(t.c, Chunk(Tag(s.p.id, |s.sent| - 1), Some(a))).1 == CChunk(a)
  {
    TagParts(s.p.id, |s.sent| - 1);
  }

  /**
   * Seen from the producer, ending the stream is harmless for every consumer it
   * may be talking to exactly when no chunk has been sent since the last
   * reported pull.
   */
  lemma EndingIsSafeExactlyWhenNothingIsHeld(s: System, failed: bool)
    requires Inv(s) && s.p.active
    ensures (forall t | Inv(t) && t.p == s.p && t.heap == s.heap :: ChunksAlive(EndNow(t, failed))) <==>
            s.p.last == None
  {
    if s.p.last == None {
      forall t | Inv(t) && t.p == s.p && t.heap == s.heap ensures ChunksAlive(EndNow(t, failed)) {
        InvKeepsChunksAlive(t);
      }
    } else {
      var a := s.p.last.value;
      var t := Behind(s, a);
      BehindIsConsistent(s, a);
      var chunk := Chunk(Tag(s.p.id, |s.sent| - 1), Some(a));
      assert chunk in EndNow(t, failed).toConsumer && ConsumerHandle(EndNow(t, failed).c, chunk).1 == CChunk(a);
      assert !ChunksAlive(EndNow(t, failed));
    }
  }
}
