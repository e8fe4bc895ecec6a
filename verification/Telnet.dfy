/**
 * The telnet client of sw/apps/net/telnet.c: the byte-stream parser, the
 * negotiation replies, and the queue between the application and TCP.
 */
module Telnet {
  import opened Words

  const IAC: Byte := 255
  const DONT: Byte := 254
  const DO: Byte := 253
  const WONT: Byte := 252
  const WILL: Byte := 251
  const SB: Byte := 250
  const SE: Byte := 240
  const OPT_ECHO: Byte := 1
  const OPT_SGA: Byte := 3
  const QUEUE_LEN: int := 512
  const MAX_PAYLOAD: int := 536

  datatype ParseState = TnData | TnIac | TnCmd | TnSb | TnSbIac

  /** pstate and pending_cmd */
  datatype Parser = Parser(state: ParseState, pending: Byte)

  const FRESH: Parser := Parser(TnData, 0)

  /** A DO or WILL that wants an answer. */
  datatype Ask = Ask(cmd: Byte, opt: Byte)

  /** What a stretch of input leaves behind: the parser, the data bytes, the requests to answer. */
  datatype Fed = Fed(parser: Parser, clean: seq<Byte>, asks: seq<Ask>)

  // ----- parsing

  function FeedByte(p: Parser, b: Byte): Fed {
    match p.state
    case TnData => if b == IAC then Fed(p.(state := TnIac), [], []) else Fed(p, [b], [])
    case TnIac =>
      if b == IAC then Fed(p.(state := TnData), [b], [])
      else if b == DO || b == DONT || b == WILL || b == WONT then Fed(Parser(TnCmd, b), [], [])
      else if b == SB then Fed(p.(state := TnSb), [], [])
      else Fed(p.(state := TnData), [], [])
    case TnCmd =>
      Fed(p.(state := TnData), [], if p.pending == DO || p.pending == WILL then [Ask(p.pending, b)] else [])
    case TnSb => Fed(if b == IAC then p.(state := TnSbIac) else p, [], [])
    case TnSbIac => Fed(p.(state := if b == SE then TnData else TnSb), [], [])
  }

  function Feed(p: Parser, data: seq<Byte>): Fed
    decreases |data|
  {
    if data == [] then Fed(p, [], [])
    else
      var f := FeedByte(p, data[0]);
      var rest := Feed(f.parser, data[1..]);
      Fed(rest.parser, f.clean + rest.clean, f.asks + rest.asks)
  }

  /** Cutting the stream anywhere changes nothing. */
  lemma {:induction false} FeedConcat(p: Parser, a: seq<Byte>, b: seq<Byte>)
    ensures var f, g := Feed(p, a), Feed(Feed(p, a).parser, b);
            Feed(p, a + b) == Fed(g.parser, f.clean + g.clean, f.asks + g.asks)
    decreases |a|
  {
    if a == [] {
      assert a + b == b;
    } else {
      assert (a + b)[1..] == a[1..] + b;
      var first := FeedByte(p, a[0]);
      FeedConcat(first.parser, a[1..], b);
      JoinFed(first, Feed(first.parser, a[1..]), Feed(Feed(p, a).parser, b));
    }
  }

  lemma JoinFed(x: Fed, y: Fed, z: Fed)
    ensures x.clean + (y.clean + z.clean) == x.clean + y.clean + z.clean
    ensures x.asks + (y.asks + z.asks) == x.asks + y.asks + z.asks
  {
  }

  lemma FeedOne(p: Parser, b: Byte)
    ensures Feed(p, [b]) == FeedByte(p, b)
  {
  }

  /** However the peer's bytes are cut into segments, the application sees the same data. */
  function FeedSegments(p: Parser, segments: seq<seq<Byte>>): Fed
    decreases |segments|
  {
    if segments == [] then Fed(p, [], [])
    else
      var f := Feed(p, segments[0]);
      var rest := FeedSegments(f.parser, segments[1..]);
      Fed(rest.parser, f.clean + rest.clean, f.asks + rest.asks)
  }

  function Flatten(segments: seq<seq<Byte>>): seq<Byte> {
    if segments == [] then [] else segments[0] + Flatten(segments[1..])
  }

  lemma {:induction false} SegmentationDoesNotMatter(p: Parser, segments: seq<seq<Byte>>)
    ensures FeedSegments(p, segments) == Feed(p, Flatten(segments))
    decreases |segments|
  {
    if segments != [] {
      SegmentationDoesNotMatter(Feed(p, segments[0]).parser, segments[1..]);
      FeedConcat(p, segments[0], Flatten(segments[1..]));
    }
  }

  // ----- how much one call can produce

  /** `n` copies of one byte. */
  function Repeat(b: Byte, n: nat): (r: seq<Byte>)
    ensures |r| == n
  {
    if n == 0 then [] else [b] + Repeat(b, n - 1)
  }

  /** Parsing never makes the stream longer. */
  lemma {:induction false} CleanIsShorter(p: Parser, data: seq<Byte>)
    ensures |Feed(p, data).clean| <= |data|
    decreases |data|
  {
    if data != [] {
      CleanIsShorter(FeedByte(p, data[0]).parser, data[1..]);
    }
  }

  lemma {:induction false} PlainBytesStay(n: nat)
    ensures Feed(FRESH, Repeat(0, n)) == Fed(FRESH, Repeat(0, n), [])
  {
    if n > 0 {
      assert Repeat(0, n)[1..] == Repeat(0, n - 1);
      PlainBytesStay(n - 1);
    }
  }

  /** The data bytes of every segment of length `n` fit the 536-byte buffer exactly when `n` is at most 536. */
  lemma CleanFitsExactlyUpTo536(n: nat)
    ensures (forall p, data | |data| == n :: |Feed(p, data).clean| <= MAX_PAYLOAD) <==> n <= MAX_PAYLOAD
  {
    if n <= MAX_PAYLOAD {
      forall p, data | |data| == n ensures |Feed(p, data).clean| <= MAX_PAYLOAD {
        CleanIsShorter(p, data);
      }
    } else {
      PlainBytesStay(n);
      assert |Feed(FRESH, Repeat(0, n)).clean| == n;
    }
  }

  /** A segment of 537 plain bytes is one too long; TCP passes segments of that length on. */
  lemma PlainSegmentOf537DoesNotFit()
    ensures |Feed(FRESH, Repeat(0, 537)).clean| == MAX_PAYLOAD + 1
  {
    PlainBytesStay(537);
  }

  // ----- sending

  function Escape(data: seq<Byte>): (e: seq<Byte>)
    ensures |data| <= |e| <= 2 * |data|
  {
    if data == [] then []
    else (if data[0] == IAC then [IAC, IAC] else [data[0]]) + Escape(data[1..])
  }

  lemma {:induction false} EscapeConcat(a: seq<Byte>, b: seq<Byte>)
    ensures Escape(a + b) == Escape(a) + Escape(b)
  {
    if a == [] {
      assert a + b == b;
    } else {
      assert (a + b)[1..] == a[1..] + b;
      EscapeConcat(a[1..], b);
    }
  }

  /** One more byte: how it is escaped, and that the rest takes at least its own length. */
  lemma EscapeNext(data: seq<Byte>, i: nat)
    requires i < |data|
    ensures Escape(data[..i + 1]) == Escape(data[..i]) + (if data[i] == IAC then [IAC, IAC] else [data[i]])
    ensures |Escape(data[..i + 1])| + (|data| - i - 1) <= |Escape(data)|
  {
    assert data[..i + 1] == data[..i] + [data[i]];
    EscapeConcat(data[..i], [data[i]]);
    assert [data[i]][1..] == [];
    EscapeConcat(data[..i + 1], data[i + 1..]);
    assert data[..i + 1] + data[i + 1..] == data;
  }

  /** Parsing undoes escaping. */
  lemma {:induction false} EscapeParsesBack(p: Parser, data: seq<Byte>)
    requires p.state == TnData
    ensures Feed(p, Escape(data)) == Fed(p, data, [])
  {
    if data != [] {
      EscapeParsesBack(p, data[1..]);
      var unit := if data[0] == IAC then [IAC, IAC] else [data[0]];
      UnitParsesBack(p, data[0]);
      FeedConcat(p, unit, Escape(data[1..]));
      assert [data[0]] + data[1..] == data;
    }
  }

  lemma UnitParsesBack(p: Parser, b: Byte)
    requires p.state == TnData
    ensures Feed(p, if b == IAC then [IAC, IAC] else [b]) == Fed(p, [b], [])
  {
    FeedOne(p, b);
    if b == IAC {
      FeedConcat(p, [IAC], [IAC]);
      FeedOne(p.(state := TnIac), IAC);
      assert [IAC] + [IAC] == [IAC, IAC];
    }
  }

  /** answer_negotiation: what a request is answered with. */
  function Reply(a: Ask): Byte {
    if a.cmd == DO then WONT
    else if a.opt == OPT_ECHO || a.opt == OPT_SGA then DO else DONT
  }

  function ReplyBytes(a: Ask): seq<Byte> { [IAC, Reply(a), a.opt] }

  lemma ReplyParses(p: Parser, a: Ask)
    requires p.state == TnData
    ensures Feed(p, ReplyBytes(a))
            == Fed(Parser(TnData, Reply(a)), [], if Reply(a) == DO then [Ask(DO, a.opt)] else [])
  {
    FeedConcat(p, [IAC], [Reply(a), a.opt]);
    FeedConcat(p.(state := TnIac), [Reply(a)], [a.opt]);
    FeedOne(p, IAC);
    FeedOne(p.(state := TnIac), Reply(a));
    FeedOne(Parser(TnCmd, Reply(a)), a.opt);
    assert [IAC] + [Reply(a), a.opt] == ReplyBytes(a);
    assert [Reply(a)] + [a.opt] == [Reply(a), a.opt];
  }

  /** queue_bytes: all of it or nothing. */
  function Enqueue(q: seq<Byte>, data: seq<Byte>): seq<Byte> {
    if |q| + |data| > QUEUE_LEN then q else q + data
  }

  /** The queue after answering the requests in turn; replies that do not fit are dropped. */
  function AnswerAll(q: seq<Byte>, asks: seq<Ask>): seq<Byte>
    decreases |asks|
  {
    if asks == [] then q else AnswerAll(Enqueue(q, ReplyBytes(asks[0])), asks[1..])
  }

  lemma {:induction false} AnswerConcat(q: seq<Byte>, a: seq<Ask>, b: seq<Ask>)
    ensures AnswerAll(q, a + b) == AnswerAll(AnswerAll(q, a), b)
    decreases |a|
  {
    if a == [] {
      assert a + b == b;
    } else {
      assert (a + b)[1..] == a[1..] + b;
      AnswerConcat(Enqueue(q, ReplyBytes(a[0])), a[1..], b);
    }
  }

  // ----- what a telnet stream is made of (RFC 854), and what each part comes to

  /** A data byte, a negotiation of an option, a subnegotiation, or any other command. */
  datatype Part =
    | Data(b: Byte) | Negotiation(cmd: Byte, opt: Byte) | Subnegotiation(body: seq<Byte>) | Command(cmd: Byte)

  predicate ValidPart(u: Part) {
    && (u.Negotiation? ==> 251 <= u.cmd <= 254)
    && (u.Command? ==> u.cmd < 250)
  }

  /** The part as it is sent: a byte 255 inside data or a subnegotiation is doubled. */
  function Encoded(u: Part): seq<Byte> {
    match u
    case Data(b) => Escape([b])
    case Negotiation(cmd, opt) => [255, cmd, opt]
    case Subnegotiation(body) => [255, 250] + Escape(body) + [255, 240]
    case Command(cmd) => [255, cmd]
  }

  /** The data the application is to get. */
  function DataOf(u: Part): seq<Byte> { if u.Data? then [u.b] else [] }

  /**
   * The answer the peer is to get: an offer (251, WILL) of ECHO (1) or
   * SUPPRESS-GO-AHEAD (3) is accepted (253, DO) and any other declined (254,
   * DONT); a demand (253, DO) is always declined (252, WONT); nothing else is
   * answered.
   */
  function AnswerTo(u: Part): seq<Byte> {
    if u.Negotiation? && u.cmd == 251 then [255, if u.opt == 1 || u.opt == 3 then 253 else 254, u.opt]
    else if u.Negotiation? && u.cmd == 253 then [255, 252, u.opt]
    else []
  }

  function AllEncoded(us: seq<Part>): seq<Byte> { if us == [] then [] else Encoded(us[0]) + AllEncoded(us[1..]) }
  function AllData(us: seq<Part>): seq<Byte> { if us == [] then [] else DataOf(us[0]) + AllData(us[1..]) }
  function AllAnswers(us: seq<Part>): seq<Byte> { if us == [] then [] else AnswerTo(us[0]) + AllAnswers(us[1..]) }

  lemma FeedTwo(p: Parser, a: Byte, b: Byte)
    ensures var f, g := FeedByte(p, a), FeedByte(FeedByte(p, a).parser, b);
            Feed(p, [a, b]) == Fed(g.parser, f.clean + g.clean, f.asks + g.asks)
  {
    FeedConcat(p, [a], [b]);
    FeedOne(p, a);
    FeedOne(FeedByte(p, a).parser, b);
    assert [a] + [b] == [a, b];
  }

  /** Inside a subnegotiation nothing but its end is looked at. */
  lemma {:induction false} BodyIsSkipped(p: Parser, body: seq<Byte>)
    requires p.state == TnSb
    ensures Feed(p, Escape(body)) == Fed(p, [], [])
    decreases |body|
  {
    if body != [] {
      var first := if body[0] == 255 then [255, 255] else [body[0]];
      FeedConcat(p, first, Escape(body[1..]));
      if body[0] == 255 { FeedTwo(p, 255, 255); } else { FeedOne(p, body[0]); }
      BodyIsSkipped(p, body[1..]);
    }
  }

  lemma NegotiationIsRead(p: Parser, cmd: Byte, opt: Byte)
    requires p.state == TnData && 251 <= cmd <= 254
    ensures Feed(p, [255, cmd, opt]) ==
            Fed(Parser(TnData, cmd), [], if cmd == DO || cmd == WILL then [Ask(cmd, opt)] else [])
  {
    FeedConcat(p, [255, cmd], [opt]);
    FeedTwo(p, 255, cmd);
    FeedOne(Parser(TnCmd, cmd), opt);
    assert [255, cmd] + [opt] == [255, cmd, opt];
  }

  lemma SubnegotiationIsRead(p: Parser, body: seq<Byte>)
    requires p.state == TnData
    ensures Feed(p, [255, 250] + Escape(body) + [255, 240]) == Fed(p, [], [])
  {
    FeedConcat(p, [255, 250] + Escape(body), [255, 240]);
    FeedConcat(p, [255, 250], Escape(body));
    FeedTwo(p, 255, 250);
    BodyIsSkipped(p.(state := TnSb), body);
    FeedTwo(p.(state := TnSb), 255, 240);
  }

  /** One part, read between two parts, leaves the parser between two parts. */
  lemma PartIsRead(p: Parser, u: Part)
    requires p.state == TnData && ValidPart(u)
    ensures var f := Feed(p, Encoded(u));
            && f.parser.state == TnData && f.clean == DataOf(u) && |f.asks| <= 1
            && (forall a | a in f.asks :: ReplyBytes(a) == AnswerTo(u)) && (f.asks == [] <==> AnswerTo(u) == [])
  {
    match u
    case Data(b) =>
      assert Escape([b]) == if b == 255 then [255, 255] else [b];
      if b == 255 { FeedTwo(p, 255, 255); } else { FeedOne(p, b); }
    case Negotiation(cmd, opt) => NegotiationIsRead(p, cmd, opt);
    case Subnegotiation(body) => SubnegotiationIsRead(p, body);
    case Command(cmd) => FeedTwo(p, 255, cmd);
  }

  lemma AnswerOne(q: seq<Byte>, asks: seq<Ask>, answer: seq<Byte>)
    requires |asks| <= 1 && (asks == [] <==> answer == []) && forall a | a in asks :: ReplyBytes(a) == answer
    requires |q| + |answer| <= QUEUE_LEN
    ensures AnswerAll(q, asks) == q + answer
  {
    if asks != [] {
      assert asks[0] in asks && asks[1..] == [];
      assert AnswerAll(Enqueue(q, ReplyBytes(asks[0])), []) == Enqueue(q, ReplyBytes(asks[0]));
    }
  }

  lemma AnswersJoin(q: seq<Byte>, first: seq<Ask>, rest: seq<Ask>, answer: seq<Byte>, answers: seq<Byte>)
    requires |first| <= 1 && (first == [] <==> answer == []) && forall a | a in first :: ReplyBytes(a) == answer
    requires |q + answer| + |answers| <= QUEUE_LEN ==> AnswerAll(q + answer, rest) == q + answer + answers
    ensures |q| + |answer + answers| <= QUEUE_LEN ==> AnswerAll(q, first + rest) == q + (answer + answers)
  {
    if |q| + |answer + answers| <= QUEUE_LEN {
      AnswerConcat(q, first, rest);
      AnswerOne(q, first, answer);
      assert q + answer + answers == q + (answer + answers);
    }
  }

  /**
   * Any stream made of such parts: the application gets exactly its data, and
   * the queue exactly the answers, in order, as long as they fit.
   */
  lemma {:induction false} StreamIsRead(p: Parser, us: seq<Part>, q: seq<Byte>)
    requires p.state == TnData && forall u | u in us :: ValidPart(u)
    ensures var f := Feed(p, AllEncoded(us));
            && f.parser.state == TnData && f.clean == AllData(us)
            && (|q| + |AllAnswers(us)| <= QUEUE_LEN ==> AnswerAll(q, f.asks) == q + AllAnswers(us))
    decreases |us|
  {
    if us != [] {
      assert us[0] in us;
      PartIsRead(p, us[0]);
      var first := Feed(p, Encoded(us[0]));
      StreamIsRead(first.parser, us[1..], q + AnswerTo(us[0]));
      FeedConcat(p, Encoded(us[0]), AllEncoded(us[1..]));
      AnswersJoin(q, first.asks, Feed(first.parser, AllEncoded(us[1..])).asks, AnswerTo(us[0]), AllAnswers(us[1..]));
    }
  }

  /** One more byte of the input: what it adds is part of what the whole input gives. */
  lemma NextByte(start: Parser, data: seq<Byte>, i: nat)
    requires i < |data|
    ensures var f, g := Feed(start, data[..i]), FeedByte(Feed(start, data[..i]).parser, data[i]);
            && Feed(start, data[..i + 1]) == Fed(g.parser, f.clean + g.clean, f.asks + g.asks)
            && |f.clean| + |g.clean| <= |Feed(start, data).clean|
  {
    var f := Feed(start, data[..i]);
    assert data[..i + 1] == data[..i] + [data[i]];
    FeedConcat(start, data[..i], [data[i]]);
    FeedOne(f.parser, data[i]);
    assert data == data[..i + 1] + data[i + 1..];
    FeedConcat(start, data[..i + 1], data[i + 1..]);
  }

  // ----- the session as the code keeps it

  class Session {
    var pstate: ParseState
    var pendingCmd: Byte
    const txQueue: array<Byte>
    var txQueueLen: uint16
    const cleanBuf: array<Byte>   // the static buffer of telnet_feed

    predicate Valid()
      reads this
    {
      txQueue.Length == QUEUE_LEN && cleanBuf.Length == MAX_PAYLOAD && txQueue != cleanBuf && txQueueLen <= QUEUE_LEN
    }

    ghost function State(): Parser
      reads this
    {
      Parser(pstate, pendingCmd)
    }

    ghost function Queue(): seq<Byte>
      reads this, txQueue
      requires Valid()
    {
      txQueue[..txQueueLen]
    }

    constructor ()
      ensures Valid() && State().state == TnData && Queue() == [] && fresh(txQueue) && fresh(cleanBuf)
    {
      pstate, pendingCmd, txQueueLen := TnData, 0, 0;
      txQueue := new Byte[QUEUE_LEN];
      cleanBuf := new Byte[MAX_PAYLOAD];
    }

    /** telnet_connect, and what telnet_abort forgets. */
    method Restart()
      requires Valid()
      modifies `pstate, `txQueueLen
      ensures Valid() && State() == old(State()).(state := TnData) && Queue() == []
    {
      pstate, txQueueLen := TnData, 0;
    }

    /** queue_bytes */
    method QueueBytes(data: seq<Byte>) returns (ok: bool)
      requires Valid()
      modifies `txQueueLen, txQueue
      ensures Valid() && Queue() == Enqueue(old(Queue()), data)
      ensures ok <==> |old(Queue())| + |data| <= QUEUE_LEN
    {
      if txQueueLen + |data| > QUEUE_LEN {
        return false;
      }
      for i := 0 to |data|
        modifies txQueue
        invariant txQueue[..txQueueLen] == old(txQueue[..txQueueLen])
        invariant txQueue[txQueueLen..txQueueLen + i] == data[..i]
      {
        txQueue[txQueueLen + i] := data[i];
      }
      assert txQueue[..txQueueLen + |data|] == txQueue[..txQueueLen] + txQueue[txQueueLen..txQueueLen + |data|];
      txQueueLen := txQueueLen + |data|;
      ok := true;
    }

    /** One byte of telnet_feed's loop; `n` bytes of output so far. */
    method ParseByte(b: Byte, n: nat) returns (m: nat)
      requires Valid() && n + |FeedByte(State(), b).clean| <= MAX_PAYLOAD
      modifies this, txQueue, cleanBuf
      ensures Valid() && n <= m <= MAX_PAYLOAD
      ensures var f := FeedByte(old(State()), b);
              && State() == f.parser && cleanBuf[..m] == old(cleanBuf[..n]) + f.clean
              && Queue() == AnswerAll(old(Queue()), f.asks)
    {
      m := n;
      match pstate {
        case TnData =>
          if b == IAC {
            pstate := TnIac;
          } else {
            cleanBuf[n] := b;
            m := n + 1;
          }
        case TnIac =>
          if b == IAC {
            cleanBuf[n] := b;
            m := n + 1;
            pstate := TnData;
          } else if b == DO || b == DONT || b == WILL || b == WONT {
            pendingCmd := b;
            pstate := TnCmd;
          } else if b == SB {
            pstate := TnSb;
          } else {
            pstate := TnData;
          }
        case TnCmd =>
          if pendingCmd == DO || pendingCmd == WILL {
            var a := Ask(pendingCmd, b);
            var _ := QueueBytes(ReplyBytes(a));
            assert [a][1..] == [];
          }
          pstate := TnData;
        case TnSb =>
          if b == IAC { pstate := TnSbIac; }
        case TnSbIac =>
          pstate := if b == SE then TnData else TnSb;
      }
    }

    /** telnet_feed: the data bytes handed to the application in one call, as long as they fit the static buffer. */
    method Receive(data: seq<Byte>) returns (clean: seq<Byte>)
      requires Valid() && |data| < TWO_16 && |Feed(State(), data).clean| <= MAX_PAYLOAD
      modifies this, txQueue, cleanBuf
      ensures Valid()
      ensures var f := Feed(old(State()), data);
              State() == f.parser && clean == f.clean && Queue() == AnswerAll(old(Queue()), f.asks)
    {
      var n := 0;
      ghost var start, queue := State(), Queue();
      for i := 0 to |data|
        invariant Valid() && n <= MAX_PAYLOAD
        invariant var f := Feed(start, data[..i]);
                  State() == f.parser && cleanBuf[..n] == f.clean && Queue() == AnswerAll(queue, f.asks)
      {
        ghost var f := Feed(start, data[..i]);
        NextByte(start, data, i);
        AnswerConcat(queue, f.asks, FeedByte(f.parser, data[i]).asks);
        n := ParseByte(data[i], n);
      }
      assert data[..|data|] == data;
      clean := cleanBuf[..n];
    }

    method Push(b: Byte)
      requires Valid() && txQueueLen < QUEUE_LEN
      modifies `txQueueLen, txQueue
      ensures Valid() && Queue() == old(Queue()) + [b]
    {
      txQueue[txQueueLen] := b;
      txQueueLen := txQueueLen + 1;
    }

    /** telnet_send: the escaped bytes are queued whole or not at all. */
    method SendData(data: seq<Byte>, connected: bool) returns (ok: bool)
      requires Valid() && |data| < TWO_16 && (connected ==> CountDecides(txQueueLen, data))
      modifies `txQueueLen, txQueue
      ensures Valid()
      ensures ok <==> connected && |old(Queue())| + |Escape(data)| <= QUEUE_LEN
      ensures Queue() == if ok then old(Queue()) + Escape(data) else old(Queue())
    {
      if !connected { return false; }
      var escapedLen: uint16 := EscapedLength(data);
      if txQueueLen + escapedLen > QUEUE_LEN { return false; }
      PushEscaped(data);
      ok := true;
    }

    method PushUnit(b: Byte)
      requires Valid() && txQueueLen + (if b == IAC then 2 else 1) <= QUEUE_LEN
      modifies `txQueueLen, txQueue
      ensures Valid() && Queue() == old(Queue()) + (if b == IAC then [IAC, IAC] else [b])
    {
      Push(b);
      if b == IAC { Push(IAC); }
    }

    method PushEscaped(data: seq<Byte>)
      requires Valid() && txQueueLen + |Escape(data)| <= QUEUE_LEN
      modifies `txQueueLen, txQueue
      ensures Valid() && Queue() == old(Queue()) + Escape(data)
    {
      ghost var queue := Queue();
      for i := 0 to |data|
        invariant Valid() && Queue() == queue + Escape(data[..i])
      {
        EscapeNext(data, i);
        PushUnit(data[i]);
      }
      assert data[..|data|] == data;
    }

    /** telnet_poll: `takes` is what tcp_send answers; `segment` is what it was offered and took. */
    method Poll(connected: bool, takes: bool) returns (segment: seq<Byte>)
      requires Valid()
      modifies `txQueueLen, txQueue
      ensures Valid() && |segment| <= MAX_PAYLOAD
      ensures segment + Queue() == old(Queue())
      ensures connected && takes ==> segment == old(Queue())
      ensures !connected || !takes ==> segment == []
    {
      segment := [];
      if !connected || txQueueLen == 0 { return; }
      var n := if txQueueLen > MAX_PAYLOAD then MAX_PAYLOAD else txQueueLen;
      if takes {
        segment := txQueue[..n];
        DropFirst(n);
      }
    }

    /** The memmove of telnet_poll. */
    method DropFirst(n: nat)
      requires Valid() && n <= txQueueLen
      modifies `txQueueLen, txQueue
      ensures Valid() && Queue() == old(Queue()[n..])
    {
      ghost var queue := Queue();
      for i := 0 to txQueueLen - n
        modifies txQueue
        invariant forall k | 0 <= k < i :: txQueue[k] == queue[n + k]
        invariant forall k | n + i <= k < txQueueLen :: txQueue[k] == queue[k]
      {
        txQueue[i] := txQueue[n + i];
      }
      txQueueLen := txQueueLen - n;
    }
  }

  /** The counting loop of telnet_send: a 16-bit count. */
  method EscapedLength(data: seq<Byte>) returns (n: uint16)
    requires |data| < TWO_16
    ensures n == Wrap16(|Escape(data)|)
  {
    n := |data|;
    ghost var exact := |data|;
    for i := 0 to |data|
      invariant exact == |Escape(data[..i])| + |data| - i && n == Wrap16(exact)
    {
      EscapeNext(data, i);
      CountOne(exact);
      if data[i] == IAC {
        n := Wrap16(n + 1);
        exact := exact + 1;
      }
    }
    assert data[..|data|] == data;
  }

  lemma CountOne(x: nat)
    ensures Wrap16(Wrap16(x) + 1) == Wrap16(x + 1)
  {
  }

  // ----- when the 16-bit count is right

  /** With `queued` bytes waiting, the test on the 16-bit count either refuses or the escaped data really fit. */
  predicate CountDecides(queued: nat, data: seq<Byte>) {
    queued + Wrap16(|Escape(data)|) > QUEUE_LEN || queued + |Escape(data)| <= QUEUE_LEN
  }

  /** That is, exactly then the test gives the answer of the true length. */
  lemma CountDecidesExactlyWhen(queued: nat, data: seq<Byte>)
    ensures CountDecides(queued, data) <==>
            (queued + Wrap16(|Escape(data)|) <= QUEUE_LEN <==> queued + |Escape(data)| <= QUEUE_LEN)
  {
  }

  lemma {:induction false} EscapeOfRepeat(b: Byte, n: nat)
    ensures |Escape(Repeat(b, n))| == if b == IAC then 2 * n else n
  {
    if n > 0 {
      assert Repeat(b, n)[1..] == Repeat(b, n - 1);
      EscapeOfRepeat(b, n - 1);
    }
  }

  /** The count decides for all data of length `n` exactly when `n` is at most 32767. */
  lemma CountDecidesExactlyUpTo32767(n: nat)
    requires n < TWO_16
    ensures (forall queued: nat, data | queued <= QUEUE_LEN && |data| == n :: CountDecides(queued, data)) <==>
            n <= 32767
  {
    if n > 32767 {
      var k := TWO_16 - n;
      var data := Repeat(IAC, k) + Repeat(0, n - k);
      EscapeConcat(Repeat(IAC, k), Repeat(0, n - k));
      EscapeOfRepeat(IAC, k);
      EscapeOfRepeat(0, n - k);
      assert |data| == n && |Escape(data)| == TWO_16 && !CountDecides(0, data);
    }
  }

  /** For 32768 bytes that all need escaping the count comes out as zero. */
  lemma CountOf32768IacsIsZero()
    ensures var data := Repeat(IAC, 32768);
            |Escape(data)| == 65536 && Wrap16(|Escape(data)|) == 0 && !CountDecides(0, data)
  {
    EscapeOfRepeat(IAC, 32768);
  }

  // ----- one end of a connection, as a value

  /** What one end has sent to TCP and accepted from its application, beside its parser and queue. */
  datatype End = End(parser: Parser, queue: seq<Byte>, sent: seq<Byte>, accepted: seq<Byte>, asked: nat)

  datatype Op = Receive(data: seq<Byte>) | SendData(data: seq<Byte>) | Poll(takes: bool)

  /** The three operations while connected; the class above follows these. */
  function Do(e: End, op: Op): End {
    match op
    case Receive(data) =>
      var f := Feed(e.parser, data);
      e.(parser := f.parser, queue := AnswerAll(e.queue, f.asks), asked := e.asked + |f.asks|)
    case SendData(data) =>
      if |e.queue| + |Escape(data)| > QUEUE_LEN then e
      else e.(queue := e.queue + Escape(data), accepted := e.accepted + data)
    case Poll(takes) => if takes then e.(queue := [], sent := e.sent + e.queue) else e
  }

  const CONNECTED: End := End(FRESH, [], [], [], 0)

  /** A peer that parses everything sent and queued reads the accepted bytes and ends between two units. */
  ghost predicate PeerReads(e: End) {
    && |e.queue| <= QUEUE_LEN
    && var f := Feed(FRESH, e.sent + e.queue); f.clean == e.accepted && f.parser.state == TnData
  }

  lemma {:induction false} AnswersAreSkipped(p: Parser, before: seq<Byte>, q: seq<Byte>, asks: seq<Ask>)
    requires Feed(p, before + q).parser.state == TnData && |q| <= QUEUE_LEN
    ensures var f, g := Feed(p, before + q), Feed(p, before + AnswerAll(q, asks));
            g.clean == f.clean && g.parser.state == TnData && |AnswerAll(q, asks)| <= QUEUE_LEN
            && RankSum(g.asks) <= RankSum(f.asks) + RankSum(asks) - |asks|
    decreases |asks|
  {
    if asks != [] {
      var r := ReplyBytes(asks[0]);
      var q' := Enqueue(q, r);
      if q' != q {
        var mid := Feed(p, before + q);
        FeedConcat(p, before + q, r);
        ReplyParses(mid.parser, asks[0]);
        assert before + q + r == before + q';
        RankAppend(mid.asks, Feed(mid.parser, r).asks);
        RankOne(Feed(mid.parser, r).asks, asks[0]);
      }
      AnswersAreSkipped(p, before, q', asks[1..]);
    }
  }

  /** Application data appended to the queue adds itself to what is read, and no request. */
  lemma EscapedIsRead(p: Parser, before: seq<Byte>, q: seq<Byte>, data: seq<Byte>)
    requires Feed(p, before + q).parser.state == TnData
    ensures var f := Feed(p, before + q);
            Feed(p, before + (q + Escape(data))) == Fed(f.parser, f.clean + data, f.asks)
  {
    var escaped := Escape(data);
    EscapedAfter(p, before + q, escaped, data);
    Regroup(before, q, escaped);
  }

  lemma Regroup(a: seq<Byte>, b: seq<Byte>, c: seq<Byte>)
    ensures a + b + c == a + (b + c)
  {
  }

  lemma EscapedAfter(p: Parser, whole: seq<Byte>, escaped: seq<Byte>, data: seq<Byte>)
    requires Feed(p, whole).parser.state == TnData && escaped == Escape(data)
    ensures var f := Feed(p, whole);
            Feed(p, whole + escaped) == Fed(f.parser, f.clean + data, f.asks)
  {
    var f := Feed(p, whole);
    FeedConcat(p, whole, escaped);
    EscapeParsesBack(f.parser, data);
    assert f.asks + [] == f.asks;
  }

  lemma DoKeepsPeerReads(e: End, op: Op)
    requires PeerReads(e)
    ensures PeerReads(Do(e, op))
  {
    match op
    case Receive(data) => AnswersAreSkipped(FRESH, e.sent, e.queue, Feed(e.parser, data).asks);
    case SendData(data) =>
      EscapedIsRead(FRESH, e.sent, e.queue, data);
    case Poll(takes) => assert e.sent + e.queue + [] == e.sent + e.queue;
  }

  function Run(e: End, ops: seq<Op>): End
    decreases |ops|
  {
    if ops == [] then e else Run(Do(e, ops[0]), ops[1..])
  }

  lemma {:induction false} RunKeepsPeerReads(e: End, ops: seq<Op>)
    requires PeerReads(e)
    ensures PeerReads(Run(e, ops))
    decreases |ops|
  {
    if ops != [] {
      DoKeepsPeerReads(e, ops[0]);
      RunKeepsPeerReads(Do(e, ops[0]), ops[1..]);
    }
  }

  /**
   * Whatever is sent, received and polled, and however many negotiation replies
   * are queued between the application's bytes: the peer's parser has read a
   * prefix of the accepted bytes, and all of them once the queue is empty.
   */
  lemma PeerDeliversAcceptedBytes(ops: seq<Op>)
    ensures var e := Run(CONNECTED, ops);
            var read := Feed(FRESH, e.sent).clean;
            read <= e.accepted && (e.queue == [] ==> read == e.accepted)
  {
    RunKeepsPeerReads(CONNECTED, ops);
    var e := Run(CONNECTED, ops);
    FeedConcat(FRESH, e.sent, e.queue);
    assert e.sent + [] == e.sent;
  }

  // ----- negotiation between two such ends

  /** WILL can still cause two answers, DO one, the refusals none. */
  function Rank(cmd: Byte): nat {
    if cmd == WILL then 2 else if cmd == DO then 1 else 0
  }

  function RankSum(asks: seq<Ask>): nat {
    if asks == [] then 0 else (if asks[0].cmd == DO then 1 else 2) + RankSum(asks[1..])
  }

  /** Every answer ranks strictly below the request. */
  lemma AnswersRankLower(a: Ask)
    requires a.cmd == DO || a.cmd == WILL
    ensures Rank(Reply(a)) < Rank(a.cmd)
  {
  }

  lemma {:induction false} RankAppend(a: seq<Ask>, b: seq<Ask>)
    ensures RankSum(a + b) == RankSum(a) + RankSum(b)
  {
    if a == [] {
      assert a + b == b;
    } else {
      assert (a + b)[1..] == a[1..] + b;
      RankAppend(a[1..], b);
    }
  }

  lemma RankOne(replies: seq<Ask>, a: Ask)
    requires replies == if Reply(a) == DO then [Ask(DO, a.opt)] else []
    ensures RankSum(replies) + 1 <= RankSum([a])
  {
  }

  /** Two ends and the bytes in flight each way. */
  datatype Pair = Pair(a: End, b: End, toB: seq<Byte>, toA: seq<Byte>)

  datatype PairStep =
    | SendA(data: seq<Byte>) | SendB(data: seq<Byte>)
    | PollA | PollB
    | DeliverA(n: nat) | DeliverB(n: nat)

  function Flip(s: Pair): Pair { Pair(s.b, s.a, s.toA, s.toB) }

  function Upto(n: nat, s: seq<Byte>): nat { if n < |s| then n else |s| }

  function StepA(s: Pair, step: PairStep): Pair {
    match step
    case SendA(data) => s.(a := Do(s.a, SendData(data)))
    case PollA => s.(a := Do(s.a, Poll(true)), toB := s.toB + s.a.queue)
    case DeliverA(n) => s.(a := Do(s.a, Receive(s.toA[..Upto(n, s.toA)])), toA := s.toA[Upto(n, s.toA)..])
    case _ => s
  }

  function PairNext(s: Pair, step: PairStep): Pair {
    match step
    case SendB(data) => Flip(StepA(Flip(s), SendA(data)))
    case PollB => Flip(StepA(Flip(s), PollA))
    case DeliverB(n) => Flip(StepA(Flip(s), DeliverA(n)))
    case _ => StepA(s, step)
  }

  /** The ranks of the requests still on their way to `p`. */
  function Pending(p: Parser, coming: seq<Byte>): nat { RankSum(Feed(p, coming).asks) }

  function Potential(s: Pair): nat {
    Pending(s.b.parser, s.toB + s.a.queue) + Pending(s.a.parser, s.toA + s.b.queue)
  }

  /** The bytes each way end between two units. */
  ghost predicate Aligned(s: Pair) {
    && |s.a.queue| <= QUEUE_LEN && |s.b.queue| <= QUEUE_LEN
    && Feed(s.b.parser, s.toB + s.a.queue).parser.state == TnData
    && Feed(s.a.parser, s.toA + s.b.queue).parser.state == TnData
  }

  lemma StepASettles(s: Pair, step: PairStep)
    requires Aligned(s)
    ensures var t := StepA(s, step);
            && Aligned(t) && t.b.asked == s.b.asked
            && t.a.asked + Potential(t) <= s.a.asked + Potential(s)
  {
    match step
    case SendA(data) =>
      EscapedIsRead(s.b.parser, s.toB, s.a.queue, data);
    case PollA => assert s.toB + s.a.queue + [] == s.toB + s.a.queue;
    case DeliverA(n) => DeliverASettles(s, n);
    case _ =>
  }

  lemma DeliverASettles(s: Pair, n: nat)
    requires Aligned(s)
    ensures var t := StepA(s, DeliverA(n));
            && Aligned(t)
            && t.a.asked + Potential(t) <= s.a.asked + Potential(s)
  {
    var k := Upto(n, s.toA);
    var chunk, rest := s.toA[..k], s.toA[k..] + s.b.queue;
    assert s.toA + s.b.queue == chunk + rest;
    PendingSplit(s.a.parser, chunk, rest);
    AnswersAreSkipped(s.b.parser, s.toB, s.a.queue, Feed(s.a.parser, chunk).asks);
  }

  lemma PendingSplit(p: Parser, chunk: seq<Byte>, rest: seq<Byte>)
    ensures var f := Feed(p, chunk);
            && Pending(p, chunk + rest) == RankSum(f.asks) + Pending(f.parser, rest)
            && Feed(p, chunk + rest).parser == Feed(f.parser, rest).parser
  {
    var f := Feed(p, chunk);
    FeedConcat(p, chunk, rest);
    RankAppend(f.asks, Feed(f.parser, rest).asks);
  }

  lemma PairStepSettles(s: Pair, step: PairStep)
    requires Aligned(s)
    ensures var t := PairNext(s, step);
            && Aligned(t)
            && t.a.asked + t.b.asked + Potential(t) <= s.a.asked + s.b.asked + Potential(s)
  {
    match step
    case SendB(data) => StepASettles(Flip(s), SendA(data));
    case PollB => StepASettles(Flip(s), PollA);
    case DeliverB(n) => StepASettles(Flip(s), DeliverA(n));
    case _ => StepASettles(s, step);
  }

  function PairRun(s: Pair, steps: seq<PairStep>): Pair
    decreases |steps|
  {
    if steps == [] then s else PairRun(PairNext(s, steps[0]), steps[1..])
  }

  /**
   * From any bytes in flight, over any run, the number of requests answered
   * never exceeds the rank of those that were under way at the start.
   */
  lemma {:induction false} NegotiationEnds(s: Pair, steps: seq<PairStep>)
    requires Aligned(s)
    ensures var t := PairRun(s, steps);
            t.a.asked + t.b.asked + Potential(t) <= s.a.asked + s.b.asked + Potential(s)
    decreases |steps|
  {
    if steps != [] {
      PairStepSettles(s, steps[0]);
      NegotiationEnds(PairNext(s, steps[0]), steps[1..]);
    }
  }

  /** In particular one offer is followed by at most two answers. */
  lemma OneOfferTwoAnswers(cmd: Byte, opt: Byte, steps: seq<PairStep>)
    requires cmd == DO || cmd == WILL
    ensures var s := Pair(CONNECTED, CONNECTED, [IAC, cmd, opt], []);
            var t := PairRun(s, steps);
            t.a.asked + t.b.asked <= Rank(cmd)
  {
    var s := Pair(CONNECTED, CONNECTED, [IAC, cmd, opt], []);
    FeedConcat(FRESH, [IAC], [cmd, opt]);
    FeedConcat(FRESH.(state := TnIac), [cmd], [opt]);
    FeedOne(FRESH, IAC);
    FeedOne(FRESH.(state := TnIac), cmd);
    FeedOne(Parser(TnCmd, cmd), opt);
    assert [IAC] + [cmd, opt] == s.toB + [] && [cmd] + [opt] == [cmd, opt];
    assert Feed(FRESH, s.toB).asks == [Ask(cmd, opt)];
    assert [Ask(cmd, opt)][1..] == [];
    NegotiationEnds(s, steps);
  }
}
