/**
 * k_msg_send and k_msg_read of sw/os/msg.c: envelopes go through the mailboxes
 * of 16 processes, and a payload is resolved only when it is read.
 */
module Message {
  import opened Words
  import opened Mailbox
  import opened Resolve
  import Sender

  const PROCS_MAX: int := 16

  /** An envelope whose payload still points into its sender's memory. */
  datatype Letter = Letter(to: uint32, from: uint32, subject: uint32, tag: uint32, obj: Obj<uint32>)

  /** What k_msg_read fills in. */
  datatype Received = Received(to: uint32, from: uint32, subject: uint32, tag: uint32, obj: Obj<nat>)

  // ----- every mailbox, as values

  /** The queues, with what each process has accepted for delivery and read so far. */
  datatype Mail = Mail(queues: seq<seq<Letter>>, ghost accepted: seq<seq<Letter>>, ghost taken: seq<seq<Letter>>)

  /** A process that exists asks to send, or reads its own mailbox. */
  datatype Step = DoSend(pid: uint32, to: uint32, subject: uint32, tag: uint32, obj: Obj<uint32>, alive: bool)
      | DoRead(pid: uint32)

  /** The letter carries what this send step passed, and the pid of the process that was running. */
  predicate Carries(letter: Letter, step: Step) {
    && step.DoSend? && letter.to == step.to && letter.from == step.pid
    && letter.subject == step.subject && letter.tag == step.tag && letter.obj == step.obj
  }

  ghost predicate Shape(m: Mail) {
    |m.queues| == |m.accepted| == |m.taken| == PROCS_MAX
  }

  ghost function Next(m: Mail, step: Step): Mail
    requires Shape(m)
  {
    match step
    case DoSend(pid, to, subject, tag, obj, alive) =>
      if to >= PROCS_MAX || !alive then m
      else
        var letter := Letter(to, pid, subject, tag, obj);
        var (q, ok) := Push(m.queues[to], letter);
        if !ok then m
        else m.(queues := m.queues[to := q], accepted := m.accepted[to := m.accepted[to] + [letter]])
    case DoRead(pid) =>
      if pid >= PROCS_MAX then m
      else
        var (q, letter) := Pop(m.queues[pid]);
        if letter == None then m
        else m.(queues := m.queues[pid := q], taken := m.taken[pid := m.taken[pid] + [letter.value]])
  }

  /** Each process has read a prefix of what was accepted for it; the rest is queued. */
  ghost predicate InOrder(m: Mail) {
    && Shape(m)
    && forall p | 0 <= p < PROCS_MAX ::
         m.accepted[p] == m.taken[p] + m.queues[p] && |m.queues[p]| <= DEPTH
         && forall k | 0 <= k < |m.accepted[p]| :: m.accepted[p][k].to == p
  }

  lemma StepKeepsOrder(m: Mail, step: Step)
    requires InOrder(m)
    ensures InOrder(Next(m, step))
  {
  }

  ghost function Run(m: Mail, steps: seq<Step>): Mail
    requires Shape(m)
    decreases |steps|
  {
    if steps == [] then m else Run(Next(m, steps[0]), steps[1..])
  }

  /** The send steps to `p` that find it alive and its mailbox not full, in order. */
  ghost function Accepted(m: Mail, steps: seq<Step>, p: nat): seq<Step>
    requires Shape(m) && p < PROCS_MAX
    decreases |steps|
  {
    if steps == [] then []
    else
      var taken := steps[0].DoSend? && steps[0].to == p && steps[0].alive && |m.queues[p]| < DEPTH;
      (if taken then [steps[0]] else []) + Accepted(Next(m, steps[0]), steps[1..], p)
  }

  /** These letters are what these steps sent, one by one. */
  ghost predicate AllCarried(letters: seq<Letter>, steps: seq<Step>) {
    |letters| == |steps| && forall i | 0 <= i < |steps| :: Carries(letters[i], steps[i])
  }

  lemma {:induction false} AcceptedIsCarried(m: Mail, steps: seq<Step>, p: nat) returns (letters: seq<Letter>)
    requires InOrder(m) && p < PROCS_MAX
    ensures InOrder(Run(m, steps)) && Run(m, steps).accepted[p] == m.accepted[p] + letters
    ensures AllCarried(letters, Accepted(m, steps, p))
    decreases |steps|
  {
    letters := [];
    if steps != [] {
      var m' := Next(m, steps[0]);
      StepKeepsOrder(m, steps[0]);
      var rest := AcceptedIsCarried(m', steps[1..], p);
      letters := m'.accepted[p][|m.accepted[p]|..] + rest;
    }
  }

  /** Nothing has been sent or read. */
  ghost predicate Empty(m: Mail) {
    Shape(m) && forall p | 0 <= p < PROCS_MAX :: m.queues[p] == m.accepted[p] == m.taken[p] == []
  }

  /**
   * From empty mailboxes: what a process has read, followed by what is queued
   * for it, is exactly what the accepted send steps to it passed, in their
   * order, each stamped with the sender's pid.  Nothing is lost, repeated,
   * reordered, forged or delivered to another process.
   */
  lemma EveryRunDeliversInOrder(m: Mail, steps: seq<Step>, p: nat)
    requires Empty(m) && p < PROCS_MAX
    ensures var u := Run(m, steps);
            Shape(u) && AllCarried(u.taken[p] + u.queues[p], Accepted(m, steps, p))
  {
    var letters := AcceptedIsCarried(m, steps, p);
    assert [] + letters == letters;
  }

  /** Once the process has read past it, a letter accepted now is the one it got in its place. */
  lemma AcceptedLetterIsRead(m: Mail, send: Step, steps: seq<Step>)
    requires InOrder(m) && send.DoSend? && send.to < PROCS_MAX && send.alive && |m.queues[send.to]| < DEPTH
    ensures var n, u := |m.accepted[send.to]|, Run(Next(m, send), steps);
            Shape(u) && (|u.taken[send.to]| > n ==> Carries(u.taken[send.to][n], send))
  {
    StepKeepsOrder(m, send);
    var letters := AcceptedIsCarried(Next(m, send), steps, send.to);
    var n, u := |m.accepted[send.to]|, Run(Next(m, send), steps);
    assert Carries(Next(m, send).accepted[send.to][n], send);
    assert u.accepted[send.to] == Next(m, send).accepted[send.to] + letters;
    assert |u.taken[send.to]| > n ==> u.taken[send.to][n] == u.accepted[send.to][n];
  }

  // ----- the code

  /** k_msg_send; `box` is the mailbox of `to`, and `base` its process slot's base address. */
  method SendMessage(pid: uint32, to: uint32, subject: uint32, tag: uint32, obj: Obj<uint32>, base: uint32,
      box: Ring<Letter>) returns (ok: bool)
    requires box.Valid()
    modifies box, box.msgs
    ensures box.Valid()
    ensures ok <==> to < PROCS_MAX && base != 0 && |old(box.queue)| < DEPTH
    ensures !ok ==> box.queue == old(box.queue)
    ensures ok ==> |box.queue| == |old(box.queue)| + 1 && box.queue[..|old(box.queue)|] == old(box.queue)
    ensures ok ==> Carries(box.queue[|old(box.queue)|], DoSend(pid, to, subject, tag, obj, base != 0))
  {
    if to >= PROCS_MAX || base == 0 {
      return false;
    }
    ok := box.PushMessage(Letter(to, pid, subject, tag, obj));
  }

  /**
   * k_msg_read: the next message, with its payload rebuilt in the caller's
   * scratch area; `bases` are the process slots' base addresses.  A payload
   * that does not fit arrives as Z_NONE, so the mailbox is never stuck.
   */
  method ReadMessage(box: Ring<Letter>, bases: uint32 -> uint32, m: Memory, s: Scratch) returns (r: Option<Received>)
    requires box.Valid() && s.Valid() && s.Used() == ZERO
    requires box.queue != [] ==>
               var letter := box.queue[0];
               Resolved(GraphOf(m.(pid := letter.from, base := bases(letter.from))), letter.obj, ZERO) != Overrun
    modifies box, s, s.tables, s.items, s.blobs
    ensures box.Valid() && s.Valid()
    ensures (box.queue, if r == None then None else Some(r.value.from)) ==
            var (q, letter) := Pop(old(box.queue));
            (q, if letter == None then None else Some(letter.value.from))
    ensures r.Some? ==>
              var letter := old(box.queue)[0];
              var sender := m.(pid := letter.from, base := bases(letter.from));
              var d := Resolved(GraphOf(sender), letter.obj, ZERO);
              && (r.value.to, r.value.subject, r.value.tag) == (letter.to, letter.subject, letter.tag)
              && (if d.Done? then Holds(sender, s.View(), r.value.obj, d.tree, ZERO) else r.value.obj == Nothing)
              && forall tree |
                   Sender.OwnPayload(sender, letter.obj, tree) && Sender.Reads(sender, letter.obj, tree) ::
                   if Fits(Size(tree)) then Holds(sender, s.View(), r.value.obj, tree, ZERO)
                   else r.value.obj == Nothing
  {
    var letter := box.PopMessage();
    if letter == None {
      return None;
    }
    var e := letter.value;
    var sender := m.(pid := e.from, base := bases(e.from));
    GraphOfDepicts(sender);
    var obj, ok := s.ResolveObj(sender, e.obj, GraphOf(sender));
    forall tree | Sender.OwnPayload(sender, e.obj, tree) && Sender.Reads(sender, e.obj, tree)
      ensures if Fits(Size(tree)) then Holds(sender, s.View(), obj, tree, ZERO) else obj == Nothing
    {
      Sender.PayloadArrivesAsSeen(sender, e.obj, tree);
    }
    r := Some(Received(e.to, e.from, e.subject, e.tag, obj));
  }
}
