/**
 * The per-process mailboxes of sw/os/msg.c: fixed-depth rings that behave as
 * bounded FIFO queues.  Interrupts are masked during a push or a pop, so each
 * is one step.
 */
module Mailbox {
  import opened Words

  const DEPTH: int := 32

  /** z_mailbox_push */
  function Push<T>(q: seq<T>, e: T): (seq<T>, bool) {
    if |q| >= DEPTH then (q, false) else (q + [e], true)
  }

  /** z_mailbox_pop */
  function Pop<T>(q: seq<T>): (seq<T>, Option<T>) {
    if q == [] then (q, None) else (q[1..], Some(q[0]))
  }

  /** z_mailbox_t, for any kind of envelope. */
  class Ring<T> {
    const msgs: array<T>
    var head: int
    var tail: int
    var count: int
    ghost var queue: seq<T>

    static function Slot(head: int, i: int): int {
      if head + i < DEPTH then head + i else head + i - DEPTH
    }

    ghost predicate Valid()
      reads this, msgs
    {
      && msgs.Length == DEPTH && 0 <= head < DEPTH && 0 <= count <= DEPTH
      && tail == Slot(head, count % DEPTH)
      && |queue| == count
      && forall i | 0 <= i < count :: msgs[Slot(head, i)] == queue[i]
    }

    constructor (blank: T)
      ensures fresh(msgs) && Valid() && queue == []
    {
      msgs := new T[DEPTH](_ => blank);
      head, tail, count, queue := 0, 0, 0, [];
    }

    method PushMessage(e: T) returns (ok: bool)
      requires Valid()
      modifies this, msgs
      ensures Valid() && (queue, ok) == Push(old(queue), e)
    {
      if count >= DEPTH {
        return false;
      }
      msgs[tail] := e;
      tail := (tail + 1) % DEPTH;
      count := count + 1;
      queue := queue + [e];
      ok := true;
    }

    method PopMessage() returns (e: Option<T>)
      requires Valid()
      modifies this
      ensures Valid() && (queue, e) == Pop(old(queue))
    {
      if count == 0 {
        return None;
      }
      e := Some(msgs[head]);
      head := (head + 1) % DEPTH;
      count := count - 1;
      queue := queue[1..];
    }
  }
}
