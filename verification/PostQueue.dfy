/** The signaling client's queue of bodies to post (p2p_signaling.c): head and tail only, so
    one slot always stays empty. */
module PostQueue {
  import opened Machine
  import opened Ring
  import opened SignalingLimits

  /** snprintf("%s") into a slot keeps what fits in front of the terminator. */
  function Clipped(body: string): string {
    if |body| < MAX_MSG_SIZE then body else body[..MAX_MSG_SIZE - 1]
  }

  class Queue {
    const slots: array<string>
    var head: nat
    var tail: nat
    var running: bool

    ghost predicate Valid()
      reads this, slots
    {
      slots.Length == POST_QUEUE_SIZE && head < POST_QUEUE_SIZE && tail < POST_QUEUE_SIZE
    }

    ghost function Length(): (n: nat)
      requires Valid()
      reads this, slots
      ensures n < POST_QUEUE_SIZE && tail == Wrap(head + n, POST_QUEUE_SIZE)
    {
      if tail >= head then tail - head else tail + POST_QUEUE_SIZE - head
    }

    ghost function Contents(): seq<string>
      requires Valid()
      reads this, slots
    {
      Segment(slots[..], head, Length())
    }

    constructor ()
      ensures Valid() && fresh(slots) && running && Contents() == []
    {
      slots := new string[POST_QUEUE_SIZE](_ => "");
      head, tail, running := 0, 0, true;
    }

    /** post_signal_async: 31 of the 32 slots are usable. */
    method Enqueue(body: string) returns (rc: int)
      requires Valid()
      modifies `tail, slots
      ensures Valid()
      ensures rc == 0 || rc == -1
      ensures rc == 0 <==> running && |old(Contents())| < POST_QUEUE_SIZE - 1
      ensures Contents() == if running then Refusing(old(Contents()), Clipped(body), POST_QUEUE_SIZE - 1)
                            else old(Contents())
      ensures rc == 0 ==> Contents() == old(Contents()) + [if |body| <= 8191 then body else body[..8191]]
      ensures rc == -1 ==> Contents() == old(Contents())
    {
      if !running {
        return -1;
      }
      var next := Wrap(tail + 1, POST_QUEUE_SIZE);
      if next == head {
        return -1;
      }
      SegmentPush(slots[..], head, Length(), Clipped(body));
      ghost var s := slots[..];
      slots[tail] := Clipped(body);
      assert slots[..] == s[tail := Clipped(body)];
      tail := next;
      return 0;
    }

    /** One turn of post_worker_func while it runs: takes the oldest body, if any. */
    method Dequeue() returns (body: Option<string>)
      requires Valid()
      modifies `head
      ensures Valid()
      ensures body.None? <==> !running || old(Contents()) == []
      ensures body.Some? ==> body.value == old(Contents())[0] && Contents() == old(Contents())[1..]
      ensures body.None? ==> Contents() == old(Contents())
    {
      if !running || head == tail {
        return None;
      }
      SegmentPop(slots[..], head, Length());
      body := Some(slots[head]);
      head := Wrap(head + 1, POST_QUEUE_SIZE);
    }
  }
}
