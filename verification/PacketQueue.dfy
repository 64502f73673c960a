/** The engine's packet receive queue (p2p_packet_queue.c): head, tail and count. */
module PacketQueue {
  import opened Machine
  import opened Ring

  const PKT_MAX_SIZE: nat := 1500

  datatype Packet = Packet(data: seq<u8>, recvTimeUs: u64, agentIdx: int)

  class Queue {
    const buf: array<Packet>
    var head: nat
    var tail: nat
    var count: nat

    ghost predicate Valid()
      reads this, buf
    {
      && 0 < buf.Length && head < buf.Length && count <= buf.Length
      && tail == Wrap(head + count, buf.Length)
    }

    ghost function Contents(): seq<Packet>
      requires Valid()
      reads this, buf
    {
      Segment(buf[..], head, count)
    }

    constructor (capacity: nat)
      requires capacity > 0
      ensures Valid() && fresh(buf) && buf.Length == capacity && Contents() == []
    {
      buf := new Packet[capacity](_ => Packet([], 0, 0));
      head, tail, count := 0, 0, 0;
    }

    /** p2p_packet_queue_init refuses a capacity that is not positive, or finds no memory. */
    static method Init(capacity: int, memOk: bool) returns (q: Queue?)
      ensures q == null <==> capacity <= 0 || !memOk
      ensures q != null ==> q.Valid() && fresh(q) && q.buf.Length == capacity && q.Contents() == []
    {
      q := null;
      if capacity > 0 && memOk {
        q := new Queue(capacity);
      }
    }

    method Push(data: seq<u8>, recvTimeUs: u64, agentIdx: int) returns (rc: int)
      requires Valid()
      modifies `tail, `count, buf
      ensures Valid()
      ensures rc == 0 || rc == -1
      ensures rc == 0 <==> 0 < |data| <= PKT_MAX_SIZE && |old(Contents())| < buf.Length
      ensures rc == 0 ==> Contents() == Refusing(old(Contents()), Packet(data, recvTimeUs, agentIdx), buf.Length)
      ensures rc != 0 ==> Contents() == old(Contents())
    {
      if |data| == 0 || |data| > PKT_MAX_SIZE || count >= buf.Length {
        return -1;
      }
      var pkt := Packet(data, recvTimeUs, agentIdx);
      SegmentPush(buf[..], head, count, pkt);
      ghost var s := buf[..];
      buf[tail] := pkt;
      assert buf[..] == s[tail := pkt];
      tail := Wrap(tail + 1, buf.Length);
      count := count + 1;
      return 0;
    }

    method Pop() returns (rc: int, out: Packet)
      requires Valid()
      modifies `head, `count
      ensures Valid()
      ensures rc == if old(Contents()) == [] then -1 else 0
      ensures rc == 0 ==> out == old(Contents())[0] && Contents() == old(Contents())[1..]
      ensures rc != 0 ==> Contents() == old(Contents())
    {
      if count == 0 {
        return -1, Packet([], 0, 0);
      }
      SegmentPop(buf[..], head, count);
      out := buf[head];
      head := Wrap(head + 1, buf.Length);
      count := count - 1;
      rc := 0;
    }

    method Count() returns (c: nat)
      requires Valid()
      ensures c == |Contents()|
    {
      c := count;
    }
  }
}
