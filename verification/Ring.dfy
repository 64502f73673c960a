/** Circular buffers: the sequence that a fixed block of slots stands for, and the bounded
    queues that the project's three ring layouts implement. */
module Ring {

  /** i % cap for the one addition that the rings make. */
  function Wrap(i: nat, cap: nat): (r: nat)
    requires i < 2 * cap
    ensures r < cap
  {
    if i < cap then i else i - cap
  }

  lemma {:induction false} WrapIsRemainder(i: nat, cap: nat)
    requires i < 2 * cap
    ensures Wrap(i, cap) == i % cap
  {
    if i >= cap {
      assert i == cap + (i - cap);
    }
  }

  /** The count slots from head on, wrapping around. */
  function Segment<T>(s: seq<T>, head: nat, count: nat): (q: seq<T>)
    requires head < |s| && count <= |s|
    ensures |q| == count
  {
    (s[head..] + s[..head])[..count]
  }

  lemma {:induction false} SegmentAt<T>(s: seq<T>, head: nat, count: nat, i: nat)
    requires head < |s| && i < count <= |s|
    ensures Segment(s, head, count)[i] == s[Wrap(head + i, |s|)]
  {}

  lemma {:induction false} SegmentPush<T>(s: seq<T>, head: nat, count: nat, x: T)
    requires head < |s| && count < |s|
    ensures Segment(s[Wrap(head + count, |s|) := x], head, count + 1) == Segment(s, head, count) + [x]
  {
    var t := s[Wrap(head + count, |s|) := x];
    forall i: nat | i <= count ensures Segment(t, head, count + 1)[i] == (Segment(s, head, count) + [x])[i] {
      SegmentAt(t, head, count + 1, i);
      if i < count {
        SegmentAt(s, head, count, i);
      }
    }
  }

  lemma {:induction false} SegmentPop<T>(s: seq<T>, head: nat, count: nat)
    requires head < |s| && 0 < count <= |s|
    ensures Segment(s, head, count)[0] == s[head]
    ensures Segment(s, Wrap(head + 1, |s|), count - 1) == Segment(s, head, count)[1..]
  {
    forall i: nat | i < count - 1
      ensures Segment(s, Wrap(head + 1, |s|), count - 1)[i] == Segment(s, head, count)[1..][i]
    {
      SegmentAt(s, Wrap(head + 1, |s|), count - 1, i);
      SegmentAt(s, head, count, i + 1);
    }
  }

  // ---------- The abstract queue that refuses when full ----------

  datatype Op<T> = Put(x: T) | Get

  /** The queue after a run, the items it accepted and the items it gave back. */
  datatype Log<T> = Log(q: seq<T>, accepted: seq<T>, given: seq<T>)

  function Refusing<T>(q: seq<T>, x: T, cap: nat): seq<T> {
    if |q| >= cap then q else q + [x]
  }

  function RunRefusing<T>(ops: seq<Op<T>>, cap: nat): Log<T> {
    if ops == [] then Log([], [], [])
    else
      var l := RunRefusing(ops[..|ops| - 1], cap);
      match ops[|ops| - 1]
      case Put(x) => Log(Refusing(l.q, x, cap), if |l.q| >= cap then l.accepted else l.accepted + [x], l.given)
      case Get => if l.q == [] then l else Log(l.q[1..], l.accepted, l.given + [l.q[0]])
  }

  /** First in, first out: what was given back, then what is still held, is exactly what was
      accepted, in that order; and the capacity is never exceeded. */
  lemma {:induction false} RefusingIsFifo<T>(ops: seq<Op<T>>, cap: nat)
    ensures var l := RunRefusing(ops, cap); l.given + l.q == l.accepted && |l.q| <= cap
  {
    if ops == [] {
    } else {
      RefusingIsFifo(ops[..|ops| - 1], cap);
      var l := RunRefusing(ops[..|ops| - 1], cap);
      if ops[|ops| - 1].Get? && l.q != [] {
        assert l.q == [l.q[0]] + l.q[1..];
      }
    }
  }

  // ---------- The abstract queue that drops its oldest item ----------

  /** PutFailed is a put whose copy finds no memory, after room has been made for it. */
  datatype DropOp<T> = DropPut(x: T) | PutFailed | Clear

  function MakeRoom<T>(q: seq<T>, cap: nat): seq<T> {
    if |q| >= cap && q != [] then q[1..] else q
  }

  function Dropping<T>(q: seq<T>, op: DropOp<T>, cap: nat): seq<T> {
    match op
    case DropPut(x) => MakeRoom(q, cap) + [x]
    case PutFailed => MakeRoom(q, cap)
    case Clear => []
  }

  function RunDropping<T>(ops: seq<DropOp<T>>, cap: nat): seq<T> {
    if ops == [] then [] else Dropping(RunDropping(ops[..|ops| - 1], cap), ops[|ops| - 1], cap)
  }

  /** What was put since the last clear. */
  function SinceClear<T>(ops: seq<DropOp<T>>): seq<T> {
    if ops == [] then []
    else
      var rest := SinceClear(ops[..|ops| - 1]);
      match ops[|ops| - 1]
      case DropPut(x) => rest + [x]
      case PutFailed => rest
      case Clear => []
  }

  function Last<T>(s: seq<T>, n: nat): seq<T> {
    if |s| <= n then s else s[|s| - n..]
  }

  predicate NoFailure<T>(ops: seq<DropOp<T>>) {
    forall i :: 0 <= i < |ops| ==> !ops[i].PutFailed?
  }

  lemma {:induction false} LastOfMore<T>(s: seq<T>, x: T, n: nat)
    requires n > 0
    ensures Last(s + [x], n) == MakeRoom(Last(s, n), n) + [x]
  {}

  lemma {:induction false} TailMoves<T>(q: seq<T>, s: seq<T>, cap: nat)
    requires q == Last(s, |q|) && |q| <= cap && cap > 0
    ensures MakeRoom(q, cap) == Last(s, |MakeRoom(q, cap)|)
  {}

  lemma {:induction false} TailGrows<T>(q: seq<T>, s: seq<T>, x: T)
    requires q == Last(s, |q|)
    ensures q + [x] == Last(s + [x], |q| + 1)
  {}

  /** The ring holds a tail of what was put since the last clear, within its capacity. */
  lemma {:induction false} DroppingHoldsATail<T>(ops: seq<DropOp<T>>, cap: nat)
    requires cap > 0
    ensures |RunDropping(ops, cap)| <= cap
    ensures RunDropping(ops, cap) == Last(SinceClear(ops), |RunDropping(ops, cap)|)
  {
    if ops == [] {
    } else {
      var before := ops[..|ops| - 1];
      var q, s := RunDropping(before, cap), SinceClear(before);
      DroppingHoldsATail(before, cap);
      TailMoves(q, s, cap);
      match ops[|ops| - 1]
      case DropPut(x) =>
        TailGrows(MakeRoom(q, cap), s, x);
      case PutFailed =>
      case Clear =>
    }
  }

  /** When no copy has failed it holds the most recent of them, as many as fit. */
  lemma {:induction false} DroppingKeepsTheLast<T>(ops: seq<DropOp<T>>, cap: nat)
    requires cap > 0 && NoFailure(ops)
    ensures RunDropping(ops, cap) == Last(SinceClear(ops), cap)
  {
    if ops == [] {
    } else {
      var before := ops[..|ops| - 1];
      DroppingKeepsTheLast(before, cap);
      match ops[|ops| - 1]
      case DropPut(x) =>
        LastOfMore(SinceClear(before), x, cap);
      case Clear =>
    }
  }
}
