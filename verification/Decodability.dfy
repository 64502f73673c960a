/** Runs of whole video frames through the receiver: which delta frames reach the decoder
    with their references, and that the output is a subsequence of the input. */
module Decodability {
  import opened Machine
  import opened Receiver
  import opened Subsequences

  /** A video frame that arrives in one piece. */
  predicate Whole(a: Arrival) {
    a.h.ftype.Video? && a.h.fragOffset == 0 && a.h.fragLen == a.h.totalLen == |a.payload|
  }

  /** The frame fits the buffer and its copy finds memory; any other frame is dropped. */
  predicate Kept(a: Arrival) {
    a.memOk && |a.payload| <= VIDEO_MAX_SIZE
  }

  ghost predicate Increasing(run: seq<Arrival>) {
    forall i, j :: 0 <= i < j < |run| ==> run[i].h.seqNo < run[j].h.seqNo
  }

  ghost predicate WholeRun(run: seq<Arrival>) {
    Increasing(run) && forall i :: 0 <= i < |run| ==> Whole(run[i])
  }

  ghost predicate Start(st: Rx) {
    Initial(st) && |st.video.data| == VIDEO_MAX_SIZE
  }

  // ---------- The gate on its own ----------

  /** The part of the receiver's state that decides about whole frames. */
  datatype GateState = GateState(hasLast: bool, lastVideoSeq: u32, waiting: bool, lastIdrReqUs: u64)

  function GateOf(st: Rx): GateState {
    GateState(st.hasLast, st.lastVideoSeq, st.waiting, st.lastIdrReqUs)
  }

  predicate Behind(g: GateState, a: Arrival) {
    g.hasLast && a.h.seqNo > Add32(g.lastVideoSeq, 1)
  }

  predicate Elapsed(g: GateState, a: Arrival) {
    Sub64(a.nowGap, g.lastIdrReqUs) >= IDR_THROTTLE_US
  }

  predicate Held(g: GateState, a: Arrival) {
    !a.h.key && (g.waiting || (Behind(g, a) && Elapsed(g, a)))
  }

  function GateStep(g: GateState, a: Arrival): GateState {
    GateState(true, a.h.seqNo, Held(g, a), if Behind(g, a) && Elapsed(g, a) then a.nowGap else g.lastIdrReqUs)
  }

  function Shown(a: Arrival): Delivery {
    Delivery(Video, a.h.key, a.h.timestampUs, a.payload)
  }

  function Shows(g: GateState, a: Arrival): Output {
    if Held(g, a) || !Kept(a) then Nothing else Deliver(Shown(a))
  }

  /** The gate before frame i, starting from g. */
  function GateBefore(g: GateState, run: seq<Arrival>, i: nat): GateState
    requires i <= |run|
  {
    if i == 0 then g else GateStep(GateBefore(g, run, i - 1), run[i - 1])
  }

  /** On whole frames the receiver is its gate: a frame is shown at once, held back or dropped. */
  lemma {:induction false} WholeStep(st: Rx, a: Arrival)
    requires !st.video.active && |st.video.data| == VIDEO_MAX_SIZE && Whole(a)
    ensures var r := RxStep(st, a);
            && !r.st.video.active && |r.st.video.data| == VIDEO_MAX_SIZE
            && GateOf(r.st) == GateStep(GateOf(st), a)
            && r.out == Shows(GateOf(st), a)
  {
    if |a.payload| <= VIDEO_MAX_SIZE {
      assert Patch(st.video.data, 0, a.payload)[..|a.payload|] == a.payload;
    }
  }

  lemma {:induction false} GatePrefix(g: GateState, run: seq<Arrival>, i: nat, j: nat)
    requires i <= j <= |run|
    ensures GateBefore(g, run[..j], i) == GateBefore(g, run, i)
  {
    if i == 0 {
    } else {
      GatePrefix(g, run, i - 1, j);
    }
  }

  lemma {:induction false} RunState(st: Rx, run: seq<Arrival>)
    requires Start(st) && WholeRun(run)
    ensures var r := Run(st, run).st;
            && !r.video.active && |r.video.data| == VIDEO_MAX_SIZE
            && GateOf(r) == GateBefore(GateOf(st), run, |run|)
    decreases |run|
  {
    if run == [] {
    } else {
      var n := |run| - 1;
      RunState(st, run[..n]);
      WholeStep(Run(st, run[..n]).st, run[n]);
      GatePrefix(GateOf(st), run, n, n);
    }
  }

  lemma {:induction false} RunIsGate(st: Rx, run: seq<Arrival>, i: nat)
    requires Start(st) && WholeRun(run) && i < |run|
    ensures Run(st, run).outs[i] == Shows(GateBefore(GateOf(st), run, i), run[i])
    decreases |run|
  {
    var n := |run| - 1;
    if i == n {
      RunState(st, run[..n]);
      WholeStep(Run(st, run[..n]).st, run[n]);
      GatePrefix(GateOf(st), run, n, n);
    } else {
      RunIsGate(st, run[..n], i);
      GatePrefix(GateOf(st), run, i, n);
    }
  }

  // ---------- Decodability ----------

  predicate Consecutive(run: seq<Arrival>, i: nat)
    requires 0 < i < |run|
  {
    run[i].h.seqNo == run[i - 1].h.seqNo + 1
  }

  /** Frames j..i are all delivered and consecutively numbered. */
  ghost predicate Link(run: seq<Arrival>, outs: seq<Output>, j: nat, i: nat)
    requires j <= i < |run| == |outs|
  {
    forall k :: j <= k <= i ==> outs[k].Deliver? && (k > j ==> Consecutive(run, k))
  }

  /** Frame i leads back over delivered neighbours to a keyframe or to the very first frame. */
  ghost predicate Chained(run: seq<Arrival>, outs: seq<Output>, i: nat)
    requires i < |run| == |outs|
  {
    exists j: nat :: j <= i && (run[j].h.key || j == 0) && Link(run, outs, j, i)
  }

  ghost predicate Decodable(run: seq<Arrival>, outs: seq<Output>)
    requires |run| == |outs|
  {
    forall i: nat :: i < |run| && outs[i].Deliver? && !run[i].h.key ==> Chained(run, outs, i)
  }

  /** The guards of the two branches that let a broken frame through. A delta frame that
      finds the gate open and is not dropped must either come behind a gap, late enough after
      the last keyframe request to shut the gate; or follow a frame that was not dropped. */
  ghost predicate Guarded(st: Rx, run: seq<Arrival>, i: nat)
    requires i < |run|
  {
    var g := GateBefore(GateOf(st), run, i);
    Kept(run[i]) && !run[i].h.key && !g.waiting ==>
      && (Behind(g, run[i]) ==> Elapsed(g, run[i]))
      && (i > 0 && !Behind(g, run[i]) ==> Kept(run[i - 1]))
  }

  /** Frame i is a delivered delta frame whose predecessor was not delivered right before it. */
  ghost predicate Broken(run: seq<Arrival>, outs: seq<Output>, i: nat)
    requires i < |run| == |outs|
  {
    i > 0 && !run[i].h.key && outs[i].Deliver? && !(outs[i - 1].Deliver? && Consecutive(run, i))
  }

  lemma {:induction false} ChainFromNeighbours(run: seq<Arrival>, outs: seq<Output>, i: nat)
    requires i < |run| == |outs| && outs[i].Deliver?
    requires forall k: nat :: k < |run| ==> !Broken(run, outs, k)
    ensures Chained(run, outs, i)
  {
    assert !Broken(run, outs, i);
    if run[i].h.key || i == 0 {
      assert Link(run, outs, i, i);
    } else {
      ChainFromNeighbours(run, outs, i - 1);
      var j: nat :| j <= i - 1 && (run[j].h.key || j == 0) && Link(run, outs, j, i - 1);
      assert Link(run, outs, j, i);
    }
  }

  lemma {:induction false} BrokenHasNoChain(run: seq<Arrival>, outs: seq<Output>, i: nat)
    requires i < |run| == |outs| && Broken(run, outs, i)
    ensures !Chained(run, outs, i)
  {
    forall j: nat | j <= i && (run[j].h.key || j == 0) ensures !Link(run, outs, j, i) {
      assert j < i;
      assert j <= i - 1 <= i;
    }
  }

  lemma {:induction false} DecodableIffUnbroken(run: seq<Arrival>, outs: seq<Output>)
    requires |run| == |outs|
    ensures Decodable(run, outs) <==> forall i: nat :: i < |run| ==> !Broken(run, outs, i)
  {
    if i: nat :| i < |run| && Broken(run, outs, i) {
      BrokenHasNoChain(run, outs, i);
    } else {
      forall i: nat | i < |run| && outs[i].Deliver? ensures Chained(run, outs, i) {
        ChainFromNeighbours(run, outs, i);
      }
    }
  }

  lemma {:induction false} GuardDecides(st: Rx, run: seq<Arrival>, outs: seq<Output>, i: nat)
    requires Start(st) && WholeRun(run) && i < |run| == |outs|
    requires forall k: nat :: k < |run| ==> outs[k] == Shows(GateBefore(GateOf(st), run, k), run[k])
    ensures Guarded(st, run, i) <==> !Broken(run, outs, i)
  {
    assert outs[i] == Shows(GateBefore(GateOf(st), run, i), run[i]);
    if i > 0 {
      assert outs[i - 1] == Shows(GateBefore(GateOf(st), run, i - 1), run[i - 1]);
    }
  }

  /** Every delivered delta frame has its references delivered if and only if no delta frame
      slips through the open gate behind a gap, between two keyframe requests, or behind a
      frame that was dropped for its size or for want of memory. */
  lemma {:induction false} DecodableIffGuarded(st: Rx, run: seq<Arrival>)
    requires Start(st) && WholeRun(run)
    ensures Decodable(run, Run(st, run).outs) <==> forall i: nat :: i < |run| ==> Guarded(st, run, i)
  {
    var outs := Run(st, run).outs;
    forall i: nat | i < |run| ensures outs[i] == Shows(GateBefore(GateOf(st), run, i), run[i]) {
      RunIsGate(st, run, i);
    }
    DecodableIffUnbroken(run, outs);
    if i: nat :| i < |run| && Broken(run, outs, i) {
      GuardDecides(st, run, outs, i);
    } else {
      forall i: nat | i < |run| ensures Guarded(st, run, i) {
        assert !Broken(run, outs, i);
        GuardDecides(st, run, outs, i);
      }
    }
  }

  // ---------- Runs without a gap ----------

  ghost predicate Contiguous(run: seq<Arrival>) {
    forall i :: 0 < i < |run| ==> Consecutive(run, i)
  }

  lemma {:induction false} GateStaysOpen(st: Rx, run: seq<Arrival>, i: nat)
    requires Start(st) && WholeRun(run) && Contiguous(run) && i <= |run|
    ensures var g := GateBefore(GateOf(st), run, i);
            !g.waiting && (g.hasLast ==> i > 0 && g.lastVideoSeq == run[i - 1].h.seqNo)
  {
    if i == 0 {
    } else {
      GateStaysOpen(st, run, i - 1);
      assert i > 1 ==> Consecutive(run, i - 1);
    }
  }

  /** Whole frames numbered without a gap, none of them dropped, are all shown. */
  lemma {:induction false} ContiguousIsShown(st: Rx, run: seq<Arrival>)
    requires Start(st) && WholeRun(run) && Contiguous(run) && forall i :: 0 <= i < |run| ==> Kept(run[i])
    ensures forall i: nat :: i < |run| ==> Run(st, run).outs[i] == Deliver(Shown(run[i]))
    ensures Decodable(run, Run(st, run).outs)
  {
    forall i: nat | i < |run| ensures Run(st, run).outs[i] == Deliver(Shown(run[i])) && Guarded(st, run, i) {
      GateStaysOpen(st, run, i);
      RunIsGate(st, run, i);
      assert i > 0 ==> Consecutive(run, i);
    }
    DecodableIffGuarded(st, run);
  }

  // ---------- Both do let a broken frame through ----------

  function Piece(n: u32, key: bool, t: u64, bytes: seq<u8>): Arrival
    requires |bytes| < TWO32
  {
    Arrival(Header(Video, key, n, t, |bytes|, 0, |bytes|), bytes, t, t, true)
  }

  /** After a first loss is repaired by a keyframe, a second loss within 200 ms of the
      request goes unnoticed, and the delta frame behind it is shown without its reference. */
  lemma {:induction false} ThrottledLossIsShown(st: Rx)
    requires Start(st)
    ensures var run := [Piece(0, true, 300000, [1]), Piece(2, false, 400000, [2]),
                        Piece(3, true, 450000, [3]), Piece(5, false, 500000, [4])];
            WholeRun(run) && !Decodable(run, Run(st, run).outs)
  {
    var run := [Piece(0, true, 300000, [1]), Piece(2, false, 400000, [2]),
                Piece(3, true, 450000, [3]), Piece(5, false, 500000, [4])];
    assert WholeRun(run);
    var g := GateOf(st);
    assert GateBefore(g, run, 1) == GateState(true, 0, false, 0);
    assert GateBefore(g, run, 2) == GateState(true, 2, true, 400000);
    assert GateBefore(g, run, 3) == GateState(true, 3, false, 400000);
    assert !Guarded(st, run, 3);
    DecodableIffGuarded(st, run);
  }

  /** A frame one byte too long is dropped after its number has been noted, so the delta frame
      behind it is shown without its reference: no gap, and no request. */
  lemma {:induction false} OversizedFrameBreaksTheChain(st: Rx, big: seq<u8>)
    requires Start(st) && |big| == VIDEO_MAX_SIZE + 1
    ensures var run := [Piece(0, true, 300000, [1]), Piece(1, false, 340000, big), Piece(2, false, 380000, [2])];
            WholeRun(run) && !Decodable(run, Run(st, run).outs)
  {
    var run := [Piece(0, true, 300000, [1]), Piece(1, false, 340000, big), Piece(2, false, 380000, [2])];
    assert WholeRun(run);
    var g := GateOf(st);
    assert GateBefore(g, run, 1) == GateState(true, 0, false, 0);
    assert GateBefore(g, run, 2) == GateState(true, 1, false, 0);
    assert !Guarded(st, run, 2);
    DecodableIffGuarded(st, run);
  }

  // ---------- Nothing is altered, repeated or reordered ----------

  ghost function Deliveries(outs: seq<Output>): seq<Delivery> {
    if outs == [] then []
    else Deliveries(outs[..|outs| - 1]) + match outs[|outs| - 1] case Deliver(d) => [d] case _ => []
  }

  function AllShown(run: seq<Arrival>): seq<Delivery> {
    seq(|run|, i requires 0 <= i < |run| => Shown(run[i]))
  }

  lemma {:induction false} AllShownSnoc(run: seq<Arrival>)
    requires run != []
    ensures AllShown(run) == AllShown(run[..|run| - 1]) + [Shown(run[|run| - 1])]
  {}

  lemma {:induction false} OneMore(d: seq<Delivery>, a: seq<Delivery>, x: Delivery, more: seq<Delivery>)
    requires Sub(d, a) && (more == [] || more == [x])
    ensures Sub(d + more, a + [x])
  {
    SubSnoc(d, a, x);
    assert d + [] == d;
  }

  lemma {:induction false} DeliveredInOrder(run: seq<Arrival>, outs: seq<Output>)
    requires |outs| == |run|
    requires forall i :: 0 <= i < |run| ==> outs[i] == Nothing || outs[i] == Deliver(Shown(run[i]))
    ensures Sub(Deliveries(outs), AllShown(run))
    decreases |run|
  {
    if run == [] {
    } else {
      var n := |run| - 1;
      var d, a, x := Deliveries(outs[..n]), AllShown(run[..n]), Shown(run[n]);
      DeliveredInOrder(run[..n], outs[..n]);
      AllShownSnoc(run);
      OneMore(d, a, x, match outs[n] case Deliver(y) => [y] case _ => []);
    }
  }

  /** What the callback sees is a subsequence of what arrived, frame by frame identical. */
  lemma {:induction false} OutputIsSubsequence(st: Rx, run: seq<Arrival>)
    requires Start(st) && WholeRun(run)
    ensures Sub(Deliveries(Run(st, run).outs), AllShown(run))
  {
    forall i: nat | i < |run|
      ensures Run(st, run).outs[i] == Nothing || Run(st, run).outs[i] == Deliver(Shown(run[i]))
    {
      RunIsGate(st, run, i);
    }
    DeliveredInOrder(run, Run(st, run).outs);
  }
}
