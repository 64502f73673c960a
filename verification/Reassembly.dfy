/** Byte-counted reassembly: any partition of a frame, in any order of arrival, rebuilds it. */
module Reassembly {
  import opened Machine
  import opened Receiver

  datatype Fragment = Fragment(off: nat, len: nat)

  datatype Frame = Frame(ftype: FrameType, key: bool, seqNo: u32, timestampUs: u64, bytes: seq<u8>)

  // ---------- Disjoint intervals ----------

  predicate Apart(f: Fragment, g: Fragment) {
    f.off + f.len <= g.off || g.off + g.len <= f.off
  }

  /** Non-empty, pairwise disjoint pieces of [0, n). */
  ghost predicate Pieces(fs: seq<Fragment>, n: nat) {
    && (forall i :: 0 <= i < |fs| ==> fs[i].len > 0 && fs[i].off + fs[i].len <= n)
    && (forall i, j :: 0 <= i < j < |fs| ==> Apart(fs[i], fs[j]))
  }

  function TotalLen(fs: seq<Fragment>): nat {
    if fs == [] then 0 else TotalLen(fs[..|fs| - 1]) + fs[|fs| - 1].len
  }

  predicate Inside(p: int, f: Fragment) {
    f.off <= p < f.off + f.len
  }

  ghost function Interval(f: Fragment): set<int> {
    set p: int | f.off <= p < f.off + f.len && Inside(p, f)
  }

  ghost function Covered(fs: seq<Fragment>): set<int> {
    if fs == [] then {} else Covered(fs[..|fs| - 1]) + Interval(fs[|fs| - 1])
  }

  lemma {:induction false} IntervalSize(f: Fragment)
    ensures |Interval(f)| == f.len
    decreases f.len
  {
    if f.len > 0 {
      var g := Fragment(f.off, f.len - 1);
      IntervalSize(g);
      assert Interval(f) == Interval(g) + {f.off + g.len};
    } else {
      assert Interval(f) == {};
    }
  }

  lemma {:induction false} CoveredBy(fs: seq<Fragment>, p: int)
    ensures p in Covered(fs) <==> exists i :: 0 <= i < |fs| && p in Interval(fs[i])
  {
    if fs == [] {
    } else {
      var n := |fs| - 1;
      CoveredBy(fs[..n], p);
      if i :| 0 <= i < |fs| && p in Interval(fs[i]) {
        assert i < n ==> p in Interval(fs[..n][i]);
      }
      if i :| 0 <= i < n && p in Interval(fs[..n][i]) {
        assert p in Interval(fs[i]);
      }
    }
  }

  lemma {:induction false} CoveredSize(fs: seq<Fragment>, n: nat)
    requires Pieces(fs, n)
    ensures |Covered(fs)| == TotalLen(fs)
    ensures Covered(fs) <= Interval(Fragment(0, n))
  {
    if fs == [] {
    } else {
      var rest, last := fs[..|fs| - 1], fs[|fs| - 1];
      CoveredSize(rest, n);
      IntervalSize(last);
      forall p | p in Covered(rest) ensures p !in Interval(last) {
        CoveredBy(rest, p);
      }
    }
  }

  /** Disjoint pieces of [0, n) with total length n leave no hole. */
  lemma {:induction false} FullCover(fs: seq<Fragment>, n: nat)
    requires Pieces(fs, n)
    ensures TotalLen(fs) <= n
    ensures TotalLen(fs) == n ==> forall p :: 0 <= p < n ==> p in Covered(fs)
  {
    CoveredSize(fs, n);
    var all := Interval(Fragment(0, n));
    IntervalSize(Fragment(0, n));
    SubsetSize(Covered(fs), all);
  }

  lemma {:induction false} SubsetSize(a: set<int>, b: set<int>)
    requires a <= b
    ensures |a| <= |b|
    ensures |a| == |b| ==> a == b
  {
    assert b == a + (b - a);
  }

  lemma {:induction false} PiecesPrefix(fs: seq<Fragment>, n: nat)
    requires Pieces(fs, n) && fs != []
    ensures Pieces(fs[..|fs| - 1], n)
    ensures TotalLen(fs[..|fs| - 1]) < TotalLen(fs) <= n
  {
    FullCover(fs, n);
  }

  // ---------- One buffer ----------

  /** The fragment of frame f that piece p cuts out. */
  function Cutout(f: Frame, p: Fragment, now: u64, memOk: bool): (a: Arrival)
    requires p.off + p.len <= |f.bytes| < TWO32
    ensures WellFormed(a)
  {
    Arrival(Header(f.ftype, f.key, f.seqNo, f.timestampUs, |f.bytes|, p.off, p.len),
            f.bytes[p.off..p.off + p.len], now, now, memOk)
  }

  ghost predicate Holds(b: Buf, f: Frame, fs: seq<Fragment>)
    requires Pieces(fs, |f.bytes|)
  {
    && |f.bytes| <= |b.data|
    && (fs != [] ==>
          && b.active && b.seqNo == f.seqNo && b.key == f.key && b.timestampUs == f.timestampUs
          && b.totalLen == |f.bytes| && b.received == TotalLen(fs)
          && forall p :: p in Covered(fs) && 0 <= p < |f.bytes| ==> b.data[p] == f.bytes[p])
  }

  function Whole(f: Frame): Delivery {
    Delivery(f.ftype, f.key, f.timestampUs, f.bytes)
  }

  lemma {:induction false} PatchAt(data: seq<u8>, off: nat, payload: seq<u8>, p: nat)
    requires off + |payload| <= |data| && p < |data|
    ensures Patch(data, off, payload)[p] == if off <= p < off + |payload| then payload[p - off] else data[p]
  {}

  lemma {:induction false} PatchedByte(data: seq<u8>, bytes: seq<u8>, rest: set<int>, last: Fragment, p: nat)
    requires last.off + last.len <= |bytes| <= |data| && p < |bytes| && p in rest + Interval(last)
    requires p in rest ==> data[p] == bytes[p]
    ensures Patch(data, last.off, bytes[last.off..last.off + last.len])[p] == bytes[p]
  {
    PatchAt(data, last.off, bytes[last.off..last.off + last.len], p);
  }

  lemma {:induction false} PatchedBytes(data: seq<u8>, f: Frame, fs: seq<Fragment>, last: Fragment)
    requires fs != [] && last == fs[|fs| - 1] && |f.bytes| <= |data| && Pieces(fs, |f.bytes|)
    requires forall p :: p in Covered(fs[..|fs| - 1]) && 0 <= p < |f.bytes| ==> data[p] == f.bytes[p]
    ensures forall p :: p in Covered(fs) && 0 <= p < |f.bytes| ==>
              Patch(data, last.off, f.bytes[last.off..last.off + last.len])[p] == f.bytes[p]
  {
    var rest := Covered(fs[..|fs| - 1]);
    forall p | p in Covered(fs) && 0 <= p < |f.bytes|
      ensures Patch(data, last.off, f.bytes[last.off..last.off + last.len])[p] == f.bytes[p]
    {
      PatchedByte(data, f.bytes, rest, last, p);
    }
  }

  lemma {:induction false} AllCoveredIsEqual(data: seq<u8>, bytes: seq<u8>, fs: seq<Fragment>)
    requires |bytes| <= |data| && Pieces(fs, |bytes|) && TotalLen(fs) == |bytes|
    requires forall p :: p in Covered(fs) && 0 <= p < |bytes| ==> data[p] == bytes[p]
    ensures data[..|bytes|] == bytes
  {
    FullCover(fs, |bytes|);
  }

  /** Accept, on a piece that continues an open frame or starts a new one. */
  lemma {:induction false} AcceptEffect(b: Buf, f: Frame, p: Fragment, now: u64, memOk: bool)
    requires p.len > 0 && p.off + p.len <= |f.bytes| < TWO32 && |f.bytes| <= |b.data|
    requires b.active && b.seqNo == f.seqNo ==>
               b.key == f.key && b.timestampUs == f.timestampUs && b.totalLen == |f.bytes|
    requires b.active ==> b.seqNo <= f.seqNo
    ensures var (b', out) := Accept(b, Cutout(f, p, now, memOk));
            var data := Patch(b.data, p.off, f.bytes[p.off..p.off + p.len]);
            var sofar := p.len + if b.active && b.seqNo == f.seqNo then b.received else 0;
            && (sofar < |f.bytes| ==>
                  out == Nothing && b' == Buf(true, f.key, f.seqNo, f.timestampUs, |f.bytes|, sofar, data))
            && (sofar >= |f.bytes| ==>
                  && out == (if memOk then Deliver(Delivery(f.ftype, f.key, f.timestampUs, data[..|f.bytes|]))
                             else Nothing)
                  && |b'.data| == |b.data|)
  {}

  /** What the last piece brings. */
  function Outcome(f: Frame, memOk: bool): Output {
    if memOk then Deliver(Whole(f)) else Nothing
  }

  /** Accepting one more piece keeps the invariant, or completes the frame. */
  lemma {:induction false} AcceptPiece(b: Buf, f: Frame, fs: seq<Fragment>, now: u64, memOk: bool)
    requires fs != [] && |f.bytes| < TWO32 && Pieces(fs, |f.bytes|)
    requires var rest := fs[..|fs| - 1]; Pieces(rest, |f.bytes|) && Holds(b, f, rest)
    requires |fs| == 1 && b.active ==> b.seqNo < f.seqNo
    ensures var (b', out) := Accept(b, Cutout(f, fs[|fs| - 1], now, memOk));
            && |b'.data| == |b.data|
            && (TotalLen(fs) < |f.bytes| ==> out == Nothing && Holds(b', f, fs))
            && (TotalLen(fs) == |f.bytes| ==> out == Outcome(f, memOk))
  {
    PiecesPrefix(fs, |f.bytes|);
    var last := fs[|fs| - 1];
    AcceptEffect(b, f, last, now, memOk);
    PatchedBytes(b.data, f, fs, last);
    if TotalLen(fs) == |f.bytes| {
      AllCoveredIsEqual(Patch(b.data, last.off, f.bytes[last.off..last.off + last.len]), f.bytes, fs);
    }
  }

  // ---------- The whole receiver ----------

  /** The pieces fs of f as they come in, each with its clock and its luck with memory. */
  ghost function Cutouts(f: Frame, fs: seq<Fragment>, nows: seq<u64>, mem: seq<bool>): (run: seq<Arrival>)
    requires |fs| == |nows| == |mem| && |f.bytes| < TWO32 && Pieces(fs, |f.bytes|)
    ensures |run| == |fs| && AllWellFormed(run)
  {
    seq(|fs|, i requires 0 <= i < |fs| => Cutout(f, fs[i], nows[i], mem[i]))
  }

  /** A run of pieces ends with the step of the last piece. */
  lemma {:induction false} LastPiece(st: Rx, f: Frame, fs: seq<Fragment>, nows: seq<u64>, mem: seq<bool>)
    requires |fs| == |nows| == |mem| > 0 && |f.bytes| < TWO32 && Pieces(fs, |f.bytes|)
    ensures var n := |fs| - 1;
            && Pieces(fs[..n], |f.bytes|)
            && var before := Run(st, Cutouts(f, fs[..n], nows[..n], mem[..n]));
               var r := Run(st, Cutouts(f, fs, nows, mem));
               var step := RxStep(before.st, Cutout(f, fs[n], nows[n], mem[n]));
               r.st == step.st && r.outs == before.outs + [step.out]
  {
    var n := |fs| - 1;
    RunSnoc(st, Cutouts(f, fs[..n], nows[..n], mem[..n]), Cutout(f, fs[n], nows[n], mem[n]));
    assert Cutouts(f, fs, nows, mem)
        == Cutouts(f, fs[..n], nows[..n], mem[..n]) + [Cutout(f, fs[n], nows[n], mem[n])];
  }

  predicate Expected(st: Rx, f: Frame) {
    st.hasLast ==> f.seqNo <= Add32(st.lastVideoSeq, 1)
  }

  /** The receiver can take frame f: any open frame of its kind is an older one; and a video
      frame is a keyframe, or finds the gate open, nothing under way and no gap. */
  predicate Ready(st: Rx, f: Frame) {
    && Media(f.ftype) && |f.bytes| < TWO32
    && (BufOf(st, f.ftype).active ==> BufOf(st, f.ftype).seqNo < f.seqNo)
    && (f.ftype.Video? && !f.key ==> !st.video.active && !st.waiting && Expected(st, f))
  }

  ghost predicate FirstByteSeen(fs: seq<Fragment>) {
    exists i :: 0 <= i < |fs| && fs[i].off == 0
  }

  /** What holds after the pieces fs of f have arrived. */
  ghost predicate InProgress(st: Rx, f: Frame, fs: seq<Fragment>)
    requires Pieces(fs, |f.bytes|)
  {
    && (fs == [] ==> Ready(st, f))
    && Holds(BufOf(st, f.ftype), f, fs)
    && (f.ftype.Video? && !f.key ==> !st.waiting && (FirstByteSeen(fs) || Expected(st, f)))
  }

  /** The next piece of a video frame in progress passes loss detection and gate. */
  lemma {:induction false} PassesGate(st: Rx, f: Frame, fs: seq<Fragment>, now: u64, memOk: bool)
    requires fs != [] && f.ftype.Video? && |f.bytes| < TWO32 && Pieces(fs, |f.bytes|)
    requires var rest := fs[..|fs| - 1]; Pieces(rest, |f.bytes|) && InProgress(st, f, rest)
    ensures var a := Cutout(f, fs[|fs| - 1], now, memOk);
            var (st2, pass) := Gate(DetectLoss(st, a).0, a.h);
            && pass && st2.video == st.video
            && (!f.key ==> !st2.waiting && (FirstByteSeen(fs) || Expected(st2, f)))
  {
    var last, rest := fs[|fs| - 1], fs[..|fs| - 1];
    var a := Cutout(f, last, now, memOk);
    assert forall i :: 0 <= i < |rest| ==> rest[i] == fs[i] && Apart(fs[i], last);
    if !f.key {
      assert !Gap(st, a.h) && !Cut(st.video, a.h);
    }
  }

  lemma {:induction false} PieceStep(st: Rx, f: Frame, fs: seq<Fragment>, now: u64, memOk: bool)
    requires fs != [] && Media(f.ftype) && |f.bytes| < TWO32 && Pieces(fs, |f.bytes|)
    requires var rest := fs[..|fs| - 1]; Pieces(rest, |f.bytes|) && InProgress(st, f, rest)
    ensures var r := RxStep(st, Cutout(f, fs[|fs| - 1], now, memOk));
            && (TotalLen(fs) < |f.bytes| ==> r.out == Nothing && InProgress(r.st, f, fs))
            && (TotalLen(fs) == |f.bytes| ==> r.out == Outcome(f, memOk))
  {
    AcceptPiece(BufOf(st, f.ftype), f, fs, now, memOk);
    if f.ftype.Video? {
      PassesGate(st, f, fs, now, memOk);
    }
  }

  lemma {:induction false} PiecesSoFar(st: Rx, f: Frame, fs: seq<Fragment>, nows: seq<u64>, mem: seq<bool>)
    requires |fs| == |nows| == |mem| && Pieces(fs, |f.bytes|) && Ready(st, f)
    requires |f.bytes| <= |BufOf(st, f.ftype).data| && TotalLen(fs) < |f.bytes|
    ensures InProgress(Run(st, Cutouts(f, fs, nows, mem)).st, f, fs)
    ensures forall i :: 0 <= i < |fs| ==> Run(st, Cutouts(f, fs, nows, mem)).outs[i] == Nothing
    decreases |fs|
  {
    if fs == [] {
    } else {
      var n := |fs| - 1;
      PiecesPrefix(fs, |f.bytes|);
      PiecesSoFar(st, f, fs[..n], nows[..n], mem[..n]);
      LastPiece(st, f, fs, nows, mem);
      PieceStep(Run(st, Cutouts(f, fs[..n], nows[..n], mem[..n])).st, f, fs, nows[n], mem[n]);
    }
  }

  /** The frame is too long for its buffer, and nothing of it is in there. */
  predicate Oversized(st: Rx, f: Frame) {
    && Media(f.ftype) && |BufOf(st, f.ftype).data| < |f.bytes| < TWO32
    && (BufOf(st, f.ftype).active ==> BufOf(st, f.ftype).seqNo != f.seqNo)
  }

  lemma {:induction false} OversizedIntoBuffer(b: Buf, a: Arrival)
    requires WellFormed(a) && |b.data| < a.h.totalLen && (b.active ==> b.seqNo != a.h.seqNo)
    ensures var (b1, out) := Accept(b, a);
            out == Nothing && |b1.data| == |b.data| && (b1.active ==> b1.seqNo != a.h.seqNo)
  {}

  /** No piece of such a frame brings anything. */
  lemma {:induction false} OversizedPiece(st: Rx, f: Frame, p: Fragment, now: u64, memOk: bool)
    requires Oversized(st, f) && p.off + p.len <= |f.bytes|
    ensures var r := RxStep(st, Cutout(f, p, now, memOk)); r.out == Nothing && Oversized(r.st, f)
  {
    var a := Cutout(f, p, now, memOk);
    var st1 := if f.ftype.Video? then DetectLoss(st, a).0 else st;
    var st2 := if f.ftype.Video? then Gate(st1, a.h).0 else st1;
    assert BufOf(st2, f.ftype) == BufOf(st, f.ftype);
    OversizedIntoBuffer(BufOf(st2, f.ftype), a);
  }

  lemma {:induction false} OversizedIsDropped(st: Rx, f: Frame, fs: seq<Fragment>, nows: seq<u64>, mem: seq<bool>)
    requires |fs| == |nows| == |mem| && Pieces(fs, |f.bytes|) && Oversized(st, f)
    ensures var r := Run(st, Cutouts(f, fs, nows, mem));
            Oversized(r.st, f) && forall i :: 0 <= i < |fs| ==> r.outs[i] == Nothing
    decreases |fs|
  {
    if fs == [] {
    } else {
      var n := |fs| - 1;
      LastPiece(st, f, fs, nows, mem);
      OversizedIsDropped(st, f, fs[..n], nows[..n], mem[..n]);
      OversizedPiece(Run(st, Cutouts(f, fs[..n], nows[..n], mem[..n])).st, f, fs[n], nows[n], mem[n]);
    }
  }

  /** Whatever the partition and the order of arrival, the frame is delivered exactly once,
      with the last piece, with the bytes that were sent; if and only if it fits the buffer
      and its copy finds memory. */
  lemma {:induction false} AnyPartitionInAnyOrder(st: Rx, f: Frame, fs: seq<Fragment>, nows: seq<u64>, mem: seq<bool>)
    requires |fs| == |nows| == |mem| && Pieces(fs, |f.bytes|) && Ready(st, f)
    requires TotalLen(fs) == |f.bytes| > 0
    ensures var outs := Run(st, Cutouts(f, fs, nows, mem)).outs;
            && (forall i: nat :: i < |fs| - 1 ==> outs[i] == Nothing)
            && outs[|fs| - 1] == Outcome(f, mem[|fs| - 1] && |f.bytes| <= |BufOf(st, f.ftype).data|)
  {
    var n := |fs| - 1;
    if |f.bytes| > |BufOf(st, f.ftype).data| {
      OversizedIsDropped(st, f, fs, nows, mem);
    } else {
      PiecesPrefix(fs, |f.bytes|);
      PiecesSoFar(st, f, fs[..n], nows[..n], mem[..n]);
      LastPiece(st, f, fs, nows, mem);
      PieceStep(Run(st, Cutouts(f, fs[..n], nows[..n], mem[..n])).st, f, fs, nows[n], mem[n]);
    }
  }

  /** The room there is for each kind: frames up to these lengths fit, and no longer ones. */
  lemma {:induction false} RoomForEachKind(st: Rx)
    requires RxOk(st)
    ensures |BufOf(st, Video).data| == 512 * 1024
    ensures |BufOf(st, FrameType.Audio).data| == 8 * 1024 && |BufOf(st, Data).data| == 64 * 1024
  {}

  // ---------- Fragments of other frames ----------

  /** A fragment of an older frame does not disturb the frame that is open. */
  lemma {:induction false} OlderIsIgnored(b: Buf, a: Arrival)
    requires WellFormed(a) && b.active && a.h.seqNo < b.seqNo
    ensures Accept(b, a) == (b, Nothing)
  {}

  /** A fragment of a newer frame gives the open one up: it is received as if nothing had been
      open. */
  lemma {:induction false} NewerStartsAfresh(b: Buf, a: Arrival)
    requires WellFormed(a) && b.active && a.h.seqNo > b.seqNo
    ensures Accept(b, a) == Accept(b.(active := false), a)
  {}

  /** A fragment that does not lie within the frame's announced length, or within the buffer, is
      passed over. */
  lemma {:induction false} OutsideIsPassedOver(b: Buf, a: Arrival)
    requires WellFormed(a) && b.active && a.h.seqNo == b.seqNo
    requires a.h.fragOffset + a.h.fragLen > b.totalLen || a.h.fragOffset + a.h.fragLen > |b.data|
    ensures Accept(b, a) == (b, Nothing)
  {}

  /** Frames of one kind never touch the buffer in which another kind is being rebuilt. */
  lemma {:induction false} KindsAreIndependent(st: Rx, a: Arrival, t: FrameType)
    requires WellFormed(a) && Media(t) && a.h.ftype != t
    ensures BufOf(RxStep(st, a).st, t) == BufOf(st, t)
  {}
}
