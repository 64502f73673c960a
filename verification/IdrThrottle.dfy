/** How often one peer is asked for a keyframe by the receive path (p2pav.c). */
module IdrThrottle {
  import opened Machine
  import opened Receiver
  import opened Spacing

  /** The clock readings of a run never go back. */
  ghost predicate ClockRuns(run: seq<Arrival>) {
    && (forall i :: 0 <= i < |run| ==> run[i].nowGap <= run[i].nowCut)
    && (forall i, j :: 0 <= i < j < |run| ==> run[i].nowCut <= run[j].nowGap)
  }

  /** Requests asked since the last one, at clock readings of the step, keep the throttle. */
  predicate InTime(last: u64, asked: seq<int>, newLast: u64, now: u64) {
    && last <= newLast <= now
    && (asked == [] ==> newLast == last)
    && (asked != [] ==>
          asked[0] - last >= IDR_THROTTLE_US && newLast == asked[|asked| - 1] && Spaced(asked, IDR_THROTTLE_US))
  }

  lemma {:induction false} LossAsksInTime(st: Rx, a: Arrival)
    requires st.lastIdrReqUs <= a.nowGap <= a.nowCut
    ensures var (r, asked) := DetectLoss(st, a); InTime(st.lastIdrReqUs, asked, r.lastIdrReqUs, a.nowCut)
  {}

  lemma {:induction false} StepAsksInTime(st: Rx, a: Arrival)
    requires WellFormed(a) && st.lastIdrReqUs <= a.nowGap <= a.nowCut
    ensures var r := RxStep(st, a); InTime(st.lastIdrReqUs, r.requests, r.st.lastIdrReqUs, a.nowCut)
  {
    LossAsksInTime(st, a);
    var (st1, asked) := DetectLoss(st, a);
    assert Gate(st1, a.h).0.lastIdrReqUs == st1.lastIdrReqUs;
  }

  lemma {:induction false} AppendInTime(asked: seq<int>, last: u64, more: seq<int>, newLast: u64, now: u64)
    requires Spaced(asked, IDR_THROTTLE_US) && last == (if asked == [] then 0 else asked[|asked| - 1])
    requires InTime(last, more, newLast, now)
    ensures Spaced(asked + more, IDR_THROTTLE_US)
    ensures newLast == if asked + more == [] then 0 else (asked + more)[|asked + more| - 1]
  {}

  lemma {:induction false} RequestsSpaced(st: Rx, run: seq<Arrival>)
    requires Initial(st) && ClockRuns(run) && AllWellFormed(run)
    ensures var r := Run(st, run);
            && Spaced(r.requests, IDR_THROTTLE_US)
            && (run != [] ==> r.st.lastIdrReqUs <= run[|run| - 1].nowCut)
            && r.st.lastIdrReqUs == if r.requests == [] then 0 else r.requests[|r.requests| - 1]
    decreases |run|
  {
    if run == [] {
    } else {
      var before, a := run[..|run| - 1], run[|run| - 1];
      RequestsSpaced(st, before);
      var r := Run(st, before);
      StepAsksInTime(r.st, a);
      AppendInTime(r.requests, r.st.lastIdrReqUs, RxStep(r.st, a).requests, RxStep(r.st, a).st.lastIdrReqUs, a.nowCut);
    }
  }

  /** Over any interval of microseconds, however many losses are noticed in it. */
  lemma {:induction false} RequestRate(st: Rx, run: seq<Arrival>, t0: int, t1: int)
    requires Initial(st) && ClockRuns(run) && AllWellFormed(run)
    requires t0 <= t1
    ensures CountIn(Run(st, run).requests, t0, t1) <= 1 + (t1 - t0) / 200000
  {
    RequestsSpaced(st, run);
    RateBound(Run(st, run).requests, 200000, t0, t1);
  }

  // ---------- Every loss is asked about ----------

  /** The number of the video frame begun last. */
  function LastBegun(run: seq<Arrival>): Option<u32> {
    if run == [] then None
    else
      var h := run[|run| - 1].h;
      if h.ftype.Video? && h.fragOffset == 0 then Some(h.seqNo) else LastBegun(run[..|run| - 1])
  }

  lemma {:induction false} LastBegunIsNoted(st: Rx, run: seq<Arrival>)
    requires Initial(st) && AllWellFormed(run)
    ensures var r := Run(st, run).st;
            r.hasLast == LastBegun(run).Some? && (r.hasLast ==> r.lastVideoSeq == LastBegun(run).value)
  {
    if run == [] {
    } else {
      var before, a := run[..|run| - 1], run[|run| - 1];
      LastBegunIsNoted(st, before);
      BegunStep(Run(st, before).st, a);
    }
  }

  lemma {:induction false} BegunStep(st: Rx, a: Arrival)
    requires WellFormed(a)
    ensures var r := RxStep(st, a).st;
            if a.h.ftype.Video? && a.h.fragOffset == 0 then r.hasLast && r.lastVideoSeq == a.h.seqNo
            else r.hasLast == st.hasLast && r.lastVideoSeq == st.lastVideoSeq
  {
    var st1 := DetectLoss(st, a).0;
    assert st1.hasLast == st.hasLast && st1.lastVideoSeq == st.lastVideoSeq;
    assert Gate(st1, a.h).0.hasLast == (a.h.fragOffset == 0 || st.hasLast);
  }

  /** No request, and no start of the clock, lies less than 200 ms back. */
  predicate Quiet(requests: seq<int>, now: u64) {
    now >= 200000 && forall i :: 0 <= i < |requests| ==> now - requests[i] >= 200000
  }

  lemma {:induction false} QuietByTheLast(requests: seq<int>, last: u64, now: u64)
    requires Spaced(requests, 200000) && last == (if requests == [] then 0 else requests[|requests| - 1]) <= now
    ensures Quiet(requests, now) <==> Sub64(now, last) >= 200000
  {}

  /** One video fragment: both places ask exactly when there is reason to and it is time. */
  lemma {:induction false} AskedInStep(st: Rx, a: Arrival, gap: bool, cut: bool)
    requires WellFormed(a) && a.h.ftype.Video?
    requires gap <==> st.hasLast && a.h.fragOffset == 0 && a.h.seqNo > Add32(st.lastVideoSeq, 1)
    requires cut <==> st.video.active && a.h.seqNo != st.video.seqNo && st.video.received < st.video.totalLen
    ensures var r := RxStep(st, a);
            var first := if gap && Sub64(a.nowGap, st.lastIdrReqUs) >= 200000 then [a.nowGap] else [];
            var last := if first == [] then st.lastIdrReqUs else a.nowGap;
            var second := if cut && Sub64(a.nowCut, last) >= 200000 then [a.nowCut] else [];
            && r.requests == first + second
            && r.st.waiting == (!(a.h.fragOffset == 0 && a.h.key) && (st.waiting || first + second != []))
  {
    var st1 := DetectLoss(st, a).0;
    assert Gate(st1, a.h).0.waiting == (!(a.h.fragOffset == 0 && a.h.key) && st1.waiting);
  }

  /** What one video fragment asks, with the requests made before it. */
  function AskedOf(requests: seq<int>, a: Arrival, gap: bool, cut: bool): seq<int> {
    var first := if gap && Quiet(requests, a.nowGap) then [a.nowGap] else [];
    first + if cut && Quiet(requests + first, a.nowCut) then [a.nowCut] else []
  }

  lemma {:induction false} AskedByTheClock(st: Rx, requests: seq<int>, a: Arrival, gap: bool, cut: bool)
    requires Spaced(requests, 200000) && a.nowGap <= a.nowCut
    requires st.lastIdrReqUs == (if requests == [] then 0 else requests[|requests| - 1]) <= a.nowGap
    ensures var first := if gap && Sub64(a.nowGap, st.lastIdrReqUs) >= 200000 then [a.nowGap] else [];
            var last := if first == [] then st.lastIdrReqUs else a.nowGap;
            var second := if cut && Sub64(a.nowCut, last) >= 200000 then [a.nowCut] else [];
            AskedOf(requests, a, gap, cut) == first + second
  {
    QuietByTheLast(requests, st.lastIdrReqUs, a.nowGap);
    var first := if gap && Quiet(requests, a.nowGap) then [a.nowGap] else [];
    if first == [] {
      assert requests + first == requests;
    }
    QuietByTheLast(requests + first, if first == [] then st.lastIdrReqUs else a.nowGap, a.nowCut);
  }

  /** A video frame begins behind a gap. */
  predicate Skips(run: seq<Arrival>, h: Header) {
    h.fragOffset == 0 && LastBegun(run).Some? && h.seqNo > Add32(LastBegun(run).value, 1)
  }

  /** A fragment of another frame comes while one is open and incomplete. */
  predicate CutsShort(b: Buf, h: Header) {
    b.active && h.seqNo != b.seqNo && b.received < b.totalLen
  }

  /** In every run a keyframe is asked for behind a gap, and when a frame is cut short, exactly
      when no request lies less than 200 ms back; and the gate is shut with it, unless the
      frame is a keyframe itself. */
  lemma {:induction false} LossIsAskedAbout(st: Rx, run: seq<Arrival>, a: Arrival)
    requires Initial(st) && AllWellFormed(run) && WellFormed(a) && ClockRuns(run + [a]) && a.h.ftype.Video?
    ensures var before := Run(st, run);
            var r := RxStep(before.st, a);
            && r.requests == AskedOf(before.requests, a, Skips(run, a.h), CutsShort(before.st.video, a.h))
            && r.st.waiting == (!(a.h.fragOffset == 0 && a.h.key) && (before.st.waiting || r.requests != []))
  {
    var before := Run(st, run);
    ClockBehind(run, a);
    RequestsSpaced(st, run);
    LastBegunIsNoted(st, run);
    AskedByTheClock(before.st, before.requests, a, Skips(run, a.h), CutsShort(before.st.video, a.h));
    AskedInStep(before.st, a, Skips(run, a.h), CutsShort(before.st.video, a.h));
  }

  lemma {:induction false} ClockBehind(run: seq<Arrival>, a: Arrival)
    requires ClockRuns(run + [a])
    ensures ClockRuns(run) && a.nowGap <= a.nowCut && (run != [] ==> run[|run| - 1].nowCut <= a.nowGap)
  {
    var all := run + [a];
    assert all[|run|] == a && forall i :: 0 <= i < |run| ==> all[i] == run[i];
  }

  /** A request from the other side reaches the application as such, and it alone; neither it
      nor a control frame changes anything. */
  lemma {:induction false} RequestReachesTheApplication(st: Rx, a: Arrival)
    requires WellFormed(a)
    ensures RxStep(st, a).out == KeyframeWanted <==> a.h.ftype == IdrRequest
    ensures a.h.ftype == IdrRequest || a.h.ftype == Control ==> RxStep(st, a).st == st && RxStep(st, a).requests == []
    ensures a.h.ftype == Control ==> RxStep(st, a).out == Nothing
  {}
}
