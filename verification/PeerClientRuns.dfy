/** What the example subscriber hands to its decoders and asks for over whole runs, told from
    the events alone (p2p_peer.c). */
module PeerClientRuns {
  import opened Machine
  import opened Subsequences
  import opened PeerClient
  import R = Receiver
  import D = Decodability

  predicate IsVideo(e: Event) {
    e.Frame? && e.a.h.ftype.Video?
  }

  predicate IsAudio(e: Event) {
    e.Frame? && e.a.h.ftype.Audio?
  }

  predicate Whole(h: R.Header) {
    h.fragOffset == 0 && h.fragLen == h.totalLen
  }

  /** Audio and video come in whole frames, of whatever size, the video under increasing numbers;
      the main loop may write in between what it likes. */
  ghost predicate WholeFrames(evs: seq<Event>) {
    && AllWellFormed(evs) && WholeRun(Frames(evs)) && |Frames(evs)| < TWO32
    && forall i :: 0 <= i < |evs| && IsAudio(evs[i]) ==> Whole(evs[i].a.h)
  }

  // ---------- What the events say ----------

  /** The two fields that both threads write. */
  datatype Wait = Wait(waiting: bool, lastIdrReqUs: u64)

  /** A video frame comes behind a gap. */
  predicate Skips(before: seq<Event>, h: R.Header) {
    var seen := Frames(before);
    seen != [] && h.seqNo > seen[|seen| - 1].seqNo + 1
  }

  /** It makes the client ask for a keyframe: 200 ms after the last request, or a second after
      it when the client is waiting already. */
  predicate Asks(w: Wait, before: seq<Event>, a: R.Arrival) {
    Skips(before, a.h) && Sub64(a.nowGap, w.lastIdrReqUs) >= (if w.waiting then 1000000 else 200000)
  }

  /** The two fields behind a run that began with a fresh client. */
  function WaitAfter(evs: seq<Event>): Wait {
    if evs == [] then Wait(false, 0)
    else
      var before, e := evs[..|evs| - 1], evs[|evs| - 1];
      var w := WaitAfter(before);
      if e.MainLoop? then Wait(e.waiting, e.lastIdrReqUs)
      else if !IsVideo(e) then w
      else
        var asks := Asks(w, before, e.a);
        Wait(!e.a.h.key && (w.waiting || asks), if asks then e.a.nowGap else w.lastIdrReqUs)
  }

  /** A frame as it arrived. */
  function Arrived(a: R.Arrival): R.Delivery {
    R.Delivery(a.h.ftype, a.h.key, a.h.timestampUs, a.payload)
  }

  // ---------- One event ----------

  function StepOf(c: Client, e: Event): Step
    requires WellFormed(e)
  {
    match e
    case Frame(a) => OnData(c, a)
    case MainLoop(waiting, last) => Step(c.(waiting := waiting, lastIdrReqUs := last), R.Nothing, [])
  }

  predicate Idle(b: R.Buf) {
    !b.active && |b.data| == REASM_MAX_SIZE
  }

  /** A whole frame and an idle buffer: all of it comes out, or nothing. */
  lemma {:induction false} WholeIsAccepted(b: R.Buf, a: R.Arrival)
    requires R.WellFormed(a) && Whole(a.h) && Idle(b)
    ensures var (b1, out) := R.Accept(b, a.(memOk := true));
            Idle(b1) && out == if |a.payload| <= REASM_MAX_SIZE then R.Deliver(Arrived(a)) else R.Nothing
  {
    if |a.payload| <= REASM_MAX_SIZE {
      assert R.Patch(b.data, 0, a.payload)[..|a.payload|] == a.payload;
    }
  }

  lemma {:induction false} WholeIsCollected(c: Client, a: R.Arrival)
    requires R.WellFormed(a) && Whole(a.h) && (a.h.ftype.Video? || a.h.ftype.Audio?)
    requires Idle(c.video) && Idle(c.audio)
    ensures var (c1, out) := Collect(c, a);
            && Idle(c1.video) && Idle(c1.audio)
            && out == (if |a.payload| <= REASM_MAX_SIZE then R.Deliver(Arrived(a)) else R.Nothing)
            && c1.waiting == c.waiting && c1.lastIdrReqUs == c.lastIdrReqUs
  {
    WholeIsAccepted(if a.h.ftype.Video? then c.video else c.audio, a);
  }

  /** A whole video frame, with the client in any state. */
  lemma {:induction false} VideoStep(c: Client, a: R.Arrival, skips: bool)
    requires R.WellFormed(a) && a.h.ftype.Video? && Whole(a.h) && Idle(c.video) && Idle(c.audio)
    requires skips <==> c.hasLast && a.h.seqNo > Add32(c.lastVideoSeq, 1)
    ensures var s := OnData(c, a);
            var asks := skips && Sub64(a.nowGap, c.lastIdrReqUs) >= (if c.waiting then 1000000 else 200000);
            && Idle(s.c.video) && Idle(s.c.audio)
            && s.c.waiting == (!a.h.key && (c.waiting || asks))
            && s.c.lastIdrReqUs == (if asks then a.nowGap else c.lastIdrReqUs)
            && s.requests == (if asks then [Request(a.nowGap, c.waiting)] else [])
            && s.out == if |a.payload| <= REASM_MAX_SIZE && (a.h.key || !(c.waiting || asks))
                        then R.Deliver(Arrived(a)) else R.Nothing
  {
    var (c1, r1) := CountLoss(c.(fragTotal := Add32(c.fragTotal, 1)), a);
    var (c2, r2) := CountCut(c1, a);
    var (c3, pass) := Gate(c2, a.h);
    assert c2 == c1 && r2 == [] && r1 + r2 == r1;
    WholeIsCollected(c3, a);
  }

  lemma {:induction false} AudioStep(c: Client, a: R.Arrival)
    requires R.WellFormed(a) && a.h.ftype.Audio? && Whole(a.h) && Idle(c.video) && Idle(c.audio)
    ensures var s := OnData(c, a);
            && Idle(s.c.video) && Idle(s.c.audio)
            && s.c.waiting == c.waiting && s.c.lastIdrReqUs == c.lastIdrReqUs && s.requests == []
            && s.out == if |a.payload| <= REASM_MAX_SIZE then R.Deliver(Arrived(a)) else R.Nothing
  {
    WholeIsCollected(CountAudio(c, a.h), a);
  }

  // ---------- Runs ----------

  /** The client is as the events say. */
  ghost predicate Matches(c: Client, evs: seq<Event>) {
    && Accounted(c, Frames(evs)) && Idle(c.audio)
    && Wait(c.waiting, c.lastIdrReqUs) == WaitAfter(evs)
  }

  /** The account tells a gap as the events do. */
  lemma {:induction false} SkipsAsCounted(c: Client, before: seq<Event>, h: R.Header)
    requires Accounted(c, Frames(before)) && WholeRun(Frames(before) + [h])
    ensures Skips(before, h) <==> c.hasLast && h.seqNo > Add32(c.lastVideoSeq, 1)
  {
    var seen := Frames(before);
    if seen != [] {
      assert (seen + [h])[|seen| - 1].seqNo < (seen + [h])[|seen|].seqNo;
    }
  }

  lemma {:induction false} WholeFramesBefore(evs: seq<Event>)
    requires WholeFrames(evs) && evs != []
    ensures WholeFrames(evs[..|evs| - 1])
  {
    var before, e := evs[..|evs| - 1], evs[|evs| - 1];
    if FrameOf(e) == [] {
      assert Frames(before) + [] == Frames(before);
    } else {
      PrefixOfRun(Frames(before), e.a.h);
    }
  }

  lemma {:induction false} FirstEvents(evs: seq<Event>, k: nat)
    requires WholeFrames(evs) && k <= |evs|
    ensures WholeFrames(evs[..k])
  {
    if k == |evs| {
      assert evs[..k] == evs;
    } else {
      WholeFramesBefore(evs);
      FirstEvents(evs[..|evs| - 1], k);
      assert evs[..|evs| - 1][..k] == evs[..k];
    }
  }

  /** A video frame of a run is whole. */
  lemma {:induction false} LastIsWhole(evs: seq<Event>)
    requires WholeFrames(evs) && evs != [] && IsVideo(evs[|evs| - 1])
    ensures Whole(evs[|evs| - 1].a.h) && Frames(evs) == Frames(evs[..|evs| - 1]) + [evs[|evs| - 1].a.h]
  {
    assert Frames(evs)[|Frames(evs)| - 1] == evs[|evs| - 1].a.h;
  }

  lemma {:induction false} MatchesStep(c: Client, evs: seq<Event>)
    requires WholeFrames(evs) && evs != [] && Matches(c, evs[..|evs| - 1])
    ensures var c1 := Next(c, evs[|evs| - 1]);
            Idle(c1.audio) && Wait(c1.waiting, c1.lastIdrReqUs) == WaitAfter(evs)
  {
    var before, e := evs[..|evs| - 1], evs[|evs| - 1];
    if IsVideo(e) {
      LastIsWhole(evs);
      SkipsAsCounted(c, before, e.a.h);
      VideoStep(c, e.a, Skips(before, e.a.h));
    } else if IsAudio(e) {
      AudioStep(c, e.a);
    }
  }

  lemma {:induction false} RunMatches(c: Client, evs: seq<Event>)
    requires Fresh(c) && WholeFrames(evs)
    ensures Matches(Run(c, evs), evs)
  {
    LossAccountingIsExact(c, evs);
    if evs == [] {
    } else {
      WholeFramesBefore(evs);
      RunMatches(c, evs[..|evs| - 1]);
      MatchesStep(Run(c, evs[..|evs| - 1]), evs);
    }
  }

  /** What event k of a run brings. */
  ghost function StepAt(c: Client, evs: seq<Event>, k: nat): Step
    requires AllWellFormed(evs) && k < |evs|
  {
    StepOf(Run(c, evs[..k]), evs[k])
  }

  /** The last frame of a run. */
  lemma {:induction false} VideoInRun(c: Client, evs: seq<Event>)
    requires WholeFrames(evs) && evs != [] && IsVideo(evs[|evs| - 1]) && Matches(c, evs[..|evs| - 1])
    ensures var (before, a) := (evs[..|evs| - 1], evs[|evs| - 1].a);
            var w := WaitAfter(before);
            var asks := Asks(w, before, a);
            && OnData(c, a).out == (if |a.payload| <= REASM_MAX_SIZE && (a.h.key || (!w.waiting && !asks))
                                    then R.Deliver(Arrived(a)) else R.Nothing)
            && OnData(c, a).requests == if asks then [Request(a.nowGap, w.waiting)] else []
  {
    var before, a := evs[..|evs| - 1], evs[|evs| - 1].a;
    LastIsWhole(evs);
    SkipsAsCounted(c, before, a.h);
    VideoStep(c, a, Skips(before, a.h));
  }

  /** In every run of whole frames a video frame that fits is handed on, just as it came, if and
      only if it is a keyframe, or the client is not waiting and the frame does not make it
      wait; and a keyframe is asked for exactly behind a gap, at the throttle's distance. */
  lemma {:induction false} ShownIffGateOpen(c: Client, evs: seq<Event>, k: nat)
    requires Fresh(c) && WholeFrames(evs) && k < |evs| && IsVideo(evs[k])
    ensures var (w, a) := (WaitAfter(evs[..k]), evs[k].a);
            var asks := Asks(w, evs[..k], a);
            && StepAt(c, evs, k).out ==
               (if |a.payload| <= REASM_MAX_SIZE && (a.h.key || (!w.waiting && !asks))
                then R.Deliver(R.Delivery(R.Video, a.h.key, a.h.timestampUs, a.payload)) else R.Nothing)
            && StepAt(c, evs, k).requests == if asks then [Request(a.nowGap, w.waiting)] else []
  {
    FirstEvents(evs, k);
    FirstEvents(evs, k + 1);
    RunMatches(c, evs[..k]);
    assert evs[..k + 1][..k] == evs[..k] && evs[..k + 1][k] == evs[k];
    VideoInRun(Run(c, evs[..k]), evs[..k + 1]);
  }

  /** Audio that fits is always handed on, and nothing else brings anything. */
  lemma {:induction false} AudioIsAlwaysPlayed(c: Client, evs: seq<Event>, k: nat)
    requires Fresh(c) && WholeFrames(evs) && k < |evs| && !IsVideo(evs[k])
    ensures StepAt(c, evs, k).requests == []
    ensures StepAt(c, evs, k).out ==
            if IsAudio(evs[k]) && |evs[k].a.payload| <= REASM_MAX_SIZE
            then R.Deliver(R.Delivery(R.Audio, evs[k].a.h.key, evs[k].a.h.timestampUs, evs[k].a.payload))
            else R.Nothing
  {
    FirstEvents(evs, k);
    RunMatches(c, evs[..k]);
    if IsAudio(evs[k]) {
      AudioStep(Run(c, evs[..k]), evs[k].a);
    }
  }

  // ---------- Since when the client waits ----------

  /** A wait begins with a request, unless the frame that makes it is a keyframe itself, or
      with a write of the main loop. */
  predicate BeginsWait(evs: seq<Event>, j: nat)
    requires j < |evs|
  {
    match evs[j]
    case Frame(a) => a.h.ftype.Video? && !a.h.key && Asks(WaitAfter(evs[..j]), evs[..j], a)
    case MainLoop(waiting, _) => waiting
  }

  /** It ends with a keyframe, or with a reset by the main loop. */
  predicate EndsWait(e: Event) {
    match e
    case Frame(a) => a.h.ftype.Video? && a.h.key
    case MainLoop(waiting, _) => !waiting
  }

  ghost predicate WaitsSince(evs: seq<Event>, j: nat)
    requires j < |evs|
  {
    BeginsWait(evs, j) && forall m :: j < m < |evs| ==> !EndsWait(evs[m])
  }

  lemma {:induction false} WaitsLonger(evs: seq<Event>, j: nat)
    requires j < |evs| - 1
    ensures WaitsSince(evs, j) <==> WaitsSince(evs[..|evs| - 1], j) && !EndsWait(evs[|evs| - 1])
  {
    assert evs[..|evs| - 1][..j] == evs[..j];
  }

  /** The client is waiting exactly when something has begun a wait and nothing behind it has
      ended it. */
  lemma {:induction false} WaitingSinceItBegan(c: Client, evs: seq<Event>)
    requires Fresh(c) && WholeFrames(evs)
    ensures Run(c, evs).waiting <==> exists j: nat :: j < |evs| && WaitsSince(evs, j)
  {
    RunMatches(c, evs);
    WaitBegan(evs);
  }

  lemma {:induction false} WaitBegan(evs: seq<Event>)
    ensures WaitAfter(evs).waiting <==> exists j: nat :: j < |evs| && WaitsSince(evs, j)
  {
    if evs == [] {
    } else {
      var n := |evs| - 1;
      WaitBegan(evs[..n]);
      if WaitAfter(evs[..n]).waiting && !EndsWait(evs[n]) {
        var j: nat :| j < n && WaitsSince(evs[..n], j);
        WaitsLonger(evs, j);
      }
      if j: nat :| j < n && WaitsSince(evs, j) {
        WaitsLonger(evs, j);
      }
      assert WaitsSince(evs, n) <==> BeginsWait(evs, n);
    }
  }

  // ---------- What is handed on ----------

  ghost function Outs(c: Client, evs: seq<Event>): (outs: seq<R.Output>)
    requires AllWellFormed(evs)
    ensures |outs| == |evs|
  {
    seq(|evs|, k requires 0 <= k < |evs| => StepAt(c, evs, k).out)
  }

  /** All audio and video frames of a run, as they arrived. */
  function AllArrived(evs: seq<Event>): seq<R.Delivery> {
    if evs == [] then []
    else
      var e := evs[|evs| - 1];
      AllArrived(evs[..|evs| - 1]) + if IsVideo(e) || IsAudio(e) then [Arrived(e.a)] else []
  }

  lemma {:induction false} OutsBefore(c: Client, evs: seq<Event>)
    requires AllWellFormed(evs) && evs != []
    ensures Outs(c, evs)[..|evs| - 1] == Outs(c, evs[..|evs| - 1])
  {
    var n := |evs| - 1;
    forall k | 0 <= k < n ensures Outs(c, evs)[k] == Outs(c, evs[..n])[k] {
      assert evs[..n][..k] == evs[..k];
    }
  }

  lemma {:induction false} NoMoreThanArrived(c: Client, evs: seq<Event>)
    requires Fresh(c) && WholeFrames(evs) && evs != []
    ensures var (e, out) := (evs[|evs| - 1], Outs(c, evs)[|evs| - 1]);
            out == R.Nothing || ((IsVideo(e) || IsAudio(e)) && out == R.Deliver(Arrived(e.a)))
  {
    var n := |evs| - 1;
    if IsVideo(evs[n]) {
      ShownIffGateOpen(c, evs, n);
    } else {
      AudioIsAlwaysPlayed(c, evs, n);
    }
  }

  lemma {:induction false} OneMoreEvent(d: seq<R.Delivery>, all: seq<R.Delivery>, e: Event, out: R.Output)
    requires Sub(d, all)
    requires out == R.Nothing || ((IsVideo(e) || IsAudio(e)) && out == R.Deliver(Arrived(e.a)))
    ensures Sub(d + (match out case Deliver(x) => [x] case _ => []),
                all + if IsVideo(e) || IsAudio(e) then [Arrived(e.a)] else [])
  {
    if IsVideo(e) || IsAudio(e) {
      D.OneMore(d, all, Arrived(e.a), match out case Deliver(x) => [x] case _ => []);
    } else {
      assert d + [] == d && all + [] == all;
    }
  }

  /** What is handed on is a subsequence of what arrived, byte for byte. */
  lemma {:induction false} HandedOnInOrder(c: Client, evs: seq<Event>)
    requires Fresh(c) && WholeFrames(evs)
    ensures Sub(D.Deliveries(Outs(c, evs)), AllArrived(evs))
  {
    if evs == [] {
    } else {
      var n := |evs| - 1;
      WholeFramesBefore(evs);
      HandedOnInOrder(c, evs[..n]);
      OutsBefore(c, evs);
      NoMoreThanArrived(c, evs);
      var d, all := D.Deliveries(Outs(c, evs[..n])), AllArrived(evs[..n]);
      OneMoreEvent(d, all, evs[n], Outs(c, evs)[n]);
    }
  }

  // ---------- The other counters ----------

  /** Whether an event hands on a video frame, whole or in fragments: 1 if it does. */
  function VideoOut(c: Client, e: Event): nat
    requires WellFormed(e)
  {
    if IsVideo(e) && StepOf(c, e).out.Deliver? then 1 else 0
  }

  /** How many video frames a run hands on. */
  ghost function VideosOut(c: Client, evs: seq<Event>): nat
    requires AllWellFormed(evs)
  {
    if evs == [] then 0
    else
      var n := |evs| - 1;
      VideosOut(c, evs[..n]) + VideoOut(Run(c, evs[..n]), evs[n])
  }

  lemma {:induction false} OkOfVideo(c: Client, a: R.Arrival)
    requires R.WellFormed(a) && a.h.ftype.Video?
    ensures OnData(c, a).c.framesOk == if OnData(c, a).out.Deliver? then Add32(c.framesOk, 1) else c.framesOk
  {
    var c1 := CountLoss(c.(fragTotal := Add32(c.fragTotal, 1)), a).0;
    var c2 := CountCut(c1, a).0;
    assert Gate(c2, a.h).0.framesOk == c2.framesOk == c1.framesOk == c.framesOk;
  }

  lemma {:induction false} OkStep(c: Client, e: Event)
    requires WellFormed(e) && c.framesOk < TWO32 - 1
    ensures Next(c, e).framesOk == c.framesOk + VideoOut(c, e)
  {
    match e
    case Frame(a) =>
      if a.h.ftype.Video? {
        OkOfVideo(c, a);
      }
    case MainLoop(_, _) =>
  }

  /** In every run of fewer than 2^32 events, of fragments in any order too, the frames counted
      as complete are those handed on. */
  lemma {:induction false} OkCountsFramesHandedOn(c: Client, evs: seq<Event>)
    requires Fresh(c) && AllWellFormed(evs) && |evs| < TWO32
    ensures Run(c, evs).framesOk == VideosOut(c, evs) <= |evs|
  {
    if evs == [] {
    } else {
      var n := |evs| - 1;
      OkCountsFramesHandedOn(c, evs[..n]);
      OkStep(Run(c, evs[..n]), evs[n]);
    }
  }

  /** The headers of the audio fragments of a run. */
  function Sounds(evs: seq<Event>): seq<R.Header> {
    if evs == [] then []
    else Sounds(evs[..|evs| - 1]) + if IsAudio(evs[|evs| - 1]) then [evs[|evs| - 1].a.h] else []
  }

  predicate SoundAccounted(c: Client, run: seq<R.Header>) {
    && (c.hasLastAudio <==> run != [])
    && (run == [] ==> c.audioLost == 0)
    && (run != [] ==>
          && c.lastAudioSeq == run[|run| - 1].seqNo
          && |run| + c.audioLost == c.lastAudioSeq - run[0].seqNo + 1)
  }

  lemma {:induction false} SoundStep(c: Client, run: seq<R.Header>, a: R.Arrival)
    requires R.WellFormed(a) && a.h.ftype.Audio? && WholeRun(run + [a.h]) && SoundAccounted(c, run)
    ensures SoundAccounted(OnData(c, a).c, run + [a.h])
  {
    assert (run + [a.h])[|run|] == a.h;
    if run != [] {
      assert (run + [a.h])[|run| - 1].seqNo < a.h.seqNo && (run + [a.h])[0] == run[0];
    }
  }

  lemma {:induction false} OthersKeepSound(c: Client, run: seq<R.Header>, e: Event)
    requires WellFormed(e) && !IsAudio(e) && SoundAccounted(c, run)
    ensures SoundAccounted(Next(c, e), run)
  {}

  /** After any run of whole audio frames with increasing numbers, whatever else comes in
      between, audio frames received and those counted as lost add up to the span of numbers. */
  lemma {:induction false} AudioLossIsExact(c: Client, evs: seq<Event>)
    requires Fresh(c) && AllWellFormed(evs) && WholeRun(Sounds(evs))
    ensures SoundAccounted(Run(c, evs), Sounds(evs))
  {
    if evs == [] {
    } else {
      var before, e := evs[..|evs| - 1], evs[|evs| - 1];
      if IsAudio(e) {
        PrefixOfRun(Sounds(before), e.a.h);
        AudioLossIsExact(c, before);
        SoundStep(Run(c, before), Sounds(before), e.a);
      } else {
        assert Sounds(before) + [] == Sounds(before);
        AudioLossIsExact(c, before);
        OthersKeepSound(Run(c, before), Sounds(before), e);
      }
    }
  }
}
