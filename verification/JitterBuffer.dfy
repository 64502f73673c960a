/** The receiver's video jitter buffer (p2p_adapter.c): an unsorted array of eight slots.
    Its specification is a bounded priority queue over a multiset of frames, ordered by
    the serial-number comparison of section 3.2 of RFC 1982. */
module JitterBuffer {
  import opened Machine

  const JITTER_SIZE: nat := 8

  datatype Frame = Frame(y: seq<u8>, u: seq<u8>, v: seq<u8>,
                         lsy: nat, lsu: nat, lsv: nat, w: nat, h: nat,
                         timestampUs: u64, seqNo: u32)

  datatype Slot = Free | Holds(frame: Frame)

  // ---------- Serial numbers ----------

  /** "a precedes b" as RFC 1982 defines it for 32-bit serial numbers. */
  predicate SerialLess(a: u32, b: u32) {
    (a < b && b - a < TWO31) || (a > b && a - b > TWO31)
  }

  /** The comparison the code writes: the wrapped difference is below 2^31. */
  predicate AtOrAfter(a: u32, b: u32) {
    Sub32(a, b) < TWO31
  }

  lemma {:induction false} ComparisonIsRfc1982(a: u32, b: u32)
    ensures AtOrAfter(a, b) <==> a == b || SerialLess(b, a)
    ensures AtOrAfter(a, b) && AtOrAfter(b, a) ==> a == b
  {}

  /** All frames lie in one half of the number circle, starting at base. */
  ghost predicate InHalf(m: multiset<Frame>, base: u32) {
    forall f <- m :: Sub32(f.seqNo, base) < TWO31
  }

  ghost predicate SpansUnderHalf(m: multiset<Frame>) {
    exists base: u32 :: InHalf(m, base)
  }

  /** Inside one half of the circle the code's comparison is the order of the distances
      from its start, hence a total preorder, also across the wrap. */
  lemma {:induction false} OrderWithinHalf(base: u32, a: u32, b: u32)
    requires Sub32(a, base) < TWO31 && Sub32(b, base) < TWO31
    ensures AtOrAfter(a, b) <==> Sub32(a, base) >= Sub32(b, base)
  {}

  // ---------- The abstract bounded priority queue ----------

  ghost predicate Newest(e: Frame, m: multiset<Frame>) {
    e in m && forall f <- m :: AtOrAfter(e.seqNo, f.seqNo)
  }

  ghost predicate Oldest(e: Frame, m: multiset<Frame>) {
    e in m && forall f <- m :: AtOrAfter(f.seqNo, e.seqNo)
  }

  datatype Event = Pushed(f: Frame, evicted: Option<Frame>)
                 | Popped(now: u64, out: Option<Frame>)

  /** A lone frame is released once it is older than the target delay. */
  predicate Ripe(f: Frame, now: u64, delay: u64) {
    f.timestampUs > 0 && Sub64(now, f.timestampUs) >= delay
  }

  function Outputs(e: Event): seq<Frame> {
    if e.Popped? && e.out.Some? then [e.out.value] else []
  }

  /** How the contents move. */
  ghost predicate Moves(pre: multiset<Frame>, e: Event, post: multiset<Frame>) {
    match e
    case Pushed(f, None) => post == pre + multiset{f}
    case Pushed(f, Some(v)) => v in pre && post == pre - multiset{v} + multiset{f}
    case Popped(_, None) => post == pre
    case Popped(_, Some(f)) => f in pre && post == pre - multiset{f}
  }

  /** When a frame leaves, and which one. */
  ghost predicate Chooses(pre: multiset<Frame>, e: Event, delay: u64) {
    match e
    case Pushed(f, evicted) =>
      && (evicted.Some? <==> |pre| >= JITTER_SIZE)
      && (evicted.Some? && SpansUnderHalf(pre) ==> Newest(evicted.value, pre))
    case Popped(now, out) =>
      && (out.None? ==> |pre| < 2 && forall f <- pre :: !Ripe(f, now, delay))
      && (out.Some? && |pre| == 1 ==> Ripe(out.value, now, delay))
      && (out.Some? && SpansUnderHalf(pre) ==> Oldest(out.value, pre))
  }

  /** What one operation may do to the multiset of buffered frames. */
  ghost predicate Step(pre: multiset<Frame>, e: Event, post: multiset<Frame>, delay: u64) {
    Moves(pre, e, post) && Chooses(pre, e, delay)
  }

  /** st holds the buffer contents before and after each event of the run ev. */
  ghost predicate Trace(st: seq<multiset<Frame>>, ev: seq<Event>, delay: u64)
    decreases |ev|
  {
    var n := |ev| - 1;
    && |st| == |ev| + 1
    && (ev == [] ==> st[0] == multiset{})
    && (ev != [] ==> Trace(st[..|ev|], ev[..n], delay) && Step(st[n], ev[n], st[n + 1], delay))
  }

  function PoppedIn(ev: seq<Event>): seq<Frame> {
    if ev == [] then [] else PoppedIn(ev[..|ev| - 1]) + Outputs(ev[|ev| - 1])
  }

  // How often frame f is pushed, popped and evicted by one event, and in a run.

  function PushOf(e: Event, f: Frame): nat {
    if e.Pushed? && e.f == f then 1 else 0
  }

  function PopOf(e: Event, f: Frame): nat {
    if e.Popped? && e.out == Some(f) then 1 else 0
  }

  function EvictionOf(e: Event, f: Frame): nat {
    if e.Pushed? && e.evicted == Some(f) then 1 else 0
  }

  function Pushes(ev: seq<Event>, f: Frame): nat {
    if ev == [] then 0 else Pushes(ev[..|ev| - 1], f) + PushOf(ev[|ev| - 1], f)
  }

  function Pops(ev: seq<Event>, f: Frame): nat {
    if ev == [] then 0 else Pops(ev[..|ev| - 1], f) + PopOf(ev[|ev| - 1], f)
  }

  function Evictions(ev: seq<Event>, f: Frame): nat {
    if ev == [] then 0 else Evictions(ev[..|ev| - 1], f) + EvictionOf(ev[|ev| - 1], f)
  }

  lemma {:induction false} CountAfterRemove<T>(m: multiset<T>, x: T, f: T)
    requires x in m
    ensures (m - multiset{x})[f] == m[f] - if x == f then 1 else 0
  {}

  lemma {:induction false} CountAfterAdd<T>(m: multiset<T>, x: T, f: T)
    ensures (m + multiset{x})[f] == m[f] + if x == f then 1 else 0
  {}

  lemma {:induction false} CountAfterExchange<T>(m: multiset<T>, x: T, y: T, f: T)
    requires x in m
    ensures (m - multiset{x} + multiset{y})[f] + (if x == f then 1 else 0) == m[f] + if y == f then 1 else 0
  {
    CountAfterRemove(m, x, f);
    CountAfterAdd(m - multiset{x}, y, f);
  }

  lemma {:induction false} MovesBalance(pre: multiset<Frame>, e: Event, post: multiset<Frame>, f: Frame)
    requires Moves(pre, e, post)
    ensures pre[f] + PushOf(e, f) == PopOf(e, f) + EvictionOf(e, f) + post[f]
  {
    match e
    case Pushed(g, None) =>
      CountAfterAdd(pre, g, f);
    case Pushed(g, Some(v)) =>
      CountAfterExchange(pre, v, g, f);
    case Popped(_, None) =>
    case Popped(_, Some(g)) =>
      CountAfterRemove(pre, g, f);
  }

  lemma {:induction false} StepBounded(pre: multiset<Frame>, e: Event, post: multiset<Frame>, delay: u64)
    requires Step(pre, e, post, delay) && |pre| <= JITTER_SIZE
    ensures |post| <= JITTER_SIZE
  {
    if e.Pushed? && e.evicted.Some? {
      assert |pre - multiset{e.evicted.value}| == |pre| - 1;
    }
  }

  /** Every pushed frame is popped, evicted or still buffered, exactly once. */
  lemma {:induction false} Conservation(st: seq<multiset<Frame>>, ev: seq<Event>, delay: u64, f: Frame)
    requires Trace(st, ev, delay)
    ensures Pushes(ev, f) == Pops(ev, f) + Evictions(ev, f) + st[|ev|][f]
    decreases |ev|
  {
    if ev == [] {
    } else {
      var n := |ev| - 1;
      Conservation(st[..|ev|], ev[..n], delay, f);
      MovesBalance(st[n], ev[n], st[n + 1], f);
    }
  }

  lemma {:induction false} NeverMoreThanEight(st: seq<multiset<Frame>>, ev: seq<Event>, delay: u64)
    requires Trace(st, ev, delay)
    ensures |st[|ev|]| <= JITTER_SIZE
    decreases |ev|
  {
    if ev == [] {
    } else {
      var n := |ev| - 1;
      NeverMoreThanEight(st[..|ev|], ev[..n], delay);
      StepBounded(st[n], ev[n], st[n + 1], delay);
    }
  }

  // ---------- What comes out ----------

  /** The arguments of the calls, as the application makes them. */
  datatype Call = PushCall(y: seq<u8>, u: seq<u8>, v: seq<u8>, lsy: nat, lsu: nat, lsv: nat,
                           w: nat, h: nat, timestampUs: u64, seqNo: u32)
                | PopCall(now: u64)

  /** Each plane starts with the bytes of the frame's, and all else is the same. */
  predicate Shows(f: Frame, c: Call) {
    && c.PushCall?
    && |f.y| == c.lsy * c.h && f.y <= c.y
    && |f.u| == c.lsu * (c.h / 2) && f.u <= c.u
    && |f.v| == c.lsv * (c.h / 2) && f.v <= c.v
    && f.lsy == c.lsy && f.lsu == c.lsu && f.lsv == c.lsv && f.w == c.w && f.h == c.h
    && f.timestampUs == c.timestampUs && f.seqNo == c.seqNo
  }

  /** The event is what Push, or Pop, makes of the call. */
  predicate Answers(e: Event, c: Call) {
    match c
    case PushCall(_, _, _, _, _, _, _, _, _, _) => e.Pushed? && Shows(e.f, c)
    case PopCall(now) => e.Popped? && e.now == now
  }

  ghost predicate AllAnswer(ev: seq<Event>, calls: seq<Call>) {
    |ev| == |calls| && forall i :: 0 <= i < |ev| ==> Answers(ev[i], calls[i])
  }

  /** How many push calls of a run pass frame f. */
  function CallsShowing(calls: seq<Call>, f: Frame): nat {
    if calls == [] then 0
    else CallsShowing(calls[..|calls| - 1], f) + if Shows(f, calls[|calls| - 1]) then 1 else 0
  }

  /** A call determines the frame that it pushes. */
  lemma {:induction false} ShowsOne(f: Frame, g: Frame, c: Call)
    requires Shows(f, c) && Shows(g, c)
    ensures f == g
  {
    assert f.y == c.y[..|f.y|] == g.y && f.u == c.u[..|f.u|] == g.u && f.v == c.v[..|f.v|] == g.v;
  }

  lemma {:induction false} PushesAreCalls(ev: seq<Event>, calls: seq<Call>, f: Frame)
    requires AllAnswer(ev, calls)
    ensures Pushes(ev, f) == CallsShowing(calls, f)
  {
    if ev == [] {
    } else {
      var n := |ev| - 1;
      PushesAreCalls(ev[..n], calls[..n], f);
      assert Answers(ev[n], calls[n]);
      if Shows(f, calls[n]) {
        ShowsOne(f, ev[n].f, calls[n]);
      }
    }
  }

  /** In every run each frame is shown at most as often as the application has passed it in,
      with just these planes, line sizes, dimensions, time and number; and every pass that is
      not shown was evicted, or is still held. */
  lemma {:induction false} ShownAsPassedIn(st: seq<multiset<Frame>>, ev: seq<Event>, calls: seq<Call>, delay: u64,
                                           f: Frame)
    requires Trace(st, ev, delay) && AllAnswer(ev, calls)
    ensures CallsShowing(calls, f) == Pops(ev, f) + Evictions(ev, f) + st[|ev|][f]
    ensures f in PoppedIn(ev) ==> exists i :: 0 <= i < |calls| && Shows(f, calls[i])
  {
    Conservation(st, ev, delay, f);
    PushesAreCalls(ev, calls, f);
    PoppedIsCounted(ev, f);
    if f in PoppedIn(ev) {
      ShowingCall(calls, f);
    }
  }

  lemma {:induction false} PoppedIsCounted(ev: seq<Event>, f: Frame)
    ensures f in PoppedIn(ev) <==> Pops(ev, f) > 0
  {
    if ev == [] {
    } else {
      PoppedIsCounted(ev[..|ev| - 1], f);
    }
  }

  lemma {:induction false} ShowingCall(calls: seq<Call>, f: Frame)
    requires CallsShowing(calls, f) > 0
    ensures exists i :: 0 <= i < |calls| && Shows(f, calls[i])
  {
    var n := |calls| - 1;
    if !Shows(f, calls[n]) {
      ShowingCall(calls[..n], f);
    }
  }

  ghost predicate SeriallySorted(s: seq<Frame>) {
    forall i :: 0 < i < |s| ==> AtOrAfter(s[i].seqNo, s[i - 1].seqNo)
  }

  ghost predicate NoneOlderThan(m: multiset<Frame>, shown: seq<Frame>) {
    shown != [] ==> forall f <- m :: AtOrAfter(f.seqNo, shown[|shown| - 1].seqNo)
  }

  /** No frame is pushed that is serially older than the last one released before it. */
  ghost predicate NoLatePush(ev: seq<Event>) {
    var n := |ev| - 1;
    ev != [] ==>
      && NoLatePush(ev[..n])
      && (ev[n].Pushed? ==> NoneOlderThan(multiset{ev[n].f}, PoppedIn(ev[..n])))
  }

  lemma {:induction false} StepKeepsOrder(pre: multiset<Frame>, e: Event, post: multiset<Frame>, delay: u64,
                                          shown: seq<Frame>)
    requires Step(pre, e, post, delay) && SpansUnderHalf(pre)
    requires NoneOlderThan(pre, shown)
    requires e.Pushed? ==> NoneOlderThan(multiset{e.f}, shown)
    ensures NoneOlderThan(post, shown + Outputs(e))
    ensures Outputs(e) != [] && shown != [] ==> AtOrAfter(Outputs(e)[0].seqNo, shown[|shown| - 1].seqNo)
  {
    forall f <- post ensures f in pre || (e.Pushed? && f == e.f) {}
    if e.Pushed? {
      assert shown + Outputs(e) == shown;
    } else if e.out.None? {
      assert shown + Outputs(e) == shown;
    } else {
      assert (shown + Outputs(e))[|shown|] == e.out.value;
    }
  }

  lemma {:induction false} SortedAppend(shown: seq<Frame>, more: seq<Frame>)
    requires SeriallySorted(shown) && |more| <= 1
    requires more != [] && shown != [] ==> AtOrAfter(more[0].seqNo, shown[|shown| - 1].seqNo)
    ensures SeriallySorted(shown + more)
  {}

  /** The output is in serial order as long as nothing arrives behind it. */
  lemma {:induction false} OutputSorted(st: seq<multiset<Frame>>, ev: seq<Event>, delay: u64)
    requires Trace(st, ev, delay)
    requires forall i :: 0 <= i < |st| ==> SpansUnderHalf(st[i])
    requires NoLatePush(ev)
    ensures SeriallySorted(PoppedIn(ev))
    ensures NoneOlderThan(st[|ev|], PoppedIn(ev))
    decreases |ev|
  {
    if ev == [] {
    } else {
      var n := |ev| - 1;
      OutputSorted(st[..|ev|], ev[..n], delay);
      StepKeepsOrder(st[n], ev[n], st[n + 1], delay, PoppedIn(ev[..n]));
      SortedAppend(PoppedIn(ev[..n]), Outputs(ev[n]));
    }
  }

  /** Eviction sacrifices the frame to be shown next only when all sequence numbers tie. */
  lemma {:induction false} EvictionSparesTheOldest(pre: multiset<Frame>, f: Frame, e: Frame, post: multiset<Frame>,
                                                   delay: u64)
    requires Step(pre, Pushed(f, Some(e)), post, delay) && SpansUnderHalf(pre)
    requires Oldest(e, pre)
    ensures forall g <- pre :: g.seqNo == e.seqNo
  {
    forall g <- pre ensures g.seqNo == e.seqNo {
      ComparisonIsRfc1982(g.seqNo, e.seqNo);
    }
  }

  // ---------- The slot array ----------

  ghost function With(m: multiset<Frame>, s: Slot): multiset<Frame> {
    if s.Holds? then m + multiset{s.frame} else m
  }

  ghost function LiveFrames(s: seq<Slot>): multiset<Frame> {
    if s == [] then multiset{} else With(LiveFrames(s[..|s| - 1]), s[|s| - 1])
  }

  lemma {:induction false} WithCommutes(m: multiset<Frame>, s: Slot, f: Frame)
    ensures With(m + multiset{f}, s) == With(m, s) + multiset{f}
    ensures f in m ==> f in With(m, s) && With(m - multiset{f}, s) == With(m, s) - multiset{f}
  {}

  // What putting a frame into a free slot, and emptying a slot, does to the multiset.

  lemma {:induction false} LiveFill(s: seq<Slot>, i: nat, f: Frame)
    requires i < |s| && s[i].Free?
    ensures LiveFrames(s[i := Holds(f)]) == LiveFrames(s) + multiset{f}
  {
    var n := |s| - 1;
    if i == n {
      assert s[i := Holds(f)][..n] == s[..n];
    } else {
      LiveFill(s[..n], i, f);
      WithCommutes(LiveFrames(s[..n]), s[n], f);
      assert s[i := Holds(f)][..n] == s[..n][i := Holds(f)];
    }
  }

  lemma {:induction false} LiveEmpty(s: seq<Slot>, i: nat, f: Frame)
    requires i < |s| && s[i] == Holds(f)
    ensures f in LiveFrames(s) && LiveFrames(s[i := Free]) == LiveFrames(s) - multiset{f}
  {
    var n := |s| - 1;
    if i == n {
      assert s[i := Free][..n] == s[..n];
    } else {
      LiveEmpty(s[..n], i, f);
      WithCommutes(LiveFrames(s[..n]), s[n], f);
      assert s[i := Free][..n] == s[..n][i := Free];
    }
  }

  lemma {:induction false} LiveMembers(s: seq<Slot>, f: Frame)
    ensures f in LiveFrames(s) <==> Holds(f) in s
  {
    if s == [] {
    } else {
      LiveMembers(s[..|s| - 1], f);
      assert s == s[..|s| - 1] + [s[|s| - 1]];
    }
  }

  function FreeSlots(s: seq<Slot>): nat {
    if s == [] then 0 else FreeSlots(s[..|s| - 1]) + if s[|s| - 1].Free? then 1 else 0
  }

  lemma {:induction false} LiveCount(s: seq<Slot>)
    ensures |LiveFrames(s)| + FreeSlots(s) == |s|
  {
    if s == [] {
    } else {
      LiveCount(s[..|s| - 1]);
    }
  }

  lemma {:induction false} FreeSlotExists(s: seq<Slot>)
    ensures FreeSlots(s) == 0 <==> forall i :: 0 <= i < |s| ==> s[i].Holds?
    ensures FreeSlots(s) <= |s|
    ensures FreeSlots(s) == |s| <==> forall i :: 0 <= i < |s| ==> s[i].Free?
  {
    if s == [] {
    } else {
      FreeSlotExists(s[..|s| - 1]);
      assert forall i :: 0 <= i < |s| ==> s[i] == if i < |s| - 1 then s[..|s| - 1][i] else s[|s| - 1];
    }
  }

  // The two selection loops see slots, not multisets; these predicates are the slot view.

  ghost predicate SlotsInHalf(s: seq<Slot>, base: u32) {
    forall j :: 0 <= j < |s| && s[j].Holds? ==> Sub32(s[j].frame.seqNo, base) < TWO31
  }

  ghost predicate NewestAmong(s: seq<Slot>, k: nat, seqNo: u32)
    requires k <= |s|
  {
    forall j :: 0 <= j < k && s[j].Holds? ==> AtOrAfter(seqNo, s[j].frame.seqNo)
  }

  ghost predicate OldestAmong(s: seq<Slot>, k: nat, seqNo: u32)
    requires k <= |s|
  {
    forall j :: 0 <= j < k && s[j].Holds? ==> AtOrAfter(s[j].frame.seqNo, seqNo)
  }

  /** One round of the eviction scan keeps the newest of the slots seen so far. */
  lemma {:induction false} NewestRound(s: seq<Slot>, base: u32, k: nat, drop: nat)
    requires k < |s| && s[k].Holds? && SlotsInHalf(s, base)
    requires drop < |s| && s[drop].Holds? && NewestAmong(s, k, s[drop].frame.seqNo)
    ensures AtOrAfter(s[k].frame.seqNo, s[drop].frame.seqNo) ==> NewestAmong(s, k + 1, s[k].frame.seqNo)
    ensures !AtOrAfter(s[k].frame.seqNo, s[drop].frame.seqNo) ==> NewestAmong(s, k + 1, s[drop].frame.seqNo)
  {
    var a, d := s[k].frame.seqNo, s[drop].frame.seqNo;
    OrderWithinHalf(base, a, d);
    OrderWithinHalf(base, d, a);
    OrderWithinHalf(base, a, a);
    forall j | 0 <= j < k && s[j].Holds? && AtOrAfter(a, d) ensures AtOrAfter(a, s[j].frame.seqNo) {
      OrderWithinHalf(base, a, s[j].frame.seqNo);
      OrderWithinHalf(base, d, s[j].frame.seqNo);
    }
  }

  /** One round of the release scan keeps the oldest of the slots seen so far. */
  lemma {:induction false} OldestRound(s: seq<Slot>, base: u32, k: nat, best: nat)
    requires k < |s| && s[k].Holds? && SlotsInHalf(s, base)
    requires best < |s| && s[best].Holds? && OldestAmong(s, k, s[best].frame.seqNo)
    ensures AtOrAfter(s[best].frame.seqNo, s[k].frame.seqNo) ==> OldestAmong(s, k + 1, s[k].frame.seqNo)
    ensures !AtOrAfter(s[best].frame.seqNo, s[k].frame.seqNo) ==> OldestAmong(s, k + 1, s[best].frame.seqNo)
  {
    var a, d := s[k].frame.seqNo, s[best].frame.seqNo;
    OrderWithinHalf(base, a, d);
    OrderWithinHalf(base, d, a);
    OrderWithinHalf(base, a, a);
    forall j | 0 <= j < k && s[j].Holds? && AtOrAfter(d, a) ensures AtOrAfter(s[j].frame.seqNo, a) {
      OrderWithinHalf(base, s[j].frame.seqNo, a);
      OrderWithinHalf(base, s[j].frame.seqNo, d);
    }
  }

  lemma {:induction false} LiveInHalf(s: seq<Slot>, base: u32)
    requires InHalf(LiveFrames(s), base)
    ensures SlotsInHalf(s, base)
  {
    forall j | 0 <= j < |s| && s[j].Holds? ensures Sub32(s[j].frame.seqNo, base) < TWO31 {
      LiveMembers(s, s[j].frame);
    }
  }

  lemma {:induction false} NewestOfAll(s: seq<Slot>, i: nat)
    requires i < |s| && s[i].Holds? && NewestAmong(s, |s|, s[i].frame.seqNo)
    ensures Newest(s[i].frame, LiveFrames(s))
  {
    LiveMembers(s, s[i].frame);
    forall f <- LiveFrames(s) ensures AtOrAfter(s[i].frame.seqNo, f.seqNo) {
      LiveMembers(s, f);
    }
  }

  lemma {:induction false} OldestOfAll(s: seq<Slot>, i: nat)
    requires i < |s| && s[i].Holds? && OldestAmong(s, |s|, s[i].frame.seqNo)
    ensures Oldest(s[i].frame, LiveFrames(s))
  {
    LiveMembers(s, s[i].frame);
    forall f <- LiveFrames(s) ensures AtOrAfter(f.seqNo, s[i].frame.seqNo) {
      LiveMembers(s, f);
    }
  }

  lemma {:induction false} NoneRipe(s: seq<Slot>, now: u64, delay: u64)
    requires forall j :: 0 <= j < |s| && s[j].Holds? ==> !Ripe(s[j].frame, now, delay)
    ensures forall f <- LiveFrames(s) :: !Ripe(f, now, delay)
  {
    forall f <- LiveFrames(s) ensures !Ripe(f, now, delay) {
      LiveMembers(s, f);
    }
  }

  class Jitter {
    const slots: array<Slot>
    var count: nat
    const targetDelayUs: u64

    ghost predicate Valid()
      reads this, slots
    {
      slots.Length == JITTER_SIZE && count == |Live()|
    }

    ghost function Live(): multiset<Frame>
      reads slots
    {
      LiveFrames(slots[..])
    }

    constructor (targetDelayUs: u64)
      ensures Valid() && fresh(slots) && Live() == multiset{} && this.targetDelayUs == targetDelayUs
    {
      slots := new Slot[JITTER_SIZE](_ => Free);
      count := 0;
      this.targetDelayUs := targetDelayUs;
      new;
      LiveCount(slots[..]);
      FreeSlotExists(slots[..]);
    }

    /** A start of a half circle holding all buffered frames, when there is one. */
    ghost function Base(): (base: u32)
      reads slots
      ensures SpansUnderHalf(Live()) ==> SlotsInHalf(slots[..], base)
    {
      if SpansUnderHalf(Live()) then
        var b: u32 :| InHalf(Live(), b);
        LiveInHalf(slots[..], b);
        b
      else 0
    }

    /** The slot whose frame is given up when the buffer is full: the serially greatest. */
    method NewestSlot() returns (drop: int)
      requires Valid()
      ensures -1 <= drop < JITTER_SIZE
      ensures drop < 0 <==> count == 0
      ensures drop >= 0 ==> slots[drop].Holds? && slots[drop].frame in Live()
      ensures drop >= 0 && SpansUnderHalf(Live()) ==> Newest(slots[drop].frame, Live())
    {
      ghost var s, base := slots[..], Base();
      drop := -1;
      var maxSeq: u32 := 0;
      for i := 0 to JITTER_SIZE
        invariant -1 <= drop < i
        invariant drop < 0 ==> forall j :: 0 <= j < i ==> s[j].Free?
        invariant drop >= 0 ==> s[drop].Holds? && maxSeq == s[drop].frame.seqNo
        invariant drop >= 0 && SlotsInHalf(s, base) ==> NewestAmong(s, i, maxSeq)
      {
        if slots[i].Free? { continue; }
        if drop >= 0 && SlotsInHalf(s, base) {
          NewestRound(s, base, i, drop);
        }
        if drop < 0 || AtOrAfter(slots[i].frame.seqNo, maxSeq) {
          maxSeq, drop := slots[i].frame.seqNo, i;
        }
      }
      LiveCount(s);
      FreeSlotExists(s);
      if drop >= 0 {
        LiveMembers(s, s[drop].frame);
        if SpansUnderHalf(Live()) {
          NewestOfAll(s, drop);
        }
      }
    }

    /** The slot released next: the serially least of the frames that are ready. */
    method OldestReadySlot(now: u64) returns (best: int)
      requires Valid()
      ensures -1 <= best < JITTER_SIZE
      ensures best >= 0 ==> slots[best].Holds? && slots[best].frame in Live()
      ensures best >= 0 ==> count >= 2 || Ripe(slots[best].frame, now, targetDelayUs)
      ensures best < 0 ==> count < 2 && forall f <- Live() :: !Ripe(f, now, targetDelayUs)
      ensures best >= 0 && count >= 2 && SpansUnderHalf(Live()) ==> Oldest(slots[best].frame, Live())
    {
      ghost var s, base := slots[..], Base();
      best := -1;
      var bestSeq: u32 := 0xFFFF_FFFF;
      for i := 0 to JITTER_SIZE
        invariant -1 <= best < i
        invariant best < 0 ==>
                    forall j :: 0 <= j < i && s[j].Holds? ==> count < 2 && !Ripe(s[j].frame, now, targetDelayUs)
        invariant best >= 0 ==> s[best].Holds? && bestSeq == s[best].frame.seqNo
        invariant best >= 0 ==> count >= 2 || Ripe(s[best].frame, now, targetDelayUs)
        invariant best >= 0 && count >= 2 && SlotsInHalf(s, base) ==> OldestAmong(s, i, bestSeq)
      {
        if slots[i].Free? { continue; }
        if best >= 0 && count >= 2 && SlotsInHalf(s, base) {
          OldestRound(s, base, i, best);
        }
        var ready := count >= 2 || Ripe(slots[i].frame, now, targetDelayUs);
        if ready && (best < 0 || AtOrAfter(bestSeq, slots[i].frame.seqNo)) {
          bestSeq, best := slots[i].frame.seqNo, i;
        }
      }
      if best < 0 {
        LiveCount(s);
        FreeSlotExists(s);
        NoneRipe(s, now, targetDelayUs);
      } else {
        LiveMembers(s, s[best].frame);
        if count >= 2 && SpansUnderHalf(Live()) {
          OldestOfAll(s, best);
        }
      }
    }

    /** The first free slot. */
    method FreeSlot() returns (slot: int)
      requires Valid()
      ensures -1 <= slot < JITTER_SIZE
      ensures slot < 0 <==> count == JITTER_SIZE
      ensures slot >= 0 ==> slots[slot].Free?
    {
      slot := -1;
      LiveCount(slots[..]);
      FreeSlotExists(slots[..]);
      for i := 0 to JITTER_SIZE
        invariant slot == -1 && forall j :: 0 <= j < i ==> slots[j].Holds?
      {
        if slots[i].Free? { slot := i; break; }
      }
    }

    method Vacate(i: nat)
      requires Valid() && i < JITTER_SIZE && slots[i].Holds?
      modifies `count, slots
      ensures Valid() && count == old(count) - 1
      ensures Live() == old(Live()) - multiset{old(slots[i].frame)}
    {
      ghost var s := slots[..];
      LiveEmpty(s, i, s[i].frame);
      slots[i] := Free;
      count := count - 1;
      assert slots[..] == s[i := Free];
    }

    method Occupy(i: nat, f: Frame)
      requires Valid() && i < JITTER_SIZE && slots[i].Free?
      modifies `count, slots
      ensures Valid() && count == old(count) + 1
      ensures Live() == old(Live()) + multiset{f}
    {
      ghost var s := slots[..];
      LiveFill(s, i, f);
      slots[i] := Holds(f);
      count := count + 1;
      assert slots[..] == s[i := Holds(f)];
    }

    /** p2p_video_jitter_push: refines the push of the abstract queue. Of each plane it copies
        line size times height bytes, the chroma planes having half the lines. A free slot is
        always found, so the source's return without one is not reachable. */
    method Push(y: seq<u8>, u: seq<u8>, v: seq<u8>, lsy: nat, lsu: nat, lsv: nat,
                w: nat, h: nat, timestampUs: u64, seqNo: u32) returns (ghost added: Frame, ghost evicted: Option<Frame>)
      requires Valid()
      requires |y| >= lsy * h && |u| >= lsu * (h / 2) && |v| >= lsv * (h / 2)
      modifies `count, slots
      ensures Valid()
      ensures Step(old(Live()), Pushed(added, evicted), Live(), targetDelayUs)
      ensures |added.y| == lsy * h && added.y <= y
      ensures |added.u| == lsu * (h / 2) && added.u <= u
      ensures |added.v| == lsv * (h / 2) && added.v <= v
      ensures added.lsy == lsy && added.lsu == lsu && added.lsv == lsv && added.w == w && added.h == h
      ensures added.timestampUs == timestampUs && added.seqNo == seqNo
    {
      evicted := None;
      if count >= JITTER_SIZE {
        LiveCount(slots[..]);
        var drop := NewestSlot();
        evicted := Some(slots[drop].frame);
        Vacate(drop);
      }
      var slot := FreeSlot();
      var frame := Frame(y[..lsy * h], u[..lsu * (h / 2)], v[..lsv * (h / 2)], lsy, lsu, lsv, w, h, timestampUs, seqNo);
      Occupy(slot, frame);
      added := frame;
    }

    /** p2p_video_jitter_pop: refines the pop of the abstract queue. */
    method Pop(now: u64) returns (out: Option<Frame>)
      requires Valid()
      modifies `count, slots
      ensures Valid()
      ensures Step(old(Live()), Popped(now, out), Live(), targetDelayUs)
      ensures old(count) >= 2 ==> out.Some?
      ensures old(count) == 1 ==>
                forall f <- old(Live()) ::
                  out == if f.timestampUs > 0 && Sub64(now, f.timestampUs) >= targetDelayUs then Some(f) else None
    {
      if count == 0 {
        return None;
      }
      ghost var live := Live();
      var best := OldestReadySlot(now);
      if best < 0 {
        return None;
      }
      out := Some(slots[best].frame);
      if count == 1 {
        LoneFrameIsOldest(live, out.value);
        assert forall f <- live :: f == out.value && Ripe(f, now, targetDelayUs);
      }
      Vacate(best);
    }
  }

  lemma {:induction false} LoneFrameIsOldest(m: multiset<Frame>, f: Frame)
    requires f in m && |m| == 1
    ensures Oldest(f, m) && m == multiset{f}
  {
    assert m == multiset{f} by {
      assert |m - multiset{f}| == 0;
    }
  }
}
